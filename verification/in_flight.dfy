/** Whole runs of the sender's bookkeeping (pstream/ackhandler/sent_packet_handler.go): every packet that is tracked is
    in flight, acknowledged or queued for retransmission, and only one of these. */
module InFlight {

  import opened Wire
  import opened PacketLists
  import opened AckFrames
  import opened SentPacketsSpec

  datatype Event =
    | Send(packet: Packet, now: int)
    | AckArrives(frame: AckFrame, withPacketNumber: nat, now: int, delay: int)
    | ClosePathArrives(frame: AckFrame, withPacketNumber: nat)
    | AlarmRings(now: int, delay: int, failed: bool)
    | GiveUpPath
    | Retransmit
    | Duplicate(packet: Packet)
    | AnnounceStopWaiting(force: bool)

  /** The state, with the numbers and bytes of all packets that were tracked, acknowledged and queued so far. */
  datatype Ledger = Ledger(
    sender: Sender, tracked: set<nat>, acked: set<nat>, lost: set<nat>,
    sentBytes: nat, ackedBytes: nat, lostBytes: nat, duplicates: nat)

  const START := Ledger(NEW_SENDER, {}, {}, {}, 0, 0, 0, 0)

  function Track(l: Ledger, packet: Packet, now: int): Ledger {
    var (s, r) := SentPacket(l.sender, packet, now);
    if r == Ok && packet.kept then
      l.(sender := s, tracked := l.tracked + {packet.number}, sentBytes := l.sentBytes + packet.length)
    else l.(sender := s)
  }

  function Record(l: Ledger, o: Outcome): Ledger {
    l.(sender := o.sender, acked := l.acked + Numbers(o.acked), lost := l.lost + Numbers(o.lost),
       ackedBytes := l.ackedBytes + Bytes(o.acked), lostBytes := l.lostBytes + Bytes(o.lost))
  }

  function Step(l: Ledger, e: Event): Ledger {
    match e
    case Send(packet, now) => Track(l, packet, now)
    case AckArrives(f, n, now, delay) => Record(l, ReceivedAck(l.sender, f, n, now, delay))
    case ClosePathArrives(f, n) => Record(l, ReceivedClosePath(l.sender, f, n))
    case AlarmRings(now, delay, failed) => Record(l, OnAlarm(l.sender, now, delay, failed))
    case GiveUpPath => Record(l, SetInflightAsLost(l.sender))
    case Retransmit => l.(sender := Dequeue(l.sender).0)
    case Duplicate(packet) =>
      l.(sender := l.sender.(queue := l.sender.queue + [packet]), duplicates := l.duplicates + 1)
    case AnnounceStopWaiting(force) => l.(sender := GetStopWaiting(l.sender, force).0)
  }

  function Run(l: Ledger, events: seq<Event>): Ledger
    decreases |events|
  {
    if events == [] then l else Run(Step(l, events[0]), events[1..])
  }

  // ---- One call ----

  /** The packets in flight before a call are in flight after it, acknowledged or queued, and only one of these. */
  ghost predicate Partitions(s: Sender, o: Outcome) {
    && Numbers(s.history) == Numbers(o.sender.history) + Numbers(o.acked) + Numbers(o.lost)
    && Numbers(o.sender.history) !! Numbers(o.acked) !! Numbers(o.lost)
    && Bytes(s.history) == Bytes(o.sender.history) + Bytes(o.acked) + Bytes(o.lost)
    && |s.history| == |o.sender.history| + |o.acked| + |o.lost|
    && o.sender.queue == s.queue + o.lost
    && o.sender.lastSent == s.lastSent
    && Ascending(o.acked) && Ascending(o.lost)
  }

  lemma NothingRetired(s: Sender, s': Sender, status: Status)
    requires s'.history == s.history && s'.queue == s.queue && s'.lastSent == s.lastSent
    ensures Partitions(s, Outcome(s', status, [], []))
  {
    AppendNothing(s.queue);
  }

  /** Acknowledging by g, then queueing by h. */
  lemma RetirePartitions(s: Sender, s1: Sender, g: Packet -> bool, h: Packet -> bool, s': Sender)
    requires Ascending(s.history) && s1 == AckWhere(s, g)
    requires var s2 := QueueWhere(s1, h); s'.history == s2.history && s'.queue == s2.queue && s'.lastSent == s2.lastSent
    ensures Partitions(s, Outcome(s', Ok, Select(s.history, g), Select(s1.history, h)))
  {
    hide Select, Numbers, Bytes, Ascending, Raise;
    SelectNumbers(s.history, g);
    SelectBytes(s.history, g);
    SelectAscending(s.history, g);
    SelectAscending(s.history, Not(g));
    SelectNumbers(s1.history, h);
    SelectBytes(s1.history, h);
    SelectAscending(s1.history, h);
  }

  /** Queueing by h alone. */
  lemma QueuePartitions(s: Sender, h: Packet -> bool, s': Sender)
    requires Ascending(s.history)
    requires var s2 := QueueWhere(s, h); s'.history == s2.history && s'.queue == s2.queue && s'.lastSent == s2.lastSent
    ensures Partitions(s, Outcome(s', Ok, [], Select(s.history, h)))
  {
    hide Select, Raise;
    SelectNumbers(s.history, h);
    SelectBytes(s.history, h);
    SelectAscending(s.history, h);
  }

  lemma AckPartitions(s: Sender, f: AckFrame, n: nat, now: int, delay: int)
    requires Valid(s)
    ensures Partitions(s, ReceivedAck(s, f, n, now, delay))
  {
    hide Partitions, Select, Bytes, Raise, CollectSkipped;
    var o := ReceivedAck(s, f, n, now, delay);
    if o.status != Ok || f.largestAcked <= LargestInOrderAcked(s) {
      NothingRetired(s, o.sender, o.status);
    } else {
      var s2 := s.(largestWithAck := n, largestAcked := f.largestAcked);
      var s3 := AckWhere(s2, AckedBy(f));
      RetirePartitions(s2, s3, AckedBy(f), Late(s3.largestAcked, now, delay), o.sender);
      SameHistory(s, s2, o);
    }
  }

  lemma SameHistory(s: Sender, s2: Sender, o: Outcome)
    requires Partitions(s2, o) && s.history == s2.history && s.queue == s2.queue && s.lastSent == s2.lastSent
    ensures Partitions(s, o)
  {
  }

  lemma ClosePathPartitions(s: Sender, f: AckFrame, n: nat)
    requires Valid(s)
    ensures Partitions(s, ReceivedClosePath(s, f, n))
  {
    hide Partitions, Select, Bytes, Raise, CollectSkipped;
    var o := ReceivedClosePath(s, f, n);
    if o.status != Ok {
      NothingRetired(s, o.sender, o.status);
    } else {
      var s1 := s.(largestWithAck := n);
      var s2 := AckWhere(s1, AckedBy(f));
      RetirePartitions(s1, s2, AckedBy(f), UpTo(s2.largestAcked), o.sender);
      SameHistory(s, s1, o);
    }
  }

  lemma AlarmPartitions(s: Sender, now: int, delay: int, failed: bool)
    requires Valid(s)
    ensures Partitions(s, OnAlarm(s, now, delay, failed))
  {
    hide Partitions, Select, Bytes, Raise;
    var o := OnAlarm(s, now, delay, failed);
    if HasOutstanding(s) {
      QueuePartitions(s, AlarmSelects(s, now, delay, failed), o.sender);
    } else {
      NothingRetired(s, o.sender, Ok);
    }
  }

  // ---- Whole runs ----

  ghost predicate Balanced(l: Ledger) {
    && Valid(l.sender)
    && l.tracked == Numbers(l.sender.history) + l.acked + l.lost
    && Numbers(l.sender.history) !! l.acked !! l.lost
    && (forall n :: n in l.tracked ==> 0 < n <= l.sender.lastSent)
    && l.sentBytes == l.sender.bytesInFlight + l.ackedBytes + l.lostBytes
    && |l.sender.history| + |l.sender.queue| <= MAX_TRACKED + l.duplicates
  }

  lemma RecordBalanced(l: Ledger, o: Outcome)
    requires Balanced(l) && Valid(o.sender) && Partitions(l.sender, o)
    ensures Balanced(Record(l, o))
  {
    hide Numbers, Bytes, Ascending, Tracked;
  }

  lemma TrackBalanced(l: Ledger, packet: Packet, now: int)
    requires Balanced(l)
    ensures Balanced(Track(l, packet, now))
  {
    SendValid(l.sender, packet, now);
    SentFields(l.sender, packet, now);
    hide Valid, Numbers, SentPacket;
  }

  /** What sending does to the fields that the ledger mentions. */
  lemma SentFields(s: Sender, packet: Packet, now: int)
    ensures var (s', r) := SentPacket(s, packet, now);
            && s.lastSent <= s'.lastSent && s'.queue == s.queue
            && (if r == Ok && packet.kept then
                  && packet.number > s.lastSent && s'.lastSent == packet.number
                  && Numbers(s'.history) == Numbers(s.history) + {packet.number} && |s'.history| == |s.history| + 1
                  && s'.bytesInFlight == s.bytesInFlight + packet.length
                  && |s'.history| + |s'.queue| <= MAX_TRACKED
                else s'.history == s.history && s'.bytesInFlight == s.bytesInFlight)
  {
    var p := packet.(sendTime := now);
    NumbersAppend(s.history, [p]);
    assert Numbers([p]) == {packet.number};
    hide Numbers, LastSkipped, Between;
  }

  /** Calls that only touch the queue or the announced numbers. */
  lemma QueueBalanced(l: Ledger, e: Event)
    requires Balanced(l) && (e.Retransmit? || e.Duplicate? || e.AnnounceStopWaiting?)
    ensures Balanced(Step(l, e))
  {
    hide Numbers, Bytes, Ascending, Tracked;
  }

  lemma BalancedValid(l: Ledger)
    requires Balanced(l)
    ensures Valid(l.sender) && Ascending(l.sender.history)
  {
  }

  lemma StepBalanced(l: Ledger, e: Event)
    requires Balanced(l)
    ensures Balanced(Step(l, e))
  {
    var s := l.sender;
    BalancedValid(l);
    hide Balanced, Partitions, Valid, Track, Record, ReceivedAck, ReceivedClosePath, OnAlarm, Ascending;
    match e
    case Send(packet, now) => TrackBalanced(l, packet, now);
    case AckArrives(f, n, now, delay) =>
      ReceivedAckValid(s, f, n, now, delay);
      AckPartitions(s, f, n, now, delay);
      RecordBalanced(l, ReceivedAck(s, f, n, now, delay));
    case ClosePathArrives(f, n) =>
      ReceivedClosePathValid(s, f, n);
      ClosePathPartitions(s, f, n);
      RecordBalanced(l, ReceivedClosePath(s, f, n));
    case AlarmRings(now, delay, failed) =>
      AlarmValid(s, now, delay, failed);
      AlarmPartitions(s, now, delay, failed);
      RecordBalanced(l, OnAlarm(s, now, delay, failed));
    case GiveUpPath =>
      QueueValid(s, UpTo(s.largestAcked));
      QueuePartitions(s, UpTo(s.largestAcked), SetInflightAsLost(s).sender);
      RecordBalanced(l, SetInflightAsLost(s));
    case _ => QueueBalanced(l, e);
  }

  lemma {:induction false} RunBalanced(l: Ledger, events: seq<Event>)
    requires Balanced(l)
    ensures Balanced(Run(l, events))
    decreases |events|
  {
    hide Balanced, Step;
    if events != [] {
      StepBalanced(l, events[0]);
      RunBalanced(Step(l, events[0]), events[1..]);
    }
  }

  lemma StartBalanced()
    ensures Balanced(START)
  {
    NewSenderValid();
    assert Numbers([]) == {};
  }

  lemma ValidSums(s: Sender)
    requires Valid(s)
    ensures s.bytesInFlight == Bytes(s.history) && Ascending(s.history)
  {
  }

  /** In every run, the bytes in flight are the summed length of the packets in flight, in ascending order; every
      tracked packet is in flight, acknowledged or queued, never two of these; and no byte is lost from the books. */
  lemma EveryRunBalanced(events: seq<Event>)
    ensures var l := Run(START, events);
            && l.sender.bytesInFlight == Bytes(l.sender.history) && Ascending(l.sender.history)
            && l.tracked == Numbers(l.sender.history) + l.acked + l.lost
            && Numbers(l.sender.history) !! l.acked !! l.lost
            && l.sentBytes == l.sender.bytesInFlight + l.ackedBytes + l.lostBytes
            && |l.sender.history| + |l.sender.queue| <= MAX_TRACKED + l.duplicates
  {
    hide Run, Valid;
    StartBalanced();
    RunBalanced(START, events);
    ValidSums(Run(START, events).sender);
  }

  /** What was acknowledged stays acknowledged and what was queued stays queued: with EveryRunBalanced, no packet is
      retired twice. */
  lemma RetiredOnce(l: Ledger, e: Event)
    requires Balanced(l)
    ensures var l' := Step(l, e);
            && l.acked <= l'.acked && l.lost <= l'.lost
            && l'.acked - l.acked <= Numbers(l.sender.history) && l'.lost - l.lost <= Numbers(l.sender.history)
            && (l'.acked - l.acked) !! l'.lost && (l'.lost - l.lost) !! l'.acked
  {
    StepBalanced(l, e);
    hide Balanced, Valid, Numbers;
    var s := l.sender;
    match e
    case AckArrives(f, n, now, delay) => AckPartitions(s, f, n, now, delay);
    case ClosePathArrives(f, n) => ClosePathPartitions(s, f, n);
    case AlarmRings(now, delay, failed) => AlarmPartitions(s, now, delay, failed);
    case GiveUpPath => QueuePartitions(s, UpTo(s.largestAcked), SetInflightAsLost(s).sender);
    case _ =>
  }
}

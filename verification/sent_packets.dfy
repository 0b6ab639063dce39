/** Lists of packets in flight. */
module PacketLists {

  /** kept: the packet has frames other than ACK and STOP_WAITING. retransmittable: it has a frame of the kinds that
      keep the loss alarm alive. */
  datatype Packet = Packet(number: nat, length: nat, kept: bool, retransmittable: bool, sendTime: int)

  predicate Ascending(ps: seq<Packet>) {
    forall i, j :: 0 <= i < j < |ps| ==> ps[i].number < ps[j].number
  }

  function Numbers(ps: seq<Packet>): set<nat> {
    set p | p in ps :: p.number
  }

  /** The summed length. */
  function Bytes(ps: seq<Packet>): nat {
    if ps == [] then 0 else Bytes(ps[..|ps| - 1]) + ps[|ps| - 1].length
  }

  /** The packets that satisfy g, in order. */
  function Select(ps: seq<Packet>, g: Packet -> bool): seq<Packet> {
    if ps == [] then []
    else Select(ps[..|ps| - 1], g) + if g(ps[|ps| - 1]) then [ps[|ps| - 1]] else []
  }

  function Not(g: Packet -> bool): Packet -> bool {
    p => !g(p)
  }

  lemma {:induction false} BytesAppend(a: seq<Packet>, b: seq<Packet>)
    ensures Bytes(a + b) == Bytes(a) + Bytes(b)
    decreases |b|
  {
    if b == [] {
      assert a + b == a;
    } else {
      var n := |b| - 1;
      assert (a + b)[..|a + b| - 1] == a + b[..n];
      BytesAppend(a, b[..n]);
    }
  }

  lemma NumbersAppend(a: seq<Packet>, b: seq<Packet>)
    ensures Numbers(a + b) == Numbers(a) + Numbers(b)
  {
    forall n | n in Numbers(a) + Numbers(b)
      ensures n in Numbers(a + b)
    {
      var p :| p in a + b && p.number == n;
    }
  }

  /** Selecting splits a list: every packet is on exactly one side, with its bytes. */
  lemma {:induction false} SelectBytes(ps: seq<Packet>, g: Packet -> bool)
    ensures Bytes(ps) == Bytes(Select(ps, g)) + Bytes(Select(ps, Not(g)))
    ensures |ps| == |Select(ps, g)| + |Select(ps, Not(g))|
    decreases |ps|
  {
    if ps != [] {
      var n := |ps| - 1;
      SelectBytes(ps[..n], g);
      SelectStep(ps, g);
      SelectStep(ps, Not(g));
      hide Select;
      assert Not(g)(ps[n]) == !g(ps[n]);
      BytesAppend(Select(ps[..n], g), [ps[n]]);
      BytesAppend(Select(ps[..n], Not(g)), [ps[n]]);
      BytesOne(ps[n]);
    }
  }

  lemma BytesOne(p: Packet)
    ensures Bytes([p]) == p.length
  {
    assert [p][..0] == [];
  }

  lemma SelectStep(ps: seq<Packet>, g: Packet -> bool)
    requires ps != []
    ensures var n := |ps| - 1;
            Select(ps, g) == if g(ps[n]) then Select(ps[..n], g) + [ps[n]] else Select(ps[..n], g)
  {
  }

  lemma {:induction false} SelectIn(ps: seq<Packet>, g: Packet -> bool, p: Packet)
    ensures p in Select(ps, g) <==> p in ps && g(p)
    decreases |ps|
  {
    if ps != [] {
      var n := |ps| - 1;
      SelectIn(ps[..n], g, p);
      assert ps == ps[..n] + [ps[n]];
    }
  }

  lemma {:induction false} SelectAscending(ps: seq<Packet>, g: Packet -> bool)
    requires Ascending(ps)
    ensures Ascending(Select(ps, g))
    decreases |ps|
  {
    if ps != [] {
      var n := |ps| - 1;
      SelectAscending(ps[..n], g);
      forall p | p in Select(ps[..n], g)
        ensures p.number < ps[n].number
      {
        SelectIn(ps[..n], g, p);
      }
    }
  }

  /** The numbers on the two sides are those of the list, and no number is on both. */
  lemma SelectNumbers(ps: seq<Packet>, g: Packet -> bool)
    requires Ascending(ps)
    ensures Numbers(ps) == Numbers(Select(ps, g)) + Numbers(Select(ps, Not(g)))
    ensures Numbers(Select(ps, g)) !! Numbers(Select(ps, Not(g)))
  {
    forall p: Packet
      ensures p in Select(ps, g) <==> p in ps && g(p)
      ensures p in Select(ps, Not(g)) <==> p in ps && !g(p)
    {
      SelectIn(ps, g, p);
      SelectIn(ps, Not(g), p);
    }
    forall n | n in Numbers(ps)
      ensures n in Numbers(Select(ps, g)) + Numbers(Select(ps, Not(g)))
    {
      var p :| p in ps && p.number == n;
      assert p in Select(ps, g) || p in Select(ps, Not(g));
    }
    forall p, q | p in Select(ps, g) && q in Select(ps, Not(g))
      ensures p.number != q.number
    {
      if p.number == q.number {
        SameNumber(ps, p, q);
      }
    }
  }

  lemma SameNumber(ps: seq<Packet>, p: Packet, q: Packet)
    requires Ascending(ps) && p in ps && q in ps && p.number == q.number
    ensures p == q
  {
    var i :| 0 <= i < |ps| && ps[i] == p;
    var j :| 0 <= j < |ps| && ps[j] == q;
    assert i == j;
  }
}

/** sentPacketHandler (pstream/ackhandler/sent_packet_handler.go) as functions. */
module SentPacketsSpec {

  import opened Wire
  import opened PacketLists
  import opened AckFrames
  import PacketRanges

  const MAX_TRACKED: nat := 5000
  const MAX_SKIPPED: nat := 10
  const MAX_TAIL_LOSS_PROBES: nat := 2

  /** bytesInFlight is unsigned in the source; here it is an integer, so that a difference below zero would show. */
  datatype Sender = Sender(
    lastSent: nat, skipped: seq<nat>,
    largestAcked: nat, largestWithAck: nat,
    history: seq<Packet>, queue: seq<Packet>, bytesInFlight: int,
    tlpCount: nat, rtoCount: nat, lossTime: bool,
    largestLeastUnackedSent: nat, nextLeastUnacked: nat, lastStopWaiting: Option<nat>)

  const NEW_SENDER := Sender(0, [], 0, 0, [], [], 0, 0, 0, false, 0, 0, None)

  datatype Status = Ok | NotIncreasing | TooManyTracked | AckForUnsent | OutOfOrderAck | AckForSkipped

  /** What a call does: the new state, the packets it retires as acknowledged and those it queues for retransmission. */
  datatype Outcome = Outcome(sender: Sender, status: Status, acked: seq<Packet>, lost: seq<Packet>)

  // ---- Sending ----

  /** The numbers from lo to hi, hi excluded. */
  function Between(lo: nat, hi: nat): seq<nat> {
    if hi <= lo then [] else Between(lo, hi - 1) + [hi - 1]
  }

  function LastSkipped(ns: seq<nat>): seq<nat> {
    if |ns| > MAX_SKIPPED then ns[|ns| - MAX_SKIPPED..] else ns
  }

  function SentPacket(s: Sender, packet: Packet, now: int): (Sender, Status) {
    if packet.number <= s.lastSent then (s, NotIncreasing)
    else if |s.queue| + |s.history| + 1 > MAX_TRACKED then (s, TooManyTracked)
    else
      var s1 := s.(skipped := LastSkipped(s.skipped + Between(s.lastSent + 1, packet.number)),
                   lastSent := packet.number);
      if packet.kept then
        (s1.(history := s.history + [packet.(sendTime := now)], bytesInFlight := s.bytesInFlight + packet.length), Ok)
      else (s1, Ok)
  }

  // ---- Retiring packets ----

  function AckedBy(f: AckFrame): Packet -> bool {
    (p: Packet) => Acks(f, p.number)
  }

  function UpTo(n: nat): Packet -> bool {
    (p: Packet) => p.number <= n
  }

  function From(n: nat): Packet -> bool {
    (p: Packet) => p.number >= n
  }

  /** Sent more than delay ago, up to the largest acknowledged number. */
  function Late(largestAcked: nat, now: int, delay: int): Packet -> bool {
    (p: Packet) => p.number <= largestAcked && now - p.sendTime > delay
  }

  /** The least unacknowledged number to announce, after these packets were queued. */
  function Raise(next: nat, ps: seq<Packet>): nat {
    if ps == [] then next else Max(Raise(next, ps[..|ps| - 1]), ps[|ps| - 1].number + 1)
  }

  function AckWhere(s: Sender, g: Packet -> bool): Sender {
    var acked := Select(s.history, g);
    s.(history := Select(s.history, Not(g)), bytesInFlight := s.bytesInFlight - Bytes(acked),
       tlpCount := if acked == [] then s.tlpCount else 0, rtoCount := if acked == [] then s.rtoCount else 0)
  }

  function QueueWhere(s: Sender, g: Packet -> bool): Sender {
    var lost := Select(s.history, g);
    s.(history := Select(s.history, Not(g)), queue := s.queue + lost, bytesInFlight := s.bytesInFlight - Bytes(lost),
       nextLeastUnacked := Raise(s.nextLeastUnacked, lost))
  }

  // ---- Acknowledgements ----

  /** The number before the oldest packet in flight. */
  function LargestInOrderAcked(s: Sender): int {
    if s.history != [] then s.history[0].number - 1 else s.largestAcked
  }

  /** Forgets skipped numbers up to the last one that is not above n. */
  function CollectSkipped(ns: seq<nat>, n: int): seq<nat> {
    if ns == [] then []
    else if ns[|ns| - 1] <= n then []
    else CollectSkipped(ns[..|ns| - 1], n) + [ns[|ns| - 1]]
  }

  predicate SkippedAcked(s: Sender, f: AckFrame) {
    exists i :: 0 <= i < |s.skipped| && Acks(f, s.skipped[i])
  }

  function DetectLost(s: Sender, now: int, delay: int): Sender {
    var s1 := QueueWhere(s, Late(s.largestAcked, now, delay));
    s1.(lossTime := Select(s1.history, UpTo(s.largestAcked)) != [])
  }

  /** The part of ReceivedAck for a frame that acknowledges something new. */
  function ApplyAck(s: Sender, f: AckFrame, now: int, delay: int): Outcome {
    if SkippedAcked(s, f) then Outcome(s, AckForSkipped, [], [])
    else
      var s1 := AckWhere(s, AckedBy(f));
      var s2 := DetectLost(s1, now, delay);
      Outcome(s2.(skipped := CollectSkipped(s2.skipped, LargestInOrderAcked(s2)),
                  nextLeastUnacked := Max(s2.nextLeastUnacked, f.largestAcked + 1)),
              Ok, Select(s.history, AckedBy(f)), Select(s1.history, Late(s1.largestAcked, now, delay)))
  }

  function ReceivedAck(s: Sender, f: AckFrame, withPacketNumber: nat, now: int, delay: int): Outcome {
    if f.largestAcked > s.lastSent then Outcome(s, AckForUnsent, [], [])
    else if withPacketNumber <= s.largestWithAck then Outcome(s, OutOfOrderAck, [], [])
    else
      var s1 := s.(largestWithAck := withPacketNumber);
      if f.largestAcked <= LargestInOrderAcked(s1) then Outcome(s1, Ok, [], [])
      else
        ApplyAck(s1.(largestAcked := f.largestAcked), f, now, delay)
  }

  function ApplyClosePath(s: Sender, f: AckFrame): Outcome {
    if SkippedAcked(s, f) then Outcome(s, AckForSkipped, [], [])
    else
      var s1 := AckWhere(s, AckedBy(f));
      var s2 := QueueWhere(s1, UpTo(s1.largestAcked));
      Outcome(s2.(skipped := CollectSkipped(s2.skipped, LargestInOrderAcked(s2))),
              Ok, Select(s.history, AckedBy(f)), Select(s1.history, UpTo(s1.largestAcked)))
  }

  /** The peer closed the path: what it did not acknowledge, up to the largest number acknowledged before, is lost. */
  function ReceivedClosePath(s: Sender, f: AckFrame, withPacketNumber: nat): Outcome {
    if f.largestAcked > s.lastSent then Outcome(s, AckForUnsent, [], [])
    else if withPacketNumber <= s.largestWithAck then Outcome(s, OutOfOrderAck, [], [])
    else ApplyClosePath(s.(largestWithAck := withPacketNumber), f)
  }

  // ---- Timers ----

  predicate HasOutstanding(s: Sender) {
    exists p :: p in s.history && p.retransmittable
  }

  /** Which packets an alarm queues: late ones if a loss timer is set; else the newest, twice; else, after a
      retransmission timeout, all packets on a path that seems to have failed and otherwise the oldest two. */
  function AlarmSelects(s: Sender, now: int, delay: int, failed: bool): Packet -> bool
    requires s.history != []
  {
    var n := |s.history| - 1;
    if s.lossTime then Late(s.largestAcked, now, delay)
    else if s.tlpCount < MAX_TAIL_LOSS_PROBES then From(s.history[n].number)
    else if failed || n == 0 then UpTo(s.history[n].number)
    else UpTo(s.history[1].number)
  }

  function OnAlarm(s: Sender, now: int, delay: int, failed: bool): Outcome {
    if !HasOutstanding(s) then Outcome(s, Ok, [], [])
    else
      var g := AlarmSelects(s, now, delay, failed);
      var lost := Select(s.history, g);
      if s.lossTime then Outcome(DetectLost(s, now, delay), Ok, [], lost)
      else
        var s1 := QueueWhere(s, g);
        Outcome(if s.tlpCount < MAX_TAIL_LOSS_PROBES then s1.(tlpCount := s.tlpCount + 1)
                else s1.(rtoCount := s.rtoCount + 1),
                Ok, [], lost)
  }

  function SetInflightAsLost(s: Sender): Outcome {
    Outcome(QueueWhere(s, UpTo(s.largestAcked)), Ok, [], Select(s.history, UpTo(s.largestAcked)))
  }

  function Dequeue(s: Sender): (Sender, Option<Packet>) {
    if s.queue == [] then (s, None) else (s.(queue := s.queue[1..]), Some(s.queue[0]))
  }

  /** stopWaitingManager.GetStopWaitingFrame. */
  function GetStopWaiting(s: Sender, force: bool): (Sender, Option<nat>) {
    if s.nextLeastUnacked <= s.largestLeastUnackedSent then
      if force then
        var s1 := if s.lastStopWaiting == None && s.largestLeastUnackedSent > 0
                  then s.(lastStopWaiting := Some(s.nextLeastUnacked)) else s;
        (s1, s1.lastStopWaiting)
      else (s, None)
    else
      (s.(largestLeastUnackedSent := s.nextLeastUnacked, lastStopWaiting := Some(s.nextLeastUnacked)),
       Some(s.nextLeastUnacked))
  }

  // ---- What every call keeps ----

  predicate Tracked(lastSent: nat, ps: seq<Packet>) {
    forall p :: p in ps ==> 0 < p.number <= lastSent && p.kept
  }

  predicate Valid(s: Sender) {
    && Ascending(s.history) && Tracked(s.lastSent, s.history)
    && s.bytesInFlight == Bytes(s.history)
    && |s.skipped| <= MAX_SKIPPED
    && s.largestAcked <= s.lastSent
    && s.largestLeastUnackedSent <= s.nextLeastUnacked <= s.lastSent + 1
    && (match s.lastStopWaiting
        case None => s.largestLeastUnackedSent == 0
        case Some(n) => 0 < n == s.largestLeastUnackedSent)
  }

  lemma NewSenderValid()
    ensures Valid(NEW_SENDER)
  {
  }

  lemma SendValid(s: Sender, packet: Packet, now: int)
    requires Valid(s)
    ensures Valid(SentPacket(s, packet, now).0)
  {
    var p := packet.(sendTime := now);
    if packet.number > s.lastSent {
      TrackedMore(s.lastSent, packet.number, s.history);
      SkippedBound(s.skipped + Between(s.lastSent + 1, packet.number));
      hide LastSkipped, Between;
      if packet.kept {
        AppendTracked(s.lastSent, s.history, p);
        BytesAppend(s.history, [p]);
        BytesOne(p);
      }
      hide Ascending, Tracked, Bytes;
    }
  }

  lemma TrackedMore(lastSent: nat, more: nat, ps: seq<Packet>)
    requires Tracked(lastSent, ps) && lastSent <= more
    ensures Tracked(more, ps)
  {
  }

  lemma SkippedBound(ns: seq<nat>)
    ensures |LastSkipped(ns)| <= MAX_SKIPPED
  {
  }

  /** A packet with a larger number comes last. */
  lemma AppendTracked(lastSent: nat, ps: seq<Packet>, p: Packet)
    requires Ascending(ps) && Tracked(lastSent, ps) && p.number > lastSent && p.kept
    ensures Ascending(ps + [p]) && Tracked(p.number, ps + [p])
  {
    forall i | 0 <= i < |ps|
      ensures ps[i].number < p.number
    {
      assert ps[i] in ps;
    }
  }

  lemma {:induction false} RaiseBound(next: nat, ps: seq<Packet>, lastSent: nat)
    requires Tracked(lastSent, ps) && next <= lastSent + 1
    ensures next <= Raise(next, ps) <= lastSent + 1
    decreases |ps|
  {
    if ps != [] {
      RaiseBound(next, ps[..|ps| - 1], lastSent);
    }
  }

  lemma SelectTracked(lastSent: nat, ps: seq<Packet>, g: Packet -> bool)
    requires Tracked(lastSent, ps)
    ensures Tracked(lastSent, Select(ps, g))
  {
    forall p | p in Select(ps, g)
      ensures 0 < p.number <= lastSent && p.kept
    {
      SelectIn(ps, g, p);
    }
  }

  lemma AckValid(s: Sender, g: Packet -> bool)
    requires Valid(s)
    ensures Valid(AckWhere(s, g))
  {
    hide Select, Bytes;
    SelectBytes(s.history, g);
    SelectAscending(s.history, Not(g));
    SelectTracked(s.lastSent, s.history, Not(g));
  }

  lemma QueueValid(s: Sender, g: Packet -> bool)
    requires Valid(s)
    ensures Valid(QueueWhere(s, g))
  {
    hide Select, Bytes, Raise;
    SelectBytes(s.history, g);
    SelectAscending(s.history, Not(g));
    SelectTracked(s.lastSent, s.history, Not(g));
    SelectTracked(s.lastSent, s.history, g);
    RaiseBound(s.nextLeastUnacked, Select(s.history, g), s.lastSent);
  }

  lemma {:induction false} CollectShorter(ns: seq<nat>, n: int)
    ensures |CollectSkipped(ns, n)| <= |ns|
    ensures forall x :: x in CollectSkipped(ns, n) ==> x in ns
    decreases |ns|
  {
    if ns != [] {
      CollectShorter(ns[..|ns| - 1], n);
    }
  }

  lemma ReceivedAckValid(s: Sender, f: AckFrame, withPacketNumber: nat, now: int, delay: int)
    requires Valid(s)
    ensures Valid(ReceivedAck(s, f, withPacketNumber, now, delay).sender)
  {
    hide Select, Bytes, Raise, CollectSkipped, Ascending, Tracked;
    var s2 := s.(largestWithAck := withPacketNumber, largestAcked := f.largestAcked);
    if f.largestAcked <= s.lastSent {
      AckValid(s2, AckedBy(f));
      var s3 := AckWhere(s2, AckedBy(f));
      QueueValid(s3, Late(s3.largestAcked, now, delay));
      var s4 := DetectLost(s3, now, delay);
      CollectShorter(s4.skipped, LargestInOrderAcked(s4));
    }
  }

  lemma ReceivedClosePathValid(s: Sender, f: AckFrame, withPacketNumber: nat)
    requires Valid(s)
    ensures Valid(ReceivedClosePath(s, f, withPacketNumber).sender)
  {
    hide Select, Bytes, Raise, CollectSkipped, Ascending, Tracked;
    var s1 := s.(largestWithAck := withPacketNumber);
    AckValid(s1, AckedBy(f));
    var s2 := AckWhere(s1, AckedBy(f));
    QueueValid(s2, UpTo(s2.largestAcked));
    var s3 := QueueWhere(s2, UpTo(s2.largestAcked));
    CollectShorter(s3.skipped, LargestInOrderAcked(s3));
  }

  lemma AlarmValid(s: Sender, now: int, delay: int, failed: bool)
    requires Valid(s)
    ensures Valid(OnAlarm(s, now, delay, failed).sender)
  {
    hide Select, Bytes, Raise, CollectSkipped, Ascending, Tracked;
    if HasOutstanding(s) {
      QueueValid(s, AlarmSelects(s, now, delay, failed));
    }
  }

  /** Loss detection queues exactly the packets up to the largest acknowledged one that were sent too long ago, and arms
      the timer exactly if another packet up to that number is left. */
  lemma LostExactly(s: Sender, now: int, delay: int, p: Packet)
    ensures var s' := DetectLost(s, now, delay);
            && |s.queue| <= |s'.queue|
            && (p in s'.queue[|s.queue|..] <==>
                  p in s.history && p.number <= s.largestAcked && now - p.sendTime > delay)
            && (p in s'.history <==> p in s.history && !(p.number <= s.largestAcked && now - p.sendTime > delay))
            && (p in s'.history && p.number <= s.largestAcked ==> s'.lossTime)
            && (s'.lossTime ==> exists q :: q in s'.history && q.number <= s.largestAcked)
  {
    var g := Late(s.largestAcked, now, delay);
    var s' := DetectLost(s, now, delay);
    SelectIn(s.history, g, p);
    SelectIn(s.history, Not(g), p);
    SelectIn(s'.history, UpTo(s.largestAcked), p);
    var pending := Select(s'.history, UpTo(s.largestAcked));
    hide Select, Bytes, Raise;
    assert s'.queue[|s.queue|..] == Select(s.history, g);
    if pending != [] {
      SelectIn(s'.history, UpTo(s.largestAcked), pending[0]);
    }
  }

  /** An ACK frame that is not refused or ignored retires exactly the packets in flight that it acknowledges. */
  lemma AckExactly(s: Sender, f: AckFrame, withPacketNumber: nat, now: int, delay: int, p: Packet)
    ensures var o := ReceivedAck(s, f, withPacketNumber, now, delay);
            && (o.status == Ok && f.largestAcked > LargestInOrderAcked(s) ==>
                  (p in o.acked <==> p in s.history && Acks(f, p.number)))
            && (o.status != Ok || f.largestAcked <= LargestInOrderAcked(s) ==> o.acked == o.lost == [])
  {
    SelectIn(s.history, AckedBy(f), p);
    hide Select, Bytes, Raise, CollectSkipped, SkippedAcked;
  }

  /** What a frame that is applied does: it retires the packets it acknowledges and queues exactly the others up to its
      largest number that were sent too long ago; the timer is armed exactly if another one up to it is left. */
  lemma AckLosesExactly(s: Sender, f: AckFrame, withPacketNumber: nat, now: int, delay: int, p: Packet)
    ensures var o := ReceivedAck(s, f, withPacketNumber, now, delay);
            o.status == Ok && f.largestAcked > LargestInOrderAcked(s) ==>
              var late := p.number <= f.largestAcked && now - p.sendTime > delay;
              && (p in o.lost <==> p in s.history && !Acks(f, p.number) && late)
              && (p in o.sender.history <==> p in s.history && !Acks(f, p.number) && !late)
              && (o.sender.lossTime <==> exists q :: q in o.sender.history && q.number <= f.largestAcked)
              && o.sender.queue == s.queue + o.lost
              && o.sender.largestAcked == f.largestAcked && o.sender.largestWithAck == withPacketNumber
  {
    var o := ReceivedAck(s, f, withPacketNumber, now, delay);
    if o.status == Ok && f.largestAcked > LargestInOrderAcked(s) {
      var s3 := AppliedAck(s, f, withPacketNumber);
      AppliedShape(s, f, withPacketNumber, now, delay);
      hide ReceivedAck, DetectLost, AppliedAck, Acks;
      UnackedIn(s, f, withPacketNumber, p);
      LateIn(s3, now, delay, p);
      TimerExactly(s3, now, delay);
    }
  }

  /** The sender after the acknowledged packets were retired. */
  function AppliedAck(s: Sender, f: AckFrame, withPacketNumber: nat): Sender {
    AckWhere(s.(largestWithAck := withPacketNumber, largestAcked := f.largestAcked), AckedBy(f))
  }

  lemma AppliedShape(s: Sender, f: AckFrame, withPacketNumber: nat, now: int, delay: int)
    ensures var o := ReceivedAck(s, f, withPacketNumber, now, delay);
            var s3 := AppliedAck(s, f, withPacketNumber);
            && s3.largestAcked == f.largestAcked && s3.queue == s.queue
            && (o.status == Ok && f.largestAcked > LargestInOrderAcked(s) ==>
                  var s4 := DetectLost(s3, now, delay);
                  && o.lost == Select(s3.history, Late(f.largestAcked, now, delay))
                  && o.sender.history == s4.history && o.sender.lossTime == s4.lossTime
                  && o.sender.queue == s.queue + o.lost
                  && o.sender.largestAcked == f.largestAcked && o.sender.largestWithAck == withPacketNumber)
  {
    hide Select, Bytes, Raise, CollectSkipped, SkippedAcked;
  }

  lemma UnackedIn(s: Sender, f: AckFrame, withPacketNumber: nat, p: Packet)
    ensures p in AppliedAck(s, f, withPacketNumber).history <==> p in s.history && !Acks(f, p.number)
  {
    SelectIn(s.history, Not(AckedBy(f)), p);
    hide Select, Acks;
  }

  lemma LateIn(s: Sender, now: int, delay: int, p: Packet)
    ensures var late := p.number <= s.largestAcked && now - p.sendTime > delay;
            && (p in Select(s.history, Late(s.largestAcked, now, delay)) <==> p in s.history && late)
            && (p in DetectLost(s, now, delay).history <==> p in s.history && !late)
  {
    LostExactly(s, now, delay, p);
    SelectIn(s.history, Late(s.largestAcked, now, delay), p);
    hide Select, DetectLost;
  }

  /** The timer is armed if and only if a packet up to the largest acknowledged one is left. */
  lemma TimerExactly(s: Sender, now: int, delay: int)
    ensures var s' := DetectLost(s, now, delay);
            s'.lossTime <==> exists q :: q in s'.history && q.number <= s.largestAcked
  {
    var s' := DetectLost(s, now, delay);
    if q :| q in s'.history && q.number <= s.largestAcked {
      LostExactly(s, now, delay, q);
    }
    LostExactly(s, now, delay, Packet(0, 0, false, false, 0));
    hide DetectLost;
  }

  /** Which frames are refused, for which reason, and which are ignored. */
  lemma AckStatusExactly(s: Sender, f: AckFrame, withPacketNumber: nat, now: int, delay: int)
    ensures var o := ReceivedAck(s, f, withPacketNumber, now, delay);
            var s1 := s.(largestWithAck := withPacketNumber);
            && (o.status == AckForUnsent <==> f.largestAcked > s.lastSent)
            && (o.status == OutOfOrderAck <==> f.largestAcked <= s.lastSent && withPacketNumber <= s.largestWithAck)
            && (o.status == AckForSkipped <==>
                  && f.largestAcked <= s.lastSent && withPacketNumber > s.largestWithAck
                  && f.largestAcked > LargestInOrderAcked(s)
                  && exists n :: n in s.skipped && Acks(f, n))
            && (o.status in {AckForUnsent, OutOfOrderAck} ==> o.sender == s)
            && (o.status == Ok && f.largestAcked <= LargestInOrderAcked(s) ==> o.sender == s1)
  {
    hide Select, Bytes, Raise, CollectSkipped, Acks;
    if i :| 0 <= i < |s.skipped| && Acks(f, s.skipped[i]) {
      assert s.skipped[i] in s.skipped;
    }
  }

  /** An ACK that retires a packet restarts the counts of probes and timeouts, and the number to announce moves beyond
      the largest acknowledged one. */
  lemma AckRestarts(s: Sender, f: AckFrame, withPacketNumber: nat, now: int, delay: int)
    ensures var o := ReceivedAck(s, f, withPacketNumber, now, delay);
            && o.sender.tlpCount == (if o.acked == [] then s.tlpCount else 0)
            && o.sender.rtoCount == (if o.acked == [] then s.rtoCount else 0)
            && (o.status == Ok && f.largestAcked > LargestInOrderAcked(s) ==>
                  o.sender.nextLeastUnacked == Max(s.nextLeastUnacked, f.largestAcked + 1))
  {
    var o := ReceivedAck(s, f, withPacketNumber, now, delay);
    if o.status == Ok && f.largestAcked > LargestInOrderAcked(s) {
      var s3 := AckWhere(s.(largestWithAck := withPacketNumber, largestAcked := f.largestAcked), AckedBy(f));
      var lost := Select(s3.history, Late(f.largestAcked, now, delay));
      forall p | p in lost
        ensures p.number <= f.largestAcked
      {
        SelectIn(s3.history, Late(f.largestAcked, now, delay), p);
      }
      RaiseUpTo(s.nextLeastUnacked, lost, f.largestAcked);
      hide Select, Bytes, Raise, CollectSkipped, SkippedAcked;
    }
  }

  lemma {:induction false} RaiseUpTo(next: nat, ps: seq<Packet>, n: nat)
    requires forall p :: p in ps ==> p.number <= n
    ensures next <= Raise(next, ps) <= Max(next, n + 1)
    decreases |ps|
  {
    if ps != [] {
      assert ps[|ps| - 1] in ps;
      RaiseUpTo(next, ps[..|ps| - 1], n);
    }
  }

  /** When the peer closes the path: acknowledged is exactly what the frame names, lost is exactly the rest up to the
      largest number acknowledged before. */
  lemma ClosePathExactly(s: Sender, f: AckFrame, withPacketNumber: nat, p: Packet)
    ensures var o := ReceivedClosePath(s, f, withPacketNumber);
            if o.status == Ok then
              && (p in o.acked <==> p in s.history && Acks(f, p.number))
              && (p in o.lost <==> p in s.history && !Acks(f, p.number) && p.number <= s.largestAcked)
              && (p in o.sender.history <==> p in s.history && !Acks(f, p.number) && p.number > s.largestAcked)
              && o.sender.queue == s.queue + o.lost && o.sender.largestAcked == s.largestAcked
            else o.acked == o.lost == [] && o.sender.history == s.history && o.sender.queue == s.queue
  {
    var o := ReceivedClosePath(s, f, withPacketNumber);
    if o.status == Ok {
      var s2 := AckWhere(s.(largestWithAck := withPacketNumber), AckedBy(f));
      SelectIn(s.history, AckedBy(f), p);
      SelectIn(s.history, Not(AckedBy(f)), p);
      SelectIn(s2.history, UpTo(s.largestAcked), p);
      SelectIn(s2.history, Not(UpTo(s.largestAcked)), p);
    }
    hide Select, Bytes, Raise, CollectSkipped, SkippedAcked;
  }

  /** Which frames of a closed path are refused, and for which reason. */
  lemma ClosePathStatusExactly(s: Sender, f: AckFrame, withPacketNumber: nat)
    ensures var o := ReceivedClosePath(s, f, withPacketNumber);
            && (o.status == AckForUnsent <==> f.largestAcked > s.lastSent)
            && (o.status == OutOfOrderAck <==> f.largestAcked <= s.lastSent && withPacketNumber <= s.largestWithAck)
            && (o.status == AckForSkipped <==>
                  && f.largestAcked <= s.lastSent && withPacketNumber > s.largestWithAck
                  && exists n :: n in s.skipped && Acks(f, n))
            && o.sender.largestWithAck == (if o.status in {AckForUnsent, OutOfOrderAck} then s.largestWithAck
                                           else withPacketNumber)
  {
    hide Select, Bytes, Raise, CollectSkipped, Acks;
    if i :| 0 <= i < |s.skipped| && Acks(f, s.skipped[i]) {
      assert s.skipped[i] in s.skipped;
    }
  }

  /** A packet is refused exactly if its number is not new or too many are tracked; otherwise it is in flight from now
      on if it is kept, with the time of the call. */
  lemma SentExactly(s: Sender, packet: Packet, now: int)
    ensures var (s', r) := SentPacket(s, packet, now);
            && (r == NotIncreasing <==> packet.number <= s.lastSent)
            && (r == TooManyTracked <==> packet.number > s.lastSent && |s.queue| + |s.history| >= MAX_TRACKED)
            && (r != Ok ==> s' == s)
            && (r == Ok ==> s'.lastSent == packet.number && s.history <= s'.history && s'.queue == s.queue)
            && (r == Ok && packet.kept ==>
                  && |s'.history| == |s.history| + 1
                  && s'.history[|s.history|] == packet.(sendTime := now)
                  && s'.bytesInFlight == s.bytesInFlight + packet.length)
            && (r == Ok && !packet.kept ==> s'.history == s.history && s'.bytesInFlight == s.bytesInFlight)
  {
    hide LastSkipped, Between;
  }

  /** An alarm while the loss timer is set queues exactly the late packets, and is neither a probe nor a timeout. */
  lemma LossAlarmExactly(s: Sender, now: int, delay: int, failed: bool, p: Packet)
    requires HasOutstanding(s) && s.lossTime
    ensures var o := OnAlarm(s, now, delay, failed);
            && (p in o.lost <==> p in s.history && p.number <= s.largestAcked && now - p.sendTime > delay)
            && o.sender.queue == s.queue + o.lost
            && o.sender.tlpCount == s.tlpCount && o.sender.rtoCount == s.rtoCount
            && (o.sender.lossTime <==> exists q :: q in o.sender.history && q.number <= s.largestAcked)
  {
    SelectIn(s.history, Late(s.largestAcked, now, delay), p);
    TimerExactly(s, now, delay);
    hide Select, Bytes, Raise, HasOutstanding;
  }

  /** Without outstanding packets an alarm does nothing; otherwise it counts a probe, or a timeout after two probes. */
  lemma AlarmCounts(s: Sender, now: int, delay: int, failed: bool)
    ensures var s' := OnAlarm(s, now, delay, failed).sender;
            if !HasOutstanding(s) then s' == s
            else if s.lossTime then s'.tlpCount == s.tlpCount && s'.rtoCount == s.rtoCount
            else if s.tlpCount < 2 then s'.tlpCount == s.tlpCount + 1 && s'.rtoCount == s.rtoCount
            else s'.tlpCount == s.tlpCount && s'.rtoCount == s.rtoCount + 1
  {
    hide Select, Bytes, Raise, HasOutstanding;
  }
}

/** STOP_WAITING frames (pstream/ackhandler/stop_waiting_manager.go) over whole runs of the sender. */
module StopWaitingRuns {

  import opened Wire
  import opened PacketLists
  import opened SentPacketsSpec
  import opened InFlight

  /** The number to announce is just above the largest queued packet, unless it was larger before. */
  lemma {:induction false} RaiseExactly(next: nat, ps: seq<Packet>)
    ensures var r := Raise(next, ps);
            && r >= next && (forall p :: p in ps ==> p.number < r)
            && (r == next || exists p :: p in ps && r == p.number + 1)
    decreases |ps|
  {
    if ps != [] {
      var n := |ps| - 1;
      RaiseExactly(next, ps[..n]);
      assert ps == ps[..n] + [ps[n]];
    }
  }

  /** What a call leaves of the numbers to announce, and where it puts those of the packets that it queues. */
  predicate Announces(s: Sender, o: Outcome) {
    && o.sender.largestLeastUnackedSent == s.largestLeastUnackedSent
    && o.sender.nextLeastUnacked >= s.nextLeastUnacked
    && forall p :: p in o.lost ==> p.number < o.sender.nextLeastUnacked
  }

  lemma QueueAnnounces(s: Sender, g: Packet -> bool, status: Status, acked: seq<Packet>)
    ensures Announces(s, Outcome(QueueWhere(s, g), status, acked, Select(s.history, g)))
  {
    RaiseExactly(s.nextLeastUnacked, Select(s.history, g));
    hide Select, Bytes, Raise;
  }

  lemma AckAnnounces(s: Sender, f: AckFrames.AckFrame, n: nat, now: int, delay: int)
    ensures Announces(s, ReceivedAck(s, f, n, now, delay)) && Announces(s, ReceivedClosePath(s, f, n))
  {
    hide QueueWhere, Select, Bytes, SkippedAcked, CollectSkipped, LargestInOrderAcked, AckedBy, UpTo, Late;
    var s1 := AckWhere(s.(largestWithAck := n), AckedBy(f));
    QueueAnnounces(s1, UpTo(s1.largestAcked), Ok, []);
    var s2 := AckWhere(s.(largestWithAck := n, largestAcked := f.largestAcked), AckedBy(f));
    QueueAnnounces(s2, Late(s2.largestAcked, now, delay), Ok, []);
  }

  lemma AlarmAnnounces(s: Sender, now: int, delay: int, failed: bool)
    ensures Announces(s, OnAlarm(s, now, delay, failed))
  {
    hide QueueWhere, Select;
    if s.history != [] {
      QueueAnnounces(s, AlarmSelects(s, now, delay, failed), Ok, []);
    }
  }

  /** Every queued packet lies below the number to announce. */
  predicate LostBelow(l: Ledger) {
    forall n :: n in l.lost ==> n < l.sender.nextLeastUnacked
  }

  lemma RecordBelow(l: Ledger, o: Outcome)
    requires LostBelow(l) && Announces(l.sender, o)
    ensures LostBelow(Record(l, o))
  {
    hide Bytes;
  }

  lemma StepBelow(l: Ledger, e: Event)
    requires Valid(l.sender) && LostBelow(l)
    ensures LostBelow(Step(l, e))
    ensures Step(l, e).sender.largestLeastUnackedSent >= l.sender.largestLeastUnackedSent
  {
    hide ReceivedAck, ReceivedClosePath, OnAlarm, QueueWhere, Select, Bytes, Numbers, LastSkipped, Between, LostBelow;
    var s := l.sender;
    match e
    case AckArrives(f, n, now, delay) =>
      AckAnnounces(s, f, n, now, delay);
      RecordBelow(l, ReceivedAck(s, f, n, now, delay));
    case ClosePathArrives(f, n) =>
      AckAnnounces(s, f, n, 0, 0);
      RecordBelow(l, ReceivedClosePath(s, f, n));
    case AlarmRings(now, delay, failed) =>
      AlarmAnnounces(s, now, delay, failed);
      RecordBelow(l, OnAlarm(s, now, delay, failed));
    case GiveUpPath =>
      QueueAnnounces(s, UpTo(s.largestAcked), Ok, []);
      RecordBelow(l, SetInflightAsLost(s));
    case Send(packet, now) => SameBelow(l, Step(l, e));
    case Retransmit => SameBelow(l, Step(l, e));
    case Duplicate(packet) => SameBelow(l, Step(l, e));
    case AnnounceStopWaiting(force) => SameBelow(l, Step(l, e));
  }

  lemma SameBelow(l: Ledger, l': Ledger)
    requires LostBelow(l) && l'.lost == l.lost && l'.sender.nextLeastUnacked == l.sender.nextLeastUnacked
    ensures LostBelow(l')
  {
  }

  lemma StartBelow()
    ensures LostBelow(START)
  {
  }

  lemma {:induction false} RunBelow(l: Ledger, events: seq<Event>)
    requires Balanced(l) && LostBelow(l)
    ensures LostBelow(Run(l, events))
    ensures Run(l, events).sender.largestLeastUnackedSent >= l.sender.largestLeastUnackedSent
    decreases |events|
  {
    if events != [] {
      BalancedValid(l);
      StepBelow(l, events[0]);
      hide Step, LostBelow, Balanced, Valid;
      StepBalanced(l, events[0]);
      RunBelow(Step(l, events[0]), events[1..]);
    }
  }

  /** In every run: a frame announces the current number, if there is one, when it is forced or the number was not
      announced before, and all packets that were queued for retransmission lie below it. */
  lemma FrameExactly(events: seq<Event>, force: bool, n: nat)
    ensures var l := Run(START, events);
            var next := l.sender.nextLeastUnacked;
            && (n in l.lost ==> n < next)
            && GetStopWaiting(l.sender, force).1
               == if next > 0 && (force || next != l.sender.largestLeastUnackedSent) then Some(next) else None
  {
    hide Run, Balanced;
    StartBalanced();
    RunBalanced(START, events);
    BalancedValid(Run(START, events));
    StartBelow();
    RunBelow(START, events);
  }

  /** Whatever happens after a call, a frame that is not forced carries a larger number than that call announced or
      could have announced: no number is announced twice unless forced. */
  lemma NumbersRise(events: seq<Event>, force: bool, more: seq<Event>)
    ensures var l := Run(START, events);
            var s := Run(Step(l, AnnounceStopWaiting(force)), more).sender;
            var frame := GetStopWaiting(s, false).1;
            frame.Some? ==> frame.value > l.sender.nextLeastUnacked
  {
    hide Run, Balanced;
    var l := Run(START, events);
    StartBalanced();
    StartBelow();
    RunBalanced(START, events);
    RunBelow(START, events);
    BalancedValid(l);
    StepBalanced(l, AnnounceStopWaiting(force));
    StepBelow(l, AnnounceStopWaiting(force));
    RunBelow(Step(l, AnnounceStopWaiting(force)), more);
  }
}

/** The queue for retransmissions (pstream/ackhandler/sent_packet_handler.go, lines 570 to 582) over whole runs. */
module RetransmissionRuns {

  import opened Wire
  import opened PacketLists
  import opened SentPacketsSpec
  import opened InFlight

  /** What an event queues. */
  function Queued(l: Ledger, e: Event): seq<Packet> {
    match e
    case AckArrives(f, n, now, delay) => ReceivedAck(l.sender, f, n, now, delay).lost
    case ClosePathArrives(f, n) => ReceivedClosePath(l.sender, f, n).lost
    case AlarmRings(now, delay, failed) => OnAlarm(l.sender, now, delay, failed).lost
    case GiveUpPath => SetInflightAsLost(l.sender).lost
    case Duplicate(packet) => [packet]
    case _ => []
  }

  /** What an event takes from the queue. */
  function Taken(l: Ledger, e: Event): seq<Packet> {
    if e.Retransmit? && Dequeue(l.sender).1.Some? then [Dequeue(l.sender).1.value] else []
  }

  function AllQueued(l: Ledger, events: seq<Event>): seq<Packet>
    decreases |events|
  {
    if events == [] then [] else Queued(l, events[0]) + AllQueued(Step(l, events[0]), events[1..])
  }

  function AllTaken(l: Ledger, events: seq<Event>): seq<Packet>
    decreases |events|
  {
    if events == [] then [] else Taken(l, events[0]) + AllTaken(Step(l, events[0]), events[1..])
  }

  lemma StepQueue(l: Ledger, e: Event)
    ensures l.sender.queue + Queued(l, e) == Taken(l, e) + Step(l, e).sender.queue
  {
    hide Select, Bytes, Numbers, Raise, CollectSkipped, SkippedAcked, LastSkipped, Between;
  }

  /** In every run the packets that were taken for retransmission, followed by those still queued, are exactly the
      packets that were queued, in that order: none is lost, none is sent twice. */
  lemma {:induction false} FirstInFirstOut(l: Ledger, events: seq<Event>)
    ensures l.sender.queue + AllQueued(l, events) == AllTaken(l, events) + Run(l, events).sender.queue
    decreases |events|
  {
    if events != [] {
      hide Step, Queued, Taken;
      var l1 := Step(l, events[0]);
      StepQueue(l, events[0]);
      FirstInFirstOut(l1, events[1..]);
      Rejoin(l.sender.queue, Queued(l, events[0]), AllQueued(l1, events[1..]), Taken(l, events[0]), l1.sender.queue,
             AllTaken(l1, events[1..]), Run(l1, events[1..]).sender.queue);
    }
  }

  lemma Rejoin<T>(q: seq<T>, a: seq<T>, b: seq<T>, t: seq<T>, q1: seq<T>, t1: seq<T>, r: seq<T>)
    requires q + a == t + q1 && q1 + b == t1 + r
    ensures q + (a + b) == (t + t1) + r
  {
    assert q + (a + b) == (q + a) + b;
    assert (t + q1) + b == t + (q1 + b);
    assert t + (t1 + r) == (t + t1) + r;
  }
}

/** Skipped packet numbers (pstream/ackhandler/sent_packet_handler.go, lines 149 to 155 and 703 to 712) over runs. */
module SkippedRuns {

  import opened Wire
  import opened PacketLists
  import opened AckFrames
  import opened SentPacketsSpec
  import opened InFlight

  predicate Rising(ns: seq<nat>) {
    forall i, j :: 0 <= i < j < |ns| ==> ns[i] < ns[j]
  }

  /** The skipped numbers are kept in order, below the last number sent. */
  predicate InOrder(s: Sender) {
    Rising(s.skipped) && forall n :: n in s.skipped ==> n < s.lastSent
  }

  lemma {:induction false} BetweenExactly(lo: nat, hi: nat)
    ensures Rising(Between(lo, hi)) && forall n :: n in Between(lo, hi) <==> lo <= n < hi
    decreases hi
  {
    if lo < hi {
      BetweenExactly(lo, hi - 1);
      var b := Between(lo, hi - 1);
      forall i | 0 <= i < |b|
        ensures b[i] < hi - 1
      {
        assert b[i] in b;
      }
    }
  }

  lemma RisingJoin(a: seq<nat>, b: seq<nat>, m: nat)
    requires Rising(a) && Rising(b) && (forall n :: n in a ==> n < m) && (forall n :: n in b ==> m <= n)
    ensures Rising(a + b)
  {
    forall i, j | 0 <= i < j < |a + b|
      ensures (a + b)[i] < (a + b)[j]
    {
      if i < |a| <= j {
        assert a[i] in a && b[j - |a|] in b;
      }
    }
  }

  /** Exactly the numbers up to n are forgotten. */
  lemma {:induction false} CollectExactly(ns: seq<nat>, n: int)
    requires Rising(ns)
    ensures var r := CollectSkipped(ns, n);
            Rising(r) && forall x :: x in r <==> x in ns && x > n
    decreases |ns|
  {
    if ns != [] {
      var k := |ns| - 1;
      if ns[k] <= n {
        forall x | x in ns
          ensures x <= n
        {
          var i :| 0 <= i < |ns| && ns[i] == x;
        }
      } else {
        CollectExactly(ns[..k], n);
        var r := CollectSkipped(ns[..k], n);
        forall x | x in r
          ensures x < ns[k]
        {
          var i :| 0 <= i < k && ns[i] == x;
        }
        RisingJoin(r, [ns[k]], ns[k]);
        assert ns == ns[..k] + [ns[k]];
      }
    }
  }

  /** Sending skips exactly the numbers between the last packet and this one, and keeps the last ten of all. */
  lemma SendSkips(s: Sender, packet: Packet, now: int)
    requires InOrder(s)
    ensures var s' := SentPacket(s, packet, now).0;
            && InOrder(s')
            && (SentPacket(s, packet, now).1 == Ok ==> Skips(s.skipped, s.lastSent, packet.number, s'.skipped))
  {
    if packet.number > s.lastSent {
      ListSkips(s.skipped, s.lastSent, packet.number);
    }
    hide LastSkipped, Between, Skips, Rising;
  }

  lemma ListSkips(ns: seq<nat>, last: nat, number: nat)
    requires Rising(ns) && (forall n :: n in ns ==> n < last) && last < number
    ensures var r := LastSkipped(ns + Between(last + 1, number));
            Rising(r) && (forall n :: n in r ==> n < number) && Skips(ns, last, number, r)
  {
    var b := Between(last + 1, number);
    BetweenExactly(last + 1, number);
    RisingJoin(ns, b, last);
    hide Between, LastSkipped, Rising;
    LastTen(ns + b);
  }

  /** The numbers kept in r are the last ten of those skipped before and those between the last packet and this one. */
  ghost predicate Skips(ns: seq<nat>, last: nat, number: nat, r: seq<nat>) {
    && |r| <= 10
    && (forall n :: n in r ==> n in ns || last < n < number)
    && (forall n :: (n in ns || last < n < number) && n !in r ==> |r| == 10 && n < r[0])
  }

  lemma LastTen(ns: seq<nat>)
    requires Rising(ns)
    ensures var r := LastSkipped(ns);
            && Rising(r) && |r| <= 10 && (forall n :: n in r ==> n in ns)
            && (forall n :: n in ns && n !in r ==> |r| == 10 && n < r[0])
  {
    var r := LastSkipped(ns);
    forall n | n in ns && n !in r
      ensures |r| == 10 && n < r[0]
    {
      var i :| 0 <= i < |ns| && ns[i] == n;
      assert r[0] == ns[|ns| - |r|];
    }
  }

  /** Whether the frame is applied: only then skipped numbers are forgotten. */
  lemma AckCollects(s: Sender, f: AckFrame, withPacketNumber: nat, now: int, delay: int)
    requires InOrder(s)
    ensures Collects(s, ReceivedAck(s, f, withPacketNumber, now, delay), f.largestAcked > LargestInOrderAcked(s))
    ensures Collects(s, ReceivedClosePath(s, f, withPacketNumber), true)
  {
    hide Select, Bytes, Raise, CollectSkipped, SkippedAcked, Rising;
    var o := ReceivedAck(s, f, withPacketNumber, now, delay);
    if o.status == Ok && f.largestAcked > LargestInOrderAcked(s) {
      CollectExactly(s.skipped, LargestInOrderAcked(o.sender));
    }
    var c := ReceivedClosePath(s, f, withPacketNumber);
    if c.status == Ok {
      CollectExactly(s.skipped, LargestInOrderAcked(c.sender));
    }
  }

  /** The skipped numbers after a call that is refused, ignored or applied. */
  ghost predicate Collects(s: Sender, o: Outcome, applied: bool) {
    && o.sender.lastSent == s.lastSent && Rising(o.sender.skipped)
    && (if o.status == Ok && applied then
          forall n :: n in o.sender.skipped <==> n in s.skipped && n > LargestInOrderAcked(o.sender)
        else o.sender.skipped == s.skipped)
  }

  lemma StepInOrder(l: Ledger, e: Event)
    requires InOrder(l.sender)
    ensures InOrder(Step(l, e).sender)
  {
    hide ReceivedAck, ReceivedClosePath, SentPacket, Select, Bytes, Numbers, Raise, Rising;
    match e
    case Send(packet, now) => SendSkips(l.sender, packet, now);
    case AckArrives(f, n, now, delay) => AckCollects(l.sender, f, n, now, delay);
    case ClosePathArrives(f, n) => AckCollects(l.sender, f, n, 0, 0);
    case _ =>
  }

  lemma {:induction false} RunInOrder(l: Ledger, events: seq<Event>)
    requires InOrder(l.sender)
    ensures InOrder(Run(l, events).sender)
    decreases |events|
  {
    if events != [] {
      StepInOrder(l, events[0]);
      hide Step, InOrder;
      RunInOrder(Step(l, events[0]), events[1..]);
    }
  }

  /** In every run, a packet that is sent adds exactly the numbers it skips, of which the last ten are kept, and a frame
      that is applied forgets exactly those below the oldest packet in flight, or up to the largest acknowledged one. */
  lemma SkippedExactly(events: seq<Event>, packet: Packet, f: AckFrame, withPacketNumber: nat, now: int, delay: int)
    ensures var s := Run(START, events).sender;
            && Collects(s, ReceivedAck(s, f, withPacketNumber, now, delay), f.largestAcked > LargestInOrderAcked(s))
            && Collects(s, ReceivedClosePath(s, f, withPacketNumber), true)
            && (SentPacket(s, packet, now).1 == Ok ==>
                  Skips(s.skipped, s.lastSent, packet.number, SentPacket(s, packet, now).0.skipped))
  {
    assert InOrder(START.sender);
    RunInOrder(START, events);
    hide Run, ReceivedAck, ReceivedClosePath, SentPacket, InOrder, Collects, Skips;
    AckCollects(Run(START, events).sender, f, withPacketNumber, now, delay);
    SendSkips(Run(START, events).sender, packet, now);
  }
}

/** Removing packets one at a time, as the loops of the sender do. */
module PacketRemoval {

  import opened Wire
  import opened PacketLists
  import opened SentPacketsSpec

  /** Removes the packet with a number from a list. */
  function Remove(ps: seq<Packet>, number: nat): seq<Packet> {
    if ps == [] then []
    else if ps[|ps| - 1].number == number then ps[..|ps| - 1]
    else Remove(ps[..|ps| - 1], number) + [ps[|ps| - 1]]
  }

  /** onPacketAcked. */
  function AckOne(s: Sender, p: Packet): Sender {
    s.(history := Remove(s.history, p.number), bytesInFlight := s.bytesInFlight - p.length,
       tlpCount := 0, rtoCount := 0)
  }

  /** queuePacketForRetransmission. */
  function QueueOne(s: Sender, p: Packet): Sender {
    s.(history := Remove(s.history, p.number), bytesInFlight := s.bytesInFlight - p.length,
       queue := s.queue + [p], nextLeastUnacked := Max(s.nextLeastUnacked, p.number + 1))
  }

  function RemoveEach(ps: seq<Packet>, gone: seq<Packet>): seq<Packet>
    decreases |gone|
  {
    if gone == [] then ps else Remove(RemoveEach(ps, gone[..|gone| - 1]), gone[|gone| - 1].number)
  }

  function AckEach(s: Sender, ps: seq<Packet>): Sender
    decreases |ps|
  {
    if ps == [] then s else AckOne(AckEach(s, ps[..|ps| - 1]), ps[|ps| - 1])
  }

  function QueueEach(s: Sender, ps: seq<Packet>): Sender
    decreases |ps|
  {
    if ps == [] then s else QueueOne(QueueEach(s, ps[..|ps| - 1]), ps[|ps| - 1])
  }

  lemma {:induction false} AckEachFields(s: Sender, ps: seq<Packet>)
    ensures AckEach(s, ps) == s.(history := RemoveEach(s.history, ps), bytesInFlight := s.bytesInFlight - Bytes(ps),
                                 tlpCount := if ps == [] then s.tlpCount else 0,
                                 rtoCount := if ps == [] then s.rtoCount else 0)
    decreases |ps|
  {
    if ps != [] {
      AckEachFields(s, ps[..|ps| - 1]);
    }
  }

  lemma {:induction false} QueueEachFields(s: Sender, ps: seq<Packet>)
    ensures QueueEach(s, ps) == s.(history := RemoveEach(s.history, ps), bytesInFlight := s.bytesInFlight - Bytes(ps),
                                   queue := s.queue + ps, nextLeastUnacked := Raise(s.nextLeastUnacked, ps))
    decreases |ps|
  {
    if ps == [] {
      AppendNothing(s.queue);
    } else {
      QueueEachFields(s, ps[..|ps| - 1]);
      assert s.queue + ps == s.queue + ps[..|ps| - 1] + [ps[|ps| - 1]];
    }
  }

  lemma {:induction false} RemoveEachBefore(ps: seq<Packet>, x: Packet, gone: seq<Packet>)
    requires forall p :: p in gone ==> p.number != x.number
    ensures RemoveEach(ps + [x], gone) == RemoveEach(ps, gone) + [x]
    decreases |gone|
  {
    if gone != [] {
      RemoveEachBefore(ps, x, gone[..|gone| - 1]);
      var rest := RemoveEach(ps, gone[..|gone| - 1]);
      assert (rest + [x])[..|rest|] == rest;
    }
  }

  lemma SelectAppend(init: seq<Packet>, x: Packet, g: Packet -> bool)
    ensures Select(init + [x], g) == if g(x) then Select(init, g) + [x] else Select(init, g)
  {
    var ps := init + [x];
    assert ps[..|ps| - 1] == init && ps[|ps| - 1] == x;
    SelectStep(ps, g);
    hide Select;
  }

  /** One packet more, with a number of its own. */
  lemma RemoveSelectedNext(init: seq<Packet>, x: Packet, g: Packet -> bool)
    requires RemoveEach(init, Select(init, g)) == Select(init, Not(g))
    requires forall p :: p in Select(init, g) ==> p.number != x.number
    ensures RemoveEach(init + [x], Select(init + [x], g)) == Select(init + [x], Not(g))
  {
    hide Select, RemoveEach;
    SelectAppend(init, x, g);
    SelectAppend(init, x, Not(g));
    RemoveEachBefore(init, x, Select(init, g));
    if g(x) {
      RemoveEachLast(init + [x], Select(init, g), x, Select(init, Not(g)));
    }
  }

  lemma AscendingInit(ps: seq<Packet>)
    requires Ascending(ps) && ps != []
    ensures Ascending(ps[..|ps| - 1]) && ps == ps[..|ps| - 1] + [ps[|ps| - 1]]
  {
  }

  /** Removing the selected packets one by one leaves the others. */
  lemma {:induction false} RemoveSelected(ps: seq<Packet>, g: Packet -> bool)
    requires Ascending(ps)
    ensures RemoveEach(ps, Select(ps, g)) == Select(ps, Not(g))
    decreases |ps|
  {
    if ps != [] {
      hide Select, RemoveEach, Ascending;
      var n := |ps| - 1;
      AscendingInit(ps);
      RemoveSelected(ps[..n], g);
      SelectBelow(ps, g);
      RemoveSelectedNext(ps[..n], ps[n], g);
    }
  }

  /** The last packet is removed last. */
  lemma RemoveEachLast(ps: seq<Packet>, gone: seq<Packet>, x: Packet, rest: seq<Packet>)
    requires RemoveEach(ps, gone) == rest + [x]
    ensures RemoveEach(ps, gone + [x]) == rest
  {
    assert (gone + [x])[..|gone|] == gone && (rest + [x])[..|rest|] == rest;
  }

  lemma SelectBelow(ps: seq<Packet>, g: Packet -> bool)
    requires Ascending(ps) && ps != []
    ensures forall p :: p in Select(ps[..|ps| - 1], g) ==> p.number < ps[|ps| - 1].number
  {
    forall p | p in Select(ps[..|ps| - 1], g)
      ensures p.number < ps[|ps| - 1].number
    {
      SelectIn(ps[..|ps| - 1], g, p);
    }
  }

  lemma AckEachIs(s: Sender, g: Packet -> bool)
    requires Ascending(s.history)
    ensures AckEach(s, Select(s.history, g)) == AckWhere(s, g)
  {
    AckEachFields(s, Select(s.history, g));
    RemoveSelected(s.history, g);
  }

  lemma QueueEachIs(s: Sender, g: Packet -> bool)
    requires Ascending(s.history)
    ensures QueueEach(s, Select(s.history, g)) == QueueWhere(s, g)
  {
    QueueEachFields(s, Select(s.history, g));
    RemoveSelected(s.history, g);
  }

  /** In ascending order, the packets up to the one at index k are the first k + 1. */
  lemma {:induction false} SelectPrefix(ps: seq<Packet>, k: nat)
    requires Ascending(ps) && k < |ps|
    ensures Select(ps, UpTo(ps[k].number)) == ps[..k + 1]
    decreases |ps|
  {
    var n := |ps| - 1;
    var g := UpTo(ps[k].number);
    assert ps == ps[..n] + [ps[n]];
    SelectStep(ps, g);
    if k < n {
      SelectPrefix(ps[..n], k);
      assert ps[..n][..k + 1] == ps[..k + 1];
    } else {
      SelectAll(ps[..n], g);
    }
  }

  lemma {:induction false} SelectAll(ps: seq<Packet>, g: Packet -> bool)
    requires forall p :: p in ps ==> g(p)
    ensures Select(ps, g) == ps
    decreases |ps|
  {
    if ps != [] {
      hide Select;
      var n := |ps| - 1;
      assert ps == ps[..n] + [ps[n]];
      assert ps[n] in ps && forall p :: p in ps[..n] ==> p in ps;
      SelectAll(ps[..n], g);
      SelectAppend(ps[..n], ps[n], g);
    }
  }

  lemma {:induction false} SelectNone(ps: seq<Packet>, i: nat, g: Packet -> bool)
    requires i <= |ps| && forall j :: i <= j < |ps| ==> !g(ps[j])
    ensures Select(ps, g) == Select(ps[..i], g)
    decreases |ps|
  {
    if i < |ps| {
      var n := |ps| - 1;
      SelectNone(ps[..n], i, g);
      assert ps[..n][..i] == ps[..i];
    } else {
      assert ps[..i] == ps;
    }
  }

  /** The last packet alone. */
  lemma SelectLast(ps: seq<Packet>)
    requires Ascending(ps) && ps != []
    ensures Select(ps, From(ps[|ps| - 1].number)) == [ps[|ps| - 1]]
  {
    var n := |ps| - 1;
    var g := From(ps[n].number);
    SelectStep(ps, g);
    SelectNone(ps[..n], 0, g);
    assert ps[..n][..0] == [];
  }

  lemma {:induction false} SelectRest(ps: seq<Packet>, k: nat)
    requires Ascending(ps) && k < |ps|
    ensures Select(ps, Not(UpTo(ps[k].number))) == ps[k + 1..]
    decreases |ps|
  {
    var n := |ps| - 1;
    var g := Not(UpTo(ps[k].number));
    assert ps == ps[..n] + [ps[n]];
    SelectStep(ps, g);
    if k < n {
      SelectRest(ps[..n], k);
      assert ps[..n][k + 1..] + [ps[n]] == ps[k + 1..];
    } else {
      SelectNone(ps[..n], 0, g);
      assert ps[..n][..0] == [];
    }
  }

  lemma SelectAllButLast(ps: seq<Packet>)
    requires Ascending(ps) && ps != []
    ensures Select(ps, Not(From(ps[|ps| - 1].number))) == ps[..|ps| - 1]
  {
    var n := |ps| - 1;
    SelectStep(ps, Not(From(ps[n].number)));
    SelectAll(ps[..n], Not(From(ps[n].number)));
  }

  /** Without a loss timer, an alarm moves the newest packet to the queue, twice; after that the oldest two, or all
      packets if the path seems to have failed. */
  lemma AlarmExactly(s: Sender, now: int, delay: int, failed: bool)
    requires Valid(s) && HasOutstanding(s) && !s.lossTime
    ensures var o := OnAlarm(s, now, delay, failed);
            var h, n := s.history, |s.history|;
            if s.tlpCount < MAX_TAIL_LOSS_PROBES then o.lost == [h[n - 1]] && o.sender.history == h[..n - 1]
            else if failed || n <= 2 then o.lost == h && o.sender.history == []
            else o.lost == h[..2] && o.sender.history == h[2..]
  {
    hide Bytes, Raise, Select;
    var h, n := s.history, |s.history|;
    if s.tlpCount < MAX_TAIL_LOSS_PROBES {
      SelectLast(h);
      SelectAllButLast(h);
    } else {
      var k := if failed || n == 1 then n - 1 else 1;
      SelectPrefix(h, k);
      SelectRest(h, k);
    }
  }
}

/** The sweep over the ranges of an ACK frame: two positions that only move forward. */
module AckSweep {

  import opened PacketRanges
  import opened PacketLists
  import opened AckFrames
  import opened SentPacketsSpec
  import opened PacketRemoval

  /** The ranges before position r, counted from the lowest range, end below number. */
  predicate Passed(rs: seq<Range>, r: nat, number: nat)
    requires r <= |rs|
  {
    forall i :: |rs| - r <= i < |rs| ==> rs[i].end < number
  }

  /** Lines 325 to 337: moves to the first range that does not end below the number. */
  method NextRange(f: AckFrame, number: nat, r: nat) returns (r': nat)
    requires ValidFrame(f) && f.lowestAcked <= number <= f.largestAcked
    requires r < |f.ranges| && Passed(f.ranges, r, number)
    ensures r <= r' < |f.ranges| && Passed(f.ranges, r', number)
    ensures number <= f.ranges[|f.ranges| - 1 - r'].end
    ensures Acks(f, number) <==> f.ranges[|f.ranges| - 1 - r'].start <= number
  {
    var n := |f.ranges| - 1;
    r' := r;
    while number > f.ranges[n - r'].end && r' < n
      invariant r <= r' <= n && Passed(f.ranges, r', number)
    {
      r' := r' + 1;
    }
    InRange(f, number, r');
  }

  lemma InRange(f: AckFrame, number: nat, r: nat)
    requires ValidFrame(f) && f.lowestAcked <= number <= f.largestAcked
    requires r < |f.ranges| && Passed(f.ranges, r, number) && number <= f.ranges[|f.ranges| - 1 - r].end
    ensures Acks(f, number) <==> f.ranges[|f.ranges| - 1 - r].start <= number
  {
    var n := |f.ranges| - 1;
    if Acks(f, number) {
      var i :| 0 <= i <= n && f.ranges[i].start <= number <= f.ranges[i].end;
      assert i <= n - r;
      assert i == n - r;
    }
  }

  /** determineNewlyAckedPackets, lines 308 to 344: the sweep returns exactly the acknowledged packets, in order. Where
      bug becomes true the source gives up with an internal error; it never does. */
  method DetermineNewlyAcked(history: seq<Packet>, f: AckFrame) returns (acked: seq<Packet>, bug: bool)
    requires Ascending(history) && ValidFrame(f)
    ensures !bug && acked == Select(history, AckedBy(f))
  {
    hide Select, Acks, ValidFrame;
    acked, bug := [], false;
    assert history[..0] == [];
    SelectEmpty(AckedBy(f));
    var r := 0;
    var i := 0;
    while i < |history|
      invariant 0 <= i <= |history|
      invariant !bug && acked == Select(history[..i], AckedBy(f))
      invariant f.ranges != [] ==> r < |f.ranges| && (i < |history| ==> Passed(f.ranges, r, history[i].number))
    {
      var number := history[i].number;
      StepPrefix(history, i, AckedBy(f));
      if number > f.largestAcked {
        NoneAbove(history, i, f);
        return;
      }
      if number < f.lowestAcked {
        NotAcked(f, number);
      } else {
        if f.ranges != [] {
          r := NextRange(f, number, r);
          var range := f.ranges[|f.ranges| - 1 - r];
          if number >= range.start {
            bug := number > range.end;
            acked := acked + [history[i]];
          }
        } else {
          AckedPlainly(f, number);
          acked := acked + [history[i]];
        }
      }
      i := i + 1;
    }
    assert history[..i] == history;
  }

  lemma SelectEmpty(g: Packet -> bool)
    ensures Select([], g) == []
  {
  }

  lemma NotAcked(f: AckFrame, p: nat)
    requires p < f.lowestAcked || p > f.largestAcked
    ensures !Acks(f, p)
  {
  }

  lemma AckedPlainly(f: AckFrame, p: nat)
    requires f.lowestAcked <= p <= f.largestAcked && f.ranges == []
    ensures Acks(f, p)
  {
  }

  lemma NoneAbove(history: seq<Packet>, i: nat, f: AckFrame)
    requires Ascending(history) && i < |history| && history[i].number > f.largestAcked
    ensures Select(history, AckedBy(f)) == Select(history[..i], AckedBy(f))
  {
    SelectNone(history, i, AckedBy(f));
  }

  lemma StepPrefix(history: seq<Packet>, i: nat, g: Packet -> bool)
    requires i < |history|
    ensures Select(history[..i + 1], g) == Select(history[..i], g) + if g(history[i]) then [history[i]] else []
  {
    assert history[..i + 1][..i] == history[..i];
  }
}

/** sentPacketHandler (pstream/ackhandler/sent_packet_handler.go) with the fields and loops of the source, proved
    against SentPacketsSpec. Times are arguments. */
module SentPackets {

  import opened Wire
  import opened PacketLists
  import opened AckFrames
  import opened PacketRemoval
  import opened AckSweep
  import Spec = SentPacketsSpec

  class SentPacketHandler {
    var lastSentPacketNumber: nat
    var skippedPackets: seq<nat>
    var largestAcked: nat
    var largestReceivedPacketWithAck: nat
    var packetHistory: seq<Packet>
    var retransmissionQueue: seq<Packet>
    var bytesInFlight: int
    var tlpCount: nat
    var rtoCount: nat
    var lossTime: bool
    var largestLeastUnackedSent: nat
    var nextLeastUnacked: nat
    var lastStopWaiting: Option<nat>

    function View(): Spec.Sender
      reads this
    {
      Spec.Sender(lastSentPacketNumber, skippedPackets, largestAcked, largestReceivedPacketWithAck,
                  packetHistory, retransmissionQueue, bytesInFlight, tlpCount, rtoCount, lossTime,
                  largestLeastUnackedSent, nextLeastUnacked, lastStopWaiting)
    }

    constructor ()
      ensures View() == Spec.NEW_SENDER
    {
      lastSentPacketNumber, skippedPackets, largestAcked, largestReceivedPacketWithAck := 0, [], 0, 0;
      packetHistory, retransmissionQueue, bytesInFlight := [], [], 0;
      tlpCount, rtoCount, lossTime := 0, 0, false;
      largestLeastUnackedSent, nextLeastUnacked, lastStopWaiting := 0, 0, None;
    }

    /** Lines 139 to 188. */
    method SentPacket(packet: Packet, now: int) returns (r: Spec.Status)
      requires |skippedPackets| <= Spec.MAX_SKIPPED
      modifies this
      ensures (View(), r) == Spec.SentPacket(old(View()), packet, now)
    {
      if packet.number <= lastSentPacketNumber {
        return Spec.NotIncreasing;
      }
      if |retransmissionQueue| + |packetHistory| + 1 > Spec.MAX_TRACKED {
        return Spec.TooManyTracked;
      }
      SkipUpTo(packet.number);
      lastSentPacketNumber := packet.number;
      if packet.kept {
        bytesInFlight := bytesInFlight + packet.length;
        packetHistory := packetHistory + [packet.(sendTime := now)];
      }
      return Spec.Ok;
    }

    /** Lines 149 to 155. */
    method SkipUpTo(number: nat)
      requires |skippedPackets| <= Spec.MAX_SKIPPED && lastSentPacketNumber < number
      modifies this`skippedPackets
      ensures skippedPackets == Spec.LastSkipped(old(skippedPackets) + Spec.Between(lastSentPacketNumber + 1, number))
    {
      hide Spec.LastSkipped;
      ghost var start := skippedPackets;
      SkipNone(start, lastSentPacketNumber + 1);
      hide Spec.Between;
      var p := lastSentPacketNumber + 1;
      while p < number
        invariant lastSentPacketNumber < p <= number
        invariant skippedPackets == Spec.LastSkipped(start + Spec.Between(lastSentPacketNumber + 1, p))
      {
        SkipStep(start, lastSentPacketNumber + 1, p);
        skippedPackets := skippedPackets + [p];
        if |skippedPackets| > Spec.MAX_SKIPPED {
          skippedPackets := skippedPackets[1..];
        }
        p := p + 1;
      }
    }

    static lemma SkipNone(start: seq<nat>, lo: nat)
      requires |start| <= Spec.MAX_SKIPPED
      ensures Spec.LastSkipped(start + Spec.Between(lo, lo)) == start
    {
      AppendNothing(start);
    }

    static lemma SkipStep(start: seq<nat>, lo: nat, p: nat)
      requires lo <= p
      ensures var ns := Spec.LastSkipped(start + Spec.Between(lo, p)) + [p];
              Spec.LastSkipped(start + Spec.Between(lo, p + 1)) == if |ns| > Spec.MAX_SKIPPED then ns[1..] else ns
    {
      var all := start + Spec.Between(lo, p);
      assert start + Spec.Between(lo, p + 1) == all + [p];
      hide Spec.Between;
      if |all| >= Spec.MAX_SKIPPED {
        var k := |all| - Spec.MAX_SKIPPED;
        assert (all + [p])[k + 1..] == all[k..][1..] + [p];
      }
    }

    function LargestInOrderAcked(): int
      reads this
    {
      if |packetHistory| > 0 then packetHistory[0].number - 1 else largestAcked
    }

    /** Lines 190 to 267. */
    method ReceivedAck(f: AckFrame, withPacketNumber: nat, now: int, delay: int) returns (r: Spec.Status)
      requires Ascending(packetHistory) && ValidFrame(f)
      modifies this
      ensures var o := Spec.ReceivedAck(old(View()), f, withPacketNumber, now, delay);
              View() == o.sender && r == o.status
    {
      if f.largestAcked > lastSentPacketNumber {
        return Spec.AckForUnsent;
      }
      if withPacketNumber <= largestReceivedPacketWithAck {
        return Spec.OutOfOrderAck;
      }
      largestReceivedPacketWithAck := withPacketNumber;
      if f.largestAcked <= LargestInOrderAcked() {
        return Spec.Ok;
      }
      largestAcked := f.largestAcked;
      hide Spec.ApplyAck;
      r := ApplyAck(f, now, delay);
    }

    /** Lines 207 to 266. */
    method ApplyAck(f: AckFrame, now: int, delay: int) returns (r: Spec.Status)
      requires Ascending(packetHistory) && ValidFrame(f)
      modifies this
      ensures var o := Spec.ApplyAck(old(View()), f, now, delay);
              View() == o.sender && r == o.status
    {
      hide Select, Bytes, Spec.Raise, Spec.CollectSkipped, Spec.AckWhere, Spec.DetectLost, Spec.SkippedAcked;
      var acksSkipped := SkippedPacketsAcked(f);
      if acksSkipped {
        return Spec.AckForSkipped;
      }
      AckPackets(f);
      DetectLostPackets(now, delay);
      GarbageCollectSkippedPackets();
      if f.largestAcked >= nextLeastUnacked {
        nextLeastUnacked := f.largestAcked + 1;
      }
      return Spec.Ok;
    }

    /** Lines 269 to 306. */
    method ReceivedClosePath(f: AckFrame, withPacketNumber: nat) returns (r: Spec.Status)
      requires Ascending(packetHistory) && ValidFrame(f)
      modifies this
      ensures var o := Spec.ReceivedClosePath(old(View()), f, withPacketNumber);
              View() == o.sender && r == o.status
    {
      if f.largestAcked > lastSentPacketNumber {
        return Spec.AckForUnsent;
      }
      if withPacketNumber <= largestReceivedPacketWithAck {
        return Spec.OutOfOrderAck;
      }
      largestReceivedPacketWithAck := withPacketNumber;
      hide Spec.ApplyClosePath;
      r := ApplyClosePath(f);
    }

    /** Lines 282 to 305. */
    method ApplyClosePath(f: AckFrame) returns (r: Spec.Status)
      requires Ascending(packetHistory) && ValidFrame(f)
      modifies this
      ensures var o := Spec.ApplyClosePath(old(View()), f);
              View() == o.sender && r == o.status
    {
      hide Select, Bytes, Spec.Raise, Spec.CollectSkipped, Spec.AckWhere, Spec.QueueWhere, Spec.SkippedAcked;
      var acksSkipped := SkippedPacketsAcked(f);
      if acksSkipped {
        return Spec.AckForSkipped;
      }
      AckPackets(f);
      SetInflightAsLost();
      GarbageCollectSkippedPackets();
      return Spec.Ok;
    }

    method SkippedPacketsAcked(f: AckFrame) returns (r: bool)
      ensures r == Spec.SkippedAcked(View(), f)
    {
      for i := 0 to |skippedPackets|
        invariant forall k :: 0 <= k < i ==> !Acks(f, skippedPackets[k])
      {
        var acks := AcksPacket(f, skippedPackets[i]);
        if acks {
          return true;
        }
      }
      return false;
    }

    /** Lines 217 to 247: the newly acknowledged packets leave the history one by one. */
    method AckPackets(f: AckFrame)
      requires Ascending(packetHistory) && ValidFrame(f)
      modifies this
      ensures View() == Spec.AckWhere(old(View()), Spec.AckedBy(f)) && Ascending(packetHistory)
    {
      SelectAscending(packetHistory, Not(Spec.AckedBy(f)));
      AckEachIs(View(), Spec.AckedBy(f));
      var acked, _ := DetermineNewlyAcked(packetHistory, f);
      hide Select, Bytes, AckEach;
      RetireAcked(acked);
    }

    /** Lines 229 to 247. */
    method RetireAcked(acked: seq<Packet>)
      modifies this
      ensures View() == AckEach(old(View()), acked)
    {
      hide AckOne;
      for i := 0 to |acked|
        invariant View() == AckEach(old(View()), acked[..i])
      {
        assert acked[..i + 1][..i] == acked[..i];
        OnPacketAcked(acked[i]);
      }
      assert acked[..|acked|] == acked;
    }

    method OnPacketAcked(p: Packet)
      modifies this
      ensures View() == AckOne(old(View()), p)
    {
      bytesInFlight := bytesInFlight - p.length;
      rtoCount := 0;
      tlpCount := 0;
      packetHistory := Remove(packetHistory, p.number);
    }

    /** Lines 650 to 656. */
    method QueuePacketForRetransmission(p: Packet)
      modifies this
      ensures View() == QueueOne(old(View()), p)
    {
      bytesInFlight := bytesInFlight - p.length;
      retransmissionQueue := retransmissionQueue + [p];
      packetHistory := Remove(packetHistory, p.number);
      if p.number >= nextLeastUnacked {
        nextLeastUnacked := p.number + 1;
      }
    }

    method QueuePackets(ps: seq<Packet>)
      modifies this
      ensures View() == QueueEach(old(View()), ps)
    {
      hide QueueOne;
      for i := 0 to |ps|
        invariant View() == QueueEach(old(View()), ps[..i])
      {
        assert ps[..i + 1][..i] == ps[..i];
        QueuePacketForRetransmission(ps[i]);
      }
      assert ps[..|ps|] == ps;
    }

    /** Lines 466 to 498. */
    method DetectLostPackets(now: int, delay: int)
      requires Ascending(packetHistory)
      modifies this
      ensures View() == Spec.DetectLost(old(View()), now, delay) && Ascending(packetHistory)
    {
      var lost;
      lost, lossTime := FindLost(now, delay);
      SelectAscending(packetHistory, Not(Spec.Late(largestAcked, now, delay)));
      QueueEachIs(View(), Spec.Late(largestAcked, now, delay));
      hide Select, Bytes, Spec.Raise, QueueEach;
      QueuePackets(lost);
    }

    /** Lines 474 to 490: the late packets, and whether another packet will be late unless it is acknowledged. */
    method FindLost(now: int, delay: int) returns (lost: seq<Packet>, pending: bool)
      requires Ascending(packetHistory)
      ensures lost == Select(packetHistory, Spec.Late(largestAcked, now, delay))
      ensures var left := Select(packetHistory, Not(Spec.Late(largestAcked, now, delay)));
              pending <==> Select(left, Spec.UpTo(largestAcked)) != []
    {
      hide Select;
      ghost var g := Spec.Late(largestAcked, now, delay);
      lost, pending := [], false;
      SelectEmpty(g);
      assert packetHistory[..0] == [];
      var i := 0;
      while i < |packetHistory| && packetHistory[i].number <= largestAcked
        invariant 0 <= i <= |packetHistory|
        invariant lost == Select(packetHistory[..i], g)
        invariant pending <==> exists k :: 0 <= k < i && now - packetHistory[k].sendTime <= delay
        invariant forall k :: 0 <= k < i ==> packetHistory[k].number <= largestAcked
      {
        StepPrefix(packetHistory, i, g);
        if now - packetHistory[i].sendTime > delay {
          lost := lost + [packetHistory[i]];
        } else {
          pending := true;
        }
        i := i + 1;
      }
      NoneLateAbove(packetHistory, i, largestAcked, now, delay);
      PendingBelow(packetHistory, i, largestAcked, now, delay);
    }

    static lemma NoneLateAbove(ps: seq<Packet>, i: nat, largest: nat, now: int, delay: int)
      requires Ascending(ps) && i <= |ps| && (i < |ps| ==> ps[i].number > largest)
      ensures Select(ps, Spec.Late(largest, now, delay)) == Select(ps[..i], Spec.Late(largest, now, delay))
    {
      SelectNone(ps, i, Spec.Late(largest, now, delay));
    }

    static lemma PendingBelow(ps: seq<Packet>, i: nat, largest: nat, now: int, delay: int)
      requires Ascending(ps) && i <= |ps| && (i < |ps| ==> ps[i].number > largest)
      requires forall k :: 0 <= k < i ==> ps[k].number <= largest
      ensures Select(Select(ps, Not(Spec.Late(largest, now, delay))), Spec.UpTo(largest)) != [] <==>
              exists k :: 0 <= k < i && now - ps[k].sendTime <= delay
    {
      hide Select;
      var g := Spec.Late(largest, now, delay);
      PendingIn(ps, g, largest);
      if k :| 0 <= k < i && now - ps[k].sendTime <= delay {
        assert ps[k] in ps && !g(ps[k]);
      }
    }

    static lemma PendingIn(ps: seq<Packet>, g: Packet -> bool, largest: nat)
      ensures Select(Select(ps, Not(g)), Spec.UpTo(largest)) != []
              <==> exists p :: p in ps && !g(p) && p.number <= largest
    {
      var s := Select(Select(ps, Not(g)), Spec.UpTo(largest));
      forall p: Packet
        ensures p in s <==> p in ps && !g(p) && p.number <= largest
      {
        SelectIn(ps, Not(g), p);
        SelectIn(Select(ps, Not(g)), Spec.UpTo(largest), p);
      }
      if s != [] {
        assert s[0] in s;
      }
    }

    /** Lines 500 to 520. */
    method SetInflightAsLost()
      requires Ascending(packetHistory)
      modifies this
      ensures View() == Spec.SetInflightAsLost(old(View())).sender && Ascending(packetHistory)
    {
      var lost := FindInflight();
      SelectAscending(packetHistory, Not(Spec.UpTo(largestAcked)));
      QueueEachIs(View(), Spec.UpTo(largestAcked));
      hide Select, Bytes, Spec.Raise, QueueEach;
      QueuePackets(lost);
    }

    /** Lines 502 to 511. */
    method FindInflight() returns (lost: seq<Packet>)
      requires Ascending(packetHistory)
      ensures lost == Select(packetHistory, Spec.UpTo(largestAcked))
    {
      hide Select;
      ghost var g := Spec.UpTo(largestAcked);
      lost := [];
      SelectEmpty(g);
      assert packetHistory[..0] == [];
      var i := 0;
      while i < |packetHistory| && packetHistory[i].number <= largestAcked
        invariant 0 <= i <= |packetHistory|
        invariant lost == Select(packetHistory[..i], g)
      {
        StepPrefix(packetHistory, i, g);
        lost := lost + [packetHistory[i]];
        i := i + 1;
      }
      SelectNone(packetHistory, i, g);
    }

    static lemma CollectStep(ns: seq<nat>, i: nat, d: nat, lioa: int)
      requires d <= i < |ns| && ns[d..i] == Spec.CollectSkipped(ns[..i], lioa)
      ensures var d' := if ns[i] <= lioa then i + 1 else d;
              ns[d'..i + 1] == Spec.CollectSkipped(ns[..i + 1], lioa)
    {
      assert ns[..i + 1][..i] == ns[..i] && ns[..i + 1][i] == ns[i];
      if ns[i] > lioa {
        assert ns[d..i + 1] == ns[d..i] + [ns[i]];
      }
    }

    /** Lines 703 to 712. */
    method GarbageCollectSkippedPackets()
      modifies this`skippedPackets
      ensures skippedPackets == Spec.CollectSkipped(old(skippedPackets), LargestInOrderAcked())
    {
      var lioa := LargestInOrderAcked();
      var deleteIndex := 0;
      for i := 0 to |skippedPackets|
        invariant skippedPackets == old(skippedPackets) && 0 <= deleteIndex <= i <= |skippedPackets|
        invariant skippedPackets[deleteIndex..i] == Spec.CollectSkipped(skippedPackets[..i], lioa)
      {
        CollectStep(skippedPackets, i, deleteIndex, lioa);
        hide Spec.CollectSkipped;
        if skippedPackets[i] <= lioa {
          deleteIndex := i + 1;
        }
      }
      assert skippedPackets[..|skippedPackets|] == skippedPackets;
      skippedPackets := skippedPackets[deleteIndex..];
    }

    /** Lines 522 to 554. */
    method OnAlarm(now: int, delay: int, failed: bool)
      requires Ascending(packetHistory)
      modifies this
      ensures View() == Spec.OnAlarm(old(View()), now, delay, failed).sender
    {
      var outstanding := HasOutstandingRetransmittablePacket();
      if !outstanding {
        return;
      }
      assert packetHistory != [];
      hide Select, Spec.QueueWhere, Spec.DetectLost, Spec.HasOutstanding;
      if lossTime {
        DetectLostPackets(now, delay);
      } else if tlpCount < Spec.MAX_TAIL_LOSS_PROBES {
        RetransmitTLP();
        tlpCount := tlpCount + 1;
      } else {
        RetransmitAfterTimeout(failed);
      }
    }

    /** Lines 540 to 551: a retransmission timeout. */
    method RetransmitAfterTimeout(failed: bool)
      requires Ascending(packetHistory) && packetHistory != []
      modifies this
      ensures var h := old(packetHistory);
              var k := if failed then |h| - 1 else if |h| > 1 then 1 else 0;
              View() == Spec.QueueWhere(old(View()), Spec.UpTo(h[k].number)).(rtoCount := old(rtoCount) + 1)
    {
      hide Select, Bytes, Spec.Raise;
      if failed {
        RetransmitAllPackets();
      } else {
        RetransmitOldestTwoPackets();
      }
      rtoCount := rtoCount + 1;
    }

    method HasOutstandingRetransmittablePacket() returns (r: bool)
      ensures r == Spec.HasOutstanding(View())
    {
      for i := 0 to |packetHistory|
        invariant forall k :: 0 <= k < i ==> !packetHistory[k].retransmittable
      {
        if packetHistory[i].retransmittable {
          return true;
        }
      }
      return false;
    }

    method RetransmitTLP()
      requires Ascending(packetHistory) && packetHistory != []
      modifies this
      ensures View() == Spec.QueueWhere(old(View()), Spec.From(old(packetHistory)[|old(packetHistory)| - 1].number))
    {
      var p := packetHistory[|packetHistory| - 1];
      SelectLast(packetHistory);
      QueueEachIs(View(), Spec.From(p.number));
      QueueSingle(View(), p);
      hide Select, QueueOne, QueueEach, Spec.QueueWhere;
      QueuePacketForRetransmission(p);
    }

    static lemma QueueSingle(s: Spec.Sender, p: Packet)
      ensures QueueEach(s, [p]) == QueueOne(s, p)
    {
      assert [p][..0] == [];
    }

    /** Lines 619 to 624. */
    method RetransmitAllPackets()
      requires Ascending(packetHistory) && packetHistory != []
      modifies this
      ensures View() == Spec.QueueWhere(old(View()), Spec.UpTo(old(packetHistory)[|old(packetHistory)| - 1].number))
    {
      ghost var all := packetHistory;
      SelectPrefix(all, |all| - 1);
      QueueEachIs(View(), Spec.UpTo(all[|all| - 1].number));
      QueueNothing(View(), all);
      hide Select, QueueOne, QueueEach, Spec.QueueWhere;
      ghost var k := 0;
      while |packetHistory| > 0
        invariant 0 <= k <= |all| && packetHistory == all[k..]
        invariant View() == QueueEach(old(View()), all[..k])
        decreases |packetHistory|
      {
        QueueFront(old(View()), all, k);
        RetransmitOldestPacket();
        k := k + 1;
      }
      assert all[..k] == all;
    }

    static lemma QueueNothing(s: Spec.Sender, all: seq<Packet>)
      ensures QueueEach(s, all[..0]) == s
    {
    }

    /** Queueing the oldest packet after the k before it. */
    static lemma QueueFront(s: Spec.Sender, all: seq<Packet>, k: nat)
      requires Ascending(all) && s.history == all && k < |all|
      ensures var s1 := QueueEach(s, all[..k]);
              && s1.history == all[k..]
              && QueueEach(s, all[..k + 1]) == QueueOne(s1, all[k])
              && QueueEach(s, all[..k + 1]).history == all[k + 1..]
    {
      QueueStep(s, all, k);
      if k == 0 {
        QueueNothing(s, all);
        assert all[0..] == all;
      } else {
        QueueFront(s, all, k - 1);
      }
      hide QueueEach, Remove;
      RemoveFront(all, k);
    }

    static lemma QueueStep(s: Spec.Sender, all: seq<Packet>, k: nat)
      requires k < |all|
      ensures QueueEach(s, all[..k + 1]) == QueueOne(QueueEach(s, all[..k]), all[k])
    {
      assert all[..k + 1][..k] == all[..k];
    }

    static lemma RemoveFront(all: seq<Packet>, k: nat)
      requires Ascending(all) && k < |all|
      ensures Remove(all[k..], all[k].number) == all[k + 1..]
    {
      FrontGone(all[k..]);
      assert all[k..][1..] == all[k + 1..];
    }

    static lemma {:induction false} FrontGone(ps: seq<Packet>)
      requires Ascending(ps) && ps != []
      ensures Remove(ps, ps[0].number) == ps[1..]
      decreases |ps|
    {
      if |ps| > 1 {
        FrontGone(ps[..|ps| - 1]);
      }
    }

    /** Lines 632 to 636: the second call finds nothing if one packet was in flight. */
    method RetransmitOldestTwoPackets()
      requires Ascending(packetHistory) && packetHistory != []
      modifies this
      ensures var h := old(packetHistory);
              View() == Spec.QueueWhere(old(View()), Spec.UpTo(h[if |h| > 1 then 1 else 0].number))
    {
      ghost var all := packetHistory;
      ghost var k := if |all| > 1 then 1 else 0;
      SelectPrefix(all, k);
      QueueEachIs(View(), Spec.UpTo(all[k].number));
      QueueNothing(View(), all);
      hide Select, QueueOne, QueueEach, Spec.QueueWhere;
      QueueFront(View(), all, 0);
      RetransmitOldestPacket();
      if |all| > 1 {
        QueueFront(old(View()), all, 1);
      }
      RetransmitOldestPacket();
    }

    method RetransmitOldestPacket()
      modifies this
      ensures View() == if old(packetHistory) == [] then old(View()) else QueueOne(old(View()), old(packetHistory)[0])
    {
      if |packetHistory| > 0 {
        QueuePacketForRetransmission(packetHistory[0]);
      }
    }

    method DequeuePacketForRetransmission() returns (p: Option<Packet>)
      modifies this
      ensures (View(), p) == Spec.Dequeue(old(View()))
    {
      if |retransmissionQueue| == 0 {
        return None;
      }
      p := Some(retransmissionQueue[0]);
      retransmissionQueue := retransmissionQueue[1..];
    }

    /** Lines 16 to 37 of stop_waiting_manager.go. */
    method GetStopWaitingFrame(force: bool) returns (leastUnacked: Option<nat>)
      modifies this
      ensures (View(), leastUnacked) == Spec.GetStopWaiting(old(View()), force)
    {
      if nextLeastUnacked <= largestLeastUnackedSent {
        if force {
          if lastStopWaiting == None && largestLeastUnackedSent > 0 {
            lastStopWaiting := Some(nextLeastUnacked);
          }
          return lastStopWaiting;
        }
        return None;
      }
      largestLeastUnackedSent := nextLeastUnacked;
      lastStopWaiting := Some(nextLeastUnacked);
      return lastStopWaiting;
    }
  }
}

/** Sorted lists of packet number ranges. */
module PacketRanges {

  /** The packet numbers from start to end, both included. */
  datatype Range = Range(start: nat, end: nat)

  /** Ascending, non-empty, disjoint and not adjacent. */
  predicate WellFormed(rs: seq<Range>) {
    && (forall i :: 0 <= i < |rs| ==> rs[i].start <= rs[i].end)
    && (forall i, j :: 0 <= i < j < |rs| ==> rs[i].end + 1 < rs[j].start)
  }

  predicate In(rs: seq<Range>, p: nat) {
    exists i :: 0 <= i < |rs| && rs[i].start <= p <= rs[i].end
  }

  lemma InAppend(a: seq<Range>, b: seq<Range>, p: nat)
    ensures In(a + b, p) <==> In(a, p) || In(b, p)
  {
    if In(a, p) {
      var i :| 0 <= i < |a| && a[i].start <= p <= a[i].end;
      assert (a + b)[i] == a[i];
    }
    if In(b, p) {
      var i :| 0 <= i < |b| && b[i].start <= p <= b[i].end;
      assert (a + b)[|a| + i] == b[i];
    }
  }

  lemma InOne(r: Range, p: nat)
    ensures In([r], p) <==> r.start <= p <= r.end
    ensures !In([], p)
  {
    assert [r][0] == r;
  }

  lemma WellFormedOne(r: Range)
    ensures WellFormed([r]) <==> r.start <= r.end
  {
    assert [r][0] == r;
  }

  lemma WellFormedAppend(a: seq<Range>, b: seq<Range>)
    ensures WellFormed(a + b) <==>
            && WellFormed(a) && WellFormed(b)
            && (a != [] && b != [] ==> a[|a| - 1].end + 1 < b[0].start)
  {
    if WellFormed(a + b) {
      WellFormedPart(a + b, a, 0);
      WellFormedPart(a + b, b, |a|);
    } else if WellFormed(a) && WellFormed(b) && (a != [] && b != [] ==> a[|a| - 1].end + 1 < b[0].start) {
      WellFormedJoin(a, b);
    }
  }

  lemma WellFormedPart(s: seq<Range>, part: seq<Range>, k: nat)
    requires WellFormed(s) && k + |part| <= |s| && part == s[k..k + |part|]
    ensures WellFormed(part)
  {
    forall i | 0 <= i < |part|
      ensures part[i] == s[k + i]
    {
    }
  }

  lemma WellFormedJoin(a: seq<Range>, b: seq<Range>)
    requires WellFormed(a) && WellFormed(b) && (a != [] && b != [] ==> a[|a| - 1].end + 1 < b[0].start)
    ensures WellFormed(a + b)
  {
    forall i, j | 0 <= i < |a| && 0 <= j < |b|
      ensures a[i].end + 1 < b[j].start
    {
      assert a[i].end <= a[|a| - 1].end && b[0].start <= b[j].start;
    }
  }

  /** Numbers in a well-formed list lie between its first start and its last end. */
  lemma {:induction false} InBounds(rs: seq<Range>, p: nat)
    requires WellFormed(rs) && In(rs, p)
    ensures rs[0].start <= p <= rs[|rs| - 1].end
    decreases |rs|
  {
    var n := |rs| - 1;
    assert rs == rs[..n] + [rs[n]];
    WellFormedAppend(rs[..n], [rs[n]]);
    InAppend(rs[..n], [rs[n]], p);
    InOne(rs[n], p);
    if In(rs[..n], p) {
      InBounds(rs[..n], p);
    } else if n > 0 {
      InEnds(rs[..n]);
      InBounds(rs[..n], rs[n - 1].end);
    }
  }

  lemma WellFormedEnds(rs: seq<Range>)
    requires WellFormed(rs) && rs != []
    ensures rs[0].start <= rs[|rs| - 1].end
  {
    assert |rs| > 1 ==> rs[0].end + 1 < rs[|rs| - 1].start;
  }

  lemma InEnds(rs: seq<Range>)
    requires WellFormed(rs) && rs != []
    ensures In(rs, rs[0].start) && In(rs, rs[|rs| - 1].end)
  {
  }

  /** A well-formed list is determined by the numbers in it. */
  lemma {:induction false} Canonical(a: seq<Range>, b: seq<Range>)
    requires WellFormed(a) && WellFormed(b)
    requires forall p :: In(a, p) <==> In(b, p)
    ensures a == b
    decreases |a|
  {
    hide WellFormed;
    if a == [] {
      if b != [] {
        InEnds(b);
      }
    } else {
      InEnds(a);
      SameLast(a, b);
      hide In;
      var n, m := |a| - 1, |b| - 1;
      assert a == a[..n] + [a[n]] && b == b[..m] + [b[m]];
      WellFormedAppend(a[..n], [a[n]]);
      WellFormedAppend(b[..m], [b[m]]);
      forall p
        ensures In(a[..n], p) <==> In(b[..m], p)
      {
        InAllButLast(a, p);
        InAllButLast(b, p);
      }
      Canonical(a[..n], b[..m]);
    }
  }

  lemma InAllButLast(a: seq<Range>, p: nat)
    requires WellFormed(a) && a != []
    ensures In(a[..|a| - 1], p) <==> In(a, p) && !(a[|a| - 1].start <= p <= a[|a| - 1].end)
  {
    var n := |a| - 1;
    assert a == a[..n] + [a[n]];
    InAppend(a[..n], [a[n]], p);
    InOne(a[n], p);
    WellFormedAppend(a[..n], [a[n]]);
    if In(a[..n], p) {
      InBounds(a[..n], p);
    }
  }

  lemma SameLast(a: seq<Range>, b: seq<Range>)
    requires WellFormed(a) && WellFormed(b) && a != [] && b != []
    requires forall p :: In(a, p) <==> In(b, p)
    ensures a[|a| - 1] == b[|b| - 1]
  {
    InEnds(a);
    InEnds(b);
    InBounds(a, b[|b| - 1].end);
    InBounds(b, a[|a| - 1].end);
    LastStartIn(a, b);
    LastStartIn(b, a);
  }

  /** The number before the last range is not in the list. */
  lemma NotBeforeLast(rs: seq<Range>)
    requires WellFormed(rs) && rs != [] && rs[|rs| - 1].start > 0
    ensures !In(rs, rs[|rs| - 1].start - 1)
  {
  }

  /** The last range of a cannot start below the last range of b. */
  lemma LastStartIn(a: seq<Range>, b: seq<Range>)
    requires WellFormed(a) && WellFormed(b) && a != [] && b != []
    requires forall p :: In(a, p) <==> In(b, p)
    requires a[|a| - 1].end == b[|b| - 1].end
    ensures a[|a| - 1].start >= b[|b| - 1].start
  {
    var n, m := |a| - 1, |b| - 1;
    if a[n].start < b[m].start {
      var p := b[m].start - 1;
      assert In(a, p);
      NotBeforeLast(b);
    }
  }
}

/** receivedPacketHistory (pstream/ackhandler/received_packet_history.go) as functions. */
module ReceivedHistorySpec {

  import opened Wire
  import opened PacketRanges

  const MAX_TRACKED_RANGES: nat := 2500

  /** Appends a range that may be adjacent to the list. */
  function Merge(rs: seq<Range>, r: Range): seq<Range> {
    var n := |rs| - 1;
    if rs != [] && rs[n].end + 1 == r.start then rs[..n] + [Range(rs[n].start, r.end)]
    else rs + [r]
  }

  /** Registers a packet number, searching from the back. */
  function Add(rs: seq<Range>, p: nat): seq<Range> {
    if rs == [] then [Range(p, p)]
    else
      var n := |rs| - 1;
      var last := rs[n];
      if last.start <= p <= last.end then rs
      else if last.end == p - 1 then Merge(rs[..n], Range(last.start, p))
      else if last.start == p + 1 then Merge(rs[..n], Range(p, last.end))
      else if p > last.end then rs + [Range(p, p)]
      else Add(rs[..n], p) + [last]
  }

  /** Drops the numbers up to p, searching from the front. */
  function DeleteUpTo(rs: seq<Range>, p: nat): seq<Range> {
    if rs == [] then []
    else if rs[0].start <= p < rs[0].end then [Range(p + 1, rs[0].end)] + DeleteUpTo(rs[1..], p)
    else if rs[0].end <= p then DeleteUpTo(rs[1..], p)
    else rs
  }

  // ---- Registering a packet ----

  lemma MergeCorrect(rs: seq<Range>, r: Range)
    requires WellFormed(rs) && r.start <= r.end && (rs != [] ==> rs[|rs| - 1].end < r.start)
    ensures WellFormed(Merge(rs, r)) && Merge(rs, r) != [] && Merge(rs, r)[|Merge(rs, r)| - 1].end == r.end
  {
    hide WellFormed;
    WellFormedOne(r);
    var n := |rs| - 1;
    if rs != [] && rs[n].end + 1 == r.start {
      assert rs == rs[..n] + [rs[n]];
      WellFormedAppend(rs[..n], [rs[n]]);
      WellFormedOne(rs[n]);
      WellFormedOne(Range(rs[n].start, r.end));
      WellFormedAppend(rs[..n], [Range(rs[n].start, r.end)]);
    } else {
      WellFormedAppend(rs, [r]);
    }
  }

  lemma MergeIn(rs: seq<Range>, r: Range, q: nat)
    requires WellFormed(rs) && r.start <= r.end
    ensures In(Merge(rs, r), q) <==> In(rs, q) || r.start <= q <= r.end
  {
    var n := |rs| - 1;
    InOne(r, q);
    if rs != [] && rs[n].end + 1 == r.start {
      assert rs == rs[..n] + [rs[n]];
      InAppend(rs[..n], [rs[n]], q);
      InAppend(rs[..n], [Range(rs[n].start, r.end)], q);
      InOne(rs[n], q);
      InOne(Range(rs[n].start, r.end), q);
    } else {
      InAppend(rs, [r], q);
    }
  }

  lemma AddStep(rs: seq<Range>, p: nat)
    requires rs != []
    ensures var n := |rs| - 1;
            Add(rs, p) ==
              if rs[n].start <= p <= rs[n].end then rs
              else if rs[n].end == p - 1 then Merge(rs[..n], Range(rs[n].start, p))
              else if rs[n].start == p + 1 then Merge(rs[..n], Range(p, rs[n].end))
              else if p > rs[n].end then rs + [Range(p, p)]
              else Add(rs[..n], p) + [rs[n]]
  {
  }

  lemma {:induction false} AddWellFormed(rs: seq<Range>, p: nat)
    requires WellFormed(rs)
    ensures var r := Add(rs, p);
            && WellFormed(r) && r != []
            && r[|r| - 1].end == if rs == [] || rs[|rs| - 1].end < p then p else rs[|rs| - 1].end
    decreases |rs|
  {
    hide WellFormed, Merge;
    if rs == [] {
      WellFormedOne(Range(p, p));
    } else {
      AddStep(rs, p);
      hide Add;
      var n := |rs| - 1;
      var last := rs[n];
      assert rs == rs[..n] + [last];
      WellFormedAppend(rs[..n], [last]);
      WellFormedOne(last);
      if last.start <= p <= last.end {
      } else if last.end == p - 1 {
        MergeCorrect(rs[..n], Range(last.start, p));
      } else if last.start == p + 1 {
        MergeCorrect(rs[..n], Range(p, last.end));
      } else if p > last.end {
        WellFormedOne(Range(p, p));
        WellFormedAppend(rs, [Range(p, p)]);
      } else {
        AddWellFormed(rs[..n], p);
        WellFormedAppend(Add(rs[..n], p), [last]);
      }
    }
  }

  /** Registering p adds p and nothing else. */
  lemma {:induction false} AddIn(rs: seq<Range>, p: nat, q: nat)
    requires WellFormed(rs)
    ensures In(Add(rs, p), q) <==> In(rs, q) || q == p
    decreases |rs|
  {
    hide In, Merge, WellFormed;
    if rs == [] {
      InOne(Range(p, p), q);
    } else {
      AddStep(rs, p);
      hide Add;
      var n := |rs| - 1;
      WellFormedSplit(rs);
      InSplit(rs, q);
      if rs[n].start > p + 1 {
        AddIn(rs[..n], p, q);
      }
      AddInLast(rs, p, q, Add(rs[..n], p));
    }
  }

  /** A well-formed list without its last range is well-formed. */
  lemma WellFormedSplit(rs: seq<Range>)
    requires WellFormed(rs) && rs != []
    ensures WellFormed(rs[..|rs| - 1]) && rs[|rs| - 1].start <= rs[|rs| - 1].end
  {
    var n := |rs| - 1;
    assert rs == rs[..n] + [rs[n]];
    WellFormedAppend(rs[..n], [rs[n]]);
    WellFormedOne(rs[n]);
  }

  lemma InSplit(rs: seq<Range>, q: nat)
    requires rs != []
    ensures In(rs, q) <==> In(rs[..|rs| - 1], q) || rs[|rs| - 1].start <= q <= rs[|rs| - 1].end
  {
    var n := |rs| - 1;
    assert rs == rs[..n] + [rs[n]];
    InAppend(rs[..n], [rs[n]], q);
    InOne(rs[n], q);
    hide In;
  }

  /** One step of the search, where inner is what it makes of the list without its last range. */
  lemma AddInLast(rs: seq<Range>, p: nat, q: nat, inner: seq<Range>)
    requires rs != [] && WellFormed(rs[..|rs| - 1]) && rs[|rs| - 1].start <= rs[|rs| - 1].end
    requires rs[|rs| - 1].start > p + 1 ==> (In(inner, q) <==> In(rs[..|rs| - 1], q) || q == p)
    ensures var n := |rs| - 1;
            In(if rs[n].start <= p <= rs[n].end then rs
               else if rs[n].end == p - 1 then Merge(rs[..n], Range(rs[n].start, p))
               else if rs[n].start == p + 1 then Merge(rs[..n], Range(p, rs[n].end))
               else if p > rs[n].end then rs + [Range(p, p)]
               else inner + [rs[n]], q)
            <==> In(rs, q) || q == p
  {
    hide In, Merge, WellFormed;
    var n := |rs| - 1;
    var last := rs[n];
    InSplit(rs, q);
    if last.start <= p <= last.end {
    } else if last.end == p - 1 {
      MergeIn(rs[..n], Range(last.start, p), q);
    } else if last.start == p + 1 {
      MergeIn(rs[..n], Range(p, last.end), q);
    } else if p > last.end {
      InOne(Range(p, p), q);
      InAppend(rs, [Range(p, p)], q);
    } else {
      InOne(last, q);
      InAppend(inner, [last], q);
    }
  }

  /** The list grows by at most one range. */
  lemma {:induction false} AddLength(rs: seq<Range>, p: nat)
    ensures |Add(rs, p)| <= |rs| + 1
    decreases |rs|
  {
    if rs != [] {
      AddStep(rs, p);
      AddLength(rs[..|rs| - 1], p);
    }
  }

  // ---- Dropping packets ----

  lemma {:induction false} DeleteWellFormed(rs: seq<Range>, p: nat)
    requires WellFormed(rs)
    ensures var r := DeleteUpTo(rs, p);
            && WellFormed(r) && |r| <= |rs|
            && (r != [] ==> p < r[0].start && rs[0].start <= r[0].start && r[|r| - 1].end == rs[|rs| - 1].end)
            && (rs != [] && p < rs[|rs| - 1].end ==> r != [])
    decreases |rs|
  {
    if rs != [] {
      var rest := rs[1..];
      assert rs == [rs[0]] + rest;
      WellFormedAppend([rs[0]], rest);
      WellFormedOne(rs[0]);
      hide WellFormed;
      if rs[0].start <= p < rs[0].end {
        DeleteWellFormed(rest, p);
        WellFormedOne(Range(p + 1, rs[0].end));
        WellFormedAppend([Range(p + 1, rs[0].end)], DeleteUpTo(rest, p));
        if rest != [] {
          WellFormedEnds(rest);
        }
      } else if rs[0].end <= p {
        DeleteWellFormed(rest, p);
      }
    }
  }

  /** Dropping up to p keeps exactly the numbers above p. */
  lemma {:induction false} DeleteIn(rs: seq<Range>, p: nat, q: nat)
    requires WellFormed(rs)
    ensures In(DeleteUpTo(rs, p), q) <==> In(rs, q) && q > p
    decreases |rs|
  {
    hide In;
    InOne(Range(0, 0), q);
    if rs != [] {
      var rest := rs[1..];
      assert rs == [rs[0]] + rest;
      WellFormedAppend([rs[0]], rest);
      WellFormedOne(rs[0]);
      hide WellFormed;
      InAppend([rs[0]], rest, q);
      InOne(rs[0], q);
      if rs[0].start <= p < rs[0].end {
        DeleteIn(rest, p, q);
        InAppend([Range(p + 1, rs[0].end)], DeleteUpTo(rest, p), q);
        InOne(Range(p + 1, rs[0].end), q);
        if In(rest, q) {
          InBounds(rest, q);
        }
      } else if rs[0].end <= p {
        DeleteIn(rest, p, q);
      } else if In(rs, q) {
        InBounds(rs, q);
      }
    }
  }

  // ---- Reporting ranges ----

  lemma {:induction false} ReversedAt(rs: seq<Range>, i: nat)
    requires i < |rs|
    ensures |Reversed(rs)| == |rs| && Reversed(rs)[i] == rs[|rs| - 1 - i]
    decreases |rs|
  {
    if |rs| > 1 {
      ReversedAt(rs[..|rs| - 1], if i == 0 then 0 else i - 1);
    }
  }
}

/** ACK frames and the frames that close a path (pstream/internal/wire): both report ranges of packet numbers. */
module AckFrames {

  import opened Wire
  import opened PacketRanges
  import opened ReceivedHistorySpec

  /** The ranges are listed from the highest to the lowest; there are none if no packet is missing. */
  datatype AckFrame = AckFrame(largestAcked: nat, lowestAcked: nat, ranges: seq<Range>)

  /** Each range lies below the one before it, and at least one number is missing between them. */
  predicate Descending(rs: seq<Range>) {
    && (forall i :: 0 <= i < |rs| ==> rs[i].start <= rs[i].end)
    && (forall i, j :: 0 <= i < j < |rs| ==> rs[i].start > rs[j].end + 1)
  }

  predicate ValidFrame(f: AckFrame) {
    f.ranges == [] || (|f.ranges| > 1 && f.ranges[0].end == f.largestAcked && Descending(f.ranges))
  }

  predicate Acks(f: AckFrame, p: nat) {
    f.lowestAcked <= p <= f.largestAcked && (f.ranges == [] || In(f.ranges, p))
  }

  /** validateAckRanges, lines 376 to 412: comparing neighbours is enough. */
  method ValidateAckRanges(f: AckFrame) returns (valid: bool)
    ensures valid == ValidFrame(f)
  {
    var rs := f.ranges;
    if |rs| == 0 {
      return true;
    }
    if |rs| == 1 || rs[0].end != f.largestAcked {
      return false;
    }
    for i := 0 to |rs|
      invariant forall k :: 0 <= k < i ==> rs[k].start <= rs[k].end
    {
      if rs[i].start > rs[i].end {
        return false;
      }
    }
    for i := 1 to |rs|
      invariant forall k, j :: 0 <= k < j < i ==> rs[k].start > rs[j].end + 1
    {
      if rs[i - 1].start <= rs[i].start || rs[i - 1].start <= rs[i].end + 1 {
        return false;
      }
    }
    return true;
  }

  /** AcksPacket, lines 472 to 488. */
  method AcksPacket(f: AckFrame, p: nat) returns (r: bool)
    ensures r == Acks(f, p)
  {
    if p < f.lowestAcked || p > f.largestAcked {
      return false;
    }
    if |f.ranges| > 0 {
      for i := 0 to |f.ranges|
        invariant forall k :: 0 <= k < i ==> !(f.ranges[k].start <= p <= f.ranges[k].end)
      {
        if p >= f.ranges[i].start && p <= f.ranges[i].end {
          return true;
        }
      }
      return false;
    }
    return p >= f.lowestAcked && p <= f.largestAcked;
  }

  /** The frame for a list of received ranges. */
  function FrameOf(largestObserved: nat, rs: seq<Range>): AckFrame
    requires rs != []
  {
    AckFrame(largestObserved, rs[0].start, if |rs| > 1 then Reversed(rs) else [])
  }

  lemma ReversedDescending(rs: seq<Range>)
    requires WellFormed(rs)
    ensures Descending(Reversed(rs)) && |Reversed(rs)| == |rs|
  {
    var r := Reversed(rs);
    if rs != [] {
      ReversedAt(rs, 0);
    }
    forall i | 0 <= i < |rs|
      ensures r[i] == rs[|rs| - 1 - i]
    {
      ReversedAt(rs, i);
    }
  }

  lemma ReversedIn(rs: seq<Range>, p: nat)
    ensures In(Reversed(rs), p) <==> In(rs, p)
    decreases |rs|
  {
    if rs != [] {
      hide In;
      var n := |rs| - 1;
      assert rs == rs[..n] + [rs[n]];
      InAppend(rs[..n], [rs[n]], p);
      InAppend([rs[n]], Reversed(rs[..n]), p);
      ReversedIn(rs[..n], p);
    }
  }

  /** The frame is valid and acknowledges exactly the numbers in the list, if it names the largest of them. */
  lemma FrameCovers(rs: seq<Range>, p: nat)
    requires WellFormed(rs) && rs != []
    ensures var f := FrameOf(rs[|rs| - 1].end, rs);
            ValidFrame(f) && (Acks(f, p) <==> In(rs, p))
  {
    hide Reversed, In;
    ReversedDescending(rs);
    ReversedIn(rs, p);
    hide Descending;
    if |rs| > 1 {
      ReversedAt(rs, 0);
    } else {
      InOne(rs[0], p);
      assert rs == [rs[0]];
    }
    if In(rs, p) {
      InBounds(rs, p);
    }
  }
}

/** receivedPacketHandler (pstream/ackhandler/received_packet_handler.go) as functions. */
module ReceivedPacketsSpec {

  import opened Wire
  import opened PacketRanges
  import opened ReceivedHistorySpec
  import opened AckFrames

  const MAX_PACKETS_BEFORE_ACK: nat := 20
  const RETRANSMITTABLE_BEFORE_ACK: nat := 2

  /** The field alarm says that the ACK alarm is set; lastAck is the largest number in the last ACK frame; legacy
      stands for the versions before 39. */
  datatype Receiver = Receiver(
    largestObserved: nat, lowerLimit: nat, ranges: seq<Range>,
    sinceLastAck: nat, retransmittableSinceLastAck: nat,
    ackQueued: bool, alarm: bool, lastAck: Option<nat>, legacy: bool)

  function NewReceiver(legacy: bool): Receiver {
    Receiver(0, 0, [], 0, 0, false, false, None, legacy)
  }

  datatype ReceiveStatus = Ok | InvalidPacketNumber | TooManyRanges

  function Receive(h: Receiver, p: nat, instigateAck: bool): (Receiver, ReceiveStatus) {
    if p == 0 then (h, InvalidPacketNumber)
    else
      var h1 := h.(largestObserved := Max(p, h.largestObserved));
      if p <= h.lowerLimit then (h1, Ok)
      else if |h.ranges| >= MAX_TRACKED_RANGES then (h1, TooManyRanges)
      else (MaybeQueueAck(h1.(ranges := Add(h.ranges, p)), p, instigateAck), Ok)
  }

  /** The first ACK, a packet reported missing, a new gap or enough packets call for an ACK frame at once; another
      packet that wants an ACK sets the alarm. */
  function MaybeQueueAck(h: Receiver, p: nat, instigateAck: bool): Receiver {
    var since := h.sinceLastAck + 1;
    var retransmittable := h.retransmittableSinceLastAck + if instigateAck then 1 else 0;
    var queued :=
      || h.ackQueued
      || h.lastAck == None
      || (h.legacy && since >= MAX_PACKETS_BEFORE_ACK)
      || (h.lastAck.Some? && p < h.lastAck.value)
      || (h.lastAck.Some? && HighestStart(h.ranges) > h.lastAck.value)
      || (instigateAck && retransmittable >= RETRANSMITTABLE_BEFORE_ACK);
    h.(sinceLastAck := since, retransmittableSinceLastAck := retransmittable,
       ackQueued := queued, alarm := !queued && (h.alarm || instigateAck))
  }

  function HighestStart(rs: seq<Range>): nat {
    if rs == [] then 0 else rs[|rs| - 1].start
  }

  function SetLowerLimit(h: Receiver, limit: nat): Receiver {
    h.(lowerLimit := limit, ranges := DeleteUpTo(h.ranges, limit))
  }

  predicate AckDue(h: Receiver, expired: bool) {
    h.ackQueued || (h.alarm && expired)
  }

  /** The ACK frame, if one is due; expired says that the time of the alarm has come. The source indexes an empty
      slice if an ACK is due and no range is tracked. */
  function GetAckFrame(h: Receiver, expired: bool): (Receiver, Option<AckFrame>)
    requires AckDue(h, expired) ==> h.ranges != []
  {
    if !AckDue(h, expired) then (h, None)
    else
      (h.(lastAck := Some(h.largestObserved), alarm := false, ackQueued := false,
          sinceLastAck := 0, retransmittableSinceLastAck := 0),
       Some(FrameOf(h.largestObserved, h.ranges)))
  }

  /** Between the calls: either nothing was received, or the largest number observed is tracked and above the limit. */
  predicate Valid(h: Receiver) {
    if h.ranges == [] then
      h.largestObserved == 0 && h.lowerLimit == 0 && !h.ackQueued && !h.alarm
    else
      && WellFormed(h.ranges)
      && h.ranges[|h.ranges| - 1].end == h.largestObserved
      && h.lowerLimit < h.ranges[0].start
  }

  lemma NewReceiverValid(legacy: bool)
    ensures Valid(NewReceiver(legacy))
  {
  }

  /** A packet above the limit is added to the tracked ones, any other packet changes nothing; the only error for a
      real packet number is that too many ranges are tracked. */
  lemma ReceiveCorrect(h: Receiver, p: nat, instigateAck: bool)
    requires Valid(h) && p > 0
    ensures var (h', r) := Receive(h, p, instigateAck);
            && (r == TooManyRanges <==> p > h.lowerLimit && |h.ranges| >= MAX_TRACKED_RANGES)
            && (r == Ok ==>
                  && Valid(h')
                  && h'.ranges != [] && h'.largestObserved == Max(p, h.largestObserved)
                  && (forall q :: In(h'.ranges, q) <==> In(h.ranges, q) || (q == p && p > h.lowerLimit)))
  {
    var (h', r) := Receive(h, p, instigateAck);
    hide Add, In;
    if r == Ok && p > h.lowerLimit {
      AddWellFormed(h.ranges, p);
      forall q
        ensures In(h'.ranges, q) <==> In(h.ranges, q) || q == p
      {
        AddIn(h.ranges, p, q);
      }
      AddAbove(h.ranges, p, h.lowerLimit);
    } else if r == Ok {
      BelowLargest(h, p);
    }
  }

  lemma AddAbove(rs: seq<Range>, p: nat, limit: nat)
    requires WellFormed(rs) && p > limit && (rs != [] ==> limit < rs[0].start)
    ensures Add(rs, p) != [] && limit < Add(rs, p)[0].start
  {
    AddWellFormed(rs, p);
    InEnds(Add(rs, p));
    var first := Add(rs, p)[0].start;
    AddIn(rs, p, first);
    if In(rs, first) {
      InBounds(rs, first);
    }
  }

  lemma BelowLargest(h: Receiver, p: nat)
    requires Valid(h) && 0 < p <= h.lowerLimit
    ensures p <= h.largestObserved
  {
    WellFormedEnds(h.ranges);
  }

  /** The largest number observed stays tracked if and only if the new limit lies below it. */
  lemma LimitExact(h: Receiver, limit: nat)
    requires Valid(h) && h.ranges != []
    ensures Valid(SetLowerLimit(h, limit)) && SetLowerLimit(h, limit).ranges != [] <==> limit < h.largestObserved
  {
    DeleteWellFormed(h.ranges, limit);
    hide DeleteUpTo, WellFormed;
    if limit >= h.largestObserved && SetLowerLimit(h, limit).ranges != [] {
      InEnds(SetLowerLimit(h, limit).ranges);
      DeleteIn(h.ranges, limit, SetLowerLimit(h, limit).ranges[0].start);
      InBounds(h.ranges, SetLowerLimit(h, limit).ranges[0].start);
    }
  }

  /** A new limit removes exactly the numbers up to it. */
  lemma LimitDrops(h: Receiver, limit: nat, q: nat)
    requires Valid(h)
    ensures In(SetLowerLimit(h, limit).ranges, q) <==> In(h.ranges, q) && q > limit
  {
    if h.ranges != [] {
      DeleteIn(h.ranges, limit, q);
    }
  }

  /** An ACK frame is never built from an empty list, and acknowledges exactly the tracked numbers. */
  lemma AckCorrect(h: Receiver, expired: bool, p: nat)
    requires Valid(h)
    ensures AckDue(h, expired) ==> h.ranges != []
    ensures var (h', f) := GetAckFrame(h, expired);
            && Valid(h') && h'.ranges == h.ranges
            && (f.Some? ==> ValidFrame(f.value) && (Acks(f.value, p) <==> In(h.ranges, p)))
  {
    if AckDue(h, expired) {
      FrameCovers(h.ranges, p);
    }
  }

  /** A frame is made exactly if one is due. It reports the largest number observed, none is due after it, and the
      counts since the last frame start again; without a frame nothing changes. */
  lemma AckResets(h: Receiver, expired: bool, later: bool)
    requires Valid(h)
    ensures AckDue(h, expired) ==> h.ranges != []
    ensures var (h', f) := GetAckFrame(h, expired);
            && (f.Some? <==> AckDue(h, expired))
            && (f.None? ==> h' == h)
            && (f.Some? ==>
                  && !AckDue(h', later)
                  && f.value.largestAcked == h.largestObserved && h'.lastAck == Some(h.largestObserved)
                  && h'.sinceLastAck == 0 && h'.retransmittableSinceLastAck == 0
                  && h'.largestObserved == h.largestObserved && h'.lowerLimit == h.lowerLimit
                  && h'.legacy == h.legacy)
  {
  }

  /** A packet that asks for an ACK gets one: a frame is due at once or when the alarm expires, and acknowledges it. A
      packet that the last frame reported missing makes a frame due at once, and so does every second such packet. */
  lemma AckPromised(h: Receiver, p: nat)
    requires Valid(h) && p > h.lowerLimit && Receive(h, p, true).1 == Ok
    ensures var h' := Receive(h, p, true).0;
            && AckDue(h', true)
            && (AckDue(h', true) ==> h'.ranges != [] && Acks(GetAckFrame(h', true).1.value, p))
            && (h.lastAck.Some? && p < h.lastAck.value ==> h'.ackQueued)
            && (h.retransmittableSinceLastAck >= 1 ==> h'.ackQueued)
  {
    var h' := Receive(h, p, true).0;
    ReceiveCorrect(h, p, true);
    AckCorrect(h', true, p);
    hide Valid, Add, In, FrameOf, Acks;
  }
}

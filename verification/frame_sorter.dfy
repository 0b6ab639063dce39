/** The list of byte ranges not received yet, and how one frame changes it. */
module ByteGaps {

  import opened Wire

  /** Half-open range of byte offsets. */
  datatype Interval = Interval(start: nat, end: nat)

  /** Sorted, non-empty, not touching, and open-ended at the top. */
  predicate WellFormed(gaps: seq<Interval>) {
    && 0 < |gaps|
    && (forall i :: 0 <= i < |gaps| ==> gaps[i].start < gaps[i].end)
    && (forall i, j :: 0 <= i < j < |gaps| ==> gaps[i].end < gaps[j].start)
    && gaps[|gaps| - 1].end == MAX_BYTE_COUNT
  }

  /** Byte x has not been received. */
  predicate Missing(gaps: seq<Interval>, x: nat) {
    exists i :: 0 <= i < |gaps| && gaps[i].start <= x < gaps[i].end
  }

  /** No byte of [a, b) is missing. */
  predicate Arrived(gaps: seq<Interval>, a: nat, b: nat) {
    forall i :: 0 <= i < |gaps| ==> gaps[i].end <= a || b <= gaps[i].start
  }

  /** Arrived is the pointwise complement of Missing. */
  lemma ArrivedMeansNothingMissing(gaps: seq<Interval>, a: nat, b: nat)
    requires WellFormed(gaps)
    requires a < b
    ensures Arrived(gaps, a, b) <==> forall x :: a <= x < b ==> !Missing(gaps, x)
  {
    if !Arrived(gaps, a, b) {
      var i :| 0 <= i < |gaps| && a < gaps[i].end && gaps[i].start < b;
      assert Missing(gaps, Max(a, gaps[i].start));
    }
  }

  datatype Search = Found(index: nat) | Covered | NoGap

  /** The first gap at or after index i that the frame [start, end) reaches. */
  function FirstGap(gaps: seq<Interval>, start: nat, end: nat, i: nat): Search
    requires i <= |gaps|
    decreases |gaps| - i
  {
    if i == |gaps| then NoGap
    else if end <= gaps[i].start then Covered
    else if start <= gaps[i].end then Found(i)
    else FirstGap(gaps, start, end, i + 1)
  }

  /** The last gap the frame reaches; |gaps| when the frame runs past the end of the list. */
  function LastGap(gaps: seq<Interval>, end: nat, j: nat): nat
    requires j < |gaps|
    decreases |gaps| - j
  {
    if end < gaps[j].end then j
    else if j + 1 == |gaps| then |gaps|
    else if end <= gaps[j + 1].start then j
    else LastGap(gaps, end, j + 1)
  }

  /** The gap list after [a, b) was filled, where a lies in gap i and b in gap j. */
  function Fill(gaps: seq<Interval>, i: nat, j: nat, a: nat, b: nat): seq<Interval>
    requires i <= j < |gaps|
  {
    gaps[..i] + LeftRest(gaps, i, a) + RightRest(gaps, j, b) + gaps[j + 1..]
  }

  lemma {:induction false} FirstGapFacts(gaps: seq<Interval>, start: nat, end: nat, i: nat)
    requires WellFormed(gaps)
    requires i < |gaps| && start < end <= MAX_BYTE_COUNT
    requires forall k :: 0 <= k < i ==> gaps[k].end < start
    ensures match FirstGap(gaps, start, end, i)
            case NoGap => false
            case Covered => Arrived(gaps, start, end)
            case Found(m) =>
              && i <= m < |gaps|
              && gaps[m].start < end && start <= gaps[m].end
              && (forall k :: 0 <= k < m ==> gaps[k].end < start)
    decreases |gaps| - i
  {
    if end <= gaps[i].start {
    } else if start <= gaps[i].end {
    } else {
      assert gaps[|gaps| - 1].end == MAX_BYTE_COUNT;
      FirstGapFacts(gaps, start, end, i + 1);
    }
  }

  lemma {:induction false} FirstGapFound(gaps: seq<Interval>, start: nat, end: nat, i: nat)
    requires i <= |gaps|
    ensures var r := FirstGap(gaps, start, end, i);
            r.Found? ==> i <= r.index < |gaps| && gaps[r.index].start < end && start <= gaps[r.index].end
    decreases |gaps| - i
  {
    if i < |gaps| && gaps[i].start < end && gaps[i].end < start {
      FirstGapFound(gaps, start, end, i + 1);
    }
  }

  lemma {:induction false} LastGapFacts(gaps: seq<Interval>, end: nat, j: nat)
    requires WellFormed(gaps)
    requires j < |gaps| && gaps[j].start < end
    ensures LastGap(gaps, end, j) == |gaps| <==> end >= MAX_BYTE_COUNT
    ensures var m := LastGap(gaps, end, j);
            && m <= |gaps|
            && (m < |gaps| ==>
                  j <= m && gaps[m].start < end && (forall k :: m < k < |gaps| ==> end <= gaps[k].start))
    decreases |gaps| - j
  {
    if end < gaps[j].end {
    } else if j + 1 == |gaps| {
    } else if end <= gaps[j + 1].start {
    } else {
      LastGapFacts(gaps, end, j + 1);
    }
  }

  /** [start, end) reaches gaps i to j, and [a, b) is the part of it from gap i to gap j. */
  predicate Spot(gaps: seq<Interval>, start: nat, end: nat, i: nat, j: nat, a: nat, b: nat) {
    && i <= j < |gaps|
    && a == Max(start, gaps[i].start) < gaps[i].end
    && b == Min(end, gaps[j].end) < MAX_BYTE_COUNT
    && gaps[j].start < b && a < b
    && (forall k :: 0 <= k < i ==> gaps[k].end < start)
    && (forall k :: j < k < |gaps| ==> end <= gaps[k].start)
  }

  /** Non-empty, sorted, not touching. */
  predicate Ordered(gaps: seq<Interval>) {
    && (forall i :: 0 <= i < |gaps| ==> gaps[i].start < gaps[i].end)
    && (forall i, j :: 0 <= i < j < |gaps| ==> gaps[i].end < gaps[j].start)
  }

  /** Two ordered lists on either side of v. */
  lemma OrderedConcat(below: seq<Interval>, above: seq<Interval>, v: nat)
    requires Ordered(below) && Ordered(above)
    requires forall i :: 0 <= i < |below| ==> below[i].end < v
    requires forall i :: 0 <= i < |above| ==> v <= above[i].start
    ensures Ordered(below + above)
  {
  }

  lemma MissingConcat(xs: seq<Interval>, ys: seq<Interval>, x: nat)
    ensures Missing(xs + ys, x) <==> Missing(xs, x) || Missing(ys, x)
  {
    if Missing(xs, x) {
      var k :| 0 <= k < |xs| && xs[k].start <= x < xs[k].end;
      assert (xs + ys)[k] == xs[k];
    }
    if Missing(ys, x) {
      var k :| 0 <= k < |ys| && ys[k].start <= x < ys[k].end;
      assert (xs + ys)[|xs| + k] == ys[k];
    }
  }

  /** What stays missing of gap i in front of a. */
  function LeftRest(gaps: seq<Interval>, i: nat, a: nat): seq<Interval>
    requires i < |gaps|
  {
    if gaps[i].start < a then [Interval(gaps[i].start, a)] else []
  }

  /** What stays missing of gap j behind b. */
  function RightRest(gaps: seq<Interval>, j: nat, b: nat): seq<Interval>
    requires j < |gaps|
  {
    if b < gaps[j].end then [Interval(b, gaps[j].end)] else []
  }

  /** Four ordered lists one behind the other. */
  lemma JoinOrdered(p: seq<Interval>, l: seq<Interval>, r: seq<Interval>, q: seq<Interval>, u: nat, v: nat, w: nat)
    requires Ordered(p) && Ordered(l) && Ordered(r) && Ordered(q) && u <= v <= w
    requires forall k :: 0 <= k < |p| ==> p[k].end < u
    requires forall k :: 0 <= k < |l| ==> u <= l[k].start && l[k].end < v
    requires forall k :: 0 <= k < |r| ==> v <= r[k].start && r[k].end < w
    requires forall k :: 0 <= k < |q| ==> w <= q[k].start
    ensures Ordered(p + l + r + q)
  {
    OrderedConcat(p, l, u);
    assert forall k :: 0 <= k < |p + l| ==> (p + l)[k].end < v;
    OrderedConcat(p + l, r, v);
    assert forall k :: 0 <= k < |p + l + r| ==> (p + l + r)[k].end < w;
    OrderedConcat(p + l + r, q, w);
  }

  /** The parts of the list in front of and behind the gaps that a frame reaches. */
  lemma SidesOrdered(gaps: seq<Interval>, start: nat, end: nat, i: nat, j: nat, a: nat, b: nat)
    requires WellFormed(gaps) && Spot(gaps, start, end, i, j, a, b)
    ensures Ordered(gaps[..i]) && Ordered(gaps[j + 1..])
    ensures forall iv :: iv in gaps[..i] ==> iv.end < gaps[i].start
    ensures forall iv :: iv in gaps[j + 1..] ==> gaps[j].end < iv.start
    ensures j + 1 < |gaps| ==> gaps[j + 1..][|gaps| - j - 2].end == MAX_BYTE_COUNT
    ensures j + 1 == |gaps| ==> gaps[j].end == MAX_BYTE_COUNT
  {
  }

  /** Filling keeps the list sorted, non-empty, not touching and open-ended. */
  lemma FillWellFormed(gaps: seq<Interval>, start: nat, end: nat, i: nat, j: nat, a: nat, b: nat)
    requires WellFormed(gaps) && Spot(gaps, start, end, i, j, a, b)
    ensures WellFormed(Fill(gaps, i, j, a, b))
  {
    SidesOrdered(gaps, start, end, i, j, a, b);
    FillOrdered(gaps[..i], gaps[j + 1..], gaps, i, j, a, b);
  }

  lemma FillOrdered(p: seq<Interval>, q: seq<Interval>, gaps: seq<Interval>, i: nat, j: nat, a: nat, b: nat)
    requires i <= j < |gaps| && p == gaps[..i] && q == gaps[j + 1..]
    requires gaps[i].start <= a < b <= gaps[j].end && b < MAX_BYTE_COUNT
    requires Ordered(p) && Ordered(q)
    requires forall iv :: iv in p ==> iv.end < gaps[i].start
    requires forall iv :: iv in q ==> gaps[j].end < iv.start
    requires if |q| == 0 then gaps[j].end == MAX_BYTE_COUNT else q[|q| - 1].end == MAX_BYTE_COUNT
    ensures WellFormed(Fill(gaps, i, j, a, b))
  {
    JoinOrdered(p, LeftRest(gaps, i, a), RightRest(gaps, j, b), q, gaps[i].start, b, gaps[j].end + 1);
    var filled := Fill(gaps, i, j, a, b);
    assert |q| > 0 ==> filled[|filled| - 1] == q[|q| - 1];
  }

  /** The gaps that the frame reaches lose exactly the frame's bytes. */
  lemma MiddleMissing(gaps: seq<Interval>, start: nat, end: nat, i: nat, j: nat, a: nat, b: nat, x: nat)
    requires WellFormed(gaps) && Spot(gaps, start, end, i, j, a, b)
    ensures Missing(LeftRest(gaps, i, a), x) || Missing(RightRest(gaps, j, b), x)
            <==> Missing(gaps[i..j + 1], x) && !(start <= x < end)
  {
    var middle := gaps[i..j + 1];
    assert middle[0] == gaps[i] && middle[j - i] == gaps[j];
    if Missing(LeftRest(gaps, i, a), x) {
      assert middle[0].start <= x < middle[0].end;
    }
    if Missing(RightRest(gaps, j, b), x) {
      assert middle[j - i].start <= x < middle[j - i].end;
    }
    if Missing(middle, x) && !(start <= x < end) {
      var k :| 0 <= k < |middle| && middle[k].start <= x < middle[k].end;
      assert middle[k] == gaps[i + k];
      if x < start {
        assert LeftRest(gaps, i, a)[0].start <= x < LeftRest(gaps, i, a)[0].end;
      } else {
        assert RightRest(gaps, j, b)[0].start <= x < RightRest(gaps, j, b)[0].end;
      }
    }
  }

  lemma JoinMissing(p: seq<Interval>, l: seq<Interval>, r: seq<Interval>, q: seq<Interval>, x: nat)
    ensures Missing(p + l + r + q, x) <==> Missing(p, x) || Missing(l, x) || Missing(r, x) || Missing(q, x)
  {
    MissingConcat(p, l, x);
    MissingConcat(p + l, r, x);
    MissingConcat(p + l + r, q, x);
  }

  lemma SplitMissing(gaps: seq<Interval>, i: nat, j: nat, x: nat)
    requires i <= j < |gaps|
    ensures Missing(gaps, x) <==> Missing(gaps[..i], x) || Missing(gaps[i..j + 1], x) || Missing(gaps[j + 1..], x)
  {
    MissingConcat(gaps[..i], gaps[i..j + 1], x);
    MissingConcat(gaps[..i] + gaps[i..j + 1], gaps[j + 1..], x);
    assert gaps[..i] + gaps[i..j + 1] + gaps[j + 1..] == gaps;
  }

  /** The gaps that the frame does not reach lie outside of it. */
  lemma SidesMissing(gaps: seq<Interval>, start: nat, end: nat, i: nat, j: nat, a: nat, b: nat, x: nat)
    requires Spot(gaps, start, end, i, j, a, b)
    requires Missing(gaps[..i], x) || Missing(gaps[j + 1..], x)
    ensures !(start <= x < end)
  {
  }

  /** Filling removes exactly the bytes of [start, end) from what is missing. */
  lemma FillMissing(gaps: seq<Interval>, start: nat, end: nat, i: nat, j: nat, a: nat, b: nat, x: nat)
    requires WellFormed(gaps) && Spot(gaps, start, end, i, j, a, b)
    ensures Missing(Fill(gaps, i, j, a, b), x) <==> Missing(gaps, x) && !(start <= x < end)
  {
    JoinMissing(gaps[..i], LeftRest(gaps, i, a), RightRest(gaps, j, b), gaps[j + 1..], x);
    SplitMissing(gaps, i, j, x);
    MiddleMissing(gaps, start, end, i, j, a, b, x);
    if Missing(gaps[..i], x) || Missing(gaps[j + 1..], x) {
      SidesMissing(gaps, start, end, i, j, a, b, x);
    }
  }

  /** What had arrived stays arrived, and the frame's own range has arrived. */
  lemma FillArrived(gaps: seq<Interval>, start: nat, end: nat, i: nat, j: nat, a: nat, b: nat, c: nat, d: nat)
    requires WellFormed(gaps) && Spot(gaps, start, end, i, j, a, b)
    requires c < d
    requires Arrived(gaps, c, d) || start <= c < d <= end
    ensures Arrived(Fill(gaps, i, j, a, b), c, d)
  {
    FillWellFormed(gaps, start, end, i, j, a, b);
    var filled := Fill(gaps, i, j, a, b);
    forall x | c <= x < d
      ensures !Missing(filled, x)
    {
      FillMissing(gaps, start, end, i, j, a, b, x);
      ArrivedMeansNothingMissing(gaps, c, d);
    }
    ArrivedMeansNothingMissing(filled, c, d);
  }
}

/** streamFrameSorter (pstream/stream_frame_sorter.go) as functions on its state. */
module FrameSorterSpec {

  import opened Wire
  import opened ByteGaps

  const MAX_GAPS: nat := 2500

  datatype Sorter = Sorter(queued: map<nat, StreamFrame>, readPosition: nat, gaps: seq<Interval>)

  datatype PushResult = Ok | Duplicate | EmptyData | TooManyGaps | BugNoGap | BugNoEndGap

  const EMPTY: Sorter := Sorter(map[], 0, [Interval(0, MAX_BYTE_COUNT)])

  /** The queue without the frames that start at the end of gaps i to j - 1. */
  function Uncover(queued: map<nat, StreamFrame>, gaps: seq<Interval>, i: nat, j: nat): map<nat, StreamFrame>
    requires i <= j <= |gaps|
  {
    queued - (set k | i <= k < j :: gaps[k].end)
  }

  /** The frame [start, end) reaches gap i, and the last gap it reaches is where it should be. */
  predicate Reaches(gaps: seq<Interval>, start: nat, end: nat, i: nat) {
    && i < |gaps| && gaps[i].start < end && start <= gaps[i].end && gaps[i].start <= gaps[i].end
    && var j := LastGap(gaps, end, i);
    && j <= |gaps|
    && (j < |gaps| ==> i <= j && gaps[j].start < end && gaps[i].end <= gaps[j].end)
    && (i < j < |gaps| ==> gaps[i].end < gaps[j].start)
  }

  /** Insertion of a frame whose first gap is gap i. */
  function InsertAt(s: Sorter, f: StreamFrame, i: nat): (Sorter, PushResult)
    requires 0 < |f.data| && Reaches(s.gaps, f.offset, f.End(), i)
  {
    var j := LastGap(s.gaps, f.End(), i);
    var top := |s.gaps| - 1;
    if j > top then
      (s.(queued := Uncover(s.queued, s.gaps, i, top),
          gaps := if i == top then s.gaps else s.gaps[..i + 1] + s.gaps[top..]), BugNoEndGap)
    else
      var a := Max(f.offset, s.gaps[i].start);
      var b := Min(f.End(), s.gaps[j].end);
      var cut := s.(queued := Uncover(s.queued, s.gaps, i, j), gaps := Fill(s.gaps, i, j, a, b));
      if |cut.gaps| > MAX_GAPS then (cut, TooManyGaps)
      else (cut.(queued := cut.queued[a := f.DropFront(a - f.offset).TakeFront(b - a)]), Ok)
  }

  lemma FirstGapReaches(gaps: seq<Interval>, start: nat, end: nat)
    requires WellFormed(gaps)
    ensures var r := FirstGap(gaps, start, end, 0);
            r.Found? ==> Reaches(gaps, start, end, r.index)
  {
    FirstGapFound(gaps, start, end, 0);
    var r := FirstGap(gaps, start, end, 0);
    if r.Found? {
      LastGapFacts(gaps, end, r.index);
    }
  }

  /** Insertion of a non-empty frame, after the comparison with the frame queued at its offset. */
  function Insert(s: Sorter, f: StreamFrame): (Sorter, PushResult)
    requires WellFormed(s.gaps)
    requires 0 < |f.data|
  {
    match FirstGap(s.gaps, f.offset, f.End(), 0)
    case NoGap => (s, BugNoGap)
    case Covered => (s, Duplicate)
    case Found(i) =>
      FirstGapReaches(s.gaps, f.offset, f.End());
      InsertAt(s, f, i)
  }

  function Push(s: Sorter, f: StreamFrame): (Sorter, PushResult)
    requires WellFormed(s.gaps)
  {
    if |f.data| == 0 then
      if f.fin then (s.(queued := s.queued[f.offset := f]), Ok) else (s, EmptyData)
    else if f.offset !in s.queued then Insert(s, f)
    else if |f.data| <= |s.queued[f.offset].data| then (s, Duplicate)
    else Insert(s, f.DropFront(|s.queued[f.offset].data|))
  }

  // ---- Invariant ----

  /** The frames queued at a, at the end of that frame, and so on, lead exactly to b. */
  predicate Chain(queued: map<nat, StreamFrame>, a: nat, b: nat)
    decreases b - a
  {
    a == b || (a < b && a in queued && 0 < |queued[a].data| && Chain(queued, a + |queued[a].data|, b))
  }

  /** Where the arrived data in front of gap i begins. */
  function SegmentStart(s: Sorter, i: nat): nat
    requires i <= |s.gaps|
  {
    if i == 0 then s.readPosition else s.gaps[i - 1].end
  }

  /** Every frame sits at its own offset, and its bytes count as arrived. */
  predicate FramesArrived(s: Sorter) {
    forall o :: o in s.queued ==>
      s.queued[o].offset == o && (0 < |s.queued[o].data| ==> Arrived(s.gaps, o, o + |s.queued[o].data|))
  }

  /** All arrived, unread data can be reached by following queued frames. */
  predicate Linked(s: Sorter) {
    forall i {:trigger SegmentStart(s, i)} :: 0 <= i < |s.gaps| ==> Chain(s.queued, SegmentStart(s, i), s.gaps[i].start)
  }

  predicate Valid(s: Sorter) {
    WellFormed(s.gaps) && |s.gaps| <= MAX_GAPS && Linked(s) && FramesArrived(s)
  }

  lemma {:induction false} ChainOrder(queued: map<nat, StreamFrame>, a: nat, b: nat)
    requires Chain(queued, a, b)
    ensures a <= b
  {
  }

  lemma {:induction false} ChainConcat(queued: map<nat, StreamFrame>, a: nat, b: nat, c: nat)
    requires Chain(queued, a, b) && Chain(queued, b, c)
    ensures Chain(queued, a, c)
    decreases b - a
  {
    if a < b {
      ChainOrder(queued, a + |queued[a].data|, b);
      ChainOrder(queued, b, c);
      ChainConcat(queued, a + |queued[a].data|, b, c);
    }
  }

  /** A chain depends only on the frames that start inside it. */
  lemma {:induction false} ChainFrame(queued: map<nat, StreamFrame>, queued': map<nat, StreamFrame>, a: nat, b: nat)
    requires Chain(queued, a, b)
    requires forall o :: a <= o < b && o in queued ==> o in queued' && queued'[o] == queued[o]
    ensures Chain(queued', a, b)
    decreases b - a
  {
    if a < b {
      ChainFrame(queued, queued', a + |queued[a].data|, b);
    }
  }

  /** A new sorter satisfies the invariant. */
  lemma EmptyValid()
    ensures Valid(EMPTY)
  {
  }

  /** A gap that is not the last one ends where a queued, non-empty frame starts. */
  lemma FrameAtGapEnd(s: Sorter, k: nat)
    requires WellFormed(s.gaps) && Linked(s)
    requires k + 1 < |s.gaps|
    ensures s.gaps[k].end in s.queued && 0 < |s.queued[s.gaps[k].end].data|
  {
    assert Chain(s.queued, SegmentStart(s, k + 1), s.gaps[k + 1].start);
  }

  /** The frame that is left after the comparison with the frame queued at its offset. */
  function Remainder(s: Sorter, f: StreamFrame): StreamFrame
    requires f.offset in s.queued ==> |s.queued[f.offset].data| < |f.data|
  {
    if f.offset in s.queued then f.DropFront(|s.queued[f.offset].data|) else f
  }

  /** Every gap but the last ends where a queued, non-empty frame starts. */
  predicate Anchored(s: Sorter) {
    forall k :: 0 <= k < |s.gaps| - 1 ==> s.gaps[k].end in s.queued && 0 < |s.queued[s.gaps[k].end].data|
  }

  lemma LinkedAnchored(s: Sorter)
    requires WellFormed(s.gaps) && Linked(s)
    ensures Anchored(s)
  {
    forall k | 0 <= k < |s.gaps| - 1
      ensures s.gaps[k].end in s.queued && 0 < |s.queued[s.gaps[k].end].data|
    {
      FrameAtGapEnd(s, k);
    }
  }

  /** That frame never starts where a gap ends. */
  lemma StartsOffGapEnd(s: Sorter, f: StreamFrame, k: nat)
    requires WellFormed(s.gaps) && Anchored(s) && FramesArrived(s)
    requires f.End() <= MAX_BYTE_COUNT && 0 < |f.data| && k < |s.gaps|
    requires f.offset in s.queued ==> |s.queued[f.offset].data| < |f.data|
    ensures Remainder(s, f).offset != s.gaps[k].end
  {
    if f.offset in s.queued && 0 < |s.queued[f.offset].data| {
      assert s.gaps[k].end <= f.offset || f.offset + |s.queued[f.offset].data| <= s.gaps[k].start;
    }
  }

  /** Where Insert puts a frame that starts at no gap's end. */
  lemma InsertSpot(gaps: seq<Interval>, start: nat, end: nat)
    requires WellFormed(gaps) && start < end < MAX_BYTE_COUNT
    requires forall k :: 0 <= k < |gaps| ==> start != gaps[k].end
    ensures match FirstGap(gaps, start, end, 0)
            case NoGap => false
            case Covered => Arrived(gaps, start, end)
            case Found(i) =>
              && i < |gaps|
              && var j := LastGap(gaps, end, i);
              && j < |gaps|
              && Spot(gaps, start, end, i, j, Max(start, gaps[i].start), Min(end, gaps[j].end))
  {
    FirstGapFacts(gaps, start, end, 0);
    var r := FirstGap(gaps, start, end, 0);
    if r.Found? {
      LastGapFacts(gaps, end, r.index);
    }
  }

  /** The queue after the piece was stored over gaps i to j. */
  function StoredQueue(s: Sorter, i: nat, j: nat, piece: StreamFrame): map<nat, StreamFrame>
    requires i <= j < |s.gaps|
  {
    Uncover(s.queued, s.gaps, i, j)[piece.offset := piece]
  }

  /** The sorter after the piece was stored over gaps i to j. */
  function Stored(s: Sorter, i: nat, j: nat, piece: StreamFrame): Sorter
    requires i <= j < |s.gaps|
  {
    Sorter(StoredQueue(s, i, j, piece), s.readPosition, Fill(s.gaps, i, j, piece.offset, piece.End()))
  }

  /** Storing a piece leaves the data in front of gap i and behind gap j linked. */
  lemma SegmentKept(s: Sorter, start: nat, end: nat, i: nat, j: nat, piece: StreamFrame, n: nat)
    requires WellFormed(s.gaps) && Spot(s.gaps, start, end, i, j, piece.offset, piece.End())
    requires n <= i || j < n < |s.gaps|
    requires n < |s.gaps| && Chain(s.queued, SegmentStart(s, n), s.gaps[n].start)
    ensures Chain(StoredQueue(s, i, j, piece), SegmentStart(s, n), s.gaps[n].start)
  {
    var queued' := StoredQueue(s, i, j, piece);
    forall o | SegmentStart(s, n) <= o < s.gaps[n].start && o in s.queued
      ensures o in queued' && queued'[o] == s.queued[o]
    {
    }
    ChainFrame(s.queued, queued', SegmentStart(s, n), s.gaps[n].start);
  }

  /** The new piece is linked to the data in front of it. */
  lemma PieceLinked(s: Sorter, start: nat, end: nat, i: nat, j: nat, piece: StreamFrame)
    requires WellFormed(s.gaps) && Spot(s.gaps, start, end, i, j, piece.offset, piece.End())
    requires Chain(s.queued, SegmentStart(s, i), s.gaps[i].start)
    ensures var queued' := StoredQueue(s, i, j, piece);
            && Chain(queued', piece.offset, piece.End())
            && (s.gaps[i].start == piece.offset ==> Chain(queued', SegmentStart(s, i), piece.End()))
  {
    var queued' := StoredQueue(s, i, j, piece);
    assert Chain(queued', piece.End(), piece.End());
    if s.gaps[i].start == piece.offset {
      SegmentKept(s, start, end, i, j, piece, i);
      ChainConcat(queued', SegmentStart(s, i), piece.offset, piece.End());
    }
  }

  /** The gap after the piece, when the piece ends exactly where gap j ends. */
  lemma PieceReachesNext(s: Sorter, start: nat, end: nat, i: nat, j: nat, piece: StreamFrame)
    requires WellFormed(s.gaps) && Spot(s.gaps, start, end, i, j, piece.offset, piece.End())
    requires Chain(s.queued, SegmentStart(s, i), s.gaps[i].start)
    requires j + 1 < |s.gaps| && Chain(s.queued, SegmentStart(s, j + 1), s.gaps[j + 1].start)
    requires piece.End() == s.gaps[j].end
    ensures var queued' := StoredQueue(s, i, j, piece);
            && Chain(queued', piece.offset, s.gaps[j + 1].start)
            && (s.gaps[i].start == piece.offset ==> Chain(queued', SegmentStart(s, i), s.gaps[j + 1].start))
  {
    var queued' := StoredQueue(s, i, j, piece);
    PieceLinked(s, start, end, i, j, piece);
    SegmentKept(s, start, end, i, j, piece, j + 1);
    ChainConcat(queued', piece.offset, piece.End(), s.gaps[j + 1].start);
    if s.gaps[i].start == piece.offset {
      ChainConcat(queued', SegmentStart(s, i), piece.End(), s.gaps[j + 1].start);
    }
  }

  /** The data in front of gap m of the new list is [from, to), in terms of the old list. */
  predicate StoredSegment(s: Sorter, i: nat, j: nat, piece: StreamFrame, m: nat, from: nat, to: nat)
    requires i <= j < |s.gaps|
  {
    var left := |LeftRest(s.gaps, i, piece.offset)|;
    var right := |RightRest(s.gaps, j, piece.End())|;
    if m < i + left then
      m <= i && from == SegmentStart(s, m) && to == s.gaps[m].start
    else if m == i + left then
      && from == (if left == 1 then piece.offset else SegmentStart(s, i))
      && (right == 1 ==> to == piece.End())
      && (right == 0 ==> j + 1 < |s.gaps| && to == s.gaps[j + 1].start)
    else
      var n := m - (i + left + right) + j + 1;
      j < n < |s.gaps| && from == SegmentStart(s, n) && to == s.gaps[n].start
  }

  /** Bounds of the arrived data in front of gap m of the new list, in terms of the old list. */
  lemma StoredBounds(s: Sorter, i: nat, j: nat, piece: StreamFrame, m: nat)
    requires i <= j < |s.gaps| && m < |Stored(s, i, j, piece).gaps|
    requires piece.End() <= s.gaps[j].end && (piece.End() == s.gaps[j].end ==> j + 1 < |s.gaps|)
    ensures var s' := Stored(s, i, j, piece);
            StoredSegment(s, i, j, piece, m, SegmentStart(s', m), s'.gaps[m].start)
  {
  }

  /** The piece is linked to the gap, or to the data, behind it. */
  lemma SeamChain(s: Sorter, start: nat, end: nat, i: nat, j: nat, piece: StreamFrame, from: nat, to: nat)
    requires WellFormed(s.gaps) && Linked(s)
    requires Spot(s.gaps, start, end, i, j, piece.offset, piece.End())
    requires StoredSegment(s, i, j, piece, i + |LeftRest(s.gaps, i, piece.offset)|, from, to)
    ensures Chain(StoredQueue(s, i, j, piece), from, to)
  {
    assert Chain(s.queued, SegmentStart(s, i), s.gaps[i].start);
    if piece.End() < s.gaps[j].end {
      PieceLinked(s, start, end, i, j, piece);
    } else {
      assert Chain(s.queued, SegmentStart(s, j + 1), s.gaps[j + 1].start);
      PieceReachesNext(s, start, end, i, j, piece);
    }
  }

  /** Storing a piece keeps every arrived byte reachable. */
  lemma StoredChain(s: Sorter, start: nat, end: nat, i: nat, j: nat, piece: StreamFrame, m: nat, from: nat, to: nat)
    requires WellFormed(s.gaps) && Linked(s)
    requires Spot(s.gaps, start, end, i, j, piece.offset, piece.End())
    requires StoredSegment(s, i, j, piece, m, from, to)
    ensures Chain(StoredQueue(s, i, j, piece), from, to)
  {
    var left := |LeftRest(s.gaps, i, piece.offset)|;
    if m == i + left {
      SeamChain(s, start, end, i, j, piece, from, to);
    } else {
      var right := |RightRest(s.gaps, j, piece.End())|;
      var n := if m < i + left then m else m - (i + left + right) + j + 1;
      SegmentKept(s, start, end, i, j, piece, n);
    }
  }

  lemma StoredFrames(s: Sorter, start: nat, end: nat, i: nat, j: nat, piece: StreamFrame)
    requires WellFormed(s.gaps) && FramesArrived(s)
    requires Spot(s.gaps, start, end, i, j, piece.offset, piece.End())
    ensures FramesArrived(Stored(s, i, j, piece))
  {
    var s' := Stored(s, i, j, piece);
    forall o | o in s'.queued
      ensures s'.queued[o].offset == o
      ensures 0 < |s'.queued[o].data| ==> Arrived(s'.gaps, o, o + |s'.queued[o].data|)
    {
      if 0 < |s'.queued[o].data| {
        FillArrived(s.gaps, start, end, i, j, piece.offset, piece.End(), o, o + |s'.queued[o].data|);
      }
    }
  }

  /** Storing a piece keeps the invariant, unless there are too many gaps. */
  lemma StoredValid(s: Sorter, start: nat, end: nat, i: nat, j: nat, piece: StreamFrame)
    requires WellFormed(s.gaps) && Linked(s) && FramesArrived(s)
    requires Spot(s.gaps, start, end, i, j, piece.offset, piece.End())
    requires |Stored(s, i, j, piece).gaps| <= MAX_GAPS
    ensures Valid(Stored(s, i, j, piece))
  {
    var s' := Stored(s, i, j, piece);
    FillWellFormed(s.gaps, start, end, i, j, piece.offset, piece.End());
    StoredFrames(s, start, end, i, j, piece);
    forall m {:trigger SegmentStart(s', m)} | 0 <= m < |s'.gaps|
      ensures Chain(s'.queued, SegmentStart(s', m), s'.gaps[m].start)
    {
      StoredBounds(s, i, j, piece, m);
      StoredChain(s, start, end, i, j, piece, m, SegmentStart(s', m), s'.gaps[m].start);
    }
  }

  /** The gaps of s' are those of s without the bytes [start, end). */
  ghost predicate Fills(s: Sorter, s': Sorter, start: nat, end: nat) {
    forall x: nat :: Missing(s'.gaps, x) <==> Missing(s.gaps, x) && !(start <= x < end)
  }

  /** The part of the frame that is stored when its first gap is gap i. */
  function Piece(gaps: seq<Interval>, f: StreamFrame, i: nat): StreamFrame
    requires 0 < |f.data| && Reaches(gaps, f.offset, f.End(), i) && LastGap(gaps, f.End(), i) < |gaps|
  {
    var a := Max(f.offset, gaps[i].start);
    f.DropFront(a - f.offset).TakeFront(Min(f.End(), gaps[LastGap(gaps, f.End(), i)].end) - a)
  }

  lemma PieceBounds(gaps: seq<Interval>, f: StreamFrame, i: nat)
    requires 0 < |f.data| && Reaches(gaps, f.offset, f.End(), i) && LastGap(gaps, f.End(), i) < |gaps|
    ensures Piece(gaps, f, i).offset == Max(f.offset, gaps[i].start)
    ensures Piece(gaps, f, i).End() == Min(f.End(), gaps[LastGap(gaps, f.End(), i)].end)
  {
  }

  /** Insertion at a spot: the piece is stored over the gaps the frame reaches. */
  lemma InsertAtShape(s: Sorter, f: StreamFrame, i: nat)
    requires 0 < |f.data| && Reaches(s.gaps, f.offset, f.End(), i) && LastGap(s.gaps, f.End(), i) < |s.gaps|
    ensures var j := LastGap(s.gaps, f.End(), i);
            var stored := Stored(s, i, j, Piece(s.gaps, f, i));
            InsertAt(s, f, i) == if MAX_GAPS < |stored.gaps|
                                 then (stored.(queued := Uncover(s.queued, s.gaps, i, j)), TooManyGaps)
                                 else (stored, Ok)
  {
    PieceBounds(s.gaps, f, i);
  }

  /** Where a frame that starts at no gap's end is stored. */
  lemma InsertStored(s: Sorter, f: StreamFrame) returns (i: nat, j: nat, piece: StreamFrame)
    requires WellFormed(s.gaps) && 0 < |f.data| && f.End() < MAX_BYTE_COUNT && Insert(s, f).1 == Ok
    requires forall k :: 0 <= k < |s.gaps| ==> f.offset != s.gaps[k].end
    ensures Spot(s.gaps, f.offset, f.End(), i, j, piece.offset, piece.End()) && piece.fin == f.fin
    ensures Insert(s, f).0 == Stored(s, i, j, piece)
  {
    InsertSpot(s.gaps, f.offset, f.End());
    FirstGapReaches(s.gaps, f.offset, f.End());
    i := FirstGap(s.gaps, f.offset, f.End(), 0).index;
    j := LastGap(s.gaps, f.End(), i);
    piece := Piece(s.gaps, f, i);
    PieceBounds(s.gaps, f, i);
    InsertAtShape(s, f, i);
    hide Reaches, FirstGap, LastGap, InsertAt, Stored;
  }

  lemma StoredFills(s: Sorter, start: nat, end: nat, i: nat, j: nat, piece: StreamFrame)
    requires WellFormed(s.gaps)
    requires Spot(s.gaps, start, end, i, j, piece.offset, piece.End())
    ensures Fills(s, Stored(s, i, j, piece), start, end)
    ensures !Arrived(s.gaps, start, end)
  {
    forall x: nat
      ensures Missing(Stored(s, i, j, piece).gaps, x) <==> Missing(s.gaps, x) && !(start <= x < end)
    {
      FillMissing(s.gaps, start, end, i, j, piece.offset, piece.End(), x);
    }
  }

  /** What inserting at gap i does. */
  lemma InsertAtCorrect(s: Sorter, f: StreamFrame, i: nat)
    requires WellFormed(s.gaps) && Linked(s) && FramesArrived(s)
    requires 0 < |f.data| && Reaches(s.gaps, f.offset, f.End(), i)
    requires var j := LastGap(s.gaps, f.End(), i);
             && j < |s.gaps|
             && Spot(s.gaps, f.offset, f.End(), i, j, Max(f.offset, s.gaps[i].start), Min(f.End(), s.gaps[j].end))
    ensures var (s', r) := InsertAt(s, f, i);
            && r in {Ok, TooManyGaps}
            && (r == Ok ==> Valid(s'))
            && (r == TooManyGaps ==> MAX_GAPS < |s'.gaps|)
            && Fills(s, s', f.offset, f.End())
            && !Arrived(s.gaps, f.offset, f.End())
  {
    var j, piece := LastGap(s.gaps, f.End(), i), Piece(s.gaps, f, i);
    PieceBounds(s.gaps, f, i);
    InsertAtShape(s, f, i);
    StoredFills(s, f.offset, f.End(), i, j, piece);
    if |Stored(s, i, j, piece).gaps| <= MAX_GAPS {
      StoredValid(s, f.offset, f.End(), i, j, piece);
    }
  }

  /** What inserting does to a frame that starts at no gap's end. */
  lemma InsertCorrect(s: Sorter, f: StreamFrame)
    requires WellFormed(s.gaps) && Linked(s) && FramesArrived(s)
    requires 0 < |f.data| && f.End() < MAX_BYTE_COUNT
    requires forall k :: 0 <= k < |s.gaps| ==> f.offset != s.gaps[k].end
    ensures var (s', r) := Insert(s, f);
            && r in {Duplicate, Ok, TooManyGaps}
            && (r == Duplicate <==> Arrived(s.gaps, f.offset, f.End()))
            && (r == Duplicate ==> s' == s)
            && (r == Ok ==> Valid(s'))
            && (r == TooManyGaps ==> MAX_GAPS < |s'.gaps|)
            && (r != Duplicate ==> Fills(s, s', f.offset, f.End()))
  {
    InsertSpot(s.gaps, f.offset, f.End());
    FirstGapReaches(s.gaps, f.offset, f.End());
    var r := FirstGap(s.gaps, f.offset, f.End(), 0);
    if r.Found? {
      InsertAtCorrect(s, f, r.index);
    }
  }

  /** A frame that ends at the largest byte count runs past the last gap. */
  lemma InsertAtTheTop(s: Sorter, f: StreamFrame)
    requires WellFormed(s.gaps)
    requires 0 < |f.data| && f.End() == MAX_BYTE_COUNT
    ensures Insert(s, f).1 == BugNoEndGap
    ensures !Arrived(s.gaps, f.offset, f.End())
  {
    FirstGapFacts(s.gaps, f.offset, f.End(), 0);
    var top := s.gaps[|s.gaps| - 1];
    assert top.start < f.End() && f.offset < top.end;
    LastGapFacts(s.gaps, f.End(), FirstGap(s.gaps, f.offset, f.End(), 0).index);
  }

  /** The bytes cut off at line 46 have arrived. */
  lemma RemainderArrived(s: Sorter, f: StreamFrame)
    requires WellFormed(s.gaps) && FramesArrived(s)
    requires f.offset in s.queued && 0 < |s.queued[f.offset].data| < |f.data|
    ensures var g := Remainder(s, f);
            && g.End() == f.End() && 0 < |g.data|
            && Arrived(s.gaps, f.offset, g.offset)
            && (Arrived(s.gaps, f.offset, f.End()) <==> Arrived(s.gaps, g.offset, g.End()))
            && (forall x: nat :: f.offset <= x < g.offset ==> !Missing(s.gaps, x))
  {
    var g := Remainder(s, f);
    assert Arrived(s.gaps, f.offset, g.offset);
  }

  /** Push is the insertion of a set of bytes: it refuses exactly what has arrived already, and otherwise
      removes exactly the frame's bytes from what is missing. The second BUG error needs a frame that ends
      at the largest byte count; the first one cannot be returned. */
  lemma PushCorrect(s: Sorter, f: StreamFrame)
    requires Valid(s)
    requires f.End() <= MAX_BYTE_COUNT
    ensures var (s', r) := Push(s, f);
            && r != BugNoGap
            && (r == EmptyData <==> |f.data| == 0 && !f.fin)
            && (r == BugNoEndGap <==> 0 < |f.data| && f.End() == MAX_BYTE_COUNT)
            && (r == Duplicate <==> 0 < |f.data| && Arrived(s.gaps, f.offset, f.End()))
            && (r in {EmptyData, Duplicate} ==> s' == s)
            && (r in {Ok, TooManyGaps} && 0 < |f.data| ==> Fills(s, s', f.offset, f.End()))
            && (r == Ok && 0 < |f.data| ==> Valid(s'))
            && (r == TooManyGaps ==> MAX_GAPS < |s'.gaps|)
  {
    if 0 < |f.data| && (f.offset in s.queued ==> |s.queued[f.offset].data| < |f.data|) {
      var g := Remainder(s, f);
      if f.offset in s.queued && 0 < |s.queued[f.offset].data| {
        RemainderArrived(s, f);
      } else {
        assert g == f;
      }
      assert Push(s, f) == Insert(s, g);
      if f.End() == MAX_BYTE_COUNT {
        InsertAtTheTop(s, g);
      } else {
        LinkedAnchored(s);
        forall k | 0 <= k < |s.gaps|
          ensures g.offset != s.gaps[k].end
        {
          StartsOffGapEnd(s, f, k);
        }
        InsertCorrect(s, g);
      }
    }
  }

  /** Of one byte: a frame that was pushed without an error is not missing any more, and nothing else changed. */
  lemma PushFillsByte(s: Sorter, f: StreamFrame, x: nat)
    requires Valid(s) && f.End() <= MAX_BYTE_COUNT && Push(s, f).1 in {Ok, Duplicate}
    ensures Missing(Push(s, f).0.gaps, x) <==> Missing(s.gaps, x) && !(f.offset <= x < f.End())
  {
    PushCorrect(s, f);
    if Push(s, f).1 == Duplicate {
      ArrivedMeansNothingMissing(s.gaps, f.offset, f.End());
    } else if |f.data| == 0 {
    } else {
      assert Fills(s, Push(s, f).0, f.offset, f.End());
    }
    hide Push, Missing;
  }

  // ---- Frames without data ----

  /** Following the frames from a to b passes a frame that starts at o. */
  predicate Passes(queued: map<nat, StreamFrame>, a: nat, b: nat, o: nat)
    decreases b - a
  {
    a < b && a in queued && 0 < |queued[a].data| && (a == o || Passes(queued, a + |queued[a].data|, b, o))
  }

  /** The frame queued at o is needed to reach some arrived byte. */
  predicate Live(s: Sorter, o: nat) {
    exists i {:trigger SegmentStart(s, i)} ::
      0 <= i < |s.gaps| && Passes(s.queued, SegmentStart(s, i), s.gaps[i].start, o)
  }

  lemma {:induction false} OverwriteChain(queued: map<nat, StreamFrame>, a: nat, b: nat, f: StreamFrame)
    requires Chain(queued, a, b) && |f.data| == 0
    ensures Chain(queued[f.offset := f], a, b) <==> !Passes(queued, a, b, f.offset)
    decreases b - a
  {
    if a < b {
      OverwriteChain(queued, a + |queued[a].data|, b, f);
    }
  }

  /** A frame with FIN and no data replaces whatever was queued at its offset. That keeps the invariant
      exactly when the replaced frame was not needed to reach arrived data. */
  lemma PushEmptyFin(s: Sorter, f: StreamFrame)
    requires Valid(s)
    requires |f.data| == 0 && f.fin
    ensures Valid(Push(s, f).0) <==> !Live(s, f.offset)
  {
    var s' := Push(s, f).0;
    forall i {:trigger SegmentStart(s', i)} | 0 <= i < |s.gaps|
      ensures Chain(s'.queued, SegmentStart(s', i), s.gaps[i].start)
              <==> !Passes(s.queued, SegmentStart(s, i), s.gaps[i].start, f.offset)
    {
      assert SegmentStart(s', i) == SegmentStart(s, i);
      OverwriteChain(s.queued, SegmentStart(s, i), s.gaps[i].start, f);
    }
    if Live(s, f.offset) {
      var i :| 0 <= i < |s.gaps| && Passes(s.queued, SegmentStart(s, i), s.gaps[i].start, f.offset);
      assert !Chain(s'.queued, SegmentStart(s', i), s'.gaps[i].start);
    }
  }

  /** The byte 7 was received and not yet read. */
  const ONE_BYTE: Sorter := Sorter(map[0 := StreamFrame(5, false, true, 0, [7])], 0, [Interval(1, MAX_BYTE_COUNT)])

  const EMPTY_FIN: StreamFrame := StreamFrame(5, true, true, 0, [])

  /** The input that shows it: the byte counts as received and can never be read. */
  lemma EmptyFinReplaces()
    ensures Valid(ONE_BYTE) && Live(ONE_BYTE, 0)
    ensures var (s, r) := Push(ONE_BYTE, EMPTY_FIN);
            r == Ok && !Valid(s) && !Missing(s.gaps, 0) && Head(s) == Some(EMPTY_FIN) && Drain(s).1 == []
  {
    var s := ONE_BYTE;
    assert SegmentStart(s, 0) == 0 && Chain(s.queued, 1, 1) && Chain(s.queued, 0, 1);
    assert Passes(s.queued, SegmentStart(s, 0), s.gaps[0].start, 0);
    PushEmptyFin(s, EMPTY_FIN);
    var s' := Push(s, EMPTY_FIN).0;
    assert s'.queued - {0} == map[];
  }

  lemma {:induction false} PassedFrame(queued: map<nat, StreamFrame>, a: nat, b: nat, o: nat)
    requires Passes(queued, a, b, o)
    ensures o in queued && 0 < |queued[o].data|
    decreases b - a
  {
    if a != o {
      PassedFrame(queued, a + |queued[a].data|, b, o);
    }
  }

  /** A data frame is what is lost when an empty FIN breaks the invariant. */
  lemma LiveFrame(s: Sorter, o: nat)
    requires Live(s, o)
    ensures o in s.queued && 0 < |s.queued[o].data|
  {
    var i :| 0 <= i < |s.gaps| && Passes(s.queued, SegmentStart(s, i), s.gaps[i].start, o);
    PassedFrame(s.queued, SegmentStart(s, i), s.gaps[i].start, o);
  }

  // ---- Content ----

  /** Every queued frame carries bytes of the given stream. */
  ghost predicate Faithful(stream: seq<Byte>, queued: map<nat, StreamFrame>) {
    forall o :: o in queued ==> Carries(stream, queued[o])
  }

  lemma PieceCarries(stream: seq<Byte>, f: StreamFrame, a: nat, b: nat)
    requires Carries(stream, f) && f.offset <= a <= b <= f.End()
    ensures Carries(stream, f.DropFront(a - f.offset).TakeFront(b - a))
  {
  }

  lemma UncoverFaithful(stream: seq<Byte>, queued: map<nat, StreamFrame>, gaps: seq<Interval>, i: nat, j: nat)
    requires Faithful(stream, queued) && i <= j <= |gaps|
    ensures Faithful(stream, Uncover(queued, gaps, i, j))
  {
  }

  lemma InsertAtFaithful(stream: seq<Byte>, s: Sorter, f: StreamFrame, i: nat)
    requires 0 < |f.data| && Reaches(s.gaps, f.offset, f.End(), i)
    requires Faithful(stream, s.queued) && Carries(stream, f)
    ensures Faithful(stream, InsertAt(s, f, i).0.queued)
  {
    var j := LastGap(s.gaps, f.End(), i);
    if j < |s.gaps| {
      InsertAtShape(s, f, i);
      PieceBounds(s.gaps, f, i);
      PieceCarries(stream, f, Max(f.offset, s.gaps[i].start), Min(f.End(), s.gaps[j].end));
      UncoverFaithful(stream, s.queued, s.gaps, i, j);
    } else {
      UncoverFaithful(stream, s.queued, s.gaps, i, |s.gaps| - 1);
    }
  }

  lemma InsertFaithful(stream: seq<Byte>, s: Sorter, f: StreamFrame)
    requires WellFormed(s.gaps) && 0 < |f.data|
    requires Faithful(stream, s.queued) && Carries(stream, f)
    ensures Faithful(stream, Insert(s, f).0.queued)
  {
    FirstGapReaches(s.gaps, f.offset, f.End());
    var r := FirstGap(s.gaps, f.offset, f.End(), 0);
    if r.Found? {
      InsertAtFaithful(stream, s, f, r.index);
    }
  }

  /** However a frame is cut, what is queued are bytes of the stream at their own offsets. */
  lemma PushFaithful(stream: seq<Byte>, s: Sorter, f: StreamFrame)
    requires WellFormed(s.gaps)
    requires Faithful(stream, s.queued) && Carries(stream, f)
    ensures Faithful(stream, Push(s, f).0.queued)
  {
    if 0 < |f.data| {
      if f.offset !in s.queued {
        InsertFaithful(stream, s, f);
      } else if |s.queued[f.offset].data| < |f.data| {
        PieceCarries(stream, f, f.offset + |s.queued[f.offset].data|, f.End());
        assert f.DropFront(|s.queued[f.offset].data|).TakeFront(f.End() - f.offset - |s.queued[f.offset].data|)
               == f.DropFront(|s.queued[f.offset].data|);
        InsertFaithful(stream, s, f.DropFront(|s.queued[f.offset].data|));
      }
    }
  }

  // ---- Reading ----

  function Head(s: Sorter): Option<StreamFrame> {
    if s.readPosition in s.queued then Some(s.queued[s.readPosition]) else None
  }

  function Pop(s: Sorter): (Sorter, Option<StreamFrame>) {
    match Head(s)
    case None => (s, None)
    case Some(f) => (s.(readPosition := s.readPosition + |f.data|, queued := s.queued - {f.offset}), Some(f))
  }

  /** No arrived byte is stranded: if the next byte has arrived, then a frame that starts there is queued and
      does not reach beyond the first gap. */
  lemma NextByteQueued(s: Sorter)
    requires Valid(s)
    ensures s.readPosition <= s.gaps[0].start
    ensures Missing(s.gaps, s.readPosition) <==> s.readPosition == s.gaps[0].start
    ensures s.readPosition < s.gaps[0].start ==>
              && Head(s).Some? && Head(s).value.offset == s.readPosition
              && 0 < |Head(s).value.data| && Head(s).value.End() <= s.gaps[0].start
  {
    assert Chain(s.queued, SegmentStart(s, 0), s.gaps[0].start);
    ChainOrder(s.queued, s.readPosition, s.gaps[0].start);
    if s.readPosition < s.gaps[0].start {
      ChainOrder(s.queued, s.readPosition + |s.queued[s.readPosition].data|, s.gaps[0].start);
    }
  }

  lemma PopValid(s: Sorter)
    requires Valid(s)
    ensures Valid(Pop(s).0)
  {
    var (s', f) := Pop(s);
    if f.Some? {
      NextByteQueued(s);
      forall i {:trigger SegmentStart(s', i)} | 0 <= i < |s.gaps|
        ensures Chain(s'.queued, SegmentStart(s', i), s.gaps[i].start)
      {
        assert Chain(s.queued, SegmentStart(s, i), s.gaps[i].start);
        if i == 0 && s.readPosition == s.gaps[0].start {
          HeadAtGap(s);
        } else {
          ChainFrame(s.queued, s'.queued, SegmentStart(s', i), s.gaps[i].start);
        }
      }
    }
  }

  /** A frame queued at the first gap carries no data. */
  lemma HeadAtGap(s: Sorter)
    requires Valid(s) && s.readPosition == s.gaps[0].start
    ensures Head(s).Some? ==> |Head(s).value.data| == 0
  {
  }

  /** Pop until nothing is left at the read position. */
  function Drain(s: Sorter): (r: (Sorter, seq<Byte>))
    decreases |s.queued|
  {
    if s.readPosition !in s.queued then (s, [])
    else
      var f := s.queued[s.readPosition];
      var s' := s.(readPosition := s.readPosition + |f.data|, queued := s.queued - {s.readPosition});
      assert s'.queued.Keys == s.queued.Keys - {s.readPosition};
      var (done, rest) := Drain(s');
      (done, f.data + rest)
  }

  /** Pop on the queue, and what it leaves to Drain. */
  lemma DrainUnfold(s: Sorter)
    requires s.readPosition in s.queued && s.queued[s.readPosition].offset == s.readPosition
    ensures var s', f := Pop(s).0, s.queued[s.readPosition];
            && s' == s.(readPosition := s.readPosition + |f.data|, queued := s.queued - {s.readPosition})
            && |s'.queued| < |s.queued|
            && Drain(s) == (Drain(s').0, f.data + Drain(s').1)
  {
    assert (s.queued - {s.readPosition}).Keys == s.queued.Keys - {s.readPosition};
  }

  lemma FrameOffset(s: Sorter, o: nat)
    requires Valid(s) && o in s.queued
    ensures s.queued[o].offset == o && |s.gaps| > 0
  {
  }

  /** One step of Drain. */
  lemma DrainStep(s: Sorter)
    requires Valid(s) && s.readPosition in s.queued
    ensures var s' := Pop(s).0;
            && Valid(s') && |s'.queued| < |s.queued| && s'.gaps == s.gaps
            && s'.readPosition == s.readPosition + |s.queued[s.readPosition].data| <= s.gaps[0].start
            && s'.queued == s.queued - {s.readPosition}
            && Drain(s) == (Drain(s').0, s.queued[s.readPosition].data + Drain(s').1)
  {
    hide Valid, Drain, Pop;
    FrameOffset(s, s.readPosition);
    DrainUnfold(s);
    PopValid(s);
    NextByteQueued(Pop(s).0);
  }

  /** Repeated Pop stops exactly at the first gap. */
  lemma {:induction false} DrainStops(s: Sorter)
    requires Valid(s)
    ensures var (done, data) := Drain(s);
            && done.readPosition == s.gaps[0].start && done.gaps == s.gaps
            && Head(done).None?
            && s.readPosition + |data| == s.gaps[0].start
    decreases |s.queued|
  {
    if s.readPosition in s.queued {
      DrainStep(s);
      DrainStops(Pop(s).0);
    } else {
      NextByteQueued(s);
    }
  }

  /** Linked data is data of the stream. */
  lemma {:induction false} ChainWithin(stream: seq<Byte>, queued: map<nat, StreamFrame>, a: nat, b: nat)
    requires Faithful(stream, queued) && Chain(queued, a, b) && a < b
    requires forall o :: o in queued ==> queued[o].offset == o
    ensures b <= |stream|
    decreases b - a
  {
    var next := a + |queued[a].data|;
    assert Carries(stream, queued[a]);
    if next < b {
      ChainWithin(stream, queued, next, b);
    }
  }

  /** Bytes up to the first gap have arrived, so they are bytes of the stream. */
  lemma ArrivedWithin(stream: seq<Byte>, s: Sorter)
    requires Valid(s) && Faithful(stream, s.queued)
    ensures s.readPosition <= s.gaps[0].start
    ensures s.readPosition < s.gaps[0].start ==> s.gaps[0].start <= |stream|
  {
    NextByteQueued(s);
    assert Chain(s.queued, SegmentStart(s, 0), s.gaps[0].start);
    if s.readPosition < s.gaps[0].start {
      ChainWithin(stream, s.queued, s.readPosition, s.gaps[0].start);
    }
  }

  /** Repeated Pop hands out exactly the bytes of the stream up to the first gap. */
  lemma {:induction false} DrainReachesGap(stream: seq<Byte>, s: Sorter)
    requires Valid(s) && Faithful(stream, s.queued)
    ensures s.readPosition <= s.gaps[0].start
    ensures s.readPosition == s.gaps[0].start ==> Drain(s).1 == []
    ensures s.readPosition < s.gaps[0].start ==>
              s.gaps[0].start <= |stream| && Drain(s).1 == stream[s.readPosition..s.gaps[0].start]
    decreases |s.queued|
  {
    assert |s.gaps| > 0;
    hide Drain, Valid, Pop, Faithful, WellFormed;
    ArrivedWithin(stream, s);
    if s.readPosition < s.gaps[0].start {
      NextByteQueued(s);
      HeadCarries(stream, s);
      DrainStep(s);
      PopFaithful(stream, s);
      DrainReachesGap(stream, Pop(s).0);
      var f := s.queued[s.readPosition];
      JoinRest(stream, s.readPosition, f.End(), s.gaps[0].start, f.data, Drain(Pop(s).0).1);
    } else {
      DrainStops(s);
    }
  }

  lemma HeadCarries(stream: seq<Byte>, s: Sorter)
    requires Valid(s) && Faithful(stream, s.queued) && s.readPosition in s.queued
    ensures var f := s.queued[s.readPosition];
            f.offset == s.readPosition && f.End() <= |stream| && f.data == stream[s.readPosition..f.End()]
  {
    assert Carries(stream, s.queued[s.readPosition]);
  }

  /** The bytes from a to b, followed by the rest up to c. */
  lemma JoinRest(stream: seq<Byte>, a: nat, b: nat, c: nat, data: seq<Byte>, rest: seq<Byte>)
    requires a <= b <= c <= |stream| && data == stream[a..b]
    requires if b == c then rest == [] else rest == stream[b..c]
    ensures data + rest == stream[a..c]
  {
    SliceJoin(stream, a, b, c);
  }

  lemma PopFaithful(stream: seq<Byte>, s: Sorter)
    requires Faithful(stream, s.queued)
    ensures Faithful(stream, Pop(s).0.queued)
  {
  }
}

/** Which frames the sorter still holds after a Push (pstream/stream_frame_sorter.go, lines 78 to 94). */
module CoveredFrames {

  import opened Wire
  import opened ByteGaps
  import opened FrameSorterSpec

  /** A frame queued at o is dropped: the new frame brings the missing byte in front of it and a missing byte behind. */
  predicate Dropped(gaps: seq<Interval>, start: nat, end: nat, o: nat) {
    start < o < end && Missing(gaps, o - 1) && !Missing(gaps, o) && exists x :: o < x < end && Missing(gaps, x)
  }

  predicate FirstMissing(gaps: seq<Interval>, start: nat, end: nat, a: nat) {
    start <= a < end && Missing(gaps, a) && forall x :: start <= x < a ==> !Missing(gaps, x)
  }

  /** The frame [start, end) reaches gaps i to j. */
  predicate Spans(gaps: seq<Interval>, start: nat, end: nat, i: nat, j: nat) {
    && WellFormed(gaps) && i <= j < |gaps| && start < gaps[i].end && gaps[j].start < end
    && (forall k :: 0 <= k < i ==> gaps[k].end < start)
    && (forall k :: j < k < |gaps| ==> end <= gaps[k].start)
  }

  lemma PassedDrops(gaps: seq<Interval>, start: nat, end: nat, i: nat, j: nat, k: nat)
    requires Spans(gaps, start, end, i, j) && i <= k < j
    ensures Dropped(gaps, start, end, gaps[k].end)
  {
    var o := gaps[k].end;
    assert gaps[k].start <= o - 1 < gaps[k].end;
    assert Missing(gaps, o - 1);
    assert Missing(gaps, gaps[j].start);
  }

  lemma DropsPassed(gaps: seq<Interval>, start: nat, end: nat, i: nat, j: nat, o: nat) returns (k: nat)
    requires Spans(gaps, start, end, i, j) && Dropped(gaps, start, end, o)
    ensures i <= k < j && gaps[k].end == o
  {
    k :| 0 <= k < |gaps| && gaps[k].start <= o - 1 < gaps[k].end;
    assert o < gaps[k].end ==> Missing(gaps, o);
    var x :| o < x < end && Missing(gaps, x);
    var l :| 0 <= l < |gaps| && gaps[l].start <= x < gaps[l].end;
    hide Missing;
  }

  /** The gaps that the loop passes end exactly where frames are dropped. */
  lemma PassedGaps(gaps: seq<Interval>, start: nat, end: nat, i: nat, j: nat, o: nat)
    requires Spans(gaps, start, end, i, j)
    ensures (exists k :: i <= k < j && gaps[k].end == o) <==> Dropped(gaps, start, end, o)
  {
    hide Dropped, WellFormed;
    if k :| i <= k < j && gaps[k].end == o {
      PassedDrops(gaps, start, end, i, j, k);
    }
    if Dropped(gaps, start, end, o) {
      var k := DropsPassed(gaps, start, end, i, j, o);
    }
  }

  lemma SpotSpans(gaps: seq<Interval>, start: nat, end: nat, i: nat, j: nat, a: nat, b: nat)
    requires WellFormed(gaps) && Spot(gaps, start, end, i, j, a, b)
    ensures Spans(gaps, start, end, i, j) && FirstMissing(gaps, start, end, a)
  {
    assert Missing(gaps, a);
  }

  /** A first missing byte is the only one. */
  lemma FirstOnly(gaps: seq<Interval>, start: nat, end: nat, a: nat, b: nat)
    requires FirstMissing(gaps, start, end, a) && FirstMissing(gaps, start, end, b)
    ensures a == b
  {
  }

  /** What is queued at o afterwards: the new frame at its first missing byte, and what was queued there before unless
      it is dropped. */
  ghost predicate KeepsExactly(s: Sorter, s': Sorter, start: nat, end: nat, o: nat) {
    && (o in s'.queued <==>
          FirstMissing(s.gaps, start, end, o) || (o in s.queued && !Dropped(s.gaps, start, end, o)))
    && (o in s'.queued && !FirstMissing(s.gaps, start, end, o) ==> s'.queued[o] == s.queued[o])
  }

  /** Where a frame that starts at no gap's end is stored. */
  lemma InsertIs(s: Sorter, f: StreamFrame) returns (i: nat, j: nat, piece: StreamFrame)
    requires Valid(s) && 0 < |f.data| && f.End() < MAX_BYTE_COUNT && Insert(s, f).1 == Ok
    requires forall k :: 0 <= k < |s.gaps| ==> f.offset != s.gaps[k].end
    ensures Spans(s.gaps, f.offset, f.End(), i, j) && FirstMissing(s.gaps, f.offset, f.End(), piece.offset)
    ensures Insert(s, f).0 == Stored(s, i, j, piece)
  {
    hide Insert, Stored, Linked, FramesArrived;
    i, j, piece := InsertStored(s, f);
    SpotSpans(s.gaps, f.offset, f.End(), i, j, piece.offset, piece.End());
  }

  lemma StoredKeeps(s: Sorter, start: nat, end: nat, i: nat, j: nat, piece: StreamFrame, o: nat)
    requires Spans(s.gaps, start, end, i, j) && FirstMissing(s.gaps, start, end, piece.offset)
    ensures KeepsExactly(s, Stored(s, i, j, piece), start, end, o)
  {
    PassedGaps(s.gaps, start, end, i, j, o);
    if FirstMissing(s.gaps, start, end, o) {
      FirstOnly(s.gaps, start, end, piece.offset, o);
    }
    hide Dropped, FirstMissing, WellFormed, Fill;
  }

  /** In terms of the frame that was pushed, of which bytes that have arrived may have been cut off. */
  lemma CutKeeps(s: Sorter, s': Sorter, start: nat, cut: nat, end: nat, o: nat)
    requires start <= cut <= end && (forall x: nat :: start <= x < cut ==> !Missing(s.gaps, x))
    requires KeepsExactly(s, s', cut, end, o)
    ensures KeepsExactly(s, s', start, end, o)
  {
    hide Missing;
    assert FirstMissing(s.gaps, cut, end, o) <==> FirstMissing(s.gaps, start, end, o);
    assert Dropped(s.gaps, cut, end, o) <==> Dropped(s.gaps, start, end, o);
  }

  /** After a frame with data was stored: it is queued at its first missing byte, and of the frames that were queued
      before exactly those are gone that lie between two missing bytes of it, right behind the first of these. */
  lemma QueueExactly(s: Sorter, f: StreamFrame, o: nat)
    requires Valid(s) && 0 < |f.data| && f.End() <= MAX_BYTE_COUNT && Push(s, f).1 == Ok
    ensures KeepsExactly(s, Push(s, f).0, f.offset, f.End(), o)
  {
    PushCorrect(s, f);
    var g := Remainder(s, f);
    LinkedAnchored(s);
    forall k | 0 <= k < |s.gaps|
      ensures g.offset != s.gaps[k].end
    {
      StartsOffGapEnd(s, f, k);
    }
    if f.offset in s.queued && 0 < |s.queued[f.offset].data| {
      RemainderArrived(s, f);
    } else {
      assert g == f;
    }
    assert Push(s, f) == Insert(s, g);
    hide Push, Insert, Valid, Anchored, Missing, WellFormed, KeepsExactly;
    var i, j, piece := InsertIs(s, g);
    StoredKeeps(s, g.offset, g.End(), i, j, piece, o);
    CutKeeps(s, Push(s, f).0, f.offset, g.offset, f.End(), o);
  }

  /** Bytes 1 and 2 arrived in two frames. */
  const TWO_FRAMES: Sorter := Sorter(
    map[1 := StreamFrame(5, false, true, 1, [1]), 2 := SECOND], 0, [Interval(0, 1), Interval(3, MAX_BYTE_COUNT)])

  const SECOND: StreamFrame := StreamFrame(5, false, true, 2, [2])

  const COVERING: StreamFrame := StreamFrame(5, false, true, 0, [0, 1, 2, 3])

  /** Of two frames that a new one covers, the second stays in the queue, where Pop does not find it. */
  lemma CoveredFrameStays()
    ensures Valid(TWO_FRAMES)
    ensures var (s, r) := Push(TWO_FRAMES, COVERING);
            r == Ok && 1 !in s.queued && 2 in s.queued && Pop(s).0.readPosition == 4 && !Live(s, 2)
  {
    TwoFramesValid();
    CoveringPushed();
    hide Push, Valid;
    var s := Push(TWO_FRAMES, COVERING).0;
    assert !Passes(s.queued, 4, 4, 2);
    assert !Passes(s.queued, SegmentStart(s, 0), s.gaps[0].start, 2);
  }

  lemma CoveringPushed()
    ensures var s := Sorter(map[0 := COVERING, 2 := SECOND], 0, [Interval(4, MAX_BYTE_COUNT)]);
            Push(TWO_FRAMES, COVERING) == (s, Ok)
  {
    hide InsertAt, FirstGap, LastGap, Reaches, Stored, Uncover;
    CoveringReaches();
    InsertAtShape(TWO_FRAMES, COVERING, 0);
    assert Piece(TWO_FRAMES.gaps, COVERING, 0) == COVERING;
    StoredCovering();
    hide Piece;
  }

  lemma CoveringReaches()
    ensures WellFormed(TWO_FRAMES.gaps) && Reaches(TWO_FRAMES.gaps, 0, 4, 0)
    ensures FirstGap(TWO_FRAMES.gaps, 0, 4, 0) == Found(0) && LastGap(TWO_FRAMES.gaps, 4, 0) == 1
  {
    assert LastGap(TWO_FRAMES.gaps, 4, 1) == 1;
  }

  lemma StoredCovering()
    ensures Stored(TWO_FRAMES, 0, 1, COVERING)
            == Sorter(map[0 := COVERING, 2 := SECOND], 0, [Interval(4, MAX_BYTE_COUNT)])
  {
    var s := TWO_FRAMES;
    var u := Uncover(s.queued, s.gaps, 0, 1);
    assert s.gaps[0].end == 1;
    assert 1 !in u && 2 in u && u[2] == SECOND;
    assert u == map[2 := SECOND];
    assert Fill(s.gaps, 0, 1, 0, 4) == [Interval(4, MAX_BYTE_COUNT)];
  }

  lemma TwoFramesValid()
    ensures Valid(TWO_FRAMES)
  {
    var s := TWO_FRAMES;
    assert Chain(s.queued, 3, 3) && Chain(s.queued, 2, 3) && Chain(s.queued, 1, 3);
    assert SegmentStart(s, 0) == 0 && SegmentStart(s, 1) == 1;
  }
}

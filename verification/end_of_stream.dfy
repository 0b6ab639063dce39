/** A frame with FIN that ends in the middle of data that has arrived. */
module EarlyEnds {

  import opened Wire
  import opened ByteGaps
  import opened FrameSorterSpec
  import opened StreamSpec

  /** Following the frames in front of gap n leads to o. */
  predicate Leads(s: Sorter, n: nat, o: nat) {
    n < |s.gaps| && SegmentStart(s, n) <= o < s.gaps[n].start && Chain(s.queued, SegmentStart(s, n), o)
  }

  /** A frame with FIN is queued at o and ends before the end of the stream, all of which has arrived from o on. */
  predicate Ends(s: Sorter, o: nat, end: nat) {
    && o in s.queued && s.queued[o].fin && 0 < |s.queued[o].data| && o + |s.queued[o].data| < end
    && Arrived(s.gaps, o, end)
  }

  /** Such a frame lies on the way of Read. */
  ghost predicate Trap(s: Sorter, end: nat) {
    exists n, o :: Leads(s, n, o) && Ends(s, o, end)
  }

  // ---- Storing a frame ----

  /** The gaps that a frame of the stream reaches lie in front of the trap. */
  lemma GapsInFront(s: Sorter, start: nat, to: nat, i: nat, j: nat, a: nat, b: nat, n: nat, o: nat, end: nat)
    requires WellFormed(s.gaps) && Spot(s.gaps, start, to, i, j, a, b) && to <= end
    requires n < |s.gaps| && SegmentStart(s, n) <= o < s.gaps[n].start && Arrived(s.gaps, o, end)
    ensures j < n && s.gaps[j].end <= o && s.gaps[j].end <= SegmentStart(s, n)
  {
    assert s.gaps[j].start < to;
  }

  /** Storing a piece in front of o leaves the frames between gap j and o alone. */
  lemma PrefixKept(s: Sorter, start: nat, to: nat, i: nat, j: nat, piece: StreamFrame, n: nat, o: nat)
    requires WellFormed(s.gaps) && Spot(s.gaps, start, to, i, j, piece.offset, piece.End())
    requires j < n && Leads(s, n, o)
    ensures Chain(StoredQueue(s, i, j, piece), SegmentStart(s, n), o)
  {
    var queued' := StoredQueue(s, i, j, piece);
    forall x | SegmentStart(s, n) <= x < o && x in s.queued
      ensures x in queued' && queued'[x] == s.queued[x]
    {
    }
    ChainFrame(s.queued, queued', SegmentStart(s, n), o);
  }

  /** Gap n of the old list, behind gap j, in the new one. */
  function Shifted(s: Sorter, i: nat, j: nat, piece: StreamFrame, n: nat): int
    requires i <= j < n < |s.gaps|
  {
    i + |LeftRest(s.gaps, i, piece.offset)| + |RightRest(s.gaps, j, piece.End())| + n - (j + 1)
  }

  lemma ShiftedGap(s: Sorter, start: nat, to: nat, i: nat, j: nat, piece: StreamFrame, n: nat)
    requires WellFormed(s.gaps) && Spot(s.gaps, start, to, i, j, piece.offset, piece.End()) && j < n < |s.gaps|
    ensures var m, s' := Shifted(s, i, j, piece, n), Stored(s, i, j, piece);
            && 0 <= m < |s'.gaps| && s'.gaps[m].start == s.gaps[n].start
            && StoredSegment(s, i, j, piece, m, SegmentStart(s', m), s'.gaps[m].start)
  {
    StoredBounds(s, i, j, piece, Shifted(s, i, j, piece, n));
  }

  /** The way to o, with the new piece at its front if that closed the last gap before o. */
  lemma WayKept(s: Sorter, start: nat, to: nat, i: nat, j: nat, piece: StreamFrame, n: nat, o: nat, from: nat)
    requires WellFormed(s.gaps) && Linked(s) && Spot(s.gaps, start, to, i, j, piece.offset, piece.End())
    requires j < n && Leads(s, n, o)
    requires StoredSegment(s, i, j, piece, Shifted(s, i, j, piece, n), from, s.gaps[n].start)
    ensures Chain(StoredQueue(s, i, j, piece), from, o)
  {
    PrefixKept(s, start, to, i, j, piece, n, o);
    if n == j + 1 && |RightRest(s.gaps, j, piece.End())| == 0 {
      assert Chain(s.queued, SegmentStart(s, i), s.gaps[i].start);
      PieceLinked(s, start, to, i, j, piece);
      ChainConcat(StoredQueue(s, i, j, piece), from, piece.End(), o);
    }
  }

  lemma StoredTrap(s: Sorter, start: nat, to: nat, i: nat, j: nat, piece: StreamFrame, n: nat, o: nat, end: nat)
    requires Valid(s) && Spot(s.gaps, start, to, i, j, piece.offset, piece.End()) && to <= end
    requires Leads(s, n, o) && Ends(s, o, end)
    ensures Trap(Stored(s, i, j, piece), end)
  {
    GapsInFront(s, start, to, i, j, piece.offset, piece.End(), n, o, end);
    ShiftedGap(s, start, to, i, j, piece, n);
    var m, s' := Shifted(s, i, j, piece, n), Stored(s, i, j, piece);
    WayKept(s, start, to, i, j, piece, n, o, SegmentStart(s', m));
    ChainOrder(s'.queued, SegmentStart(s', m), o);
    EndsKept(s, start, to, i, j, piece, o, end);
    hide Chain, StoredQueue, Arrived, Spot, StoredSegment, Valid, Fill;
    assert Leads(s', m, o);
  }

  lemma EndsKept(s: Sorter, start: nat, to: nat, i: nat, j: nat, piece: StreamFrame, o: nat, end: nat)
    requires WellFormed(s.gaps) && Spot(s.gaps, start, to, i, j, piece.offset, piece.End())
    requires s.gaps[j].end <= o && Ends(s, o, end)
    ensures Ends(Stored(s, i, j, piece), o, end)
  {
    FillArrived(s.gaps, start, to, i, j, piece.offset, piece.End(), o, end);
    hide Arrived, Fill;
  }

  /** A new piece whose tail was cut is a trap itself. */
  lemma CutTrap(s: Sorter, start: nat, to: nat, i: nat, j: nat, piece: StreamFrame)
    requires Valid(s) && Spot(s.gaps, start, to, i, j, piece.offset, piece.End())
    requires piece.fin && piece.End() < to
    ensures Trap(Stored(s, i, j, piece), to)
  {
    var s', m := Stored(s, i, j, piece), i + |LeftRest(s.gaps, i, piece.offset)|;
    StoredBounds(s, i, j, piece, m);
    assert Chain(s.queued, SegmentStart(s, i), s.gaps[i].start);
    if s.gaps[i].start == piece.offset {
      SegmentKept(s, start, to, i, j, piece, i);
      ChainOrder(s'.queued, SegmentStart(s', m), piece.offset);
    }
    assert Leads(s', m, piece.offset);
    FillArrived(s.gaps, start, to, i, j, piece.offset, piece.End(), piece.offset, to);
    assert Ends(s', piece.offset, to);
  }

  lemma InsertTrap(s: Sorter, f: StreamFrame, end: nat)
    requires Valid(s) && 0 < |f.data| && f.End() < MAX_BYTE_COUNT && f.End() <= end
    requires forall k :: 0 <= k < |s.gaps| ==> f.offset != s.gaps[k].end
    requires Insert(s, f).1 == Ok
    ensures Trap(s, end) ==> Trap(Insert(s, f).0, end)
    ensures f.fin && f.End() == end && !Missing(s.gaps, end - 1) ==> Trap(Insert(s, f).0, end)
  {
    InsertSpot(s.gaps, f.offset, f.End());
    FirstGapReaches(s.gaps, f.offset, f.End());
    var i := FirstGap(s.gaps, f.offset, f.End(), 0).index;
    var j := LastGap(s.gaps, f.End(), i);
    PieceBounds(s.gaps, f, i);
    InsertAtShape(s, f, i);
    var piece := Piece(s.gaps, f, i);
    PieceEnd(s.gaps, f.offset, f.End(), i, j, piece.offset, piece.End());
    if Trap(s, end) {
      var n, o :| Leads(s, n, o) && Ends(s, o, end);
      StoredTrap(s, f.offset, f.End(), i, j, piece, n, o, end);
    }
    if f.fin && f.End() == end && !Missing(s.gaps, end - 1) {
      CutTrap(s, f.offset, f.End(), i, j, piece);
    }
  }

  /** Frames of the stream never disarm a trap, and a stored frame with FIN whose last byte had arrived sets one. */
  lemma PushTrap(s: Sorter, f: StreamFrame, end: nat)
    requires Valid(s) && 0 < |f.data| && f.End() < MAX_BYTE_COUNT && f.End() <= end && Push(s, f).1 == Ok
    ensures Trap(s, end) ==> Trap(Push(s, f).0, end)
    ensures f.fin && f.End() == end && !Missing(s.gaps, end - 1) ==> Trap(Push(s, f).0, end)
  {
    var g := Remainder(s, f);
    assert Push(s, f) == Insert(s, g);
    LinkedAnchored(s);
    forall k | 0 <= k < |s.gaps|
      ensures g.offset != s.gaps[k].end
    {
      StartsOffGapEnd(s, f, k);
    }
    hide Insert, Trap, Missing;
    InsertTrap(s, g, end);
  }

  /** An empty frame at the end of the stream does not disarm it either. */
  lemma PushEmptyTrap(s: Sorter, f: StreamFrame)
    requires WellFormed(s.gaps) && |f.data| == 0 && f.fin && Trap(s, f.offset)
    ensures Trap(Push(s, f).0, f.offset)
  {
    var n, o :| Leads(s, n, o) && Ends(s, o, f.offset);
    var s' := Push(s, f).0;
    ChainFrame(s.queued, s'.queued, SegmentStart(s, n), o);
    assert Leads(s', n, o) && Ends(s', o, f.offset);
  }

  // ---- Reading ----

  /** Popping a frame in front of the trap leaves it on the way. */
  lemma PopLeads(s: Sorter, n: nat, o: nat)
    requires Valid(s) && s.readPosition in s.queued && s.readPosition != o && Leads(s, n, o)
    ensures Leads(Pop(s).0, n, o)
    ensures s.readPosition + |s.queued[s.readPosition].data| <= o
  {
    var s' := Pop(s).0;
    NextByteQueued(s);
    if n == 0 {
      ChainOrder(s.queued, s'.readPosition, o);
      ChainFrame(s.queued, s'.queued, s'.readPosition, o);
    } else {
      HeadBeforeGap(s);
      assert s.gaps[0].start < s.gaps[0].end <= s.gaps[n - 1].end;
      ChainFrame(s.queued, s'.queued, SegmentStart(s, n), o);
    }
  }

  /** The frame at the read position does not reach beyond the first gap. */
  lemma HeadBeforeGap(s: Sorter)
    requires Valid(s) && s.readPosition in s.queued
    ensures s.readPosition + |s.queued[s.readPosition].data| <= s.gaps[0].start
  {
    NextByteQueued(s);
    if s.readPosition == s.gaps[0].start {
      HeadAtGap(s);
    }
  }

  /** Reading the first frame either keeps the trap or ends before the end of the stream. */
  lemma PopTrap(s: Sorter, end: nat)
    requires Valid(s) && s.readPosition in s.queued && Trap(s, end)
    ensures var f := s.queued[s.readPosition];
            && s.readPosition + |f.data| < end
            && (!f.fin ==> Trap(Pop(s).0, end))
  {
    var n, o :| Leads(s, n, o) && Ends(s, o, end);
    if o != s.readPosition {
      PopLeads(s, n, o);
      assert Ends(Pop(s).0, o, end);
    }
  }

  /** What a call of Read makes of a trap: it is still there, or Read reported the end of the stream too early. */
  ghost predicate Trapped(r': Reader, status: ReadStatus, end: nat) {
    if status == Eof then r'.readOffset < end else Trap(r'.sorter, end)
  }

  lemma {:induction false} ReadLoopTrapped(r: Reader, n: nat, end: nat)
    requires ReaderValid(r) && Trap(r.sorter, end)
    ensures Positioned(r)
    ensures var (r', _, status) := ReadLoop(r, n);
            Trapped(r', status, end)
    decreases n, |r.sorter.queued|
  {
    ReadLoopStops(r, n);
    if n != 0 && r.sorter.readPosition in r.sorter.queued {
      if r.readOffset + n < r.sorter.queued[r.sorter.readPosition].End() {
        ReadLoopEnds(r, n);
      } else {
        ReadRoundTrapped(r, n, end);
      }
    }
  }

  lemma {:induction false} ReadRoundTrapped(r: Reader, n: nat, end: nat)
    requires ReaderValid(r) && Trap(r.sorter, end) && n != 0 && r.sorter.readPosition in r.sorter.queued
    requires r.sorter.queued[r.sorter.readPosition].End() <= r.readOffset + n
    ensures Positioned(r)
    ensures var (r', _, status) := ReadLoop(r, n);
            Trapped(r', status, end)
    decreases n, |r.sorter.queued|, 0
  {
    hide ReadLoop, Trap;
    PopTrap(r.sorter, end);
    AfterFrameValid(r);
    var f := r.sorter.queued[r.sorter.readPosition];
    ReadLoopUnfold(r, n);
    if !f.fin {
      ReadLoopTrapped(AfterFrame(r), n - |f.data[r.readOffset - f.offset..]|, end);
    }
  }
}

/** What Read reports as the end of a stream (pstream/stream_frame_sorter.go, lines 96 to 102; pstream/stream.go,
    lines 230 to 238). */
module EndOfStream {

  import opened Wire
  import opened ByteGaps
  import opened FrameSorterSpec
  import opened StreamSpec
  import opened Delivery
  import opened EarlyEnds
  import Framer = FramerSpec

  /** FIN is queued only on frames that end where the stream ends, and only there was the end reported. */
  ghost predicate FinInv(sys: System) {
    && (forall o :: o in sys.reader.sorter.queued && sys.reader.sorter.queued[o].fin ==>
          sys.sender.finSent && sys.reader.sorter.queued[o].End() == |sys.taken|)
    && (sys.reader.finishedReading ==> sys.sender.finSent && sys.reader.readOffset == |sys.taken|)
  }

  /** A frame with FIN and data is taken while its last byte is missing, or when none of its bytes is missing. */
  ghost predicate FinSafe(sys: System, e: Event) {
    Takes(sys, e) && e.frame.fin && 0 < |e.frame.data| ==>
      var gaps, f := sys.reader.sorter.gaps, e.frame;
      Missing(gaps, f.End() - 1) || Arrived(gaps, f.offset, f.End())
  }

  /** Every step but the arrival of a frame keeps FIN in its place. */
  lemma OtherStepsFin(sys: System, e: Event)
    requires Inv(sys) && FinInv(sys) && !Takes(sys, e)
    ensures Ready(sys) && FinInv(Step(sys, e))
  {
    InvReady(sys);
    match e
    case SendFrame(maxBytes, window) =>
      if sys.sender.finSent {
        SilentAfterFin(sys.sender, maxBytes, window);
      }
    case AppReads(n) =>
      if !sys.broken && !sys.reader.finishedReading {
        ReadFinInv(sys, n);
      }
    case _ =>
  }

  lemma ReadFinInv(sys: System, n: nat)
    requires Inv(sys) && FinInv(sys) && Ready(sys) && !sys.broken && !sys.reader.finishedReading
    ensures FinInv(Step(sys, AppReads(n)))
  {
    hide ReadLoop;
    ReadLoopStops(sys.reader, n);
    ReadLoopEof(|sys.taken|, sys.reader, n);
    ReadLoopFin(sys.reader, n);
  }

  /** The same for the queue of the sorter, when an honest frame with data was stored. */
  lemma StoredFin(sys: System, f: StreamFrame)
    requires Valid(sys.reader.sorter) && FinInv(sys) && Honest(sys.taken, sys.sender.finSent, f)
    requires 0 < |f.data| && f.End() < MAX_BYTE_COUNT && Push(sys.reader.sorter, f).1 == Ok
    ensures var sys' := sys.(reader := sys.reader.(sorter := Push(sys.reader.sorter, f).0));
            FinInv(sys') <==> (f.fin ==> Missing(sys.reader.sorter.gaps, f.End() - 1))
  {
    var piece := PushFin(sys.reader.sorter, f);
    hide Push, Valid;
  }

  /** An honest empty frame carries FIN at the end of the stream. */
  lemma EmptyFin(sys: System, f: StreamFrame)
    requires FinInv(sys) && Honest(sys.taken, sys.sender.finSent, f) && |f.data| == 0
    requires WellFormed(sys.reader.sorter.gaps)
    ensures FinInv(Pushed(sys, f))
  {
  }

  lemma PushedFin(sys: System, f: StreamFrame)
    requires Valid(sys.reader.sorter) && FinInv(sys) && Honest(sys.taken, sys.sender.finSent, f)
    requires 0 < |f.data| && f.End() < MAX_BYTE_COUNT && Push(sys.reader.sorter, f).1 in {Ok, Duplicate}
    ensures var gaps := sys.reader.sorter.gaps;
            FinInv(Pushed(sys, f)) <==> (f.fin ==> Missing(gaps, f.End() - 1) || Arrived(gaps, f.offset, f.End()))
  {
    PushCorrect(sys.reader.sorter, f);
    if Push(sys.reader.sorter, f).1 == Ok {
      StoredFin(sys, f);
    }
    hide Push, FinInv, Valid, Missing, Arrived, Honest, Fills;
  }

  /** The exact condition for one step: the arrival of a frame keeps FIN in its place if and only if the frame is not
      one with FIN whose last byte is known already while another one is missing. */
  lemma ArriveFin(sys: System, e: Event)
    requires Inv(sys) && FinInv(sys) && Takes(sys, e)
    ensures Ready(sys) && (FinInv(Step(sys, e)) <==> FinSafe(sys, e))
  {
    InvReady(sys);
    var f := e.frame;
    assert Honest(sys.taken, sys.sender.finSent, f);
    StepArrives(sys, e);
    PushCorrect(sys.reader.sorter, f);
    if |f.data| == 0 {
      EmptyFin(sys, f);
    } else {
      PushedFin(sys, f);
    }
    hide Push, FinInv, Inv, Step, Missing, Arrived, Honest;
  }

  // ---- After a frame that is not safe ----

  /** Read has reported the end of the stream too early, or will when it gets there. */
  ghost predicate Doomed(sys: System) {
    && sys.sender.finSent
    && if sys.reader.finishedReading then sys.reader.readOffset < |sys.taken| else Trap(sys.reader.sorter, |sys.taken|)
  }

  /** After the end of the stream was reported in the right place, every frame is a duplicate. */
  lemma FinishedArrived(r: Reader, f: StreamFrame)
    requires ReaderValid(r) && f.End() <= r.readOffset
    ensures Arrived(r.sorter.gaps, f.offset, f.End())
  {
    NextByteQueued(r.sorter);
    if r.sorter.readPosition < r.readOffset {
      HeadBeforeGap(r.sorter);
    }
  }

  /** The first frame that is not safe sets the trap. */
  lemma UnsafeDooms(sys: System, e: Event)
    requires Inv(sys) && FinInv(sys) && !FinSafe(sys, e)
    ensures Ready(sys) && Doomed(Step(sys, e))
  {
    InvReady(sys);
    var f := e.frame;
    assert Honest(sys.taken, sys.sender.finSent, f);
    StepArrives(sys, e);
    PushCorrect(sys.reader.sorter, f);
    if sys.reader.finishedReading {
      FinishedArrived(sys.reader, f);
    }
    PushTrap(sys.reader.sorter, f, |sys.taken|);
    hide Push, FinInv, Inv, Step, Missing, Arrived, Trap;
  }

  /** Frames of the stream keep the trap. */
  lemma ArriveDoomed(sys: System, e: Event)
    requires Inv(sys) && Doomed(sys) && Takes(sys, e)
    ensures Ready(sys) && Doomed(Step(sys, e))
  {
    InvReady(sys);
    var f := e.frame;
    assert Honest(sys.taken, sys.sender.finSent, f);
    StepArrives(sys, e);
    PushCorrect(sys.reader.sorter, f);
    if !sys.reader.finishedReading {
      if |f.data| == 0 {
        PushEmptyTrap(sys.reader.sorter, f);
      } else if Push(sys.reader.sorter, f).1 == Ok {
        PushTrap(sys.reader.sorter, f, |sys.taken|);
      }
    }
    hide Push, Inv, Step, Missing, Arrived, Trap;
  }

  lemma ReadDoomed(sys: System, n: nat)
    requires Inv(sys) && Doomed(sys) && !sys.broken && !sys.reader.finishedReading
    ensures Ready(sys) && Doomed(Step(sys, AppReads(n)))
  {
    InvReady(sys);
    hide ReadLoop, Trap;
    ReadLoopStops(sys.reader, n);
    ReadLoopTrapped(sys.reader, n, |sys.taken|);
  }

  lemma OtherStepsDoomed(sys: System, e: Event)
    requires Inv(sys) && Doomed(sys) && !Takes(sys, e)
    ensures Ready(sys) && Doomed(Step(sys, e))
  {
    InvReady(sys);
    hide Trap;
    match e
    case SendFrame(maxBytes, window) => SilentAfterFin(sys.sender, maxBytes, window);
    case AppReads(n) =>
      if !sys.broken && !sys.reader.finishedReading {
        ReadDoomed(sys, n);
      }
    case _ =>
  }

  // ---- Whole runs ----

  /** In every state of the run, the next event is safe. */
  ghost predicate FinSafeRun(id: nat, events: seq<Event>) {
    forall k :: 0 <= k < |events| ==> FinSafe(Run(id, events[..k]), events[k])
  }

  lemma FinSafeNext(id: nat, events: seq<Event>)
    requires events != []
    ensures var n := |events| - 1;
            FinSafeRun(id, events) <==> FinSafeRun(id, events[..n]) && FinSafe(Run(id, events[..n]), events[n])
  {
    hide Run, FinSafe;
    var n := |events| - 1;
    assert forall k :: 0 <= k < n ==> events[..n][..k] == events[..k] && events[..n][k] == events[k];
    if FinSafeRun(id, events[..n]) && FinSafe(Run(id, events[..n]), events[n]) {
      forall k | 0 <= k < |events|
        ensures FinSafe(Run(id, events[..k]), events[k])
      {
        if k < n {
          assert FinSafe(Run(id, events[..n][..k]), events[..n][k]);
        }
      }
    }
  }

  /** One step from a state with FIN in its place, or from a doomed one. */
  lemma StepOutcome(sys: System, e: Event, safe: bool)
    requires Inv(sys) && if safe then FinInv(sys) else Doomed(sys)
    ensures Ready(sys) && if safe && FinSafe(sys, e) then FinInv(Step(sys, e)) else Doomed(Step(sys, e))
  {
    hide Inv, Step, FinInv, Doomed, Takes;
    if Takes(sys, e) {
      if !safe {
        ArriveDoomed(sys, e);
      } else if FinSafe(sys, e) {
        ArriveFin(sys, e);
      } else {
        UnsafeDooms(sys, e);
      }
    } else if safe {
      OtherStepsFin(sys, e);
    } else {
      OtherStepsDoomed(sys, e);
    }
  }

  lemma OutcomeAtStart(id: nat)
    ensures FinSafeRun(id, []) && FinInv(Run(id, []))
  {
  }

  lemma {:induction false} RunOutcome(id: nat, events: seq<Event>)
    ensures if FinSafeRun(id, events) then FinInv(Run(id, events)) else Doomed(Run(id, events))
    decreases |events|
  {
    hide Inv, Step, FinInv, Doomed, FinSafe, FinSafeRun;
    if events == [] {
      OutcomeAtStart(id);
    } else {
      var n := |events| - 1;
      RunOutcome(id, events[..n]);
      FinSafeNext(id, events);
      StepOutcome(Run(id, events[..n]), events[n], FinSafeRun(id, events[..n]));
    }
  }

  /** When Read reports the end of the stream, everything was delivered if and only if no frame with FIN was taken whose
      last byte was known already while another one was missing. */
  lemma EofExactly(id: nat, events: seq<Event>)
    requires Run(id, events).reader.finishedReading
    ensures Run(id, events).sender.finSent
    ensures Run(id, events).delivered == Run(id, events).taken <==> FinSafeRun(id, events)
  {
    RunOutcome(id, events);
    assert Inv(Run(id, events));
    hide Run, FinSafeRun, ReaderInv, SenderInv;
  }

  // ---- A run that ends early ----

  const WHOLE: StreamFrame := StreamFrame(5, true, true, 0, [10, 20, 30, 40])
  const FRONT: StreamFrame := StreamFrame(5, false, true, 0, [10, 20])
  const BACK: StreamFrame := StreamFrame(5, true, true, 2, [30, 40])

  /** A stream of four bytes is sent as one frame, declared lost, and retransmitted in two pieces. The second piece
      overtakes the delayed original, which is then cut to its first half and keeps its FIN. */
  const EARLY_END: seq<Event> := [
    AppWrites([10, 20, 30, 40]), AppCloses, SendFrame(100, 100), LoseFrame(WHOLE), Retransmit(6), Retransmit(100),
    Arrive(BACK), Arrive(WHOLE), AppReads(4)]

  /** The sending end and the network after the retransmissions. */
  const SENT: System := System(
    Sender(5, [], 4, true, true), WHOLE.data, {WHOLE, FRONT, BACK}, [], Reader(EMPTY, 0, false), [], false)

  const ONE_GAP: seq<Interval> := [Interval(4, MAX_BYTE_COUNT)]
  const TWO_GAPS: seq<Interval> := [Interval(0, 2), Interval(4, MAX_BYTE_COUNT)]

  /** After the second piece arrived. */
  const HALF: System := SENT.(reader := Reader(Sorter(map[2 := BACK], 0, TWO_GAPS), 0, false))

  /** After the original arrived. */
  const FULL: System := SENT.(reader := Reader(Sorter(map[2 := BACK, 0 := FRONT.(fin := true)], 0, ONE_GAP), 0, false))

  lemma EarlyEndSends(sys: System)
    requires sys == Step(Step(Start(5), AppWrites(WHOLE.data)), AppCloses)
    ensures Ready(sys) && Step(sys, SendFrame(100, 100)) == SENT.(wire := {WHOLE})
  {
  }

  lemma EarlyEndSplits()
    ensures Framer.Pop([WHOLE], Framer.AllStreams, 6, 0) == Framer.Popped([FRONT], [BACK], 6)
    ensures Framer.Pop([BACK], Framer.AllStreams, 100, 0) == Framer.Popped([BACK], [], 8)
  {
    assert WHOLE.data[..2] == [10, 20] && WHOLE.data[2..] == [30, 40];
    assert [BACK][1..] == [];
  }

  lemma EarlyEndResends()
    ensures Ready(SENT)
    ensures var lost := SENT.(wire := {WHOLE});
            Step(Step(Step(lost, LoseFrame(WHOLE)), Retransmit(6)), Retransmit(100)) == SENT
  {
    EarlyEndSplits();
    hide Framer.Pop;
    var lost := SENT.(wire := {WHOLE});
    assert Step(lost, LoseFrame(WHOLE)) == lost.(queue := [WHOLE]);
    assert Step(lost.(queue := [WHOLE]), Retransmit(6)) == SENT.(wire := {WHOLE, FRONT}, queue := [BACK]);
  }

  lemma EarlyEndSecondHalf()
    ensures Ready(SENT) && Step(SENT, Arrive(BACK)) == HALF
  {
    var g := EMPTY.gaps;
    assert FirstGap(g, 2, 4, 0) == Found(0) && LastGap(g, 4, 0) == 0;
    assert Fill(g, 0, 0, 2, 4) == TWO_GAPS;
    assert BACK.DropFront(0).TakeFront(2) == BACK;
    assert Insert(EMPTY, BACK) == (HALF.reader.sorter, Ok);
  }

  lemma EarlyEndOriginal()
    ensures Ready(HALF) && Step(HALF, Arrive(WHOLE)) == FULL
  {
    assert FirstGap(TWO_GAPS, 0, 4, 0) == Found(0) && LastGap(TWO_GAPS, 4, 0) == 0;
    assert Fill(TWO_GAPS, 0, 0, 0, 2) == ONE_GAP;
    assert WHOLE.DropFront(0).TakeFront(2) == FRONT.(fin := true);
    assert Uncover(HALF.reader.sorter.queued, TWO_GAPS, 0, 0) == HALF.reader.sorter.queued;
    assert Insert(HALF.reader.sorter, WHOLE) == (FULL.reader.sorter, Ok);
  }

  lemma EarlyEndReads()
    ensures Ready(FULL)
    ensures var sys := Step(FULL, AppReads(4));
            sys.reader.finishedReading && sys.delivered == [10, 20] && sys.taken == [10, 20, 30, 40]
  {
  }

  /** Read reports the end of the stream although half of it, which has arrived, was not delivered. */
  lemma EofCanBeEarly()
    ensures var sys := Run(5, EARLY_END);
            sys.reader.finishedReading && sys.delivered == [10, 20] && sys.taken == [10, 20, 30, 40]
  {
    hide Inv, Step, Ready;
    var e := EARLY_END;
    forall k | 0 <= k < 9
      ensures Ready(Run(5, e[..k])) && Run(5, e[..k + 1]) == Step(Run(5, e[..k]), e[k])
    {
      RunStep(5, e[..k], e[k]);
      assert e[..k] + [e[k]] == e[..k + 1];
    }
    assert e[..0] == [] && e[..9] == e;
    assert Run(5, e[..2]) == Step(Step(Start(5), e[0]), e[1]);
    EarlyEndSends(Run(5, e[..2]));
    assert Run(5, e[..3]) == SENT.(wire := {WHOLE});
    EarlyEndResends();
    assert Run(5, e[..6]) == SENT;
    EarlyEndSecondHalf();
    EarlyEndOriginal();
    assert Run(5, e[..8]) == FULL;
    EarlyEndReads();
  }
}

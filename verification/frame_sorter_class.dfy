/** streamFrameSorter (pstream/stream_frame_sorter.go) as the source writes it: loops over a list that is edited
    in place. Each method is proved equal to its function in FrameSorterSpec. */
module FrameSorter {

  import opened Wire
  import opened ByteGaps
  import Spec = FrameSorterSpec

  class StreamFrameSorter {
    var queuedFrames: map<nat, StreamFrame>
    var readPosition: nat
    var gaps: seq<Interval>

    ghost function View(): Spec.Sorter
      reads this
    {
      Spec.Sorter(queuedFrames, readPosition, gaps)
    }

    constructor ()
      ensures View() == Spec.EMPTY && Spec.Valid(View())
    {
      queuedFrames := map[];
      readPosition := 0;
      gaps := [Interval(0, MAX_BYTE_COUNT)];
      new;
      Spec.EmptyValid();
    }

    method Push(frame: StreamFrame) returns (r: Spec.PushResult)
      requires WellFormed(gaps)
      modifies this
      ensures (View(), r) == Spec.Push(old(View()), frame)
    {
      if frame.DataLen() == 0 {
        if frame.fin {
          queuedFrames := queuedFrames[frame.offset := frame];
          return Spec.Ok;
        }
        return Spec.EmptyData;
      }

      var f := frame;
      if f.offset in queuedFrames {
        var oldFrame := queuedFrames[f.offset];
        if f.DataLen() <= oldFrame.DataLen() {
          return Spec.Duplicate;
        }
        f := f.(data := f.data[oldFrame.DataLen()..], offset := f.offset + oldFrame.DataLen());
      }
      r := Insert(f);
    }

    /** Lines 51 to 143 of the source. */
    method Insert(frame: StreamFrame) returns (r: Spec.PushResult)
      requires WellFormed(gaps)
      requires 0 < |frame.data|
      modifies this
      ensures (View(), r) == Spec.Insert(old(View()), frame)
    {
      var search := FindGap(frame.offset, frame.End());
      match search
      case NoGap => return Spec.BugNoGap;
      case Covered => return Spec.Duplicate;
      case Found(i) =>
        Spec.FirstGapReaches(gaps, frame.offset, frame.End());
        r := FillFrom(frame, i);
    }

    /** Lines 54 to 68: skips the gaps that lie before the frame. */
    method FindGap(start: nat, end: nat) returns (r: Search)
      ensures r == FirstGap(gaps, start, end, 0)
    {
      var i := 0;
      while i < |gaps|
        invariant 0 <= i <= |gaps|
        invariant FirstGap(gaps, start, end, i) == FirstGap(gaps, start, end, 0)
      {
        if end <= gaps[i].start {
          return Covered;
        }
        if end > gaps[i].start && start <= gaps[i].end {
          return Found(i);
        }
        i := i + 1;
      }
      return NoGap;
    }

    /** Lines 70 to 143: cuts the frame, updates the gaps and queues what is left. */
    method FillFrom(frame: StreamFrame, i: nat) returns (r: Spec.PushResult)
      requires 0 < |frame.data| && Spec.Reaches(gaps, frame.offset, frame.End(), i)
      modifies this
      ensures (View(), r) == Spec.InsertAt(old(View()), frame, i)
    {
      var f, start, end := frame, frame.offset, frame.End();
      CutNothing(f);
      if start < gaps[i].start {
        var add := gaps[i].start - start;
        f := f.DropFront(add);
        start := start + add;
      }
      assert start == Max(frame.offset, gaps[i].start) && f == frame.DropFront(start - frame.offset);

      ghost var before := gaps;
      hide LastGap, Fill, Between, Spec.Uncover;
      var found, endGap, isFirst, j := FindEndGap(i, end);
      if !found {
        return Spec.BugNoEndGap;
      }

      r := Place(frame, f, i, j, start, endGap, isFirst, before);
    }

    /** Lines 96 to 143: cuts the tail, updates the gaps and queues the frame. */
    method Place(ghost frame: StreamFrame, head: StreamFrame, i: nat, ghost j: nat, start: nat, endGap: Interval,
                 isFirst: bool, ghost before: seq<Interval>) returns (r: Spec.PushResult)
      requires i <= j < |before| && endGap == before[j] && isFirst == (i == j)
      requires before[i].start <= start < head.End() && start <= before[j].end && before[j].start < head.End()
      requires i < j ==> before[i].end <= endGap.end && before[i].end <= head.End()
      requires frame.offset <= start && head.offset == start && head.End() == frame.End()
      requires head == frame.DropFront(start - frame.offset)
      requires gaps == Between(before, i, j, head.End() < endGap.end)
      modifies this
      ensures var b := Min(frame.End(), endGap.end);
              && readPosition == old(readPosition) && gaps == Fill(before, i, j, start, b)
              && r == (if |gaps| > Spec.MAX_GAPS then Spec.TooManyGaps else Spec.Ok)
              && queuedFrames == if |gaps| > Spec.MAX_GAPS then old(queuedFrames)
                                 else var piece := frame.DropFront(start - frame.offset).TakeFront(b - start);
                                      old(queuedFrames)[start := piece]
    {
      var f, end := head, head.End();
      CutNothing(f);
      if end > endGap.end {
        var cutLen := end - endGap.end;
        end := end - cutLen;
        f := f.TakeFront(f.DataLen() - cutLen);
      }
      ShrinkGaps(i, j, start, end, endGap, isFirst, before);
      if |gaps| > Spec.MAX_GAPS {
        return Spec.TooManyGaps;
      }
      queuedFrames := queuedFrames[f.offset := f];
      return Spec.Ok;
    }

    /** What is left of the gap list when the last gap that the frame reaches is gap j. */
    static function Between(before: seq<Interval>, i: nat, j: nat, keepEnd: bool): seq<Interval>
      requires i <= j < |before|
    {
      before[..i] + [before[i]] + (if keepEnd && i < j then [before[j]] else []) + before[j + 1..]
    }

    static lemma BetweenStart(before: seq<Interval>, queued: map<nat, StreamFrame>, i: nat)
      requires i < |before|
      ensures Between(before, i, i, true) == Between(before, i, i, false) == before
      ensures Spec.Uncover(queued, before, i, i) == queued
    {
    }

    /** Gap j, unless it is gap i, leaves the list, and gap j + 1 is then right behind gap i. */
    static lemma BetweenStep(before: seq<Interval>, i: nat, j: nat)
      requires i <= j < |before|
      ensures var gaps := Between(before, i, j, true);
              && |gaps| == (if i == j then i + 1 else i + 2) + |before| - (j + 1)
              && (i == j ==> gaps == Between(before, i, j, false))
              && (i < j ==> Without(gaps, i + 1) == Between(before, i, j, false))
    {
      if i < j {
        var gaps := Between(before, i, j, true);
        assert gaps[..i + 1] == before[..i] + [before[i]] && gaps[i + 2..] == before[j + 1..];
      }
    }

    static lemma BetweenNext(before: seq<Interval>, i: nat, j: nat)
      requires i <= j < |before| - 1
      ensures var gaps := Between(before, i, j, false);
              i + 1 < |gaps| && gaps[i + 1] == before[j + 1] && gaps == Between(before, i, j + 1, true)
    {
      assert before[j + 1..] == [before[j + 1]] + before[j + 2..];
    }

    static lemma BetweenTop(before: seq<Interval>, i: nat)
      requires i < |before|
      ensures var top := |before| - 1;
              Between(before, i, top, true) == if i == top then before else before[..i + 1] + before[top..]
    {
      assert before[..i + 1] == before[..i] + [before[i]];
    }

    static lemma UncoverStep(queued: map<nat, StreamFrame>, before: seq<Interval>, i: nat, j: nat)
      requires i <= j < |before|
      ensures Spec.Uncover(queued, before, i, j) - {before[j].end} == Spec.Uncover(queued, before, i, j + 1)
    {
    }

    static lemma LastGapStep(before: seq<Interval>, end: nat, j: nat)
      requires j < |before|
      ensures LastGap(before, end, j) == if end < before[j].end then j
                                         else if j + 1 == |before| then |before|
                                         else if end <= before[j + 1].start then j else LastGap(before, end, j + 1)
    {
    }

    /** The frame runs past the last gap: all gaps but gap i and the last one have left the list. */
    static ghost predicate NoEnd(before: seq<Interval>, queuedBefore: map<nat, StreamFrame>, i: nat, end: nat,
                                 gaps: seq<Interval>, queued: map<nat, StreamFrame>)
      requires i < |before|
    {
      var top := |before| - 1;
      && LastGap(before, end, i) == |before|
      && queued == Spec.Uncover(queuedBefore, before, i, top)
      && gaps == if i == top then before else before[..i + 1] + before[top..]
    }

    /** Gap j is the last one that the frame reaches. */
    static ghost predicate EndsAt(before: seq<Interval>, queuedBefore: map<nat, StreamFrame>, i: nat, end: nat, j: nat,
                                  endGap: Interval, isFirst: bool, gaps: seq<Interval>, queued: map<nat, StreamFrame>)
      requires i < |before|
    {
      && i <= j < |before| && j == LastGap(before, end, i) && endGap == before[j] && isFirst == (i == j)
      && queued == Spec.Uncover(queuedBefore, before, i, j)
      && gaps == Between(before, i, j, end < endGap.end)
    }

    /** The frame reaches gap j. */
    static ghost predicate Scanned(before: seq<Interval>, queuedBefore: map<nat, StreamFrame>, i: nat, end: nat, j: nat,
                                   endGap: Interval, isFirst: bool, gaps: seq<Interval>, queued: map<nat, StreamFrame>)
      requires i < |before|
    {
      && i <= j < |before| && LastGap(before, end, j) == LastGap(before, end, i)
      && endGap == before[j] && isFirst == (i == j)
      && queued == Spec.Uncover(queuedBefore, before, i, j)
      && gaps == Between(before, i, j, true)
    }

    static lemma ScanStarts(before: seq<Interval>, queued: map<nat, StreamFrame>, i: nat, end: nat)
      requires i < |before|
      ensures Scanned(before, queued, i, end, i, before[i], true, before, queued)
    {
      BetweenStart(before, queued, i);
      hide Between, LastGap, Spec.Uncover;
    }

    static lemma ScanEnds(before: seq<Interval>, queuedBefore: map<nat, StreamFrame>, i: nat, end: nat, j: nat,
                          endGap: Interval, isFirst: bool, gaps: seq<Interval>, queued: map<nat, StreamFrame>)
      requires i < |before| && end < endGap.end
      requires Scanned(before, queuedBefore, i, end, j, endGap, isFirst, gaps, queued)
      ensures EndsAt(before, queuedBefore, i, end, j, endGap, isFirst, gaps, queued)
    {
      LastGapStep(before, end, j);
      hide Between, LastGap, Spec.Uncover;
    }

    /** One step of the loop. */
    static lemma ScanStep(before: seq<Interval>, queuedBefore: map<nat, StreamFrame>, i: nat, end: nat, j: nat,
                          endGap: Interval, isFirst: bool, gaps: seq<Interval>, queued: map<nat, StreamFrame>)
      requires i < |before| && end >= endGap.end
      requires Scanned(before, queuedBefore, i, end, j, endGap, isFirst, gaps, queued)
      ensures j + 1 == |before| <==> (if isFirst then i + 1 else i + 2) == |gaps|
      ensures j + 1 == |before| ==> NoEnd(before, queuedBefore, i, end, gaps, queued)
      ensures j + 1 < |before| ==>
                && i + 1 < |gaps|
                && var shorter := if isFirst then gaps else Without(gaps, i + 1);
                && i + 1 < |shorter|
                && var next := shorter[i + 1];
                && (end <= next.start ==> EndsAt(before, queuedBefore, i, end, j, endGap, isFirst, shorter, queued))
                && (end > next.start ==>
                      Scanned(before, queuedBefore, i, end, j + 1, next, false, shorter, queued - {endGap.end}))
    {
      BetweenStep(before, i, j);
      LastGapStep(before, end, j);
      hide Between, LastGap, Spec.Uncover, Without;
      if j + 1 == |before| {
        BetweenTop(before, i);
      } else {
        BetweenNext(before, i, j);
        UncoverStep(queuedBefore, before, i, j);
      }
    }

    /** Lines 78 to 94: removes the gaps that the frame covers and the frames queued behind them. The gap i stays
        in the list; so does the last gap, right behind it, if the frame ends inside of it. */
    method FindEndGap(i: nat, end: nat) returns (found: bool, endGap: Interval, isFirst: bool, ghost j: nat)
      requires i < |gaps|
      modifies this`gaps, this`queuedFrames
      ensures if found then EndsAt(old(gaps), old(queuedFrames), i, end, j, endGap, isFirst, gaps, queuedFrames)
              else NoEnd(old(gaps), old(queuedFrames), i, end, gaps, queuedFrames)
    {
      hide Scanned, EndsAt, NoEnd, Without;
      ghost var before, queuedBefore := gaps, queuedFrames;
      ScanStarts(before, queuedBefore, i, end);
      endGap, isFirst, j := gaps[i], true, i;
      while end >= endGap.end
        invariant j < |before| && Scanned(before, queuedBefore, i, end, j, endGap, isFirst, gaps, queuedFrames)
        decreases |before| - j
      {
        ScanStep(before, queuedBefore, i, end, j, endGap, isFirst, gaps, queuedFrames);
        if (if isFirst then i + 1 else i + 2) == |gaps| {
          return false, endGap, isFirst, j;
        }
        if !isFirst {
          gaps := Without(gaps, i + 1);
        }
        if end <= gaps[i + 1].start {
          return true, endGap, isFirst, j;
        }
        queuedFrames := queuedFrames - {endGap.end};
        endGap := gaps[i + 1];
        isFirst := false;
        j := j + 1;
      }
      ScanEnds(before, queuedBefore, i, end, j, endGap, isFirst, gaps, queuedFrames);
      found := true;
    }

    /** Lines 104 to 130: the gap list becomes the one with [start, end) filled. */
    method ShrinkGaps(i: nat, ghost j: nat, start: nat, end: nat, endGap: Interval, isFirst: bool,
                      ghost before: seq<Interval>)
      requires i <= j < |before| && endGap == before[j] && isFirst == (i == j)
      requires before[i].start <= start && end <= before[j].end && (i < j ==> before[i].end <= end)
      requires gaps == Between(before, i, j, end < endGap.end)
      modifies this`gaps
      ensures gaps == Fill(before, i, j, start, end)
    {
      var gap := gaps[i];
      if start == gap.start {
        if end >= gap.end {
          gaps := gaps[..i] + gaps[i + 1..];
        }
        if end < endGap.end {
          gaps := gaps[i := endGap.(start := end)];
        }
      } else if end == endGap.end {
        gaps := gaps[i := gap.(end := start)];
      } else if isFirst {
        gaps := gaps[..i] + [gap.(end := start), Interval(end, gap.end)] + gaps[i + 1..];
      } else {
        gaps := gaps[i := gap.(end := start)][i + 1 := endGap.(start := end)];
      }
    }

    method Head() returns (r: Option<StreamFrame>)
      ensures r == Spec.Head(View())
    {
      if readPosition in queuedFrames {
        return Some(queuedFrames[readPosition]);
      }
      return None;
    }

    method Pop() returns (r: Option<StreamFrame>)
      modifies this
      ensures (View(), r) == Spec.Pop(old(View()))
    {
      r := Head();
      if r.Some? {
        readPosition := readPosition + r.value.DataLen();
        queuedFrames := queuedFrames - {r.value.offset};
      }
    }
  }
}

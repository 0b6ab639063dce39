/** Retransmission queue of the stream framer (pstream/stream_framer.go) as functions. */
module FramerSpec {

  import opened Wire

  /** Which queued frames a pop looks at: all of them, or those of the streams assigned to a path. */
  datatype Selection = AllStreams | OfStreams(ids: seq<nat>) {
    predicate Selects(f: StreamFrame) {
      AllStreams? || f.streamID in ids
    }
  }

  datatype Popped = Popped(frames: seq<StreamFrame>, queue: seq<StreamFrame>, length: nat)

  /** The first n bytes of a frame as a frame of their own; FIN stays with the rest. */
  function SplitFront(f: StreamFrame, n: nat): StreamFrame
    requires n <= |f.data|
  {
    StreamFrame(f.streamID, false, f.dataLenPresent, f.offset, f.data[..n])
  }

  /** Pops selected frames from the front of the queue while they fit into maxLen bytes, of which length are used. */
  function Pop(queue: seq<StreamFrame>, sel: Selection, maxLen: nat, length: nat): Popped {
    if queue == [] then Popped([], [], length)
    else if !sel.Selects(queue[0]) then
      var rest := Pop(queue[1..], sel, maxLen, length);
      rest.(queue := [queue[0]] + rest.queue)
    else
      var f := queue[0].(dataLenPresent := true);
      var used := length + f.MinLength();
      if used >= maxLen then Popped([], [f] + queue[1..], length)
      else if maxLen - used < |f.data| then
        Popped([SplitFront(f, maxLen - used)], [f.DropFront(maxLen - used)] + queue[1..], maxLen)
      else
        var rest := Pop(queue[1..], sel, maxLen, used + |f.data|);
        rest.(frames := [f] + rest.frames)
  }

  /** A pop in the middle of the loop: res was popped already, kept was skipped. */
  function Behind(res: seq<StreamFrame>, kept: seq<StreamFrame>, p: Popped): Popped {
    Popped(res + p.frames, kept + p.queue, p.length)
  }

  lemma SkipStep(res: seq<StreamFrame>, kept: seq<StreamFrame>, queue: seq<StreamFrame>,
                 sel: Selection, maxLen: nat, length: nat)
    requires queue != [] && !sel.Selects(queue[0])
    ensures Behind(res, kept, Pop(queue, sel, maxLen, length))
            == Behind(res, kept + [queue[0]], Pop(queue[1..], sel, maxLen, length))
  {
    Assoc(kept, [queue[0]], Pop(queue[1..], sel, maxLen, length).queue);
  }

  lemma TakeStep(res: seq<StreamFrame>, kept: seq<StreamFrame>, queue: seq<StreamFrame>,
                 sel: Selection, maxLen: nat, length: nat)
    requires queue != [] && sel.Selects(queue[0])
    ensures var f := queue[0].(dataLenPresent := true);
            var used := length + f.MinLength();
            Behind(res, kept, Pop(queue, sel, maxLen, length)) ==
              if used >= maxLen then Popped(res, kept + ([f] + queue[1..]), length)
              else if maxLen - used < |f.data| then
                Popped(res + [SplitFront(f, maxLen - used)], kept + ([f.DropFront(maxLen - used)] + queue[1..]), maxLen)
              else Behind(res + [f], kept, Pop(queue[1..], sel, maxLen, used + |f.data|))
  {
    var f := queue[0].(dataLenPresent := true);
    Assoc(res, [f], Pop(queue[1..], sel, maxLen, length + f.MinLength() + |f.data|).frames);
  }

  /** Nothing is left to do in front of an empty rest, and nothing was done at the beginning. */
  lemma PopEnds(res: seq<StreamFrame>, kept: seq<StreamFrame>, p: Popped, sel: Selection, maxLen: nat, length: nat)
    ensures Behind(res, kept, Pop([], sel, maxLen, length)) == Popped(res, kept, length)
    ensures Behind([], [], p) == p
  {
    assert kept + [] == kept && res + [] == res;
  }

  lemma ReplaceAt<T>(a: seq<T>, x: T, y: T, b: seq<T>)
    ensures (a + ([x] + b))[|a| := y] == a + ([y] + b)
  {
    var s, t := (a + ([x] + b))[|a| := y], a + ([y] + b);
    assert forall k :: 0 <= k < |s| ==> s[k] == t[k];
  }

  lemma SetFront<T>(s: seq<T>, x: T)
    requires s != []
    ensures s[0 := x] == [] + ([x] + s[1..]) && s[0 := x][1..] == s[1..]
  {
  }

  lemma RemoveAt<T>(a: seq<T>, x: T, b: seq<T>)
    ensures (a + ([x] + b))[..|a|] + (a + ([x] + b))[|a| + 1..] == a + b
  {
    assert (a + ([x] + b))[..|a|] == a && (a + ([x] + b))[|a| + 1..] == b;
  }

  lemma Assoc<T>(a: seq<T>, b: seq<T>, c: seq<T>)
    ensures (a + b) + c == a + (b + c)
  {
  }

  /** TakeStep in terms of the whole queue, where the frame sits behind those that were kept. */
  lemma TakeAt(res: seq<StreamFrame>, kept: seq<StreamFrame>, tail: seq<StreamFrame>,
               sel: Selection, maxLen: nat, length: nat)
    requires tail != [] && sel.Selects(tail[0])
    ensures var f := tail[0].(dataLenPresent := true);
            var used := length + f.MinLength();
            var queue := (kept + tail)[|kept| := f];
            && (kept + tail)[|kept|] == tail[0]
            && (used < maxLen && |f.data| <= maxLen - used ==> Without(queue, |kept|) == kept + tail[1..])
            && Behind(res, kept, Pop(tail, sel, maxLen, length)) ==
               if used >= maxLen then Popped(res, queue, length)
               else if maxLen - used < |f.data| then
                 Popped(res + [SplitFront(f, maxLen - used)], queue[|kept| := f.DropFront(maxLen - used)], maxLen)
               else Behind(res + [f], kept, Pop(tail[1..], sel, maxLen, used + |f.data|))
  {
    var f, rest := tail[0].(dataLenPresent := true), tail[1..];
    var used := length + f.MinLength();
    assert tail == [tail[0]] + rest;
    TakeStep(res, kept, tail, sel, maxLen, length);
    ReplaceAt(kept, tail[0], f, rest);
    RemoveAt(kept, f, rest);
    if used < maxLen && maxLen - used < |f.data| {
      ReplaceAt(kept, f, f.DropFront(maxLen - used), rest);
    }
    hide Pop, Behind;
  }

  lemma SkipAt(res: seq<StreamFrame>, kept: seq<StreamFrame>, tail: seq<StreamFrame>,
               sel: Selection, maxLen: nat, length: nat)
    requires tail != [] && !sel.Selects(tail[0])
    ensures (kept + tail)[|kept|] == tail[0] && kept + tail == kept + [tail[0]] + tail[1..]
    ensures Behind(res, kept, Pop(tail, sel, maxLen, length))
            == Behind(res, kept + [tail[0]], Pop(tail[1..], sel, maxLen, length))
  {
    SkipStep(res, kept, tail, sel, maxLen, length);
    hide Pop, Behind;
  }

  // ---- What a frame carries ----

  /** A byte of a stream at its offset, or the end of the stream. */
  datatype Cell = Data(pos: nat, byte: Byte) | Fin(pos: nat)

  function DataCells(offset: nat, data: seq<Byte>): seq<Cell>
    decreases |data|
  {
    if data == [] then [] else [Data(offset, data[0])] + DataCells(offset + 1, data[1..])
  }

  function Cells(f: StreamFrame): seq<Cell> {
    DataCells(f.offset, f.data) + FinCells(f)
  }

  /** What one frame carries for a stream. */
  function CellsFor(f: StreamFrame, id: nat): seq<Cell> {
    if f.streamID == id then Cells(f) else []
  }

  /** Everything the frames carry for one stream, in the order of the list. */
  function StreamCells(frames: seq<StreamFrame>, id: nat): seq<Cell> {
    if frames == [] then [] else CellsFor(frames[0], id) + StreamCells(frames[1..], id)
  }

  function TotalLength(frames: seq<StreamFrame>): nat {
    if frames == [] then 0 else frames[0].EncodedLength() + TotalLength(frames[1..])
  }

  /** The frames that a pop does not look at. */
  function Others(frames: seq<StreamFrame>, sel: Selection): seq<StreamFrame> {
    if frames == [] then []
    else if sel.Selects(frames[0]) then Others(frames[1..], sel)
    else [frames[0]] + Others(frames[1..], sel)
  }

  lemma {:induction false} SplitData(offset: nat, data: seq<Byte>, n: nat)
    requires n <= |data|
    ensures DataCells(offset, data[..n]) + DataCells(offset + n, data[n..]) == DataCells(offset, data)
    decreases n
  {
    if n == 0 {
      assert data[..0] == [] && data[0..] == data;
    } else {
      SplitData(offset + 1, data[1..], n - 1);
      assert data[..n][1..] == data[1..][..n - 1] && data[1..][n - 1..] == data[n..];
      Assoc([Data(offset, data[0])], DataCells(offset + 1, data[1..][..n - 1]), DataCells(offset + n, data[n..]));
    }
  }

  function FinCells(f: StreamFrame): seq<Cell> {
    if f.fin then [Fin(f.End())] else []
  }

  lemma FrontCells(f: StreamFrame, n: nat)
    requires n <= |f.data|
    ensures Cells(SplitFront(f, n)) == DataCells(f.offset, f.data[..n])
  {
    assert DataCells(f.offset, f.data[..n]) + [] == DataCells(f.offset, f.data[..n]);
  }

  lemma BackCells(f: StreamFrame, n: nat)
    requires n <= |f.data|
    ensures Cells(f.DropFront(n)) == DataCells(f.offset + n, f.data[n..]) + FinCells(f)
  {
    assert f.DropFront(n).End() == f.End();
  }

  lemma SplitCells(f: StreamFrame, n: nat, id: nat)
    requires n <= |f.data|
    ensures CellsFor(SplitFront(f, n), id) + CellsFor(f.DropFront(n), id) == CellsFor(f, id)
  {
    if f.streamID == id {
      SplitData(f.offset, f.data, n);
      FrontCells(f, n);
      BackCells(f, n);
      Assoc(DataCells(f.offset, f.data[..n]), DataCells(f.offset + n, f.data[n..]), FinCells(f));
    }
  }

  lemma ConsCells(f: StreamFrame, frames: seq<StreamFrame>, id: nat)
    ensures StreamCells([f] + frames, id) == CellsFor(f, id) + StreamCells(frames, id)
  {
    assert ([f] + frames)[1..] == frames;
  }

  lemma ConsLength(f: StreamFrame, frames: seq<StreamFrame>)
    ensures TotalLength([f] + frames) == f.EncodedLength() + TotalLength(frames)
  {
    assert ([f] + frames)[1..] == frames;
  }

  lemma ConsOthers(f: StreamFrame, frames: seq<StreamFrame>, sel: Selection)
    ensures Others([f] + frames, sel) == (if sel.Selects(f) then [] else [f]) + Others(frames, sel)
  {
    assert ([f] + frames)[1..] == frames;
  }

  /** Popped frames belong to the selection. */
  lemma {:induction false} PopSelects(queue: seq<StreamFrame>, sel: Selection, maxLen: nat, length: nat)
    ensures forall f :: f in Pop(queue, sel, maxLen, length).frames ==> sel.Selects(f)
  {
    if queue != [] {
      if !sel.Selects(queue[0]) {
        PopSelects(queue[1..], sel, maxLen, length);
      } else {
        var f := queue[0].(dataLenPresent := true);
        PopSelects(queue[1..], sel, maxLen, length + f.MinLength() + |f.data|);
      }
    }
  }

  /** Frames of a selection carry nothing for a stream outside of it. */
  lemma {:induction false} NoneSelected(frames: seq<StreamFrame>, sel: Selection, other: StreamFrame)
    requires forall f :: f in frames ==> sel.Selects(f)
    requires !sel.Selects(other)
    ensures StreamCells(frames, other.streamID) == []
  {
    if frames != [] {
      assert sel.Selects(frames[0]);
      NoneSelected(frames[1..], sel, other);
    }
  }

  /** For the given stream, the popped frames followed by what stays in the queue carry what queue carries. */
  ghost predicate Conserves(p: Popped, queue: seq<StreamFrame>, id: nat) {
    StreamCells(p.frames, id) + StreamCells(p.queue, id) == StreamCells(queue, id)
  }

  /** Splits and pops lose, duplicate and reorder nothing: for each stream, the popped frames followed by the
      remaining queue carry the same bytes at the same offsets, in the same order, with FIN in the same place. */
  lemma {:induction false} PopConserves(queue: seq<StreamFrame>, sel: Selection, maxLen: nat, length: nat, id: nat)
    ensures Conserves(Pop(queue, sel, maxLen, length), queue, id)
  {
    if queue != [] {
      if sel.Selects(queue[0]) {
        var used := length + queue[0].(dataLenPresent := true).MinLength() + |queue[0].data|;
        PopConserves(queue[1..], sel, maxLen, used, id);
        FrontConserves(queue, sel, maxLen, length, id);
      } else {
        PopConserves(queue[1..], sel, maxLen, length, id);
        SkipConserves(queue, sel, maxLen, length, id);
      }
    }
  }

  lemma FrontConserves(queue: seq<StreamFrame>, sel: Selection, maxLen: nat, length: nat, id: nat)
    requires queue != [] && sel.Selects(queue[0])
    requires var used := length + queue[0].(dataLenPresent := true).MinLength() + |queue[0].data|;
             Conserves(Pop(queue[1..], sel, maxLen, used), queue[1..], id)
    ensures Conserves(Pop(queue, sel, maxLen, length), queue, id)
  {
    var f := queue[0].(dataLenPresent := true);
    var used := length + f.MinLength();
    var p := Pop(queue, sel, maxLen, length);
    if used >= maxLen {
      StopConserves(queue, length, id);
      assert p == Popped([], [f] + queue[1..], length);
    } else if maxLen - used < |f.data| {
      SplitConserves(queue, maxLen - used, maxLen, id);
      assert p == Popped([SplitFront(f, maxLen - used)], [f.DropFront(maxLen - used)] + queue[1..], maxLen);
    } else {
      var rest := Pop(queue[1..], sel, maxLen, used + |f.data|);
      TakeConserves(queue, rest, id);
      assert p == rest.(frames := [f] + rest.frames);
    }
  }

  lemma SkipConserves(queue: seq<StreamFrame>, sel: Selection, maxLen: nat, length: nat, id: nat)
    requires queue != [] && !sel.Selects(queue[0])
    requires Conserves(Pop(queue[1..], sel, maxLen, length), queue[1..], id)
    ensures Conserves(Pop(queue, sel, maxLen, length), queue, id)
  {
    var p := Pop(queue[1..], sel, maxLen, length);
    ConsCells(queue[0], p.queue, id);
    if queue[0].streamID == id {
      PopSelects(queue[1..], sel, maxLen, length);
      NoneSelected(p.frames, sel, queue[0]);
    }
    MoveFront(CellsFor(queue[0], id), StreamCells(p.frames, id), StreamCells(p.queue, id));
  }

  lemma MoveFront<T>(x: seq<T>, a: seq<T>, b: seq<T>)
    requires x == [] || a == []
    ensures a + (x + b) == x + (a + b)
  {
  }

  lemma FlagCells(f: StreamFrame, id: nat)
    ensures CellsFor(f.(dataLenPresent := true), id) == CellsFor(f, id)
  {
  }

  lemma StopConserves(queue: seq<StreamFrame>, length: nat, id: nat)
    requires queue != []
    ensures Conserves(Popped([], [queue[0].(dataLenPresent := true)] + queue[1..], length), queue, id)
  {
    FlagCells(queue[0], id);
    ConsCells(queue[0].(dataLenPresent := true), queue[1..], id);
  }

  lemma SplitConserves(queue: seq<StreamFrame>, n: nat, length: nat, id: nat)
    requires queue != [] && n <= |queue[0].data|
    ensures var f := queue[0].(dataLenPresent := true);
            Conserves(Popped([SplitFront(f, n)], [f.DropFront(n)] + queue[1..], length), queue, id)
  {
    var f := queue[0].(dataLenPresent := true);
    FlagCells(queue[0], id);
    var front, back := SplitFront(f, n), f.DropFront(n);
    SplitCells(f, n, id);
    ConsCells(back, queue[1..], id);
    Assoc(CellsFor(front, id), CellsFor(back, id), StreamCells(queue[1..], id));
    assert StreamCells([front], id) == CellsFor(front, id) by {
      assert [front] == [front] + [];
      ConsCells(front, [], id);
    }
  }

  lemma TakeConserves(queue: seq<StreamFrame>, rest: Popped, id: nat)
    requires queue != [] && Conserves(rest, queue[1..], id)
    ensures Conserves(rest.(frames := [queue[0].(dataLenPresent := true)] + rest.frames), queue, id)
  {
    FlagCells(queue[0], id);
    ConsCells(queue[0].(dataLenPresent := true), rest.frames, id);
    Assoc(CellsFor(queue[0], id), StreamCells(rest.frames, id), StreamCells(rest.queue, id));
  }

  /** The popped frames take exactly the reported length, which stays within maxLen. */
  lemma {:induction false} PopLength(queue: seq<StreamFrame>, sel: Selection, maxLen: nat, length: nat)
    ensures var p := Pop(queue, sel, maxLen, length);
            && p.length == length + TotalLength(p.frames)
            && (p.frames != [] ==> p.length <= maxLen)
  {
    if queue != [] {
      if !sel.Selects(queue[0]) {
        PopLength(queue[1..], sel, maxLen, length);
      } else {
        var f := queue[0].(dataLenPresent := true);
        var used := length + f.MinLength();
        if used < maxLen && maxLen - used >= |f.data| {
          PopLength(queue[1..], sel, maxLen, used + |f.data|);
          ConsLength(f, Pop(queue[1..], sel, maxLen, used + |f.data|).frames);
        } else if used < maxLen {
          ConsLength(SplitFront(f, maxLen - used), []);
        }
      }
    }
  }

  /** The pop stops only for lack of room: behind the last popped frame no selected frame is left, or the header of the
      first one that is left, with its length field, reaches the limit. */
  lemma {:induction false} PopStopsFull(queue: seq<StreamFrame>, sel: Selection, maxLen: nat, length: nat)
    ensures var p := Pop(queue, sel, maxLen, length);
            (forall f :: f in p.queue ==> !sel.Selects(f)) ||
            exists k :: 0 <= k < |p.queue| && FirstSelected(p.queue, sel, k)
                        && p.length + p.queue[k].(dataLenPresent := true).MinLength() >= maxLen
    decreases |queue|
  {
    if queue != [] {
      var f, rest := queue[0], queue[1..];
      var g := f.(dataLenPresent := true);
      if !sel.Selects(f) {
        PopStopsFull(rest, sel, maxLen, length);
        StopsBehind(f, Pop(rest, sel, maxLen, length), sel, maxLen);
      } else if length + g.MinLength() < maxLen && |g.data| <= maxLen - length - g.MinLength() {
        PopStopsFull(rest, sel, maxLen, length + g.MinLength() + |g.data|);
      } else {
        assert FirstSelected(Pop(queue, sel, maxLen, length).queue, sel, 0);
      }
    }
  }

  /** Element k is the first one that is selected. */
  predicate FirstSelected(queue: seq<StreamFrame>, sel: Selection, k: nat) {
    k < |queue| && sel.Selects(queue[k]) && forall i :: 0 <= i < k ==> !sel.Selects(queue[i])
  }

  lemma StopsBehind(f: StreamFrame, p: Popped, sel: Selection, maxLen: nat)
    requires !sel.Selects(f)
    requires (forall g :: g in p.queue ==> !sel.Selects(g)) ||
             exists k :: 0 <= k < |p.queue| && FirstSelected(p.queue, sel, k)
                         && p.length + p.queue[k].(dataLenPresent := true).MinLength() >= maxLen
    ensures var queue := [f] + p.queue;
            (forall g :: g in queue ==> !sel.Selects(g)) ||
            exists k :: 0 <= k < |queue| && FirstSelected(queue, sel, k)
                        && p.length + queue[k].(dataLenPresent := true).MinLength() >= maxLen
  {
    if k :| 0 <= k < |p.queue| && FirstSelected(p.queue, sel, k)
            && p.length + p.queue[k].(dataLenPresent := true).MinLength() >= maxLen {
      var queue := [f] + p.queue;
      assert forall i :: 0 < i < |queue| ==> queue[i] == p.queue[i - 1];
      assert FirstSelected(queue, sel, k + 1);
    }
  }

  /** Popped frames are measured, and sent, with their length field. */
  lemma {:induction false} PopFlags(queue: seq<StreamFrame>, sel: Selection, maxLen: nat, length: nat)
    ensures forall f :: f in Pop(queue, sel, maxLen, length).frames ==> f.dataLenPresent
  {
    if queue != [] {
      var f := queue[0].(dataLenPresent := true);
      PopFlags(queue[1..], sel, maxLen, if sel.Selects(queue[0]) then length + f.MinLength() + |f.data| else length);
    }
  }

  /** Frames outside of the selection stay in the queue, unchanged and in order. */
  lemma {:induction false} PopLeavesOthers(queue: seq<StreamFrame>, sel: Selection, maxLen: nat, length: nat)
    ensures Others(Pop(queue, sel, maxLen, length).queue, sel) == Others(queue, sel)
  {
    if queue != [] {
      assert queue == [queue[0]] + queue[1..];
      if !sel.Selects(queue[0]) {
        PopLeavesOthers(queue[1..], sel, maxLen, length);
        ConsOthers(queue[0], Pop(queue[1..], sel, maxLen, length).queue, sel);
      } else {
        var f := queue[0].(dataLenPresent := true);
        var used := length + f.MinLength();
        if used >= maxLen {
          ConsOthers(f, queue[1..], sel);
        } else if maxLen - used < |f.data| {
          ConsOthers(f.DropFront(maxLen - used), queue[1..], sel);
        } else {
          PopLeavesOthers(queue[1..], sel, maxLen, used + |f.data|);
        }
      }
    }
  }
}

/** streamFramer (pstream/stream_framer.go): the loops over the retransmission queue. */
module StreamFramer {

  import opened Wire
  import opened FramerSpec

  class Framer {
    var retransmissionQueue: seq<StreamFrame>

    constructor ()
      ensures retransmissionQueue == []
    {
      retransmissionQueue := [];
    }

    method AddFrameForRetransmission(frame: StreamFrame)
      modifies this
      ensures retransmissionQueue == old(retransmissionQueue) + [frame]
    {
      retransmissionQueue := retransmissionQueue + [frame];
    }

    /** Lines 612 to 629: splits off the first n bytes, or returns nothing if the frame is not longer than that. */
    static method MaybeSplitOffFrame(frame: StreamFrame, n: nat)
      returns (split: bool, front: StreamFrame, rest: StreamFrame)
      ensures split <==> n < |frame.data|
      ensures split ==> front == SplitFront(frame, n) && rest == frame.DropFront(n)
      ensures !split ==> rest == frame
    {
      if n >= frame.DataLen() {
        return false, frame, frame;
      }
      front := StreamFrame(frame.streamID, false, frame.dataLenPresent, frame.offset, frame.data[..n]);
      rest := frame.(data := frame.data[n..], offset := frame.offset + n);
      split := true;
    }

    /** Lines 192 to 226. */
    method MaybePopFramesForRetransmission(maxLen: nat) returns (res: seq<StreamFrame>, currentLen: nat)
      modifies this
      ensures Popped(res, retransmissionQueue, currentLen) == Pop(old(retransmissionQueue), AllStreams, maxLen, 0)
    {
      hide Pop, Behind;
      ghost var all := Pop(retransmissionQueue, AllStreams, maxLen, 0);
      res, currentLen := [], 0;
      PopEnds(res, [], all, AllStreams, maxLen, 0);
      while |retransmissionQueue| > 0
        invariant all == Behind(res, [], Pop(retransmissionQueue, AllStreams, maxLen, currentLen))
        decreases |retransmissionQueue|
      {
        TakeStep(res, [], retransmissionQueue, AllStreams, maxLen, currentLen);
        ghost var tail := retransmissionQueue[1..];
        var frame := retransmissionQueue[0].(dataLenPresent := true);
        SetFront(retransmissionQueue, frame);
        retransmissionQueue := retransmissionQueue[0 := frame];
        var frameHeaderLen := frame.MinLength();
        if currentLen + frameHeaderLen >= maxLen {
          return;
        }
        currentLen := currentLen + frameHeaderLen;
        var split, front, rest := MaybeSplitOffFrame(frame, maxLen - currentLen);
        if split {
          SetFront(retransmissionQueue, rest);
          retransmissionQueue := retransmissionQueue[0 := rest];
          res := res + [front];
          currentLen := currentLen + front.DataLen();
          return;
        }
        retransmissionQueue := retransmissionQueue[1..];
        res := res + [frame];
        currentLen := currentLen + frame.DataLen();
      }
      PopEnds(res, [], all, AllStreams, maxLen, currentLen);
    }

    /** Lines 229 to 278; lines 281 to 324 are the same loop for the single stream id of streamIDs. */
    method MaybePopFramesForRetransmissionOfPath(maxLen: nat, streamIDs: seq<nat>)
      returns (res: seq<StreamFrame>, currentLen: nat)
      modifies this
      ensures Popped(res, retransmissionQueue, currentLen)
              == Pop(old(retransmissionQueue), OfStreams(streamIDs), maxLen, 0)
    {
      hide Pop, Behind, Without;
      ghost var sel := OfStreams(streamIDs);
      ghost var all := Pop(retransmissionQueue, sel, maxLen, 0);
      ghost var kept, tail := [], retransmissionQueue;
      res, currentLen := [], 0;
      var i := 0;
      PopEnds(res, kept, all, sel, maxLen, 0);
      while i < |retransmissionQueue|
        invariant retransmissionQueue == kept + tail && i == |kept|
        invariant all == Behind(res, kept, Pop(tail, sel, maxLen, currentLen))
        decreases |tail|
      {
        var frame := retransmissionQueue[i];
        if frame.streamID !in streamIDs {
          SkipAt(res, kept, tail, sel, maxLen, currentLen);
          kept, tail := kept + [frame], tail[1..];
          i := i + 1;
          continue;
        }
        TakeAt(res, kept, tail, sel, maxLen, currentLen);
        tail := tail[1..];
        frame := frame.(dataLenPresent := true);
        retransmissionQueue := retransmissionQueue[i := frame];
        var frameHeaderLen := frame.MinLength();
        if currentLen + frameHeaderLen >= maxLen {
          return;
        }
        currentLen := currentLen + frameHeaderLen;
        var split, front, rest := MaybeSplitOffFrame(frame, maxLen - currentLen);
        if split {
          retransmissionQueue := retransmissionQueue[i := rest];
          res := res + [front];
          currentLen := currentLen + front.DataLen();
          return;
        }
        retransmissionQueue := Without(retransmissionQueue, i);
        res := res + [frame];
        currentLen := currentLen + frame.DataLen();
      }
      assert tail == [];
      AppendNothing(kept);
      PopEnds(res, kept, all, sel, maxLen, currentLen);
    }

    method PopSelected(maxLen: nat, sel: Selection) returns (res: seq<StreamFrame>, currentLen: nat)
      modifies this
      ensures Popped(res, retransmissionQueue, currentLen) == Pop(old(retransmissionQueue), sel, maxLen, 0)
    {
      match sel
      case AllStreams => res, currentLen := MaybePopFramesForRetransmission(maxLen);
      case OfStreams(ids) => res, currentLen := MaybePopFramesForRetransmissionOfPath(maxLen, ids);
    }
  }
}

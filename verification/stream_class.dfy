/** stream (pstream/stream.go): the fields and loops of the source, proved against StreamSpec. */
module Stream {

  import opened Wire
  import opened FrameSorter
  import FramerSpec
  import FrameSorterSpec
  import Spec = StreamSpec

  class StreamState {
    const streamID: nat
    const frameQueue: StreamFrameSorter
    var writeOffset: nat
    var readOffset: nat
    var readPosInFrame: int
    var dataForWriting: seq<Byte>
    var finishedReading: bool
    var finishedWriting: bool
    var finSent: bool

    ghost function SenderView(): Spec.Sender
      reads this
    {
      Spec.Sender(streamID, dataForWriting, writeOffset, finishedWriting, finSent)
    }

    ghost function ReaderView(): Spec.Reader
      reads this, frameQueue
    {
      Spec.Reader(frameQueue.View(), readOffset, finishedReading)
    }

    constructor (id: nat)
      ensures fresh(frameQueue)
      ensures SenderView() == Spec.Sender(id, [], 0, false, false)
      ensures ReaderView() == Spec.Reader(FrameSorterSpec.EMPTY, 0, false) && Spec.ReaderValid(ReaderView())
    {
      streamID := id;
      frameQueue := new StreamFrameSorter();
      writeOffset, readOffset, readPosInFrame := 0, 0, 0;
      dataForWriting := [];
      finishedReading, finishedWriting, finSent := false, false, false;
    }

    /** Lines 245 to 260: the part of Write that hands over the data. */
    method Write(p: seq<Byte>) returns (refused: bool)
      modifies this
      ensures SenderView() == Spec.Write(old(SenderView()), p)
      ensures ReaderView() == old(ReaderView())
      ensures refused == old(finishedWriting)
    {
      if finishedWriting {
        return true;
      }
      if |p| == 0 {
        return false;
      }
      dataForWriting := p;
      return false;
    }

    method Close()
      modifies this
      ensures SenderView() == Spec.Close(old(SenderView()))
      ensures ReaderView() == old(ReaderView())
    {
      finishedWriting := true;
    }

    /** Lines 315 to 334. */
    method GetDataForWriting(maxBytes: nat) returns (ret: seq<Byte>)
      modifies this
      ensures (SenderView(), ret) == Spec.GetDataForWriting(old(SenderView()), maxBytes)
      ensures ReaderView() == old(ReaderView())
    {
      if |dataForWriting| > maxBytes {
        ret := dataForWriting[..maxBytes];
        dataForWriting := dataForWriting[maxBytes..];
      } else {
        ret := dataForWriting;
        dataForWriting := [];
      }
      writeOffset := writeOffset + |ret|;
    }

    /** Lines 370 to 377, behind the flow control check: duplicates are not an error. */
    method AddStreamFrame(frame: StreamFrame) returns (failed: bool)
      requires Spec.ReaderValid(ReaderView())
      modifies frameQueue
      ensures ReaderView() == old(ReaderView()).(sorter := FrameSorterSpec.Push(old(ReaderView()).sorter, frame).0)
      ensures failed == (FrameSorterSpec.Push(old(ReaderView()).sorter, frame).1
                         !in {FrameSorterSpec.Ok, FrameSorterSpec.Duplicate})
    {
      var r := frameQueue.Push(frame);
      failed := r != FrameSorterSpec.Ok && r != FrameSorterSpec.Duplicate;
    }

    /** Lines 152 to 243 without waiting: where the source would block, the call returns Starved. */
    method Read(p: array<Byte>) returns (bytesRead: nat, status: Spec.ReadStatus)
      requires Spec.Positioned(ReaderView())
      modifies this`readOffset, this`readPosInFrame, this`finishedReading, frameQueue, p
      ensures var (r, data, st) := Spec.Read(old(ReaderView()), p.Length);
              && ReaderView() == r && status == st && bytesRead == |data| <= p.Length
              && p[..] == data + old(p[..])[bytesRead..]
    {
      if finishedReading {
        return 0, Spec.Eof;
      }
      bytesRead, status := ReadFrames(p);
    }

    /** Lines 163 to 242: the loop over the queued frames. */
    method ReadFrames(p: array<Byte>) returns (bytesRead: nat, status: Spec.ReadStatus)
      requires Spec.Positioned(ReaderView()) && !finishedReading
      modifies this`readOffset, this`readPosInFrame, this`finishedReading, frameQueue, p
      ensures var (r, data, st) := Spec.ReadLoop(old(ReaderView()), p.Length);
              && ReaderView() == r && status == st && bytesRead == |data| <= p.Length
              && p[..] == data + old(p[..])[bytesRead..]
    {
      hide Spec.ReadLoop, Spec.Positioned, Spec.ReadRoundOf;
      bytesRead, status := 0, Spec.Full;
      ghost var goal := Spec.ReadLoop(ReaderView(), p.Length);
      ghost var loop, done, before := goal, [], p[..];
      AppendNothing(goal.1);
      AppendNothing(before);
      while bytesRead < p.Length
        invariant bytesRead == |done| <= p.Length && status == Spec.Full && !finishedReading
        invariant Spec.Positioned(ReaderView())
        invariant loop == Spec.ReadLoop(ReaderView(), p.Length - bytesRead)
        invariant goal == (loop.0, done + loop.1, loop.2)
        invariant |before| == p.Length && p[..] == done + before[bytesRead..]
        decreases p.Length - bytesRead, |frameQueue.queuedFrames|
      {
        Spec.ReadLoopEnds(ReaderView(), p.Length - bytesRead);
        var head := frameQueue.Head();
        if head.None? {
          AppendNothing(done);
          return bytesRead, Spec.Starved;
        }
        Spec.ReadLoopRound(ReaderView(), p.Length - bytesRead);
        ghost var t := Spec.ReadRoundOf(ReaderView(), head.value, p.Length - bytesRead);
        bytesRead, status := ReadFrame(p, head.value, bytesRead, done, before);
        if status != Spec.Full {
          return;
        }
        loop := Spec.ReadLoop(t.reader, p.Length - bytesRead);
        FramerSpec.Assoc(done, t.data, loop.1);
        done := done + t.data;
      }
      Spec.ReadLoopEnds(ReaderView(), 0);
      AppendNothing(done);
    }

    /** Lines 187 to 239: takes what fits from the first frame, and pops the frame if that was all of it. */
    method ReadFrame(p: array<Byte>, frame: StreamFrame, at: nat, ghost done: seq<Byte>, ghost before: seq<Byte>)
      returns (bytesRead: nat, status: Spec.ReadStatus)
      requires Spec.Positioned(ReaderView())
      requires FrameSorterSpec.Head(frameQueue.View()) == Some(frame)
      requires at == |done| < p.Length && p.Length == |before| && p[..] == done + before[at..]
      modifies this`readOffset, this`readPosInFrame, this`finishedReading, frameQueue, p
      ensures var t := Spec.ReadRoundOf(old(ReaderView()), frame, p.Length - at);
              && ReaderView() == t.reader && status == t.status
              && bytesRead == at + |t.data| <= p.Length
              && p[..] == done + t.data + before[bytesRead..]
    {
      readPosInFrame := readOffset - frame.offset;
      if readPosInFrame > frame.DataLen() {
        assert done + [] == done;
        return at, Spec.Bug;
      }
      var m := Min(p.Length - at, frame.DataLen() - readPosInFrame);
      Copy(p, at, frame.data[readPosInFrame..readPosInFrame + m], done, before);
      readPosInFrame := readPosInFrame + m;
      readOffset := readOffset + m;
      bytesRead, status := at + m, Spec.Full;
      if readPosInFrame >= frame.DataLen() {
        var _ := frameQueue.Pop();
        if frame.fin {
          finishedReading := true;
          status := Spec.Eof;
        }
      }
    }

    /** Copies data into the buffer behind the bytes that are there already. */
    static method Copy(p: array<Byte>, at: nat, data: seq<Byte>, ghost done: seq<Byte>, ghost before: seq<Byte>)
      requires at == |done| && at + |data| <= p.Length == |before|
      requires p[..] == done + before[at..]
      modifies p
      ensures p[..] == done + data + before[at + |data|..]
    {
      forall k | 0 <= k < |data| {
        p[at + k] := data[k];
      }
    }
  }
}

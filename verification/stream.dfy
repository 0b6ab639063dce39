/** The two ends of a stream (pstream/stream.go, send in pstream/stream_scheduler.go) as functions. */
module StreamSpec {

  import opened Wire
  import opened ByteGaps
  import opened FrameSorterSpec

  // ---- Sending end ----

  datatype Sender = Sender(id: nat, pending: seq<Byte>, writeOffset: nat, finishedWriting: bool, finSent: bool)

  /** Write hands over a buffer; it is refused once the stream was closed. */
  function Write(s: Sender, p: seq<Byte>): Sender {
    if s.finishedWriting || p == [] then s else s.(pending := p)
  }

  function Close(s: Sender): Sender {
    s.(finishedWriting := true)
  }

  function GetDataForWriting(s: Sender, maxBytes: nat): (Sender, seq<Byte>) {
    if |s.pending| > maxBytes then
      (s.(pending := s.pending[maxBytes..], writeOffset := s.writeOffset + maxBytes), s.pending[..maxBytes])
    else
      (s.(pending := [], writeOffset := s.writeOffset + |s.pending|), s.pending)
  }

  predicate ShouldSendFin(s: Sender) {
    s.finishedWriting && !s.finSent && s.pending == []
  }

  /** How many bytes of data a frame may take: the room in the packet and, if there is data, the flow control window. */
  function SendLimit(s: Sender, maxBytes: nat, window: nat): nat {
    var header := StreamFrame(s.id, false, true, s.writeOffset, []).MinLength();
    if header > maxBytes then 0
    else if s.pending != [] then Min(maxBytes - header, window)
    else maxBytes - header
  }

  /** Cuts the next frame from the stream, given the room in the packet and the flow control window. */
  function Send(s: Sender, maxBytes: nat, window: nat): (Sender, Option<StreamFrame>) {
    var limit := SendLimit(s, maxBytes, window);
    if s.id == 1 || limit == 0 then (s, None)
    else
      var (s', data) := if s.pending != [] then GetDataForWriting(s, limit) else (s, []);
      var fin := ShouldSendFin(s');
      if data == [] && !fin then (s', None)
      else (if fin then s'.(finSent := true) else s', Some(StreamFrame(s.id, fin, true, s.writeOffset, data)))
  }

  /** A frame is cut from the front of the pending data, at the current offset, and fits into packet and window. */
  lemma SendCorrect(s: Sender, maxBytes: nat, window: nat)
    ensures var (s', f) := Send(s, maxBytes, window);
            match f
            case None => s' == s
            case Some(frame) =>
              && frame.streamID == s.id != 1 && frame.offset == s.writeOffset && s'.writeOffset == frame.End()
              && frame.data + s'.pending == s.pending
              && frame.EncodedLength() <= maxBytes
              && (s.pending != [] ==> |frame.data| <= window)
              && (|frame.data| == 0 ==> frame.fin)
              && (frame.fin <==> s.finishedWriting && !s.finSent && s'.pending == [])
              && s'.finSent == (s.finSent || frame.fin)
  {
  }

  /** Exactly when nothing is sent, and otherwise how much: as much as the pending data, the room behind the header and
      the window allow. */
  lemma SendExactly(s: Sender, maxBytes: nat, window: nat)
    ensures var header := StreamFrame(s.id, false, true, s.writeOffset, []).MinLength();
            var f := Send(s, maxBytes, window).1;
            && (f.None? <==>
                  || s.id == 1
                  || header >= maxBytes
                  || (s.pending != [] && window == 0)
                  || (s.pending == [] && !(s.finishedWriting && !s.finSent)))
            && (f.Some? && s.pending != [] ==>
                  |f.value.data| == Min(|s.pending|, Min(maxBytes - header, window)))
  {
  }

  // ---- Receiving end ----

  datatype Reader = Reader(sorter: Sorter, readOffset: nat, finishedReading: bool)

  /** Full: the buffer is full. Starved: no frame is queued at the read position. */
  datatype ReadStatus = Full | Starved | Eof | Bug

  /** What the loop of Read needs in order to compute positions inside the first frame. */
  predicate Positioned(r: Reader) {
    && r.sorter.readPosition <= r.readOffset
    && forall o :: o in r.sorter.queued ==> r.sorter.queued[o].offset == o
  }

  /** The loop of Read, with room for n more bytes. */
  function ReadLoop(r: Reader, n: nat): (Reader, seq<Byte>, ReadStatus)
    requires Positioned(r)
    decreases n, |r.sorter.queued|
  {
    if n == 0 then (r, [], Full)
    else if r.sorter.readPosition !in r.sorter.queued then (r, [], Starved)
    else
      var f := r.sorter.queued[r.sorter.readPosition];
      var pos := r.readOffset - f.offset;
      if pos > |f.data| then (r, [], Bug)
      else
        var m := Min(n, |f.data| - pos);
        var data := f.data[pos..pos + m];
        var r1 := r.(readOffset := r.readOffset + m);
        if pos + m < |f.data| then (r1, data, Full)
        else
          var r2 := r1.(sorter := Pop(r.sorter).0);
          assert r2.sorter.queued.Keys == r.sorter.queued.Keys - {r.sorter.readPosition};
          if f.fin then (r2.(finishedReading := true), data, Eof)
          else
            var (r3, rest, status) := ReadLoop(r2, n - m);
            (r3, data + rest, status)
  }

  function Read(r: Reader, n: nat): (Reader, seq<Byte>, ReadStatus)
    requires Positioned(r)
  {
    if r.finishedReading then (r, [], Eof) else ReadLoop(r, n)
  }

  /** The sorter is consistent, and the read offset lies at the read position or inside the first frame. */
  predicate ReaderValid(r: Reader) {
    && Valid(r.sorter)
    && r.sorter.readPosition <= r.readOffset
    && (r.sorter.readPosition < r.readOffset ==>
          && r.sorter.readPosition in r.sorter.queued
          && r.readOffset < r.sorter.readPosition + |r.sorter.queued[r.sorter.readPosition].data|)
  }

  /** The reader after it read the rest of the first frame. */
  function AfterFrame(r: Reader): Reader
    requires Positioned(r) && r.sorter.readPosition in r.sorter.queued
  {
    var f := r.sorter.queued[r.sorter.readPosition];
    r.(sorter := Pop(r.sorter).0, readOffset := f.End())
  }

  /** What the loop does with a frame that fits into the buffer. */
  lemma ReadLoopUnfold(r: Reader, n: nat)
    requires Positioned(r) && n != 0 && r.sorter.readPosition in r.sorter.queued
    requires var f := r.sorter.queued[r.sorter.readPosition];
             r.readOffset <= f.End() <= r.readOffset + n
    ensures var f := r.sorter.queued[r.sorter.readPosition];
            var data := f.data[r.readOffset - f.offset..];
            var r2 := AfterFrame(r);
            && Positioned(r2) && |r2.sorter.queued| < |r.sorter.queued|
            && (f.fin ==> ReadLoop(r, n) == (r2.(finishedReading := true), data, Eof))
            && (!f.fin ==> var (r3, rest, status) := ReadLoop(r2, n - |data|);
                           ReadLoop(r, n) == (r3, data + rest, status))
  {
    var r2 := AfterFrame(r);
    assert r2.sorter.queued.Keys == r.sorter.queued.Keys - {r.sorter.readPosition};
    var f := r.sorter.queued[r.sorter.readPosition];
    assert f.data[r.readOffset - f.offset..] == f.data[r.readOffset - f.offset..|f.data|];
  }

  /** What the loop does when it stops. */
  lemma ReadLoopEnds(r: Reader, n: nat)
    requires Positioned(r)
    ensures n == 0 ==> ReadLoop(r, n) == (r, [], Full)
    ensures n != 0 && r.sorter.readPosition !in r.sorter.queued ==> ReadLoop(r, n) == (r, [], Starved)
    ensures n != 0 && r.sorter.readPosition in r.sorter.queued ==>
              var f := r.sorter.queued[r.sorter.readPosition];
              var pos := r.readOffset - f.offset;
              && (pos > |f.data| ==> ReadLoop(r, n) == (r, [], Bug))
              && (pos + n < |f.data| ==>
                    ReadLoop(r, n) == (r.(readOffset := r.readOffset + n), f.data[pos..pos + n], Full))
  {
  }

  datatype Round = Round(reader: Reader, data: seq<Byte>, status: ReadStatus)

  /** What one round of the loop does with the first frame, when there is room for n bytes. */
  function ReadRoundOf(r: Reader, f: StreamFrame, n: nat): Round
    requires f.offset <= r.readOffset
  {
    var pos := r.readOffset - f.offset;
    if pos > |f.data| then Round(r, [], Bug)
    else
      var m := Min(n, |f.data| - pos);
      var r1 := r.(readOffset := r.readOffset + m);
      if pos + m < |f.data| then Round(r1, f.data[pos..pos + m], Full)
      else Round(r1.(sorter := Pop(r.sorter).0, finishedReading := r.finishedReading || f.fin),
                 f.data[pos..pos + m], if f.fin then Eof else Full)
  }

  /** The loop is that round, followed by the loop on what is left unless the round ended it. */
  lemma ReadLoopRound(r: Reader, n: nat)
    requires Positioned(r) && n != 0 && r.sorter.readPosition in r.sorter.queued && !r.finishedReading
    ensures var f := r.sorter.queued[r.sorter.readPosition];
            f.offset <= r.readOffset &&
            var t := ReadRoundOf(r, f, n);
            && |t.data| <= n
            && (t.status != Full ==> ReadLoop(r, n) == (t.reader, t.data, t.status))
            && (t.status == Full ==>
                  && Positioned(t.reader) && !t.reader.finishedReading
                  && (t.data == [] ==> |t.reader.sorter.queued| < |r.sorter.queued|)
                  && var (r3, rest, status) := ReadLoop(t.reader, n - |t.data|);
                     ReadLoop(r, n) == (r3, t.data + rest, status))
  {
    var f := r.sorter.queued[r.sorter.readPosition];
    var t := ReadRoundOf(r, f, n);
    if r.readOffset - f.offset + n < |f.data| {
      assert t.data + [] == t.data;
    } else {
      assert Pop(r.sorter).0.queued.Keys == r.sorter.queued.Keys - {r.sorter.readPosition};
    }
  }

  /** A frame that was read to its end is popped, and the read offset is the new read position. */
  lemma AfterFrameValid(r: Reader)
    requires ReaderValid(r) && r.sorter.readPosition in r.sorter.queued
    ensures Positioned(r)
    ensures var f := r.sorter.queued[r.sorter.readPosition];
            var r2 := AfterFrame(r);
            && f.offset == r.sorter.readPosition <= r.readOffset <= f.End() == r2.readOffset == r2.sorter.readPosition
            && ReaderValid(r2) && r2.sorter.gaps == r.sorter.gaps
  {
    PopValid(r.sorter);
  }

  /** What a call with room for n bytes promises about positions: an early stop only at the first gap or at a frame
      with FIN, and never an inconsistent position. */
  ghost predicate ReadStops(r: Reader, n: nat, r': Reader, data: seq<Byte>, status: ReadStatus) {
    && ReaderValid(r')
    && r'.sorter.gaps == r.sorter.gaps
    && |data| <= n && r'.readOffset == r.readOffset + |data|
    && status != Bug
    && (status == Full ==> |data| == n)
    && (status == Starved ==> r'.readOffset == r'.sorter.gaps[0].start)
    && (status == Eof ==> r'.finishedReading)
    && (status != Eof ==> r'.finishedReading == r.finishedReading)
  }

  /** Read keeps that promise in every consistent state, for every size of the buffer. */
  lemma {:induction false} ReadLoopStops(r: Reader, n: nat)
    requires ReaderValid(r)
    ensures Positioned(r)
    ensures var (r', data, status) := ReadLoop(r, n);
            ReadStops(r, n, r', data, status)
    decreases n, |r.sorter.queued|
  {
    if n != 0 {
      if r.sorter.readPosition !in r.sorter.queued {
        ReadStarved(r, n);
      } else if r.readOffset + n < r.sorter.queued[r.sorter.readPosition].End() {
        ReadPart(r, n);
      } else {
        ReadRoundStops(r, n);
      }
    }
  }

  lemma {:induction false} ReadRoundStops(r: Reader, n: nat)
    requires ReaderValid(r) && n != 0 && r.sorter.readPosition in r.sorter.queued
    requires r.sorter.queued[r.sorter.readPosition].End() <= r.readOffset + n
    ensures Positioned(r)
    ensures var (r', data, status) := ReadLoop(r, n);
            ReadStops(r, n, r', data, status)
    decreases n, |r.sorter.queued|, 0
  {
    var fin, data, r2 := ReadRound(r, n);
    if fin {
      ReadFin(r, n, r2, data);
    } else {
      ReadLoopStops(r2, n - |data|);
      var (r3, rest, status) := ReadLoop(r2, n - |data|);
      ReadMore(r, n, r2, r3, data, rest, status);
    }
  }

  lemma ReadStarved(r: Reader, n: nat)
    requires ReaderValid(r) && r.sorter.readPosition !in r.sorter.queued
    ensures ReadStops(r, n, r, [], Starved)
  {
    NextByteQueued(r.sorter);
  }

  lemma ReadPart(r: Reader, n: nat)
    requires ReaderValid(r) && r.sorter.readPosition in r.sorter.queued
    requires r.readOffset + n < r.sorter.queued[r.sorter.readPosition].End()
    ensures var f := r.sorter.queued[r.sorter.readPosition];
            var pos := r.readOffset - f.offset;
            0 <= pos && ReadStops(r, n, r.(readOffset := r.readOffset + n), f.data[pos..pos + n], Full)
  {
  }

  lemma ReadFin(r: Reader, n: nat, r2: Reader, data: seq<Byte>)
    requires ReaderValid(r2) && r2.sorter.gaps == r.sorter.gaps
    requires |data| <= n && r2.readOffset == r.readOffset + |data|
    ensures ReadStops(r, n, r2.(finishedReading := true), data, Eof)
  {
  }

  lemma ReadMore(r: Reader, n: nat, r2: Reader, r3: Reader, data: seq<Byte>, rest: seq<Byte>, status: ReadStatus)
    requires |data| <= n && r2.readOffset == r.readOffset + |data|
    requires r2.sorter.gaps == r.sorter.gaps && r2.finishedReading == r.finishedReading
    requires ReadStops(r2, n - |data|, r3, rest, status)
    ensures ReadStops(r, n, r3, data + rest, status)
  {
  }

  /** One round of the loop that reads the first frame to its end. */
  lemma ReadRound(r: Reader, n: nat) returns (fin: bool, data: seq<Byte>, r2: Reader)
    requires ReaderValid(r) && n != 0 && r.sorter.readPosition in r.sorter.queued
    requires r.sorter.queued[r.sorter.readPosition].End() <= r.readOffset + n
    ensures Positioned(r) && Positioned(r2) && |r2.sorter.queued| < |r.sorter.queued|
    ensures ReaderValid(r2) && r2.sorter.gaps == r.sorter.gaps && r2.finishedReading == r.finishedReading
    ensures |data| <= n && r2.readOffset == r.readOffset + |data|
    ensures fin ==> ReadLoop(r, n) == (r2.(finishedReading := true), data, Eof)
    ensures !fin ==> var (r3, rest, status) := ReadLoop(r2, n - |data|);
                     ReadLoop(r, n) == (r3, data + rest, status)
    ensures var f := r.sorter.queued[r.sorter.readPosition];
            && f.offset <= r.readOffset <= f.End() && data == f.data[r.readOffset - f.offset..] && fin == f.fin
            && r2.sorter.queued == r.sorter.queued - {f.offset}
  {
    var f := r.sorter.queued[r.sorter.readPosition];
    AfterFrameValid(r);
    ReadLoopUnfold(r, n);
    fin, data, r2 := f.fin, f.data[r.readOffset - f.offset..], AfterFrame(r);
  }

  // ---- Content ----

  /** The bytes taken out of a frame of the stream are bytes of the stream. */
  lemma FrameBytes(stream: seq<Byte>, f: StreamFrame, from: nat, to: nat)
    requires Carries(stream, f) && f.offset <= from <= to <= f.End()
    ensures f.data[from - f.offset..to - f.offset] == stream[from..to]
  {
    SliceOfSlice(stream, f.offset, f.End(), from, to);
  }

  /** Read returned the bytes of the stream that follow the read offset, and the queue is as faithful as before. */
  ghost predicate ReadBytes(stream: seq<Byte>, r: Reader, r': Reader, data: seq<Byte>) {
    && r.readOffset <= r'.readOffset <= |stream|
    && data == stream[r.readOffset..r'.readOffset]
    && Faithful(stream, r'.sorter.queued)
  }

  /** Read returns the next bytes of the stream and nothing else. */
  lemma {:induction false} ReadLoopBytes(stream: seq<Byte>, r: Reader, n: nat)
    requires ReaderValid(r) && Faithful(stream, r.sorter.queued) && r.readOffset <= |stream|
    ensures Positioned(r)
    ensures var (r', data, _) := ReadLoop(r, n);
            ReadBytes(stream, r, r', data)
    decreases n, |r.sorter.queued|
  {
    if n != 0 && r.sorter.readPosition in r.sorter.queued {
      if r.readOffset + n < r.sorter.queued[r.sorter.readPosition].End() {
        var f := r.sorter.queued[r.sorter.readPosition];
        FrameBytes(stream, f, r.readOffset, r.readOffset + n);
      } else {
        ReadRoundBytes(stream, r, n);
      }
    }
  }

  lemma {:induction false} ReadRoundBytes(stream: seq<Byte>, r: Reader, n: nat)
    requires ReaderValid(r) && Faithful(stream, r.sorter.queued) && r.readOffset <= |stream|
    requires n != 0 && r.sorter.readPosition in r.sorter.queued
    requires r.sorter.queued[r.sorter.readPosition].End() <= r.readOffset + n
    ensures Positioned(r)
    ensures var (r', data, _) := ReadLoop(r, n);
            ReadBytes(stream, r, r', data)
    decreases n, |r.sorter.queued|, 0
  {
    hide ReadLoop;
    var fin, data, r2 := ReadRound(r, n);
    RoundBytes(stream, r, r2, data);
    if fin {
      BytesDone(stream, r, r2, data);
    } else {
      ReadLoopBytes(stream, r2, n - |data|);
      var (r3, rest, _) := ReadLoop(r2, n - |data|);
      BytesMore(stream, r, r2, r3, data, rest);
    }
  }

  lemma BytesDone(stream: seq<Byte>, r: Reader, r2: Reader, data: seq<Byte>)
    requires ReadBytes(stream, r, r2, data)
    ensures ReadBytes(stream, r, r2.(finishedReading := true), data)
  {
  }

  lemma BytesMore(stream: seq<Byte>, r: Reader, r2: Reader, r3: Reader, data: seq<Byte>, rest: seq<Byte>)
    requires ReadBytes(stream, r, r2, data) && ReadBytes(stream, r2, r3, rest)
    ensures ReadBytes(stream, r, r3, data + rest)
  {
    SliceJoin(stream, r.readOffset, r2.readOffset, r3.readOffset);
  }

  lemma RoundBytes(stream: seq<Byte>, r: Reader, r2: Reader, data: seq<Byte>)
    requires Faithful(stream, r.sorter.queued) && r.sorter.readPosition in r.sorter.queued
    requires var f := r.sorter.queued[r.sorter.readPosition];
             && f.offset <= r.readOffset <= f.End() && data == f.data[r.readOffset - f.offset..]
             && r2.readOffset == r.readOffset + |data|
             && r2.sorter.queued == r.sorter.queued - {f.offset}
    ensures ReadBytes(stream, r, r2, data)
  {
    var f := r.sorter.queued[r.sorter.readPosition];
    assert Carries(stream, f);
    assert data == f.data[r.readOffset - f.offset..f.End() - f.offset];
    FrameBytes(stream, f, r.readOffset, f.End());
  }

  // ---- Arriving frames ----

  /** Storing a frame leaves the frame at the read position alone. */
  lemma StoredKeepsHead(s: Sorter, start: nat, end: nat, i: nat, j: nat, piece: StreamFrame)
    requires Valid(s) && Spot(s.gaps, start, end, i, j, piece.offset, piece.End())
    requires s.readPosition < s.gaps[0].start
    ensures s.readPosition in s.queued && s.readPosition in StoredQueue(s, i, j, piece)
    ensures StoredQueue(s, i, j, piece)[s.readPosition] == s.queued[s.readPosition]
  {
    NextByteQueued(s);
  }

  lemma InsertKeepsHead(s: Sorter, f: StreamFrame)
    requires Valid(s) && 0 < |f.data| && f.End() < MAX_BYTE_COUNT
    requires forall k :: 0 <= k < |s.gaps| ==> f.offset != s.gaps[k].end
    requires s.readPosition < s.gaps[0].start && Insert(s, f).1 == Ok
    ensures var s' := Insert(s, f).0;
            && s'.readPosition == s.readPosition && s.readPosition in s.queued && s.readPosition in s'.queued
            && s'.queued[s.readPosition] == s.queued[s.readPosition]
  {
    InsertSpot(s.gaps, f.offset, f.End());
    FirstGapReaches(s.gaps, f.offset, f.End());
    var i := FirstGap(s.gaps, f.offset, f.End(), 0).index;
    PieceBounds(s.gaps, f, i);
    InsertAtShape(s, f, i);
    StoredKeepsHead(s, f.offset, f.End(), i, LastGap(s.gaps, f.End(), i), Piece(s.gaps, f, i));
  }

  lemma PushKeepsHead(s: Sorter, f: StreamFrame)
    requires Valid(s) && 0 < |f.data| && f.End() < MAX_BYTE_COUNT
    requires s.readPosition < s.gaps[0].start && Push(s, f).1 == Ok
    ensures var s' := Push(s, f).0;
            && s'.readPosition == s.readPosition && s.readPosition in s.queued && s.readPosition in s'.queued
            && s'.queued[s.readPosition] == s.queued[s.readPosition]
  {
    var g := Remainder(s, f);
    assert Push(s, f) == Insert(s, g);
    LinkedAnchored(s);
    forall k | 0 <= k < |s.gaps|
      ensures g.offset != s.gaps[k].end
    {
      StartsOffGapEnd(s, f, k);
    }
    InsertKeepsHead(s, g);
  }

  /** The frame at the read position is needed as long as it carries data. */
  lemma HeadIsLive(s: Sorter)
    requires Valid(s) && s.readPosition < s.gaps[0].start
    ensures Live(s, s.readPosition)
  {
    NextByteQueued(s);
    assert Passes(s.queued, SegmentStart(s, 0), s.gaps[0].start, s.readPosition);
  }

  /** A reader in the middle of a frame has data in front of the first gap. */
  lemma MiddleOfFrame(r: Reader)
    requires ReaderValid(r) && r.sorter.readPosition < r.readOffset
    ensures r.sorter.readPosition < r.sorter.gaps[0].start
  {
    NextByteQueued(r.sorter);
    if r.sorter.readPosition == r.sorter.gaps[0].start {
      HeadAtGap(r.sorter);
    }
  }

  /** An arriving frame never disturbs a reader, unless it is an empty one that replaces needed data. */
  lemma PushReader(r: Reader, f: StreamFrame)
    requires ReaderValid(r) && f.End() <= MAX_BYTE_COUNT
    requires |f.data| == 0 ==> !Live(r.sorter, f.offset)
    requires Push(r.sorter, f).1 in {Ok, Duplicate}
    ensures ReaderValid(r.(sorter := Push(r.sorter, f).0))
  {
    PushCorrect(r.sorter, f);
    if |f.data| == 0 {
      PushEmptyFinReader(r, f);
    } else if Push(r.sorter, f).1 == Ok && r.sorter.readPosition < r.readOffset {
      MiddleOfFrame(r);
      PushKeepsHead(r.sorter, f);
    }
  }

  lemma PushEmptyFinReader(r: Reader, f: StreamFrame)
    requires ReaderValid(r) && |f.data| == 0 && f.fin
    requires !Live(r.sorter, f.offset)
    ensures ReaderValid(r.(sorter := Push(r.sorter, f).0))
  {
    PushEmptyFin(r.sorter, f);
    if r.sorter.readPosition < r.readOffset {
      MiddleOfFrame(r);
      HeadIsLive(r.sorter);
    }
  }

  // ---- End of the stream ----

  /** FIN is only queued on frames that end at the given offset. */
  ghost predicate FinPlaced(end: nat, queued: map<nat, StreamFrame>) {
    forall o :: o in queued && queued[o].fin ==> queued[o].End() == end
  }

  /** The stored piece ends where the frame ends if and only if the frame's last byte was missing. */
  lemma PieceEnd(gaps: seq<Interval>, start: nat, end: nat, i: nat, j: nat, a: nat, b: nat)
    requires WellFormed(gaps) && Spot(gaps, start, end, i, j, a, b)
    ensures b == end <==> Missing(gaps, end - 1)
  {
    if b == end {
      assert gaps[j].start <= end - 1 < gaps[j].end;
    }
    if Missing(gaps, end - 1) {
      var k :| 0 <= k < |gaps| && gaps[k].start <= end - 1 < gaps[k].end;
      assert k == j;
    }
  }

  /** What inserting adds to the queue: one frame with the FIN bit of the frame, which ends where that frame ends if
      and only if its last byte was missing. */
  lemma InsertFin(s: Sorter, f: StreamFrame) returns (piece: StreamFrame)
    requires Valid(s) && 0 < |f.data| && f.End() < MAX_BYTE_COUNT
    requires forall k :: 0 <= k < |s.gaps| ==> f.offset != s.gaps[k].end
    requires Insert(s, f).1 == Ok
    ensures piece.fin == f.fin && (piece.End() == f.End() <==> Missing(s.gaps, f.End() - 1))
    ensures var queued := Insert(s, f).0.queued;
            && piece.offset in queued && queued[piece.offset] == piece
            && (forall o :: o in queued && o != piece.offset ==> o in s.queued && queued[o] == s.queued[o])
  {
    hide Insert, Linked, FramesArrived, Fill, Missing;
    var i, j;
    i, j, piece := InsertStored(s, f);
    PieceEnd(s.gaps, f.offset, f.End(), i, j, piece.offset, piece.End());
    hide Spot, WellFormed;
  }

  lemma PushFin(s: Sorter, f: StreamFrame) returns (piece: StreamFrame)
    requires Valid(s) && 0 < |f.data| && f.End() < MAX_BYTE_COUNT && Push(s, f).1 == Ok
    ensures piece.fin == f.fin && (piece.End() == f.End() <==> Missing(s.gaps, f.End() - 1))
    ensures var queued := Push(s, f).0.queued;
            && piece.offset in queued && queued[piece.offset] == piece
            && (forall o :: o in queued && o != piece.offset ==> o in s.queued && queued[o] == s.queued[o])
  {
    var g := Remainder(s, f);
    assert Push(s, f) == Insert(s, g);
    LinkedAnchored(s);
    forall k | 0 <= k < |s.gaps|
      ensures g.offset != s.gaps[k].end
    {
      StartsOffGapEnd(s, f, k);
    }
    piece := InsertFin(s, g);
  }

  /** Read only takes frames out of the queue, and reports the end of the stream only after a frame with FIN. */
  lemma {:induction false} ReadLoopFin(r: Reader, n: nat)
    requires ReaderValid(r)
    ensures Positioned(r)
    ensures var (r', _, status) := ReadLoop(r, n);
            && (forall o :: o in r'.sorter.queued ==> o in r.sorter.queued && r'.sorter.queued[o] == r.sorter.queued[o])
            && (status == Eof ==> exists o :: o in r.sorter.queued && r.sorter.queued[o].fin)
    decreases n, |r.sorter.queued|
  {
    if n != 0 && r.sorter.readPosition in r.sorter.queued {
      if r.sorter.queued[r.sorter.readPosition].End() <= r.readOffset + n {
        ReadRoundFin(r, n);
      }
    }
  }

  lemma {:induction false} ReadRoundFin(r: Reader, n: nat)
    requires ReaderValid(r) && n != 0 && r.sorter.readPosition in r.sorter.queued
    requires r.sorter.queued[r.sorter.readPosition].End() <= r.readOffset + n
    ensures Positioned(r)
    ensures var (r', _, status) := ReadLoop(r, n);
            && (forall o :: o in r'.sorter.queued ==> o in r.sorter.queued && r'.sorter.queued[o] == r.sorter.queued[o])
            && (status == Eof ==> exists o :: o in r.sorter.queued && r.sorter.queued[o].fin)
    decreases n, |r.sorter.queued|, 0
  {
    hide ReadLoop;
    var fin, data, r2 := ReadRound(r, n);
    if fin {
      assert r.sorter.queued[r.sorter.readPosition].fin;
    } else {
      ReadLoopFin(r2, n - |data|);
    }
  }

  /** Then Read reports the end of the stream only there. */
  lemma {:induction false} ReadLoopEof(end: nat, r: Reader, n: nat)
    requires ReaderValid(r) && FinPlaced(end, r.sorter.queued)
    ensures Positioned(r)
    ensures var (r', _, status) := ReadLoop(r, n);
            FinPlaced(end, r'.sorter.queued) && (status == Eof ==> r'.readOffset == end)
    decreases n, |r.sorter.queued|
  {
    if n != 0 && r.sorter.readPosition in r.sorter.queued {
      if r.sorter.queued[r.sorter.readPosition].End() <= r.readOffset + n {
        ReadRoundEof(end, r, n);
      }
    }
  }

  lemma {:induction false} ReadRoundEof(end: nat, r: Reader, n: nat)
    requires ReaderValid(r) && FinPlaced(end, r.sorter.queued)
    requires n != 0 && r.sorter.readPosition in r.sorter.queued
    requires r.sorter.queued[r.sorter.readPosition].End() <= r.readOffset + n
    ensures Positioned(r)
    ensures var (r', _, status) := ReadLoop(r, n);
            FinPlaced(end, r'.sorter.queued) && (status == Eof ==> r'.readOffset == end)
    decreases n, |r.sorter.queued|, 0
  {
    hide ReadLoop;
    var fin, data, r2 := ReadRound(r, n);
    RoundFin(end, r, r2);
    if !fin {
      ReadLoopEof(end, r2, n - |data|);
    }
  }

  lemma RoundFin(end: nat, r: Reader, r2: Reader)
    requires FinPlaced(end, r.sorter.queued) && r.sorter.readPosition in r.sorter.queued
    requires var f := r.sorter.queued[r.sorter.readPosition];
             r2.sorter.queued == r.sorter.queued - {f.offset}
    ensures FinPlaced(end, r2.sorter.queued)
    ensures r.sorter.queued[r.sorter.readPosition].fin ==> r.sorter.queued[r.sorter.readPosition].End() == end
  {
  }
}

/** Composing packets (pstream/packet_packer.go) and popping fresh frames for them (pstream/stream_framer.go) as
    functions. */
module PackerSpec {

  import opened Wire
  import opened FramerSpec
  import opened StreamSpec
  import FC = FlowControlSpec
  import Sending = StreamSchedulerSpec

  // ---- Fresh frames ----

  /** The streams in the order in which they are visited, and what popping from them produced so far. */
  datatype Progress = Progress(
    streams: seq<Sender>, manager: FC.Manager, frames: seq<StreamFrame>, blocked: seq<nat>, length: nat, stopped: bool)

  function HeaderLength(s: Sender): nat {
    StreamFrame(s.id, false, true, s.writeOffset, []).MinLength()
  }

  /** Nothing was taken from the stream. */
  function Passed(s: Sender, m: FC.Manager): Sending.Sent {
    Sending.Sent(s, m, None, [])
  }

  /** What one visit takes, with length bytes used before. A stream with data may be passed over, because its share of
      the path is used up. */
  function Take(s: Sender, m: FC.Manager, permitted: bool, cfg: FC.Config, maxBytes: nat, length: nat): Sending.Sent {
    if s.id == 1 || length + HeaderLength(s) > maxBytes || (s.pending != [] && !permitted) then Passed(s, m)
    else Sending.SendFrame(s, m, cfg, maxBytes - length)
  }

  /** Whether a visit is the last one: the next header does not fit, or the room is used up. */
  predicate Stops(s: Sender, r: Sending.Sent, maxBytes: nat, length: nat) {
    && s.id != 1
    && (|| length + HeaderLength(s) > maxBytes
        || (r.frame.Some? && length + r.frame.value.EncodedLength() == maxBytes))
  }

  function VisitStream(p: Progress, i: nat, permitted: bool, cfg: FC.Config, maxBytes: nat): Progress
    requires i < |p.streams|
  {
    if p.stopped then p
    else
      var s := p.streams[i];
      var r := Take(s, p.manager, permitted, cfg, maxBytes, p.length);
      Progress(p.streams[i := r.stream], r.manager,
               if r.frame.Some? then p.frames + [r.frame.value] else p.frames,
               p.blocked + r.blocked,
               if r.frame.Some? then p.length + r.frame.value.EncodedLength() else p.length,
               Stops(s, r, maxBytes, p.length))
  }

  /** The frames fill the length that was counted, with their length fields, and stay within the limit. */
  ghost predicate Fits(p: Progress, maxBytes: nat) {
    && p.length == TotalLength(p.frames) <= maxBytes
    && (forall f :: f in p.frames ==> f.dataLenPresent && f.streamID != 1)
  }

  lemma {:induction false} TotalAppend(a: seq<StreamFrame>, b: seq<StreamFrame>)
    ensures TotalLength(a + b) == TotalLength(a) + TotalLength(b)
    decreases |a|
  {
    if a == [] {
      assert a + b == b;
    } else {
      TotalAppend(a[1..], b);
      assert (a + b)[1..] == a[1..] + b;
    }
  }

  lemma TotalOne(f: StreamFrame)
    ensures TotalLength([f]) == f.EncodedLength()
  {
    assert [f][1..] == [];
  }

  lemma VisitFits(p: Progress, i: nat, permitted: bool, cfg: FC.Config, maxBytes: nat)
    requires i < |p.streams| && Fits(p, maxBytes)
    ensures Fits(VisitStream(p, i, permitted, cfg, maxBytes), maxBytes)
  {
    hide Sending.SendFrame, TotalLength;
    var s := p.streams[i];
    FrameFits(s, p.manager, cfg, maxBytes - p.length);
    var r := Take(s, p.manager, permitted, cfg, maxBytes, p.length);
    if r.frame.Some? {
      TotalAppend(p.frames, [r.frame.value]);
      TotalOne(r.frame.value);
    }
  }

  lemma FrameFits(s: Sender, m: FC.Manager, cfg: FC.Config, room: nat)
    ensures var f := Sending.SendFrame(s, m, cfg, room).frame;
            f.Some? ==> f.value.EncodedLength() <= room && f.value.dataLenPresent && f.value.streamID == s.id != 1
  {
    var window := Sending.Window(m, cfg, s.id);
    SendCorrect(s, room, window);
    SentFlags(s, room, window);
    hide Send, FC.SendBytes, FC.Sendable;
  }

  lemma SentFlags(s: Sender, maxBytes: nat, window: nat)
    ensures Send(s, maxBytes, window).1.Some? ==> Send(s, maxBytes, window).1.value.dataLenPresent
  {
  }

  /** maybePopNormalFrames: visits the first n streams. */
  function VisitStreams(p: Progress, permitted: seq<bool>, cfg: FC.Config, maxBytes: nat, n: nat): (r: Progress)
    requires n <= |p.streams| == |permitted|
    ensures |r.streams| == |p.streams|
  {
    if n == 0 then p
    else VisitStream(VisitStreams(p, permitted, cfg, maxBytes, n - 1), n - 1, permitted[n - 1], cfg, maxBytes)
  }

  /** What the visits pop fits into the room. */
  lemma {:induction false} VisitsFit(p: Progress, permitted: seq<bool>, cfg: FC.Config, maxBytes: nat, n: nat)
    requires n <= |p.streams| == |permitted| && Fits(p, maxBytes)
    ensures Fits(VisitStreams(p, permitted, cfg, maxBytes, n), maxBytes)
    decreases n
  {
    hide Fits, VisitStream;
    if n > 0 {
      VisitsFit(p, permitted, cfg, maxBytes, n - 1);
      VisitFits(VisitStreams(p, permitted, cfg, maxBytes, n - 1), n - 1, permitted[n - 1], cfg, maxBytes);
    }
  }

  /** Exactly when a visited stream contributes a frame, and how much of its data. */
  lemma TakeExactly(s: Sender, m: FC.Manager, permitted: bool, cfg: FC.Config, maxBytes: nat, length: nat)
    ensures var r, window := Take(s, m, permitted, cfg, maxBytes, length), Sending.Window(m, cfg, s.id);
            && (r.frame.Some? <==>
                  && s.id != 1 && length + HeaderLength(s) < maxBytes
                  && if s.pending != [] then permitted && window > 0 else s.finishedWriting && !s.finSent)
            && (r.frame.Some? && s.pending != [] ==>
                  |r.frame.value.data| == Min(|s.pending|, Min(maxBytes - length - HeaderLength(s), window)))
            && (r.frame.None? ==> r == Passed(s, m))
  {
    if s.id != 1 && length + HeaderLength(s) <= maxBytes {
      SendExactly(s, maxBytes - length, Sending.Window(m, cfg, s.id));
      SendCorrect(s, maxBytes - length, Sending.Window(m, cfg, s.id));
    }
    hide Send, FC.SendBytes, FC.Sendable, StreamFrame.MinLength;
  }

  /** The stream lost the data of a frame from its front, or nothing. */
  ghost predicate Gave(s: Sender, s': Sender, frames: seq<StreamFrame>) {
    s' == s ||
    exists j :: 0 <= j < |frames| && frames[j].streamID == s.id && frames[j].offset == s.writeOffset
                && frames[j].data + s'.pending == s.pending && s'.writeOffset == frames[j].End()
  }

  lemma GaveMore(s: Sender, s': Sender, frames: seq<StreamFrame>, more: seq<StreamFrame>)
    requires Gave(s, s', frames)
    ensures Gave(s, s', frames + more)
  {
    if s' != s {
      var j :| 0 <= j < |frames| && frames[j].streamID == s.id && frames[j].offset == s.writeOffset
               && frames[j].data + s'.pending == s.pending && s'.writeOffset == frames[j].End();
      assert (frames + more)[j] == frames[j];
    }
  }

  /** One visit: only the visited stream changes, and what it gave is in the frames. */
  lemma VisitGave(p: Progress, i: nat, permitted: bool, cfg: FC.Config, maxBytes: nat)
    requires i < |p.streams|
    ensures var r := VisitStream(p, i, permitted, cfg, maxBytes);
            && |r.streams| == |p.streams| && p.frames <= r.frames
            && Gave(p.streams[i], r.streams[i], r.frames)
            && (forall k :: 0 <= k < |p.streams| && k != i ==> r.streams[k] == p.streams[k])
  {
    if !p.stopped {
      var s := p.streams[i];
      var t := Take(s, p.manager, permitted, cfg, maxBytes, p.length);
      TakeExactly(s, p.manager, permitted, cfg, maxBytes, p.length);
      if t.frame.Some? {
        TookFront(s, p.manager, permitted, cfg, maxBytes, p.length);
        assert (p.frames + [t.frame.value])[|p.frames|] == t.frame.value;
      }
      hide Take;
    }
  }

  lemma TookFront(s: Sender, m: FC.Manager, permitted: bool, cfg: FC.Config, maxBytes: nat, length: nat)
    ensures var r := Take(s, m, permitted, cfg, maxBytes, length);
            r.frame.Some? ==>
              var f := r.frame.value;
              f.streamID == s.id && f.offset == s.writeOffset && f.data + r.stream.pending == s.pending
              && r.stream.writeOffset == f.End()
  {
    if s.id != 1 && length + HeaderLength(s) <= maxBytes {
      SendCorrect(s, maxBytes - length, Sending.Window(m, cfg, s.id));
    }
    hide Send, FC.SendBytes, FC.Sendable;
  }

  /** Nothing is lost between the streams and the packet: what a stream gave is in one of the frames, at its offset. */
  lemma {:induction false} VisitsGave(p: Progress, permitted: seq<bool>, cfg: FC.Config, maxBytes: nat, n: nat, k: nat)
    requires n <= |p.streams| == |permitted| && k < |p.streams|
    ensures var r := VisitStreams(p, permitted, cfg, maxBytes, n);
            && p.frames <= r.frames
            && (k >= n ==> r.streams[k] == p.streams[k])
            && Gave(p.streams[k], r.streams[k], r.frames)
    decreases n
  {
    hide VisitStream, Gave;
    if n > 0 {
      var r := VisitStreams(p, permitted, cfg, maxBytes, n - 1);
      VisitsGave(p, permitted, cfg, maxBytes, n - 1, k);
      VisitGave(r, n - 1, permitted[n - 1], cfg, maxBytes);
      var r' := VisitStream(r, n - 1, permitted[n - 1], cfg, maxBytes);
      if k != n - 1 {
        assert r'.frames == r.frames + r'.frames[|r.frames|..];
        GaveMore(p.streams[k], r.streams[k], r.frames, r'.frames[|r.frames|..]);
      }
    } else {
      GaveNothing(p.streams[k], p.frames);
    }
  }

  lemma GaveNothing(s: Sender, frames: seq<StreamFrame>)
    ensures Gave(s, s, frames)
  {
  }

  /** The stream gave data, or its window is used up, or the room is. */
  predicate Served(s: Sender, s': Sender, p: Progress, cfg: FC.Config, maxBytes: nat) {
    || |s'.pending| < |s.pending|
    || Sending.Window(p.manager, cfg, s.id) == 0
    || p.length + HeaderLength(s) >= maxBytes
  }

  /** Windows and room only shrink. */
  lemma VisitShrinks(p: Progress, i: nat, permitted: bool, cfg: FC.Config, maxBytes: nat, id: nat)
    requires i < |p.streams|
    ensures var r := VisitStream(p, i, permitted, cfg, maxBytes);
            && r.length >= p.length && (p.stopped ==> r.stopped)
            && Sending.Window(r.manager, cfg, id) <= Sending.Window(p.manager, cfg, id)
  {
    if !p.stopped {
      TakeShrinks(p.streams[i], p.manager, permitted, cfg, maxBytes, p.length, id);
      hide Take, Sending.Window;
    }
  }

  lemma TakeShrinks(s: Sender, m: FC.Manager, permitted: bool, cfg: FC.Config, maxBytes: nat, length: nat, id: nat)
    ensures var r := Take(s, m, permitted, cfg, maxBytes, length);
            Sending.Window(r.manager, cfg, id) <= Sending.Window(m, cfg, id)
  {
    hide Send, StreamFrame.MinLength;
  }

  /** The visit of a stream that has data and may send. */
  lemma VisitServes(p: Progress, i: nat, cfg: FC.Config, maxBytes: nat)
    requires i < |p.streams| && !p.stopped && p.streams[i].id != 1 && p.streams[i].pending != []
    ensures var r := VisitStream(p, i, true, cfg, maxBytes);
            |r.streams| == |p.streams| && Served(p.streams[i], r.streams[i], r, cfg, maxBytes)
  {
    var s := p.streams[i];
    TakeExactly(s, p.manager, true, cfg, maxBytes, p.length);
    TookFront(s, p.manager, true, cfg, maxBytes, p.length);
    hide Take, Sending.Window, HeaderLength;
  }

  /** If the visits were not stopped for lack of room, every stream that had data and was permitted gave some, or its
      window is used up, or its header does not leave room for a byte. */
  lemma {:induction false} VisitsServe(p: Progress, permitted: seq<bool>, cfg: FC.Config, maxBytes: nat, n: nat, k: nat)
    requires k < n <= |p.streams| == |permitted| && !p.stopped
    requires p.streams[k].id != 1 && p.streams[k].pending != [] && permitted[k]
    ensures var r := VisitStreams(p, permitted, cfg, maxBytes, n);
            r.stopped || Served(p.streams[k], r.streams[k], r, cfg, maxBytes)
    decreases n
  {
    hide VisitStream, Gave, Served;
    var before := VisitStreams(p, permitted, cfg, maxBytes, n - 1);
    var after := VisitStream(before, n - 1, permitted[n - 1], cfg, maxBytes);
    VisitShrinks(before, n - 1, permitted[n - 1], cfg, maxBytes, p.streams[k].id);
    VisitGave(before, n - 1, permitted[n - 1], cfg, maxBytes);
    if k == n - 1 {
      VisitsGave(p, permitted, cfg, maxBytes, n - 1, k);
      if !before.stopped {
        VisitServes(before, k, cfg, maxBytes);
      }
    } else {
      VisitsServe(p, permitted, cfg, maxBytes, n - 1, k);
      if !before.stopped {
        ServedKept(p.streams[k], before.streams[k], before, after, cfg, maxBytes);
      }
    }
  }

  lemma ServedKept(s: Sender, s': Sender, p: Progress, p': Progress, cfg: FC.Config, maxBytes: nat)
    requires Served(s, s', p, cfg, maxBytes) && p'.length >= p.length
    requires Sending.Window(p'.manager, cfg, s.id) <= Sending.Window(p.manager, cfg, s.id)
    ensures Served(s, s', p', cfg, maxBytes)
  {
    hide Sending.Window, HeaderLength;
  }

  /** The state after all visits. */
  ghost predicate Visited(start: Progress, permitted: seq<bool>, cfg: FC.Config, maxBytes: nat, r: Progress) {
    |start.streams| == |permitted| && r == VisitStreams(start, permitted, cfg, maxBytes, |permitted|)
  }

  lemma VisitedFits(start: Progress, permitted: seq<bool>, cfg: FC.Config, maxBytes: nat, r: Progress)
    requires Visited(start, permitted, cfg, maxBytes, r) && start.frames == [] && start.length == 0
    ensures Fits(r, maxBytes)
  {
    VisitsFit(start, permitted, cfg, maxBytes, |permitted|);
  }

  // ---- Control frames ----

  /** A frame of a packet; for all but STREAM frames only the encoded length matters. */
  datatype Payload =
    StopWaiting(length: nat) | Ack(length: nat) | Control(tag: nat, length: nat) | Stream(frame: StreamFrame)

  function Length(f: Payload): nat {
    if f.Stream? then f.frame.EncodedLength() else f.length
  }

  function PayloadLength(fs: seq<Payload>): nat {
    if fs == [] then 0 else PayloadLength(fs[..|fs| - 1]) + Length(fs[|fs| - 1])
  }

  datatype Taken = Taken(frames: seq<Payload>, left: seq<Payload>, length: nat)

  /** Takes control frames from the back of the queue while they fit. */
  function TakeControl(t: Taken, maxSize: nat): Taken
    decreases |t.left|
  {
    if t.left == [] then t
    else
      var f := t.left[|t.left| - 1];
      if t.length + Length(f) > maxSize then t
      else TakeControl(Taken(t.frames + [f], t.left[..|t.left| - 1], t.length + Length(f)), maxSize)
  }

  /** STOP_WAITING and ACK come first and are not measured against the limit. */
  function Fixed(stopWaiting: Option<nat>, ack: Option<nat>): seq<Payload> {
    (if stopWaiting.Some? then [StopWaiting(stopWaiting.value)] else [])
    + (if ack.Some? then [Ack(ack.value)] else [])
  }

  lemma {:induction false} PayloadAppend(a: seq<Payload>, b: seq<Payload>)
    ensures PayloadLength(a + b) == PayloadLength(a) + PayloadLength(b)
    decreases |b|
  {
    if b == [] {
      assert a + b == a;
    } else {
      var n := |b| - 1;
      assert (a + b)[..|a + b| - 1] == a + b[..n];
      PayloadAppend(a, b[..n]);
    }
  }

  lemma PayloadOne(f: Payload)
    ensures PayloadLength([f]) == Length(f)
  {
    assert [f][..0] == [];
  }

  /** The length is counted right, and the queue is what is left and what was taken, so no control frame is lost. */
  ghost predicate TakenFrom(t: Taken, queue: seq<Payload>, fixed: seq<Payload>) {
    && t.length == PayloadLength(t.frames) && fixed <= t.frames
    && queue == t.left + Reversed(t.frames[|fixed|..])
  }

  lemma TakeOne(t: Taken, queue: seq<Payload>, fixed: seq<Payload>)
    requires TakenFrom(t, queue, fixed) && t.left != []
    ensures var f := t.left[|t.left| - 1];
            TakenFrom(Taken(t.frames + [f], t.left[..|t.left| - 1], t.length + Length(f)), queue, fixed)
  {
    hide PayloadLength, Reversed, Length;
    var n := |t.left| - 1;
    var f := t.left[n];
    PayloadAppend(t.frames, [f]);
    PayloadOne(f);
    var back := t.frames[|fixed|..];
    ReversedAppend(back, f);
    assert (t.frames + [f])[|fixed|..] == back + [f];
    assert t.left == t.left[..n] + [f];
    Assoc(t.left[..n], [f], Reversed(back));
  }

  lemma {:induction false} TakeControlCorrect(t: Taken, maxSize: nat, queue: seq<Payload>, fixed: seq<Payload>)
    requires TakenFrom(t, queue, fixed)
    ensures var r := TakeControl(t, maxSize);
            && TakenFrom(r, queue, fixed)
            && (t.length <= maxSize ==> r.length <= maxSize)
            && (t.length > maxSize ==> r == t)
            && (r.left != [] ==> r.length + Length(r.left[|r.left| - 1]) > maxSize)
    decreases |t.left|
  {
    hide TakenFrom, Length;
    if t.left != [] {
      var n := |t.left| - 1;
      var f := t.left[n];
      if t.length + Length(f) <= maxSize {
        TakeOne(t, queue, fixed);
        TakeControlCorrect(Taken(t.frames + [f], t.left[..n], t.length + Length(f)), maxSize, queue, fixed);
      }
    }
  }

  lemma ReversedAppend<T>(s: seq<T>, x: T)
    ensures Reversed(s + [x]) == [x] + Reversed(s)
  {
    assert (s + [x])[..|s|] == s;
  }

  /** The length of a BLOCKED frame. */
  const BLOCKED_LENGTH: nat := 5

  function BlockedFrames(ids: seq<nat>): seq<Payload> {
    seq(|ids|, i requires 0 <= i < |ids| => Control(ids[i], BLOCKED_LENGTH))
  }

  // ---- Packets ----

  /** Whose frames a packet takes: those of all streams, or those of some streams; only in the second case the limit is
      raised by the two bytes that the last frame saves. */
  function Extra(sel: Selection): nat {
    if sel.AllStreams? then 0 else 2
  }

  function DropLastLength(fs: seq<StreamFrame>): seq<StreamFrame> {
    if fs == [] then fs else fs[|fs| - 1 := fs[|fs| - 1].(dataLenPresent := false)]
  }

  function AsPayload(fs: seq<StreamFrame>): seq<Payload> {
    seq(|fs|, i requires 0 <= i < |fs| => Stream(fs[i]))
  }

  lemma {:induction false} AsPayloadLength(fs: seq<StreamFrame>)
    ensures PayloadLength(AsPayload(fs)) == TotalLength(fs)
    decreases |fs|
  {
    if fs != [] {
      var n := |fs| - 1;
      AsPayloadLength(fs[..n]);
      assert fs == fs[..n] + [fs[n]];
      TotalAppend(fs[..n], [fs[n]]);
      TotalOne(fs[n]);
      assert AsPayload(fs)[..n] == AsPayload(fs[..n]);
    }
  }

  /** Without its length field the last frame is two bytes shorter. */
  lemma DropSaves(fs: seq<StreamFrame>)
    requires fs != [] && fs[|fs| - 1].dataLenPresent
    ensures TotalLength(DropLastLength(fs)) + 2 == TotalLength(fs)
  {
    var n := |fs| - 1;
    var f := fs[n].(dataLenPresent := false);
    assert fs == fs[..n] + [fs[n]];
    assert DropLastLength(fs) == fs[..n] + [f];
    TotalAppend(fs[..n], [fs[n]]);
    TotalAppend(fs[..n], [f]);
    TotalOne(fs[n]);
    TotalOne(f);
  }

  /** The STREAM frames of a packet: retransmissions first, then fresh data in the room that is left. */
  ghost predicate StreamFramesFrom(queue: seq<StreamFrame>, sel: Selection, room: nat,
                                   popped: Popped, normal: Progress) {
    popped == Pop(queue, sel, room, 0) && popped.length <= room && Fits(normal, room - popped.length)
  }

  /** An empty pop takes no length, so the room that is left never wraps around below zero. */
  lemma RoomLeft(queue: seq<StreamFrame>, sel: Selection, room: nat)
    ensures Pop(queue, sel, room, 0).length <= room
    ensures Pop(queue, sel, room, 0).length == TotalLength(Pop(queue, sel, room, 0).frames)
  {
    PopLength(queue, sel, room, 0);
  }

  /** The STREAM frames take at most the room, less the two bytes that the last frame saves. */
  lemma StreamFramesFit(queue: seq<StreamFrame>, sel: Selection, room: nat, popped: Popped, normal: Progress)
    requires StreamFramesFrom(queue, sel, room, popped, normal)
    ensures var fs := popped.frames + normal.frames;
            if fs == [] then TotalLength(DropLastLength(fs)) == 0 else TotalLength(DropLastLength(fs)) + 2 <= room
  {
    var fs := popped.frames + normal.frames;
    RoomLeft(queue, sel, room);
    PopFlags(queue, sel, room, 0);
    hide Pop;
    TotalAppend(popped.frames, normal.frames);
    if fs != [] {
      assert fs[|fs| - 1] in popped.frames || fs[|fs| - 1] in normal.frames;
      DropSaves(fs);
    }
  }

  /** The packet never exceeds the limit, also where the limit was raised for the STREAM frames. */
  lemma PacketFits(head: seq<Payload>, maxSize: nat, queue: seq<StreamFrame>, sel: Selection,
                   popped: Popped, normal: Progress)
    requires PayloadLength(head) <= maxSize
    requires StreamFramesFrom(queue, sel, maxSize + Extra(sel) - PayloadLength(head), popped, normal)
    ensures PayloadLength(head + AsPayload(DropLastLength(popped.frames + normal.frames))) <= maxSize
  {
    hide PayloadLength, TotalLength, AsPayload;
    var fs := DropLastLength(popped.frames + normal.frames);
    StreamFramesFit(queue, sel, maxSize + Extra(sel) - PayloadLength(head), popped, normal);
    AsPayloadLength(fs);
    PayloadAppend(head, AsPayload(fs));
  }

  /** The pass ends before the last stream only if the room is used up or cannot take the header of a stream. */
  lemma {:induction false} VisitsStop(p: Progress, permitted: seq<bool>, cfg: FC.Config, maxBytes: nat, n: nat)
    requires n <= |p.streams| == |permitted| && !p.stopped
    ensures var r := VisitStreams(p, permitted, cfg, maxBytes, n);
            r.stopped ==> Full(p.streams[..n], r.length, maxBytes)
    decreases n
  {
    if n > 0 {
      VisitsStop(p, permitted, cfg, maxBytes, n - 1);
      StopsNext(p, permitted, cfg, maxBytes, n);
    }
  }

  lemma StopsNext(p: Progress, permitted: seq<bool>, cfg: FC.Config, maxBytes: nat, n: nat)
    requires 0 < n <= |p.streams| == |permitted|
    requires var q := VisitStreams(p, permitted, cfg, maxBytes, n - 1);
             q.stopped ==> Full(p.streams[..n - 1], q.length, maxBytes)
    ensures var r := VisitStreams(p, permitted, cfg, maxBytes, n);
            r.stopped ==> Full(p.streams[..n], r.length, maxBytes)
  {
    hide HeaderLength, VisitStream, VisitStreams, Full;
    VisitsBehind(p, permitted, cfg, maxBytes, n - 1);
    VisitStops(VisitStreams(p, permitted, cfg, maxBytes, n - 1), n - 1, permitted[n - 1], cfg, maxBytes);
    VisitsStep(p, permitted, cfg, maxBytes, n);
    var r := VisitStreams(p, permitted, cfg, maxBytes, n);
    if r.stopped {
      FullMore(p.streams, n, r.length, maxBytes);
    }
  }

  lemma {:induction false} VisitsBehind(p: Progress, permitted: seq<bool>, cfg: FC.Config, maxBytes: nat, n: nat)
    requires n < |p.streams| == |permitted|
    ensures VisitStreams(p, permitted, cfg, maxBytes, n).streams[n..] == p.streams[n..]
    ensures VisitStreams(p, permitted, cfg, maxBytes, n).streams[n] == p.streams[n]
    decreases n
  {
    hide Take, Stops;
    if n > 0 {
      VisitsBehind(p, permitted, cfg, maxBytes, n - 1);
      var q := VisitStreams(p, permitted, cfg, maxBytes, n - 1);
      assert q.streams[n..] == q.streams[n - 1..][1..] && p.streams[n..] == p.streams[n - 1..][1..];
    }
  }

  /** The room is used up, or cannot take the header of one of these streams. */
  predicate Full(streams: seq<Sender>, length: nat, maxBytes: nat) {
    length == maxBytes || exists s :: s in streams && s.id != 1 && length + HeaderLength(s) > maxBytes
  }

  lemma FullMore(streams: seq<Sender>, n: nat, length: nat, maxBytes: nat)
    requires 0 < n <= |streams|
    requires || Full(streams[..n - 1], length, maxBytes)
             || length == maxBytes
             || (streams[n - 1].id != 1 && length + HeaderLength(streams[n - 1]) > maxBytes)
    ensures Full(streams[..n], length, maxBytes)
  {
    hide HeaderLength;
    assert streams[..n] == streams[..n - 1] + [streams[n - 1]];
    assert streams[n - 1] in streams[..n];
  }

  lemma VisitsStep(p: Progress, permitted: seq<bool>, cfg: FC.Config, maxBytes: nat, n: nat)
    requires 0 < n <= |p.streams| == |permitted|
    ensures VisitStreams(p, permitted, cfg, maxBytes, n)
            == VisitStream(VisitStreams(p, permitted, cfg, maxBytes, n - 1), n - 1, permitted[n - 1], cfg, maxBytes)
  {
    hide VisitStream;
  }

  lemma VisitStops(p: Progress, i: nat, permitted: bool, cfg: FC.Config, maxBytes: nat)
    requires i < |p.streams|
    ensures var r := VisitStream(p, i, permitted, cfg, maxBytes);
            if p.stopped then r == p
            else r.stopped ==>
                   || r.length == maxBytes
                   || (p.streams[i].id != 1 && r.length + HeaderLength(p.streams[i]) > maxBytes)
  {
    hide HeaderLength, Sending.SendFrame;
  }

  /** A stream with enough data, and window, uses up the room. */
  lemma TakeFills(s: Sender, m: FC.Manager, cfg: FC.Config, maxBytes: nat, length: nat)
    requires s.id != 1 && length + HeaderLength(s) < maxBytes
    requires Min(|s.pending|, Sending.Window(m, cfg, s.id)) >= maxBytes - length - HeaderLength(s)
    ensures var r := Take(s, m, true, cfg, maxBytes, length);
            r.frame.Some? && length + r.frame.value.EncodedLength() == maxBytes
  {
    TakeExactly(s, m, true, cfg, maxBytes, length);
    StreamSpec.SendCorrect(s, maxBytes - length, Sending.Window(m, cfg, s.id));
    hide StreamSpec.Send, Sending.Window;
  }

  /** When the STREAM frames use up their room, a packet for a path or a stream has exactly the size of the limit, and a
      packet for all streams is two bytes short of it. */
  lemma PacketFull(head: seq<Payload>, maxSize: nat, queue: seq<StreamFrame>, sel: Selection,
                   popped: Popped, normal: Progress)
    requires PayloadLength(head) <= maxSize
    requires StreamFramesFrom(queue, sel, maxSize + Extra(sel) - PayloadLength(head), popped, normal)
    requires popped.frames + normal.frames != []
    requires popped.length + normal.length == maxSize + Extra(sel) - PayloadLength(head)
    ensures PayloadLength(head + AsPayload(DropLastLength(popped.frames + normal.frames)))
            == if sel.AllStreams? then maxSize - 2 else maxSize
  {
    hide PayloadLength, TotalLength, AsPayload;
    var room, fs := maxSize + Extra(sel) - PayloadLength(head), popped.frames + normal.frames;
    RoomLeft(queue, sel, room);
    PopFlags(queue, sel, room, 0);
    hide Pop;
    TotalAppend(popped.frames, normal.frames);
    assert fs[|fs| - 1] in popped.frames || fs[|fs| - 1] in normal.frames;
    DropSaves(fs);
    AsPayloadLength(DropLastLength(fs));
    PayloadAppend(head, AsPayload(DropLastLength(fs)));
  }
}

/** packetPacker (pstream/packet_packer.go) and the popping of STREAM frames (pstream/stream_framer.go) with the queues
    that the source shortens, proved against PackerSpec. The streams and their flow control are values here. */
module PacketPacker {

  import opened Wire
  import opened FramerSpec
  import opened StreamFramer
  import opened PackerSpec
  import FC = FlowControlSpec
  import StreamSpec

  class Packer {
    const cfg: FC.Config
    const framer: Framer
    var stopWaiting: Option<nat>
    var ackFrame: Option<nat>
    var controlFrames: seq<Payload>
    var streams: seq<StreamSpec.Sender>
    var manager: FC.Manager
    var blockedFrameQueue: seq<nat>

    constructor (cfg: FC.Config, framer: Framer)
      ensures this.cfg == cfg && this.framer == framer
      ensures stopWaiting == None && ackFrame == None && controlFrames == [] && streams == [] && blockedFrameQueue == []
      ensures manager == FC.NewManager(cfg)
    {
      this.cfg := cfg;
      this.framer := framer;
      stopWaiting, ackFrame, controlFrames := None, None, [];
      streams, manager, blockedFrameQueue := [], FC.NewManager(cfg), [];
    }

    /** Lines 476 to 506: STOP_WAITING, ACK, and the control frames that fit. */
    method TakeHead(maxFrameSize: nat) returns (frames: seq<Payload>, payloadLength: nat)
      modifies this`controlFrames
      ensures var fixed := Fixed(stopWaiting, ackFrame);
              Taken(frames, controlFrames, payloadLength)
              == TakeControl(Taken(fixed, old(controlFrames), PayloadLength(fixed)), maxFrameSize)
    {
      frames, payloadLength := [], 0;
      if stopWaiting.Some? {
        frames := frames + [StopWaiting(stopWaiting.value)];
        payloadLength := payloadLength + stopWaiting.value;
      }
      if ackFrame.Some? {
        frames := frames + [Ack(ackFrame.value)];
        payloadLength := payloadLength + ackFrame.value;
      }
      FixedLength(stopWaiting, ackFrame);
      assert frames == Fixed(stopWaiting, ackFrame);
      hide Fixed, PayloadLength, TakeControl;
      frames, payloadLength := TakeControlFrames(frames, payloadLength, maxFrameSize);
    }

    /** Lines 494 to 506. */
    method TakeControlFrames(head: seq<Payload>, length: nat, maxFrameSize: nat)
      returns (frames: seq<Payload>, payloadLength: nat)
      modifies this`controlFrames
      ensures Taken(frames, controlFrames, payloadLength)
              == TakeControl(Taken(head, old(controlFrames), length), maxFrameSize)
    {
      hide Length;
      frames, payloadLength := head, length;
      ghost var start := Taken(frames, controlFrames, payloadLength);
      while |controlFrames| > 0
        invariant TakeControl(Taken(frames, controlFrames, payloadLength), maxFrameSize)
                  == TakeControl(start, maxFrameSize)
        decreases |controlFrames|
      {
        var frame := controlFrames[|controlFrames| - 1];
        var minLength := Length(frame);
        if payloadLength + minLength > maxFrameSize {
          return;
        }
        frames := frames + [frame];
        payloadLength := payloadLength + minLength;
        controlFrames := controlFrames[..|controlFrames| - 1];
      }
    }

    static lemma FixedLength(stopWaiting: Option<nat>, ack: Option<nat>)
      ensures PayloadLength(Fixed(stopWaiting, ack))
              == (if stopWaiting.Some? then stopWaiting.value else 0) + (if ack.Some? then ack.value else 0)
    {
      var a := if stopWaiting.Some? then [StopWaiting(stopWaiting.value)] else [];
      var b := if ack.Some? then [Ack(ack.value)] else [];
      PayloadAppend(a, b);
      if stopWaiting.Some? {
        PayloadOne(a[0]);
      }
      if ack.Some? {
        PayloadOne(b[0]);
      }
    }

    /** maybePopNormalFrames, lines 326 to 439, and its variants for a path and for one stream: the streams are visited
        in their order; permitted tells whether a stream with data may use the path. */
    method PopNormalFrames(permitted: seq<bool>, maxBytes: nat)
      returns (res: seq<StreamFrame>, currentLen: nat, stopped: bool)
      requires |permitted| == |streams|
      modifies this`streams, this`manager, this`blockedFrameQueue
      ensures Visited(Progress(old(streams), old(manager), [], old(blockedFrameQueue), 0, false),
                      permitted, cfg, maxBytes,
                      Progress(streams, manager, res, blockedFrameQueue, currentLen, stopped))
    {
      res, currentLen := [], 0;
      ghost var start := Progress(streams, manager, [], blockedFrameQueue, 0, false);
      stopped := false;
      hide Take, Stops;
      for i := 0 to |permitted|
        invariant |streams| == |permitted|
        invariant Progress(streams, manager, res, blockedFrameQueue, currentLen, stopped)
                  == VisitStreams(start, permitted, cfg, maxBytes, i)
      {
        if !stopped {
          var s := streams[i];
          var r := Take(s, manager, permitted[i], cfg, maxBytes, currentLen);
          stopped := Stops(s, r, maxBytes, currentLen);
          streams, manager := streams[i := r.stream], r.manager;
          blockedFrameQueue := blockedFrameQueue + r.blocked;
          if r.frame.Some? {
            res := res + [r.frame.value];
            currentLen := currentLen + r.frame.value.EncodedLength();
          }
        }
      }
    }

    /** PopStreamFrames and its variants, lines 60 to 75: retransmissions, then fresh frames in the room left. */
    method PopStreamFrames(room: nat, sel: Selection, permitted: seq<bool>)
      returns (fs: seq<StreamFrame>, ghost popped: Popped, ghost normal: Progress)
      requires |permitted| == |streams|
      modifies framer, this`streams, this`manager, this`blockedFrameQueue
      ensures StreamFramesFrom(old(framer.retransmissionQueue), sel, room, popped, normal)
      ensures Visited(Progress(old(streams), old(manager), [], old(blockedFrameQueue), 0, false), permitted, cfg,
                      room - popped.length, normal)
      ensures fs == popped.frames + normal.frames && framer.retransmissionQueue == popped.queue
      ensures streams == normal.streams && manager == normal.manager && blockedFrameQueue == normal.blocked
    {
      hide Pop, Visited, Fits, TotalLength;
      RoomLeft(framer.retransmissionQueue, sel, room);
      ghost var start := Progress(streams, manager, [], blockedFrameQueue, 0, false);
      var currentLen, res, length, stopped;
      fs, currentLen := framer.PopSelected(room, sel);
      popped := Popped(fs, framer.retransmissionQueue, currentLen);
      res, length, stopped := PopNormalFrames(permitted, room - currentLen);
      normal := Progress(streams, manager, res, blockedFrameQueue, length, stopped);
      VisitedFits(start, permitted, cfg, room - currentLen, normal);
      fs := fs + res;
    }

    /** composeNextPacket, composeNextPacketOfStream and composeNextPacketOfPath, lines 468 to 677: one method, because
        they differ in the selection of streams and in the two bytes by which the limit is raised. */
    method ComposeNextPacket(maxFrameSize: nat, canSendStreamFrames: bool, sel: Selection, permitted: seq<bool>)
      returns (frames: seq<Payload>, bug: bool, ghost head: Taken, ghost popped: Popped, ghost normal: Progress)
      requires |permitted| == |streams|
      modifies framer, this`controlFrames, this`streams, this`manager, this`blockedFrameQueue
      ensures bug <==> PayloadLength(Fixed(stopWaiting, ackFrame)) > maxFrameSize
      ensures !bug ==> PayloadLength(frames) <= maxFrameSize
      ensures var fixed := Fixed(stopWaiting, ackFrame);
              head == TakeControl(Taken(fixed, old(controlFrames), PayloadLength(fixed)), maxFrameSize)
      ensures !bug && !canSendStreamFrames ==> frames == head.frames && controlFrames == head.left
      ensures !bug && canSendStreamFrames ==>
                var room := maxFrameSize + Extra(sel) - head.length;
                && room >= 0 && StreamFramesFrom(old(framer.retransmissionQueue), sel, room, popped, normal)
                && Visited(Progress(old(streams), old(manager), [], old(blockedFrameQueue), 0, false), permitted, cfg,
                           room - popped.length, normal)
                && frames == head.frames + AsPayload(DropLastLength(popped.frames + normal.frames))
                && controlFrames == head.left + BlockedFrames(normal.blocked)
    {
      hide PayloadLength, Fixed, TakeControl, TotalLength, Pop, AsPayload, DropLastLength, BlockedFrames;
      hide Visited, StreamFramesFrom;
      HeadLength(Fixed(stopWaiting, ackFrame), controlFrames, maxFrameSize);
      popped, normal := Popped([], [], 0), Progress(streams, manager, [], [], 0, false);
      var payloadLength;
      frames, payloadLength := TakeHead(maxFrameSize);
      head := Taken(frames, controlFrames, payloadLength);
      bug := payloadLength > maxFrameSize;
      if !bug && canSendStreamFrames {
        frames, popped, normal := AddStreamFrames(frames, payloadLength, maxFrameSize, sel, permitted);
      }
    }

    /** Lines 516 to 533. */
    method AddStreamFrames(head: seq<Payload>, payloadLength: nat, maxFrameSize: nat, sel: Selection,
                           permitted: seq<bool>)
      returns (frames: seq<Payload>, ghost popped: Popped, ghost normal: Progress)
      requires |permitted| == |streams| && payloadLength == PayloadLength(head) <= maxFrameSize
      modifies framer, this`controlFrames, this`streams, this`manager, this`blockedFrameQueue
      ensures PayloadLength(frames) <= maxFrameSize
      ensures var room := maxFrameSize + Extra(sel) - payloadLength;
              && StreamFramesFrom(old(framer.retransmissionQueue), sel, room, popped, normal)
              && Visited(Progress(old(streams), old(manager), [], old(blockedFrameQueue), 0, false), permitted, cfg,
                         room - popped.length, normal)
      ensures frames == head + AsPayload(DropLastLength(popped.frames + normal.frames))
      ensures controlFrames == old(controlFrames) + BlockedFrames(normal.blocked)
    {
      hide PayloadLength, TotalLength, Pop, AsPayload, DropLastLength, BlockedFrames, Visited, StreamFramesFrom;
      ghost var lost := framer.retransmissionQueue;
      var fs;
      fs, popped, normal := PopStreamFrames(maxFrameSize + Extra(sel) - payloadLength, sel, permitted);
      PacketFits(head, maxFrameSize, lost, sel, popped, normal);
      frames := head + AsPayload(DropLastLength(fs));
      QueueBlocked();
    }

    static lemma HeadLength(fixed: seq<Payload>, queue: seq<Payload>, maxSize: nat)
      ensures var r := TakeControl(Taken(fixed, queue, PayloadLength(fixed)), maxSize);
              r.length == PayloadLength(r.frames) && (r.length > maxSize <==> PayloadLength(fixed) > maxSize)
    {
      HeadFits(fixed, queue, maxSize);
    }

    /** No control frame is lost: the queue is what is left followed by what was taken, which comes from its back. */
    static lemma HeadFits(fixed: seq<Payload>, queue: seq<Payload>, maxSize: nat)
      ensures var r := TakeControl(Taken(fixed, queue, PayloadLength(fixed)), maxSize);
              && r.length == PayloadLength(r.frames) && fixed <= r.frames
              && queue == r.left + Reversed(r.frames[|fixed|..])
              && (r.length > maxSize <==> PayloadLength(fixed) > maxSize)
    {
      var t := Taken(fixed, queue, PayloadLength(fixed));
      assert fixed[|fixed|..] == [];
      AppendNothing(queue);
      TakeControlCorrect(t, maxSize, queue, fixed);
    }

    /** Lines 531 to 533: BLOCKED frames go out with the next packet. */
    method QueueBlocked()
      modifies this`controlFrames, this`blockedFrameQueue
      ensures blockedFrameQueue == []
      ensures controlFrames == old(controlFrames) + BlockedFrames(old(blockedFrameQueue))
    {
      ghost var all := blockedFrameQueue;
      ghost var k := 0;
      AppendNothing(controlFrames);
      while |blockedFrameQueue| > 0
        invariant 0 <= k <= |all| && blockedFrameQueue == all[k..]
        invariant controlFrames == old(controlFrames) + BlockedFrames(all[..k])
        decreases |blockedFrameQueue|
      {
        var b := blockedFrameQueue[0];
        blockedFrameQueue := blockedFrameQueue[1..];
        controlFrames := controlFrames + [Control(b, BLOCKED_LENGTH)];
        assert BlockedFrames(all[..k + 1]) == BlockedFrames(all[..k]) + [Control(b, BLOCKED_LENGTH)];
        k := k + 1;
      }
      assert all[..k] == all;
    }
  }
}

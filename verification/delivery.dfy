/** One stream between two endpoints, over a network that loses, duplicates, delays and reorders frames. */
module Delivery {

  import opened Wire
  import opened ByteGaps
  import opened FrameSorterSpec
  import opened StreamSpec
  import Framer = FramerSpec

  datatype Event =
    | AppWrites(data: seq<Byte>)
    | AppCloses
    | SendFrame(maxBytes: nat, window: nat)   // cut a frame, under any packet size and any flow control window
    | LoseFrame(frame: StreamFrame)           // a frame on the wire is declared lost, rightly or wrongly
    | Retransmit(maxLen: nat)                 // pop, and split, frames of the retransmission queue
    | Arrive(frame: StreamFrame)              // any frame ever sent reaches the peer, any number of times
    | AppReads(n: nat)

  datatype System = System(
    sender: Sender,
    taken: seq<Byte>,          // everything getDataForWriting returned so far
    wire: set<StreamFrame>,    // every frame that was ever sent
    queue: seq<StreamFrame>,   // frames waiting for retransmission
    reader: Reader,
    delivered: seq<Byte>,      // everything Read returned so far
    broken: bool)              // the receiver closed the connection with an error

  function Start(id: nat): System {
    System(Sender(id, [], 0, false, false), [], {}, [], Reader(EMPTY, 0, false), [], false)
  }

  /** What the functions of the source need in order to be called. */
  predicate Ready(sys: System) {
    WellFormed(sys.reader.sorter.gaps) && Positioned(sys.reader)
  }

  function Step(sys: System, e: Event): System
    requires Ready(sys)
  {
    match e
    case AppWrites(data) => sys.(sender := Write(sys.sender, data))
    case AppCloses => sys.(sender := Close(sys.sender))
    case SendFrame(maxBytes, window) =>
      var (sender, f) := Send(sys.sender, maxBytes, window);
      if f.None? then sys.(sender := sender)
      else sys.(sender := sender, taken := sys.taken + f.value.data, wire := sys.wire + {f.value})
    case LoseFrame(f) => if f in sys.wire then sys.(queue := sys.queue + [f]) else sys
    case Retransmit(maxLen) =>
      var p := Framer.Pop(sys.queue, Framer.AllStreams, maxLen, 0);
      sys.(queue := p.queue, wire := sys.wire + (set f | f in p.frames))
    case Arrive(f) =>
      if sys.broken || f !in sys.wire then sys
      else if f.End() > MAX_BYTE_COUNT then sys.(broken := true)
      else
        var (sorter, r) := Push(sys.reader.sorter, f);
        if r in {Ok, Duplicate} then sys.(reader := sys.reader.(sorter := sorter)) else sys.(broken := true)
    case AppReads(n) =>
      if sys.broken then sys
      else
        var (reader, data, _) := Read(sys.reader, n);
        sys.(reader := reader, delivered := sys.delivered + data)
  }

  // ---- Invariant ----

  /** A frame of the stream: its bytes are bytes taken from the application, and FIN marks the end. */
  ghost predicate Honest(taken: seq<Byte>, finSent: bool, f: StreamFrame) {
    && Carries(taken, f)
    && (f.fin ==> finSent && f.End() == |taken|)
    && (|f.data| == 0 ==> f.fin)
  }

  ghost predicate SenderInv(sys: System) {
    && |sys.taken| == sys.sender.writeOffset
    && (sys.sender.finSent ==> sys.sender.finishedWriting && sys.sender.pending == [])
    && (forall f :: f in sys.wire ==> Honest(sys.taken, sys.sender.finSent, f))
    && (forall f :: f in sys.queue ==> Honest(sys.taken, sys.sender.finSent, f))
  }

  ghost predicate ReaderInv(sys: System) {
    && ReaderValid(sys.reader)
    && Faithful(sys.taken, sys.reader.sorter.queued)
  }

  ghost predicate Inv(sys: System) {
    && SenderInv(sys)
    && ReaderInv(sys)
    && sys.reader.readOffset == |sys.delivered| <= |sys.taken|
    && sys.delivered == sys.taken[..|sys.delivered|]
  }

  lemma InvReady(sys: System)
    requires Inv(sys)
    ensures Ready(sys)
  {
  }

  lemma StartInv(id: nat)
    ensures Inv(Start(id))
  {
    EmptyValid();
  }

  // ---- The sending end ----

  lemma CarriesMore(taken: seq<Byte>, more: seq<Byte>, f: StreamFrame)
    requires Carries(taken, f)
    ensures Carries(taken + more, f)
  {
    assert (taken + more)[f.offset..f.End()] == taken[f.offset..f.End()];
  }

  /** A frame cut by send carries the bytes that were just taken. */
  lemma SentHonest(sender: Sender, taken: seq<Byte>, maxBytes: nat, window: nat)
    requires |taken| == sender.writeOffset && Send(sender, maxBytes, window).1.Some?
    ensures var (sender', f) := Send(sender, maxBytes, window);
            Honest(taken + f.value.data, sender'.finSent, f.value) && |taken + f.value.data| == sender'.writeOffset
  {
    SendCorrect(sender, maxBytes, window);
  }

  /** Nothing is sent after FIN. */
  lemma SilentAfterFin(sender: Sender, maxBytes: nat, window: nat)
    requires sender.finSent && sender.pending == []
    ensures Send(sender, maxBytes, window) == (sender, None)
  {
  }

  lemma HonestMore(taken: seq<Byte>, more: seq<Byte>, finSent: bool, f: StreamFrame)
    requires Honest(taken, false, f)
    ensures Honest(taken + more, finSent, f)
  {
    CarriesMore(taken, more, f);
  }

  lemma FaithfulMore(taken: seq<Byte>, more: seq<Byte>, queued: map<nat, StreamFrame>)
    requires Faithful(taken, queued)
    ensures Faithful(taken + more, queued)
  {
    forall o | o in queued
      ensures Carries(taken + more, queued[o])
    {
      CarriesMore(taken, more, queued[o]);
    }
  }

  lemma SendKeepsSender(sys: System, maxBytes: nat, window: nat)
    requires SenderInv(sys) && Ready(sys)
    ensures SenderInv(Step(sys, SendFrame(maxBytes, window)))
  {
    if sys.sender.finSent {
      SilentAfterFin(sys.sender, maxBytes, window);
    } else {
      var (sender, f) := Send(sys.sender, maxBytes, window);
      if f.Some? {
        SentHonest(sys.sender, sys.taken, maxBytes, window);
        var sys' := Step(sys, SendFrame(maxBytes, window));
        forall g | g in sys.wire || g in sys.queue
          ensures Honest(sys'.taken, sys'.sender.finSent, g)
        {
          HonestMore(sys.taken, f.value.data, sender.finSent, g);
        }
        SendCorrect(sys.sender, maxBytes, window);
      } else {
        SendCorrect(sys.sender, maxBytes, window);
      }
    }
  }

  lemma SendInv(sys: System, maxBytes: nat, window: nat)
    requires Inv(sys) && Ready(sys)
    ensures Inv(Step(sys, SendFrame(maxBytes, window)))
  {
    SendKeepsSender(sys, maxBytes, window);
    var (_, f) := Send(sys.sender, maxBytes, window);
    if f.Some? {
      FaithfulMore(sys.taken, f.value.data, sys.reader.sorter.queued);
      assert (sys.taken + f.value.data)[..|sys.delivered|] == sys.taken[..|sys.delivered|];
    }
  }

  /** Splitting an honest frame gives two honest frames. */
  lemma SplitHonest(taken: seq<Byte>, finSent: bool, f: StreamFrame, n: nat)
    requires Honest(taken, finSent, f) && 0 < n < |f.data|
    ensures Honest(taken, finSent, Framer.SplitFront(f, n)) && Honest(taken, finSent, f.DropFront(n))
  {
    SliceOfSlice(taken, f.offset, f.End(), f.offset, f.offset + n);
    SliceOfSlice(taken, f.offset, f.End(), f.offset + n, f.End());
    assert f.data[n..] == f.data[n..|f.data|] && f.data[..n] == f.data[0..n];
  }

  /** Everything that a pop sends or leaves in the queue is honest. */
  lemma {:induction false} PopHonest(taken: seq<Byte>, finSent: bool, queue: seq<StreamFrame>, maxLen: nat, length: nat)
    requires forall f :: f in queue ==> Honest(taken, finSent, f)
    ensures var p := Framer.Pop(queue, Framer.AllStreams, maxLen, length);
            && (forall f :: f in p.frames ==> Honest(taken, finSent, f))
            && (forall f :: f in p.queue ==> Honest(taken, finSent, f))
  {
    if queue != [] {
      var f := queue[0].(dataLenPresent := true);
      assert Honest(taken, finSent, queue[0]);
      var used := length + f.MinLength();
      if used < maxLen && maxLen - used < |f.data| {
        SplitHonest(taken, finSent, f, maxLen - used);
      } else if used < maxLen {
        PopHonest(taken, finSent, queue[1..], maxLen, used + |f.data|);
      }
    }
  }

  lemma RetransmitInv(sys: System, maxLen: nat)
    requires Inv(sys) && Ready(sys)
    ensures Inv(Step(sys, Retransmit(maxLen)))
  {
    PopHonest(sys.taken, sys.sender.finSent, sys.queue, maxLen, 0);
  }

  // ---- The receiving end ----

  /** A frame without data only arrives at the end of the stream, where no data frame can be queued. */
  lemma EmptyFrameNotLive(sys: System, f: StreamFrame)
    requires SenderInv(sys) && ReaderInv(sys) && f in sys.wire && |f.data| == 0
    ensures !Live(sys.reader.sorter, f.offset)
  {
    assert Honest(sys.taken, sys.sender.finSent, f);
    if Live(sys.reader.sorter, f.offset) {
      LiveFrame(sys.reader.sorter, f.offset);
    }
  }

  lemma ArriveInv(sys: System, f: StreamFrame)
    requires Inv(sys) && Ready(sys)
    ensures Inv(Step(sys, Arrive(f)))
  {
    if !sys.broken && f in sys.wire && f.End() <= MAX_BYTE_COUNT {
      assert Honest(sys.taken, sys.sender.finSent, f);
      PushFaithful(sys.taken, sys.reader.sorter, f);
      if |f.data| == 0 {
        EmptyFrameNotLive(sys, f);
      }
      if Push(sys.reader.sorter, f).1 in {Ok, Duplicate} {
        PushReader(sys.reader, f);
      }
    }
  }

  lemma ReadInv(sys: System, n: nat)
    requires Inv(sys) && Ready(sys)
    ensures Inv(Step(sys, AppReads(n)))
  {
    if !sys.broken && !sys.reader.finishedReading {
      ReadLoopStops(sys.reader, n);
      ReadLoopBytes(sys.taken, sys.reader, n);
      var (reader, data, _) := ReadLoop(sys.reader, n);
      SliceJoin(sys.taken, 0, |sys.delivered|, reader.readOffset);
    }
  }

  /** Every step of the protocol keeps the invariant. */
  lemma StepInv(sys: System, e: Event)
    requires Inv(sys)
    ensures Ready(sys) && Inv(Step(sys, e))
  {
    InvReady(sys);
    match e
    case AppWrites(_) =>
    case AppCloses =>
    case SendFrame(maxBytes, window) => SendInv(sys, maxBytes, window);
    case LoseFrame(_) =>
    case Retransmit(maxLen) => RetransmitInv(sys, maxLen);
    case Arrive(f) => ArriveInv(sys, f);
    case AppReads(n) => ReadInv(sys, n);
  }

  /** The state after a run of events. */
  ghost function Run(id: nat, events: seq<Event>): (sys: System)
    ensures Inv(sys)
  {
    if events == [] then StartInv(id); Start(id)
    else
      var sys := Run(id, events[..|events| - 1]);
      StepInv(sys, events[|events| - 1]);
      Step(sys, events[|events| - 1])
  }

  /** End-to-end delivery: whatever the segmentation, the retransmission splits and the schedule of the network, the
      bytes that Read returned are a prefix of the bytes that were taken from the sending application. */
  lemma DeliveredIsPrefix(id: nat, events: seq<Event>)
    ensures Run(id, events).delivered <= Run(id, events).taken
  {
    assert Inv(Run(id, events));
  }

  // ---- What the application wrote ----

  /** Write accepts data: the stream is not closed and the data is not empty. */
  predicate Accepts(sys: System, e: Event) {
    e.AppWrites? && !sys.sender.finishedWriting && e.data != []
  }

  /** Everything that Write accepted. */
  ghost function Written(id: nat, events: seq<Event>): seq<Byte> {
    if events == [] then []
    else
      var n := |events| - 1;
      Written(id, events[..n]) + if Accepts(Run(id, events[..n]), events[n]) then events[n].data else []
  }

  /** Write is called only when the data of the call before was taken, as a Write without a deadline waits for that. */
  ghost predicate WritesWait(id: nat, events: seq<Event>) {
    events == [] ||
    var n := |events| - 1;
    && WritesWait(id, events[..n])
    && (Accepts(Run(id, events[..n]), events[n]) ==> Run(id, events[..n]).sender.pending == [])
  }

  /** One step: data is appended, or moves from the front of what is pending to what was taken. */
  lemma StepTaken(sys: System, e: Event)
    requires Ready(sys)
    ensures var sys' := Step(sys, e);
            if Accepts(sys, e) then sys'.taken == sys.taken && sys'.sender.pending == e.data
            else sys'.taken + sys'.sender.pending == sys.taken + sys.sender.pending
  {
    if e.SendFrame? {
      SendCorrect(sys.sender, e.maxBytes, e.window);
    }
  }

  /** The written bytes are those taken and pending, or more than these if some were replaced. */
  ghost predicate Accounts(written: seq<Byte>, waits: bool, taken: seq<Byte>, pending: seq<Byte>) {
    if waits then written == taken + pending else |written| > |taken| + |pending|
  }

  lemma AcceptAccounts(written: seq<Byte>, waits: bool, taken: seq<Byte>, pending: seq<Byte>, data: seq<Byte>)
    requires Accounts(written, waits, taken, pending)
    ensures Accounts(written + data, waits && pending == [], taken, data)
  {
  }

  lemma WrittenNone(id: nat)
    ensures Accounts(Written(id, []), WritesWait(id, []), Run(id, []).taken, Run(id, []).sender.pending)
  {
  }

  lemma {:induction false} WrittenLength(id: nat, events: seq<Event>)
    ensures Accounts(Written(id, events), WritesWait(id, events), Run(id, events).taken, Run(id, events).sender.pending)
    decreases |events|
  {
    hide Accounts, Written, WritesWait, Run, Step, Inv;
    if events == [] {
      WrittenNone(id);
    } else {
      var n := |events| - 1;
      WrittenLength(id, events[..n]);
      WrittenNext(id, events[..n], events[n]);
      assert events == events[..n] + [events[n]];
    }
  }

  lemma WrittenNext(id: nat, events: seq<Event>, e: Event)
    requires Accounts(Written(id, events), WritesWait(id, events),
                      Run(id, events).taken, Run(id, events).sender.pending)
    ensures var next := events + [e];
            Accounts(Written(id, next), WritesWait(id, next), Run(id, next).taken, Run(id, next).sender.pending)
  {
    var sys, next := Run(id, events), events + [e];
    RunStep(id, events, e);
    StepTaken(sys, e);
    assert next[..|next| - 1] == events && next[|next| - 1] == e;
    hide Step, Inv, Run, Ready;
    if Accepts(sys, e) {
      AcceptAccounts(Written(id, events), WritesWait(id, events), sys.taken, sys.sender.pending, e.data);
    } else {
      assert Written(id, next) == Written(id, events) && WritesWait(id, next) == WritesWait(id, events);
      MovedAccounts(Written(id, events), WritesWait(id, events), sys, Step(sys, e));
    }
  }

  lemma MovedAccounts(written: seq<Byte>, waits: bool, sys: System, sys': System)
    requires Accounts(written, waits, sys.taken, sys.sender.pending)
    requires sys'.taken + sys'.sender.pending == sys.taken + sys.sender.pending
    ensures Accounts(written, waits, sys'.taken, sys'.sender.pending)
  {
    assert |sys'.taken + sys'.sender.pending| == |sys.taken + sys.sender.pending|;
  }

  /** What was taken and what is pending is what was written, in order, if and only if no Write replaced data that was
      still pending, as one can after the deadline of the call before. */
  lemma WrittenExactly(id: nat, events: seq<Event>)
    ensures Written(id, events) == Run(id, events).taken + Run(id, events).sender.pending <==> WritesWait(id, events)
  {
    WrittenLength(id, events);
  }

  lemma TwoWrites(id: nat)
    ensures var a, b := AppWrites([1]), AppWrites([2]);
            && Run(id, []) == Start(id)
            && Run(id, [a]) == Start(id).(sender := Write(Start(id).sender, [1]))
            && Run(id, [a, b]) == Start(id).(sender := Write(Start(id).sender, [2]))
  {
    var a, b := AppWrites([1]), AppWrites([2]);
    assert Run(id, []) == Start(id);
    RunStep(id, [], a);
    RunStep(id, [a], b);
    assert [] + [a] == [a] && [a] + [b] == [a, b];
    hide Run, Inv;
  }

  /** The input that shows it: a second Write before the data of the first one was taken. */
  lemma WriteCanReplace(id: nat)
    ensures var events := [AppWrites([1]), AppWrites([2])];
            && !WritesWait(id, events) && Written(id, events) == [1, 2]
            && Run(id, events).taken == [] && Run(id, events).sender.pending == [2]
  {
    hide Run, Inv;
    TwoWrites(id);
    var a, b := AppWrites([1]), AppWrites([2]);
    assert [a, b][..1] == [a] && [a][..0] == [];
    assert Accepts(Run(id, []), a) && Accepts(Run(id, [a]), b);
    assert Written(id, []) == [] && Written(id, [a]) == [1];
  }

  /** Then the bytes that Read returned are a prefix of the bytes that were written. */
  lemma DeliveredIsWritten(id: nat, events: seq<Event>)
    requires WritesWait(id, events)
    ensures Run(id, events).delivered <= Written(id, events)
  {
    WrittenLength(id, events);
    DeliveredIsPrefix(id, events);
  }

  lemma RunStep(id: nat, events: seq<Event>, e: Event)
    ensures Ready(Run(id, events)) && Run(id, events + [e]) == Step(Run(id, events), e)
  {
    assert (events + [e])[..|events|] == events;
  }

  lemma FirstGapBeyond(gaps: seq<Interval>, t: nat)
    requires WellFormed(gaps)
    requires forall x :: 0 <= x < t ==> !Missing(gaps, x)
    ensures t <= gaps[0].start
  {
    assert Missing(gaps, gaps[0].start);
  }

  lemma ReadToTheEnd(sys: System, n: nat)
    requires Inv(sys) && Ready(sys) && !sys.broken && !sys.reader.finishedReading && |sys.taken| <= n
    requires |sys.taken| <= sys.reader.sorter.gaps[0].start
    ensures var sys' := Step(sys, AppReads(n));
            sys'.delivered == sys'.taken || sys'.reader.finishedReading
  {
    hide ReadLoop;
    ReadLoopStops(sys.reader, n);
    ReadLoopBytes(sys.taken, sys.reader, n);
    ReadInv(sys, n);
  }

  /** Nothing is stranded: once every byte taken from the application has arrived, a Read with a large enough buffer
      completes the stream, unless it meets a FIN. */
  lemma ReadCompletes(id: nat, events: seq<Event>, n: nat)
    requires var sys := Run(id, events);
             && !sys.broken && !sys.reader.finishedReading && |sys.taken| <= n
             && (forall x :: 0 <= x < |sys.taken| ==> !Missing(sys.reader.sorter.gaps, x))
    ensures var sys' := Run(id, events + [AppReads(n)]);
            sys'.delivered == sys'.taken || sys'.reader.finishedReading
  {
    var sys := Run(id, events);
    RunStep(id, events, AppReads(n));
    FirstGapBeyond(sys.reader.sorter.gaps, |sys.taken|);
    ReadToTheEnd(sys, n);
  }

  // ---- What has arrived ----

  /** A frame that was sent arrives, and the receiver does not give up because of it. */
  predicate Takes(sys: System, e: Event) {
    && e.Arrive? && e.frame in sys.wire && !sys.broken && e.frame.End() <= MAX_BYTE_COUNT
    && WellFormed(sys.reader.sorter.gaps) && Push(sys.reader.sorter, e.frame).1 in {Ok, Duplicate}
  }

  /** The state with a frame pushed into the sorter. */
  function Pushed(sys: System, f: StreamFrame): System
    requires WellFormed(sys.reader.sorter.gaps)
  {
    sys.(reader := sys.reader.(sorter := Push(sys.reader.sorter, f).0))
  }

  lemma StepArrives(sys: System, e: Event)
    requires Ready(sys) && Takes(sys, e)
    ensures Step(sys, e) == Pushed(sys, e.frame)
  {
    hide Push;
  }

  /** No other event touches the sorter's gaps. */
  lemma StepKeepsGaps(sys: System, e: Event)
    requires Inv(sys) && !Takes(sys, e)
    ensures Ready(sys) && Step(sys, e).reader.sorter.gaps == sys.reader.sorter.gaps
  {
    InvReady(sys);
    if e.AppReads? {
      ReadLoopStops(sys.reader, e.n);
    }
    hide Push, ReadLoop;
  }

  /** A frame that is taken removes exactly its own bytes from what is missing. */
  lemma TakeFills(sys: System, e: Event, x: nat)
    requires Inv(sys) && Takes(sys, e)
    ensures Ready(sys)
    ensures Missing(Step(sys, e).reader.sorter.gaps, x)
            <==> Missing(sys.reader.sorter.gaps, x) && !(e.frame.offset <= x < e.frame.End())
  {
    InvReady(sys);
    StepArrives(sys, e);
    PushCorrect(sys.reader.sorter, e.frame);
    PushFillsByte(sys.reader.sorter, e.frame, x);
    hide Push, Missing, Step, Inv;
  }

  /** The receiver takes a frame that carries byte x. */
  ghost predicate Brings(sys: System, e: Event, x: nat) {
    Takes(sys, e) && e.frame.offset <= x < e.frame.End()
  }

  /** Some frame that the receiver took carried byte x. */
  ghost predicate Carried(id: nat, events: seq<Event>, x: nat) {
    exists k :: 0 <= k < |events| && Brings(Run(id, events[..k]), events[k], x)
  }

  lemma CarriedNext(id: nat, events: seq<Event>, e: Event, x: nat)
    ensures Carried(id, events + [e], x) <==> Carried(id, events, x) || Brings(Run(id, events), e, x)
  {
    hide Run, Brings, Inv;
    var next := events + [e];
    assert next[..|events|] == events && next[|events|] == e;
    if Carried(id, events, x) {
      var k :| 0 <= k < |events| && Brings(Run(id, events[..k]), events[k], x);
      assert next[..k] == events[..k] && next[k] == events[k];
    }
    if Carried(id, next, x) {
      var k :| 0 <= k < |next| && Brings(Run(id, next[..k]), next[k], x);
      if k < |events| {
        assert next[..k] == events[..k] && next[k] == events[k];
      }
    }
  }

  /** Over a whole run, the gaps are exactly the bytes that no frame has carried so far. */
  lemma {:induction false} MissingExactly(id: nat, events: seq<Event>, x: nat)
    ensures Missing(Run(id, events).reader.sorter.gaps, x) <==> x < MAX_BYTE_COUNT && !Carried(id, events, x)
    decreases |events|
  {
    if events == [] {
      MissingAtStart(id, x);
    } else {
      var n := |events| - 1;
      var sys, e := Run(id, events[..n]), events[n];
      assert Inv(sys) && events == events[..n] + [e];
      hide Inv, Carried, Missing, Step, Takes;
      MissingExactly(id, events[..n], x);
      CarriedNext(id, events[..n], e, x);
      if Takes(sys, e) {
        TakeFills(sys, e, x);
      } else {
        StepKeepsGaps(sys, e);
      }
    }
  }

  lemma MissingAtStart(id: nat, x: nat)
    ensures Missing(Run(id, []).reader.sorter.gaps, x) <==> x < MAX_BYTE_COUNT
  {
    assert EMPTY.gaps[0] == Interval(0, MAX_BYTE_COUNT);
  }
}

/** When used credit comes back (pstream/internal/flowcontrol), over whole runs. */
module FlowLiveness {

  import opened Wire
  import opened FlowControlSpec
  import opened FlowProtocol
  import opened WindowUpdates
  import opened FlowCredit

  /** A stream other than the crypto stream is open at both ends, and everything that was sent on it was read; if it
      counts for the connection, so was everything that was sent on the connection. */
  predicate AllRead(sys: System, id: nat) {
    && id != 1 && id in sys.sender.streams && id in sys.receiver.streams
    && sys.receiver.streams[id].bytesRead == sys.sender.streams[id].bytesSent
    && (Contributes(id) ==> sys.receiver.conn.bytesRead == sys.sender.conn.bytesSent)
  }

  /** What can be sent on the stream after the receiver was asked for updates and the sender learned them. */
  function SendableAfter(sys: System, cfg: Config, order: seq<nat>, soon: set<nat>, id: nat): nat {
    var sys1 := ReceiverUpdate(sys, false, order, soon);
    if id !in sys1.receiver.streams then 0
    else
      var sys2 := Learned(sys1, id);
      if id in sys2.sender.streams then Sendable(sys2.sender, cfg, id) else 0
  }

  /** Something is left of the window or the increment is large enough to be noticed, and an adjustment, if one is due,
      leaves something of the increment. */
  predicate CanRefill(c: Controller, soon: bool) {
    && (c.bytesRead < c.receiveWindow || c.increment >= 2)
    && (UpdateDue(c) && c.armed && soon ==> c.maxIncrement > 0)
  }

  lemma RefillsExactly(c: Controller, soon: bool)
    requires c.bytesRead <= c.receiveWindow
    ensures MaybeUpdateWindow(c, soon).receiveWindow > c.bytesRead <==> CanRefill(c, soon)
  {
  }

  /** In every state of a run with safe windows: if everything was read, more can be sent after an update if and only if
      the controller of the stream, and for a contributing stream that of the connection at its turn, can refill. */
  lemma ReturnsExactly(sys: System, cfg: Config, order: seq<nat>, soon: set<nat>, id: nat)
    requires Inv(sys, cfg) && Credit(sys, cfg) && Covers(order, sys.receiver) && AllRead(sys, id)
    requires forall x :: x in order ==> x in sys.receiver.streams
    ensures SendableAfter(sys, cfg, order, soon, id) > 0 <==>
            && CanRefill(sys.receiver.streams[id], id in soon)
            && (Contributes(id) ==>
                  CanRefill(Demanded(sys.receiver.conn, LargestDemand(sys.receiver, false, order, soon)), 0 in soon))
  {
    hide Inv, Credit, LargestDemand, Learned, CanRefill, MaybeUpdateWindow, Covers, ReceiverUpdate, Demanded;
    var m, sys1 := sys.receiver, ReceiverUpdate(sys, false, order, soon);
    UpdatedWindows(sys, cfg, order, soon);
    LearnedRoom(sys1, cfg, id);
    Counts(sys, cfg, id);
    RefillsExactly(m.streams[id], id in soon);
    RefillsExactly(Demanded(m.conn, LargestDemand(m, false, order, soon)), 0 in soon);
  }

  lemma UpdatedWindows(sys: System, cfg: Config, order: seq<nat>, soon: set<nat>)
    requires Inv(sys, cfg) && Credit(sys, cfg) && Covers(order, sys.receiver)
    requires forall x :: x in order ==> x in sys.receiver.streams
    ensures var m, sys1 := sys.receiver, ReceiverUpdate(sys, false, order, soon);
            var conn := Demanded(m.conn, LargestDemand(m, false, order, soon));
            && Inv(sys1, cfg) && Credit(sys1, cfg)
            && sys1.sender == sys.sender && sys1.sent == sys.sent
            && sys1.receiver.streams.Keys == m.streams.Keys
            && (forall id :: id in m.streams ==>
                  sys1.receiver.streams[id] == MaybeUpdateWindow(m.streams[id], id in soon))
            && sys1.receiver.conn == MaybeUpdateWindow(conn, 0 in soon)
            && conn.bytesRead == m.conn.bytesRead && conn.receiveWindow == m.conn.receiveWindow
  {
    hide Inv, Credit, LargestDemand, MaybeUpdateWindow;
    var m := sys.receiver;
    NoStreamZero(sys, cfg);
    GetUpdated(m, false, order, soon);
    UpdatesExactly(m, false, order, soon, WindowUpdate(0, 0));
    ReceiverUpdatesInv(sys, cfg, false, order, soon);
    UpdateCredit(sys, cfg, false, order, soon);
    hide GetWindowUpdates, Covers;
  }

  lemma Counts(sys: System, cfg: Config, id: nat)
    requires Inv(sys, cfg) && AllRead(sys, id)
    ensures Get(sys.sent, id) == sys.receiver.streams[id].bytesRead <= sys.receiver.streams[id].receiveWindow
    ensures sys.receiver.conn.bytesRead <= sys.receiver.conn.receiveWindow
  {
    ConnWithin(sys, cfg);
    hide Total;
    assert SenderInv(sys, cfg, id, sys.sender.streams[id]) && ReceiverInv(sys, id, sys.receiver.streams[id]);
    assert StreamInv(sys, cfg, id);
  }

  // ---- Increments that never become too small ----

  predicate Large(c: Controller) {
    c.increment >= 2 && c.maxIncrement >= 2
  }

  ghost predicate AllLarge(m: Manager) {
    Large(m.conn) && forall id :: id in m.streams ==> Large(m.streams[id])
  }

  /** The condition on the handshake's windows. */
  predicate Lively(cfg: Config) {
    cfg.streamWindow >= 2 && cfg.maxStreamIncrement >= 2 && cfg.connWindow >= 2 && cfg.maxConnIncrement >= 2
  }

  lemma UpdateLarge(m: Manager, force: bool, order: seq<nat>, soon: set<nat>)
    requires AllLarge(m) && Covers(order, m) && 0 !in m.streams
    ensures AllLarge(GetWindowUpdates(m, force, order, soon).manager)
  {
    GetUpdated(m, force, order, soon);
    UpdatesExactly(m, force, order, soon, WindowUpdate(0, 0));
    var u := GetWindowUpdates(m, force, order, soon);
    hide GetWindowUpdates, Covers, LargestDemand;
    forall id | id in u.manager.streams
      ensures Large(u.manager.streams[id])
    {
      assert Large(m.streams[id]);
    }
  }

  lemma ReceiveLarge(m: Manager, id: nat, n: nat)
    requires AllLarge(m)
    ensures AllLarge(Receive(m, id, n).0) && AllLarge(Reset(m, id, n).0) && AllLarge(ReadBytes(m, id, n))
  {
    if id in m.streams {
      assert Large(m.streams[id]);
    }
  }

  lemma OpenLarge(m: Manager, cfg: Config, id: nat)
    requires AllLarge(m) && Lively(cfg)
    ensures AllLarge(NewStream(m, cfg, id)) && AllLarge(RemoveStream(m, id))
  {
  }

  lemma StepLarge(sys: System, cfg: Config, e: Event)
    requires Inv(sys, cfg) && Lively(cfg) && AllLarge(sys.receiver)
    ensures AllLarge(Step(sys, cfg, e).receiver)
  {
    NoStreamZero(sys, cfg);
    hide Inv, AllLarge, Receive, Reset, ReadBytes, NewStream, RemoveStream, GetWindowUpdates, SendBytes, UpdateWindow;
    var m := sys.receiver;
    match e
    case ReceiverOpens(id) => OpenLarge(m, cfg, id);
    case DataArrives(id, end) => ReceiveLarge(m, id, end);
    case CryptoArrives(end) => ReceiveLarge(m, 1, end);
    case ResetArrives(id) => ReceiveLarge(m, id, Get(sys.sent, id));
    case ReceiverReads(id, n) => ReceiveLarge(m, id, n);
    case ReceiverUpdates(force, order, soon) =>
      if Covers(order, m) {
        UpdateLarge(m, force, order, soon);
      }
    case ReceiverForgets(id) => OpenLarge(m, cfg, id);
    case _ =>
  }

  lemma {:induction false} RunLarge(sys: System, cfg: Config, events: seq<Event>)
    requires SafeConfig(cfg) && Inv(sys, cfg) && Lively(cfg) && AllLarge(sys.receiver)
    ensures AllLarge(Run(sys, cfg, events).receiver)
    decreases |events|
  {
    hide Inv, AllLarge, Step;
    if events != [] {
      StepInv(sys, cfg, events[0]);
      StepLarge(sys, cfg, events[0]);
      RunLarge(Step(sys, cfg, events[0]), cfg, events[1..]);
    }
  }

  // ---- Exactly the configurations without a deadlock ----

  /** In no run the two ends wait for each other. */
  ghost predicate NeverStuck(cfg: Config) {
    forall events, order, soon, id ::
      Covers(order, Run(Start(cfg), cfg, events).receiver) && AllRead(Run(Start(cfg), cfg, events), id) ==>
        SendableAfter(Run(Start(cfg), cfg, events), cfg, order, soon, id) > 0
  }

  lemma RunReturns(cfg: Config, events: seq<Event>, order: seq<nat>, soon: set<nat>, id: nat)
    requires SafeConfig(cfg)
    requires Covers(order, Run(Start(cfg), cfg, events).receiver) && AllRead(Run(Start(cfg), cfg, events), id)
    ensures var sys := Run(Start(cfg), cfg, events);
            var m := sys.receiver;
            && (forall x :: x in order ==> x in m.streams)
            && (SendableAfter(sys, cfg, order, soon, id) > 0 <==>
                  && CanRefill(m.streams[id], id in soon)
                  && (Contributes(id) ==>
                        CanRefill(Demanded(m.conn, LargestDemand(m, false, order, soon)), 0 in soon)))
  {
    StartInv(cfg);
    RunInv(Start(cfg), cfg, events);
    StartCredit(cfg);
    RunCredit(Start(cfg), cfg, events);
    hide Run, Inv, Credit, SendableAfter, CanRefill, LargestDemand, AllRead;
    OrderIn(order, Run(Start(cfg), cfg, events).receiver);
    hide Covers;
    ReturnsExactly(Run(Start(cfg), cfg, events), cfg, order, soon, id);
  }

  /** In every run: if everything was read, and the increments and the largest increments are at least two bytes, more
      can be sent after an update. */
  lemma CreditReturns(cfg: Config, events: seq<Event>, order: seq<nat>, soon: set<nat>, id: nat)
    requires SafeConfig(cfg)
    requires Covers(order, Run(Start(cfg), cfg, events).receiver) && AllRead(Run(Start(cfg), cfg, events), id)
    requires var m := Run(Start(cfg), cfg, events).receiver;
             Large(m.streams[id]) && (Contributes(id) ==> Large(m.conn))
    ensures SendableAfter(Run(Start(cfg), cfg, events), cfg, order, soon, id) > 0
  {
    RunReturns(cfg, events, order, soon, id);
    hide Run, SendableAfter, Covers, LargestDemand, AllRead;
  }

  lemma LivelyReturns(cfg: Config, events: seq<Event>, order: seq<nat>, soon: set<nat>, id: nat)
    requires SafeConfig(cfg) && Lively(cfg)
    requires Covers(order, Run(Start(cfg), cfg, events).receiver) && AllRead(Run(Start(cfg), cfg, events), id)
    ensures SendableAfter(Run(Start(cfg), cfg, events), cfg, order, soon, id) > 0
  {
    StartInv(cfg);
    RunLarge(Start(cfg), cfg, events);
    hide Run, SendableAfter, Covers, Large;
    CreditReturns(cfg, events, order, soon, id);
  }

  // ---- The deadlocks of small windows ----

  /** The stream fills its window and everything is read. */
  function ReadWhole(window: nat): seq<Event> {
    [SenderOpens(3), ReceiverOpens(3), SenderSends(3, window), DataArrives(3, window), ReceiverReads(3, window)]
  }

  /** Then the window moves by one byte, which is used and read as well. */
  function OneMore(window: nat): seq<Event> {
    [ReceiverUpdates(false, [3], {3}), SenderLearns(WindowUpdate(3, window + 1)), SenderSends(3, 1),
     DataArrives(3, window + 1), ReceiverReads(3, 1)]
  }

  /** A controller of stream 3 at the receiver whose window was read completely. */
  function ReadController(cfg: Config, window: nat, increment: nat): Controller {
    Controller(false, 0, 0, window, window, window, increment, cfg.maxStreamIncrement, true)
  }

  /** Only stream 3 is open, and everything that was sent on it was read. */
  ghost predicate OnlyThree(sys: System, cfg: Config, window: nat, increment: nat, sendWindow: nat) {
    && sys.receiver.streams == map[3 := ReadController(cfg, window, increment)]
    && sys.sender.streams == map[3 := NewController(false, cfg.streamWindow, cfg.maxStreamIncrement)
                                      .(bytesSent := window, sendWindow := sendWindow)]
    && sys.reset == {} && Get(sys.sent, 3) == window
  }

  lemma WholeSent(cfg: Config)
    ensures var w := cfg.streamWindow;
            var c := NewController(false, w, cfg.maxStreamIncrement);
            var sys := Step(Step(Step(Start(cfg), cfg, SenderOpens(3)), cfg, ReceiverOpens(3)), cfg, SenderSends(3, w));
            && sys.receiver.streams == map[3 := c] && sys.sender.streams == map[3 := c.(bytesSent := w)]
            && sys.reset == {} && Get(sys.sent, 3) == w
  {
    var w := cfg.streamWindow;
    var c := NewController(false, w, cfg.maxStreamIncrement);
    var s2 := Step(Step(Start(cfg), cfg, SenderOpens(3)), cfg, ReceiverOpens(3));
    assert s2.sender.streams == map[3 := c] && s2.receiver.streams == map[3 := c];
  }

  lemma WholeRead(sys: System, cfg: Config)
    requires var c := NewController(false, cfg.streamWindow, cfg.maxStreamIncrement);
             && sys.receiver.streams == map[3 := c]
             && sys.sender.streams == map[3 := c.(bytesSent := cfg.streamWindow)]
    requires sys.reset == {} && Get(sys.sent, 3) == cfg.streamWindow
    ensures var w := cfg.streamWindow;
            OnlyThree(Step(Step(sys, cfg, DataArrives(3, w)), cfg, ReceiverReads(3, w)), cfg, w, w, 0)
  {
    var w := cfg.streamWindow;
    var s4 := Step(sys, cfg, DataArrives(3, w));
    assert s4.receiver.streams == map[3 := ReadController(cfg, w, w).(bytesRead := 0, armed := false)];
  }

  lemma ReadWholeRun(cfg: Config)
    ensures var w := cfg.streamWindow;
            OnlyThree(Run(Start(cfg), cfg, ReadWhole(w)), cfg, w, w, 0)
  {
    hide Step, NewController, OnlyThree;
    var e := ReadWhole(cfg.streamWindow);
    WholeSent(cfg);
    WholeRead(Step(Step(Step(Start(cfg), cfg, e[0]), cfg, e[1]), cfg, e[2]), cfg);
    RunFive(Start(cfg), cfg, e[0], e[1], e[2], e[3], e[4]);
  }

  /** The update of the window by one byte, when the largest increment is 1. */
  lemma OneMoreGranted(sys: System, cfg: Config)
    requires cfg.streamWindow >= 2 && cfg.maxStreamIncrement == 1
    requires OnlyThree(sys, cfg, cfg.streamWindow, cfg.streamWindow, 0)
    ensures var w, sys1 := cfg.streamWindow, ReceiverUpdate(sys, false, [3], {3});
            && sys1.receiver.streams == map[3 := ReadController(cfg, w, 1).(receiveWindow := w + 1)]
            && sys1 == sys.(receiver := sys1.receiver, granted := sys1.granted, updates := sys1.updates)
            && WindowUpdate(3, w + 1) in sys1.updates
  {
    hide GetWindowUpdates, LargestDemand, MaybeUpdateWindow, ReadController, WindowLeft, Demanded;
    var w := cfg.streamWindow;
    ReadUpdate(cfg);
    UpdateSingle(sys.receiver, 3, {3});
    UpdatesExactly(sys.receiver, false, [3], {3}, WindowUpdate(3, w + 1));
    hide Covers;
  }

  lemma ReadUpdate(cfg: Config)
    requires cfg.streamWindow >= 2 && cfg.maxStreamIncrement == 1
    ensures var w, c := cfg.streamWindow, ReadController(cfg, cfg.streamWindow, cfg.streamWindow);
            && MaybeUpdateWindow(c, true) == ReadController(cfg, w, 1).(receiveWindow := w + 1)
            && WindowLeft(c) < c.increment / 2
  {
  }

  lemma OneMoreUsed(sys: System, cfg: Config)
    requires cfg.streamWindow >= 2
    requires var w := cfg.streamWindow;
             && sys.receiver.streams == map[3 := ReadController(cfg, w, 1).(receiveWindow := w + 1)]
             && sys.sender.streams == map[3 := NewController(false, w, cfg.maxStreamIncrement).(bytesSent := w)]
             && sys.reset == {} && Get(sys.sent, 3) == w && WindowUpdate(3, w + 1) in sys.updates
    ensures var w := cfg.streamWindow;
            var s1 := SenderSend(SenderLearn(sys, WindowUpdate(3, w + 1)), cfg, 3, 1);
            OnlyThree(ReceiverRead(DataArrive(s1, 3, w + 1), 3, 1), cfg, w + 1, 1, w + 1)
  {
    var w := cfg.streamWindow;
    var c := NewController(false, w, cfg.maxStreamIncrement);
    var s0 := SenderLearn(sys, WindowUpdate(3, w + 1));
    assert s0.sender.streams == map[3 := c.(bytesSent := w, sendWindow := w + 1)];
    var s1 := SenderSend(s0, cfg, 3, 1);
    assert s1.sender.streams == map[3 := c.(bytesSent := w + 1, sendWindow := w + 1)];
    var s2 := DataArrive(s1, 3, w + 1);
    assert s2.receiver.streams
           == map[3 := ReadController(cfg, w, 1).(receiveWindow := w + 1, highestReceived := w + 1)];
  }

  lemma OneMoreRun(cfg: Config)
    requires cfg.streamWindow >= 2 && cfg.maxStreamIncrement == 1
    ensures var w := cfg.streamWindow;
            OnlyThree(Run(Start(cfg), cfg, ReadWhole(w) + OneMore(w)), cfg, w + 1, 1, w + 1)
  {
    hide Run, OnlyThree, OneMore, ReadWhole;
    var w := cfg.streamWindow;
    ReadWholeRun(cfg);
    RunJoin(Start(cfg), cfg, ReadWhole(w), OneMore(w));
    OneMoreAfter(Run(Start(cfg), cfg, ReadWhole(w)), cfg);
  }

  lemma OneMoreAfter(sys: System, cfg: Config)
    requires cfg.streamWindow >= 2 && cfg.maxStreamIncrement == 1
    requires OnlyThree(sys, cfg, cfg.streamWindow, cfg.streamWindow, 0)
    ensures var w := cfg.streamWindow;
            OnlyThree(Run(sys, cfg, OneMore(w)), cfg, w + 1, 1, w + 1)
  {
    hide Run, ReceiverUpdate, SenderLearn, SenderSend, DataArrive, ReceiverRead;
    OneMoreGranted(sys, cfg);
    OneMoreUsed(ReceiverUpdate(sys, false, [3], {3}), cfg);
    var w := cfg.streamWindow;
    RunMore(sys, cfg, [3], {3}, WindowUpdate(3, w + 1), 3, w + 1);
  }

  /** An update, and one more byte that is sent, received and read. */
  lemma RunMore(sys: System, cfg: Config, order: seq<nat>, soon: set<nat>, u: WindowUpdate, id: nat, end: nat)
    ensures Run(sys, cfg, [ReceiverUpdates(false, order, soon), SenderLearns(u), SenderSends(id, 1),
                           DataArrives(id, end), ReceiverReads(id, 1)])
            == (var s1 := SenderSend(SenderLearn(ReceiverUpdate(sys, false, order, soon), u), cfg, id, 1);
                ReceiverRead(DataArrive(s1, id, end), id, 1))
  {
    hide Run, ReceiverUpdate, SenderLearn, SenderSend, DataArrive, ReceiverRead;
    RunFive(sys, cfg, ReceiverUpdates(false, order, soon), SenderLearns(u), SenderSends(id, 1),
            DataArrives(id, end), ReceiverReads(id, 1));
  }

  /** A state in which only stream 3 is open, everything was read and its controller cannot refill. */
  lemma ThreeStuck(cfg: Config, events: seq<Event>, window: nat, increment: nat, sendWindow: nat)
    requires SafeConfig(cfg) && OnlyThree(Run(Start(cfg), cfg, events), cfg, window, increment, sendWindow)
    requires increment < 2 || cfg.maxStreamIncrement == 0
    ensures !NeverStuck(cfg)
  {
    var sys := Run(Start(cfg), cfg, events);
    UpdateSingle(sys.receiver, 3, {3});
    assert AllRead(sys, 3);
    assert !CanRefill(sys.receiver.streams[3], 3 in {3});
    RunReturns(cfg, events, [3], {3}, 3);
    hide Run, Covers, AllRead, SendableAfter;
  }

  /** If the window or the largest increment of a stream is below two bytes, a stream can be stuck. */
  lemma StreamCanBeStuck(cfg: Config)
    requires SafeConfig(cfg) && (cfg.streamWindow < 2 || cfg.maxStreamIncrement < 2)
    ensures !NeverStuck(cfg)
  {
    hide OnlyThree, Run, NeverStuck;
    var w := cfg.streamWindow;
    if w < 2 || cfg.maxStreamIncrement == 0 {
      ReadWholeRun(cfg);
      ThreeStuck(cfg, ReadWhole(w), w, w, 0);
    } else {
      OneMoreRun(cfg);
      ThreeStuck(cfg, ReadWhole(w) + OneMore(w), w + 1, 1, w + 1);
    }
  }

  // ---- The same for the connection ----

  /** Without adjustments the streams demand nothing. */
  lemma {:induction false} NoDemand(m: Manager, order: seq<nat>, soon: set<nat>)
    requires forall id :: id in order ==> id in m.streams && id !in soon
    ensures LargestDemand(m, false, order, soon) == 0
    decreases |order|
  {
    if order != [] {
      NoDemand(m, order[..|order| - 1], soon);
    }
  }

  /** Everything was read, the connection cannot refill, and no stream helps. */
  lemma ConnStuck(cfg: Config, events: seq<Event>, order: seq<nat>, soon: set<nat>, id: nat)
    requires SafeConfig(cfg) && Contributes(id)
    requires var sys := Run(Start(cfg), cfg, events);
             Covers(order, sys.receiver) && AllRead(sys, id) && !CanRefill(sys.receiver.conn, 0 in soon)
    requires forall x :: x in order ==> x !in soon
    ensures !NeverStuck(cfg)
  {
    var sys := Run(Start(cfg), cfg, events);
    RunReturns(cfg, events, order, soon, id);
    NoDemand(sys.receiver, order, soon);
    hide Run, Covers, AllRead, SendableAfter, LargestDemand, CanRefill;
  }

  /** One byte on each of as many streams as the connection's window has bytes, all read. */
  lemma RoundsRead(sys: System, cfg: Config, k: nat)
    requires 0 < k && AfterRounds(sys, cfg, k, k)
    ensures AllRead(sys, Id(0)) && Covers(Order(k), sys.receiver)
    ensures sys.receiver.conn.bytesRead == sys.receiver.conn.highestReceived == k && sys.receiver.conn.armed
    ensures sys.receiver.conn.receiveWindow == sys.receiver.conn.increment == cfg.connWindow
    ensures sys.receiver.conn.maxIncrement == cfg.maxConnIncrement
  {
    OrderCovers(sys, cfg, k, k);
    hide Covers, Order;
  }

  lemma OrderLarge(k: nat)
    ensures forall x :: x in Order(k) ==> x >= 4
  {
  }

  /** The largest increment of the connection is 0, or its window is 1. */
  lemma RoundsStuck(cfg: Config)
    requires SafeConfig(cfg) && cfg.streamWindow >= 2 && cfg.connWindow > 0
    requires cfg.connWindow < 2 || cfg.maxConnIncrement == 0
    ensures !NeverStuck(cfg)
  {
    var k := cfg.connWindow;
    RoundsInv(cfg, k, k);
    hide Run;
    RoundsRead(Run(Start(cfg), cfg, Rounds(k, k)), cfg, k);
    OrderLarge(k);
    hide Order, Covers, AllRead, AfterRounds;
    ConnStuck(cfg, Rounds(k, k), Order(k), {0}, Id(0));
  }

  /** Nothing can be sent on a connection without a window. */
  lemma NoConnWindow(cfg: Config)
    requires SafeConfig(cfg) && cfg.connWindow == 0
    ensures !NeverStuck(cfg)
  {
    var events := [SenderOpens(4), ReceiverOpens(4)];
    RunTwo(Start(cfg), cfg, events[0], events[1]);
    var sys := Run(Start(cfg), cfg, events);
    assert sys.receiver.streams.Keys == {4} && sys.sender.streams.Keys == {4};
    assert (set x | x in [4]) == {4};
    hide Run;
    ConnStuck(cfg, events, [4], {0}, 4);
  }

  /** Then the window of the connection moves by one byte, which is used and read as well. */
  function OneMoreByte(k: nat): seq<Event> {
    [ReceiverUpdates(false, Order(k), {0}), SenderLearns(WindowUpdate(0, k + 1)), SenderSends(Id(0), 1),
     DataArrives(Id(0), 2), ReceiverReads(Id(0), 1)]
  }

  /** The update of the connection, when its largest increment is 1. */
  lemma ByteGranted(sys: System, cfg: Config)
    requires cfg.streamWindow >= 2 && cfg.connWindow >= 2 && cfg.maxConnIncrement == 1
    requires AfterRounds(sys, cfg, cfg.connWindow, cfg.connWindow)
    ensures var k, sys1 := cfg.connWindow, ReceiverUpdate(sys, false, Order(cfg.connWindow), {0});
            && sys1.receiver
               == Manager(sys.receiver.streams, sys.receiver.conn.(receiveWindow := k + 1, increment := 1))
            && sys1 == sys.(receiver := sys1.receiver, granted := sys1.granted, updates := sys1.updates)
            && WindowUpdate(0, k + 1) in sys1.updates
  {
    var k := cfg.connWindow;
    OrderCovers(sys, cfg, k, k);
    OrderIn(Order(k), sys.receiver);
    NoneDue(sys.receiver, cfg, Order(k), {0});
    UpdateRefills(sys.receiver.conn, true);
    hide UpdateStreams, Covers, Order, OneByte, MaybeUpdateWindow;
  }

  /** The byte is sent, received and read; then the connection has one byte of increment and nothing left. */
  lemma ByteUsed(sys: System, cfg: Config, k: nat)
    requires cfg.streamWindow >= 2 && 0 < k && Id(0) in sys.sender.streams && Id(0) in sys.receiver.streams
    requires sys.sender.streams[Id(0)] == Fresh(cfg).(bytesSent := 1)
    requires OneByte(cfg, sys.receiver.streams[Id(0)]) && sys.receiver.streams[Id(0)].bytesRead == 1
    requires sys.sender.conn.bytesSent == k && sys.sender.conn.sendWindow == 0 && sys.reset == {}
    requires Get(sys.sent, Id(0)) == 1 && WindowUpdate(0, k + 1) in sys.updates
    requires var c := sys.receiver.conn;
             c.bytesRead == c.highestReceived == k && c.receiveWindow == k + 1 && c.increment == 1
    ensures var s1 := SenderSend(SenderLearn(sys, WindowUpdate(0, k + 1)), cfg, Id(0), 1);
            var s3 := ReceiverRead(DataArrive(s1, Id(0), 2), Id(0), 1);
            && AllRead(s3, Id(0)) && s3.receiver.streams.Keys == sys.receiver.streams.Keys
            && s3.receiver.conn.bytesRead == s3.receiver.conn.receiveWindow == k + 1 && s3.receiver.conn.increment == 1
  {
    var s0 := SenderLearn(sys, WindowUpdate(0, k + 1));
    assert s0.sender.conn.sendWindow == k + 1;
    var s1 := SenderSend(s0, cfg, Id(0), 1);
    assert s1.sender.conn.bytesSent == k + 1 && Get(s1.sent, Id(0)) == 2;
    var s2 := DataArrive(s1, Id(0), 2);
    assert s2.receiver.streams[Id(0)].highestReceived == 2;
  }

  /** The largest increment of the connection is 1. */
  lemma ByteStuck(cfg: Config)
    requires SafeConfig(cfg) && cfg.streamWindow >= 2 && cfg.connWindow >= 2 && cfg.maxConnIncrement == 1
    ensures !NeverStuck(cfg)
  {
    hide Run, Rounds, AfterRounds, OneMoreByte, Covers, AllRead;
    var k := cfg.connWindow;
    RoundsInv(cfg, k, k);
    RunJoin(Start(cfg), cfg, Rounds(k, k), OneMoreByte(k));
    ByteAfter(Run(Start(cfg), cfg, Rounds(k, k)), cfg);
    OrderLarge(k);
    ConnStuck(cfg, Rounds(k, k) + OneMoreByte(k), Order(k), {}, Id(0));
  }

  lemma ByteAfter(sys: System, cfg: Config)
    requires cfg.streamWindow >= 2 && cfg.connWindow >= 2 && cfg.maxConnIncrement == 1
    requires AfterRounds(sys, cfg, cfg.connWindow, cfg.connWindow)
    ensures var k := cfg.connWindow;
            var sys' := Run(sys, cfg, OneMoreByte(k));
            AllRead(sys', Id(0)) && Covers(Order(k), sys'.receiver) && !CanRefill(sys'.receiver.conn, false)
  {
    hide Run, ReceiverUpdate, SenderLearn, SenderSend, DataArrive, ReceiverRead, Order, OneByte;
    var k := cfg.connWindow;
    ByteGranted(sys, cfg);
    OrderCovers(sys, cfg, k, k);
    ByteUsed(ReceiverUpdate(sys, false, Order(k), {0}), cfg, k);
    RunMore(sys, cfg, Order(k), {0}, WindowUpdate(0, k + 1), Id(0), 2);
    hide AfterRounds, AllRead;
  }

  /** With safe windows, used credit comes back in every run if and only if the windows and the largest increments, of
      streams and of the connection, are at least two bytes. */
  lemma NeverStuckExactly(cfg: Config)
    requires SafeConfig(cfg)
    ensures NeverStuck(cfg) <==> Lively(cfg)
  {
    if Lively(cfg) {
      LivelyNeverStuck(cfg);
    } else if cfg.streamWindow < 2 || cfg.maxStreamIncrement < 2 {
      StreamCanBeStuck(cfg);
    } else if cfg.connWindow == 0 {
      NoConnWindow(cfg);
    } else if cfg.connWindow < 2 || cfg.maxConnIncrement == 0 {
      RoundsStuck(cfg);
    } else {
      ByteStuck(cfg);
    }
    hide NeverStuck;
  }

  lemma LivelyNeverStuck(cfg: Config)
    requires SafeConfig(cfg) && Lively(cfg)
    ensures NeverStuck(cfg)
  {
    hide Run, Covers, AllRead, SendableAfter, SafeConfig, Lively;
    forall events, order, soon, id |
        Covers(order, Run(Start(cfg), cfg, events).receiver) && AllRead(Run(Start(cfg), cfg, events), id)
      ensures SendableAfter(Run(Start(cfg), cfg, events), cfg, order, soon, id) > 0
    {
      LivelyReturns(cfg, events, order, soon, id);
    }
  }
}

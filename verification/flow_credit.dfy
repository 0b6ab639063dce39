/** Which WINDOW_UPDATE frames are issued (pstream/internal/flowcontrol/flow_control_manager.go, lines 150 to 170), and
    what they are good for. */
module WindowUpdates {

  import opened Wire
  import opened FlowControlSpec
  import opened FlowProtocol

  // ---- The streams ----

  /** The updates of the streams, in the order of the visits: one for each stream that is due, or all if forced. */
  function Issued(m: Manager, force: bool, order: seq<nat>, soon: set<nat>): seq<WindowUpdate>
    requires forall id :: id in order ==> id in m.streams
  {
    if order == [] then []
    else
      var n := |order| - 1;
      var c := m.streams[order[n]];
      Issued(m, force, order[..n], soon) +
      if force || UpdateDue(c) then [WindowUpdate(order[n], MaybeUpdateWindow(c, order[n] in soon).receiveWindow)]
      else []
  }

  lemma {:induction false} IssuedIs(m: Manager, force: bool, order: seq<nat>, soon: set<nat>)
    requires Distinct(order) && forall id :: id in order ==> id in m.streams
    ensures UpdateStreams(m, force, order, soon).updates == Issued(m, force, order, soon)
    decreases |order|
  {
    if order != [] {
      var n := |order| - 1;
      IssuedIs(m, force, order[..n], soon);
      UpdateAll(m, force, order[..n], soon);
      var u := UpdateStreams(m, force, order[..n], soon);
      assert order[n] !in order[..n];
      assert u.manager.streams[order[n]] == m.streams[order[n]];
      hide StreamsUpdated, UpdateDue, MaybeUpdateWindow;
    }
  }

  lemma {:induction false} IssuedIn(m: Manager, force: bool, order: seq<nat>, soon: set<nat>, w: WindowUpdate)
    requires forall id :: id in order ==> id in m.streams
    ensures w in Issued(m, force, order, soon) <==>
            && w.id in order && (force || UpdateDue(m.streams[w.id]))
            && w.offset == MaybeUpdateWindow(m.streams[w.id], w.id in soon).receiveWindow
    decreases |order|
  {
    if order != [] {
      var n := |order| - 1;
      assert order == order[..n] + [order[n]];
      IssuedIn(m, force, order[..n], soon, w);
      hide UpdateDue, MaybeUpdateWindow;
    }
  }

  // ---- The connection ----

  /** The increment that a stream demands of the connection: one and a half times its own, if it was adjusted or asked
      for by force. */
  function Demand(m: Manager, force: bool, id: nat, soon: set<nat>): nat
    requires id in m.streams
  {
    var c := m.streams[id];
    var c' := MaybeUpdateWindow(c, id in soon);
    if !c.contributes then 0
    else if UpdateDue(c) && c'.increment != c.increment then c'.increment * 3 / 2
    else if !UpdateDue(c) && force then c.increment * 3 / 2
    else 0
  }

  function LargestDemand(m: Manager, force: bool, order: seq<nat>, soon: set<nat>): nat
    requires forall id :: id in order ==> id in m.streams
  {
    if order == [] then 0
    else Max(LargestDemand(m, force, order[..|order| - 1], soon), Demand(m, force, order[|order| - 1], soon))
  }

  /** The largest demand is one of them, and does not depend on the order. */
  lemma {:induction false} LargestIs(m: Manager, force: bool, order: seq<nat>, soon: set<nat>)
    requires forall id :: id in order ==> id in m.streams
    ensures var d := LargestDemand(m, force, order, soon);
            && (forall id :: id in order ==> Demand(m, force, id, soon) <= d)
            && (d == 0 || exists id :: id in order && Demand(m, force, id, soon) == d)
    decreases |order|
  {
    if order != [] {
      var n := |order| - 1;
      LargestIs(m, force, order[..n], soon);
      assert order == order[..n] + [order[n]];
      hide Demand;
    }
  }

  /** A controller whose increment was raised to a demand. */
  function Demanded(c: Controller, demand: nat): Controller {
    if demand > c.increment then c.(increment := Min(demand, c.maxIncrement), armed := false) else c
  }

  lemma DemandedTwice(c: Controller, a: nat, b: nat)
    ensures EnsureMinimumWindowIncrement(Demanded(c, a), b) == Demanded(c, Max(a, b))
  {
  }

  /** The connection at its own turn: its increment was raised to the largest demand, up to its maximum. */
  lemma {:induction false} ConnAtTurn(m: Manager, force: bool, order: seq<nat>, soon: set<nat>)
    requires Distinct(order) && forall id :: id in order ==> id in m.streams
    ensures UpdateStreams(m, force, order, soon).manager.conn == Demanded(m.conn, LargestDemand(m, force, order, soon))
    decreases |order|
  {
    if order != [] {
      var n := |order| - 1;
      ConnAtTurn(m, force, order[..n], soon);
      UpdateAll(m, force, order[..n], soon);
      var u := UpdateStreams(m, force, order[..n], soon);
      assert order[n] !in order[..n];
      assert u.manager.streams[order[n]] == m.streams[order[n]];
      hide StreamsUpdated, UpdateDue, MaybeUpdateWindow, UpdateStreams;
      ConnStep(u, m, force, order[n], soon, LargestDemand(m, force, order[..n], soon));
      UpdateStreamsStep(m, force, order, soon);
    }
  }

  lemma UpdateStreamsStep(m: Manager, force: bool, order: seq<nat>, soon: set<nat>)
    requires order != [] && forall id :: id in order ==> id in m.streams
    ensures var n := |order| - 1;
            UpdateStreams(m, force, order, soon)
            == UpdateStream(UpdateStreams(m, force, order[..n], soon), force, order[n], soon)
  {
    hide UpdateStream;
  }

  lemma ConnStep(u: Updates, m: Manager, force: bool, id: nat, soon: set<nat>, before: nat)
    requires id in u.manager.streams && id in m.streams && u.manager.streams[id] == m.streams[id]
    requires u.manager.conn == Demanded(m.conn, before)
    ensures UpdateStream(u, force, id, soon).manager.conn == Demanded(m.conn, Max(before, Demand(m, force, id, soon)))
  {
    DemandedTwice(m.conn, before, Demand(m, force, id, soon));
    DemandedTwice(m.conn, before, 0);
    hide UpdateDue, MaybeUpdateWindow, ReportedIncrement, Demanded;
  }

  /** The exact content of GetWindowUpdates, for every order of the map. A stream is named if and only if an update is
      forced or less than half of its increment was left before the call, the connection if and only if an update is
      forced or less than half of its increment, after the demands of the streams, was left. The offset is the window
      after the call. */
  lemma UpdatesExactly(m: Manager, force: bool, order: seq<nat>, soon: set<nat>, w: WindowUpdate)
    requires Covers(order, m) && 0 !in m.streams
    ensures forall id :: id in order <==> id in m.streams
    ensures var u := GetWindowUpdates(m, force, order, soon);
            var conn := Demanded(m.conn, LargestDemand(m, force, order, soon));
            && u.manager.streams.Keys == m.streams.Keys
            && u.manager.conn == MaybeUpdateWindow(conn, 0 in soon)
            && (w in u.updates <==>
                  if w.id == 0 then
                    (force || WindowLeft(conn) < conn.increment / 2) && w.offset == u.manager.conn.receiveWindow
                  else
                    && w.id in m.streams
                    && (force || WindowLeft(m.streams[w.id]) < m.streams[w.id].increment / 2)
                    && w.offset == u.manager.streams[w.id].receiveWindow)
  {
    OrderIn(order, m);
    IssuedIs(m, force, order, soon);
    IssuedIn(m, force, order, soon, w);
    ConnAtTurn(m, force, order, soon);
    UpdateAll(m, force, order, soon);
    hide UpdateStreams, Issued, LargestDemand, Demanded, MaybeUpdateWindow, WindowLeft, Covers;
  }

  lemma OrderIn(order: seq<nat>, m: Manager)
    requires Covers(order, m)
    ensures forall id :: id in order <==> id in m.streams
  {
    forall id | id in order
      ensures id in m.streams
    {
      assert id in set x | x in order;
    }
  }
}

/** Credit between the two ends: what the receiver grants reaches the sender, and comes back when it was used. */
module FlowCredit {

  import opened Wire
  import opened FlowControlSpec
  import opened FlowProtocol
  import opened WindowUpdates

  // ---- Every window was announced ----

  /** The window is the initial one, or an update names it. */
  predicate Announced(updates: set<WindowUpdate>, id: nat, window: nat, initial: nat) {
    window == initial || WindowUpdate(id, window) in updates
  }

  /** The window in force at the sender is none, or not below the initial one. */
  predicate AtLeast(sendWindow: nat, initial: nat) {
    sendWindow == 0 || sendWindow >= initial
  }

  /** No update names a window below the initial one. */
  ghost predicate UpdatesAtLeast(sys: System, cfg: Config) {
    forall u :: u in sys.updates && u.id != 1 ==> u.offset >= if u.id == 0 then cfg.connWindow else cfg.streamWindow
  }

  ghost predicate SendersAtLeast(sys: System, cfg: Config) {
    && AtLeast(sys.sender.conn.sendWindow, cfg.connWindow)
    && (forall id :: id in sys.sender.streams && id != 1 ==>
          AtLeast(sys.sender.streams[id].sendWindow, cfg.streamWindow))
  }

  ghost predicate WindowsAnnounced(sys: System, cfg: Config) {
    && Announced(sys.updates, 0, sys.receiver.conn.receiveWindow, cfg.connWindow)
    && (forall id :: id in sys.granted && id != 1 ==> Announced(sys.updates, id, sys.granted[id], cfg.streamWindow))
  }

  ghost predicate Credit(sys: System, cfg: Config) {
    UpdatesAtLeast(sys, cfg) && SendersAtLeast(sys, cfg) && WindowsAnnounced(sys, cfg)
  }

  lemma StartCredit(cfg: Config)
    ensures Credit(Start(cfg), cfg)
  {
  }

  /** A step of the receiver that issues no updates. */
  lemma SameWindows(sys: System, sys': System, cfg: Config)
    requires Credit(sys, cfg)
    requires sys'.updates == sys.updates && sys'.granted == sys.granted && sys'.sender == sys.sender
    requires sys'.receiver.conn.receiveWindow == sys.receiver.conn.receiveWindow
    ensures Credit(sys', cfg)
  {
  }

  lemma SenderStepCredit(sys: System, cfg: Config, e: Event)
    requires Credit(sys, cfg)
    requires e.SenderOpens? || e.SenderSends? || e.SenderResets? || e.SenderForgets?
    ensures Credit(Step(sys, cfg, e), cfg)
  {
  }

  lemma LearnCredit(sys: System, cfg: Config, u: WindowUpdate)
    requires Credit(sys, cfg)
    ensures Credit(SenderLearn(sys, u), cfg)
  {
  }

  lemma OpenCredit(sys: System, cfg: Config, id: nat)
    requires Credit(sys, cfg)
    ensures Credit(ReceiverOpen(sys, cfg, id), cfg)
  {
  }

  lemma ArrivalCredit(sys: System, cfg: Config, e: Event)
    requires Credit(sys, cfg)
    requires e.DataArrives? || e.CryptoArrives? || e.ResetArrives? || e.ReceiverReads? || e.ReceiverForgets?
    ensures Credit(Step(sys, cfg, e), cfg)
  {
    SameWindows(sys, Step(sys, cfg, e), cfg);
    hide Credit;
  }

  /** GetWindowUpdates announces every window that it changes. */
  lemma UpdateCredit(sys: System, cfg: Config, force: bool, order: seq<nat>, soon: set<nat>)
    requires Inv(sys, cfg) && Credit(sys, cfg)
    ensures Credit(ReceiverUpdate(sys, force, order, soon), cfg)
  {
    if Covers(order, sys.receiver) {
      var u := GetWindowUpdates(sys.receiver, force, order, soon);
      var sys' := ReceiverUpdate(sys, force, order, soon);
      NoStreamZero(sys, cfg);
      GetUpdated(sys.receiver, force, order, soon);
      ReceiverUpdatesInv(sys, cfg, force, order, soon);
      hide GetWindowUpdates, Covers;
      UpdatedAtLeast(sys, sys', cfg, soon, u);
      UpdatedAnnounced(sys, sys', cfg, force, order, soon, u);
    }
  }

  lemma UpdatedAtLeast(sys: System, sys': System, cfg: Config, soon: set<nat>, u: Updates)
    requires Credit(sys, cfg) && Inv(sys', cfg) && Updated(sys.receiver, soon, u) && 0 !in sys.receiver.streams
    requires sys' == sys.(receiver := u.manager, granted := sys.granted + Windows(u.manager),
                          updates := sys.updates + (set w | w in u.updates))
    ensures UpdatesAtLeast(sys', cfg)
  {
    hide Total;
    forall w | w in sys'.updates && w.id != 1
      ensures w.offset >= if w.id == 0 then cfg.connWindow else cfg.streamWindow
    {
      if w in u.updates && w.id != 0 {
        assert w.id in Windows(u.manager) && StreamInv(sys', cfg, w.id);
        assert sys'.granted[w.id] == u.manager.streams[w.id].receiveWindow;
      }
    }
  }

  lemma UpdatedAnnounced(sys: System, sys': System, cfg: Config, force: bool, order: seq<nat>, soon: set<nat>,
                         u: Updates)
    requires Inv(sys, cfg) && Credit(sys, cfg) && Covers(order, sys.receiver) && 0 !in sys.receiver.streams
    requires u == GetWindowUpdates(sys.receiver, force, order, soon)
    requires sys' == sys.(receiver := u.manager, granted := sys.granted + Windows(u.manager),
                          updates := sys.updates + (set w | w in u.updates))
    ensures WindowsAnnounced(sys', cfg)
  {
    var m := sys.receiver;
    ConnAnnounced(m, force, order, soon, sys.updates, sys'.updates, cfg);
    forall id | id in sys'.granted && id != 1
      ensures Announced(sys'.updates, id, sys'.granted[id], cfg.streamWindow)
    {
      assert id in sys.granted ==> Announced(sys.updates, id, sys.granted[id], cfg.streamWindow);
      UpdatesExactly(m, force, order, soon, WindowUpdate(0, 0));
      if id in m.streams {
        assert ReceiverInv(sys, id, m.streams[id]);
        StreamAnnounced(m, force, order, soon, id, sys.updates, sys'.updates, cfg);
      }
    }
  }

  lemma StreamAnnounced(m: Manager, force: bool, order: seq<nat>, soon: set<nat>, id: nat,
                        updates: set<WindowUpdate>, updates': set<WindowUpdate>, cfg: Config)
    requires Covers(order, m) && 0 !in m.streams && id in m.streams
    requires var u := GetWindowUpdates(m, force, order, soon); updates' == updates + (set w | w in u.updates)
    requires Announced(updates, id, m.streams[id].receiveWindow, cfg.streamWindow)
    ensures var u := GetWindowUpdates(m, force, order, soon).manager;
            id in u.streams && Announced(updates', id, u.streams[id].receiveWindow, cfg.streamWindow)
  {
    GetUpdated(m, force, order, soon);
    var u := GetWindowUpdates(m, force, order, soon);
    UpdatesExactly(m, force, order, soon, WindowUpdate(id, u.manager.streams[id].receiveWindow));
    UpdateRefills(m.streams[id], id in soon);
    hide GetWindowUpdates, Covers, MaybeUpdateWindow, WindowLeft, LargestDemand;
  }

  lemma ConnAnnounced(m: Manager, force: bool, order: seq<nat>, soon: set<nat>,
                      updates: set<WindowUpdate>, updates': set<WindowUpdate>, cfg: Config)
    requires Covers(order, m) && 0 !in m.streams
    requires var u := GetWindowUpdates(m, force, order, soon); updates' == updates + (set w | w in u.updates)
    requires Announced(updates, 0, m.conn.receiveWindow, cfg.connWindow)
    ensures Announced(updates', 0, GetWindowUpdates(m, force, order, soon).manager.conn.receiveWindow, cfg.connWindow)
  {
    var u := GetWindowUpdates(m, force, order, soon);
    UpdatesExactly(m, force, order, soon, WindowUpdate(0, u.manager.conn.receiveWindow));
    UpdateRefills(Demanded(m.conn, LargestDemand(m, force, order, soon)), 0 in soon);
    hide GetWindowUpdates, Covers, MaybeUpdateWindow, WindowLeft, LargestDemand;
  }

  lemma StepCredit(sys: System, cfg: Config, e: Event)
    requires Inv(sys, cfg) && Credit(sys, cfg)
    ensures Credit(Step(sys, cfg, e), cfg)
  {
    hide Inv, Credit;
    match e
    case SenderLearns(u) => LearnCredit(sys, cfg, u);
    case ReceiverOpens(id) => OpenCredit(sys, cfg, id);
    case ReceiverUpdates(force, order, soon) => UpdateCredit(sys, cfg, force, order, soon);
    case DataArrives(_, _) => ArrivalCredit(sys, cfg, e);
    case CryptoArrives(_) => ArrivalCredit(sys, cfg, e);
    case ResetArrives(_) => ArrivalCredit(sys, cfg, e);
    case ReceiverReads(_, _) => ArrivalCredit(sys, cfg, e);
    case ReceiverForgets(_) => ArrivalCredit(sys, cfg, e);
    case _ => SenderStepCredit(sys, cfg, e);
  }

  lemma {:induction false} RunCredit(sys: System, cfg: Config, events: seq<Event>)
    requires SafeConfig(cfg) && Inv(sys, cfg) && Credit(sys, cfg)
    ensures Credit(Run(sys, cfg, events), cfg)
    decreases |events|
  {
    hide Inv, Credit, Step;
    if events != [] {
      StepInv(sys, cfg, events[0]);
      StepCredit(sys, cfg, events[0]);
      RunCredit(Step(sys, cfg, events[0]), cfg, events[1..]);
    }
  }

  // ---- What the sender may send ----

  /** The sender learns the windows of a stream and of the connection, if there was an update for them. */
  function Learned(sys: System, id: nat): System
    requires id in sys.receiver.streams
  {
    SenderLearn(SenderLearn(sys, WindowUpdate(id, sys.receiver.streams[id].receiveWindow)),
                WindowUpdate(0, sys.receiver.conn.receiveWindow))
  }

  /** What is left of the windows at the receiver. */
  function Room(sys: System, id: nat): int
    requires id in sys.receiver.streams
  {
    var stream := sys.receiver.streams[id].receiveWindow - Get(sys.sent, id);
    var conn := sys.receiver.conn.receiveWindow - sys.sender.conn.bytesSent;
    if Contributes(id) && conn < stream then conn else stream
  }

  lemma LearnedStream(c: Controller, id: nat, window: nat, initial: nat, updates: set<WindowUpdate>)
    requires Announced(updates, id, window, initial) && AtLeast(c.sendWindow, initial)
    requires c.sendWindow <= window && initial <= window && c.bytesSent <= window
    ensures var c' := if WindowUpdate(id, window) in updates then UpdateSendWindow(c, window) else c;
            SendWindowSize(c', initial) == window - c.bytesSent
  {
  }

  /** One end grants, the other may send: with the current windows learned, exactly what is left at the receiver can be
      sent. */
  lemma LearnedRoom(sys: System, cfg: Config, id: nat)
    requires Inv(sys, cfg) && Credit(sys, cfg)
    requires id in sys.sender.streams && id in sys.receiver.streams && id != 1
    ensures var sys' := Learned(sys, id);
            id in sys'.sender.streams && Sendable(sys'.sender, cfg, id) == Room(sys, id)
  {
    hide Inv, Credit, SendWindowSize, Learned;
    NoStreamZero(sys, cfg);
    LearnedControllers(sys, id);
    WindowsAhead(sys, cfg, id);
    LearnedStream(sys.sender.streams[id], id, sys.receiver.streams[id].receiveWindow, cfg.streamWindow, sys.updates);
    LearnedStream(sys.sender.conn, 0, sys.receiver.conn.receiveWindow, cfg.connWindow, sys.updates);
    hide Announced, AtLeast;
  }

  lemma LearnedControllers(sys: System, id: nat)
    requires id in sys.sender.streams && id in sys.receiver.streams && id != 0
    ensures var window, conn := sys.receiver.streams[id].receiveWindow, sys.receiver.conn.receiveWindow;
            var c := sys.sender.streams[id];
            && Learned(sys, id).sender.streams
               == sys.sender.streams[id := if WindowUpdate(id, window) in sys.updates then UpdateSendWindow(c, window)
                                           else c]
            && Learned(sys, id).sender.conn
               == if WindowUpdate(0, conn) in sys.updates then UpdateSendWindow(sys.sender.conn, conn)
                  else sys.sender.conn
  {
    hide UpdateSendWindow;
  }

  /** The sender is never ahead of the receiver's windows, and those are announced. */
  lemma WindowsAhead(sys: System, cfg: Config, id: nat)
    requires Inv(sys, cfg) && Credit(sys, cfg)
    requires id in sys.sender.streams && id in sys.receiver.streams && id != 1
    ensures var c, r := sys.sender.streams[id], sys.receiver.streams[id];
            && c.contributes == Contributes(id) && c.bytesSent == Get(sys.sent, id) <= r.receiveWindow
            && c.sendWindow <= r.receiveWindow && cfg.streamWindow <= r.receiveWindow
            && Announced(sys.updates, id, r.receiveWindow, cfg.streamWindow)
            && AtLeast(c.sendWindow, cfg.streamWindow)
    ensures var c, r := sys.sender.conn, sys.receiver.conn;
            && c.bytesSent <= r.receiveWindow && c.sendWindow <= r.receiveWindow && cfg.connWindow <= r.receiveWindow
            && Announced(sys.updates, 0, r.receiveWindow, cfg.connWindow) && AtLeast(c.sendWindow, cfg.connWindow)
  {
    hide Total, Announced, AtLeast;
    assert SenderInv(sys, cfg, id, sys.sender.streams[id]) && ReceiverInv(sys, id, sys.receiver.streams[id]);
    assert StreamInv(sys, cfg, id);
  }

  /** In every run with safe windows. */
  lemma RoomReaches(cfg: Config, events: seq<Event>, id: nat)
    requires SafeConfig(cfg)
    requires var sys := Run(Start(cfg), cfg, events);
             id in sys.sender.streams && id in sys.receiver.streams && id != 1
    ensures var sys := Run(Start(cfg), cfg, events);
            var sys' := Learned(sys, id);
            id in sys'.sender.streams && Sendable(sys'.sender, cfg, id) == Room(sys, id)
  {
    StartInv(cfg);
    RunInv(Start(cfg), cfg, events);
    StartCredit(cfg);
    RunCredit(Start(cfg), cfg, events);
    hide Run, Inv, Credit, Learned, Room;
    LearnedRoom(Run(Start(cfg), cfg, events), cfg, id);
  }
}

/** When every window update that is due raises the window (pstream/internal/flowcontrol), over whole runs. */
module FlowRaises {

  import opened Wire
  import opened FlowControlSpec
  import opened FlowProtocol
  import opened FlowSafety
  import opened FlowIncrements
  import opened WindowUpdates

  /** A call of GetWindowUpdates raises the window of every stream but the crypto stream that is due for an update, and
      that of the connection if it is due when its turn comes. */
  ghost predicate Raised(m: Manager, force: bool, order: seq<nat>, soon: set<nat>)
    requires Covers(order, m)
  {
    var streams := UpdateStreams(m, force, order, soon).manager;
    var u := GetWindowUpdates(m, force, order, soon).manager;
    && (forall id :: id in m.streams && id != 1 && UpdateDue(m.streams[id]) ==>
          u.streams[id].receiveWindow > m.streams[id].receiveWindow)
    && (UpdateDue(streams.conn) ==> u.conn.receiveWindow > m.conn.receiveWindow)
  }

  /** In every state of every run, for every order of the map and every outcome of the clock. */
  ghost predicate AlwaysRaises(cfg: Config) {
    forall events, force, order, soon ::
      Covers(order, Run(Start(cfg), cfg, events).receiver) ==>
        Raised(Run(Start(cfg), cfg, events).receiver, force, order, soon)
  }

  /** The condition on the handshake's windows. */
  predicate FirmConfig(cfg: Config) {
    && Firm(cfg.streamWindow, cfg.maxStreamIncrement)
    && (cfg.streamWindow == 0 || Firm(cfg.connWindow, cfg.maxConnIncrement))
  }

  // ---- What is enough ----

  /** What the update of each controller needs. */
  ghost predicate Ready(m: Manager) {
    && (forall id :: id in m.streams && id != 1 ==> ReadyOne(m.streams[id]))
    && m.conn.bytesRead <= m.conn.receiveWindow
  }

  predicate ReadyOne(c: Controller) {
    c.bytesRead <= c.receiveWindow && Firm(c.increment, c.maxIncrement)
  }

  /** Each stream is updated once, and the connection keeps its counts until its own turn. */
  lemma ReadyRaises(m: Manager, force: bool, order: seq<nat>, soon: set<nat>)
    requires Covers(order, m) && 0 !in m.streams && Ready(m)
    requires forall id :: id in order ==> id in m.streams
    requires var c := UpdateStreams(m, force, order, soon).manager.conn;
             UpdateDue(c) ==> Firm(c.increment, c.maxIncrement)
    ensures Raised(m, force, order, soon)
  {
    OrderIn(order, m);
    UpdateAll(m, force, order, soon);
    var u := UpdateStreams(m, force, order, soon);
    hide UpdateStreams, Covers;
    forall id | id in m.streams && id != 1 && UpdateDue(m.streams[id])
      ensures u.manager.streams[id].receiveWindow > m.streams[id].receiveWindow
    {
      assert ReadyOne(m.streams[id]);
      UpdateRaises(m.streams[id], id in soon);
    }
    if UpdateDue(u.manager.conn) {
      UpdateRaises(u.manager.conn, 0 in soon);
    }
  }

  lemma BoundedFirm(increment: nat, window: nat, maxIncrement: nat)
    requires increment <= Max(window, maxIncrement) && Firm(window, maxIncrement)
    ensures Firm(increment, maxIncrement)
  {
  }

  /** The states of a run whose windows are firm at both levels. */
  lemma FirmReady(sys: System, cfg: Config)
    requires Inv(sys, cfg) && Bounded(sys.receiver, cfg) && Firm(cfg.streamWindow, cfg.maxStreamIncrement)
    ensures Ready(sys.receiver) && 0 !in sys.receiver.streams
  {
    NoStreamZero(sys, cfg);
    ConnWithin(sys, cfg);
    hide Total;
    forall id | id in sys.receiver.streams && id != 1
      ensures ReadyOne(sys.receiver.streams[id])
    {
      var c := sys.receiver.streams[id];
      assert ReceiverInv(sys, id, c) && StreamInv(sys, cfg, id) && BoundedStream(c, cfg);
      BoundedFirm(c.increment, cfg.streamWindow, cfg.maxStreamIncrement);
    }
  }

  lemma FirmConn(m: Manager, cfg: Config, force: bool, order: seq<nat>, soon: set<nat>)
    requires Bounded(m, cfg) && Firm(cfg.connWindow, cfg.maxConnIncrement)
    requires forall id :: id in order ==> id in m.streams
    ensures var c := UpdateStreams(m, force, order, soon).manager.conn;
            Firm(c.increment, c.maxIncrement)
  {
    UpdatesBounded(m, cfg, force, order, soon);
    hide UpdateStreams;
    var c := UpdateStreams(m, force, order, soon).manager.conn;
    BoundedFirm(c.increment, cfg.connWindow, cfg.maxConnIncrement);
  }

  lemma FirmRaises(cfg: Config, events: seq<Event>, force: bool, order: seq<nat>, soon: set<nat>)
    requires Firm(cfg.streamWindow, cfg.maxStreamIncrement) && Firm(cfg.connWindow, cfg.maxConnIncrement)
    requires Covers(order, Run(Start(cfg), cfg, events).receiver)
    ensures Raised(Run(Start(cfg), cfg, events).receiver, force, order, soon)
  {
    StartInv(cfg);
    RunInv(Start(cfg), cfg, events);
    RunBounded(Start(cfg), cfg, events);
    var sys := Run(Start(cfg), cfg, events);
    hide Run, Inv, Bounded, Covers, Ready, Raised;
    FirmReady(sys, cfg);
    OrderIn(order, sys.receiver);
    FirmConn(sys.receiver, cfg, force, order, soon);
    ReadyRaises(sys.receiver, force, order, soon);
  }

  /** Without a window for streams no controller but that of the crypto stream is ever due. */
  lemma IdleReady(sys: System, force: bool, order: seq<nat>, soon: set<nat>)
    requires IdleInv(sys) && forall id :: id in order ==> id in sys.receiver.streams
    ensures Ready(sys.receiver) && 0 !in sys.receiver.streams
    ensures !UpdateDue(UpdateStreams(sys.receiver, force, order, soon).manager.conn)
  {
    UpdatesIdle(sys.receiver, force, order, soon);
    hide UpdateStreams;
    forall id | id in sys.receiver.streams && id != 1
      ensures ReadyOne(sys.receiver.streams[id])
    {
      assert Idle(id, sys.receiver.streams[id]);
    }
  }

  lemma IdleRaises(cfg: Config, events: seq<Event>, force: bool, order: seq<nat>, soon: set<nat>)
    requires cfg.streamWindow == 0 && Covers(order, Run(Start(cfg), cfg, events).receiver)
    ensures Raised(Run(Start(cfg), cfg, events).receiver, force, order, soon)
  {
    RunIdle(Start(cfg), cfg, events);
    var sys := Run(Start(cfg), cfg, events);
    hide Run, IdleInv, Covers, Ready, Raised;
    OrderIn(order, sys.receiver);
    IdleReady(sys, force, order, soon);
    ReadyRaises(sys.receiver, force, order, soon);
  }

  // ---- What is needed ----

  /** The receiver after a stream filled its window and the application read a little more than half of it. */
  function HalfReadRun(cfg: Config): System {
    Run(Start(cfg), cfg, ShrinkStream(cfg.streamWindow)[..5])
  }

  lemma HalfReadIs(cfg: Config)
    requires cfg.streamWindow >= 2
    ensures HalfReadRun(cfg).receiver.streams == map[3 := HalfReadController(cfg)]
  {
    hide Step, HalfReadController, NewController;
    var e := ShrinkStream(cfg.streamWindow);
    ShrinkStart(cfg);
    ShrinkRead(Step(Step(Step(Start(cfg), cfg, e[0]), cfg, e[1]), cfg, e[2]), cfg);
    assert e[..5] == [e[0], e[1], e[2], e[3], e[4]];
    RunFive(Start(cfg), cfg, e[0], e[1], e[2], e[3], e[4]);
  }

  /** If the window of a stream is not firm, an update that is due leaves it where it is, or lowers it. */
  lemma StreamCanStall(cfg: Config)
    requires !Firm(cfg.streamWindow, cfg.maxStreamIncrement)
    ensures Covers([3], HalfReadRun(cfg).receiver) && !Raised(HalfReadRun(cfg).receiver, false, [3], {3})
  {
    HalfReadIs(cfg);
    hide HalfReadRun;
    var m := HalfReadRun(cfg).receiver;
    UpdateSingle(m, 3, {3});
    UpdateRaises(HalfReadController(cfg), true);
    hide GetWindowUpdates, Covers, UpdateStreams;
    assert 3 in m.streams && UpdateDue(m.streams[3]);
  }

  /** The receiver after all streams carried one byte, a little more than half of which were read. */
  ghost function HalfReadRounds(cfg: Config): System {
    Run(Start(cfg), cfg, Rounds(cfg.connWindow, HalfRead(cfg.connWindow)))
  }

  /** The same for the connection. */
  lemma ConnCanStall(cfg: Config)
    requires !Firm(cfg.connWindow, cfg.maxConnIncrement) && 0 < cfg.streamWindow
    ensures var m, order := HalfReadRounds(cfg).receiver, Order(cfg.connWindow);
            Covers(order, m) && !Raised(m, false, order, {0})
  {
    var sys, k := HalfReadRounds(cfg), cfg.connWindow;
    RoundsInv(cfg, k, HalfRead(k));
    hide HalfReadRounds, Run;
    OrderCovers(sys, cfg, k, HalfRead(k));
    ConnStalls(sys, cfg, k);
  }

  lemma ConnStalls(sys: System, cfg: Config, k: nat)
    requires !Firm(cfg.connWindow, cfg.maxConnIncrement) && 0 < cfg.streamWindow && k == cfg.connWindow
    requires AfterRounds(sys, cfg, k, HalfRead(k)) && Covers(Order(k), sys.receiver)
    ensures !Raised(sys.receiver, false, Order(k), {0})
  {
    OrderIn(Order(k), sys.receiver);
    NoneDue(sys.receiver, cfg, Order(k), {0});
    UpdateRaises(sys.receiver.conn, true);
    hide UpdateStreams, Covers, Order;
  }

  /** Every update that is due raises the window, in every run, if and only if half of the initial stream window is at
      most the largest increment, and the same holds for the connection unless the stream window is zero. */
  lemma RaisesExactly(cfg: Config)
    ensures AlwaysRaises(cfg) <==> FirmConfig(cfg)
  {
    if FirmConfig(cfg) {
      FirmAlways(cfg);
    } else if !Firm(cfg.streamWindow, cfg.maxStreamIncrement) {
      StreamCanStall(cfg);
      NotAlways(cfg, ShrinkStream(cfg.streamWindow)[..5], [3], {3});
    } else {
      ConnCanStall(cfg);
      NotAlways(cfg, Rounds(cfg.connWindow, HalfRead(cfg.connWindow)), Order(cfg.connWindow), {0});
    }
  }

  lemma FirmAlways(cfg: Config)
    requires FirmConfig(cfg)
    ensures AlwaysRaises(cfg)
  {
    hide Run, Raised, Covers;
    forall events, force, order, soon | Covers(order, Run(Start(cfg), cfg, events).receiver)
      ensures Raised(Run(Start(cfg), cfg, events).receiver, force, order, soon)
    {
      if cfg.streamWindow == 0 {
        IdleRaises(cfg, events, force, order, soon);
      } else {
        FirmRaises(cfg, events, force, order, soon);
      }
    }
  }

  lemma NotAlways(cfg: Config, events: seq<Event>, order: seq<nat>, soon: set<nat>)
    requires Covers(order, Run(Start(cfg), cfg, events).receiver)
    requires !Raised(Run(Start(cfg), cfg, events).receiver, false, order, soon)
    ensures !AlwaysRaises(cfg)
  {
    hide Run, Raised, Covers;
  }
}

/** When flow control (pstream/internal/flowcontrol) is safe between honest peers. */
module FlowSafety {

  import opened Wire
  import opened FlowControlSpec
  import opened FlowProtocol

  // ---- Without a window for streams nothing is ever sent ----

  predicate Idle(id: nat, c: Controller) {
    c.contributes == Contributes(id) &&
    (id != 1 ==> c.highestReceived == c.bytesRead == c.receiveWindow == c.increment == c.sendWindow == 0)
  }

  ghost predicate IdleManager(m: Manager) {
    && m.conn.highestReceived == m.conn.bytesRead == 0 && m.conn.receiveWindow == m.conn.increment
    && forall id :: id in m.streams ==> id != 0 && Idle(id, m.streams[id])
  }

  ghost predicate IdleInv(sys: System) {
    && IdleManager(sys.sender) && IdleManager(sys.receiver)
    && (forall id :: id != 1 ==> Get(sys.sent, id) == 0)
    && (forall u :: u in sys.updates && u.id != 0 && u.id != 1 ==> u.offset == 0)
    && sys.violated <= {1}
  }

  ghost predicate IdleUpdates(u: Updates) {
    IdleManager(u.manager) && forall w :: w in u.updates && w.id != 0 && w.id != 1 ==> w.offset == 0
  }

  lemma UpdateIdle(u: Updates, force: bool, id: nat, soon: set<nat>)
    requires IdleUpdates(u) && id in u.manager.streams
    ensures IdleUpdates(UpdateStream(u, force, id, soon))
  {
    assert Idle(id, u.manager.streams[id]);
  }

  lemma {:induction false} UpdatesIdle(m: Manager, force: bool, order: seq<nat>, soon: set<nat>)
    requires IdleManager(m) && forall id :: id in order ==> id in m.streams
    ensures IdleUpdates(UpdateStreams(m, force, order, soon))
    decreases |order|
  {
    if order != [] {
      hide IdleUpdates, UpdateStream;
      var n := |order| - 1;
      UpdatesIdle(m, force, order[..n], soon);
      UpdateIdle(UpdateStreams(m, force, order[..n], soon), force, order[n], soon);
    }
  }

  lemma ReceiverUpdateIdle(sys: System, force: bool, order: seq<nat>, soon: set<nat>)
    requires IdleInv(sys)
    ensures IdleInv(ReceiverUpdate(sys, force, order, soon))
  {
    if Covers(order, sys.receiver) {
      UpdatesIdle(sys.receiver, force, order, soon);
      hide UpdateStreams;
    }
  }

  lemma ArrivalIdle(sys: System, id: nat, end: nat)
    requires IdleInv(sys) && (id == 1 || end == 0)
    ensures IdleInv(Arrival(sys, id, Receive(sys.receiver, id, end), end))
  {
    if id in sys.receiver.streams {
      assert Idle(id, sys.receiver.streams[id]);
    }
  }

  lemma SenderSendIdle(sys: System, cfg: Config, id: nat, n: nat)
    requires IdleInv(sys) && cfg.streamWindow == 0
    ensures IdleInv(SenderSend(sys, cfg, id, n))
  {
    if id in sys.sender.streams && id != 1 && n <= Sendable(sys.sender, cfg, id) {
      assert Idle(id, sys.sender.streams[id]);
      assert Sendable(sys.sender, cfg, id) == 0;
      var sent := sys.sent[id := Get(sys.sent, id) + n];
      assert forall x :: x != 1 ==> Get(sent, x) == Get(sys.sent, x);
    }
  }

  lemma SenderLearnIdle(sys: System, u: WindowUpdate)
    requires IdleInv(sys)
    ensures IdleInv(SenderLearn(sys, u))
  {
    if u in sys.updates && u.id in sys.sender.streams {
      assert Idle(u.id, sys.sender.streams[u.id]);
    }
  }

  lemma OpenIdle(sys: System, cfg: Config, id: nat)
    requires IdleInv(sys) && cfg.streamWindow == 0
    ensures IdleInv(SenderOpen(sys, cfg, id)) && IdleInv(ReceiverOpen(sys, cfg, id))
  {
  }

  lemma ReceiverReadIdle(sys: System, id: nat, n: nat)
    requires IdleInv(sys)
    ensures IdleInv(ReceiverRead(sys, id, n))
  {
    if id in sys.receiver.streams {
      assert Idle(id, sys.receiver.streams[id]);
    }
  }

  lemma ForgetIdle(sys: System, id: nat)
    requires IdleInv(sys)
    ensures IdleInv(sys.(sender := RemoveStream(sys.sender, id)))
    ensures IdleInv(sys.(receiver := RemoveStream(sys.receiver, id)))
  {
  }

  lemma DataIdle(sys: System, id: nat, end: nat)
    requires IdleInv(sys)
    ensures IdleInv(DataArrive(sys, id, end)) && IdleInv(ResetArrive(sys, id))
  {
    ArrivalIdle(sys, id, 0);
  }

  lemma StepIdle(sys: System, cfg: Config, e: Event)
    requires IdleInv(sys) && cfg.streamWindow == 0
    ensures IdleInv(Step(sys, cfg, e))
  {
    hide SenderOpen, SenderSend, SenderLearn, ReceiverOpen, DataArrive, ResetArrive, ReceiverRead, ReceiverUpdate;
    hide Arrival, IdleManager, RemoveStream;
    match e
    case SenderOpens(id) => OpenIdle(sys, cfg, id);
    case SenderSends(id, n) => SenderSendIdle(sys, cfg, id, n);
    case SenderLearns(u) => SenderLearnIdle(sys, u);
    case SenderResets(_) =>
    case SenderForgets(id) => ForgetIdle(sys, id);
    case ReceiverOpens(id) => OpenIdle(sys, cfg, id);
    case DataArrives(id, end) => DataIdle(sys, id, end);
    case CryptoArrives(end) => ArrivalIdle(sys, 1, end);
    case ResetArrives(id) => DataIdle(sys, id, 0);
    case ReceiverReads(id, n) => ReceiverReadIdle(sys, id, n);
    case ReceiverUpdates(force, order, soon) => ReceiverUpdateIdle(sys, force, order, soon);
    case ReceiverForgets(id) => ForgetIdle(sys, id);
  }

  lemma {:induction false} RunIdle(sys: System, cfg: Config, events: seq<Event>)
    requires IdleInv(sys) && cfg.streamWindow == 0
    ensures IdleInv(Run(sys, cfg, events))
    decreases |events|
  {
    hide IdleInv, Step;
    if events != [] {
      StepIdle(sys, cfg, events[0]);
      RunIdle(Step(sys, cfg, events[0]), cfg, events[1..]);
    }
  }

  // ---- The exact condition ----

  /** The increments may grow to about half of the initial windows; the connection's window does not matter if no
      stream has one. */
  predicate Safe(cfg: Config) {
    && Steady(cfg.streamWindow, cfg.maxStreamIncrement)
    && (cfg.streamWindow == 0 || Steady(cfg.connWindow, cfg.maxConnIncrement))
  }

  lemma SafeRuns(cfg: Config, events: seq<Event>)
    requires Safe(cfg)
    ensures Run(Start(cfg), cfg, events).violated <= {1}
  {
    if cfg.streamWindow == 0 {
      RunIdle(Start(cfg), cfg, events);
    } else {
      NeverViolated(cfg, events);
    }
  }

  /** Honest peers never violate flow control, whatever the network does, if and only if the windows of the handshake
      are safe. */
  lemma SafeExactly(cfg: Config)
    ensures Safe(cfg) <==> forall events :: Run(Start(cfg), cfg, events).violated <= {1}
  {
    hide Run;
    if Safe(cfg) {
      forall events
        ensures Run(Start(cfg), cfg, events).violated <= {1}
      {
        SafeRuns(cfg, events);
      }
    } else if !Steady(cfg.streamWindow, cfg.maxStreamIncrement) {
      StreamCanBeViolated(cfg);
      assert !(Run(Start(cfg), cfg, ShrinkStream(cfg.streamWindow)).violated <= {1});
    } else {
      ConnCanBeViolated(cfg);
      assert !(Run(Start(cfg), cfg, ShrinkConnection(cfg.connWindow)).violated <= {1});
    }
  }
}

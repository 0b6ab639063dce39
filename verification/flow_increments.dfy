/** The window increments over whole runs of flow control (pstream/internal/flowcontrol/flow_controller.go). */
module FlowIncrements {

  import opened Wire
  import opened FlowControlSpec
  import opened FlowProtocol

  /** Increments do not exceed the larger of the initial window and the largest increment. */
  ghost predicate Bounded(m: Manager, cfg: Config) {
    && m.conn.maxIncrement == cfg.maxConnIncrement && m.conn.increment <= Max(cfg.connWindow, cfg.maxConnIncrement)
    && (forall id :: id in m.streams ==> BoundedStream(m.streams[id], cfg))
  }

  predicate BoundedStream(c: Controller, cfg: Config) {
    c.maxIncrement == cfg.maxStreamIncrement && c.increment <= Max(cfg.streamWindow, cfg.maxStreamIncrement)
  }

  lemma UpdateBounded(u: Updates, cfg: Config, force: bool, id: nat, soon: set<nat>)
    requires Bounded(u.manager, cfg) && id in u.manager.streams
    ensures Bounded(UpdateStream(u, force, id, soon).manager, cfg)
  {
    assert BoundedStream(u.manager.streams[id], cfg);
  }

  lemma {:induction false} UpdatesBounded(m: Manager, cfg: Config, force: bool, order: seq<nat>, soon: set<nat>)
    requires Bounded(m, cfg) && forall id :: id in order ==> id in m.streams
    ensures Bounded(UpdateStreams(m, force, order, soon).manager, cfg)
    decreases |order|
  {
    if order != [] {
      hide Bounded, UpdateStream;
      var n := |order| - 1;
      UpdatesBounded(m, cfg, force, order[..n], soon);
      UpdateBounded(UpdateStreams(m, force, order[..n], soon), cfg, force, order[n], soon);
    }
  }

  lemma UpdateAllBounded(sys: System, cfg: Config, force: bool, order: seq<nat>, soon: set<nat>)
    requires Bounded(sys.receiver, cfg)
    ensures Bounded(ReceiverUpdate(sys, force, order, soon).receiver, cfg)
  {
    if Covers(order, sys.receiver) {
      UpdatesBounded(sys.receiver, cfg, force, order, soon);
      hide UpdateStreams;
    }
  }

  lemma ReceiveBounded(m: Manager, cfg: Config, id: nat, offset: nat)
    requires Bounded(m, cfg)
    ensures Bounded(Receive(m, id, offset).0, cfg) && Bounded(Reset(m, id, offset).0, cfg)
  {
    if id in m.streams {
      assert BoundedStream(m.streams[id], cfg);
    }
  }

  lemma ReadBounded(m: Manager, cfg: Config, id: nat, n: nat)
    requires Bounded(m, cfg)
    ensures Bounded(ReadBytes(m, id, n), cfg)
  {
    if id in m.streams {
      assert BoundedStream(m.streams[id], cfg);
    }
  }

  lemma OpenBounded(m: Manager, cfg: Config, id: nat)
    requires Bounded(m, cfg)
    ensures Bounded(NewStream(m, cfg, id), cfg) && Bounded(RemoveStream(m, id), cfg)
  {
  }

  lemma StepBounded(sys: System, cfg: Config, e: Event)
    requires Bounded(sys.receiver, cfg)
    ensures Bounded(Step(sys, cfg, e).receiver, cfg)
  {
    hide Bounded, Receive, Reset, ReadBytes, NewStream, RemoveStream, ReceiverUpdate, SendBytes, UpdateWindow;
    var m := sys.receiver;
    match e
    case ReceiverOpens(id) => OpenBounded(m, cfg, id);
    case DataArrives(id, end) => ReceiveBounded(m, cfg, id, end);
    case CryptoArrives(end) => ReceiveBounded(m, cfg, 1, end);
    case ResetArrives(id) => ReceiveBounded(m, cfg, id, Get(sys.sent, id));
    case ReceiverReads(id, n) => ReadBounded(m, cfg, id, n);
    case ReceiverUpdates(force, order, soon) => UpdateAllBounded(sys, cfg, force, order, soon);
    case ReceiverForgets(id) => OpenBounded(m, cfg, id);
    case _ =>
  }

  lemma {:induction false} RunBounded(sys: System, cfg: Config, events: seq<Event>)
    requires Bounded(sys.receiver, cfg)
    ensures Bounded(Run(sys, cfg, events).receiver, cfg)
    decreases |events|
  {
    hide Bounded, Step;
    if events != [] {
      StepBounded(sys, cfg, events[0]);
      RunBounded(Step(sys, cfg, events[0]), cfg, events[1..]);
    }
  }

  /** No increment exceeds the configured largest one. */
  ghost predicate Capped(m: Manager, cfg: Config) {
    && m.conn.increment <= cfg.maxConnIncrement
    && (forall id :: id in m.streams ==> m.streams[id].increment <= cfg.maxStreamIncrement)
  }

  /** The increments stay within the configured maximum in every run if and only if the initial windows do. */
  lemma CappedExactly(cfg: Config)
    ensures (forall events :: Capped(Run(Start(cfg), cfg, events).receiver, cfg))
            <==> cfg.streamWindow <= cfg.maxStreamIncrement && cfg.connWindow <= cfg.maxConnIncrement
  {
    if cfg.streamWindow <= cfg.maxStreamIncrement && cfg.connWindow <= cfg.maxConnIncrement {
      forall events
        ensures Capped(Run(Start(cfg), cfg, events).receiver, cfg)
      {
        RunBounded(Start(cfg), cfg, events);
        BoundedCapped(Run(Start(cfg), cfg, events).receiver, cfg);
      }
    } else {
      RunOne(Start(cfg), cfg, ReceiverOpens(4));
      assert !Capped(Run(Start(cfg), cfg, [ReceiverOpens(4)]).receiver, cfg) by {
        OpenedStream(cfg);
      }
    }
  }

  lemma BoundedCapped(m: Manager, cfg: Config)
    requires Bounded(m, cfg) && cfg.streamWindow <= cfg.maxStreamIncrement && cfg.connWindow <= cfg.maxConnIncrement
    ensures Capped(m, cfg)
  {
    forall id | id in m.streams
      ensures m.streams[id].increment <= cfg.maxStreamIncrement
    {
      assert BoundedStream(m.streams[id], cfg);
    }
  }

  lemma OpenedStream(cfg: Config)
    ensures var m := Step(Start(cfg), cfg, ReceiverOpens(4)).receiver;
            m.conn.increment == cfg.connWindow && 4 in m.streams && m.streams[4].increment == cfg.streamWindow
  {
  }
}

/** Credit-based flow control between a sender and a receiver, over a network that loses, delays and reorders data and
    WINDOW_UPDATE frames. One direction of a connection; the other one is the same with the roles exchanged. */
module FlowProtocol {

  import opened Wire
  import opened FlowControlSpec

  // ---- Totals ----

  function Get(m: map<nat, nat>, id: nat): nat {
    if id in m then m[id] else 0
  }

  function Total(ids: seq<nat>, m: map<nat, nat>): nat {
    if ids == [] then 0 else Get(m, ids[0]) + Total(ids[1..], m)
  }

  lemma {:induction false} TotalUntouched(ids: seq<nat>, m: map<nat, nat>, id: nat, v: nat)
    requires id !in ids
    ensures Total(ids, m[id := v]) == Total(ids, m)
  {
    if ids != [] {
      TotalUntouched(ids[1..], m, id, v);
    }
  }

  lemma {:induction false} TotalUpdate(ids: seq<nat>, m: map<nat, nat>, id: nat, v: nat)
    requires Distinct(ids) && id in ids
    ensures Total(ids, m[id := v]) == Total(ids, m) - Get(m, id) + v
  {
    if ids[0] == id {
      assert id !in ids[1..];
      TotalUntouched(ids[1..], m, id, v);
    } else {
      TotalUpdate(ids[1..], m, id, v);
    }
  }

  lemma {:induction false} TotalAtMost(ids: seq<nat>, m: map<nat, nat>, bound: map<nat, nat>)
    requires forall id :: id in ids ==> Get(m, id) <= Get(bound, id)
    ensures Total(ids, m) <= Total(ids, bound)
  {
    if ids != [] {
      TotalAtMost(ids[1..], m, bound);
    }
  }

  lemma {:induction false} TotalAppend(ids: seq<nat>, m: map<nat, nat>, id: nat)
    ensures Total(ids + [id], m) == Total(ids, m) + Get(m, id)
  {
    if ids == [] {
      assert ids + [id] == [id];
    } else {
      assert (ids + [id])[1..] == ids[1..] + [id];
      TotalAppend(ids[1..], m, id);
    }
  }

  // ---- The protocol ----

  datatype Event =
    | SenderOpens(id: nat)
    | SenderSends(id: nat, n: nat)              // fresh data, within the window that send reads
    | SenderLearns(update: WindowUpdate)        // any WINDOW_UPDATE ever sent arrives, any number of times
    | SenderResets(id: nat)
    | SenderForgets(id: nat)
    | ReceiverOpens(id: nat)
    | DataArrives(id: nat, end: nat)            // any piece of data sent so far, fresh or retransmitted
    | CryptoArrives(end: nat)                   // stream 1 is sent without flow control
    | ResetArrives(id: nat)
    | ReceiverReads(id: nat, n: nat)
    | ReceiverUpdates(force: bool, order: seq<nat>, soon: set<nat>)
    | ReceiverForgets(id: nat)

  datatype System = System(
    sender: Manager,
    receiver: Manager,
    ids: seq<nat>,              // contributing streams that either end has opened, in order
    sent: map<nat, nat>,        // bytes sent per stream, also after the stream was removed
    received: map<nat, nat>,    // highest offset received per stream, also after the stream was removed
    read: map<nat, nat>,        // bytes read per stream, also after the stream was removed
    reset: set<nat>,            // streams that the sender reset
    accepted: set<nat>,         // streams that the receiver has ever opened
    started: set<nat>,          // streams that the sender has ever opened
    granted: map<nat, nat>,     // the receive window of each stream the receiver has ever opened
    updates: set<WindowUpdate>, // every WINDOW_UPDATE ever sent
    violated: set<nat>)         // streams for which a violation was reported, 0 for the connection

  function Start(cfg: Config): System {
    System(NewManager(cfg), NewManager(cfg), [], map[], map[], map[], {}, {}, {}, map[], {}, {})
  }

  function Announce(ids: seq<nat>, id: nat): seq<nat> {
    if Contributes(id) && id !in ids then ids + [id] else ids
  }

  /** The window that the receiver has granted for a stream: its receive window, or the initial one. */
  function Granted(sys: System, cfg: Config, id: nat): nat {
    if id in sys.granted then sys.granted[id] else cfg.streamWindow
  }

  function Windows(m: Manager): map<nat, nat> {
    map id | id in m.streams :: m.streams[id].receiveWindow
  }

  /** The order names each stream of the manager once. */
  predicate Covers(order: seq<nat>, m: Manager) {
    Distinct(order) && (set id | id in order) == m.streams.Keys
  }

  function Arrival(sys: System, id: nat, r: (Manager, ReceiveResult), end: nat): System {
    sys.(receiver := r.0,
         received := if id in sys.receiver.streams then sys.received[id := Max(end, Get(sys.received, id))]
                     else sys.received,
         violated := match r.1
                     case StreamViolation => sys.violated + {id}
                     case ConnViolation => sys.violated + {0}
                     case _ => sys.violated)
  }

  function SenderOpen(sys: System, cfg: Config, id: nat): System {
    if id == 0 || id in sys.started then sys
    else sys.(sender := NewStream(sys.sender, cfg, id), ids := Announce(sys.ids, id), started := sys.started + {id})
  }

  function SenderSend(sys: System, cfg: Config, id: nat, n: nat): System {
    if id in sys.sender.streams && id != 1 && id !in sys.reset && n <= Sendable(sys.sender, cfg, id)
    then sys.(sender := SendBytes(sys.sender, id, n), sent := sys.sent[id := Get(sys.sent, id) + n])
    else sys
  }

  function SenderLearn(sys: System, u: WindowUpdate): System {
    if u in sys.updates then sys.(sender := UpdateWindow(sys.sender, u.id, u.offset)) else sys
  }

  function ReceiverOpen(sys: System, cfg: Config, id: nat): System {
    if id == 0 || id in sys.accepted then sys
    else sys.(receiver := NewStream(sys.receiver, cfg, id), ids := Announce(sys.ids, id),
              accepted := sys.accepted + {id}, granted := sys.granted[id := cfg.streamWindow])
  }

  function DataArrive(sys: System, id: nat, end: nat): System {
    if id != 1 && end <= Get(sys.sent, id) then Arrival(sys, id, Receive(sys.receiver, id, end), end) else sys
  }

  function ResetArrive(sys: System, id: nat): System {
    if id != 1 && id in sys.reset
    then Arrival(sys, id, Reset(sys.receiver, id, Get(sys.sent, id)), Get(sys.sent, id)) else sys
  }

  function ReceiverRead(sys: System, id: nat, n: nat): System {
    if id in sys.receiver.streams && sys.receiver.streams[id].bytesRead + n <= sys.receiver.streams[id].highestReceived
    then sys.(receiver := ReadBytes(sys.receiver, id, n), read := sys.read[id := Get(sys.read, id) + n]) else sys
  }

  function ReceiverUpdate(sys: System, force: bool, order: seq<nat>, soon: set<nat>): System {
    if Covers(order, sys.receiver) then
      var u := GetWindowUpdates(sys.receiver, force, order, soon);
      sys.(receiver := u.manager, granted := sys.granted + Windows(u.manager),
           updates := sys.updates + (set w | w in u.updates))
    else sys
  }

  function Step(sys: System, cfg: Config, e: Event): System {
    match e
    case SenderOpens(id) => SenderOpen(sys, cfg, id)
    case SenderSends(id, n) => SenderSend(sys, cfg, id, n)
    case SenderLearns(u) => SenderLearn(sys, u)
    case SenderResets(id) => sys.(reset := sys.reset + {id})
    case SenderForgets(id) => sys.(sender := RemoveStream(sys.sender, id))
    case ReceiverOpens(id) => ReceiverOpen(sys, cfg, id)
    case DataArrives(id, end) => DataArrive(sys, id, end)
    case CryptoArrives(end) => Arrival(sys, 1, Receive(sys.receiver, 1, end), end)
    case ResetArrives(id) => ResetArrive(sys, id)
    case ReceiverReads(id, n) => ReceiverRead(sys, id, n)
    case ReceiverUpdates(force, order, soon) => ReceiverUpdate(sys, force, order, soon)
    case ReceiverForgets(id) => sys.(receiver := RemoveStream(sys.receiver, id))
  }

  // ---- Invariant ----

  /** Per stream: what was read was received, what was received was sent, what was sent was granted. */
  ghost predicate StreamInv(sys: System, cfg: Config, id: nat) {
    && Get(sys.read, id) <= Get(sys.received, id) <= Get(sys.sent, id) <= Granted(sys, cfg, id)
    && cfg.streamWindow <= Granted(sys, cfg, id)
  }

  /** The receiver's controller of a stream holds these numbers. */
  ghost predicate ReceiverInv(sys: System, id: nat, c: Controller) {
    && c.contributes == Contributes(id) && id in sys.accepted && id in sys.granted
    && c.receiveWindow == sys.granted[id]
    && c.highestReceived == Get(sys.received, id) && c.bytesRead == Get(sys.read, id)
    && Steady(c.increment, c.maxIncrement)
  }

  /** The sender's controller of a stream counts what was sent and knows no window that was not granted. */
  ghost predicate SenderInv(sys: System, cfg: Config, id: nat, c: Controller) {
    && c.contributes == Contributes(id) && id in sys.started
    && c.bytesSent == Get(sys.sent, id)
    && (id != 1 ==> c.sendWindow <= Granted(sys, cfg, id))
  }

  /** The connection counts the contributing streams, removed ones included, on either end. */
  ghost predicate ConnInv(sys: System, cfg: Config) {
    && Distinct(sys.ids)
    && sys.sender.conn.bytesSent == Total(sys.ids, sys.sent)
    && sys.receiver.conn.highestReceived == Total(sys.ids, sys.received)
    && sys.receiver.conn.bytesRead == Total(sys.ids, sys.read)
    && sys.sender.conn.bytesSent <= sys.receiver.conn.receiveWindow
    && Max(cfg.connWindow, sys.sender.conn.sendWindow) <= sys.receiver.conn.receiveWindow
    && Steady(sys.receiver.conn.increment, sys.receiver.conn.maxIncrement)
  }

  /** The streams that count for the connection are those that either end has opened. */
  ghost predicate IdsInv(sys: System) {
    && 0 !in sys.started && 0 !in sys.accepted
    && (forall id :: id in sys.ids ==> Contributes(id) && id != 0)
    && (forall id :: id in sys.started && Contributes(id) ==> id in sys.ids)
    && (forall id :: id in sys.accepted && Contributes(id) ==> id in sys.ids)
    && (forall id :: id in sys.granted <==> id in sys.accepted)
    && (forall id :: id in sys.sent ==> id in sys.started)
    && (forall id :: id in sys.received ==> id in sys.accepted)
    && (forall id :: id in sys.read ==> id in sys.accepted)
  }

  ghost predicate UpdatesInv(sys: System, cfg: Config) {
    forall u :: u in sys.updates && u.id != 1 ==>
      u.offset <= if u.id == 0 then sys.receiver.conn.receiveWindow else Granted(sys, cfg, u.id)
  }

  ghost predicate StreamsInv(sys: System, cfg: Config) {
    forall id :: id != 1 ==> StreamInv(sys, cfg, id)
  }

  ghost predicate ReceiversInv(sys: System) {
    forall id :: id in sys.receiver.streams ==> ReceiverInv(sys, id, sys.receiver.streams[id])
  }

  ghost predicate SendersInv(sys: System, cfg: Config) {
    forall id :: id in sys.sender.streams ==> SenderInv(sys, cfg, id, sys.sender.streams[id])
  }

  ghost predicate Inv(sys: System, cfg: Config) {
    && IdsInv(sys) && ConnInv(sys, cfg) && UpdatesInv(sys, cfg)
    && StreamsInv(sys, cfg) && ReceiversInv(sys) && SendersInv(sys, cfg)
    && sys.violated <= {1}
  }

  /** The parts of the invariant that a step does not touch. */
  lemma StreamsKept(sys: System, sys': System, cfg: Config)
    requires StreamsInv(sys, cfg)
    requires sys'.read == sys.read && sys'.received == sys.received
    requires sys'.sent == sys.sent && sys'.granted == sys.granted
    ensures StreamsInv(sys', cfg)
  {
    forall id | id != 1
      ensures StreamInv(sys', cfg, id)
    {
      assert StreamInv(sys, cfg, id);
    }
  }

  lemma ReceiversKept(sys: System, sys': System)
    requires ReceiversInv(sys)
    requires forall id :: id in sys'.receiver.streams ==>
               id in sys.receiver.streams && sys'.receiver.streams[id] == sys.receiver.streams[id]
    requires sys'.read == sys.read && sys'.received == sys.received && sys'.granted == sys.granted
    requires sys.accepted <= sys'.accepted
    ensures ReceiversInv(sys')
  {
    forall id | id in sys'.receiver.streams
      ensures ReceiverInv(sys', id, sys'.receiver.streams[id])
    {
      assert ReceiverInv(sys, id, sys.receiver.streams[id]);
    }
  }

  lemma SendersKept(sys: System, sys': System, cfg: Config)
    requires SendersInv(sys, cfg)
    requires forall id :: id in sys'.sender.streams ==>
               id in sys.sender.streams && sys'.sender.streams[id] == sys.sender.streams[id]
    requires sys'.sent == sys.sent && sys.started <= sys'.started
    requires forall id :: id != 1 ==> Granted(sys, cfg, id) <= Granted(sys', cfg, id)
    ensures SendersInv(sys', cfg)
  {
    forall id | id in sys'.sender.streams
      ensures SenderInv(sys', cfg, id, sys'.sender.streams[id])
    {
      assert SenderInv(sys, cfg, id, sys.sender.streams[id]);
      assert id != 1 ==> Granted(sys, cfg, id) <= Granted(sys', cfg, id);
    }
  }

  /** The condition on the handshake's windows. */
  predicate SafeConfig(cfg: Config) {
    Steady(cfg.streamWindow, cfg.maxStreamIncrement) && Steady(cfg.connWindow, cfg.maxConnIncrement)
  }

  lemma StartInv(cfg: Config)
    requires SafeConfig(cfg)
    ensures Inv(Start(cfg), cfg)
  {
  }

  // ---- Steps of the sender ----

  /** A stream that is announced for the first time has carried nothing yet. */
  lemma AnnounceTotals(sys: System, id: nat)
    requires IdsInv(sys) && Distinct(sys.ids)
    ensures var ids := Announce(sys.ids, id);
            && Distinct(ids)
            && Total(ids, sys.sent) == Total(sys.ids, sys.sent)
            && Total(ids, sys.received) == Total(sys.ids, sys.received)
            && Total(ids, sys.read) == Total(sys.ids, sys.read)
  {
    if Contributes(id) && id !in sys.ids {
      TotalAppend(sys.ids, sys.sent, id);
      TotalAppend(sys.ids, sys.received, id);
      TotalAppend(sys.ids, sys.read, id);
    }
  }

  lemma SenderOpensInv(sys: System, cfg: Config, id: nat)
    requires Inv(sys, cfg)
    ensures Inv(SenderOpen(sys, cfg, id), cfg)
  {
    hide Total;
    if id != 0 && id !in sys.started {
      var sys' := SenderOpen(sys, cfg, id);
      AnnounceTotals(sys, id);
      StreamsKept(sys, sys', cfg);
      ReceiversKept(sys, sys');
      SenderAdded(sys, cfg, id);
    }
  }

  lemma SenderAdded(sys: System, cfg: Config, id: nat)
    requires SendersInv(sys, cfg) && IdsInv(sys) && id !in sys.started
    ensures SendersInv(SenderOpen(sys, cfg, id), cfg)
  {
    var sys' := SenderOpen(sys, cfg, id);
    forall k | k in sys'.sender.streams
      ensures SenderInv(sys', cfg, k, sys'.sender.streams[k])
    {
      if k in sys.sender.streams {
        assert SenderInv(sys, cfg, k, sys.sender.streams[k]);
      }
    }
  }

  /** What send may take lies within the granted windows, at both levels. */
  lemma SendableGranted(sys: System, cfg: Config, id: nat, n: nat)
    requires Inv(sys, cfg) && id in sys.sender.streams && id != 1 && n <= Sendable(sys.sender, cfg, id)
    ensures Get(sys.sent, id) + n <= Granted(sys, cfg, id)
    ensures Contributes(id) ==> sys.sender.conn.bytesSent + n <= sys.receiver.conn.receiveWindow
  {
    assert SenderInv(sys, cfg, id, sys.sender.streams[id]);
    assert StreamInv(sys, cfg, id);
  }

  /** Adding n to one stream adds n to the total of the contributing streams, if the stream is one of them. */
  lemma TotalAdd(sys: System, m: map<nat, nat>, id: nat, n: nat)
    requires Distinct(sys.ids) && IdsInv(sys) && (id in sys.started || id in sys.accepted)
    ensures Total(sys.ids, m[id := Get(m, id) + n]) == Total(sys.ids, m) + (if Contributes(id) then n else 0)
  {
    if Contributes(id) {
      TotalUpdate(sys.ids, m, id, Get(m, id) + n);
    } else {
      TotalUntouched(sys.ids, m, id, Get(m, id) + n);
    }
  }

  lemma SenderSendsInv(sys: System, cfg: Config, id: nat, n: nat)
    requires Inv(sys, cfg)
    ensures Inv(SenderSend(sys, cfg, id, n), cfg)
  {
    hide Inv, Sendable;
    if id in sys.sender.streams && id != 1 && id !in sys.reset && n <= Sendable(sys.sender, cfg, id) {
      SendableGranted(sys, cfg, id, n);
      SentInv(sys, cfg, id, n);
    }
  }

  lemma SentInv(sys: System, cfg: Config, id: nat, n: nat)
    requires Inv(sys, cfg) && id in sys.sender.streams && id != 1
    requires Get(sys.sent, id) + n <= Granted(sys, cfg, id)
    requires Contributes(id) ==> sys.sender.conn.bytesSent + n <= sys.receiver.conn.receiveWindow
    ensures Inv(sys.(sender := SendBytes(sys.sender, id, n), sent := sys.sent[id := Get(sys.sent, id) + n]), cfg)
  {
    hide Total;
    var sys' := sys.(sender := SendBytes(sys.sender, id, n), sent := sys.sent[id := Get(sys.sent, id) + n]);
    assert SenderInv(sys, cfg, id, sys.sender.streams[id]);
    TotalAdd(sys, sys.sent, id, n);
    SentStreams(sys, cfg, id, n);
    SentSenders(sys, cfg, id, n);
    ReceiversKept(sys, sys');
  }

  lemma SentStreams(sys: System, cfg: Config, id: nat, n: nat)
    requires StreamsInv(sys, cfg) && Get(sys.sent, id) + n <= Granted(sys, cfg, id)
    ensures StreamsInv(sys.(sender := SendBytes(sys.sender, id, n), sent := sys.sent[id := Get(sys.sent, id) + n]), cfg)
  {
    var sys' := sys.(sender := SendBytes(sys.sender, id, n), sent := sys.sent[id := Get(sys.sent, id) + n]);
    forall k | k != 1
      ensures StreamInv(sys', cfg, k)
    {
      assert StreamInv(sys, cfg, k);
    }
  }

  lemma SentSenders(sys: System, cfg: Config, id: nat, n: nat)
    requires SendersInv(sys, cfg) && id in sys.sender.streams
    ensures SendersInv(sys.(sender := SendBytes(sys.sender, id, n), sent := sys.sent[id := Get(sys.sent, id) + n]), cfg)
  {
    var sys' := sys.(sender := SendBytes(sys.sender, id, n), sent := sys.sent[id := Get(sys.sent, id) + n]);
    forall k | k in sys'.sender.streams
      ensures SenderInv(sys', cfg, k, sys'.sender.streams[k])
    {
      assert SenderInv(sys, cfg, k, sys.sender.streams[k]);
    }
  }

  lemma SenderLearnsInv(sys: System, cfg: Config, u: WindowUpdate)
    requires Inv(sys, cfg)
    ensures Inv(SenderLearn(sys, u), cfg)
  {
    hide Total;
    if u in sys.updates {
      var sys' := SenderLearn(sys, u);
      StreamsKept(sys, sys', cfg);
      ReceiversKept(sys, sys');
      LearnedSenders(sys, cfg, u);
    }
  }

  lemma LearnedSenders(sys: System, cfg: Config, u: WindowUpdate)
    requires SendersInv(sys, cfg) && UpdatesInv(sys, cfg) && u in sys.updates
    ensures SendersInv(SenderLearn(sys, u), cfg)
  {
    var sys' := SenderLearn(sys, u);
    forall k | k in sys'.sender.streams
      ensures SenderInv(sys', cfg, k, sys'.sender.streams[k])
    {
      assert SenderInv(sys, cfg, k, sys.sender.streams[k]);
    }
  }

  lemma SenderForgetsInv(sys: System, cfg: Config, id: nat)
    requires Inv(sys, cfg)
    ensures Inv(sys.(sender := RemoveStream(sys.sender, id)), cfg)
  {
    hide Total;
    var sys' := sys.(sender := RemoveStream(sys.sender, id));
    StreamsKept(sys, sys', cfg);
    ReceiversKept(sys, sys');
    SendersKept(sys, sys', cfg);
  }

  // ---- Steps of the receiver ----

  lemma ReceiverOpensInv(sys: System, cfg: Config, id: nat)
    requires SafeConfig(cfg) && Inv(sys, cfg)
    ensures Inv(ReceiverOpen(sys, cfg, id), cfg)
  {
    hide Total;
    if id != 0 && id !in sys.accepted {
      var sys' := ReceiverOpen(sys, cfg, id);
      assert forall k :: Granted(sys', cfg, k) == Granted(sys, cfg, k);
      AnnounceTotals(sys, id);
      SendersKept(sys, sys', cfg);
      ReceiverAdded(sys, cfg, id);
      forall k | k != 1
        ensures StreamInv(sys', cfg, k)
      {
        assert StreamInv(sys, cfg, k);
      }
    }
  }

  lemma ReceiverAdded(sys: System, cfg: Config, id: nat)
    requires SafeConfig(cfg) && ReceiversInv(sys) && IdsInv(sys) && id !in sys.accepted
    ensures ReceiversInv(ReceiverOpen(sys, cfg, id))
  {
    var sys' := ReceiverOpen(sys, cfg, id);
    forall k | k in sys'.receiver.streams
      ensures ReceiverInv(sys', k, sys'.receiver.streams[k])
    {
      if k in sys.receiver.streams {
        assert ReceiverInv(sys, k, sys.receiver.streams[k]);
      }
    }
  }

  lemma ReceiverForgetsInv(sys: System, cfg: Config, id: nat)
    requires Inv(sys, cfg)
    ensures Inv(sys.(receiver := RemoveStream(sys.receiver, id)), cfg)
  {
    hide Total;
    var sys' := sys.(receiver := RemoveStream(sys.receiver, id));
    StreamsKept(sys, sys', cfg);
    ReceiversKept(sys, sys');
    SendersKept(sys, sys', cfg);
  }

  /** Honest data stays within the windows of the stream and of the connection. */
  lemma ReceiveAccepted(sys: System, cfg: Config, id: nat, end: nat)
    requires Inv(sys, cfg) && id in sys.receiver.streams && id != 1 && end <= Get(sys.sent, id)
    ensures var received := sys.received[id := Max(end, Get(sys.received, id))];
            var (m, r) := Receive(sys.receiver, id, end);
            && r == Received
            && m.conn == sys.receiver.conn.(highestReceived := Total(sys.ids, received))
            && Total(sys.ids, received) <= sys.receiver.conn.receiveWindow
            && m.streams == sys.receiver.streams[id := sys.receiver.streams[id].(highestReceived := Get(received, id))]
  {
    var c := sys.receiver.streams[id];
    assert ReceiverInv(sys, id, c) && StreamInv(sys, cfg, id);
    var received := sys.received[id := Max(end, Get(sys.received, id))];
    forall k | k in sys.ids
      ensures Get(received, k) <= Get(sys.sent, k)
    {
      assert StreamInv(sys, cfg, k);
    }
    TotalAtMost(sys.ids, received, sys.sent);
    if Contributes(id) {
      TotalUpdate(sys.ids, sys.received, id, Get(received, id));
    } else {
      TotalUntouched(sys.ids, sys.received, id, Get(received, id));
    }
  }

  lemma ArrivalInv(sys: System, cfg: Config, id: nat, end: nat)
    requires Inv(sys, cfg) && id in sys.receiver.streams && id != 1 && end <= Get(sys.sent, id)
    ensures Inv(Arrival(sys, id, Receive(sys.receiver, id, end), end), cfg)
  {
    ReceiveAccepted(sys, cfg, id, end);
    hide Total, Receive;
    var sys' := Arrival(sys, id, Receive(sys.receiver, id, end), end);
    assert ReceiverInv(sys, id, sys.receiver.streams[id]);
    SendersKept(sys, sys', cfg);
    ArrivalStreams(sys, sys', cfg, id, end);
    ArrivalReceivers(sys, sys', id, end);
  }

  lemma ArrivalStreams(sys: System, sys': System, cfg: Config, id: nat, end: nat)
    requires StreamsInv(sys, cfg) && end <= Get(sys.sent, id)
    requires sys'.received == sys.received[id := Max(end, Get(sys.received, id))]
    requires sys'.read == sys.read && sys'.sent == sys.sent && sys'.granted == sys.granted
    ensures StreamsInv(sys', cfg)
  {
    forall k | k != 1
      ensures StreamInv(sys', cfg, k)
    {
      assert StreamInv(sys, cfg, k);
    }
  }

  lemma ArrivalReceivers(sys: System, sys': System, id: nat, end: nat)
    requires ReceiversInv(sys) && id in sys.receiver.streams
    requires sys'.received == sys.received[id := Max(end, Get(sys.received, id))]
    requires sys'.receiver.streams
             == sys.receiver.streams[id := sys.receiver.streams[id].(highestReceived := Get(sys'.received, id))]
    requires sys'.read == sys.read && sys'.granted == sys.granted && sys'.accepted == sys.accepted
    ensures ReceiversInv(sys')
  {
    forall k | k in sys'.receiver.streams
      ensures ReceiverInv(sys', k, sys'.receiver.streams[k])
    {
      assert ReceiverInv(sys, k, sys.receiver.streams[k]);
    }
  }

  lemma DataArrivesInv(sys: System, cfg: Config, id: nat, end: nat)
    requires Inv(sys, cfg)
    ensures Inv(DataArrive(sys, id, end), cfg)
  {
    hide Inv;
    if id != 1 && end <= Get(sys.sent, id) {
      if id in sys.receiver.streams {
        ArrivalInv(sys, cfg, id, end);
      } else {
        assert DataArrive(sys, id, end) == sys;
      }
    }
  }

  /** A reset names everything that was sent, so it never contradicts received data. */
  lemma ResetArrivesInv(sys: System, cfg: Config, id: nat)
    requires Inv(sys, cfg)
    ensures Inv(ResetArrive(sys, id), cfg)
    ensures id in sys.reset && id in sys.receiver.streams && id != 1 ==>
              Reset(sys.receiver, id, Get(sys.sent, id)).1 == Received
  {
    if id != 1 && id in sys.reset {
      var end := Get(sys.sent, id);
      if id in sys.receiver.streams {
        assert ReceiverInv(sys, id, sys.receiver.streams[id]) && StreamInv(sys, cfg, id);
        assert Reset(sys.receiver, id, end) == Receive(sys.receiver, id, end);
        ReceiveAccepted(sys, cfg, id, end);
        ArrivalInv(sys, cfg, id, end);
      } else {
        assert ResetArrive(sys, id) == sys;
      }
    }
  }

  /** Data on stream 1 touches only the controller of stream 1. */
  lemma CryptoArrivesInv(sys: System, cfg: Config, end: nat)
    requires Inv(sys, cfg)
    ensures Inv(Arrival(sys, 1, Receive(sys.receiver, 1, end), end), cfg)
  {
    if 1 in sys.receiver.streams {
      var sys' := Arrival(sys, 1, Receive(sys.receiver, 1, end), end);
      assert ReceiverInv(sys, 1, sys.receiver.streams[1]);
      TotalUntouched(sys.ids, sys.received, 1, Max(end, Get(sys.received, 1)));
      hide Total;
      SendersKept(sys, sys', cfg);
      ArrivalReceivers(sys, sys', 1, end);
      forall k | k != 1
        ensures StreamInv(sys', cfg, k)
      {
        assert StreamInv(sys, cfg, k);
      }
    } else {
      assert Arrival(sys, 1, Receive(sys.receiver, 1, end), end) == sys;
    }
  }

  lemma ReceiverReadsInv(sys: System, cfg: Config, id: nat, n: nat)
    requires Inv(sys, cfg)
    ensures Inv(ReceiverRead(sys, id, n), cfg)
  {
    hide Inv;
    if id in sys.receiver.streams &&
       sys.receiver.streams[id].bytesRead + n <= sys.receiver.streams[id].highestReceived {
      ReadInv(sys, cfg, id, n);
    }
  }

  lemma ReadInv(sys: System, cfg: Config, id: nat, n: nat)
    requires Inv(sys, cfg) && id in sys.receiver.streams
    requires sys.receiver.streams[id].bytesRead + n <= sys.receiver.streams[id].highestReceived
    ensures Inv(sys.(receiver := ReadBytes(sys.receiver, id, n), read := sys.read[id := Get(sys.read, id) + n]), cfg)
  {
    hide Total;
    var sys' := sys.(receiver := ReadBytes(sys.receiver, id, n), read := sys.read[id := Get(sys.read, id) + n]);
    assert ReceiverInv(sys, id, sys.receiver.streams[id]);
    TotalAdd(sys, sys.read, id, n);
    SendersKept(sys, sys', cfg);
    ReadStreams(sys, sys', cfg, id, n);
    ReadReceivers(sys, sys', id, n);
  }

  lemma ReadStreams(sys: System, sys': System, cfg: Config, id: nat, n: nat)
    requires StreamsInv(sys, cfg) && Get(sys.read, id) + n <= Get(sys.received, id)
    requires sys'.read == sys.read[id := Get(sys.read, id) + n]
    requires sys'.received == sys.received && sys'.sent == sys.sent && sys'.granted == sys.granted
    ensures StreamsInv(sys', cfg)
  {
    forall k | k != 1
      ensures StreamInv(sys', cfg, k)
    {
      assert StreamInv(sys, cfg, k);
    }
  }

  lemma ReadReceivers(sys: System, sys': System, id: nat, n: nat)
    requires ReceiversInv(sys) && id in sys.receiver.streams
    requires sys'.read == sys.read[id := Get(sys.read, id) + n]
    requires sys'.receiver.streams == sys.receiver.streams[id := AddBytesRead(sys.receiver.streams[id], n)]
    requires sys'.received == sys.received && sys'.granted == sys.granted && sys'.accepted == sys.accepted
    ensures ReceiversInv(sys')
  {
    forall k | k in sys'.receiver.streams
      ensures ReceiverInv(sys', k, sys'.receiver.streams[k])
    {
      assert ReceiverInv(sys, k, sys.receiver.streams[k]);
    }
  }

  // ---- Window updates ----

  /** Only the increment of the connection changed, and it is still steady. */
  ghost predicate SameCounts(c: Controller, c': Controller) {
    && c' == c.(increment := c'.increment, armed := c'.armed)
    && (Steady(c.increment, c.maxIncrement) ==> Steady(c'.increment, c'.maxIncrement))
  }

  /** What the loop over the streams does: each visited controller is updated once, every WINDOW_UPDATE names the new
      window of its stream, and the connection keeps its counts. */
  ghost predicate StreamsUpdated(m: Manager, order: seq<nat>, soon: set<nat>, u: Updates) {
    && u.manager.streams.Keys == m.streams.Keys
    && (forall id :: id in m.streams ==>
          u.manager.streams[id] == if id in order then MaybeUpdateWindow(m.streams[id], id in soon) else m.streams[id])
    && SameCounts(m.conn, u.manager.conn)
    && (forall w :: w in u.updates ==>
          w.id in order && w.id in m.streams && w.offset == u.manager.streams[w.id].receiveWindow)
  }

  lemma UpdateOne(m: Manager, force: bool, order: seq<nat>, id: nat, soon: set<nat>, u: Updates)
    requires StreamsUpdated(m, order, soon, u) && id !in order && id in m.streams
    ensures StreamsUpdated(m, order + [id], soon, UpdateStream(u, force, id, soon))
  {
  }

  lemma {:induction false} UpdateAll(m: Manager, force: bool, order: seq<nat>, soon: set<nat>)
    requires Distinct(order) && (forall id :: id in order ==> id in m.streams)
    ensures StreamsUpdated(m, order, soon, UpdateStreams(m, force, order, soon))
    decreases |order|
  {
    if order != [] {
      var n := |order| - 1;
      UpdateAll(m, force, order[..n], soon);
      UpdateOne(m, force, order[..n], order[n], soon, UpdateStreams(m, force, order[..n], soon));
      assert order == order[..n] + [order[n]];
    }
  }

  /** A window is never lowered while less was read than it allows. */
  lemma WindowGrows(c: Controller, soon: bool)
    requires c.bytesRead <= c.receiveWindow && Steady(c.increment, c.maxIncrement)
    ensures var c' := MaybeUpdateWindow(c, soon);
            && c'.receiveWindow >= c.receiveWindow && Steady(c'.increment, c'.maxIncrement)
            && c' == c.(increment := c'.increment, armed := c'.armed, receiveWindow := c'.receiveWindow)
  {
    if UpdateDue(c) {
      UpdateRaises(c, soon);
    }
  }

  /** The increments stay steady even on stream 1, whose peer may exceed the window. */
  lemma SteadyKept(c: Controller, soon: bool)
    requires Steady(c.increment, c.maxIncrement)
    ensures var c' := MaybeUpdateWindow(c, soon);
            && Steady(c'.increment, c'.maxIncrement)
            && c' == c.(increment := c'.increment, armed := c'.armed, receiveWindow := c'.receiveWindow)
  {
  }

  /** What GetWindowUpdates does to the receiver. */
  ghost predicate Updated(m: Manager, soon: set<nat>, u: Updates) {
    && u.manager.streams.Keys == m.streams.Keys
    && (forall id :: id in m.streams ==> u.manager.streams[id] == MaybeUpdateWindow(m.streams[id], id in soon))
    && (exists conn :: SameCounts(m.conn, conn) && u.manager.conn == MaybeUpdateWindow(conn, 0 in soon))
    && (forall w :: w in u.updates ==>
          w.offset == if w.id in m.streams then u.manager.streams[w.id].receiveWindow else u.manager.conn.receiveWindow)
    && (forall w :: w in u.updates ==> w.id == 0 || w.id in m.streams)
  }

  lemma GetUpdated(m: Manager, force: bool, order: seq<nat>, soon: set<nat>)
    requires Covers(order, m) && 0 !in m.streams
    ensures Updated(m, soon, GetWindowUpdates(m, force, order, soon))
  {
    assert forall id :: id in order <==> id in m.streams;
    UpdateAll(m, force, order, soon);
    hide UpdateStreams;
    var u := UpdateStreams(m, force, order, soon);
    assert SameCounts(m.conn, u.manager.conn);
  }

  /** The granted windows after an update. */
  lemma GrantedGrows(sys: System, cfg: Config, soon: set<nat>, u: Updates)
    requires Inv(sys, cfg) && Updated(sys.receiver, soon, u)
    ensures var sys' := sys.(receiver := u.manager, granted := sys.granted + Windows(u.manager));
            && (forall id :: id != 1 ==> Granted(sys, cfg, id) <= Granted(sys', cfg, id))
            && u.manager.conn.receiveWindow >= sys.receiver.conn.receiveWindow
            && SameCounts(sys.receiver.conn, u.manager.conn.(receiveWindow := sys.receiver.conn.receiveWindow))
  {
    var sys' := sys.(receiver := u.manager, granted := sys.granted + Windows(u.manager));
    forall id | id != 1
      ensures Granted(sys, cfg, id) <= Granted(sys', cfg, id)
    {
      if id in sys.receiver.streams {
        assert ReceiverInv(sys, id, sys.receiver.streams[id]) && StreamInv(sys, cfg, id);
        WindowGrows(sys.receiver.streams[id], id in soon);
      }
    }
    var conn :| SameCounts(sys.receiver.conn, conn) && u.manager.conn == MaybeUpdateWindow(conn, 0 in soon);
    ConnWithin(sys, cfg);
    WindowGrows(conn, 0 in soon);
  }

  /** The connection's totals: what was read was received, what was received was sent, what was sent was granted. */
  lemma ConnWithin(sys: System, cfg: Config)
    requires Inv(sys, cfg)
    ensures sys.receiver.conn.bytesRead <= sys.receiver.conn.highestReceived <= sys.sender.conn.bytesSent
            <= sys.receiver.conn.receiveWindow
  {
    forall id | id in sys.ids
      ensures Get(sys.read, id) <= Get(sys.received, id) <= Get(sys.sent, id)
    {
      assert StreamInv(sys, cfg, id);
    }
    TotalAtMost(sys.ids, sys.read, sys.received);
    TotalAtMost(sys.ids, sys.received, sys.sent);
  }

  lemma UpdatedReceivers(sys: System, soon: set<nat>, u: Updates)
    requires ReceiversInv(sys) && Updated(sys.receiver, soon, u)
    ensures ReceiversInv(sys.(receiver := u.manager, granted := sys.granted + Windows(u.manager),
                              updates := sys.updates + (set w | w in u.updates)))
  {
    var sys' := sys.(receiver := u.manager, granted := sys.granted + Windows(u.manager),
                     updates := sys.updates + (set w | w in u.updates));
    forall id | id in sys'.receiver.streams
      ensures ReceiverInv(sys', id, sys'.receiver.streams[id])
    {
      assert ReceiverInv(sys, id, sys.receiver.streams[id]);
      SteadyKept(sys.receiver.streams[id], id in soon);
    }
  }

  lemma UpdatedStreams(sys: System, sys': System, cfg: Config)
    requires StreamsInv(sys, cfg)
    requires forall id :: id != 1 ==> Granted(sys, cfg, id) <= Granted(sys', cfg, id)
    requires sys'.read == sys.read && sys'.received == sys.received && sys'.sent == sys.sent
    ensures StreamsInv(sys', cfg)
  {
    forall id | id != 1
      ensures StreamInv(sys', cfg, id)
    {
      assert StreamInv(sys, cfg, id) && Granted(sys, cfg, id) <= Granted(sys', cfg, id);
    }
  }

  lemma UpdatedUpdates(sys: System, sys': System, cfg: Config, soon: set<nat>, u: Updates)
    requires UpdatesInv(sys, cfg) && Updated(sys.receiver, soon, u) && 0 !in sys.receiver.streams
    requires forall id :: id != 1 ==> Granted(sys, cfg, id) <= Granted(sys', cfg, id)
    requires u.manager.conn.receiveWindow >= sys.receiver.conn.receiveWindow
    requires sys' == sys.(receiver := u.manager, granted := sys.granted + Windows(u.manager),
                          updates := sys.updates + (set w | w in u.updates))
    ensures UpdatesInv(sys', cfg)
  {
    forall w | w in sys'.updates && w.id != 1
      ensures w.offset <= if w.id == 0 then sys'.receiver.conn.receiveWindow else Granted(sys', cfg, w.id)
    {
      assert Granted(sys, cfg, w.id) <= Granted(sys', cfg, w.id);
      if w in u.updates && w.id != 0 {
        assert w.id in Windows(u.manager);
      }
    }
  }

  lemma ReceiverUpdatesInv(sys: System, cfg: Config, force: bool, order: seq<nat>, soon: set<nat>)
    requires Inv(sys, cfg)
    ensures Inv(ReceiverUpdate(sys, force, order, soon), cfg)
  {
    if Covers(order, sys.receiver) {
      NoStreamZero(sys, cfg);
      GetUpdated(sys.receiver, force, order, soon);
      UpdatedInv(sys, cfg, soon, GetWindowUpdates(sys.receiver, force, order, soon));
      hide Inv, GetWindowUpdates, Covers;
    }
  }

  lemma NoStreamZero(sys: System, cfg: Config)
    requires Inv(sys, cfg)
    ensures 0 !in sys.receiver.streams
  {
  }

  lemma UpdatedInv(sys: System, cfg: Config, soon: set<nat>, u: Updates)
    requires Inv(sys, cfg) && Updated(sys.receiver, soon, u)
    ensures Inv(sys.(receiver := u.manager, granted := sys.granted + Windows(u.manager),
                     updates := sys.updates + (set w | w in u.updates)), cfg)
  {
    hide Total;
    var sys' := sys.(receiver := u.manager, granted := sys.granted + Windows(u.manager),
                     updates := sys.updates + (set w | w in u.updates));
    NoStreamZero(sys, cfg);
    GrantedGrows(sys, cfg, soon, u);
    assert forall id :: Granted(sys', cfg, id)
                        == Granted(sys.(receiver := u.manager, granted := sys.granted + Windows(u.manager)), cfg, id);
    UpdatedReceivers(sys, soon, u);
    UpdatedStreams(sys, sys', cfg);
    UpdatedUpdates(sys, sys', cfg, soon, u);
    SendersKept(sys, sys', cfg);
    UpdatedIds(sys, soon, u);
  }

  lemma UpdatedIds(sys: System, soon: set<nat>, u: Updates)
    requires IdsInv(sys) && ReceiversInv(sys) && Updated(sys.receiver, soon, u)
    ensures IdsInv(sys.(receiver := u.manager, granted := sys.granted + Windows(u.manager),
                        updates := sys.updates + (set w | w in u.updates)))
  {
    forall id | id in u.manager.streams
      ensures id in sys.granted
    {
      assert ReceiverInv(sys, id, sys.receiver.streams[id]);
    }
  }

  // ---- Runs ----

  lemma ResetsInv(sys: System, cfg: Config, id: nat)
    requires Inv(sys, cfg)
    ensures Inv(sys.(reset := sys.reset + {id}), cfg)
  {
    hide Total;
    var sys' := sys.(reset := sys.reset + {id});
    StreamsKept(sys, sys', cfg);
    ReceiversKept(sys, sys');
    SendersKept(sys, sys', cfg);
  }

  /** Every step keeps the invariant. */
  lemma StepInv(sys: System, cfg: Config, e: Event)
    requires SafeConfig(cfg) && Inv(sys, cfg)
    ensures Inv(Step(sys, cfg, e), cfg)
  {
    hide Inv;
    match e
    case SenderOpens(id) => SenderOpensInv(sys, cfg, id);
    case SenderSends(id, n) => SenderSendsInv(sys, cfg, id, n);
    case SenderLearns(u) => SenderLearnsInv(sys, cfg, u);
    case SenderResets(id) => ResetsInv(sys, cfg, id);
    case SenderForgets(id) => SenderForgetsInv(sys, cfg, id);
    case ReceiverOpens(id) => ReceiverOpensInv(sys, cfg, id);
    case DataArrives(id, end) => DataArrivesInv(sys, cfg, id, end);
    case CryptoArrives(end) => CryptoArrivesInv(sys, cfg, end);
    case ResetArrives(id) => ResetArrivesInv(sys, cfg, id);
    case ReceiverReads(id, n) => ReceiverReadsInv(sys, cfg, id, n);
    case ReceiverUpdates(force, order, soon) => ReceiverUpdatesInv(sys, cfg, force, order, soon);
    case ReceiverForgets(id) => ReceiverForgetsInv(sys, cfg, id);
  }

  function Run(sys: System, cfg: Config, events: seq<Event>): System
    decreases |events|
  {
    if events == [] then sys else Run(Step(sys, cfg, events[0]), cfg, events[1..])
  }

  lemma {:induction false} RunInv(sys: System, cfg: Config, events: seq<Event>)
    requires SafeConfig(cfg) && Inv(sys, cfg)
    ensures Inv(Run(sys, cfg, events), cfg)
    decreases |events|
  {
    hide Inv, Step;
    if events != [] {
      StepInv(sys, cfg, events[0]);
      RunInv(Step(sys, cfg, events[0]), cfg, events[1..]);
    }
  }

  /** Flow control is safe: no schedule of the network makes the receiver report a violation, on any stream but the
      crypto stream or on the connection. */
  lemma NeverViolated(cfg: Config, events: seq<Event>)
    requires SafeConfig(cfg)
    ensures Run(Start(cfg), cfg, events).violated <= {1}
  {
    StartInv(cfg);
    RunInv(Start(cfg), cfg, events);
  }

  /** In every run: the windows of every open stream but the crypto stream, and of the connection, hold what was
      received; the connection counts exactly the contributing streams, and line 151 of the source never wraps. */
  lemma WindowsHold(cfg: Config, events: seq<Event>)
    requires SafeConfig(cfg)
    ensures var sys := Run(Start(cfg), cfg, events);
            && (forall id :: id in sys.receiver.streams && id != 1 ==> Sound(sys.receiver.streams[id]))
            && Sound(sys.receiver.conn)
            && sys.receiver.conn.highestReceived == Total(sys.ids, sys.received)
            && sys.receiver.conn.bytesRead == Total(sys.ids, sys.read)
            && sys.sender.conn.bytesSent == Total(sys.ids, sys.sent)
  {
    StartInv(cfg);
    RunInv(Start(cfg), cfg, events);
    hide Run, Total;
    var sys := Run(Start(cfg), cfg, events);
    ConnWithin(sys, cfg);
    forall id | id in sys.receiver.streams && id != 1
      ensures Sound(sys.receiver.streams[id])
    {
      assert ReceiverInv(sys, id, sys.receiver.streams[id]) && StreamInv(sys, cfg, id);
    }
  }

  // ---- The condition is exact ----

  lemma {:induction false} RunJoin(sys: System, cfg: Config, a: seq<Event>, b: seq<Event>)
    ensures Run(sys, cfg, a + b) == Run(Run(sys, cfg, a), cfg, b)
    decreases |a|
  {
    if a == [] {
      assert a + b == b;
    } else {
      assert (a + b)[1..] == a[1..] + b;
      RunJoin(Step(sys, cfg, a[0]), cfg, a[1..], b);
    }
  }

  /** How much must be read before an update is due. */
  function HalfRead(window: nat): nat {
    window - window / 2 + 1
  }

  /** The stream fills its window, the application reads a little more than half of it, and the update lowers it. */
  function ShrinkStream(window: nat): seq<Event> {
    [SenderOpens(3), ReceiverOpens(3), SenderSends(3, window), DataArrives(3, window),
     ReceiverReads(3, HalfRead(window)), ReceiverUpdates(false, [3], {3}), DataArrives(3, window)]
  }

  /** The receiver's controller after the application has read. */
  function HalfReadController(cfg: Config): Controller {
    NewController(false, cfg.streamWindow, cfg.maxStreamIncrement)
      .(highestReceived := cfg.streamWindow, bytesRead := HalfRead(cfg.streamWindow), armed := true)
  }

  /** Updating a single stream. */
  lemma UpdateSingle(m: Manager, id: nat, soon: set<nat>)
    requires m.streams.Keys == {id}
    ensures Covers([id], m)
    ensures GetWindowUpdates(m, false, [id], soon).manager.streams
            == m.streams[id := MaybeUpdateWindow(m.streams[id], id in soon)]
  {
    assert (set k | k in [id]) == {id};
    assert [id][..0] == [];
    assert UpdateStreams(m, false, [], soon) == Updates(m, []);
  }

  lemma ShrinkUpdate(sys: System, cfg: Config)
    requires !Steady(cfg.streamWindow, cfg.maxStreamIncrement)
    requires sys.receiver.streams == map[3 := HalfReadController(cfg)] && Get(sys.sent, 3) == cfg.streamWindow
    ensures var c' := ReceiverUpdate(sys, false, [3], {3});
            && 3 in c'.receiver.streams && c'.sent == sys.sent
            && c'.receiver.streams[3].highestReceived > c'.receiver.streams[3].receiveWindow
  {
    UpdateSingle(sys.receiver, 3, {3});
    hide GetWindowUpdates, Covers;
    assert MaybeUpdateWindow(HalfReadController(cfg), true).receiveWindow
           == HalfRead(cfg.streamWindow) + cfg.maxStreamIncrement;
  }

  /** Any data on a stream that is over its window is a violation. */
  lemma OverWindow(sys: System, id: nat, end: nat)
    requires id in sys.receiver.streams && id != 1 && end <= Get(sys.sent, id)
    requires sys.receiver.streams[id].highestReceived > sys.receiver.streams[id].receiveWindow
    ensures id in DataArrive(sys, id, end).violated
  {
  }

  lemma ShrinkStart(cfg: Config)
    ensures var w := cfg.streamWindow;
            var sys := Step(Step(Step(Start(cfg), cfg, SenderOpens(3)), cfg, ReceiverOpens(3)), cfg, SenderSends(3, w));
            && sys.receiver.streams == map[3 := NewController(false, w, cfg.maxStreamIncrement)]
            && sys.sent == map[3 := w]
  {
    var w := cfg.streamWindow;
    var c := NewController(false, w, cfg.maxStreamIncrement);
    var s2 := Step(Step(Start(cfg), cfg, SenderOpens(3)), cfg, ReceiverOpens(3));
    assert s2.sender.streams == map[3 := c] && s2.receiver.streams == map[3 := c];
  }

  lemma ShrinkRead(sys: System, cfg: Config)
    requires cfg.streamWindow >= 2
    requires sys.receiver.streams == map[3 := NewController(false, cfg.streamWindow, cfg.maxStreamIncrement)]
    requires sys.sent == map[3 := cfg.streamWindow]
    ensures var sys1 := Step(sys, cfg, DataArrives(3, cfg.streamWindow));
            var sys' := Step(sys1, cfg, ReceiverReads(3, HalfRead(cfg.streamWindow)));
            sys'.receiver.streams == map[3 := HalfReadController(cfg)] && sys'.sent == sys.sent
  {
    var s4 := Step(sys, cfg, DataArrives(3, cfg.streamWindow));
    assert s4.receiver.streams == map[3 := HalfReadController(cfg).(bytesRead := 0, armed := false)];
  }

  lemma ShrinkEnd(sys: System, cfg: Config)
    requires !Steady(cfg.streamWindow, cfg.maxStreamIncrement)
    requires sys.receiver.streams == map[3 := HalfReadController(cfg)] && sys.sent == map[3 := cfg.streamWindow]
    ensures 3 in Step(Step(sys, cfg, ReceiverUpdates(false, [3], {3})), cfg, DataArrives(3, cfg.streamWindow)).violated
  {
    ShrinkUpdate(sys, cfg);
    OverWindow(ReceiverUpdate(sys, false, [3], {3}), 3, cfg.streamWindow);
  }

  /** If the window is not steady, honest peers can violate the window of a stream. */
  lemma StreamCanBeViolated(cfg: Config)
    requires !Steady(cfg.streamWindow, cfg.maxStreamIncrement)
    ensures 3 in Run(Start(cfg), cfg, ShrinkStream(cfg.streamWindow)).violated
  {
    hide Step, HalfReadController, NewController;
    var e := ShrinkStream(cfg.streamWindow);
    ShrinkStart(cfg);
    var s3 := Step(Step(Step(Start(cfg), cfg, e[0]), cfg, e[1]), cfg, e[2]);
    ShrinkRead(s3, cfg);
    var s5 := Step(Step(s3, cfg, e[3]), cfg, e[4]);
    ShrinkEnd(s5, cfg);
    assert e == [e[0], e[1], e[2], e[3], e[4]] + [e[5], e[6]];
    RunFive(Start(cfg), cfg, e[0], e[1], e[2], e[3], e[4]);
    RunTwo(s5, cfg, e[5], e[6]);
    RunJoin(Start(cfg), cfg, [e[0], e[1], e[2], e[3], e[4]], [e[5], e[6]]);
  }

  lemma RunFive(sys: System, cfg: Config, a: Event, b: Event, c: Event, d: Event, e: Event)
    ensures Run(sys, cfg, [a, b, c, d, e])
            == Step(Step(Step(Step(Step(sys, cfg, a), cfg, b), cfg, c), cfg, d), cfg, e)
  {
    hide Step;
    assert [a, b, c, d, e] == [a, b] + [c, d, e] && [c, d, e] == [c, d] + [e];
    RunTwo(sys, cfg, a, b);
    RunJoin(sys, cfg, [a, b], [c, d, e]);
    RunTwo(Run(sys, cfg, [a, b]), cfg, c, d);
    RunJoin(Run(sys, cfg, [a, b]), cfg, [c, d], [e]);
    RunOne(Run(Run(sys, cfg, [a, b]), cfg, [c, d]), cfg, e);
  }

  lemma RunOne(sys: System, cfg: Config, a: Event)
    ensures Run(sys, cfg, [a]) == Step(sys, cfg, a)
  {
    assert [a][1..] == [];
  }

  lemma RunTwo(sys: System, cfg: Config, a: Event, b: Event)
    ensures Run(sys, cfg, [a, b]) == Step(Step(sys, cfg, a), cfg, b)
  {
    hide Step;
    assert [a, b][1..] == [b];
    RunOne(Step(sys, cfg, a), cfg, b);
  }

  // The same for the connection: one byte on each of as many streams as the connection's window has bytes.

  /** Stream number i of the run. */
  function Id(i: nat): nat {
    4 + i
  }

  /** Round i: one byte on a new stream, which is read in the first rounds. */
  function RoundEvents(i: nat, readCount: nat): seq<Event> {
    [SenderOpens(Id(i)), ReceiverOpens(Id(i)), SenderSends(Id(i), 1), DataArrives(Id(i), 1),
     ReceiverReads(Id(i), if i < readCount then 1 else 0)]
  }

  function Rounds(k: nat, readCount: nat): seq<Event> {
    if k == 0 then [] else Rounds(k - 1, readCount) + RoundEvents(k - 1, readCount)
  }

  /** A stream that carried one byte. */
  ghost predicate OneByte(cfg: Config, c: Controller) {
    && c.contributes && c.highestReceived == 1 && c.bytesRead <= 1
    && c.receiveWindow == c.increment == cfg.streamWindow
  }

  ghost predicate AfterRounds(sys: System, cfg: Config, k: nat, readCount: nat) {
    ConnRounds(sys, cfg, k, readCount) && IdRounds(sys, k) && StreamRounds(sys, cfg, k, readCount)
  }

  predicate ConnRounds(sys: System, cfg: Config, k: nat, readCount: nat) {
    && sys.sender.conn == NewController(false, cfg.connWindow, cfg.maxConnIncrement).(bytesSent := k)
    && sys.receiver.conn == NewController(false, cfg.connWindow, cfg.maxConnIncrement)
                            .(highestReceived := k, bytesRead := Min(k, readCount), armed := k > 0)
  }

  ghost predicate IdRounds(sys: System, k: nat) {
    && sys.reset == {}
    && (forall id :: id in sys.started ==> id < Id(k))
    && (forall id :: id in sys.accepted ==> id < Id(k))
    && (forall id :: 4 <= id < Id(k) ==> id in sys.sent && sys.sent[id] == 1)
    && (forall id :: id in sys.sent ==> id < Id(k))
  }

  ghost predicate StreamRounds(sys: System, cfg: Config, k: nat, readCount: nat) {
    && (forall id :: id in sys.sender.streams ==> id < Id(k))
    && (forall id :: id in sys.receiver.streams <==> 4 <= id < Id(k))
    && (forall id :: id in sys.receiver.streams ==> OneByte(cfg, sys.receiver.streams[id]))
    && (forall id :: 4 <= id < Id(k) ==>
          id in sys.sender.streams && sys.sender.streams[id] == Fresh(cfg).(bytesSent := 1))
    && (forall id :: 4 <= id < Id(Min(k, readCount)) ==> sys.receiver.streams[id].bytesRead == 1)
  }

  /** The two ends open stream k. */
  lemma RoundOpens(sys: System, cfg: Config, k: nat, readCount: nat)
    requires AfterRounds(sys, cfg, k, readCount) && k < cfg.connWindow
    ensures RoundOpen(sys, ReceiverOpen(SenderOpen(sys, cfg, Id(k)), cfg, Id(k)), cfg, k)
  {
  }

  function Fresh(cfg: Config): Controller {
    NewController(true, cfg.streamWindow, cfg.maxStreamIncrement)
  }

  lemma SendOne(sys: System, cfg: Config, id: nat)
    requires id in sys.sender.streams && sys.sender.streams[id] == Fresh(cfg)
    requires id != 1 && sys.reset == {} && id !in sys.sent
    requires 0 < cfg.streamWindow && sys.sender.conn.sendWindow == 0 && sys.sender.conn.bytesSent < cfg.connWindow
    ensures SenderSend(sys, cfg, id, 1) ==
              sys.(sender := Manager(sys.sender.streams[id := Fresh(cfg).(bytesSent := 1)],
                                     sys.sender.conn.(bytesSent := sys.sender.conn.bytesSent + 1)),
                   sent := sys.sent[id := 1])
  {
  }

  lemma ArriveOne(sys: System, cfg: Config, id: nat)
    requires id in sys.receiver.streams && sys.receiver.streams[id] == Fresh(cfg) && id != 1 && Get(sys.sent, id) == 1
    requires 0 < cfg.streamWindow && sys.receiver.conn.highestReceived < sys.receiver.conn.receiveWindow
    ensures var sys' := DataArrive(sys, id, 1);
            sys' == sys.(receiver := Manager(sys.receiver.streams[id := Fresh(cfg).(highestReceived := 1)],
                                      sys.receiver.conn.(highestReceived := sys.receiver.conn.highestReceived + 1)),
                         received := sys'.received)
  {
  }

  lemma ReadOne(sys: System, cfg: Config, id: nat, n: nat)
    requires id in sys.receiver.streams && sys.receiver.streams[id] == Fresh(cfg).(highestReceived := 1) && n <= 1
    ensures var sys' := ReceiverRead(sys, id, n);
            sys' == sys.(receiver := Manager(sys.receiver.streams[id := AddBytesRead(sys.receiver.streams[id], n)],
                                             AddBytesRead(sys.receiver.conn, n)),
                         read := sys'.read)
  {
  }

  /** What a round changes. */
  ghost predicate RoundDone(sys: System, sys': System, cfg: Config, k: nat, readCount: nat) {
    var n := if k < readCount then 1 else 0;
    && sys'.sender == Manager(sys.sender.streams[Id(k) := Fresh(cfg).(bytesSent := 1)],
                              sys.sender.conn.(bytesSent := sys.sender.conn.bytesSent + 1))
    && sys'.receiver == Manager(sys.receiver.streams[Id(k) := AddBytesRead(Fresh(cfg).(highestReceived := 1), n)],
                                AddBytesRead(sys.receiver.conn.(highestReceived :=
                                                                  sys.receiver.conn.highestReceived + 1), n))
    && sys'.sent == sys.sent[Id(k) := 1]
    && sys'.started == sys.started + {Id(k)} && sys'.accepted == sys.accepted + {Id(k)} && sys'.reset == sys.reset
  }

  /** Both ends have opened stream k and nothing was sent on it. */
  ghost predicate RoundOpen(sys: System, sys': System, cfg: Config, k: nat) {
    && sys'.sender == sys.sender.(streams := sys.sender.streams[Id(k) := Fresh(cfg)])
    && sys'.receiver == sys.receiver.(streams := sys.receiver.streams[Id(k) := Fresh(cfg)])
    && sys'.sent == sys.sent && Id(k) !in sys.sent && sys'.reset == sys.reset == {}
    && sys'.started == sys.started + {Id(k)} && sys'.accepted == sys.accepted + {Id(k)}
    && sys.sender.conn.sendWindow == 0 && sys.sender.conn.bytesSent == k
    && sys.receiver.conn.highestReceived == k < sys.receiver.conn.receiveWindow == cfg.connWindow
  }

  lemma RoundSends(sys: System, sys2: System, cfg: Config, k: nat, readCount: nat)
    requires RoundOpen(sys, sys2, cfg, k) && 0 < cfg.streamWindow
    ensures var id := Id(k);
            var sys4 := DataArrive(SenderSend(sys2, cfg, id, 1), id, 1);
            RoundDone(sys, ReceiverRead(sys4, id, if k < readCount then 1 else 0),
                      cfg, k, readCount)
  {
    hide SenderSend, DataArrive, ReceiverRead;
    var id := Id(k);
    SendOne(sys2, cfg, id);
    var sys3 := SenderSend(sys2, cfg, id, 1);
    ArriveOne(sys3, cfg, id);
    var sys4 := DataArrive(sys3, id, 1);
    ReadOne(sys4, cfg, id, if k < readCount then 1 else 0);
  }

  lemma RoundKeeps(sys: System, sys': System, cfg: Config, k: nat, readCount: nat)
    requires AfterRounds(sys, cfg, k, readCount) && RoundDone(sys, sys', cfg, k, readCount) && 0 < readCount
    ensures AfterRounds(sys', cfg, k + 1, readCount)
  {
    hide ConnRounds, IdRounds, StreamRounds, RoundDone;
    ConnKeeps(sys, sys', cfg, k, readCount);
    IdsKeep(sys, sys', cfg, k, readCount);
    StreamsKeep(sys, sys', cfg, k, readCount);
  }

  lemma ConnKeeps(sys: System, sys': System, cfg: Config, k: nat, readCount: nat)
    requires ConnRounds(sys, cfg, k, readCount) && RoundDone(sys, sys', cfg, k, readCount) && 0 < readCount
    ensures ConnRounds(sys', cfg, k + 1, readCount)
  {
  }

  lemma IdsKeep(sys: System, sys': System, cfg: Config, k: nat, readCount: nat)
    requires IdRounds(sys, k) && RoundDone(sys, sys', cfg, k, readCount)
    ensures IdRounds(sys', k + 1)
  {
    hide AddBytesRead, Fresh;
  }

  lemma StreamsKeep(sys: System, sys': System, cfg: Config, k: nat, readCount: nat)
    requires StreamRounds(sys, cfg, k, readCount) && RoundDone(sys, sys', cfg, k, readCount)
    ensures StreamRounds(sys', cfg, k + 1, readCount)
  {
    var c := AddBytesRead(Fresh(cfg).(highestReceived := 1), if k < readCount then 1 else 0);
    assert OneByte(cfg, c) && (k < readCount ==> c.bytesRead == 1);
    hide OneByte, AddBytesRead, Fresh;
  }

  lemma RoundIs(sys: System, cfg: Config, k: nat, readCount: nat)
    ensures var id := Id(k);
            var sys2 := ReceiverOpen(SenderOpen(sys, cfg, id), cfg, id);
            Run(sys, cfg, RoundEvents(k, readCount))
            == ReceiverRead(DataArrive(SenderSend(sys2, cfg, id, 1), id, 1), id,
                            if k < readCount then 1 else 0)
  {
    hide ReceiverOpen, SenderOpen, SenderSend, DataArrive, ReceiverRead, Run;
    var e := RoundEvents(k, readCount);
    RunFive(sys, cfg, e[0], e[1], e[2], e[3], e[4]);
  }

  lemma RoundInv(sys: System, cfg: Config, k: nat, readCount: nat)
    requires AfterRounds(sys, cfg, k, readCount) && 0 < cfg.streamWindow && k < cfg.connWindow && 0 < readCount
    ensures AfterRounds(Run(sys, cfg, RoundEvents(k, readCount)), cfg, k + 1, readCount)
  {
    hide AfterRounds, RoundDone, RoundOpen, Run;
    RoundIs(sys, cfg, k, readCount);
    RoundOpens(sys, cfg, k, readCount);
    RoundSends(sys, ReceiverOpen(SenderOpen(sys, cfg, Id(k)), cfg, Id(k)), cfg, k, readCount);
    RoundKeeps(sys, Run(sys, cfg, RoundEvents(k, readCount)), cfg, k, readCount);
  }

  lemma {:induction false} RoundsInv(cfg: Config, k: nat, readCount: nat)
    requires 0 < cfg.streamWindow && k <= cfg.connWindow && 0 < readCount
    ensures AfterRounds(Run(Start(cfg), cfg, Rounds(k, readCount)), cfg, k, readCount)
  {
    if k > 0 {
      RoundsInv(cfg, k - 1, readCount);
      RunJoin(Start(cfg), cfg, Rounds(k - 1, readCount), RoundEvents(k - 1, readCount));
      RoundInv(Run(Start(cfg), cfg, Rounds(k - 1, readCount)), cfg, k - 1, readCount);
    }
  }

  /** None of these streams is due for an update. */
  lemma {:induction false} NoneDue(m: Manager, cfg: Config, order: seq<nat>, soon: set<nat>)
    requires 0 < cfg.streamWindow
    requires forall id :: id in m.streams ==> OneByte(cfg, m.streams[id])
    requires forall id :: id in order ==> id in m.streams
    ensures UpdateStreams(m, false, order, soon) == Updates(m, [])
    decreases |order|
  {
    if order != [] {
      var n := |order| - 1;
      NoneDue(m, cfg, order[..n], soon);
      assert OneByte(cfg, m.streams[order[n]]);
      assert m.streams[order[n] := m.streams[order[n]]] == m.streams;
    }
  }

  function Order(k: nat): seq<nat> {
    seq(k, i requires 0 <= i < k => Id(i))
  }

  lemma OrderCovers(sys: System, cfg: Config, k: nat, readCount: nat)
    requires AfterRounds(sys, cfg, k, readCount)
    ensures Covers(Order(k), sys.receiver)
  {
    forall id | id in sys.receiver.streams
      ensures id in Order(k)
    {
      assert Order(k)[id - 4] == id;
    }
  }

  /** The update lowers the window of the connection below what was received. */
  lemma ShrinkConn(sys: System, cfg: Config, k: nat)
    requires !Steady(cfg.connWindow, cfg.maxConnIncrement) && 0 < cfg.streamWindow && k == cfg.connWindow
    requires AfterRounds(sys, cfg, k, HalfRead(k))
    ensures var sys' := ReceiverUpdate(sys, false, Order(k), {0});
            && sys'.receiver.streams == sys.receiver.streams && sys'.sent == sys.sent
            && sys'.receiver.conn.highestReceived == k > sys'.receiver.conn.receiveWindow
  {
    OrderCovers(sys, cfg, k, HalfRead(k));
    NoneDue(sys.receiver, cfg, Order(k), {0});
    hide UpdateStreams, Covers;
    assert MaybeUpdateWindow(sys.receiver.conn, true).receiveWindow == HalfRead(k) + cfg.maxConnIncrement;
  }

  lemma OverConnWindow(sys: System, cfg: Config, id: nat)
    requires id in sys.receiver.streams && id != 1 && 1 <= Get(sys.sent, id) && 0 < cfg.streamWindow
    requires OneByte(cfg, sys.receiver.streams[id])
    requires sys.receiver.conn.highestReceived > sys.receiver.conn.receiveWindow
    ensures 0 in DataArrive(sys, id, 1).violated
  {
  }

  function ShrinkConnection(window: nat): seq<Event> {
    Rounds(window, HalfRead(window)) + [ReceiverUpdates(false, Order(window), {0}), DataArrives(Id(0), 1)]
  }

  lemma ShrinkConnEnd(sys: System, cfg: Config)
    requires !Steady(cfg.connWindow, cfg.maxConnIncrement) && 0 < cfg.streamWindow
    requires AfterRounds(sys, cfg, cfg.connWindow, HalfRead(cfg.connWindow))
    ensures 0 in Run(sys, cfg, [ReceiverUpdates(false, Order(cfg.connWindow), {0}), DataArrives(Id(0), 1)]).violated
  {
    hide ReceiverUpdate, DataArrive, Run, Order;
    ShrinkConn(sys, cfg, cfg.connWindow);
    var sys1 := ReceiverUpdate(sys, false, Order(cfg.connWindow), {0});
    OverConnWindow(sys1, cfg, Id(0));
    RunTwo(sys, cfg, ReceiverUpdates(false, Order(cfg.connWindow), {0}), DataArrives(Id(0), 1));
  }

  /** If the window is not steady, honest peers can violate the window of the connection. */
  lemma ConnCanBeViolated(cfg: Config)
    requires !Steady(cfg.connWindow, cfg.maxConnIncrement) && 0 < cfg.streamWindow
    ensures 0 in Run(Start(cfg), cfg, ShrinkConnection(cfg.connWindow)).violated
  {
    hide AfterRounds, Run;
    var w := cfg.connWindow;
    RoundsInv(cfg, w, HalfRead(w));
    ShrinkConnEnd(Run(Start(cfg), cfg, Rounds(w, HalfRead(w))), cfg);
    RunJoin(Start(cfg), cfg, Rounds(w, HalfRead(w)), [ReceiverUpdates(false, Order(w), {0}), DataArrives(Id(0), 1)]);
  }
}

/** Flow control of one endpoint (pstream/internal/flowcontrol) as functions. */
module FlowControlSpec {

  import opened Wire

  /** Windows fixed by the handshake: the initial windows and the largest increments, per stream and per connection. */
  datatype Config = Config(streamWindow: nat, maxStreamIncrement: nat, connWindow: nat, maxConnIncrement: nat)

  /** flowController. The field armed says that lastWindowUpdateTime is set. */
  datatype Controller = Controller(
    contributes: bool,
    bytesSent: nat, sendWindow: nat,
    bytesRead: nat, highestReceived: nat,
    receiveWindow: nat, increment: nat, maxIncrement: nat,
    armed: bool)

  function NewController(contributes: bool, window: nat, maxIncrement: nat): Controller {
    Controller(contributes, 0, 0, 0, 0, window, window, maxIncrement, false)
  }

  // ---- Sending ----

  /** The window granted by the peer; the initial one until a WINDOW_UPDATE was received. */
  function SendWindowOffset(c: Controller, initial: nat): nat {
    if c.sendWindow == 0 then initial else c.sendWindow
  }

  function SendWindowSize(c: Controller, initial: nat): nat {
    var w := SendWindowOffset(c, initial);
    if c.bytesSent > w then 0 else w - c.bytesSent
  }

  function UpdateSendWindow(c: Controller, offset: nat): Controller {
    if offset > c.sendWindow then c.(sendWindow := offset) else c
  }

  function AddBytesSent(c: Controller, n: nat): Controller {
    c.(bytesSent := c.bytesSent + n)
  }

  // ---- Receiving ----

  /** The bytes by which offset exceeds everything received before. */
  function ReceivedIncrement(c: Controller, offset: nat): nat {
    if offset > c.highestReceived then offset - c.highestReceived else 0
  }

  function UpdateHighestReceived(c: Controller, offset: nat): Controller {
    c.(highestReceived := Max(offset, c.highestReceived))
  }

  function AddBytesRead(c: Controller, n: nat): Controller {
    c.(armed := c.armed || c.bytesRead == 0, bytesRead := c.bytesRead + n)
  }

  predicate Violation(c: Controller) {
    c.highestReceived > c.receiveWindow
  }

  /** The increment for the next window; soon says that the last update was less than two round trips ago. */
  function AdjustedIncrement(c: Controller, soon: bool): nat {
    if c.armed && soon then Min(2 * c.increment, c.maxIncrement) else c.increment
  }

  /** What is left of the window: a difference of unsigned 64-bit words, which wraps around below zero. */
  function WindowLeft(c: Controller): int {
    if c.bytesRead <= c.receiveWindow then c.receiveWindow - c.bytesRead
    else WORD + c.receiveWindow - c.bytesRead
  }

  /** An update is due when less than half of the increment is left. */
  predicate UpdateDue(c: Controller) {
    WindowLeft(c) < c.increment / 2
  }

  function MaybeUpdateWindow(c: Controller, soon: bool): Controller {
    if UpdateDue(c) then
      var increment := AdjustedIncrement(c, soon);
      c.(increment := increment, receiveWindow := c.bytesRead + increment, armed := true)
    else c
  }

  /** The increment that MaybeUpdateWindow reports: 0 if an update left it unchanged. */
  function ReportedIncrement(c: Controller, soon: bool): nat {
    if UpdateDue(c) && AdjustedIncrement(c, soon) == c.increment then 0 else MaybeUpdateWindow(c, soon).increment
  }

  function EnsureMinimumWindowIncrement(c: Controller, inc: nat): Controller {
    if inc > c.increment then c.(increment := Min(inc, c.maxIncrement), armed := false) else c
  }

  // ---- Manager ----

  datatype Manager = Manager(streams: map<nat, Controller>, conn: Controller)

  /** Streams 1 and 3 do not count for the connection. */
  predicate Contributes(id: nat) {
    id != 1 && id != 3
  }

  function NewManager(cfg: Config): Manager {
    Manager(map[], NewController(false, cfg.connWindow, cfg.maxConnIncrement))
  }

  function NewStream(m: Manager, cfg: Config, id: nat): Manager {
    if id in m.streams then m
    else m.(streams := m.streams[id := NewController(Contributes(id), cfg.streamWindow, cfg.maxStreamIncrement)])
  }

  function RemoveStream(m: Manager, id: nat): Manager {
    m.(streams := m.streams - {id})
  }

  datatype ReceiveResult = Received | UnknownStream | StreamViolation | ConnViolation | AfterTermination

  /** Accounts for data up to offset on a stream. */
  function Receive(m: Manager, id: nat, offset: nat): (Manager, ReceiveResult) {
    if id !in m.streams then (m, UnknownStream)
    else
      var c := UpdateHighestReceived(m.streams[id], offset);
      var m1 := m.(streams := m.streams[id := c]);
      if Violation(c) then (m1, StreamViolation)
      else if !c.contributes then (m1, Received)
      else
        var conn := m.conn.(highestReceived := m.conn.highestReceived + ReceivedIncrement(m.streams[id], offset));
        (m1.(conn := conn), if Violation(conn) then ConnViolation else Received)
  }

  /** Accounts for the final offset in a RST_STREAM frame, which must not lie below received data. */
  function Reset(m: Manager, id: nat, offset: nat): (Manager, ReceiveResult) {
    if id in m.streams && offset < m.streams[id].highestReceived then (m, AfterTermination)
    else Receive(m, id, offset)
  }

  function ReadBytes(m: Manager, id: nat, n: nat): Manager {
    if id !in m.streams then m
    else
      var c := AddBytesRead(m.streams[id], n);
      Manager(m.streams[id := c], if c.contributes then AddBytesRead(m.conn, n) else m.conn)
  }

  function SendBytes(m: Manager, id: nat, n: nat): Manager {
    if id !in m.streams then m
    else
      var c := AddBytesSent(m.streams[id], n);
      Manager(m.streams[id := c], if c.contributes then AddBytesSent(m.conn, n) else m.conn)
  }

  /** What may still be sent on a stream, at both levels. */
  function Sendable(m: Manager, cfg: Config, id: nat): nat
    requires id in m.streams
  {
    var c := m.streams[id];
    if c.contributes then Min(SendWindowSize(c, cfg.streamWindow), SendWindowSize(m.conn, cfg.connWindow))
    else SendWindowSize(c, cfg.streamWindow)
  }

  function UpdateWindow(m: Manager, id: nat, offset: nat): Manager {
    if id == 0 then m.(conn := UpdateSendWindow(m.conn, offset))
    else if id in m.streams then m.(streams := m.streams[id := UpdateSendWindow(m.streams[id], offset)])
    else m
  }

  datatype WindowUpdate = WindowUpdate(id: nat, offset: nat)

  datatype Updates = Updates(manager: Manager, updates: seq<WindowUpdate>)

  /** The part of GetWindowUpdates for one stream. */
  function UpdateStream(u: Updates, force: bool, id: nat, soon: set<nat>): Updates
    requires id in u.manager.streams
  {
    var c := u.manager.streams[id];
    var c' := MaybeUpdateWindow(c, id in soon);
    var m := u.manager.(streams := u.manager.streams[id := c']);
    if force || UpdateDue(c) then
      var inc := ReportedIncrement(c, id in soon);
      Updates(if c.contributes && inc != 0 then m.(conn := EnsureMinimumWindowIncrement(m.conn, inc * 3 / 2)) else m,
              u.updates + [WindowUpdate(id, c'.receiveWindow)])
    else u.(manager := m)
  }

  /** GetWindowUpdates for the streams, visited in the given order. */
  function UpdateStreams(m: Manager, force: bool, order: seq<nat>, soon: set<nat>): (u: Updates)
    requires forall id :: id in order ==> id in m.streams
    ensures u.manager.streams.Keys == m.streams.Keys
  {
    if order == [] then Updates(m, [])
    else
      var n := |order| - 1;
      var u := UpdateStreams(m, force, order[..n], soon);
      UpdateStream(u, force, order[n], soon)
  }

  /** GetWindowUpdates: the streams, then the connection. */
  function GetWindowUpdates(m: Manager, force: bool, order: seq<nat>, soon: set<nat>): Updates
    requires forall id :: id in order ==> id in m.streams
  {
    var u := UpdateStreams(m, force, order, soon);
    var conn := MaybeUpdateWindow(u.manager.conn, 0 in soon);
    Updates(u.manager.(conn := conn),
            u.updates + if force || UpdateDue(u.manager.conn) then [WindowUpdate(0, conn.receiveWindow)] else [])
  }

  // ---- One controller ----

  /** Updates cannot lower the window: an increment is at most about twice the largest one. */
  predicate Steady(increment: nat, maxIncrement: nat) {
    increment / 2 <= maxIncrement + 1
  }

  /** What the receiving half of a controller keeps while its peer respects the window. */
  predicate Sound(c: Controller) {
    c.bytesRead <= c.highestReceived <= c.receiveWindow && Steady(c.increment, c.maxIncrement)
  }

  /** An increment is at most about twice the largest one, so that every update raises the window. */
  predicate Firm(increment: nat, maxIncrement: nat) {
    increment / 2 <= maxIncrement
  }

  /** The exact condition, before a due update, under which it does not lower the window, and under which it raises it:
      the increment is not adjusted, or the largest one exceeds what is left. */
  lemma UpdateRaises(c: Controller, soon: bool)
    requires c.bytesRead <= c.receiveWindow && UpdateDue(c)
    ensures var c', left := MaybeUpdateWindow(c, soon), c.receiveWindow - c.bytesRead;
            && (c'.receiveWindow >= c.receiveWindow <==> !(c.armed && soon) || c.maxIncrement >= left)
            && (c'.receiveWindow > c.receiveWindow <==> !(c.armed && soon) || c.maxIncrement > left)
            && (Firm(c.increment, c.maxIncrement) ==> c'.receiveWindow > c.receiveWindow)
            && (Steady(c.increment, c.maxIncrement) ==> c'.receiveWindow >= c.receiveWindow)
            && (c.increment <= c.maxIncrement ==> c'.receiveWindow > c.receiveWindow && c'.increment <= c.maxIncrement)
  {
  }

  /** An update that is due leaves exactly one increment ahead of what was read. The increment doubles, up to its
      maximum, exactly if the last one was soon; an update that is not due changes nothing. */
  lemma UpdateRefills(c: Controller, soon: bool)
    ensures var c' := MaybeUpdateWindow(c, soon);
            if WindowLeft(c) < c.increment / 2 then
              && c'.receiveWindow == c.bytesRead + c'.increment && c'.armed
              && c'.increment == (if c.armed && soon then Min(2 * c.increment, c.maxIncrement) else c.increment)
              && c' == c.(receiveWindow := c'.receiveWindow, increment := c'.increment, armed := true)
            else c' == c
  {
  }

  /** A fast reader: k times, everything that the window allows is read and the update comes soon. */
  function Tuned(c: Controller, k: nat): Controller {
    if k == 0 then c
    else
      var before := Tuned(c, k - 1);
      MaybeUpdateWindow(before.(bytesRead := before.receiveWindow, armed := true), true)
  }

  function PowerOfTwo(k: nat): (r: nat)
    ensures r >= 1
  {
    if k == 0 then 1 else 2 * PowerOfTwo(k - 1)
  }

  /** For a fast reader the increment doubles with each update until it reaches its maximum, and stays there. */
  lemma {:induction false} TuningDoubles(c: Controller, k: nat)
    requires 2 <= c.increment <= c.maxIncrement
    ensures var c' := Tuned(c, k);
            && c'.maxIncrement == c.maxIncrement
            && c'.increment == Min(Product(PowerOfTwo(k), c.increment), c.maxIncrement)
    decreases k
  {
    if k > 0 {
      TuningDoubles(c, k - 1);
      ProductDoubles(PowerOfTwo(k - 1), c.increment);
      hide Product, PowerOfTwo;
      var before := Tuned(c, k - 1);
      UpdateRefills(before.(bytesRead := before.receiveWindow, armed := true), true);
    } else {
      ProductOne(c.increment);
    }
  }

  lemma ProductOne(y: nat)
    ensures Product(1, y) == y
  {
  }

  lemma ProductDoubles(x: nat, y: nat)
    requires x >= 1
    ensures Product(2 * x, y) == 2 * Product(x, y) && Product(x, y) >= y
  {
  }

  /** Removing a stream undoes adding it, touches no other one, and makes the stream unknown. */
  lemma RemoveExactly(m: Manager, cfg: Config, id: nat, offset: nat)
    ensures var r := RemoveStream(m, id);
            && r.conn == m.conn && r.streams.Keys == m.streams.Keys - {id}
            && (forall x :: x in r.streams ==> r.streams[x] == m.streams[x])
            && Receive(r, id, offset) == (r, UnknownStream)
            && NewStream(r, cfg, id).streams.Keys == m.streams.Keys + {id}
            && (id !in m.streams ==> RemoveStream(NewStream(m, cfg, id), id) == m)
  {
    if id !in m.streams {
      assert NewStream(m, cfg, id).streams - {id} == m.streams;
    }
  }

  /** MaybeUpdateWindow and EnsureMinimumWindowIncrement keep a controller sound and never lower its window. */
  lemma UpdateSound(c: Controller, soon: bool)
    requires Sound(c)
    ensures var c' := MaybeUpdateWindow(c, soon);
            c'.receiveWindow >= c.receiveWindow && Sound(c')
  {
    if UpdateDue(c) {
      UpdateRaises(c, soon);
    }
  }

  lemma EnsureSound(c: Controller, inc: nat)
    requires Sound(c)
    ensures Sound(EnsureMinimumWindowIncrement(c, inc))
    ensures EnsureMinimumWindowIncrement(c, inc).receiveWindow == c.receiveWindow
  {
  }
}

/** flowController and flowControlManager (pstream/internal/flowcontrol) with the fields that the source updates,
    proved against FlowControlSpec. A map holds one object for each stream. */
module FlowControl {

  import opened Wire
  import opened FlowControlSpec

  class FlowController {
    const isConnection: bool
    const contributes: bool
    const cfg: Config
    var bytesSent: nat
    var sendWindow: nat
    var bytesRead: nat
    var highestReceived: nat
    var receiveWindow: nat
    var increment: nat
    var armed: bool

    function View(): Controller
      reads this
    {
      Controller(contributes, bytesSent, sendWindow, bytesRead, highestReceived, receiveWindow, increment,
                 if isConnection then cfg.maxConnIncrement else cfg.maxStreamIncrement, armed)
    }

    constructor (connection: bool, contributes: bool, cfg: Config)
      ensures isConnection == connection && this.cfg == cfg
      ensures View() == if connection then NewController(contributes, cfg.connWindow, cfg.maxConnIncrement)
                        else NewController(contributes, cfg.streamWindow, cfg.maxStreamIncrement)
    {
      isConnection := connection;
      this.contributes := contributes;
      this.cfg := cfg;
      bytesSent, sendWindow, bytesRead, highestReceived := 0, 0, 0, 0;
      if connection {
        receiveWindow := cfg.connWindow;
        increment := cfg.connWindow;
      } else {
        receiveWindow := cfg.streamWindow;
        increment := cfg.streamWindow;
      }
      armed := false;
    }

    method UpdateSendWindow(offset: nat) returns (updated: bool)
      modifies this
      ensures View() == FlowControlSpec.UpdateSendWindow(old(View()), offset)
      ensures updated <==> View() != old(View())
    {
      if offset > sendWindow {
        sendWindow := offset;
        return true;
      }
      return false;
    }

    function GetSendWindow(): nat
      reads this
    {
      if sendWindow == 0 then if isConnection then cfg.connWindow else cfg.streamWindow else sendWindow
    }

    method SendWindowSize() returns (size: nat)
      ensures size == FlowControlSpec.SendWindowSize(View(), if isConnection then cfg.connWindow else cfg.streamWindow)
    {
      var window := GetSendWindow();
      if bytesSent > window {
        return 0;
      }
      return window - bytesSent;
    }

    /** Lines 120 to 130: reordered says that a larger offset was received before. */
    method UpdateHighestReceived(offset: nat) returns (added: nat, reordered: bool)
      modifies this`highestReceived
      ensures View() == FlowControlSpec.UpdateHighestReceived(old(View()), offset)
      ensures added == ReceivedIncrement(old(View()), offset)
      ensures reordered == (offset < old(highestReceived))
    {
      if offset == highestReceived {
        return 0, false;
      }
      if offset > highestReceived {
        added := offset - highestReceived;
        highestReceived := offset;
        return added, false;
      }
      return 0, true;
    }

    method AddBytesRead(n: nat)
      modifies this
      ensures View() == FlowControlSpec.AddBytesRead(old(View()), n)
    {
      if bytesRead == 0 {
        armed := true;
      }
      bytesRead := bytesRead + n;
    }

    /** Lines 150 to 170. The difference of two unsigned words wraps around below zero. */
    method MaybeUpdateWindow(soon: bool) returns (necessary: bool, newIncrement: nat, offset: nat)
      modifies this
      ensures necessary == UpdateDue(old(View()))
      ensures View() == FlowControlSpec.MaybeUpdateWindow(old(View()), soon)
      ensures newIncrement == ReportedIncrement(old(View()), soon) && offset == View().receiveWindow
    {
      var diff := if bytesRead <= receiveWindow then receiveWindow - bytesRead else WORD + receiveWindow - bytesRead;
      if diff < increment / 2 {
        newIncrement := 0;
        var oldIncrement := increment;
        MaybeAdjustWindowIncrement(soon);
        if increment != oldIncrement {
          newIncrement := increment;
        }
        armed := true;
        receiveWindow := bytesRead + increment;
        return true, newIncrement, receiveWindow;
      }
      return false, increment, receiveWindow;
    }

    method MaybeAdjustWindowIncrement(soon: bool)
      modifies this`increment
      ensures increment == AdjustedIncrement(old(View()), soon)
    {
      if !armed || !soon {
        return;
      }
      increment := Min(2 * increment, if isConnection then cfg.maxConnIncrement else cfg.maxStreamIncrement);
    }

    method EnsureMinimumWindowIncrement(inc: nat)
      modifies this
      ensures View() == FlowControlSpec.EnsureMinimumWindowIncrement(old(View()), inc)
    {
      if inc > increment {
        increment := Min(inc, if isConnection then cfg.maxConnIncrement else cfg.maxStreamIncrement);
        armed := false;
      }
    }
  }

  class FlowControlManager {
    const cfg: Config
    const conn: FlowController
    var streams: map<nat, FlowController>

    /** Every stream has its own controller. */
    ghost predicate Valid()
      reads this, streams.Values
    {
      && conn.isConnection && conn.cfg == cfg && conn !in streams.Values
      && (forall id :: id in streams ==> !streams[id].isConnection && streams[id].cfg == cfg)
      && (forall id, id' :: id in streams && id' in streams && id != id' ==> streams[id] != streams[id'])
    }

    ghost function View(): Manager
      reads this, conn, streams.Values
    {
      Manager(map id | id in streams :: streams[id].View(), conn.View())
    }

    constructor (cfg: Config)
      ensures Valid() && fresh(conn) && this.cfg == cfg && View() == NewManager(cfg)
    {
      this.cfg := cfg;
      conn := new FlowController(true, false, cfg);
      streams := map[];
    }

    method NewStream(id: nat)
      requires Valid()
      modifies this
      ensures Valid() && fresh(streams.Values - old(streams.Values))
      ensures View() == FlowControlSpec.NewStream(old(View()), cfg, id)
    {
      if id in streams {
        return;
      }
      var c := new FlowController(false, Contributes(id), cfg);
      AddStream(id, c);
    }

    method AddStream(id: nat, c: FlowController)
      requires Valid() && id !in streams && c !in streams.Values && c != conn && !c.isConnection && c.cfg == cfg
      modifies this
      ensures Valid() && streams == old(streams)[id := c]
      ensures View() == old(View()).(streams := old(View()).streams[id := c.View()])
    {
      streams := streams[id := c];
      assert View().streams == old(View()).streams[id := c.View()];
    }

    method RemoveStream(id: nat)
      requires Valid()
      modifies this
      ensures Valid() && View() == FlowControlSpec.RemoveStream(old(View()), id)
    {
      streams := streams - {id};
    }

    /** Lines 95 to 130. */
    method UpdateHighestReceived(id: nat, offset: nat) returns (r: ReceiveResult)
      requires Valid()
      modifies streams.Values, conn
      ensures Valid() && (View(), r) == Receive(old(View()), id, offset)
    {
      if id !in streams {
        return UnknownStream;
      }
      var c := streams[id];
      var added, reordered := c.UpdateHighestReceived(offset);
      assert View().streams == old(View()).streams[id := c.View()];
      r := Account(id, added);
    }

    /** Lines 65 to 90. */
    method ResetStream(id: nat, offset: nat) returns (r: ReceiveResult)
      requires Valid()
      modifies streams.Values, conn
      ensures Valid() && (View(), r) == Reset(old(View()), id, offset)
    {
      if id !in streams {
        return UnknownStream;
      }
      var c := streams[id];
      var added, reordered := c.UpdateHighestReceived(offset);
      assert View().streams == old(View()).streams[id := c.View()];
      if reordered {
        assert View().streams == old(View()).streams;
        return AfterTermination;
      }
      r := Account(id, added);
    }

    /** Lines 118 to 129, and 78 to 89. */
    method Account(id: nat, added: nat) returns (r: ReceiveResult)
      requires Valid() && id in streams
      modifies conn
      ensures Valid()
      ensures var c := old(View()).streams[id];
              var conn' := old(conn.View()).(highestReceived := old(conn.highestReceived) + added);
              if Violation(c) then View() == old(View()) && r == StreamViolation
              else if !c.contributes then View() == old(View()) && r == Received
              else View() == old(View()).(conn := conn') && r == if Violation(conn') then ConnViolation else Received
    {
      var c := streams[id];
      if c.highestReceived > c.receiveWindow {
        return StreamViolation;
      }
      if c.contributes {
        conn.highestReceived := conn.highestReceived + added;
        if conn.highestReceived > conn.receiveWindow {
          return ConnViolation;
        }
      }
      return Received;
    }

    method AddBytesRead(id: nat, n: nat) returns (known: bool)
      requires Valid()
      modifies streams.Values, conn
      ensures Valid() && known == (id in streams) && View() == ReadBytes(old(View()), id, n)
    {
      if id !in streams {
        return false;
      }
      var c := streams[id];
      c.AddBytesRead(n);
      if c.contributes {
        conn.AddBytesRead(n);
      }
      return true;
    }

    method AddBytesSent(id: nat, n: nat) returns (known: bool)
      requires Valid()
      modifies streams.Values, conn
      ensures Valid() && known == (id in streams) && View() == SendBytes(old(View()), id, n)
    {
      if id !in streams {
        return false;
      }
      var c := streams[id];
      c.bytesSent := c.bytesSent + n;
      if c.contributes {
        conn.bytesSent := conn.bytesSent + n;
      }
      return true;
    }

    /** Lines 251 to 266: 0 for a stream that is not known. */
    method SendWindowSize(id: nat) returns (size: nat)
      requires Valid()
      ensures size == if id in streams then Sendable(View(), cfg, id) else 0
    {
      if id !in streams {
        return 0;
      }
      var c := streams[id];
      size := c.SendWindowSize();
      if c.contributes {
        var connSize := conn.SendWindowSize();
        size := Min(size, connSize);
      }
    }

    /** Lines 276 to 292; found is false where the source returns an error. */
    method UpdateWindow(id: nat, offset: nat) returns (updated: bool, found: bool)
      requires Valid()
      modifies streams.Values, conn
      ensures Valid() && View() == FlowControlSpec.UpdateWindow(old(View()), id, offset)
      ensures found <==> id == 0 || id in streams
      ensures updated <==> found && offset > old(if id == 0 then conn.sendWindow
                                                 else if id in streams then streams[id].sendWindow else 0)
      ensures updated <==> View() != old(View())
    {
      updated, found := false, true;
      if id == 0 {
        updated := conn.UpdateSendWindow(offset);
      } else if id in streams {
        var c := streams[id];
        updated := c.UpdateSendWindow(offset);
      } else {
        found := false;
      }
    }

    /** Lines 150 to 170. Go visits the map in any order; the result names the order taken. */
    method GetWindowUpdates(force: bool, soon: set<nat>) returns (res: seq<WindowUpdate>, order: seq<nat>)
      requires Valid()
      modifies streams.Values, conn
      ensures Valid()
      ensures (forall id :: id in order <==> id in streams) && |order| == |streams|
      ensures Updates(View(), res) == FlowControlSpec.GetWindowUpdates(old(View()), force, order, soon)
    {
      res, order := GetStreamUpdates(force, soon);
      label moved:
      var necessary, newIncrement, offset := conn.MaybeUpdateWindow(0 in soon);
      assert View().streams == old@moved(View()).streams;
      if force || necessary {
        res := res + [WindowUpdate(0, offset)];
      }
    }

    method GetStreamUpdates(force: bool, soon: set<nat>) returns (res: seq<WindowUpdate>, order: seq<nat>)
      requires Valid()
      modifies streams.Values, conn
      ensures Valid()
      ensures (forall id :: id in order <==> id in streams) && |order| == |streams|
      ensures Updates(View(), res) == UpdateStreams(old(View()), force, order, soon)
    {
      hide UpdateStream;
      res, order := [], [];
      var left := streams.Keys;
      while left != {}
        invariant Valid()
        invariant left <= streams.Keys && |order| + |left| == |streams|
        invariant forall id :: id in order <==> id in streams.Keys - left
        invariant Updates(View(), res) == UpdateStreams(old(View()), force, order, soon)
        decreases left
      {
        var id :| id in left;
        left := left - {id};
        res := UpdateOne(force, soon, id, res);
        assert (order + [id])[..|order|] == order;
        order := order + [id];
      }
    }

    /** Lines 157 to 162. */
    method UpdateOne(force: bool, soon: set<nat>, id: nat, updates: seq<WindowUpdate>) returns (res: seq<WindowUpdate>)
      requires Valid() && id in streams
      modifies streams.Values, conn
      ensures Valid()
      ensures Updates(View(), res) == UpdateStream(Updates(old(View()), updates), force, id, soon)
    {
      var c := streams[id];
      var necessary, newIncrement, offset := c.MaybeUpdateWindow(id in soon);
      assert View().streams == old(View()).streams[id := c.View()];
      label moved:
      if force || necessary {
        res := updates + [WindowUpdate(id, offset)];
        if c.contributes && newIncrement != 0 {
          conn.EnsureMinimumWindowIncrement(newIncrement * 3 / 2);
          assert View().streams == old@moved(View()).streams;
        }
      } else {
        res := updates;
      }
    }
  }
}

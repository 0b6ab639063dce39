/** send (pstream/stream_scheduler.go): one frame of one stream under flow control. */
module StreamSchedulerSpec {

  import opened Wire
  import opened StreamSpec
  import FC = FlowControlSpec

  /** What may be sent on a stream; nothing on a stream that flow control does not know. */
  function Window(m: FC.Manager, cfg: FC.Config, id: nat): nat {
    if id in m.streams then FC.Sendable(m, cfg, id) else 0
  }

  datatype Sent = Sent(stream: Sender, manager: FC.Manager, frame: Option<StreamFrame>, blocked: seq<nat>)

  /** The frame, the accounting for it, and the BLOCKED frames it gives rise to. */
  function SendFrame(s: Sender, m: FC.Manager, cfg: FC.Config, maxBytes: nat): Sent {
    var window := Window(m, cfg, s.id);
    var (s', f) := Send(s, maxBytes, window);
    match f
    case None => Sent(s', m, None, [])
    case Some(frame) =>
      var m' := FC.SendBytes(m, s.id, |frame.data|);
      Sent(s', m', f,
           if FC.SendWindowSize(m'.conn, cfg.connWindow) == 0 then [0]
           else if !frame.fin && window == |frame.data| then [s.id]
           else [])
  }

  /** A frame never takes more than either window allows, and every byte of it is accounted for at both levels. */
  lemma SendWithinWindows(s: Sender, m: FC.Manager, cfg: FC.Config, maxBytes: nat)
    requires s.id in m.streams
    ensures var r := SendFrame(s, m, cfg, maxBytes);
            match r.frame
            case None => r.manager == m && r.stream == s
            case Some(frame) =>
              var c, c' := m.streams[s.id], r.manager.streams[s.id];
              && frame.EncodedLength() <= maxBytes
              && c'.bytesSent == c.bytesSent + |frame.data|
              && (|frame.data| > 0 ==> c'.bytesSent <= FC.SendWindowOffset(c, cfg.streamWindow))
              && (c.contributes ==>
                    && r.manager.conn.bytesSent == m.conn.bytesSent + |frame.data|
                    && (|frame.data| > 0 ==> r.manager.conn.bytesSent <= FC.SendWindowOffset(m.conn, cfg.connWindow)))
              && (forall id :: id in m.streams && id != s.id ==>
                    id in r.manager.streams && r.manager.streams[id] == m.streams[id])
  {
  }

  /** Exactly when a stream contributes a frame, and how much of its data: what the room behind the header and the
      smaller window allow. */
  lemma FrameExactly(s: Sender, m: FC.Manager, cfg: FC.Config, maxBytes: nat)
    requires s.id in m.streams
    ensures var header := StreamFrame(s.id, false, true, s.writeOffset, []).MinLength();
            var stream := FC.SendWindowSize(m.streams[s.id], cfg.streamWindow);
            var conn := FC.SendWindowSize(m.conn, cfg.connWindow);
            var window := if m.streams[s.id].contributes then Min(stream, conn) else stream;
            var f := SendFrame(s, m, cfg, maxBytes).frame;
            && (f.Some? <==>
                  && s.id != 1 && header < maxBytes
                  && if s.pending != [] then window > 0 else s.finishedWriting && !s.finSent)
            && (f.Some? && s.pending != [] ==>
                  |f.value.data| == Min(|s.pending|, Min(maxBytes - header, window)))
  {
    SendExactly(s, maxBytes, Window(m, cfg, s.id));
    hide Send, FC.SendBytes, FC.SendWindowSize;
  }

  /** Which BLOCKED frame a frame queues: one for the connection if that is the limit now, otherwise one for the stream
      if the frame has no FIN and nothing more can be sent on the stream, and otherwise none. */
  lemma BlockedExactly(s: Sender, m: FC.Manager, cfg: FC.Config, maxBytes: nat)
    requires s.id in m.streams
    ensures var r := SendFrame(s, m, cfg, maxBytes);
            r.blocked == if r.frame.None? then []
                         else if FC.SendWindowSize(r.manager.conn, cfg.connWindow) == 0 then [0]
                         else if !r.frame.value.fin && Window(r.manager, cfg, s.id) == 0 then [s.id]
                         else []
  {
  }
}

module StreamScheduler {

  import opened Wire
  import opened Stream
  import opened FlowControl
  import FC = FlowControlSpec
  import StreamSpec
  import Spec = StreamSchedulerSpec

  class Scheduler {
    const flowControlManager: FlowControlManager
    var blockedFrameQueue: seq<nat>

    constructor (flowControlManager: FlowControlManager)
      ensures this.flowControlManager == flowControlManager && blockedFrameQueue == []
    {
      this.flowControlManager := flowControlManager;
      blockedFrameQueue := [];
    }

    static predicate HeaderFits(id: nat, offset: nat, maxBytes: nat) {
      id == 1 || StreamFrame(id, false, true, offset, []).MinLength() <= maxBytes
    }

    /** Lines 481 to 556. */
    method Send(s: StreamState, maxBytes: nat) returns (res: Option<StreamFrame>, currentLen: nat, cont: bool)
      requires flowControlManager.Valid()
      modifies this, s, flowControlManager.conn, flowControlManager.streams.Values
      ensures flowControlManager.Valid()
      ensures var r := Spec.SendFrame(old(s.SenderView()), old(flowControlManager.View()),
                                      flowControlManager.cfg, maxBytes);
              && s.SenderView() == r.stream && flowControlManager.View() == r.manager && res == r.frame
              && blockedFrameQueue == old(blockedFrameQueue) + r.blocked
      ensures currentLen == if res.Some? then res.value.EncodedLength() else 0
      ensures cont == if res.Some? then currentLen != maxBytes else HeaderFits(s.streamID, old(s.writeOffset), maxBytes)
    {
      hide StreamSpec.Send, FC.SendBytes, FC.Sendable;
      var sendWindowSize := flowControlManager.SendWindowSize(s.streamID);
      res, cont := Cut(s, maxBytes, sendWindowSize);
      if res == None {
        return None, 0, cont;
      }
      Account(s.streamID, res.value, sendWindowSize);
      currentLen := res.value.EncodedLength();
      cont := currentLen != maxBytes;
    }

    /** Lines 484 to 533: takes the data from the stream. */
    method Cut(s: StreamState, maxBytes: nat, sendWindowSize: nat) returns (res: Option<StreamFrame>, cont: bool)
      modifies s
      ensures (s.SenderView(), res) == StreamSpec.Send(old(s.SenderView()), maxBytes, sendWindowSize)
      ensures cont == HeaderFits(s.streamID, old(s.writeOffset), maxBytes)
    {
      if s.streamID == 1 {
        return None, true;
      }
      var frame := StreamFrame(s.streamID, false, true, s.writeOffset, []);
      var frameHeaderBytes := frame.MinLength();
      if frameHeaderBytes > maxBytes {
        return None, false;
      }
      var maxLen := maxBytes - frameHeaderBytes;
      var lenStreamData := |s.dataForWriting|;
      if lenStreamData != 0 {
        maxLen := Min(maxLen, sendWindowSize);
      }
      if maxLen == 0 {
        return None, true;
      }
      var data := [];
      if lenStreamData != 0 {
        data := s.GetDataForWriting(maxLen);
      }
      var shouldSendFin := s.finishedWriting && !s.finSent && s.dataForWriting == [];
      if data == [] && !shouldSendFin {
        return None, true;
      }
      if shouldSendFin {
        frame := frame.(fin := true);
        s.finSent := true;
      }
      return Some(frame.(data := data)), true;
    }

    /** Lines 534 to 542: accounts for the data and queues a BLOCKED frame. */
    method Account(id: nat, frame: StreamFrame, sendWindowSize: nat)
      requires flowControlManager.Valid()
      modifies this, flowControlManager.conn, flowControlManager.streams.Values
      ensures flowControlManager.Valid()
      ensures flowControlManager.View() == FC.SendBytes(old(flowControlManager.View()), id, |frame.data|)
      ensures blockedFrameQueue == old(blockedFrameQueue) +
                (if FC.SendWindowSize(flowControlManager.View().conn, flowControlManager.cfg.connWindow) == 0 then [0]
                 else if !frame.fin && sendWindowSize == |frame.data| then [id]
                 else [])
    {
      hide FC.SendBytes;
      var _ := flowControlManager.AddBytesSent(id, |frame.data|);
      var remaining := flowControlManager.conn.SendWindowSize();
      if remaining == 0 {
        blockedFrameQueue := blockedFrameQueue + [0];
      } else if !frame.fin && sendWindowSize == |frame.data| {
        blockedFrameQueue := blockedFrameQueue + [id];
      }
    }
  }
}

/** The two ends of acknowledgement on one path: the sender's books (pstream/ackhandler/sent_packet_handler.go), the
    receiver's history (pstream/ackhandler/received_packet_handler.go), STOP_WAITING frames, and a network that loses,
    repeats and reorders packets in both directions. */
module AckProtocol {

  import opened Wire
  import opened PacketRanges
  import opened PacketLists
  import opened AckFrames
  import ReceivedHistorySpec
  import S = SentPacketsSpec
  import R = ReceivedPacketsSpec

  datatype Event =
    | Sends(packet: Packet, now: int, stopWaiting: Option<nat>)
    | AnnouncesStopWaiting(force: bool)
    | PacketArrives(number: nat, instigateAck: bool)
    | MakesAck(expired: bool)
    | ClosesPath
    | AckArrives(issued: AckFrame, frame: AckFrame, withPacketNumber: nat, now: int, delay: int)
    | ClosePathArrives(issued: AckFrame, frame: AckFrame, withPacketNumber: nat)
    | AlarmRings(now: int, delay: int, failed: bool)
    | GivesUpPath
    | Retransmits

  /** sent, received, acked: packet numbers. retained: the received numbers that the receiver still has to report,
      because no STOP_WAITING frame gave them up. announced: least unacknowledged numbers taken for STOP_WAITING frames;
      stopWaiting: those sent, by packet number. acks: the frames made by the receiver. statuses: what the sender
      answered to them. refused: a STOP_WAITING frame could not be written. indexed: an ACK was due and no range was
      tracked. broken: the receiver gave up because of too many ranges. */
  datatype System = System(
    sender: S.Sender, receiver: R.Receiver,
    sent: set<nat>, received: set<nat>, retained: set<nat>, acked: set<nat>,
    announced: set<nat>, stopWaiting: map<nat, nat>, acks: set<AckFrame>,
    statuses: set<S.Status>, refused: bool, indexed: bool, broken: bool)

  function Start(legacy: bool): System {
    System(S.NEW_SENDER, R.NewReceiver(legacy), {}, {}, {}, {}, {}, map[], {}, {}, false, false, false)
  }

  /** What may be left of a frame on the wire: writing drops the lowest ranges if there are too many. */
  ghost predicate Reports(issued: AckFrame, f: AckFrame) {
    && ValidFrame(f) && f.largestAcked == issued.largestAcked
    && forall p :: Acks(f, p) ==> Acks(issued, p)
  }

  function Send(sys: System, packet: Packet, now: int, stopWaiting: Option<nat>): System {
    var (s, r) := S.SentPacket(sys.sender, packet, now);
    if r != S.Ok then sys
    else
      var sys1 := sys.(sender := s, sent := sys.sent + {packet.number});
      if stopWaiting.Some? && stopWaiting.value in sys.announced then
        if stopWaiting.value > packet.number then sys1.(refused := true)
        else sys1.(stopWaiting := sys.stopWaiting[packet.number := stopWaiting.value])
      else sys1
  }

  function Announce(sys: System, force: bool): System {
    var (s, n) := S.GetStopWaiting(sys.sender, force);
    sys.(sender := s, announced := sys.announced + if n.Some? then {n.value} else {})
  }

  /** The numbers above a limit. */
  function Above(ns: set<nat>, limit: nat): set<nat> {
    set n | n in ns && n > limit
  }

  /** The limit after a packet was handled: the packet's STOP_WAITING frame may set it. */
  function LimitAfter(sys: System, number: nat): nat {
    if number in sys.stopWaiting && sys.stopWaiting[number] > 0 then sys.stopWaiting[number] - 1
    else sys.receiver.lowerLimit
  }

  function Retain(sys: System, number: nat): set<nat> {
    Above(sys.retained + Above({number}, sys.receiver.lowerLimit), LimitAfter(sys, number))
  }

  /** The packet is registered first, then its STOP_WAITING frame is handled. */
  function Arrive(sys: System, number: nat, instigateAck: bool): System {
    if number !in sys.sent || sys.broken then sys
    else
      var (h, r) := R.Receive(sys.receiver, number, instigateAck);
      if r != R.Ok then sys.(broken := true)
      else
        sys.(received := sys.received + {number}, retained := Retain(sys, number),
             receiver := if number in sys.stopWaiting && sys.stopWaiting[number] > 0
                         then R.SetLowerLimit(h, sys.stopWaiting[number] - 1) else h)
  }

  function MakeAck(sys: System, expired: bool): System {
    if sys.broken then sys
    else if R.AckDue(sys.receiver, expired) && sys.receiver.ranges == [] then sys.(indexed := true)
    else
      var (h, f) := R.GetAckFrame(sys.receiver, expired);
      sys.(receiver := h, acks := sys.acks + if f.Some? then {f.value} else {})
  }

  /** The frame that closes a path needs a tracked packet. */
  function ClosePath(sys: System): System {
    if sys.broken || sys.receiver.ranges == [] then sys
    else sys.(acks := sys.acks + {FrameOf(sys.receiver.largestObserved, sys.receiver.ranges)})
  }

  function Record(sys: System, o: S.Outcome): System {
    sys.(sender := o.sender, acked := sys.acked + Numbers(o.acked), statuses := sys.statuses + {o.status})
  }

  ghost function Step(sys: System, e: Event): System {
    match e
    case Sends(packet, now, stopWaiting) => Send(sys, packet, now, stopWaiting)
    case AnnouncesStopWaiting(force) => Announce(sys, force)
    case PacketArrives(number, instigateAck) => Arrive(sys, number, instigateAck)
    case MakesAck(expired) => MakeAck(sys, expired)
    case ClosesPath => ClosePath(sys)
    case AckArrives(issued, f, n, now, delay) =>
      if issued in sys.acks && Reports(issued, f) then Record(sys, S.ReceivedAck(sys.sender, f, n, now, delay)) else sys
    case ClosePathArrives(issued, f, n) =>
      if issued in sys.acks && Reports(issued, f) then Record(sys, S.ReceivedClosePath(sys.sender, f, n)) else sys
    case AlarmRings(now, delay, failed) => Record(sys, S.OnAlarm(sys.sender, now, delay, failed))
    case GivesUpPath => Record(sys, S.SetInflightAsLost(sys.sender))
    case Retransmits => sys.(sender := S.Dequeue(sys.sender).0)
  }

  // ---- What every step keeps ----

  /** The sender never treats a number that it sent as skipped. */
  ghost predicate SenderInv(s: S.Sender, sent: set<nat>) {
    && S.Valid(s)
    && (forall n :: n in sent ==> 0 < n <= s.lastSent)
    && (forall n :: n in s.skipped ==> n !in sent && n <= s.lastSent)
  }

  /** The tracked ranges are exactly the numbers to report. */
  ghost predicate ReceiverInv(h: R.Receiver, retained: set<nat>) {
    R.Valid(h) && (forall p :: In(h.ranges, p) <==> p in retained) && forall p :: p in retained ==> p > h.lowerLimit
  }

  /** A frame acknowledges only received packets, and the largest is one of them. */
  ghost predicate Sound(f: AckFrame, received: set<nat>) {
    f.largestAcked in received && forall p :: Acks(f, p) ==> p in received
  }

  ghost predicate AcksInv(sys: System) {
    forall f :: f in sys.acks ==> Sound(f, sys.received)
  }

  ghost predicate StopWaitingInv(sys: System) {
    && (forall n :: n in sys.announced ==> 0 < n <= sys.sender.lastSent + 1)
    && (forall k :: k in sys.stopWaiting ==> 0 < sys.stopWaiting[k] <= k)
  }

  ghost predicate Inv(sys: System) {
    && SenderInv(sys.sender, sys.sent)
    && ReceiverInv(sys.receiver, sys.retained)
    && sys.acked <= sys.received <= sys.sent && sys.retained <= sys.received
    && AcksInv(sys)
    && StopWaitingInv(sys)
    && S.AckForUnsent !in sys.statuses && S.AckForSkipped !in sys.statuses
    && !sys.refused && !sys.indexed
  }

  // ---- Sending ----

  lemma {:induction false} BetweenIn(lo: nat, hi: nat)
    ensures forall n :: n in S.Between(lo, hi) ==> lo <= n < hi
    decreases hi
  {
    if lo < hi {
      BetweenIn(lo, hi - 1);
    }
  }

  lemma SendInv(s: S.Sender, sent: set<nat>, packet: Packet, now: int)
    requires SenderInv(s, sent)
    ensures var (s', r) := S.SentPacket(s, packet, now);
            r == S.Ok ==> SenderInv(s', sent + {packet.number}) && s'.lastSent == packet.number > s.lastSent
  {
    hide S.Valid, S.Between, S.LastSkipped, S.SentPacket;
    S.SendValid(s, packet, now);
    SentFields(s, packet, now);
    var (s', r) := S.SentPacket(s, packet, now);
    if r == S.Ok {
      SkippedAfter(s, s', sent, packet.number);
    }
  }

  lemma SentFields(s: S.Sender, packet: Packet, now: int)
    ensures var (s', r) := S.SentPacket(s, packet, now);
            r == S.Ok ==>
              && s'.lastSent == packet.number > s.lastSent
              && s'.skipped == S.LastSkipped(s.skipped + S.Between(s.lastSent + 1, packet.number))
  {
    hide S.Between, S.LastSkipped;
  }

  lemma SkippedAfter(s: S.Sender, s': S.Sender, sent: set<nat>, number: nat)
    requires number > s.lastSent && s'.lastSent == number
    requires s'.skipped == S.LastSkipped(s.skipped + S.Between(s.lastSent + 1, number))
    requires SenderInv(s, sent) && S.Valid(s')
    ensures SenderInv(s', sent + {number})
  {
    BetweenIn(s.lastSent + 1, number);
    LastSkippedIn(s.skipped, S.Between(s.lastSent + 1, number));
    hide S.Between, S.LastSkipped, S.Valid;
    forall n | n in s'.skipped
      ensures n !in sent + {number} && n <= number
    {
      assert n in s.skipped || n in S.Between(s.lastSent + 1, number);
    }
  }

  lemma LastSkippedIn(a: seq<nat>, b: seq<nat>)
    ensures forall n :: n in S.LastSkipped(a + b) ==> n in a || n in b
  {
  }

  lemma SendsInv(sys: System, packet: Packet, now: int, stopWaiting: Option<nat>)
    requires Inv(sys)
    ensures Inv(Send(sys, packet, now, stopWaiting))
  {
    SendInv(sys.sender, sys.sent, packet, now);
    hide SenderInv, ReceiverInv, Sound;
  }

  lemma AnnounceInv(sys: System, force: bool)
    requires Inv(sys)
    ensures Inv(Announce(sys, force))
  {
    hide ReceiverInv, Sound;
  }

  // ---- Receiving ----

  lemma ArriveInv(sys: System, number: nat, instigateAck: bool)
    requires Inv(sys)
    ensures Inv(Arrive(sys, number, instigateAck))
  {
    hide ReceiverInv, R.Receive, Retain, S.Valid, Sound;
    if number in sys.sent && !sys.broken {
      assert number > 0;
      hide SenderInv;
      var (h, r) := R.Receive(sys.receiver, number, instigateAck);
      ReceiveInv(sys.receiver, sys.retained, number, instigateAck);
      if r == R.Ok {
        RetainInv(sys, number, h);
        StillSound(sys, sys.received + {number});
      }
    }
  }

  lemma RetainInv(sys: System, number: nat, h: R.Receiver)
    requires Inv(sys) && number > 0 && h.lowerLimit == sys.receiver.lowerLimit
    requires ReceiverInv(h, sys.retained + Above({number}, h.lowerLimit))
    requires h.ranges != [] && h.largestObserved >= number
    ensures ReceiverInv(if number in sys.stopWaiting && sys.stopWaiting[number] > 0
                        then R.SetLowerLimit(h, sys.stopWaiting[number] - 1) else h,
                        Retain(sys, number))
    ensures Retain(sys, number) <= sys.received + {number}
  {
    var retained := sys.retained + Above({number}, h.lowerLimit);
    if number in sys.stopWaiting {
      LimitInv(h, retained, sys.stopWaiting[number] - 1);
    } else {
      assert Above(retained, h.lowerLimit) == retained;
    }
  }

  lemma ReceiveInv(h: R.Receiver, retained: set<nat>, number: nat, instigateAck: bool)
    requires ReceiverInv(h, retained) && number > 0
    ensures var (h', r) := R.Receive(h, number, instigateAck);
            r == R.Ok ==>
              && ReceiverInv(h', retained + Above({number}, h.lowerLimit))
              && h'.ranges != [] && h'.largestObserved >= number && h'.lowerLimit == h.lowerLimit
  {
    R.ReceiveCorrect(h, number, instigateAck);
    hide R.Valid, In, ReceivedHistorySpec.Add;
  }

  lemma StillSound(sys: System, received: set<nat>)
    requires AcksInv(sys) && sys.received <= received
    ensures AcksInv(sys.(received := received))
  {
  }

  lemma LimitInv(h: R.Receiver, retained: set<nat>, limit: nat)
    requires ReceiverInv(h, retained) && h.ranges != [] && limit < h.largestObserved
    ensures ReceiverInv(R.SetLowerLimit(h, limit), Above(retained, limit))
  {
    R.LimitExact(h, limit);
    hide R.Valid, In, ReceivedHistorySpec.DeleteUpTo;
    forall p: nat
      ensures In(R.SetLowerLimit(h, limit).ranges, p) <==> p in Above(retained, limit)
    {
      R.LimitDrops(h, limit, p);
    }
  }

  lemma MakeAckInv(sys: System, expired: bool)
    requires Inv(sys)
    ensures Inv(MakeAck(sys, expired))
  {
    if !sys.broken {
      R.AckCorrect(sys.receiver, expired, 0);
      if R.AckDue(sys.receiver, expired) {
        FrameSound(sys.receiver, sys.retained, sys.received);
      }
      hide SenderInv, Sound;
    }
  }

  lemma ClosePathInv(sys: System)
    requires Inv(sys)
    ensures Inv(ClosePath(sys))
  {
    if !sys.broken && sys.receiver.ranges != [] {
      FrameSound(sys.receiver, sys.retained, sys.received);
      hide SenderInv, ReceiverInv, Sound;
    }
  }

  lemma FrameSound(h: R.Receiver, retained: set<nat>, received: set<nat>)
    requires ReceiverInv(h, retained) && h.ranges != [] && retained <= received
    ensures Sound(FrameOf(h.largestObserved, h.ranges), received)
  {
    InEnds(h.ranges);
    forall p | Acks(FrameOf(h.largestObserved, h.ranges), p)
      ensures p in received
    {
      FrameCovers(h.ranges, p);
    }
  }

  // ---- Acknowledging ----

  /** A sound frame neither names an unsent packet nor a skipped one. */
  lemma HonestFrame(sys: System, issued: AckFrame, f: AckFrame, s: S.Sender)
    requires Inv(sys) && issued in sys.acks && Reports(issued, f) && s.skipped == sys.sender.skipped
    ensures f.largestAcked <= sys.sender.lastSent && !S.SkippedAcked(s, f)
    ensures forall p :: Acks(f, p) ==> p in sys.received
  {
    assert Sound(issued, sys.received);
    forall i | 0 <= i < |s.skipped|
      ensures !Acks(f, s.skipped[i])
    {
      assert s.skipped[i] in sys.sender.skipped;
    }
  }

  /** The acknowledged packets are those that the frame names. */
  lemma AckedReceived(ps: seq<Packet>, f: AckFrame, received: set<nat>)
    requires forall p :: Acks(f, p) ==> p in received
    ensures Numbers(Select(ps, S.AckedBy(f))) <= received
  {
    forall n | n in Numbers(Select(ps, S.AckedBy(f)))
      ensures n in received
    {
      var p :| p in Select(ps, S.AckedBy(f)) && p.number == n;
      SelectIn(ps, S.AckedBy(f), p);
    }
  }

  lemma RecordInv(sys: System, o: S.Outcome)
    requires Inv(sys) && SenderInv(o.sender, sys.sent) && o.sender.lastSent == sys.sender.lastSent
    requires Numbers(o.acked) <= sys.received && o.status != S.AckForUnsent && o.status != S.AckForSkipped
    ensures Inv(Record(sys, o))
  {
    hide SenderInv, ReceiverInv, Sound, Numbers;
  }

  lemma AckArrivesInv(sys: System, issued: AckFrame, f: AckFrame, n: nat, now: int, delay: int)
    requires Inv(sys) && issued in sys.acks && Reports(issued, f)
    ensures Inv(Record(sys, S.ReceivedAck(sys.sender, f, n, now, delay)))
  {
    var s := sys.sender;
    var s1 := s.(largestWithAck := n, largestAcked := f.largestAcked);
    HonestFrame(sys, issued, f, s1);
    AckedReceived(s.history, f, sys.received);
    S.ReceivedAckValid(s, f, n, now, delay);
    AckKeeps(s, sys.sent, f, n, now, delay);
    hide Inv, SenderInv, Select, S.Valid, Bytes, S.Raise, S.CollectSkipped, S.SkippedAcked, Acks;
    RecordInv(sys, S.ReceivedAck(s, f, n, now, delay));
  }

  /** The sender's part of the invariant depends on few fields. */
  lemma SameBooks(s: S.Sender, s': S.Sender, sent: set<nat>)
    requires SenderInv(s, sent) && S.Valid(s') && s'.lastSent == s.lastSent
    requires forall n :: n in s'.skipped ==> n in s.skipped
    ensures SenderInv(s', sent)
  {
  }

  lemma ApplyAckSkipped(s: S.Sender, f: AckFrame, now: int, delay: int)
    ensures var s' := S.ApplyAck(s, f, now, delay).sender;
            s'.lastSent == s.lastSent && forall n :: n in s'.skipped ==> n in s.skipped
  {
    hide Select, Bytes, S.Raise, S.CollectSkipped, S.SkippedAcked;
    var s1 := S.AckWhere(s, S.AckedBy(f));
    var s2 := S.DetectLost(s1, now, delay);
    S.CollectShorter(s2.skipped, S.LargestInOrderAcked(s2));
  }

  lemma ApplyClosePathSkipped(s: S.Sender, f: AckFrame)
    ensures var s' := S.ApplyClosePath(s, f).sender;
            s'.lastSent == s.lastSent && forall n :: n in s'.skipped ==> n in s.skipped
  {
    hide Select, Bytes, S.Raise, S.CollectSkipped, S.SkippedAcked;
    var s1 := S.AckWhere(s, S.AckedBy(f));
    var s2 := S.QueueWhere(s1, S.UpTo(s1.largestAcked));
    S.CollectShorter(s2.skipped, S.LargestInOrderAcked(s2));
  }

  lemma AckKeeps(s: S.Sender, sent: set<nat>, f: AckFrame, n: nat, now: int, delay: int)
    requires SenderInv(s, sent)
    ensures var s' := S.ReceivedAck(s, f, n, now, delay).sender;
            SenderInv(s', sent) && s'.lastSent == s.lastSent
  {
    S.ReceivedAckValid(s, f, n, now, delay);
    ApplyAckSkipped(s.(largestWithAck := n, largestAcked := f.largestAcked), f, now, delay);
    hide S.Valid, S.ApplyAck;
    SameBooks(s, S.ReceivedAck(s, f, n, now, delay).sender, sent);
  }

  lemma ClosePathKeeps(s: S.Sender, sent: set<nat>, f: AckFrame, n: nat)
    requires SenderInv(s, sent)
    ensures var s' := S.ReceivedClosePath(s, f, n).sender;
            SenderInv(s', sent) && s'.lastSent == s.lastSent
  {
    S.ReceivedClosePathValid(s, f, n);
    ApplyClosePathSkipped(s.(largestWithAck := n), f);
    hide S.Valid, S.ApplyClosePath;
    SameBooks(s, S.ReceivedClosePath(s, f, n).sender, sent);
  }

  lemma ClosePathArrivesInv(sys: System, issued: AckFrame, f: AckFrame, n: nat)
    requires Inv(sys) && issued in sys.acks && Reports(issued, f)
    ensures Inv(Record(sys, S.ReceivedClosePath(sys.sender, f, n)))
  {
    var s := sys.sender;
    HonestFrame(sys, issued, f, s.(largestWithAck := n));
    AckedReceived(s.history, f, sys.received);
    ClosePathKeeps(s, sys.sent, f, n);
    hide Inv, SenderInv, Select, S.Valid, Bytes, S.Raise, S.CollectSkipped, S.SkippedAcked, Acks;
    RecordInv(sys, S.ReceivedClosePath(s, f, n));
  }

  // ---- Timers ----

  lemma AlarmInv(sys: System, now: int, delay: int, failed: bool)
    requires Inv(sys)
    ensures Inv(Record(sys, S.OnAlarm(sys.sender, now, delay, failed)))
  {
    var s := sys.sender;
    S.AlarmValid(s, now, delay, failed);
    hide S.Valid, Select, Bytes, S.Raise;
    SameBooks(s, S.OnAlarm(s, now, delay, failed).sender, sys.sent);
    hide Inv, SenderInv;
    RecordInv(sys, S.OnAlarm(s, now, delay, failed));
  }

  lemma GiveUpInv(sys: System)
    requires Inv(sys)
    ensures Inv(Record(sys, S.SetInflightAsLost(sys.sender)))
  {
    var s := sys.sender;
    S.QueueValid(s, S.UpTo(s.largestAcked));
    hide S.Valid, Select, Bytes, S.Raise;
    SameBooks(s, S.SetInflightAsLost(s).sender, sys.sent);
    hide Inv, SenderInv;
    RecordInv(sys, S.SetInflightAsLost(s));
  }

  lemma RetransmitInv(sys: System)
    requires Inv(sys)
    ensures Inv(sys.(sender := S.Dequeue(sys.sender).0))
  {
    SameBooks(sys.sender, S.Dequeue(sys.sender).0, sys.sent);
    hide SenderInv, ReceiverInv, Sound;
  }

  // ---- Whole runs ----

  lemma StepInv(sys: System, e: Event)
    requires Inv(sys)
    ensures Inv(Step(sys, e))
  {
    hide Inv;
    match e
    case Sends(packet, now, stopWaiting) => SendsInv(sys, packet, now, stopWaiting);
    case AnnouncesStopWaiting(force) => AnnounceInv(sys, force);
    case PacketArrives(number, instigateAck) => ArriveInv(sys, number, instigateAck);
    case MakesAck(expired) => MakeAckInv(sys, expired);
    case ClosesPath => ClosePathInv(sys);
    case AckArrives(issued, f, n, now, delay) =>
      if issued in sys.acks && Reports(issued, f) {
        AckArrivesInv(sys, issued, f, n, now, delay);
      }
    case ClosePathArrives(issued, f, n) =>
      if issued in sys.acks && Reports(issued, f) {
        ClosePathArrivesInv(sys, issued, f, n);
      }
    case AlarmRings(now, delay, failed) => AlarmInv(sys, now, delay, failed);
    case GivesUpPath => GiveUpInv(sys);
    case Retransmits => RetransmitInv(sys);
  }

  ghost function Run(sys: System, events: seq<Event>): System
    decreases |events|
  {
    if events == [] then sys else Run(Step(sys, events[0]), events[1..])
  }

  lemma {:induction false} RunInv(sys: System, events: seq<Event>)
    requires Inv(sys)
    ensures Inv(Run(sys, events))
    decreases |events|
  {
    hide Inv, Step;
    if events != [] {
      StepInv(sys, events[0]);
      RunInv(Step(sys, events[0]), events[1..]);
    }
  }

  lemma StartInv(legacy: bool)
    ensures Inv(Start(legacy))
  {
    S.NewSenderValid();
    R.NewReceiverValid(legacy);
  }

  /** In every run between honest ends, whatever the network does: the sender never sees an ACK for a packet that it
      did not send or that it skipped, never retires a packet as acknowledged that did not arrive, and can always
      write its STOP_WAITING frames; the receiver never builds an ACK frame from an empty list, and every frame it made
      names received packets only. */
  lemma AcksAreSound(legacy: bool, events: seq<Event>)
    ensures var sys := Run(Start(legacy), events);
            && S.AckForUnsent !in sys.statuses && S.AckForSkipped !in sys.statuses
            && sys.acked <= sys.received <= sys.sent
            && !sys.refused && !sys.indexed
            && (forall f :: f in sys.acks ==> forall p :: Acks(f, p) ==> p in sys.received)
  {
    StartInv(legacy);
    RunInv(Start(legacy), events);
    hide SenderInv, ReceiverInv, StopWaitingInv, Run;
    var sys := Run(Start(legacy), events);
    forall f | f in sys.acks
      ensures forall p :: Acks(f, p) ==> p in sys.received
    {
      assert Sound(f, sys.received);
    }
  }

  /** Every ACK frame that the receiver makes in such a run names exactly the received packets that no STOP_WAITING
      frame gave up. */
  lemma AcksAreExact(legacy: bool, events: seq<Event>, expired: bool, p: nat)
    ensures var sys := Run(Start(legacy), events);
            && (R.AckDue(sys.receiver, expired) ==> sys.receiver.ranges != [])
            && (var f := R.GetAckFrame(sys.receiver, expired).1;
                f.Some? ==> (Acks(f.value, p) <==> p in sys.retained))
  {
    StartInv(legacy);
    RunInv(Start(legacy), events);
    var h := Run(Start(legacy), events).receiver;
    hide Run;
    assert ReceiverInv(h, Run(Start(legacy), events).retained);
    R.AckCorrect(h, expired, p);
  }
}

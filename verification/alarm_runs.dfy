/** Alarms of the sent packet handler (pstream/ackhandler/sent_packet_handler.go, lines 522 to 554) over whole runs. */
module AlarmRuns {

  import opened Wire
  import opened PacketLists
  import opened SentPacketsSpec
  import opened InFlight
  import opened PacketRemoval

  /** An alarm rings while packets are outstanding and the loss timer is not set: a probe or a timeout. */
  predicate Rings(l: Ledger, e: Event) {
    e.AlarmRings? && HasOutstanding(l.sender) && !l.sender.lossTime
  }

  /** How many of the events are such alarms. */
  function Alarms(l: Ledger, events: seq<Event>): nat
    decreases |events|
  {
    if events == [] then 0
    else (if Rings(l, events[0]) then 1 else 0) + Alarms(Step(l, events[0]), events[1..])
  }

  /** No frame of the peer arrives that could acknowledge a packet. */
  predicate Unanswered(events: seq<Event>) {
    forall e :: e in events ==> !e.AckArrives? && !e.ClosePathArrives?
  }

  lemma UnansweredTail(events: seq<Event>)
    requires Unanswered(events) && events != []
    ensures !events[0].AckArrives? && !events[0].ClosePathArrives? && Unanswered(events[1..])
  {
  }

  lemma StepCounts(l: Ledger, e: Event)
    requires !e.AckArrives? && !e.ClosePathArrives?
    ensures var s, s' := l.sender, Step(l, e).sender;
            && s'.tlpCount == (if Rings(l, e) && s.tlpCount < 2 then s.tlpCount + 1 else s.tlpCount)
            && s'.rtoCount == (if Rings(l, e) && s.tlpCount >= 2 then s.rtoCount + 1 else s.rtoCount)
  {
    hide Select, Bytes, Numbers, Raise, HasOutstanding, LastSkipped, Between;
    if e.AlarmRings? {
      AlarmCounts(l.sender, e.now, e.delay, e.failed);
    }
  }

  /** Until an answer arrives, the first two such alarms are probes and all others are timeouts. */
  lemma {:induction false} CountsExactly(l: Ledger, events: seq<Event>)
    requires Unanswered(events) && l.sender.tlpCount <= 2
    ensures var s, k := Run(l, events).sender, l.sender.tlpCount + Alarms(l, events);
            s.tlpCount == Min(k, 2) && s.rtoCount == l.sender.rtoCount + if k > 2 then k - 2 else 0
    decreases |events|
  {
    if events != [] {
      hide Step, Rings, Unanswered;
      UnansweredTail(events);
      StepCounts(l, events[0]);
      CountsExactly(Step(l, events[0]), events[1..]);
    }
  }

  /** The third alarm without an answer in between, and every later one, is a timeout: it queues the oldest two packets,
      or all if the path seems to have failed. Each of the two before queues the newest one. */
  lemma ThirdAlarmIsTimeout(l: Ledger, events: seq<Event>, now: int, delay: int, failed: bool)
    requires Balanced(l) && l.sender.tlpCount == 0 && Unanswered(events)
    requires Rings(Run(l, events), AlarmRings(now, delay, failed))
    ensures var s, h := Run(l, events).sender, Run(l, events).sender.history;
            var lost := OnAlarm(s, now, delay, failed).lost;
            if Alarms(l, events) < 2 then h != [] && lost == [h[|h| - 1]]
            else lost == if failed || |h| <= 2 then h else h[..2]
  {
    hide Run, Balanced, Alarms, Unanswered, OnAlarm, Valid, HasOutstanding;
    RunBalanced(l, events);
    BalancedValid(Run(l, events));
    CountsExactly(l, events);
    OutstandingSome(Run(l, events).sender);
    AlarmExactly(Run(l, events).sender, now, delay, failed);
  }

  lemma OutstandingSome(s: Sender)
    requires HasOutstanding(s)
    ensures s.history != []
  {
  }

  /** Without a loss timer an alarm queues something if and only if a retransmittable packet is in flight; without such
      a packet it changes nothing. */
  lemma AlarmRetransmits(s: Sender, now: int, delay: int, failed: bool)
    requires Valid(s)
    ensures var o := OnAlarm(s, now, delay, failed);
            && (!s.lossTime ==> (o.lost != [] <==> exists p :: p in s.history && p.retransmittable))
            && ((forall p :: p in s.history ==> !p.retransmittable) ==> o.sender == s && o.lost == [])
  {
    hide Valid;
    if HasOutstanding(s) && !s.lossTime {
      OutstandingSome(s);
      AlarmExactly(s, now, delay, failed);
    }
    hide Select, Bytes, QueueWhere, DetectLost;
  }
}

/** When a receiver makes ACK frames (pstream/ackhandler/received_packet_handler.go), in terms of what it has received
    since the last one. */
module AckTiming {

  import opened Wire
  import opened PacketRanges
  import opened ReceivedHistorySpec
  import opened AckFrames
  import opened ReceivedPacketsSpec

  datatype Event =
    | Arrives(p: nat, wants: bool)   // wants: the packet asks for an ACK
    | Limits(limit: nat)             // a STOP_WAITING frame
    | Asks(expired: bool)            // the packer asks for a frame; expired: the time of the alarm has come

  /** The receiver, and what happened to it, in terms of the events alone: the numbers received above the limit; the
      largest number of all; the largest number in the last frame; how many packets above the limit arrived since then
      and how many of these want an ACK; whether one of them called for a frame at once. */
  datatype Log = Log(
    h: Receiver, tracked: set<nat>, largest: nat, limit: nat,
    reported: Option<nat>, arrived: nat, wanted: nat, urgent: bool, frames: seq<AckFrame>, closed: bool)

  function Start(legacy: bool): Log {
    Log(NewReceiver(legacy), {}, 0, 0, None, 0, 0, false, [], false)
  }

  /** A number from the last reported one on was not received, although a larger one was. */
  ghost predicate Hole(tracked: set<nat>, largest: nat, reported: nat) {
    exists q :: reported <= q < largest && q !in tracked
  }

  /** The reasons to make a frame at once: none was made yet; the packet was reported missing; there is a hole above
      what was reported; it is the second packet that wants an ACK, or for legacy versions the twentieth one. */
  ghost predicate Reason(log: Log, p: nat, wants: bool) {
    || log.reported.None?
    || p < log.reported.value
    || Hole(log.tracked + {p}, Max(p, log.largest), log.reported.value)
    || (wants && log.wanted + 1 >= 2)
    || (log.h.legacy && log.arrived + 1 >= 20)
  }

  ghost function Arrive(log: Log, p: nat, wants: bool): Log {
    var (h, r) := Receive(log.h, p, wants);
    if r != Ok then log.(closed := true)
    else if p <= log.limit then log.(h := h)
    else
      log.(h := h, tracked := log.tracked + {p}, largest := Max(p, log.largest), arrived := log.arrived + 1,
           wanted := log.wanted + if wants then 1 else 0, urgent := log.urgent || Reason(log, p, wants))
  }

  /** A limit is always below the largest number, as the numbers that a peer gives up are below one that it sends. */
  ghost function Limit(log: Log, limit: nat): Log {
    if limit >= log.largest then log
    else log.(h := SetLowerLimit(log.h, limit), tracked := (set q | q in log.tracked && q > limit), limit := limit)
  }

  ghost function Ask(log: Log, expired: bool): Log
    requires Valid(log.h)
  {
    AckResets(log.h, expired, false);
    var (h, f) := GetAckFrame(log.h, expired);
    if f.None? then log.(h := h)
    else log.(h := h, reported := Some(log.largest), arrived := 0, wanted := 0, urgent := false,
              frames := log.frames + [f.value])
  }

  ghost function Step(log: Log, e: Event): Log
    requires Valid(log.h)
  {
    if log.closed then log
    else
      match e
      case Arrives(p, wants) => Arrive(log, p, wants)
      case Limits(limit) => Limit(log, limit)
      case Asks(expired) => Ask(log, expired)
  }

  // ---- What every step keeps ----

  /** The receiver holds what the events say. */
  ghost predicate Holds(log: Log) {
    && Valid(log.h)
    && log.h.largestObserved == log.largest && log.h.lowerLimit == log.limit && log.h.lastAck == log.reported
    && (forall q :: In(log.h.ranges, q) <==> q in log.tracked)
    && log.h.sinceLastAck == log.arrived && log.h.retransmittableSinceLastAck == log.wanted
    && log.h.ackQueued == log.urgent && log.h.alarm == (!log.urgent && log.wanted > 0)
    && log.wanted <= log.arrived && (log.urgent ==> log.arrived > 0)
  }

  lemma StartHolds(legacy: bool)
    ensures Holds(Start(legacy))
  {
    NewReceiverValid(legacy);
  }

  /** The highest range starts above r if and only if a number from r on is missing below the largest one. */
  lemma HoleExactly(rs: seq<Range>, r: nat)
    requires WellFormed(rs) && rs != []
    ensures HighestStart(rs) > r <==> exists q :: r <= q < rs[|rs| - 1].end && !In(rs, q)
  {
    var n := |rs| - 1;
    if rs[n].start > r {
      NotInFront(rs);
      assert !In(rs, rs[n].start - 1);
    }
    if q :| r <= q < rs[n].end && !In(rs, q) {
      assert rs[n].start > q;
    }
  }

  /** The number in front of the highest range is not in the list. */
  lemma NotInFront(rs: seq<Range>)
    requires WellFormed(rs) && rs != [] && rs[|rs| - 1].start > 0
    ensures !In(rs, rs[|rs| - 1].start - 1)
  {
  }

  lemma HoleMeans(rs: seq<Range>, tracked: set<nat>, r: nat)
    requires WellFormed(rs) && rs != [] && forall q :: In(rs, q) <==> q in tracked
    ensures HighestStart(rs) > r <==> Hole(tracked, rs[|rs| - 1].end, r)
  {
    HoleExactly(rs, r);
    hide In, HighestStart, WellFormed;
    if q :| r <= q < rs[|rs| - 1].end && !In(rs, q) {
      assert q !in tracked;
    }
    if q :| r <= q < rs[|rs| - 1].end && q !in tracked {
      assert !In(rs, q);
    }
  }

  /** MaybeQueueAck queues a frame for exactly these reasons. */
  lemma QueuedExactly(log: Log, p: nat, wants: bool, rs: seq<Range>)
    requires Holds(log) && WellFormed(rs) && rs != [] && rs[|rs| - 1].end == Max(p, log.largest)
    requires forall q :: In(rs, q) <==> q in log.tracked + {p}
    ensures var h := MaybeQueueAck(log.h.(largestObserved := Max(p, log.largest), ranges := rs), p, wants);
            && h.ackQueued == (log.urgent || Reason(log, p, wants))
            && h.alarm == (!h.ackQueued && log.wanted + (if wants then 1 else 0) > 0)
            && h.sinceLastAck == log.arrived + 1
            && h.retransmittableSinceLastAck == log.wanted + if wants then 1 else 0
  {
    if log.reported.Some? {
      HoleMeans(rs, log.tracked + {p}, log.reported.value);
    }
    hide In, Valid, WellFormed, Hole, HighestStart;
  }

  /** What Receive does with a packet above the limit. */
  lemma ReceivedAbove(h: Receiver, p: nat, wants: bool)
    requires Valid(h) && p > h.lowerLimit && Receive(h, p, wants).1 == Ok
    ensures var rs, h' := Add(h.ranges, p), Receive(h, p, wants).0;
            && h' == MaybeQueueAck(h.(largestObserved := Max(p, h.largestObserved), ranges := rs), p, wants)
            && h'.ranges == rs && h'.largestObserved == Max(p, h.largestObserved) && h'.lowerLimit == h.lowerLimit
            && h'.lastAck == h.lastAck && h'.legacy == h.legacy
            && Valid(h') && WellFormed(rs) && rs != [] && rs[|rs| - 1].end == Max(p, h.largestObserved)
            && (forall q :: In(rs, q) <==> In(h.ranges, q) || q == p)
  {
    ReceiveCorrect(h, p, wants);
    hide Add, In;
  }

  lemma ArriveAbove(log: Log, p: nat, wants: bool)
    requires Holds(log) && p > log.limit && Receive(log.h, p, wants).1 == Ok
    ensures Holds(Arrive(log, p, wants))
  {
    var rs := Add(log.h.ranges, p);
    ReceivedAbove(log.h, p, wants);
    hide Receive, MaybeQueueAck, Add, In, Valid, WellFormed, Reason;
    assert forall q :: In(rs, q) <==> q in log.tracked + {p};
    QueuedExactly(log, p, wants, rs);
  }

  lemma ArriveHolds(log: Log, p: nat, wants: bool)
    requires Holds(log)
    ensures Holds(Arrive(log, p, wants))
  {
    if Receive(log.h, p, wants).1 == Ok {
      if p > log.limit {
        ArriveAbove(log, p, wants);
      } else {
        BelowLargest(log.h, p);
      }
    }
    hide In, Valid, MaybeQueueAck, Add, Reason;
  }

  lemma LimitHolds(log: Log, limit: nat)
    requires Holds(log)
    ensures Holds(Limit(log, limit))
  {
    if limit < log.largest {
      LimitExact(log.h, limit);
      forall q: nat
        ensures In(SetLowerLimit(log.h, limit).ranges, q) <==> q in log.tracked && q > limit
      {
        LimitDrops(log.h, limit, q);
      }
    }
    hide In, Valid, DeleteUpTo;
  }

  lemma AskHolds(log: Log, expired: bool)
    requires Holds(log)
    ensures Holds(Ask(log, expired))
  {
    AckResets(log.h, expired, true);
    AckCorrect(log.h, expired, 0);
    hide In, Valid, Acks, ValidFrame, FrameOf;
  }

  lemma StepHolds(log: Log, e: Event)
    requires Holds(log)
    ensures Holds(Step(log, e))
  {
    hide Holds, Arrive, Limit, Ask;
    HoldsValid(log);
    if !log.closed {
      match e
      case Arrives(p, wants) => ArriveHolds(log, p, wants);
      case Limits(limit) => LimitHolds(log, limit);
      case Asks(expired) => AskHolds(log, expired);
    }
  }

  lemma HoldsValid(log: Log)
    requires Holds(log)
    ensures Valid(log.h)
  {
  }

  ghost function Run(log: Log, events: seq<Event>): (r: Log)
    requires Holds(log)
    ensures Holds(r)
    decreases |events|
  {
    if events == [] then log
    else
      StepHolds(log, events[0]);
      Run(Step(log, events[0]), events[1..])
  }

  // ---- Main results ----

  /** In every run, a frame is due if and only if a packet since the last frame called for one at once, or one that
      wants an ACK arrived since then and the time of the alarm has come. */
  lemma DueExactly(legacy: bool, events: seq<Event>, expired: bool)
    ensures Holds(Start(legacy))
    ensures var log := Run(Start(legacy), events);
            AckDue(log.h, expired) <==> log.urgent || (expired && log.wanted > 0)
  {
    StartHolds(legacy);
    assert Holds(Run(Start(legacy), events));
    hide Run;
  }

  /** A frame that is made names exactly the packets received above the limit. */
  lemma FrameExactly(legacy: bool, events: seq<Event>, expired: bool, q: nat)
    ensures Holds(Start(legacy))
    ensures var log := Run(Start(legacy), events);
            var made := Ask(log, expired).frames;
            && |made| == |log.frames| + (if AckDue(log.h, expired) then 1 else 0)
            && (AckDue(log.h, expired) ==> (Acks(made[|made| - 1], q) <==> q in log.tracked))
  {
    StartHolds(legacy);
    var log := Run(Start(legacy), events);
    assert Holds(log);
    hide Run;
    AckResets(log.h, expired, true);
    AckCorrect(log.h, expired, q);
    hide In, Valid, Acks, ValidFrame, FrameOf;
  }

  /** No packet above the limit arrives in the events. */
  ghost predicate Quiet(log: Log, events: seq<Event>)
    requires Holds(log)
    decreases |events|
  {
    events == [] ||
    (StepHolds(log, events[0]);
     && (events[0].Arrives? ==> events[0].p <= log.limit)
     && Quiet(Step(log, events[0]), events[1..]))
  }

  /** No second frame is made until another packet above the limit arrives. */
  lemma {:induction false} NoSecondFrame(log: Log, events: seq<Event>)
    requires Holds(log) && log.arrived == 0 && Quiet(log, events)
    ensures Run(log, events).frames == log.frames && Run(log, events).arrived == 0
    decreases |events|
  {
    if events != [] {
      StepHolds(log, events[0]);
      QuietStep(log, events[0]);
      hide Holds, Step;
      NoSecondFrame(Step(log, events[0]), events[1..]);
    }
  }

  lemma QuietStep(log: Log, e: Event)
    requires Holds(log) && log.arrived == 0 && (e.Arrives? ==> e.p <= log.limit)
    ensures Step(log, e).frames == log.frames && Step(log, e).arrived == 0
  {
    hide In, Valid, Receive, SetLowerLimit, FrameOf;
    if e.Asks? {
      AckResets(log.h, e.expired, true);
    }
  }

  /** After a frame none has arrived yet. */
  lemma FrameStartsAgain(log: Log, expired: bool)
    requires Holds(log) && AckDue(log.h, expired) && !log.closed
    ensures var log' := Step(log, Asks(expired));
            && |log'.frames| == |log.frames| + 1 && log'.arrived == 0
            && log'.reported == Some(log.largest) == Some(log'.frames[|log.frames|].largestAcked)
  {
    AckResets(log.h, expired, true);
    hide In, Valid, FrameOf;
  }
}

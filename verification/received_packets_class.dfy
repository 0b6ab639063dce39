/** receivedPacketHistory and receivedPacketHandler (pstream/ackhandler) with the list and the fields that the source
    updates, proved against ReceivedHistorySpec and ReceivedPacketsSpec. */
module ReceivedPackets {

  import opened Wire
  import opened PacketRanges
  import opened AckFrames
  import History = ReceivedHistorySpec
  import Spec = ReceivedPacketsSpec

  class ReceivedPacketHistory {
    var ranges: seq<Range>

    constructor ()
      ensures ranges == []
    {
      ranges := [];
    }

    /** Lines 28 to 75. */
    method ReceivedPacket(p: nat) returns (tooMany: bool)
      modifies this
      ensures tooMany <==> |old(ranges)| >= History.MAX_TRACKED_RANGES
      ensures ranges == if tooMany then old(ranges) else History.Add(old(ranges), p)
    {
      if |ranges| >= History.MAX_TRACKED_RANGES {
        return true;
      }
      Insert(p);
      return false;
    }

    /** Lines 33 to 74: walks from the back of the list to the front. */
    method Insert(p: nat)
      modifies this
      ensures ranges == History.Add(old(ranges), p)
    {
      hide History.Add;
      var i := |ranges|;
      assert ranges[..i] == ranges;
      while i > 0
        invariant 0 <= i <= |ranges| && ranges == old(ranges)
        invariant History.Add(ranges, p) == History.Add(ranges[..i], p) + ranges[i..]
      {
        i := i - 1;
        History.AddStep(ranges[..i + 1], p);
        assert ranges[..i + 1][..i] == ranges[..i] && ranges[..i + 1][i] == ranges[i];
        var el := ranges[i];
        if el.start <= p <= el.end {
          assert ranges == ranges[..i + 1] + ranges[i + 1..];
          return;
        }
        if el.end == p - 1 {
          ExtendAt(i, Range(el.start, p));
          return;
        }
        if el.start == p + 1 {
          ExtendAt(i, Range(p, el.end));
          return;
        }
        if p > el.end {
          assert ranges[..i + 1] + [Range(p, p)] + ranges[i + 1..] == History.Add(ranges, p);
          ranges := ranges[..i + 1] + [Range(p, p)] + ranges[i + 1..];
          return;
        }
        assert [el] + ranges[i + 1..] == ranges[i..];
      }
      AddFirst(ranges, p);
      ranges := [Range(p, p)] + ranges;
    }

    static lemma AddFirst(rs: seq<Range>, p: nat)
      requires History.Add(rs, p) == History.Add(rs[..0], p) + rs[0..]
      ensures History.Add(rs, p) == [Range(p, p)] + rs
    {
      assert rs[..0] == [] && rs[0..] == rs;
    }

    /** Lines 44 to 61: changes one range and merges it with the one before it. */
    method ExtendAt(i: nat, r: Range)
      requires i < |ranges|
      modifies this
      ensures ranges == History.Merge(old(ranges)[..i], r) + old(ranges)[i + 1..]
    {
      if i > 0 && ranges[i - 1].end + 1 == r.start {
        assert ranges[..i][..i - 1] == ranges[..i - 1];
        ranges := ranges[..i - 1] + [Range(ranges[i - 1].start, r.end)] + ranges[i + 1..];
      } else {
        ranges := ranges[..i] + [r] + ranges[i + 1..];
      }
    }

    /** Lines 78 to 93: walks from the front of the list. */
    method DeleteUpTo(p: nat)
      modifies this
      ensures ranges == History.DeleteUpTo(old(ranges), p)
    {
      var i := 0;
      while i < |ranges|
        invariant 0 <= i <= |ranges|
        invariant History.DeleteUpTo(old(ranges), p) == ranges[..i] + History.DeleteUpTo(ranges[i..], p)
        decreases |ranges| - i
      {
        hide History.DeleteUpTo;
        var el := ranges[i];
        DeleteStep(ranges, i, p);
        if p >= el.start && p < el.end {
          ranges := ranges[i := Range(p + 1, el.end)];
          i := i + 1;
        } else if el.end <= p {
          ranges := ranges[..i] + ranges[i + 1..];
        } else {
          return;
        }
      }
    }

    /** What is left to do after one step of the loop, in the three cases. */
    static lemma DeleteStep(rs: seq<Range>, i: nat, p: nat)
      requires i < |rs|
      ensures var el, done := rs[i], rs[..i] + History.DeleteUpTo(rs[i..], p);
              if p >= el.start && p < el.end then
                var cut := rs[i := Range(p + 1, el.end)];
                done == cut[..i + 1] + History.DeleteUpTo(cut[i + 1..], p)
              else if el.end <= p then
                var cut := rs[..i] + rs[i + 1..];
                done == cut[..i] + History.DeleteUpTo(cut[i..], p)
              else done == rs
    {
      var el := rs[i];
      assert rs[i..][0] == el && rs[i..][1..] == rs[i + 1..];
      if p >= el.start && p < el.end {
        var cut := rs[i := Range(p + 1, el.end)];
        assert cut[i + 1..] == rs[i + 1..] && cut[..i + 1] == rs[..i] + [Range(p + 1, el.end)];
      } else if el.end <= p {
        var cut := rs[..i] + rs[i + 1..];
        assert cut[..i] == rs[..i] && cut[i..] == rs[i + 1..];
      }
    }

    /** Lines 96 to 108. */
    method GetAckRanges() returns (ackRanges: seq<Range>)
      ensures ackRanges == Reversed(ranges)
    {
      ackRanges := [];
      var i := |ranges|;
      assert ranges[..i] == ranges;
      while i > 0
        invariant 0 <= i <= |ranges|
        invariant ackRanges + Reversed(ranges[..i]) == Reversed(ranges)
      {
        i := i - 1;
        assert ranges[..i + 1][..i] == ranges[..i];
        ackRanges := ackRanges + [ranges[i]];
      }
    }
  }

  class ReceivedPacketHandler {
    const packetHistory: ReceivedPacketHistory
    const legacy: bool
    var largestObserved: nat
    var lowerLimit: nat
    var packetsReceivedSinceLastAck: nat
    var retransmittablePacketsReceivedSinceLastAck: nat
    var ackQueued: bool
    var ackAlarm: bool
    var lastAck: Option<AckFrame>

    function View(): Spec.Receiver
      reads this, packetHistory
    {
      Spec.Receiver(largestObserved, lowerLimit, packetHistory.ranges, packetsReceivedSinceLastAck,
                    retransmittablePacketsReceivedSinceLastAck, ackQueued, ackAlarm,
                    if lastAck.Some? then Some(lastAck.value.largestAcked) else None, legacy)
    }

    constructor (legacy: bool)
      ensures fresh(packetHistory) && View() == Spec.NewReceiver(legacy)
    {
      packetHistory := new ReceivedPacketHistory();
      this.legacy := legacy;
      largestObserved, lowerLimit := 0, 0;
      packetsReceivedSinceLastAck, retransmittablePacketsReceivedSinceLastAck := 0, 0;
      ackQueued, ackAlarm, lastAck := false, false, None;
    }

    /** Lines 46 to 68. */
    method ReceivedPacket(packetNumber: nat, shouldInstigateAck: bool) returns (r: Spec.ReceiveStatus)
      modifies this, packetHistory
      ensures (View(), r) == Spec.Receive(old(View()), packetNumber, shouldInstigateAck)
    {
      if packetNumber == 0 {
        return Spec.InvalidPacketNumber;
      }
      if packetNumber > largestObserved {
        largestObserved := packetNumber;
      }
      if packetNumber <= lowerLimit {
        return Spec.Ok;
      }
      var tooMany := packetHistory.ReceivedPacket(packetNumber);
      if tooMany {
        return Spec.TooManyRanges;
      }
      MaybeQueueAck(packetNumber, shouldInstigateAck);
      return Spec.Ok;
    }

    method SetLowerLimit(p: nat)
      modifies this, packetHistory
      ensures View() == Spec.SetLowerLimit(old(View()), p)
    {
      lowerLimit := p;
      packetHistory.DeleteUpTo(p);
    }

    /** Lines 77 to 123. */
    method MaybeQueueAck(packetNumber: nat, shouldInstigateAck: bool)
      modifies this
      ensures View() == Spec.MaybeQueueAck(old(View()), packetNumber, shouldInstigateAck)
    {
      packetsReceivedSinceLastAck := packetsReceivedSinceLastAck + 1;
      if shouldInstigateAck {
        retransmittablePacketsReceivedSinceLastAck := retransmittablePacketsReceivedSinceLastAck + 1;
      }
      QueueAtOnce(packetNumber);
      if !ackQueued && shouldInstigateAck {
        if retransmittablePacketsReceivedSinceLastAck >= Spec.RETRANSMITTABLE_BEFORE_ACK {
          ackQueued := true;
        } else {
          ackAlarm := true;
        }
      }
      if ackQueued {
        ackAlarm := false;
      }
    }

    /** Lines 84 to 107: the reasons to send an ACK at once. */
    method QueueAtOnce(packetNumber: nat)
      modifies this`ackQueued
      ensures ackQueued <==>
              || old(ackQueued)
              || lastAck == None
              || (legacy && packetsReceivedSinceLastAck >= Spec.MAX_PACKETS_BEFORE_ACK)
              || packetNumber < lastAck.value.largestAcked
              || Spec.HighestStart(packetHistory.ranges) > lastAck.value.largestAcked
    {
      if lastAck == None {
        ackQueued := true;
      }
      if legacy && packetsReceivedSinceLastAck >= Spec.MAX_PACKETS_BEFORE_ACK {
        ackQueued := true;
      }
      if lastAck.Some? && packetNumber < lastAck.value.largestAcked {
        ackQueued := true;
      }
      if lastAck.Some? && Spec.HighestStart(packetHistory.ranges) > lastAck.value.largestAcked {
        ackQueued := true;
      }
    }

    /** Lines 125 to 148. */
    method GetAckFrame(expired: bool) returns (ack: Option<AckFrame>)
      requires Spec.AckDue(View(), expired) ==> packetHistory.ranges != []
      modifies this
      ensures (View(), ack) == Spec.GetAckFrame(old(View()), expired)
    {
      if !ackQueued && !(ackAlarm && expired) {
        return None;
      }
      var ackRanges := packetHistory.GetAckRanges();
      ghost var n := |packetHistory.ranges| - 1;
      History.ReversedAt(packetHistory.ranges, n);
      var frame := AckFrame(largestObserved, ackRanges[|ackRanges| - 1].start,
                            if |ackRanges| > 1 then ackRanges else []);
      lastAck := Some(frame);
      ackAlarm := false;
      ackQueued := false;
      packetsReceivedSinceLastAck := 0;
      retransmittablePacketsReceivedSinceLastAck := 0;
      return Some(frame);
    }

    /** Lines 150 to 162: the frame that closes a path reports the same ranges. */
    method GetClosePathFrame() returns (frame: AckFrame)
      requires packetHistory.ranges != []
      ensures frame == FrameOf(largestObserved, packetHistory.ranges)
    {
      var ackRanges := packetHistory.GetAckRanges();
      History.ReversedAt(packetHistory.ranges, |packetHistory.ranges| - 1);
      return AckFrame(largestObserved, ackRanges[|ackRanges| - 1].start, if |ackRanges| > 1 then ackRanges else []);
    }
  }
}

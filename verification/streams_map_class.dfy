/** streamsMap (pstream/streams_map.go) with the list, the counters and the loops of the source, proved against
    StreamsMapSpec. */
module StreamsMap {

  import Spec = StreamsMapSpec

  class OpenStreams {
    const server: bool
    const limits: Spec.Limits
    var streams: set<nat>
    var openStreams: seq<nat>
    var nextStream: nat
    var highestStreamOpenedByPeer: nat
    var numOutgoingStreams: int
    var numIncomingStreams: int
    var roundRobinIndex: int
    ghost var created: seq<nat>

    ghost function View(): Spec.Streams
      reads this
    {
      Spec.Streams(server, streams, openStreams, nextStream, highestStreamOpenedByPeer,
                   numOutgoingStreams, numIncomingStreams, roundRobinIndex, created)
    }

    constructor (server: bool, limits: Spec.Limits)
      ensures this.limits == limits && View() == Spec.NewStreams(server) && Spec.Valid(View())
    {
      this.server := server;
      this.limits := limits;
      streams, openStreams := {}, [];
      nextStream := if server then 2 else 1;
      highestStreamOpenedByPeer, numOutgoingStreams, numIncomingStreams, roundRobinIndex := 0, 0, 0, 0;
      created := [];
      new;
      Spec.NewValid(server);
    }

    /** Lines 982 to 1004. */
    method PutStream(id: nat)
      modifies this`streams, this`openStreams, this`created
      ensures View() == Spec.Put(old(View()), id)
    {
      if id in streams {
        return;
      }
      streams := streams + {id};
      openStreams := openStreams + [id];
      created := created + [id];
    }

    /** Lines 384 to 408. */
    method OpenRemoteStream(id: nat) returns (r: Spec.GetResult)
      modifies this
      ensures (View(), r) == Spec.OpenRemote(old(View()), limits, id)
    {
      if numIncomingStreams >= limits.maxIncoming {
        return Spec.TooManyOpenStreams;
      }
      if id + Spec.MAX_NEW_STREAM_ID_DELTA < highestStreamOpenedByPeer {
        return Spec.InvalidStreamID;
      }
      if server {
        numIncomingStreams := numIncomingStreams + 1;
      } else {
        numOutgoingStreams := numOutgoingStreams + 1;
      }
      if id > highestStreamOpenedByPeer {
        highestStreamOpenedByPeer := id;
      }
      PutStream(id);
      return Spec.Found;
    }

    /** Lines 195 to 259. */
    method GetOrOpenStream(id: nat) returns (r: Spec.GetResult)
      modifies this
      ensures (View(), r) == Spec.GetOrOpen(old(View()), limits, id)
    {
      if id in streams {
        return Spec.Found;
      }
      if server {
        if id % 2 == 0 {
          if id <= nextStream {
            return Spec.AlreadyClosed;
          }
          return Spec.InvalidStreamID;
        }
        if id <= highestStreamOpenedByPeer {
          return Spec.AlreadyClosed;
        }
      } else {
        if id % 2 == 1 {
          if id <= nextStream {
            return Spec.AlreadyClosed;
          }
          return Spec.InvalidStreamID;
        }
        if id <= highestStreamOpenedByPeer {
          return Spec.AlreadyClosed;
        }
      }
      r := OpenUpTo(id);
    }

    /** Lines 235 to 250. */
    method OpenUpTo(id: nat) returns (r: Spec.GetResult)
      modifies this
      ensures (View(), r) == Spec.OpenUpTo(old(View()), limits, Spec.NextRemote(old(View())), id)
    {
      var sid := highestStreamOpenedByPeer + 2;
      if sid == 2 && server {
        sid := 1;
      }
      hide Spec.OpenRemote;
      while sid <= id
        invariant Spec.OpenUpTo(View(), limits, sid, id)
                  == Spec.OpenUpTo(old(View()), limits, Spec.NextRemote(old(View())), id)
        decreases id + 2 - sid
      {
        var opening := OpenRemoteStream(sid);
        if opening != Spec.Found {
          return opening;
        }
        sid := sid + 2;
      }
      return Spec.Found;
    }

    /** Lines 456 to 474. */
    method OpenStreamImpl() returns (r: Spec.GetResult)
      modifies this
      ensures (View(), r) == Spec.Open(old(View()), limits)
    {
      var id := nextStream;
      if numOutgoingStreams >= limits.maxOutgoing {
        return Spec.TooManyOpenStreams;
      }
      if server {
        numOutgoingStreams := numOutgoingStreams + 1;
      } else {
        numIncomingStreams := numIncomingStreams + 1;
      }
      nextStream := nextStream + 2;
      PutStream(id);
      return Spec.Found;
    }

    /** Lines 1008 to 1049. */
    method RemoveStream(id: nat) returns (removed: bool)
      modifies this
      ensures (View(), removed) == Spec.Remove(old(View()), id)
    {
      if id !in streams {
        return false;
      }
      if id % 2 == 0 {
        numOutgoingStreams := numOutgoingStreams - 1;
      } else {
        numIncomingStreams := numIncomingStreams - 1;
      }
      RemoveOpen(id);
      streams := streams - {id};
      return true;
    }

    /** Lines 1022 to 1035. */
    method RemoveOpen(id: nat)
      modifies this`openStreams, this`roundRobinIndex
      ensures var i := Spec.IndexOf(old(openStreams), id);
              if i == |old(openStreams)| then openStreams == old(openStreams) && roundRobinIndex == old(roundRobinIndex)
              else openStreams == old(openStreams)[..i] + old(openStreams)[i + 1..]
                   && roundRobinIndex == if i < old(roundRobinIndex) then old(roundRobinIndex) - 1
                                         else old(roundRobinIndex)
    {
      var i := 0;
      while i < |openStreams| && openStreams[i] != id
        invariant 0 <= i <= |openStreams| && openStreams == old(openStreams)
        invariant id !in openStreams[..i]
      {
        i := i + 1;
      }
      IndexIs(openStreams, id, i);
      if i < |openStreams| {
        openStreams := openStreams[..i] + openStreams[i + 1..];
        if i < roundRobinIndex {
          roundRobinIndex := roundRobinIndex - 1;
        }
      }
    }

    static lemma {:induction false} IndexIs(ids: seq<nat>, id: nat, i: nat)
      requires i <= |ids| && id !in ids[..i] && (i < |ids| ==> ids[i] == id)
      ensures Spec.IndexOf(ids, id) == i
      decreases |ids|
    {
      if i > 0 {
        assert ids[..i] == [ids[0]] + ids[1..][..i - 1];
        IndexIs(ids[1..], id, i - 1);
      }
    }

    /** Lines 724 to 757: calls a function for the streams, which says whether to go on; the result lists the calls. */
    method RoundRobinIterate(continues: nat -> bool) returns (visited: seq<nat>)
      requires Spec.Valid(View())
      modifies this`roundRobinIndex
      ensures visited == Spec.RoundRobin(old(View()), continues)
      ensures Spec.Valid(View())
      ensures View() == old(View()).(roundRobinIndex := Spec.IndexAfter(old(View()), continues))
    {
      visited := [];
      if 1 in streams {
        visited := visited + [1];
        if !continues(1) {
          return;
        }
      }
      if 3 in streams {
        visited := visited + [3];
        if !continues(3) {
          return;
        }
      }
      Spec.SizesAgree(openStreams, streams);
      var rest := IterateOpen(continues, |streams|);
      visited := visited + rest;
    }

    /** Lines 741 to 755. */
    method IterateOpen(continues: nat -> bool, numStreams: nat) returns (visited: seq<nat>)
      requires 0 <= roundRobinIndex <= |openStreams| == numStreams
      modifies this`roundRobinIndex
      ensures visited == Spec.VisitFrom(openStreams, old(roundRobinIndex), 0, continues)
      ensures 0 <= roundRobinIndex <= |openStreams|
      ensures roundRobinIndex == Spec.Advance(old(roundRobinIndex), |visited|, numStreams)
    {
      hide Spec.Advance, Spec.VisitFrom;
      visited := [];
      var startIndex: nat := roundRobinIndex;
      var i := 0;
      Spec.AdvanceNext(startIndex, 0, numStreams);
      while i < numStreams
        invariant 0 <= i <= numStreams && 0 <= roundRobinIndex <= |openStreams|
        invariant roundRobinIndex == Spec.Advance(startIndex, |visited|, numStreams)
        invariant visited + Spec.VisitFrom(openStreams, startIndex, i, continues)
                  == Spec.VisitFrom(openStreams, startIndex, 0, continues)
      {
        Spec.VisitNext(openStreams, startIndex, i, continues);
        var streamID := openStreams[(i + startIndex) % numStreams];
        if streamID == 1 || streamID == 3 {
          i := i + 1;
          continue;
        }
        Spec.AdvanceNext(startIndex, |visited|, numStreams);
        visited := visited + [streamID];
        roundRobinIndex := (roundRobinIndex + 1) % numStreams;
        if !continues(streamID) {
          return;
        }
        i := i + 1;
      }
      Spec.VisitEnd(openStreams, startIndex, continues);
    }
  }
}

/** The streams of a connection (pstream/streams_map.go) as functions. Streams are known by their numbers. */
module StreamsMapSpec {

  import opened Wire

  const MAX_NEW_STREAM_ID_DELTA: nat := 400

  /** The counters are named from the server's side: streams with odd numbers, which the client opens, are incoming.
      created lists all streams that were ever opened. */
  datatype Streams = Streams(
    server: bool, streams: set<nat>, openStreams: seq<nat>,
    nextStream: nat, highestOpenedByPeer: nat, numOutgoing: int, numIncoming: int, roundRobinIndex: int,
    created: seq<nat>)

  /** The largest numbers of streams, from the handshake. */
  datatype Limits = Limits(maxIncoming: nat, maxOutgoing: nat)

  function NewStreams(server: bool): Streams {
    Streams(server, {}, [], if server then 2 else 1, 0, 0, 0, 0, [])
  }

  /** Streams that this end opens: even on the server, odd on the client. */
  predicate Own(server: bool, id: nat) {
    if server then id % 2 == 0 else id % 2 == 1
  }

  datatype GetResult = Found | AlreadyClosed | InvalidStreamID | TooManyOpenStreams

  function Put(s: Streams, id: nat): Streams {
    if id in s.streams then s
    else s.(streams := s.streams + {id}, openStreams := s.openStreams + [id], created := s.created + [id])
  }

  function OpenRemote(s: Streams, limits: Limits, id: nat): (Streams, GetResult) {
    if s.numIncoming >= limits.maxIncoming then (s, TooManyOpenStreams)
    else if id + MAX_NEW_STREAM_ID_DELTA < s.highestOpenedByPeer then (s, InvalidStreamID)
    else
      var s1 := if s.server then s.(numIncoming := s.numIncoming + 1) else s.(numOutgoing := s.numOutgoing + 1);
      (Put(s1.(highestOpenedByPeer := if id > s.highestOpenedByPeer then id else s.highestOpenedByPeer), id), Found)
  }

  /** Opens every second stream from sid to id. */
  function OpenUpTo(s: Streams, limits: Limits, sid: nat, id: nat): (Streams, GetResult)
    decreases id + 2 - sid
  {
    if sid > id then (s, Found)
    else
      var (s1, r) := OpenRemote(s, limits, sid);
      if r != Found then (s1, r) else OpenUpTo(s1, limits, sid + 2, id)
  }

  /** The next stream that the peer will open. */
  function NextRemote(s: Streams): nat {
    var sid := s.highestOpenedByPeer + 2;
    if sid == 2 && s.server then 1 else sid
  }

  function GetOrOpen(s: Streams, limits: Limits, id: nat): (Streams, GetResult) {
    if id in s.streams then (s, Found)
    else if Own(s.server, id) then (s, if id <= s.nextStream then AlreadyClosed else InvalidStreamID)
    else if id <= s.highestOpenedByPeer then (s, AlreadyClosed)
    else OpenUpTo(s, limits, NextRemote(s), id)
  }

  function Open(s: Streams, limits: Limits): (Streams, GetResult) {
    if s.numOutgoing >= limits.maxOutgoing then (s, TooManyOpenStreams)
    else
      var s1 := if s.server then s.(numOutgoing := s.numOutgoing + 1) else s.(numIncoming := s.numIncoming + 1);
      (Put(s1.(nextStream := s.nextStream + 2), s.nextStream), Found)
  }

  /** The position of an element, or the length. */
  function IndexOf(ids: seq<nat>, id: nat): (i: nat)
    ensures i <= |ids| && (i < |ids| ==> ids[i] == id) && id !in ids[..i]
  {
    if ids == [] then 0 else if ids[0] == id then 0 else 1 + IndexOf(ids[1..], id)
  }

  function Remove(s: Streams, id: nat): (Streams, bool) {
    if id !in s.streams then (s, false)
    else
      var i := IndexOf(s.openStreams, id);
      var s1 := if id % 2 == 0 then s.(numOutgoing := s.numOutgoing - 1) else s.(numIncoming := s.numIncoming - 1);
      if i == |s.openStreams| then (s1.(streams := s.streams - {id}), true)
      else
        (s1.(streams := s.streams - {id}, openStreams := s.openStreams[..i] + s.openStreams[i + 1..],
             roundRobinIndex := if i < s.roundRobinIndex then s.roundRobinIndex - 1 else s.roundRobinIndex),
         true)
  }

  // ---- What every call keeps ----

  function Odd(ids: set<nat>): set<nat> {
    set id | id in ids && id % 2 == 1
  }

  function Even(ids: set<nat>): set<nat> {
    set id | id in ids && id % 2 == 0
  }

  /** Every stream that was created has a number below the next own one or up to the highest of the peer. */
  predicate Past(s: Streams, id: nat) {
    if Own(s.server, id) then id < s.nextStream else id <= s.highestOpenedByPeer
  }

  ghost predicate Valid(s: Streams) {
    && Distinct(s.openStreams) && (forall id :: id in s.openStreams <==> id in s.streams)
    && s.numIncoming == |Odd(s.streams)| && s.numOutgoing == |Even(s.streams)|
    && Distinct(s.created) && (forall id :: id in s.streams ==> id in s.created)
    && (forall id :: id in s.created ==> Past(s, id))
    && Own(s.server, s.nextStream) && s.nextStream > 0
    && (s.highestOpenedByPeer == 0 || !Own(s.server, s.highestOpenedByPeer))
    && 0 <= s.roundRobinIndex <= |s.openStreams|
  }

  lemma NewValid(server: bool)
    ensures Valid(NewStreams(server))
  {
    assert Odd({}) == {} && Even({}) == {};
  }

  lemma OddAdd(ids: set<nat>, id: nat)
    requires id !in ids
    ensures |Odd(ids + {id})| == |Odd(ids)| + id % 2
    ensures |Even(ids + {id})| == |Even(ids)| + 1 - id % 2
  {
    if id % 2 == 1 {
      assert Odd(ids + {id}) == Odd(ids) + {id} && Even(ids + {id}) == Even(ids);
    } else {
      assert Even(ids + {id}) == Even(ids) + {id} && Odd(ids + {id}) == Odd(ids);
    }
  }

  lemma OddRemove(ids: set<nat>, id: nat)
    requires id in ids
    ensures |Odd(ids)| == |Odd(ids - {id})| + id % 2
    ensures |Even(ids)| == |Even(ids - {id})| + 1 - id % 2
  {
    OddAdd(ids - {id}, id);
    assert ids - {id} + {id} == ids;
  }

  /** A stream that is new is added with the counters, whoever opens it. */
  lemma PutValid(s: Streams, s1: Streams, id: nat)
    requires Valid(s) && !Past(s, id)
    requires s1 == s.(nextStream := s1.nextStream, highestOpenedByPeer := s1.highestOpenedByPeer,
                      numIncoming := s.numIncoming + id % 2, numOutgoing := s.numOutgoing + 1 - id % 2)
    requires s.nextStream <= s1.nextStream && s.highestOpenedByPeer <= s1.highestOpenedByPeer && Past(s1, id)
    requires Own(s1.server, s1.nextStream) && (s1.highestOpenedByPeer == 0 || !Own(s1.server, s1.highestOpenedByPeer))
    ensures Valid(Put(s1, id)) && id in Put(s1, id).streams && Put(s1, id).created == s.created + [id]
    ensures id !in s.created
  {
    OddAdd(s.streams, id);
    hide Odd, Even;
    assert id !in s.openStreams && id !in s.streams;
  }

  lemma OpenRemoteValid(s: Streams, limits: Limits, id: nat)
    requires Valid(s) && !Own(s.server, id) && id > s.highestOpenedByPeer
    ensures Valid(OpenRemote(s, limits, id).0)
    ensures OpenRemote(s, limits, id).1 == if s.numIncoming >= limits.maxIncoming then TooManyOpenStreams else Found
  {
    if s.numIncoming < limits.maxIncoming {
      var s1 := if s.server then s.(numIncoming := s.numIncoming + 1) else s.(numOutgoing := s.numOutgoing + 1);
      PutValid(s, s1.(highestOpenedByPeer := id), id);
    }
  }

  lemma OwnNext(server: bool, id: nat)
    ensures Own(server, id + 2) == Own(server, id)
  {
  }

  lemma {:induction false} OpenUpToValid(s: Streams, limits: Limits, sid: nat, id: nat)
    requires Valid(s) && !Own(s.server, sid) && sid > s.highestOpenedByPeer
    ensures Valid(OpenUpTo(s, limits, sid, id).0)
    decreases id + 2 - sid
  {
    if sid <= id {
      hide Valid, Own, OpenRemote;
      OpenRemoteValid(s, limits, sid);
      OpenRemoteAdds(s, limits, sid);
      OwnNext(s.server, sid);
      var (s1, r) := OpenRemote(s, limits, sid);
      if r == Found {
        OpenUpToValid(s1, limits, sid + 2, id);
      }
    }
  }

  lemma GetOrOpenValid(s: Streams, limits: Limits, id: nat)
    requires Valid(s)
    ensures Valid(GetOrOpen(s, limits, id).0)
  {
    if id !in s.streams && !Own(s.server, id) && id > s.highestOpenedByPeer {
      OpenUpToValid(s, limits, NextRemote(s), id);
    }
  }

  lemma OpenValid(s: Streams, limits: Limits)
    requires Valid(s)
    ensures Valid(Open(s, limits).0)
    ensures Open(s, limits).1 == Found ==> s.nextStream in Open(s, limits).0.streams && s.nextStream !in s.created
  {
    if s.numOutgoing < limits.maxOutgoing {
      var s1 := if s.server then s.(numOutgoing := s.numOutgoing + 1) else s.(numIncoming := s.numIncoming + 1);
      PutValid(s, s1.(nextStream := s.nextStream + 2), s.nextStream);
    }
  }

  lemma RemoveValid(s: Streams, id: nat)
    requires Valid(s)
    ensures Valid(Remove(s, id).0) && Remove(s, id).1 == (id in s.streams)
    ensures Remove(s, id).0.streams == s.streams - {id} && Remove(s, id).0.created == s.created
  {
    if id in s.streams {
      var i := IndexOf(s.openStreams, id);
      IndexOfIn(s.openStreams, id);
      var left := s.openStreams[..i] + s.openStreams[i + 1..];
      RemoveAtDistinct(s.openStreams, i);
      RemoveIs(s, id, i);
      assert 0 <= s.roundRobinIndex <= |s.openStreams|;
      hide IndexOf, Distinct, Valid, Remove;
      WithoutValid(s, Remove(s, id).0, id, left);
    }
  }

  lemma RemoveIs(s: Streams, id: nat, i: nat)
    requires id in s.streams && i == IndexOf(s.openStreams, id) < |s.openStreams|
    ensures Remove(s, id).1
    ensures Remove(s, id).0 == s.(streams := s.streams - {id},
                                  openStreams := s.openStreams[..i] + s.openStreams[i + 1..],
                                  numIncoming := s.numIncoming - id % 2, numOutgoing := s.numOutgoing - (1 - id % 2),
                                  roundRobinIndex := if i < s.roundRobinIndex then s.roundRobinIndex - 1
                                                     else s.roundRobinIndex)
  {
    hide IndexOf;
  }

  /** The stream whose turn is next keeps its turn; if it is the one removed, the stream behind it is next. */
  lemma RemoveKeepsTurn(s: Streams, id: nat)
    requires Valid(s) && id in s.streams && s.roundRobinIndex < |s.openStreams|
    ensures var r, turn := Remove(s, id).0, s.roundRobinIndex;
            if s.openStreams[turn] != id then
              0 <= r.roundRobinIndex < |r.openStreams| && r.openStreams[r.roundRobinIndex] == s.openStreams[turn]
            else
              && r.roundRobinIndex == turn && turn <= |r.openStreams|
              && (turn < |r.openStreams| ==> r.openStreams[turn] == s.openStreams[turn + 1])
  {
    var i := IndexOf(s.openStreams, id);
    IndexOfIn(s.openStreams, id);
    RemoveIs(s, id, i);
    assert s.openStreams[i] == id;
    hide IndexOf, Remove, Odd, Even;
  }

  lemma WithoutValid(s: Streams, s': Streams, id: nat, left: seq<nat>)
    requires Valid(s) && id in s.streams
    requires Distinct(left) && |left| == |s.openStreams| - 1
    requires forall x :: x in left <==> x in s.openStreams && x != id
    requires s' == s.(streams := s.streams - {id}, openStreams := left,
                      numIncoming := s.numIncoming - id % 2, numOutgoing := s.numOutgoing - (1 - id % 2),
                      roundRobinIndex := s'.roundRobinIndex)
    requires 0 <= s'.roundRobinIndex <= |left|
    ensures Valid(s')
  {
    OddRemove(s.streams, id);
    hide Odd, Even, Distinct, Own;
    assert forall x :: x in s.created ==> Past(s', x) == Past(s, x);
  }

  lemma IndexOfIn(ids: seq<nat>, id: nat)
    requires id in ids
    ensures IndexOf(ids, id) < |ids| && ids[IndexOf(ids, id)] == id
  {
    assert ids[..|ids|] == ids;
  }

  lemma RemoveAtDistinct(ids: seq<nat>, i: nat)
    requires Distinct(ids) && i < |ids|
    ensures Distinct(ids[..i] + ids[i + 1..])
    ensures forall id :: id in ids[..i] + ids[i + 1..] <==> id in ids && id != ids[i]
  {
    var r := ids[..i] + ids[i + 1..];
    assert forall k :: 0 <= k < |r| ==> r[k] == if k < i then ids[k] else ids[k + 1];
    forall id | id in ids && id != ids[i]
      ensures id in r
    {
      var k :| 0 <= k < |ids| && ids[k] == id;
      assert r[if k < i then k else k - 1] == id;
    }
  }

  // ---- Opening and closing ----

  /** Asking for a stream that was closed never opens it again, and changes nothing. */
  lemma ClosedStaysClosed(s: Streams, limits: Limits, id: nat)
    requires Valid(s) && id in s.created && id !in s.streams
    ensures GetOrOpen(s, limits, id) == (s, AlreadyClosed)
  {
  }

  /** The streams from sid up to id that have the same parity. */
  predicate Between(sid: nat, id: nat, x: nat) {
    sid <= x <= id && x % 2 == sid % 2
  }

  lemma BetweenNext(sid: nat, id: nat, x: nat)
    requires sid <= id
    ensures Between(sid, id, x) <==> x == sid || Between(sid + 2, id, x)
  {
  }

  /** A stream of the peer that is opened opens all streams of the peer below it. */
  lemma {:induction false} OpensAllBelow(s: Streams, limits: Limits, sid: nat, id: nat, x: nat)
    requires Valid(s) && !Own(s.server, sid) && sid > s.highestOpenedByPeer
    ensures var (s', r) := OpenUpTo(s, limits, sid, id);
            && (x in s'.streams ==> x in s.streams || Between(sid, id, x))
            && (x in s.streams ==> x in s'.streams)
            && (r == Found && Between(sid, id, x) ==> x in s'.streams)
            && (r == Found || r == TooManyOpenStreams)
    decreases id + 2 - sid
  {
    if sid <= id {
      OpenRemoteValid(s, limits, sid);
      OpenRemoteAdds(s, limits, sid);
      hide Valid, Own, OpenRemote;
      OwnNext(s.server, sid);
      BetweenNext(sid, id, x);
      hide Between;
      var (s1, r) := OpenRemote(s, limits, sid);
      if r == Found {
        OpensAllBelow(s1, limits, sid + 2, id, x);
      }
    }
  }

  lemma OpenRemoteAdds(s: Streams, limits: Limits, id: nat)
    requires Valid(s) && !Own(s.server, id) && id > s.highestOpenedByPeer
    ensures var (s', r) := OpenRemote(s, limits, id);
            if r == Found then s'.streams == s.streams + {id} && s'.highestOpenedByPeer == id && s'.server == s.server
            else s' == s
  {
    assert id !in s.streams;
  }

  /** The exact answers of GetOrOpenStream: a stream is found if it is open; otherwise it is opened only if it belongs
      to the peer and is new, unless there are too many. */
  lemma GetOrOpenExact(s: Streams, limits: Limits, id: nat)
    requires Valid(s)
    ensures var (s', r) := GetOrOpen(s, limits, id);
            && (r == Found ==> id in s'.streams)
            && (r == AlreadyClosed ==> s' == s)
            && (r == AlreadyClosed <==>
                  id !in s.streams && id <= if Own(s.server, id) then s.nextStream else s.highestOpenedByPeer)
            && (r == InvalidStreamID <==> id !in s.streams && Own(s.server, id) && id > s.nextStream)
            && (r == Found && id !in s.streams ==> !Own(s.server, id) && id > s.highestOpenedByPeer)
  {
    if id !in s.streams && !Own(s.server, id) && id > s.highestOpenedByPeer {
      OpensAllBelow(s, limits, NextRemote(s), id, id);
      assert Between(NextRemote(s), id, id);
    }
  }

  // ---- Whole runs ----

  datatype Event = PeerUses(id: nat) | Opens | Closes(id: nat) | Iterated(index: nat)

  function Step(s: Streams, limits: Limits, e: Event): Streams {
    match e
    case PeerUses(id) => GetOrOpen(s, limits, id).0
    case Opens => Open(s, limits).0
    case Closes(id) => Remove(s, id).0
    case Iterated(index) => if index < |s.openStreams| then s.(roundRobinIndex := index) else s
  }

  function Run(s: Streams, limits: Limits, events: seq<Event>): Streams
    decreases |events|
  {
    if events == [] then s else Run(Step(s, limits, events[0]), limits, events[1..])
  }

  lemma StepValid(s: Streams, limits: Limits, e: Event)
    requires Valid(s)
    ensures Valid(Step(s, limits, e))
  {
    match e
    case PeerUses(id) => GetOrOpenValid(s, limits, id);
    case Opens => OpenValid(s, limits);
    case Closes(id) => RemoveValid(s, id);
    case Iterated(index) =>
  }

  lemma {:induction false} RunValid(s: Streams, limits: Limits, events: seq<Event>)
    requires Valid(s)
    ensures Valid(Run(s, limits, events))
    decreases |events|
  {
    hide Valid, Step;
    if events != [] {
      StepValid(s, limits, events[0]);
      RunValid(Step(s, limits, events[0]), limits, events[1..]);
    }
  }

  /** In every run no stream is created twice, the list of open streams names every open stream once, and the two
      counters are the numbers of open streams with odd and even numbers. */
  lemma Lifecycle(server: bool, limits: Limits, events: seq<Event>)
    ensures var s := Run(NewStreams(server), limits, events);
            && Distinct(s.created) && Distinct(s.openStreams)
            && (forall id :: id in s.openStreams <==> id in s.streams)
            && s.numIncoming == |Odd(s.streams)| && s.numOutgoing == |Even(s.streams)|
            && (forall id :: id in s.streams ==> id in s.created)
  {
    NewValid(server);
    RunValid(NewStreams(server), limits, events);
    hide Run, Odd, Even, Distinct;
  }

  // ---- Closed streams ----

  /** Every number below the next own one or up to the highest of the peer was created, but 0 never is. */
  ghost predicate Complete(s: Streams) {
    0 !in s.created && forall id :: id > 0 && Past(s, id) ==> id in s.created
  }

  /** A new number that follows the highest one of its side keeps it complete. */
  lemma PutComplete(s: Streams, s1: Streams, id: nat)
    requires Valid(s) && Complete(s) && id > 0 && id !in s.streams
    requires s1.server == s.server && s1.streams == s.streams && s1.created == s.created
    requires forall x :: x > 0 && Past(s1, x) ==> Past(s, x) || x == id
    ensures Complete(Put(s1, id))
  {
    hide Valid;
  }

  lemma OpenRemoteComplete(s: Streams, limits: Limits, id: nat)
    requires Valid(s) && Complete(s) && !Own(s.server, id) && id > s.highestOpenedByPeer
    requires id == NextRemote(s)
    ensures Complete(OpenRemote(s, limits, id).0)
  {
    if s.numIncoming < limits.maxIncoming {
      var s1 := if s.server then s.(numIncoming := s.numIncoming + 1) else s.(numOutgoing := s.numOutgoing + 1);
      var s2 := s1.(highestOpenedByPeer := id);
      PastRemote(s, s2, id);
      assert id !in s.streams;
      hide Valid, Complete, Past;
      PutComplete(s, s2, id);
    }
  }

  lemma PastRemote(s: Streams, s2: Streams, id: nat)
    requires Valid(s) && id == NextRemote(s) && !Own(s.server, id)
    requires s2.server == s.server && s2.nextStream == s.nextStream && s2.highestOpenedByPeer == id
    ensures forall x :: x > 0 && Past(s2, x) ==> Past(s, x) || x == id
  {
  }

  lemma {:induction false} OpenUpToComplete(s: Streams, limits: Limits, sid: nat, id: nat)
    requires Valid(s) && Complete(s) && !Own(s.server, sid) && sid > s.highestOpenedByPeer
    requires sid == NextRemote(s)
    ensures Complete(OpenUpTo(s, limits, sid, id).0)
    decreases id + 2 - sid
  {
    if sid <= id {
      OpenRemoteValid(s, limits, sid);
      OpenRemoteAdds(s, limits, sid);
      OpenRemoteComplete(s, limits, sid);
      OwnNext(s.server, sid);
      hide Valid, Complete, Own, OpenRemote;
      var (s1, r) := OpenRemote(s, limits, sid);
      if r == Found {
        OpenUpToComplete(s1, limits, sid + 2, id);
      }
    }
  }

  lemma OpenComplete(s: Streams, limits: Limits)
    requires Valid(s) && Complete(s)
    ensures Complete(Open(s, limits).0)
  {
    if s.numOutgoing < limits.maxOutgoing {
      var s1 := if s.server then s.(numOutgoing := s.numOutgoing + 1) else s.(numIncoming := s.numIncoming + 1);
      var s2 := s1.(nextStream := s.nextStream + 2);
      assert s.nextStream !in s.streams;
      assert forall x :: x > 0 && Past(s2, x) ==> Past(s, x) || x == s.nextStream;
      hide Valid, Complete, Past;
      PutComplete(s, s2, s.nextStream);
    }
  }

  lemma StepComplete(s: Streams, limits: Limits, e: Event)
    requires Valid(s) && Complete(s)
    ensures Complete(Step(s, limits, e))
  {
    match e
    case PeerUses(id) =>
      if id !in s.streams && !Own(s.server, id) && id > s.highestOpenedByPeer {
        OpenUpToComplete(s, limits, NextRemote(s), id);
      }
    case Opens => OpenComplete(s, limits);
    case Closes(id) =>
    case Iterated(index) =>
  }

  lemma {:induction false} RunComplete(s: Streams, limits: Limits, events: seq<Event>)
    requires Valid(s) && Complete(s)
    ensures Complete(Run(s, limits, events))
    decreases |events|
  {
    hide Valid, Complete, Step;
    if events != [] {
      StepValid(s, limits, events[0]);
      StepComplete(s, limits, events[0]);
      RunComplete(Step(s, limits, events[0]), limits, events[1..]);
    }
  }

  lemma ClosedMeans(s: Streams, limits: Limits, id: nat)
    requires Valid(s) && Complete(s)
    ensures s.nextStream !in s.created && 0 !in s.created
    ensures GetOrOpen(s, limits, id).1 == AlreadyClosed <==>
            (id in s.created && id !in s.streams) || id == s.nextStream || id == 0
  {
    GetOrOpenExact(s, limits, id);
    hide GetOrOpen;
  }

  /** In every run, a number is answered as closed if and only if its stream was opened and closed, or it is the next
      own number, or 0. The last two were never opened, so the answer is wrong for exactly these. */
  lemma ClosedExactly(server: bool, limits: Limits, events: seq<Event>, id: nat)
    ensures var s := Run(NewStreams(server), limits, events);
            var closed := GetOrOpen(s, limits, id).1 == AlreadyClosed;
            && (closed <==> (id in s.created && id !in s.streams) || id == s.nextStream || id == 0)
            && (closed ==> (id in s.created <==> id != s.nextStream && id != 0))
  {
    NewValid(server);
    RunValid(NewStreams(server), limits, events);
    RunComplete(NewStreams(server), limits, events);
    hide Run, Valid, Complete, GetOrOpen;
    ClosedMeans(Run(NewStreams(server), limits, events), limits, id);
  }

  /** The inputs that show it: a new connection answers 0 and its first own number as closed. */
  lemma ClosedUnopened(server: bool, limits: Limits)
    ensures var s := NewStreams(server);
            && s.created == []
            && GetOrOpen(s, limits, 0) == (s, AlreadyClosed)
            && GetOrOpen(s, limits, if server then 2 else 1) == (s, AlreadyClosed)
  {
  }

  // ---- Limits ----

  /** The open streams of the peer, and the own ones. */
  function RemoteCount(s: Streams): int {
    if s.server then s.numIncoming else s.numOutgoing
  }

  function OwnCount(s: Streams): int {
    if s.server then s.numOutgoing else s.numIncoming
  }

  ghost predicate WithinLimits(s: Streams, limits: Limits) {
    s.server && s.numIncoming <= limits.maxIncoming && s.numOutgoing <= limits.maxOutgoing
  }

  lemma {:induction false} OpenUpToWithin(s: Streams, limits: Limits, sid: nat, id: nat)
    requires WithinLimits(s, limits)
    ensures WithinLimits(OpenUpTo(s, limits, sid, id).0, limits)
    decreases id + 2 - sid
  {
    if sid <= id {
      var (s1, r) := OpenRemote(s, limits, sid);
      if r == Found {
        OpenUpToWithin(s1, limits, sid + 2, id);
      }
    }
  }

  lemma {:induction false} RunWithin(s: Streams, limits: Limits, events: seq<Event>)
    requires WithinLimits(s, limits)
    ensures WithinLimits(Run(s, limits, events), limits)
    decreases |events|
  {
    if events != [] {
      match events[0] {
        case PeerUses(id) => OpenUpToWithin(s, limits, NextRemote(s), id);
        case _ =>
      }
      hide GetOrOpen, Open, Remove;
      RunWithin(Step(s, limits, events[0]), limits, events[1..]);
    }
  }

  /** On the client the streams of the peer are checked against the counter of the client's own streams. */
  lemma {:induction false} ClientAccepts(s: Streams, limits: Limits, sid: nat, n: nat)
    requires Valid(s) && !s.server && s.numIncoming < limits.maxIncoming && sid % 2 == 0 && sid > s.highestOpenedByPeer
    ensures n > 0 ==> OpenUpTo(s, limits, sid, sid + 2 * (n - 1)).1 == Found
    ensures n > 0 ==> OpenUpTo(s, limits, sid, sid + 2 * (n - 1)).0.numOutgoing == s.numOutgoing + n
    decreases n
  {
    if n > 0 {
      OpenRemoteValid(s, limits, sid);
      OpenRemoteAdds(s, limits, sid);
      hide Valid;
      var (s1, r) := OpenRemote(s, limits, sid);
      ClientAccepts(s1, limits, sid + 2, n - 1);
      assert sid + 2 + 2 * (n - 1 - 1) == sid + 2 * (n - 1);
      if n == 1 {
        assert OpenUpTo(s1, limits, sid + 2, sid) == (s1, Found);
      }
    }
  }

  /** A client takes any number of streams from its peer at once. */
  lemma ClientTakes(limits: Limits, n: nat)
    requires limits.maxIncoming > 0 && n > 0
    ensures var s := Step(NewStreams(false), limits, PeerUses(2 * n));
            s.numOutgoing == n && !s.server
  {
    NewValid(false);
    ClientAccepts(NewStreams(false), limits, 2, n);
    assert 2 + 2 * (n - 1) == 2 * n;
    GetOrOpenSide(NewStreams(false), limits, 2, 2 * n);
  }

  lemma {:induction false} GetOrOpenSide(s: Streams, limits: Limits, sid: nat, id: nat)
    ensures OpenUpTo(s, limits, sid, id).0.server == s.server
    decreases id + 2 - sid
  {
    if sid <= id {
      GetOrOpenSide(OpenRemote(s, limits, sid).0, limits, sid + 2, id);
    }
  }

  /** The number of streams that the peer may open is limited on the server; on the client it is not, unless no stream
      is allowed at all. */
  lemma PeerLimitExactly(server: bool, limits: Limits)
    ensures (forall events :: RemoteCount(Run(NewStreams(server), limits, events)) <= limits.maxIncoming)
            <==> server || limits.maxIncoming == 0
  {
    NewValid(false);
    hide Run, Step, Valid;
    if server {
      forall events
        ensures RemoteCount(Run(NewStreams(server), limits, events)) <= limits.maxIncoming
      {
        RunWithin(NewStreams(true), limits, events);
      }
    } else if limits.maxIncoming == 0 {
      forall events
        ensures RemoteCount(Run(NewStreams(server), limits, events)) <= limits.maxIncoming
      {
        ClientRefuses(NewStreams(false), limits, events);
      }
    } else {
      var n := limits.maxIncoming + 1;
      ClientTakes(limits, n);
      RunOne(NewStreams(false), limits, PeerUses(2 * n));
      assert RemoteCount(Run(NewStreams(server), limits, [PeerUses(2 * n)])) == n;
    }
  }

  lemma RunOne(s: Streams, limits: Limits, e: Event)
    ensures Run(s, limits, [e]) == Step(s, limits, e)
  {
    assert [e][1..] == [];
  }

  /** With a limit of zero the client refuses all streams of the peer. */
  lemma {:induction false} ClientRefuses(s: Streams, limits: Limits, events: seq<Event>)
    requires !s.server && s.numIncoming >= 0 && s.numOutgoing <= 0 && limits.maxIncoming == 0
    requires forall id :: id in s.streams ==> id % 2 == 1
    requires Valid(s)
    ensures Run(s, limits, events).numOutgoing <= 0 && !Run(s, limits, events).server
    decreases |events|
  {
    if events != [] {
      StepValid(s, limits, events[0]);
      var s1 := Step(s, limits, events[0]);
      assert s1.numOutgoing <= 0 && s1.numIncoming >= 0 && !s1.server && forall id :: id in s1.streams ==> id % 2 == 1;
      hide Step, Valid;
      ClientRefuses(s1, limits, events[1..]);
    }
  }

  /** The own streams of a client are checked against the counter of the peer's streams. */
  lemma {:induction false} ClientOpens(s: Streams, limits: Limits, n: nat)
    requires Valid(s) && !s.server && s.numOutgoing < limits.maxOutgoing
    ensures var r := Run(s, limits, Repeat(n)); r.numIncoming == s.numIncoming + n && !r.server
    decreases n
  {
    if n > 0 {
      OpenValid(s, limits);
      OpenCounts(s, limits);
      var s1 := Step(s, limits, Opens);
      assert Repeat(n)[0] == Opens && Repeat(n)[1..] == Repeat(n - 1);
      hide Valid, Step, Open;
      ClientOpens(s1, limits, n - 1);
    }
  }

  lemma OpenCounts(s: Streams, limits: Limits)
    requires !s.server && s.numOutgoing < limits.maxOutgoing
    ensures var s1 := Step(s, limits, Opens);
            && !s1.server && s1.numIncoming == s.numIncoming + 1
            && s1.numOutgoing == s.numOutgoing && s1 == Open(s, limits).0
  {
  }

  function Repeat(n: nat): seq<Event> {
    seq(n, _ => Opens)
  }

  /** The same for the streams that this end opens itself: the limit holds on the server only. */
  lemma OwnLimitExactly(server: bool, limits: Limits)
    ensures (forall events :: OwnCount(Run(NewStreams(server), limits, events)) <= limits.maxOutgoing)
            <==> server || limits.maxOutgoing == 0
  {
    NewValid(false);
    hide Run, Step, Valid;
    if server {
      forall events
        ensures OwnCount(Run(NewStreams(server), limits, events)) <= limits.maxOutgoing
      {
        RunWithin(NewStreams(true), limits, events);
      }
    } else if limits.maxOutgoing == 0 {
      forall events
        ensures OwnCount(Run(NewStreams(server), limits, events)) <= limits.maxOutgoing
      {
        ClientNeverOpens(NewStreams(false), limits, events);
      }
    } else {
      ClientOpens(NewStreams(false), limits, limits.maxOutgoing + 1);
      assert OwnCount(Run(NewStreams(server), limits, Repeat(limits.maxOutgoing + 1))) == limits.maxOutgoing + 1;
    }
  }

  lemma {:induction false} ClientNeverOpens(s: Streams, limits: Limits, events: seq<Event>)
    requires Valid(s) && !s.server && limits.maxOutgoing == 0 && s.numIncoming <= 0
    requires forall id :: id in s.streams ==> id % 2 == 0
    ensures Run(s, limits, events).numIncoming <= 0 && !Run(s, limits, events).server
    decreases |events|
  {
    if events != [] {
      StepValid(s, limits, events[0]);
      NeverOdd(s, limits, events[0]);
      hide Step, Valid;
      ClientNeverOpens(Step(s, limits, events[0]), limits, events[1..]);
    }
  }

  lemma NeverOdd(s: Streams, limits: Limits, e: Event)
    requires Valid(s) && !s.server && limits.maxOutgoing == 0 && s.numIncoming <= 0
    requires forall id :: id in s.streams ==> id % 2 == 0
    ensures var s1 := Step(s, limits, e);
            !s1.server && s1.numIncoming <= 0 && forall id :: id in s1.streams ==> id % 2 == 0
  {
    if e.PeerUses? && e.id !in s.streams && !Own(s.server, e.id) && e.id > s.highestOpenedByPeer {
      GetOrOpenSide(s, limits, NextRemote(s), e.id);
      EvenOnly(s, limits, NextRemote(s), e.id);
    }
  }

  lemma {:induction false} EvenOnly(s: Streams, limits: Limits, sid: nat, id: nat)
    requires !s.server && sid % 2 == 0 && s.numIncoming <= 0 && forall x :: x in s.streams ==> x % 2 == 0
    ensures var s1 := OpenUpTo(s, limits, sid, id).0; s1.numIncoming <= 0 && forall x :: x in s1.streams ==> x % 2 == 0
    decreases id + 2 - sid
  {
    if sid <= id {
      EvenOnly(OpenRemote(s, limits, sid).0, limits, sid + 2, id);
    }
  }

  // ---- Round robin ----

  /** The element at position i of a list that is read from position start and wraps around. */
  function At(ids: seq<nat>, start: nat, i: nat): nat
    requires i < |ids|
  {
    ids[(i + start) % |ids|]
  }

  /** Streams 1 and 3 are visited before all others. */
  predicate Special(id: nat) {
    id == 1 || id == 3
  }

  /** What the loop over the open streams visits from position i on, up to a visit that does not want to continue. */
  function VisitFrom(ids: seq<nat>, start: nat, i: nat, continues: nat -> bool): seq<nat>
    requires i <= |ids|
    decreases |ids| - i
  {
    if i == |ids| then []
    else
      var id := At(ids, start, i);
      if Special(id) then VisitFrom(ids, start, i + 1, continues)
      else if !continues(id) then [id]
      else [id] + VisitFrom(ids, start, i + 1, continues)
  }

  function VisitSpecial(streams: set<nat>, id: nat): seq<nat> {
    if id in streams then [id] else []
  }

  /** The visits of one call of RoundRobinIterate. */
  function RoundRobin(s: Streams, continues: nat -> bool): seq<nat> {
    if 1 in s.streams && !continues(1) then [1]
    else if 3 in s.streams && !continues(3) then VisitSpecial(s.streams, 1) + [3]
    else
      VisitSpecial(s.streams, 1) + VisitSpecial(s.streams, 3)
      + VisitFrom(s.openStreams, if s.roundRobinIndex < 0 then 0 else s.roundRobinIndex, 0, continues)
  }

  /** Reading with wrap-around is a rotation. */
  lemma AtIs(ids: seq<nat>, start: nat, i: nat)
    requires i < |ids| && start <= |ids|
    ensures At(ids, start, i) == if i + start < |ids| then ids[i + start] else ids[i + start - |ids|]
  {
    ModSmall(i + start, |ids|);
  }

  lemma ModSmall(x: nat, n: nat)
    requires 0 < n && x < 2 * n
    ensures x % n == if x < n then x else x - n
  {
    var q, r := x / n, x % n;
    assert x == q * n + r;
    if q >= 2 {
      Times(q, 2, n);
    } else if q == 1 {
      assert q * n == n;
    } else {
      assert q == 0 && q * n == 0;
    }
  }

  lemma Times(a: nat, b: nat, n: nat)
    requires a >= b
    ensures a * n >= b * n
  {
  }

  /** If every visit continues, the loop visits exactly the streams other than 1 and 3 at the positions from i on. */
  lemma {:induction false} VisitsAll(ids: seq<nat>, start: nat, i: nat, continues: nat -> bool)
    requires i <= |ids| && start <= |ids| && Distinct(ids) && forall id :: id in ids ==> continues(id)
    ensures var v := VisitFrom(ids, start, i, continues);
            && Distinct(v)
            && (forall id :: id in v ==> !Special(id) && exists k :: i <= k < |ids| && At(ids, start, k) == id)
            && (forall k :: i <= k < |ids| && !Special(At(ids, start, k)) ==> At(ids, start, k) in v)
    decreases |ids| - i
  {
    if i < |ids| {
      VisitsAll(ids, start, i + 1, continues);
      var id := At(ids, start, i);
      AtIs(ids, start, i);
      forall k | i < k < |ids|
        ensures At(ids, start, k) != id
      {
        AtIs(ids, start, k);
      }
    }
  }

  /** Every position of the list is read once. */
  lemma AtCovers(ids: seq<nat>, start: nat, id: nat)
    requires start <= |ids|
    ensures id in ids <==> exists k :: 0 <= k < |ids| && At(ids, start, k) == id
  {
    if id in ids {
      var m :| 0 <= m < |ids| && ids[m] == id;
      var k := if m >= start then m - start else m + |ids| - start;
      AtIs(ids, start, k);
      assert At(ids, start, k) == id;
    }
    if k :| 0 <= k < |ids| && At(ids, start, k) == id {
      AtIs(ids, start, k);
    }
  }

  /** A full pass visits every open stream exactly once, streams 1 and 3 first. */
  lemma FullPass(s: Streams, continues: nat -> bool, id: nat)
    requires Valid(s) && forall x :: x in s.streams ==> continues(x)
    ensures var v := RoundRobin(s, continues);
            && Distinct(v) && (id in v <==> id in s.streams)
            && VisitSpecial(s.streams, 1) + VisitSpecial(s.streams, 3) <= v
  {
    var rest := VisitFrom(s.openStreams, s.roundRobinIndex, 0, continues);
    VisitsAll(s.openStreams, s.roundRobinIndex, 0, continues);
    AtCovers(s.openStreams, s.roundRobinIndex, id);
    hide VisitFrom, At;
    var first := VisitSpecial(s.streams, 1) + VisitSpecial(s.streams, 3);
    assert forall x :: x in first <==> Special(x) && x in s.streams;
    assert Distinct(first);
    JoinDistinct(first, rest);
  }

  /** How far a pass comes: all visits but the last one want to continue, and that one does only if nothing is left. */
  predicate Stops(all: seq<nat>, v: seq<nat>, continues: nat -> bool) {
    && v <= all && (forall k :: 0 <= k < |v| - 1 ==> continues(v[k]))
    && (v == all || (v != [] && !continues(v[|v| - 1])))
  }

  lemma StopsBehind(first: seq<nat>, all: seq<nat>, v: seq<nat>, continues: nat -> bool)
    requires Stops(all, v, continues) && forall id :: id in first ==> continues(id)
    ensures Stops(first + all, first + v, continues)
  {
    var w := first + v;
    forall k | 0 <= k < |w| - 1
      ensures continues(w[k])
    {
      if k < |first| {
        assert first[k] in first;
      } else {
        assert w[k] == v[k - |first|];
      }
    }
  }

  lemma {:induction false} LoopStops(ids: seq<nat>, start: nat, i: nat, continues: nat -> bool)
    requires i <= |ids|
    ensures Stops(VisitFrom(ids, start, i, (id: nat) => true), VisitFrom(ids, start, i, continues), continues)
    decreases |ids| - i
  {
    if i < |ids| {
      LoopStops(ids, start, i + 1, continues);
      var id := At(ids, start, i);
      if !Special(id) && continues(id) {
        StopsBehind([id], VisitFrom(ids, start, i + 1, (id: nat) => true), VisitFrom(ids, start, i + 1, continues),
                    continues);
      }
      hide At;
    }
  }

  /** A pass visits the streams in the order of a full one, up to the first visit that does not want to continue. */
  lemma PassStops(s: Streams, continues: nat -> bool)
    ensures Stops(RoundRobin(s, (id: nat) => true), RoundRobin(s, continues), continues)
  {
    var start := if s.roundRobinIndex < 0 then 0 else s.roundRobinIndex;
    var one, three := VisitSpecial(s.streams, 1), VisitSpecial(s.streams, 3);
    var all := VisitFrom(s.openStreams, start, 0, (id: nat) => true);
    var v := VisitFrom(s.openStreams, start, 0, continues);
    LoopStops(s.openStreams, start, 0, continues);
    hide VisitFrom;
    if (1 in s.streams ==> continues(1)) && (3 in s.streams ==> continues(3)) {
      StopsBehind(one + three, all, v, continues);
    } else if 1 in s.streams && !continues(1) {
      assert [1] <= one + three + all;
    } else {
      assert one + [3] <= one + three + all;
    }
  }

  lemma JoinDistinct(a: seq<nat>, b: seq<nat>)
    requires Distinct(a) && Distinct(b) && forall x :: x in a ==> x !in b
    ensures Distinct(a + b)
  {
    var s := a + b;
    forall i, j | 0 <= i < j < |s|
      ensures s[i] != s[j]
    {
      if i < |a| && |a| <= j {
        assert s[i] in a && s[j] in b;
      }
    }
  }

  /** The round-robin index moves on by one for each visited stream other than 1 and 3. */
  function Advance(index: int, k: nat, n: nat): int {
    if k == 0 || n == 0 then index else (Advance(index, k - 1, n) + 1) % n
  }

  /** What one call visits besides streams 1 and 3: nothing if one of these ends the pass. */
  function Rest(s: Streams, continues: nat -> bool): seq<nat> {
    if (1 in s.streams && !continues(1)) || (3 in s.streams && !continues(3)) then []
    else VisitFrom(s.openStreams, if s.roundRobinIndex < 0 then 0 else s.roundRobinIndex, 0, continues)
  }

  function IndexAfter(s: Streams, continues: nat -> bool): int {
    Advance(s.roundRobinIndex, |Rest(s, continues)|, |s.openStreams|)
  }

  lemma AdvanceNext(index: int, k: nat, n: nat)
    ensures Advance(index, 0, n) == index
    ensures n > 0 ==> Advance(index, k + 1, n) == (Advance(index, k, n) + 1) % n && 0 <= Advance(index, k + 1, n) < n
  {
  }

  lemma VisitNext(ids: seq<nat>, start: nat, i: nat, continues: nat -> bool)
    requires i < |ids|
    ensures var id := ids[(i + start) % |ids|];
            VisitFrom(ids, start, i, continues) ==
              if id == 1 || id == 3 then VisitFrom(ids, start, i + 1, continues)
              else if !continues(id) then [id]
              else [id] + VisitFrom(ids, start, i + 1, continues)
  {
  }

  lemma VisitEnd(ids: seq<nat>, start: nat, continues: nat -> bool)
    ensures VisitFrom(ids, start, |ids|, continues) == []
  {
  }

  /** A list without repetitions has as many elements as their set. */
  lemma {:induction false} SizesAgree(ids: seq<nat>, s: set<nat>)
    requires Distinct(ids) && forall id :: id in ids <==> id in s
    ensures |ids| == |s|
    decreases |ids|
  {
    if ids == [] {
      assert s == {};
    } else {
      var n := |ids| - 1;
      assert ids == ids[..n] + [ids[n]];
      SizesAgree(ids[..n], s - {ids[n]});
    }
  }
}

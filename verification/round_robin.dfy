/** What many calls of RoundRobinIterate (pstream/streams_map.go, lines 724 to 757) do while no stream is opened or
    removed. */
module RoundRobinPasses {

  import opened Wire
  import opened StreamsMapSpec

  function Pass(s: Streams, continues: nat -> bool): Streams {
    s.(roundRobinIndex := IndexAfter(s, continues))
  }

  /** The streams other than 1 and 3 that the calls visit, in order. */
  function Served(s: Streams, passes: seq<nat -> bool>): seq<nat>
    decreases |passes|
  {
    if passes == [] then [] else Rest(s, passes[0]) + Served(Pass(s, passes[0]), passes[1..])
  }

  /** Advancing k times is one step of k, with wrap-around. */
  lemma {:induction false} AdvanceIs(index: nat, k: nat, n: nat)
    requires index <= n && 0 < k <= n
    ensures Advance(index, k, n) == if index + k < n then index + k else if index + k < 2 * n then index + k - n else 0
    decreases k
  {
    AdvanceNext(index, k - 1, n);
    if n == 1 {
    } else if k == 1 {
      ModSmall(index + 1, n);
    } else {
      AdvanceIs(index, k - 1, n);
      ModSmall(Advance(index, k - 1, n) + 1, n);
    }
  }

  /** A position relative to the index after k visits is a position relative to the index before them. */
  lemma AtAdvanced(ids: seq<nat>, index: nat, k: nat, d: nat)
    requires index <= |ids| && k <= d < |ids|
    ensures 0 <= Advance(index, k, |ids|) <= |ids| && At(ids, Advance(index, k, |ids|), d - k) == At(ids, index, d)
  {
    AtIs(ids, index, d);
    if k > 0 {
      AdvanceIs(index, k, |ids|);
      AtIs(ids, Advance(index, k, |ids|), d - k);
    }
  }

  /** A pass of k visits leaves out none of the first k positions. */
  lemma {:induction false} VisitCovers(ids: seq<nat>, start: nat, i: nat, continues: nat -> bool, k: nat)
    requires i <= |ids|
    ensures |VisitFrom(ids, start, i, continues)| <= |ids| - i
    ensures k < |VisitFrom(ids, start, i, continues)| && !Special(At(ids, start, i + k)) ==>
              At(ids, start, i + k) in VisitFrom(ids, start, i, continues)
    decreases |ids| - i
  {
    if i < |ids| {
      VisitCovers(ids, start, i + 1, continues, if k == 0 then 0 else k - 1);
    }
  }

  lemma RestCovers(s: Streams, continues: nat -> bool, k: nat)
    requires Valid(s)
    ensures |Rest(s, continues)| <= |s.openStreams|
    ensures k < |Rest(s, continues)| && !Special(At(s.openStreams, s.roundRobinIndex, k)) ==>
              At(s.openStreams, s.roundRobinIndex, k) in Rest(s, continues)
  {
    VisitCovers(s.openStreams, s.roundRobinIndex, 0, continues, k);
  }

  lemma PassValid(s: Streams, continues: nat -> bool)
    requires Valid(s)
    ensures Valid(Pass(s, continues))
  {
    RestCovers(s, continues, 0);
    if Rest(s, continues) != [] {
      AdvanceIs(s.roundRobinIndex, |Rest(s, continues)|, |s.openStreams|);
    }
  }

  lemma ServedFirst(s: Streams, passes: seq<nat -> bool>)
    ensures if passes == [] then Served(s, passes) == []
            else Served(s, passes) == Rest(s, passes[0]) + Served(Pass(s, passes[0]), passes[1..])
  {
    hide Rest, Pass;
  }

  /** Passes of k visits together leave out none of the next k positions. */
  lemma {:induction false} ServedCovers(s: Streams, passes: seq<nat -> bool>, d: nat)
    requires Valid(s) && d < |s.openStreams| && d < |Served(s, passes)|
    requires !Special(At(s.openStreams, s.roundRobinIndex, d))
    ensures At(s.openStreams, s.roundRobinIndex, d) in Served(s, passes)
    decreases |passes|
  {
    hide Valid, Rest, Pass, At, Served;
    ServedFirst(s, passes);
    var c := passes[0];
    RestCovers(s, c, d);
    var k := |Rest(s, c)|;
    if k <= d {
      PassValid(s, c);
      PassAt(s, c, d);
      ServedCovers(Pass(s, c), passes[1..], d - k);
    }
  }

  /** Positions relative to the index before and after a pass. */
  lemma PassAt(s: Streams, c: nat -> bool, d: nat)
    requires Valid(s) && |Rest(s, c)| <= d < |s.openStreams|
    ensures var s' := Pass(s, c);
            && s'.openStreams == s.openStreams && 0 <= s'.roundRobinIndex
            && At(s'.openStreams, s'.roundRobinIndex, d - |Rest(s, c)|) == At(s.openStreams, s.roundRobinIndex, d)
  {
    AtAdvanced(s.openStreams, s.roundRobinIndex, |Rest(s, c)|, d);
  }

  /** No stream starves: passes that make as many visits as there are open streams, wherever each of them stops, visit
      every open stream. */
  lemma NoStarvation(s: Streams, passes: seq<nat -> bool>, id: nat)
    requires Valid(s) && id in s.streams && !Special(id)
    requires |Served(s, passes)| >= |s.openStreams|
    ensures id in Served(s, passes)
  {
    AtCovers(s.openStreams, s.roundRobinIndex, id);
    var d :| 0 <= d < |s.openStreams| && At(s.openStreams, s.roundRobinIndex, d) == id;
    ServedCovers(s, passes, d);
  }

  // ---- Passes of one visit each ----

  /** The pass ends at its first stream other than 1 and 3. */
  ghost predicate Single(continues: nat -> bool) {
    forall id :: continues(id) <==> Special(id)
  }

  /** The first stream other than 1 and 3 in a list that ends with such a stream. */
  function First(ids: seq<nat>): nat
    requires ids != []
  {
    if Special(ids[0]) && |ids| > 1 then First(ids[1..]) else ids[0]
  }

  /** A list read from position k on, with wrap-around. */
  function Rotated(ids: seq<nat>, k: nat): (r: seq<nat>)
    requires k <= |ids|
    ensures |r| == |ids|
  {
    ids[k..] + ids[..k]
  }

  lemma AtRotated(ids: seq<nat>, start: nat, i: nat)
    requires start <= |ids| && i < |ids|
    ensures At(ids, start, i) == Rotated(ids, start)[i]
  {
    AtIs(ids, start, i);
  }

  /** Such a pass visits the first other stream at or after the index. */
  lemma {:induction false} SingleVisit(ids: seq<nat>, start: nat, i: nat, continues: nat -> bool, k: nat)
    requires Single(continues) && start <= |ids| && i <= k < |ids| && !Special(Rotated(ids, start)[k])
    ensures VisitFrom(ids, start, i, continues) == [First(Rotated(ids, start)[i..k + 1])]
    decreases k - i
  {
    AtRotated(ids, start, i);
    var left := Rotated(ids, start)[i..k + 1];
    if i < k && Special(left[0]) {
      SingleVisit(ids, start, i + 1, continues, k);
      assert left[1..] == Rotated(ids, start)[i + 1..k + 1];
    }
  }

  /** What lies behind an other stream does not matter. */
  lemma {:induction false} FirstFront(front: seq<nat>, id: nat, back: seq<nat>)
    requires !Special(id)
    ensures First(front + [id] + back) == First(front + [id])
    decreases |front|
  {
    if front == [] {
      assert front + [id] + back == [id] + back;
    } else {
      assert (front + [id] + back)[1..] == front[1..] + [id] + back && (front + [id])[1..] == front[1..] + [id];
      FirstFront(front[1..], id, back);
    }
  }

  lemma RotatedHas(ids: seq<nat>, k: nat, x: nat)
    requires k <= |ids|
    ensures x in Rotated(ids, k) <==> x in ids
  {
    assert ids == ids[..k] + ids[k..];
  }

  lemma FirstUpTo(ids: seq<nat>, k: nat)
    requires k < |ids| && !Special(ids[k])
    ensures First(ids[0..k + 1]) == First(ids)
  {
    assert ids[0..k + 1] == ids[..k] + [ids[k]] && ids == ids[..k] + [ids[k]] + ids[k + 1..];
    FirstFront(ids[..k], ids[k], ids[k + 1..]);
  }

  /** The stream that a pass of one visit serves, for every index. */
  lemma SingleRest(s: Streams, continues: nat -> bool, other: nat)
    requires Valid(s) && Single(continues) && other in s.streams && !Special(other)
    ensures s.openStreams != [] && Rest(s, continues) == [First(Rotated(s.openStreams, s.roundRobinIndex))]
  {
    assert other in s.openStreams && 0 <= s.roundRobinIndex <= |s.openStreams|;
    assert Rest(s, continues) == VisitFrom(s.openStreams, s.roundRobinIndex, 0, continues);
    hide Valid, Single, Rest, VisitFrom, First, Rotated;
    var r := Rotated(s.openStreams, s.roundRobinIndex);
    RotatedHas(s.openStreams, s.roundRobinIndex, other);
    var k :| 0 <= k < |r| && r[k] == other;
    SingleVisit(s.openStreams, s.roundRobinIndex, 0, continues, k);
    FirstUpTo(r, k);
  }

  lemma RotatedInside(ids: seq<nat>, k: nat)
    requires k < |ids|
    ensures Rotated(Rotated(ids, k), 1) == if k + 1 < |ids| then Rotated(ids, k + 1) else Rotated(ids, 0)
  {
    RotatedTwice(ids, k, 1);
    RotatedFull(ids);
    hide Rotated;
  }

  /** The index after one visit. */
  function Next(k: nat, n: nat): (r: nat)
    requires k <= n && 0 < n
    ensures r < n
  {
    if k + 1 < n then k + 1 else if k + 1 == n || n == 1 then 0 else 1
  }

  lemma NextIs(k: nat, n: nat)
    requires k <= n && 0 < n
    ensures Advance(k, 1, n) == Next(k, n)
  {
    hide Advance;
    AdvanceIs(k, 1, n);
  }

  lemma RotatedStep(ids: seq<nat>, k: nat)
    requires ids != [] && k <= |ids|
    ensures Rotated(ids, Next(k, |ids|)) == Rotated(Rotated(ids, k), 1)
  {
    hide Rotated;
    if k < |ids| {
      RotatedInside(ids, k);
    } else {
      RotatedFull(ids);
      RotatedInside(ids, 0);
    }
  }

  /** Reading from the index after one visit is reading from one position further on. */
  lemma RotatedNext(s: Streams, continues: nat -> bool)
    requires Valid(s) && s.openStreams != [] && |Rest(s, continues)| == 1
    ensures var ids, k, k' := s.openStreams, s.roundRobinIndex, IndexAfter(s, continues);
            0 <= k' <= |ids| && Rotated(ids, k') == Rotated(Rotated(ids, k), 1)
  {
    hide Rotated, Rest, Advance, Next, Distinct, Odd, Even;
    NextIs(s.roundRobinIndex, |s.openStreams|);
    RotatedStep(s.openStreams, s.roundRobinIndex);
  }

  lemma RotatedFull(ids: seq<nat>)
    ensures Rotated(ids, |ids|) == Rotated(ids, 0) == ids
  {
  }

  /** The streams that as many passes as given serve, from a list read from its beginning. */
  function Firsts(ids: seq<nat>, n: nat): (r: seq<nat>)
    requires ids != []
    ensures |r| == n
    decreases n
  {
    if n == 0 then [] else [First(ids)] + Firsts(Rotated(ids, 1), n - 1)
  }

  ghost predicate AllSingle(passes: seq<nat -> bool>) {
    forall i :: 0 <= i < |passes| ==> Single(passes[i])
  }

  lemma AllSingleTail(passes: seq<nat -> bool>)
    requires AllSingle(passes) && passes != []
    ensures Single(passes[0]) && AllSingle(passes[1..])
  {
    hide Single;
    assert forall i :: 0 <= i < |passes| - 1 ==> passes[1..][i] == passes[i + 1];
  }

  /** A pass of one visit, from a list with another stream. */
  lemma SinglePass(s: Streams, continues: nat -> bool, other: nat)
    requires Valid(s) && Single(continues) && other in s.streams && !Special(other)
    ensures var s', ids, k := Pass(s, continues), s.openStreams, s.roundRobinIndex;
            && ids != [] && 0 <= k <= |ids| && 0 <= s'.roundRobinIndex <= |ids| && Valid(s')
            && Rest(s, continues) == [First(Rotated(ids, k))]
            && Rotated(ids, s'.roundRobinIndex) == Rotated(Rotated(ids, k), 1)
  {
    SingleRest(s, continues, other);
    PassValid(s, continues);
    RotatedNext(s, continues);
    hide Rest, IndexAfter, Single, First, Rotated;
  }

  lemma OpenSome(s: Streams, other: nat)
    requires Valid(s) && other in s.streams
    ensures s.openStreams != [] && 0 <= s.roundRobinIndex <= |s.openStreams|
  {
    assert other in s.openStreams;
  }

  lemma {:induction false} SingleServed(s: Streams, passes: seq<nat -> bool>, other: nat)
    requires Valid(s) && other in s.streams && !Special(other) && AllSingle(passes)
    ensures s.openStreams != [] && 0 <= s.roundRobinIndex <= |s.openStreams|
    ensures Served(s, passes) == Firsts(Rotated(s.openStreams, s.roundRobinIndex), |passes|)
    decreases |passes|
  {
    hide Valid, Rest, IndexAfter, Single, AllSingle, First, Rotated;
    OpenSome(s, other);
    if passes != [] {
      AllSingleTail(passes);
      SinglePass(s, passes[0], other);
      SingleServed(Pass(s, passes[0]), passes[1..], other);
    }
  }

  // ---- Shares ----

  /** How many of the streams 1 and 3 end the list. */
  function TrailingSpecials(ids: seq<nat>): nat {
    if ids == [] || !Special(ids[|ids| - 1]) then 0 else 1 + TrailingSpecials(ids[..|ids| - 1])
  }

  /** How many of the streams 1 and 3 lie directly in front of position p, with wrap-around. */
  function SpecialsBefore(ids: seq<nat>, p: nat): nat
    requires p < |ids|
  {
    TrailingSpecials(ids[p + 1..] + ids[..p])
  }

  lemma {:induction false} RotatedTwice(ids: seq<nat>, a: nat, b: nat)
    requires a + b <= |ids|
    ensures Rotated(Rotated(ids, a), b) == Rotated(ids, a + b)
  {
  }

  lemma {:induction false} FirstsAt(ids: seq<nat>, n: nat, d: nat)
    requires d < n <= |ids|
    ensures Firsts(ids, n)[d] == First(Rotated(ids, d))
    decreases n
  {
    hide First;
    if d > 0 {
      FirstsAt(Rotated(ids, 1), n - 1, d - 1);
      RotatedTwice(ids, 1, d - 1);
      hide Rotated;
    } else {
      assert Rotated(ids, 0) == ids;
    }
  }

  /** Position d of a list of n elements that is read from position k on. */
  function Turn(n: nat, k: nat, d: nat): (r: nat)
    requires k <= n && d < n
    ensures r < n
  {
    if k + d < n then k + d else k + d - n
  }

  lemma FirstsShiftAt(ids: seq<nat>, k: nat, d: nat)
    requires k <= |ids| && d < |ids|
    ensures Firsts(Rotated(ids, k), |ids|)[d] == Firsts(ids, |ids|)[Turn(|ids|, k, d)]
  {
    hide First, Firsts, Rotated, Turn;
    FirstsAt(Rotated(ids, k), |ids|, d);
    FirstsAt(ids, |ids|, Turn(|ids|, k, d));
    RotatedOnce(ids, k, d);
  }

  /** A whole round serves the same streams wherever it begins. */
  lemma FirstsShift(ids: seq<nat>, k: nat)
    requires ids != [] && k <= |ids|
    ensures Firsts(Rotated(ids, k), |ids|) == Rotated(Firsts(ids, |ids|), k)
  {
    hide Firsts, Rotated, Turn;
    var served := Firsts(ids, |ids|);
    forall d | 0 <= d < |ids|
      ensures Firsts(Rotated(ids, k), |ids|)[d] == Rotated(served, k)[d]
    {
      FirstsShiftAt(ids, k, d);
      RotatedAt(served, k, d);
    }
  }

  /** Two rotations are one. */
  lemma RotatedOnce(ids: seq<nat>, a: nat, b: nat)
    requires a <= |ids| && b < |ids|
    ensures Rotated(Rotated(ids, a), b) == Rotated(ids, Turn(|ids|, a, b))
  {
    hide Rotated;
    if a + b < |ids| {
      RotatedTwice(ids, a, b);
    } else {
      RotatedAround(ids, a, b);
    }
  }

  lemma RotatedAt(ids: seq<nat>, k: nat, d: nat)
    requires k <= |ids| && d < |ids|
    ensures Rotated(ids, k)[d] == ids[Turn(|ids|, k, d)]
  {
  }

  lemma RoundCounts(ids: seq<nat>, k: nat)
    requires ids != [] && k <= |ids|
    ensures multiset(Firsts(Rotated(ids, k), |ids|)) == multiset(Firsts(ids, |ids|))
  {
    hide Firsts, Rotated;
    FirstsShift(ids, k);
    RotatedCounts(Firsts(ids, |ids|), k);
  }

  lemma RotatedAround(ids: seq<nat>, a: nat, b: nat)
    requires a <= |ids| && b <= |ids| && a + b >= |ids|
    ensures Rotated(Rotated(ids, a), b) == Rotated(ids, a + b - |ids|)
  {
  }

  lemma RotatedCounts(ids: seq<nat>, k: nat)
    requires k <= |ids|
    ensures multiset(Rotated(ids, k)) == multiset(ids)
  {
    assert ids == ids[..k] + ids[k..];
  }

  /** In a list that ends with x, exactly the positions from the specials in front of x on find x. */
  lemma {:induction false} FirstIsLast(front: seq<nat>, x: nat, back: seq<nat>)
    requires !Special(x) && x !in front
    ensures First(front + [x] + back) == x <==> |front| <= TrailingSpecials(front)
    decreases |front|
  {
    TrailingBound(front);
    if front == [] {
      assert front + [x] + back == [x] + back;
    } else {
      var ids := front + [x] + back;
      assert ids[0] == front[0] && ids[1..] == front[1..] + [x] + back;
      TrailingBound(front[1..]);
      TrailingFront(front);
      FirstIsLast(front[1..], x, back);
      hide TrailingSpecials;
    }
  }

  lemma {:induction false} TrailingBound(ids: seq<nat>)
    ensures TrailingSpecials(ids) <= |ids|
    decreases |ids|
  {
    if ids != [] {
      TrailingBound(ids[..|ids| - 1]);
    }
  }

  /** All of a list are specials if the first one and all of the rest are. */
  lemma {:induction false} TrailingFront(ids: seq<nat>)
    requires ids != []
    ensures TrailingSpecials(ids) == |ids| <==> Special(ids[0]) && TrailingSpecials(ids[1..]) == |ids| - 1
    decreases |ids|
  {
    TrailingBound(ids);
    TrailingBound(ids[1..]);
    if |ids| > 1 {
      var n := |ids| - 1;
      TrailingBound(ids[..n]);
      TrailingBound(ids[1..][..n - 1]);
      TrailingFront(ids[..n]);
      assert ids[..n][1..] == ids[1..][..n - 1];
    }
  }

  /** Dropping from the front does not change how many specials end the list, as long as these stay. */
  lemma {:induction false} TrailingSuffix(ids: seq<nat>, d: nat)
    requires d <= |ids|
    ensures TrailingSpecials(ids[d..]) == Min(TrailingSpecials(ids), |ids| - d)
    decreases |ids|
  {
    TrailingBound(ids);
    if d < |ids| {
      var n := |ids| - 1;
      assert ids[d..][..n - d] == ids[..n][d..];
      TrailingBound(ids[..n]);
      TrailingSuffix(ids[..n], d);
    }
  }

  /** Which passes of a round serve x, when the round begins right behind x. */
  lemma ServesLast(ids: seq<nat>, d: nat)
    requires d < |ids| && !Special(ids[|ids| - 1]) && ids[|ids| - 1] !in ids[..|ids| - 1]
    ensures First(Rotated(ids, d)) == ids[|ids| - 1] <==> |ids| - 1 - d <= TrailingSpecials(ids[..|ids| - 1])
  {
    var n := |ids| - 1;
    var front := ids[d..n];
    assert Rotated(ids, d) == front + [ids[n]] + ids[..d];
    FirstIsLast(front, ids[n], ids[..d]);
    assert front == ids[..n][d..];
    TrailingSuffix(ids[..n], d);
  }

  lemma {:induction false} CountAll(s: seq<nat>, x: nat)
    requires forall i :: 0 <= i < |s| ==> s[i] == x
    ensures multiset(s)[x] == |s|
    decreases |s|
  {
    if s != [] {
      assert s == [s[0]] + s[1..];
      CountAll(s[1..], x);
    }
  }

  lemma CountSuffix(s: seq<nat>, x: nat, m: nat)
    requires m <= |s| && forall d :: 0 <= d < |s| ==> (s[d] == x <==> m <= d)
    ensures multiset(s)[x] == |s| - m
  {
    assert s == s[..m] + s[m..];
    assert x !in s[..m];
    CountAll(s[m..], x);
  }

  /** The share of the last stream in the list. */
  lemma ShareOfLast(ids: seq<nat>)
    requires ids != [] && !Special(ids[|ids| - 1]) && ids[|ids| - 1] !in ids[..|ids| - 1]
    ensures multiset(Firsts(ids, |ids|))[ids[|ids| - 1]] == 1 + TrailingSpecials(ids[..|ids| - 1])
  {
    var n, x, t := |ids| - 1, ids[|ids| - 1], TrailingSpecials(ids[..|ids| - 1]);
    TrailingBound(ids[..n]);
    hide Firsts, TrailingSpecials, First, Rotated;
    forall d | 0 <= d < |ids|
      ensures Firsts(ids, |ids|)[d] == x <==> n - t <= d
    {
      FirstsAt(ids, |ids|, d);
      ServesLast(ids, d);
    }
    CountSuffix(Firsts(ids, |ids|), x, n - t);
  }

  lemma TurnedLast(ids: seq<nat>, p: nat)
    requires Distinct(ids) && p < |ids|
    ensures var turned := Rotated(ids, p + 1);
            && turned[|ids| - 1] == ids[p] && turned[..|ids| - 1] == ids[p + 1..] + ids[..p]
            && ids[p] !in turned[..|ids| - 1]
  {
  }

  /** The share of every stream, wherever the round begins. */
  lemma ShareOf(ids: seq<nat>, k: nat, p: nat)
    requires Distinct(ids) && k <= |ids| && p < |ids| && !Special(ids[p])
    ensures multiset(Firsts(Rotated(ids, k), |ids|))[ids[p]] == 1 + SpecialsBefore(ids, p)
  {
    hide Firsts, Rotated, TrailingSpecials;
    TurnedLast(ids, p);
    hide Distinct;
    RoundCounts(ids, k);
    RoundCounts(ids, p + 1);
    ShareOfLast(Rotated(ids, p + 1));
  }

  lemma OtherOpen(s: Streams, p: nat)
    requires Valid(s) && p < |s.openStreams|
    ensures s.openStreams[p] in s.streams && Distinct(s.openStreams)
  {
  }

  /** The share of every stream other than 1 and 3: over one pass for each open stream, each ended by its first visit,
      it is served once, and once more for each of the streams 1 and 3 directly in front of it in the list. */
  lemma ShareExactly(s: Streams, passes: seq<nat -> bool>, p: nat)
    requires Valid(s) && |passes| == |s.openStreams| && AllSingle(passes)
    requires p < |s.openStreams| && !Special(s.openStreams[p])
    ensures multiset(Served(s, passes))[s.openStreams[p]] == 1 + SpecialsBefore(s.openStreams, p)
  {
    hide Served, Firsts, Rotated, SpecialsBefore, Valid, AllSingle, Distinct;
    OtherOpen(s, p);
    SingleServed(s, passes, s.openStreams[p]);
    ShareOf(s.openStreams, s.roundRobinIndex, p);
  }

  /** All streams other than 1 and 3 are served equally often. */
  ghost predicate EqualShares(s: Streams, served: seq<nat>) {
    forall p, q :: 0 <= p < |s.openStreams| && 0 <= q < |s.openStreams|
                   && !Special(s.openStreams[p]) && !Special(s.openStreams[q]) ==>
      multiset(served)[s.openStreams[p]] == multiset(served)[s.openStreams[q]]
  }

  /** As many of the streams 1 and 3 lie directly in front of each of them. */
  ghost predicate EvenlySpread(ids: seq<nat>) {
    forall p, q :: 0 <= p < |ids| && 0 <= q < |ids| && !Special(ids[p]) && !Special(ids[q]) ==>
      SpecialsBefore(ids, p) == SpecialsBefore(ids, q)
  }

  /** The exact condition for equal shares. */
  lemma EvenShare(s: Streams, passes: seq<nat -> bool>)
    requires Valid(s) && |passes| == |s.openStreams| && AllSingle(passes)
    ensures EqualShares(s, Served(s, passes)) <==> EvenlySpread(s.openStreams)
  {
    forall p | 0 <= p < |s.openStreams| && !Special(s.openStreams[p])
      ensures multiset(Served(s, passes))[s.openStreams[p]] == 1 + SpecialsBefore(s.openStreams, p)
    {
      ShareExactly(s, passes, p);
    }
    hide Served, SpecialsBefore, Valid, AllSingle;
  }

  /** The client uses stream 7 first, which opens streams 1, 3, 5 and 7 on the server. */
  function FourStreams(): Streams {
    Run(NewStreams(true), Limits(100, 100), [PeerUses(7)])
  }

  lemma FourOpen()
    ensures var s := FourStreams();
            s.openStreams == [1, 3, 5, 7] && s.streams == {1, 3, 5, 7} && s.roundRobinIndex == 0
  {
    var s, limits := NewStreams(true), Limits(100, 100);
    assert Run(s, limits, [PeerUses(7)]) == Step(s, limits, PeerUses(7));
    var s1 := OpenRemote(s, limits, 1).0;
    var s3 := OpenRemote(s1, limits, 3).0;
    var s5 := OpenRemote(s3, limits, 5).0;
    assert OpenUpTo(s, limits, 1, 7) == OpenUpTo(s1, limits, 3, 7);
    assert OpenUpTo(s1, limits, 3, 7) == OpenUpTo(s3, limits, 5, 7);
    assert OpenUpTo(s3, limits, 5, 7) == OpenUpTo(s5, limits, 7, 7);
  }

  lemma FourValid()
    ensures Valid(FourStreams())
  {
    NewValid(true);
    RunValid(NewStreams(true), Limits(100, 100), [PeerUses(7)]);
    hide Valid, Run;
  }

  lemma FourFirsts()
    ensures Firsts([1, 3, 5, 7], 4) == [5, 5, 5, 7]
  {
    assert Rotated([1, 3, 5, 7], 1) == [3, 5, 7, 1] && Rotated([3, 5, 7, 1], 1) == [5, 7, 1, 3];
    assert Rotated([5, 7, 1, 3], 1) == [7, 1, 3, 5];
    assert First([3, 5, 7, 1]) == 5 && First([1, 3, 5, 7]) == 5;
  }

  /** Then stream 5 is served three times as often as stream 7. */
  lemma UnevenShare(passes: seq<nat -> bool>)
    requires |passes| == 4 && AllSingle(passes)
    ensures FourStreams().openStreams == [1, 3, 5, 7] && Served(FourStreams(), passes) == [5, 5, 5, 7]
    ensures !EqualShares(FourStreams(), Served(FourStreams(), passes))
  {
    var s := FourStreams();
    FourOpen();
    FourValid();
    hide FourStreams, Served, Firsts, Valid, AllSingle;
    SingleServed(s, passes, 5);
    assert Rotated(s.openStreams, 0) == s.openStreams;
    FourFirsts();
    assert multiset(Served(s, passes))[s.openStreams[2]] == 3 && multiset(Served(s, passes))[s.openStreams[3]] == 1;
  }
}

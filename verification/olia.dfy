/** The coupling terms of OLIA (getEpsilon in pstream/congestion/olia_sender.go). */
module OliaEpsilon {

  import opened Wire

  /** The largest number of paths: path numbers are bytes. */
  const MAX_PATHS: nat := 256

  /** What getEpsilon reads of a path: window in packets, smoothed round trip in nanoseconds, bytes between losses. */
  datatype PathView = PathView(cwnd: nat, rtt: nat, bytes: nat)

  datatype Epsilon = Epsilon(num: int, den: nat)

  /** The best path so far, with the square of its round trip. */
  datatype Best = Best(rtt: int, bytes: nat)

  /** The value of a signed 64-bit word. */
  function Signed(x: int): int {
    var m := x % WORD;
    if m < WORD / 2 then m else m - WORD
  }

  function Squared(rtt: nat): int {
    Signed(Product(rtt, rtt))
  }

  /** The comparison of two paths, in 64-bit arithmetic. */
  predicate Beats(p: PathView, best: Best) {
    Signed(Product(Signed(p.bytes), best.rtt)) >= Signed(Product(Signed(best.bytes), Squared(p.rtt)))
  }

  function Improve(p: PathView, best: Best): Best {
    if Beats(p, best) then Best(Squared(p.rtt), p.bytes) else best
  }

  /** Lines 165 to 172, for an order of the paths. */
  function BestOf(paths: map<nat, PathView>, order: seq<nat>): Best
    requires forall id :: id in order ==> id in paths
  {
    if order == [] then Best(0, 0)
    else Improve(paths[order[|order| - 1]], BestOf(paths, order[..|order| - 1]))
  }

  function MaxCwnd(paths: map<nat, PathView>, order: seq<nat>): nat
    requires forall id :: id in order ==> id in paths
  {
    if order == [] then 0
    else
      var m, c := MaxCwnd(paths, order[..|order| - 1]), paths[order[|order| - 1]].cwnd;
      if c > m then c else m
  }

  /** The paths with the largest window. */
  function Largest(paths: map<nat, PathView>, maxCwnd: nat): set<nat> {
    set id | id in paths && paths[id].cwnd == maxCwnd
  }

  /** The best paths without the largest window. */
  function Collected(paths: map<nat, PathView>, maxCwnd: nat, best: Best): set<nat> {
    set id | id in paths && paths[id].cwnd != maxCwnd && Beats(paths[id], best)
  }

  /** Lines 176 to 210: the counters are bytes. */
  function EpsilonOf(paths: map<nat, PathView>, maxCwnd: nat, best: Best, id: nat): Epsilon
    requires id in paths
  {
    var m := |Largest(paths, maxCwnd)| % 256;
    var b := |Collected(paths, maxCwnd, best)| % 256;
    if b == 0 then Epsilon(0, 1)
    else if paths[id].cwnd < maxCwnd && Beats(paths[id], best) then Epsilon(1, |paths| * b)
    else if paths[id].cwnd == maxCwnd then Epsilon(-1, |paths| * m)
    else Epsilon(0, 1)
  }

  // ---- Enumerations ----

  /** A sequence that names every element of a set once. */
  predicate Enumerates(order: seq<nat>, ids: set<nat>) {
    && (forall i, j :: 0 <= i < j < |order| ==> order[i] != order[j])
    && (set id | id in order) == ids
  }

  function Count(order: seq<nat>, s: set<nat>): nat {
    if order == [] then 0
    else Count(order[..|order| - 1], s) + if order[|order| - 1] in s then 1 else 0
  }

  lemma {:induction false} CountIs(order: seq<nat>, ids: set<nat>, s: set<nat>)
    requires Enumerates(order, ids) && s <= ids
    ensures Count(order, s) == |s|
    decreases |order|
  {
    if order == [] {
      assert s == {};
    } else {
      var n := |order| - 1;
      var x := order[n];
      assert order == order[..n] + [x];
      assert Enumerates(order[..n], ids - {x});
      CountIs(order[..n], ids - {x}, s - {x});
      CountWithout(order[..n], s, x);
      assert x in s ==> s == s - {x} + {x};
      assert x !in s ==> s - {x} == s;
    }
  }

  lemma {:induction false} CountWithout(order: seq<nat>, s: set<nat>, x: nat)
    requires x !in order
    ensures Count(order, s) == Count(order, s - {x})
    decreases |order|
  {
    if order != [] {
      CountWithout(order[..|order| - 1], s, x);
    }
  }

  lemma {:induction false} MaxCwndIs(paths: map<nat, PathView>, order: seq<nat>)
    requires forall id :: id in order ==> id in paths
    ensures forall id :: id in order ==> paths[id].cwnd <= MaxCwnd(paths, order)
    ensures order != [] ==> exists id :: id in order && paths[id].cwnd == MaxCwnd(paths, order)
    decreases |order|
  {
    if order != [] {
      var n := |order| - 1;
      assert order == order[..n] + [order[n]];
      MaxCwndIs(paths, order[..n]);
      if paths[order[n]].cwnd <= MaxCwnd(paths, order[..n]) && n > 0 {
        var id :| id in order[..n] && paths[id].cwnd == MaxCwnd(paths, order[..n]);
        assert id in order;
      } else {
        assert order[n] in order;
      }
    }
  }

  // ---- The sum ----

  /** The counters do not wrap where they are used. */
  lemma CountersFit(paths: map<nat, PathView>, maxCwnd: nat, best: Best, top: nat)
    requires 0 < |paths| <= MAX_PATHS && top in paths && paths[top].cwnd == maxCwnd
    ensures var l, c := Largest(paths, maxCwnd), Collected(paths, maxCwnd, best);
            && l !! c && 0 < |l| && |c| % 256 == |c| && (c != {} ==> |l| % 256 == |l|)
            && |l| + |c| <= |paths| == |paths.Keys|
  {
    hide Beats, Signed;
    var l, c := Largest(paths, maxCwnd), Collected(paths, maxCwnd, best);
    assert top in l;
    assert l + c <= paths.Keys;
    SubsetSize(l + c, paths.Keys);
    assert |l + c| == |l| + |c|;
    assert l != {};
  }

  lemma SubsetSize(a: set<nat>, b: set<nat>)
    requires a <= b
    ensures |a| <= |b|
  {
    assert b == a + (b - a);
  }

  function Value(e: Epsilon): real {
    if e.den == 0 then 0.0 else e.num as real / e.den as real
  }

  function SumOfEpsilons(paths: map<nat, PathView>, maxCwnd: nat, best: Best, order: seq<nat>): real
    requires forall id :: id in order ==> id in paths
  {
    if order == [] then 0.0
    else
      SumOfEpsilons(paths, maxCwnd, best, order[..|order| - 1])
      + Value(EpsilonOf(paths, maxCwnd, best, order[|order| - 1]))
  }

  function Scaled(n: nat, x: real): real {
    n as real * x
  }

  /** The sum in terms of the numbers of paths of the two kinds. */
  lemma {:induction false} SumIs(paths: map<nat, PathView>, maxCwnd: nat, best: Best, order: seq<nat>,
                                 up: real, down: real)
    requires forall id :: id in order ==> id in paths
    requires forall id :: id in paths ==> paths[id].cwnd <= maxCwnd
    requires |Collected(paths, maxCwnd, best)| % 256 != 0
    requires up == Value(Epsilon(1, |paths| * (|Collected(paths, maxCwnd, best)| % 256)))
    requires down == Value(Epsilon(-1, |paths| * (|Largest(paths, maxCwnd)| % 256)))
    ensures SumOfEpsilons(paths, maxCwnd, best, order) ==
            Scaled(Count(order, Collected(paths, maxCwnd, best)), up)
            + Scaled(Count(order, Largest(paths, maxCwnd)), down)
    decreases |order|
  {
    if order != [] {
      var n := |order| - 1;
      SumIs(paths, maxCwnd, best, order[..n], up, down);
      ScaledNext(Count(order[..n], Collected(paths, maxCwnd, best)), up);
      ScaledNext(Count(order[..n], Largest(paths, maxCwnd)), down);
      hide Scaled, Value, Beats;
      assert Value(Epsilon(0, 1)) == 0.0 by { ValueZero(); }
    } else {
      ScaledNext(0, up);
      ScaledNext(0, down);
    }
  }

  lemma ValueZero()
    ensures Value(Epsilon(0, 1)) == 0.0
  {
  }

  lemma ScaledNext(n: nat, x: real)
    ensures Scaled(n + 1, x) == Scaled(n, x) + x && Scaled(0, x) == 0.0
  {
  }

  lemma Shares(n: nat, k: nat)
    requires n > 0 && k > 0
    ensures n * k > 0
    ensures Scaled(k, Value(Epsilon(1, n * k))) == 1.0 / n as real
    ensures Scaled(k, Value(Epsilon(-1, n * k))) == -1.0 / n as real
  {
    assert (n * k) as real == n as real * k as real;
  }

  lemma SumNothing(paths: map<nat, PathView>, maxCwnd: nat, best: Best, order: seq<nat>)
    requires forall id :: id in order ==> id in paths
    requires |Collected(paths, maxCwnd, best)| % 256 == 0
    ensures SumOfEpsilons(paths, maxCwnd, best, order) == 0.0
    decreases |order|
  {
    if order != [] {
      SumNothing(paths, maxCwnd, best, order[..|order| - 1]);
    }
  }

  lemma SumToZero(paths: map<nat, PathView>, maxCwnd: nat, best: Best, top: nat, order: seq<nat>)
    requires 0 < |paths| <= MAX_PATHS && Enumerates(order, paths.Keys)
    requires forall id :: id in order ==> id in paths
    requires top in paths && paths[top].cwnd == maxCwnd && forall id :: id in paths ==> paths[id].cwnd <= maxCwnd
    ensures SumOfEpsilons(paths, maxCwnd, best, order) == 0.0
  {
    hide Scaled, Value, SumOfEpsilons, Count, Beats, Enumerates;
    var l, c := Largest(paths, maxCwnd), Collected(paths, maxCwnd, best);
    assert l <= paths.Keys && c <= paths.Keys;
    CountersFit(paths, maxCwnd, best, top);
    hide Largest, Collected;
    if |c| % 256 == 0 {
      SumNothing(paths, maxCwnd, best, order);
    } else {
      Shares(|paths|, |c|);
      Shares(|paths|, |l|);
      CountIs(order, paths.Keys, l);
      CountIs(order, paths.Keys, c);
      SumIs(paths, maxCwnd, best, order, Value(Epsilon(1, |paths| * |c|)), Value(Epsilon(-1, |paths| * |l|)));
    }
  }

  /** What one path gains the others lose: the terms of all paths add up to zero, for every order of the paths and
      whatever the comparison of paths yields. */
  lemma ZeroSum(paths: map<nat, PathView>, best: Best, order: seq<nat>, order': seq<nat>)
    requires 0 < |paths| <= MAX_PATHS && Enumerates(order, paths.Keys) && Enumerates(order', paths.Keys)
    ensures (forall id :: id in order ==> id in paths) && (forall id :: id in order' ==> id in paths)
    ensures SumOfEpsilons(paths, MaxCwnd(paths, order), best, order') == 0.0
  {
    hide SumOfEpsilons, MaxCwnd;
    MaxCwndIs(paths, order);
    assert order != [];
    var top :| top in order && paths[top].cwnd == MaxCwnd(paths, order);
    SumToZero(paths, MaxCwnd(paths, order), best, top, order');
  }

  /** The denominators are never zero and a term is negative exactly for the largest windows, positive exactly for the
      collected paths, unless no path is collected. */
  lemma EpsilonSigns(paths: map<nat, PathView>, best: Best, order: seq<nat>, id: nat)
    requires 0 < |paths| <= MAX_PATHS && Enumerates(order, paths.Keys) && id in paths
    requires forall x :: x in order ==> x in paths
    ensures var maxCwnd := MaxCwnd(paths, order);
            var e := EpsilonOf(paths, maxCwnd, best, id);
            && 0 < e.den <= |paths| * |paths|
            && (e.num == 1 <==> id in Collected(paths, maxCwnd, best))
            && (e.num == -1 <==> id in Largest(paths, maxCwnd) && Collected(paths, maxCwnd, best) != {})
            && -1 <= e.num <= 1
  {
    hide MaxCwnd, Beats;
    MaxCwndIs(paths, order);
    assert order != [] && id in order;
    var maxCwnd := MaxCwnd(paths, order);
    var top :| top in order && paths[top].cwnd == maxCwnd;
    CountersFit(paths, maxCwnd, best, top);
    var l, c := |Largest(paths, maxCwnd)|, |Collected(paths, maxCwnd, best)|;
    DenominatorFits(|paths|, l);
    if c > 0 {
      DenominatorFits(|paths|, c);
    }
  }

  lemma DenominatorFits(n: nat, k: nat)
    requires 0 < k <= n
    ensures 0 < n * k <= n * n && 1 <= n * n
  {
  }

  // ---- The best path ----

  /** Round trips are known and the products fit into 63 bits. */
  ghost predicate NoOverflow(paths: map<nat, PathView>) {
    forall i, j :: i in paths && j in paths ==>
                     && 0 < paths[i].rtt && Product(paths[i].rtt, paths[i].rtt) < WORD / 2 && paths[i].bytes < WORD / 2
                     && Product(paths[i].bytes, Product(paths[j].rtt, paths[j].rtt)) < WORD / 2
  }

  /** Path p has at least as many bytes between losses per squared round trip as path q. */
  predicate AtLeast(p: PathView, q: PathView) {
    Product(p.bytes, Product(q.rtt, q.rtt)) >= Product(q.bytes, Product(p.rtt, p.rtt))
  }

  lemma ProductSign(x: nat, y: nat)
    ensures Product(x, y) >= 0 && (x > 0 && y > 0 ==> Product(x, y) > 0)
  {
  }

  lemma BeatsExact(paths: map<nat, PathView>, i: nat, j: nat)
    requires NoOverflow(paths) && i in paths && j in paths
    ensures Beats(paths[i], Best(Squared(paths[j].rtt), paths[j].bytes)) <==> AtLeast(paths[i], paths[j])
  {
    hide Product, Beats, AtLeast, Squared;
    BeatsWhenSmall(paths[i], paths[j]);
  }

  lemma BeatsWhenSmall(p: PathView, q: PathView)
    requires Product(p.rtt, p.rtt) < WORD / 2 && Product(q.rtt, q.rtt) < WORD / 2
    requires p.bytes < WORD / 2 && q.bytes < WORD / 2
    requires Product(p.bytes, Product(q.rtt, q.rtt)) < WORD / 2 && Product(q.bytes, Product(p.rtt, p.rtt)) < WORD / 2
    ensures Beats(p, Best(Squared(q.rtt), q.bytes)) <==> AtLeast(p, q)
  {
    hide Product, Signed;
    ProductSign(p.rtt, p.rtt);
    ProductSign(q.rtt, q.rtt);
    ProductOfSquare(p, q);
    ProductOfSquare(q, p);
    SignedSmall(Product(p.rtt, p.rtt));
    SignedSmall(Product(q.rtt, q.rtt));
    SignedSmall(p.bytes);
    SignedSmall(q.bytes);
    SignedSmall(Product(p.bytes, Product(q.rtt, q.rtt)));
    SignedSmall(Product(q.bytes, Product(p.rtt, p.rtt)));
  }

  lemma SignedSmall(x: int)
    requires 0 <= x < WORD / 2
    ensures Signed(x) == x
  {
  }

  lemma ProductOfSquare(p: PathView, q: PathView)
    ensures Product(p.bytes, Product(q.rtt, q.rtt)) >= 0
  {
    ProductSign(q.rtt, q.rtt);
    ProductSign(p.bytes, Product(q.rtt, q.rtt));
  }

  /** Comparing ratios is transitive. */
  lemma AtLeastTransitive(p: PathView, q: PathView, r: PathView)
    requires AtLeast(p, q) && AtLeast(q, r) && q.rtt > 0
    ensures AtLeast(p, r)
  {
    ProductSign(q.rtt, q.rtt);
    ProductSign(p.rtt, p.rtt);
    ProductSign(r.rtt, r.rtt);
    CrossMultiply(p.bytes, p.rtt * p.rtt, q.bytes, q.rtt * q.rtt, r.bytes, r.rtt * r.rtt);
  }

  lemma CrossMultiply(a: nat, b: nat, c: nat, d: nat, e: nat, f: nat)
    requires a * d >= c * b && c * f >= e * d && d > 0
    ensures a * f >= e * b
  {
    assert a * d * f >= c * b * f by { Multiply(a * d, c * b, f); }
    assert c * f * b >= e * d * b by { Multiply(c * f, e * d, b); }
    assert c * b * f == c * f * b;
    assert a * d * f == d * (a * f) && e * d * b == d * (e * b);
    Cancel(d, a * f, e * b);
  }

  lemma Multiply(x: int, y: int, z: nat)
    requires x >= y
    ensures x * z >= y * z
  {
  }

  lemma Cancel(d: nat, x: int, y: int)
    requires d > 0 && d * x >= d * y
    ensures x >= y
  {
    if x < y {
      Multiply(y, x + 1, d);
    }
  }

  /** The loop finds a path with the largest ratio. */
  lemma {:induction false} BestIsBest(paths: map<nat, PathView>, order: seq<nat>) returns (q: nat)
    requires NoOverflow(paths) && order != [] && forall id :: id in order ==> id in paths
    ensures q in order && BestOf(paths, order) == Best(Squared(paths[q].rtt), paths[q].bytes)
    ensures forall id :: id in order ==> AtLeast(paths[q], paths[id])
    decreases |order|
  {
    hide Beats, AtLeast, Squared;
    var n := |order| - 1;
    var x := order[n];
    assert order == order[..n] + [x];
    BeatsExact(paths, x, x);
    AtLeastSelf(paths[x]);
    if n == 0 {
      q := x;
      FirstBeats(paths[x]);
      assert BestOf(paths, order[..0]) == Best(0, 0);
    } else {
      var q' := BestIsBest(paths, order[..n]);
      BeatsExact(paths, x, q');
      if AtLeast(paths[x], paths[q']) {
        q := x;
        forall id | id in order[..n]
          ensures AtLeast(paths[x], paths[id])
        {
          AtLeastTransitive(paths[x], paths[q'], paths[id]);
        }
      } else {
        q := q';
        AtLeastTotal(paths[x], paths[q']);
      }
    }
  }

  lemma AtLeastSelf(p: PathView)
    ensures AtLeast(p, p)
  {
  }

  lemma AtLeastTotal(p: PathView, q: PathView)
    ensures AtLeast(p, q) || AtLeast(q, p)
  {
  }

  /** The first path always replaces the initial value. */
  lemma FirstBeats(p: PathView)
    ensures Beats(p, Best(0, 0))
  {
  }

  /** Without overflow, the collected paths are those with the largest ratio whose window is not the largest. */
  lemma CollectedMeans(paths: map<nat, PathView>, order: seq<nat>, maxCwnd: nat, id: nat)
    requires NoOverflow(paths) && Enumerates(order, paths.Keys) && id in paths
    requires forall x :: x in order ==> x in paths
    ensures id in Collected(paths, maxCwnd, BestOf(paths, order)) <==>
            paths[id].cwnd != maxCwnd && forall x :: x in paths ==> AtLeast(paths[id], paths[x])
  {
    assert id in order;
    var q := BestIsBest(paths, order);
    BeatsExact(paths, id, q);
    hide Beats, AtLeast, Squared, BestOf;
    if AtLeast(paths[id], paths[q]) {
      forall x | x in paths
        ensures AtLeast(paths[id], paths[x])
      {
        assert x in order;
        AtLeastTransitive(paths[id], paths[q], paths[x]);
      }
    }
  }
}

/** The window of a path under OLIA (pstream/congestion/olia.go, pstream/congestion/olia_sender.go) as functions. */
module OliaSpec {

  import opened Wire
  import opened OliaEpsilon

  const SCALE: nat := 1024
  const MSS: nat := 1460
  const MAX_BURST: nat := 3 * MSS
  const MIN_WINDOW: nat := 2

  /** The value of an unsigned 64-bit word. */
  function Word(x: int): nat {
    x % WORD
  }

  // ---- The counters of one path ----

  /** loss1, loss2, loss3: bytes acknowledged up to the loss before the last one, the last one, and now. */
  datatype Olia = Olia(loss1: nat, loss2: nat, loss3: nat, epsilon: Epsilon, count: int)

  const NEW_OLIA := Olia(0, 0, 0, Epsilon(0, 1), 0)

  function BytesBetweenLosses(o: Olia): nat {
    Max(Word(o.loss3 - o.loss2), Word(o.loss2 - o.loss1))
  }

  /** The change of the fractional counter for one ACK, in 64-bit arithmetic. */
  function Change(e: Epsilon, cwnd: nat, rate: nat, cwndScaled: nat): int {
    var incDen := Max(Word(e.den * cwnd * rate), 1);
    var square := Word(e.den * cwndScaled * cwndScaled);
    if e.num == -1 then
      if square < rate then -Signed(Word((rate - square) * SCALE) / incDen)
      else Signed(Word((square - rate) * SCALE) / incDen)
    else Signed(Word(Word(Word(e.num) * rate + square) * SCALE) / incDen)
  }

  /** Adds a change to the counter and carries over to the window. */
  function Carry(o: Olia, cwnd: nat, change: int): (Olia, nat) {
    var count := Signed(o.count + change);
    if count >= SCALE - 1 then (o.(count := 0), cwnd + 1)
    else if count <= 1 - SCALE then (o.(count := 0), Max(1, Word(cwnd - 1)))
    else (o.(count := count), cwnd)
  }

  function AfterAck(o: Olia, cwnd: nat, rate: nat, cwndScaled: nat): (Olia, nat) {
    Carry(o, cwnd, Change(o.epsilon, cwnd, rate, cwndScaled))
  }

  predicate ValidOlia(o: Olia) {
    o.loss1 <= o.loss2 <= o.loss3 && 1 - SCALE < o.count < SCALE - 1
  }

  /** The counter stays inside its bounds and the window moves by one packet at most, never below one. */
  lemma AfterAckBounds(o: Olia, cwnd: nat, rate: nat, cwndScaled: nat)
    requires ValidOlia(o) && 1 <= cwnd < WORD
    ensures var (o', cwnd') := AfterAck(o, cwnd, rate, cwndScaled);
            && ValidOlia(o') && 1 <= cwnd' && cwnd - 1 <= cwnd' <= cwnd + 1
            && (cwnd' != cwnd ==> o'.count == 0)
  {
    hide Change, Signed;
  }

  // ---- One sender ----

  datatype Sender = Sender(
    olia: Olia, rtt: nat,
    cwnd: nat, ssthresh: nat, maxCwnd: nat, initialCwnd: nat, initialMaxCwnd: nat, connections: nat,
    largestSent: nat, largestAcked: nat, largestSentAtLastCutback: nat,
    lastCutbackExitedSlowstart: bool, slowStartLargeReduction: bool,
    slowstartPacketsLost: nat, slowstartBytesLost: nat)

  function NewSender(initialCwnd: nat, initialMaxCwnd: nat): Sender {
    Sender(NEW_OLIA, 0, initialCwnd, initialMaxCwnd, initialMaxCwnd, initialCwnd, initialMaxCwnd, 2,
           0, 0, 0, false, false, 0, 0)
  }

  predicate InSlowStart(s: Sender) {
    s.cwnd * MSS < s.ssthresh * MSS
  }

  predicate InRecovery(s: Sender) {
    s.largestAcked <= s.largestSentAtLastCutback && s.largestAcked != 0
  }

  predicate IsCwndLimited(s: Sender, bytesInFlight: nat) {
    var window := s.cwnd * MSS;
    || bytesInFlight >= window
    || (InSlowStart(s) && bytesInFlight > window / 2)
    || window - bytesInFlight <= MAX_BURST
  }

  /** The window after the backoff of one among several emulated connections: the factor is (n - 1 + 0.7) / n. */
  function Backoff(cwnd: nat, connections: nat): nat
    requires connections >= 1
  {
    Quotient(Product(cwnd, 10 * connections - 3), 10 * connections)
  }

  /** Truncated division of a natural number. */
  function Quotient(x: int, m: nat): nat
    requires m > 0
  {
    if x < 0 then 0 else QuotientSign(x, m); x / m
  }

  lemma QuotientSign(x: nat, m: nat)
    requires m > 0
    ensures x / m >= 0
  {
  }

  function OnPacketSent(s: Sender, number: nat, retransmittable: bool): Sender {
    if retransmittable then s.(largestSent := number) else s
  }

  function OnPacketLost(s: Sender, number: nat, lostBytes: nat): Sender
    requires s.connections >= 1 && s.cwnd >= 1
  {
    if number <= s.largestSentAtLastCutback then
      if !s.lastCutbackExitedSlowstart then s
      else
        var packets, bytes := s.slowstartPacketsLost + 1, s.slowstartBytesLost + lostBytes;
        var s1 := s.(slowstartPacketsLost := packets, slowstartBytesLost := bytes);
        if !s.slowStartLargeReduction then s1
        else
          var cwnd := if packets == 1 || bytes / MSS > (bytes - lostBytes) / MSS then Max(s.cwnd - 1, MIN_WINDOW)
                      else s.cwnd;
          s1.(cwnd := cwnd, ssthresh := cwnd)
    else
      var slow := InSlowStart(s);
      var cwnd := Max(if s.slowStartLargeReduction && slow then s.cwnd - 1 else Backoff(s.cwnd, s.connections),
                      MIN_WINDOW);
      s.(lastCutbackExitedSlowstart := slow,
         slowstartPacketsLost := if slow then s.slowstartPacketsLost + 1 else s.slowstartPacketsLost,
         olia := s.olia.(loss1 := s.olia.loss2, loss2 := s.olia.loss3),
         cwnd := cwnd, ssthresh := cwnd, largestSentAtLastCutback := s.largestSent)
  }

  function OnRetransmissionTimeout(s: Sender, packetsRetransmitted: bool): Sender {
    var s1 := s.(largestSentAtLastCutback := 0);
    if !packetsRetransmitted then s1
    else s1.(olia := NEW_OLIA, ssthresh := s.cwnd / 2, cwnd := MIN_WINDOW)
  }

  function OnConnectionMigration(s: Sender): Sender {
    s.(largestSent := 0, largestAcked := 0, largestSentAtLastCutback := 0, lastCutbackExitedSlowstart := false,
       olia := NEW_OLIA, cwnd := s.initialCwnd, ssthresh := s.initialMaxCwnd, maxCwnd := s.initialMaxCwnd)
  }

  predicate ValidConfig(initialCwnd: nat, initialMaxCwnd: nat) {
    1 <= initialCwnd <= initialMaxCwnd && MIN_WINDOW <= initialMaxCwnd < WORD - 1
  }

  predicate Valid(s: Sender) {
    && ValidOlia(s.olia)
    && 1 <= s.cwnd <= s.maxCwnd == s.initialMaxCwnd
    && ValidConfig(s.initialCwnd, s.initialMaxCwnd) && s.connections >= 1
  }

  lemma BackoffBound(cwnd: nat, connections: nat)
    requires connections >= 1
    ensures Backoff(cwnd, connections) <= cwnd
  {
    var m := 10 * connections;
    ProductOrder(cwnd, m - 3, m);
    Divide(Product(cwnd, m - 3), cwnd, m);
  }

  lemma ProductOrder(x: nat, y: int, z: int)
    requires y <= z
    ensures Product(x, y) <= Product(x, z)
  {
  }

  lemma Divide(x: int, y: nat, m: nat)
    requires m > 0 && x <= Product(y, m)
    ensures Quotient(x, m) <= y
  {
    if x >= 0 && x / m > y {
      Larger(x / m, y + 1, m);
    }
  }

  lemma Larger(a: nat, b: nat, m: nat)
    requires a >= b
    ensures a * m >= b * m
  {
  }

  lemma LostValid(s: Sender, number: nat, lostBytes: nat)
    requires Valid(s)
    ensures Valid(OnPacketLost(s, number, lostBytes))
  {
    BackoffBound(s.cwnd, s.connections);
    hide Backoff;
  }

  /** A loss outside of the last cutback makes the window strictly smaller, down to two packets; further losses among
      the packets sent before the cutback do not cut it again, except by one packet per loss with the large
      reduction. */
  lemma LossCuts(s: Sender, number: nat, lostBytes: nat)
    requires Valid(s)
    ensures var s' := OnPacketLost(s, number, lostBytes);
            if number > s.largestSentAtLastCutback then
              && s'.cwnd <= Max(s.cwnd - 1, MIN_WINDOW) && s'.ssthresh == s'.cwnd
              && s'.largestSentAtLastCutback == s.largestSent
            else
              && s'.largestSentAtLastCutback == s.largestSentAtLastCutback && s'.olia == s.olia
              && (!s.slowStartLargeReduction ==> s'.cwnd == s.cwnd)
              && (s'.cwnd == s.cwnd || s'.cwnd == Max(s.cwnd - 1, MIN_WINDOW))
  {
    BackoffShrinks(s.cwnd, s.connections);
    hide Backoff;
  }

  lemma BackoffShrinks(cwnd: nat, connections: nat)
    requires connections >= 1 && cwnd >= 1
    ensures Backoff(cwnd, connections) <= cwnd - 1
  {
    var m := 10 * connections;
    Shrink(cwnd, m);
    BackoffBelow(Product(cwnd, m - 3), cwnd, m);
  }

  lemma Shrink(cwnd: nat, m: nat)
    requires cwnd >= 1
    ensures Product(cwnd, m - 3) <= Product(cwnd, m) - 3
  {
  }

  lemma BackoffBelow(x: int, y: nat, m: nat)
    requires m > 0 && x < Product(y, m) && y >= 1
    ensures Quotient(x, m) <= y - 1
  {
    if x >= 0 && x / m > y - 1 {
      Larger(x / m, y, m);
    }
  }

  lemma TimeoutValid(s: Sender, packetsRetransmitted: bool)
    requires Valid(s)
    ensures Valid(OnRetransmissionTimeout(s, packetsRetransmitted))
  {
  }

  lemma MigrationValid(s: Sender)
    requires Valid(s)
    ensures Valid(OnConnectionMigration(s))
  {
  }

  // ---- Coupled senders ----

  /** The senders of all paths of a connection. */
  type Senders = map<nat, Sender>

  function ViewOf(s: Sender): PathView {
    PathView(s.cwnd, s.rtt, BytesBetweenLosses(s.olia))
  }

  function Views(senders: Senders): map<nat, PathView> {
    map id | id in senders :: ViewOf(senders[id])
  }

  /** Go visits the map of senders in any order, in each of its loops. */
  datatype Orders = Orders(max: seq<nat>, best: seq<nat>, rate: seq<nat>)

  predicate ValidOrders(senders: Senders, orders: Orders) {
    && Enumerates(orders.max, senders.Keys) && Enumerates(orders.best, senders.Keys)
    && Enumerates(orders.rate, senders.Keys)
  }

  lemma EnumerationIn(order: seq<nat>, ids: set<nat>)
    requires Enumerates(order, ids)
    ensures forall id :: id in order <==> id in ids
  {
    forall id | id in order
      ensures id in ids
    {
      assert id in set x | x in order;
    }
  }

  function EpsilonFor(senders: Senders, orders: Orders, id: nat): Epsilon
    requires ValidOrders(senders, orders) && id in senders
  {
    EnumerationIn(orders.max, senders.Keys);
    EnumerationIn(orders.best, senders.Keys);
    var views := Views(senders);
    EpsilonOf(views, MaxCwnd(views, orders.max), BestOf(views, orders.best), id)
  }

  /** getEpsilon: new terms for all paths. */
  function WithEpsilons(senders: Senders, orders: Orders): (r: Senders)
    requires ValidOrders(senders, orders)
    ensures r.Keys == senders.Keys
  {
    map id | id in senders :: senders[id].(olia := senders[id].olia.(epsilon := EpsilonFor(senders, orders, id)))
  }

  /** The sum in getRate, for a round trip in nanoseconds. */
  function RateSum(senders: Senders, order: seq<nat>, rtt: nat): nat
    requires forall id :: id in order ==> id in senders
  {
    if order == [] then 1
    else
      var s := senders[order[|order| - 1]];
      var sum := RateSum(senders, order[..|order| - 1], rtt);
      if s.rtt == 0 then sum
      else Word(sum + Quotient(Word(Product(Word(s.cwnd * SCALE), rtt)), s.rtt))
  }

  function RateOf(senders: Senders, order: seq<nat>, rtt: nat): nat
    requires forall id :: id in order ==> id in senders
  {
    var sum := RateSum(senders, order, rtt);
    Word(Product(sum, sum))
  }

  /** Congestion avoidance: the coupled increase. */
  function Increase(senders: Senders, id: nat, orders: Orders): (r: Senders)
    requires id in senders && ValidOrders(senders, orders)
    ensures r.Keys == senders.Keys
  {
    var all := WithEpsilons(senders, orders);
    EnumerationIn(orders.rate, senders.Keys);
    var s := all[id];
    var (o, cwnd) := AfterAck(s.olia, s.cwnd, RateOf(all, orders.rate, s.rtt), Word(s.cwnd * SCALE));
    all[id := s.(olia := o, cwnd := Min(s.maxCwnd, cwnd))]
  }

  /** The counters that an ACK advances. */
  function Counted(s: Sender, number: nat, bytes: nat): Sender {
    var s1 := s.(largestAcked := Max(number, s.largestAcked));
    if InRecovery(s1) then s1 else s1.(olia := s1.olia.(loss3 := s1.olia.loss3 + bytes))
  }

  /** An ACK changes the window outside recovery, if the window is in use and not at its limit. */
  predicate Grows(s: Sender, bytesInFlight: nat) {
    !InRecovery(s) && IsCwndLimited(s, bytesInFlight) && s.cwnd < s.maxCwnd
  }

  function OnPacketAcked(senders: Senders, id: nat, number: nat, bytes: nat, bytesInFlight: nat, orders: Orders):
    (r: Senders)
    requires id in senders && ValidOrders(senders, orders)
    ensures r.Keys == senders.Keys
  {
    var s := Counted(senders[id], number, bytes);
    var senders1 := senders[id := s];
    assert senders1.Keys == senders.Keys;
    if !Grows(s, bytesInFlight) then senders1
    else if InSlowStart(s) then senders1[id := s.(cwnd := s.cwnd + 1)]
    else Increase(senders1, id, orders)
  }

  predicate AllValid(senders: Senders) {
    forall id :: id in senders ==> Valid(senders[id])
  }

  lemma EpsilonsKeep(senders: Senders, orders: Orders)
    requires AllValid(senders) && ValidOrders(senders, orders)
    ensures AllValid(WithEpsilons(senders, orders))
  {
    hide EpsilonFor, ValidConfig;
  }

  /** One ACK keeps all windows within bounds, moves the window of its path by one packet at most and leaves the windows
      of the others alone. */
  lemma AckedValid(senders: Senders, id: nat, number: nat, bytes: nat, bytesInFlight: nat, orders: Orders)
    requires AllValid(senders) && id in senders && ValidOrders(senders, orders)
    ensures var r := OnPacketAcked(senders, id, number, bytes, bytesInFlight, orders);
            && AllValid(r)
            && senders[id].cwnd - 1 <= r[id].cwnd <= senders[id].cwnd + 1
            && (forall x :: x in senders && x != id ==> r[x].cwnd == senders[x].cwnd)
  {
    var s := Counted(senders[id], number, bytes);
    var senders1 := senders[id := s];
    CountedValid(senders[id], number, bytes);
    assert AllValid(senders1) && senders1.Keys == senders.Keys;
    hide Counted, Increase, ValidOrders, InSlowStart, Valid;
    if Grows(s, bytesInFlight) {
      if InSlowStart(s) {
        GrownValid(s, bytesInFlight);
      } else {
        IncreaseValid(senders1, id, orders);
      }
    }
    hide Grows;
  }

  lemma CountedValid(s: Sender, number: nat, bytes: nat)
    requires Valid(s)
    ensures Valid(Counted(s, number, bytes)) && Counted(s, number, bytes).cwnd == s.cwnd
  {
  }

  lemma GrownValid(s: Sender, bytesInFlight: nat)
    requires Valid(s) && Grows(s, bytesInFlight)
    ensures Valid(s.(cwnd := s.cwnd + 1))
  {
  }

  /** All windows are within bounds, that of one path moved by one packet at most and the others did not move. */
  ghost predicate MovesOne(senders: Senders, r: Senders, id: nat)
    requires id in senders && r.Keys == senders.Keys
  {
    && AllValid(r)
    && senders[id].cwnd - 1 <= r[id].cwnd <= senders[id].cwnd + 1
    && (forall x :: x in senders && x != id ==> r[x].cwnd == senders[x].cwnd)
  }

  lemma ReplacedOne(senders: Senders, all: Senders, id: nat, s: Sender)
    requires id in senders && all.Keys == senders.Keys && AllValid(all) && Valid(s)
    requires forall x :: x in senders ==> all[x].cwnd == senders[x].cwnd
    requires senders[id].cwnd - 1 <= s.cwnd <= senders[id].cwnd + 1
    ensures all[id := s].Keys == senders.Keys && MovesOne(senders, all[id := s], id)
  {
    hide Valid;
  }

  lemma IncreaseValid(senders: Senders, id: nat, orders: Orders)
    requires AllValid(senders) && id in senders && ValidOrders(senders, orders)
    ensures MovesOne(senders, Increase(senders, id, orders), id)
  {
    EnumerationIn(orders.rate, senders.Keys);
    EpsilonsKeep(senders, orders);
    EpsilonsWindows(senders, orders);
    hide EpsilonFor, AfterAck, RateOf, WithEpsilons, Valid, ValidOrders, Word, MovesOne;
    var all := WithEpsilons(senders, orders);
    var s := all[id];
    var rate := RateOf(all, orders.rate, s.rtt);
    MovedValid(s, rate, Word(s.cwnd * SCALE));
    var (o, cwnd) := AfterAck(s.olia, s.cwnd, rate, Word(s.cwnd * SCALE));
    ReplacedOne(senders, all, id, s.(olia := o, cwnd := Min(s.maxCwnd, cwnd)));
  }

  lemma EpsilonsWindows(senders: Senders, orders: Orders)
    requires ValidOrders(senders, orders)
    ensures forall id :: id in senders ==> WithEpsilons(senders, orders)[id].cwnd == senders[id].cwnd
  {
    hide EpsilonFor, ValidOrders;
  }

  /** One step of the window of one path. */
  lemma MovedValid(s: Sender, rate: nat, cwndScaled: nat)
    requires Valid(s)
    ensures var (o, cwnd) := AfterAck(s.olia, s.cwnd, rate, cwndScaled);
            var s' := s.(olia := o, cwnd := Min(s.maxCwnd, cwnd));
            Valid(s') && s.cwnd - 1 <= s'.cwnd <= s.cwnd + 1
  {
    hide AfterAck;
    AfterAckBounds(s.olia, s.cwnd, rate, cwndScaled);
  }

  // ---- Whole runs ----

  datatype Event =
    | Sent(id: nat, number: nat, retransmittable: bool)
    | Acked(id: nat, number: nat, bytes: nat, bytesInFlight: nat, orders: Orders)
    | Lost(id: nat, number: nat, bytes: nat)
    | TimedOut(id: nat, retransmitted: bool)
    | Migrated(id: nat)
    | LeftSlowStart(id: nat)
    | Measured(id: nat, rtt: nat)
    | Configured(id: nat, connections: int, largeReduction: bool)
    | Opened(id: nat, initialCwnd: nat, initialMaxCwnd: nat)

  function Step(senders: Senders, e: Event): Senders
    requires AllValid(senders)
  {
    if e.Opened? then
      if e.id < MAX_PATHS && ValidConfig(e.initialCwnd, e.initialMaxCwnd)
      then senders[e.id := NewSender(e.initialCwnd, e.initialMaxCwnd)] else senders
    else if e.id !in senders then senders
    else
      var s := senders[e.id];
      match e
      case Sent(id, number, retransmittable) => senders[id := OnPacketSent(s, number, retransmittable)]
      case Acked(id, number, bytes, bytesInFlight, orders) =>
        if ValidOrders(senders, orders) then OnPacketAcked(senders, id, number, bytes, bytesInFlight, orders)
        else senders
      case Lost(id, number, bytes) => senders[id := OnPacketLost(s, number, bytes)]
      case TimedOut(id, retransmitted) => senders[id := OnRetransmissionTimeout(s, retransmitted)]
      case Migrated(id) => senders[id := OnConnectionMigration(s)]
      case LeftSlowStart(id) => senders[id := s.(ssthresh := s.cwnd)]
      case Measured(id, rtt) => senders[id := s.(rtt := rtt)]
      case Configured(id, n, b) =>
        senders[id := s.(connections := if n > 1 then n else 1, slowStartLargeReduction := b)]
  }

  lemma StepValid(senders: Senders, e: Event)
    requires AllValid(senders)
    ensures AllValid(Step(senders, e))
  {
    if e.id in senders && !e.Opened? {
      var s := senders[e.id];
      hide OnPacketAcked, OnPacketLost, OnRetransmissionTimeout, OnConnectionMigration;
      match e
      case Acked(id, number, bytes, bytesInFlight, orders) =>
        if ValidOrders(senders, orders) {
          AckedValid(senders, id, number, bytes, bytesInFlight, orders);
        }
      case Lost(id, number, bytes) => LostValid(s, number, bytes);
      case TimedOut(id, retransmitted) => TimeoutValid(s, retransmitted);
      case Migrated(id) => MigrationValid(s);
      case _ =>
    }
  }

  ghost function Run(senders: Senders, events: seq<Event>): (r: Senders)
    requires AllValid(senders)
    ensures AllValid(r)
    decreases |events|
  {
    if events == [] then senders
    else
      StepValid(senders, events[0]);
      Run(Step(senders, events[0]), events[1..])
  }

  /** In every run of any number of coupled paths: every window stays between one packet and its limit, the counters of
      acknowledged bytes stay ordered, so that their differences do not wrap, and the fractional counter stays strictly
      inside its bounds. */
  lemma WindowsHold(events: seq<Event>, id: nat)
    ensures var r := Run(map[], events);
            id in r ==>
              && 1 <= r[id].cwnd <= r[id].maxCwnd
              && r[id].olia.loss1 <= r[id].olia.loss2 <= r[id].olia.loss3
              && (r[id].olia.loss3 < WORD ==>
                    BytesBetweenLosses(r[id].olia)
                    == Max(r[id].olia.loss3 - r[id].olia.loss2, r[id].olia.loss2 - r[id].olia.loss1))
              && 1 - SCALE < r[id].olia.count < SCALE - 1
  {
    var r := Run(map[], events);
    hide Run, Valid, BytesBetweenLosses;
    if id in r {
      assert Valid(r[id]);
      SenderHolds(r[id]);
    }
  }

  lemma SenderHolds(s: Sender)
    requires Valid(s)
    ensures 1 <= s.cwnd <= s.maxCwnd && s.olia.loss1 <= s.olia.loss2 <= s.olia.loss3
    ensures s.olia.loss3 < WORD ==>
              BytesBetweenLosses(s.olia) == Max(s.olia.loss3 - s.olia.loss2, s.olia.loss2 - s.olia.loss1)
    ensures 1 - SCALE < s.olia.count < SCALE - 1
  {
  }

  /** The terms of the senders themselves. */
  function SumOfTerms(senders: Senders, order: seq<nat>): real
    requires forall id :: id in order ==> id in senders
  {
    if order == [] then 0.0
    else SumOfTerms(senders, order[..|order| - 1]) + Value(senders[order[|order| - 1]].olia.epsilon)
  }

  /** After getEpsilon the terms of all paths add up to zero. */
  lemma TermsBalance(senders: Senders, orders: Orders, order: seq<nat>)
    requires 0 < |senders| <= MAX_PATHS && ValidOrders(senders, orders) && Enumerates(order, senders.Keys)
    requires forall id :: id in order ==> id in senders
    ensures SumOfTerms(WithEpsilons(senders, orders), order) == 0.0
  {
    var views := Views(senders);
    assert views.Keys == senders.Keys;
    EnumerationIn(orders.max, senders.Keys);
    EnumerationIn(orders.best, senders.Keys);
    SameSize(views, senders);
    ZeroSum(views, BestOf(views, orders.best), orders.max, order);
    TermsAre(senders, orders, order);
  }

  lemma SameSize(views: map<nat, PathView>, senders: Senders)
    requires views.Keys == senders.Keys
    ensures |views| == |senders|
  {
    assert |views| == |views.Keys| && |senders| == |senders.Keys|;
  }

  lemma {:induction false} TermsAre(senders: Senders, orders: Orders, order: seq<nat>)
    requires ValidOrders(senders, orders)
    requires forall id :: id in order ==> id in senders
    requires forall id :: id in orders.max ==> id in senders
    requires forall id :: id in orders.best ==> id in senders
    ensures var views := Views(senders);
            SumOfTerms(WithEpsilons(senders, orders), order)
            == SumOfEpsilons(views, MaxCwnd(views, orders.max), BestOf(views, orders.best), order)
    decreases |order|
  {
    if order != [] {
      TermsAre(senders, orders, order[..|order| - 1]);
    }
  }
}

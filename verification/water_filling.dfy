/** Splitting a stream over paths (choosePaths in pstream/scheduler.go). The paths are numbered in ascending order of
    their one-way delay; bandwidths are positive. Float64 is modelled by real numbers. */
module WaterFilling {

  // ---- Products and sums ----

  function Times(x: real, y: real): real {
    x * y
  }

  lemma TimesAddRight(x: real, y: real, z: real)
    ensures Times(x, y) + Times(x, z) == Times(x, y + z) && Times(x, 0.0) == 0.0
  {
  }

  lemma TimesAddLeft(x: real, y: real, z: real)
    ensures Times(x, z) + Times(y, z) == Times(x + y, z)
  {
  }

  lemma TimesOrder(x: real, y: real, z: real)
    requires z > 0.0
    ensures x <= y ==> Times(x, z) <= Times(y, z) && Times(z, x) <= Times(z, y)
    ensures x < y ==> Times(x, z) < Times(y, z) && Times(z, x) < Times(z, y)
    ensures x > 0.0 ==> Times(x, z) > 0.0
    ensures x >= 0.0 ==> Times(x, z) >= 0.0
  {
  }

  function SumFrom(s: seq<real>, lo: nat, hi: nat): real
    requires hi <= |s|
    decreases hi - lo
  {
    if lo >= hi then 0.0 else s[lo] + SumFrom(s, lo + 1, hi)
  }

  function Sum(s: seq<real>): real {
    SumFrom(s, 0, |s|)
  }

  predicate Positive(s: seq<real>) {
    forall k :: 0 <= k < |s| ==> s[k] > 0.0
  }

  predicate NonNegative(s: seq<real>) {
    forall k :: 0 <= k < |s| ==> s[k] >= 0.0
  }

  lemma {:induction false} SumPositive(b: seq<real>, lo: nat, hi: nat)
    requires Positive(b) && hi <= |b|
    ensures SumFrom(b, lo, hi) >= 0.0 && (lo < hi ==> SumFrom(b, lo, hi) > 0.0)
    decreases hi - lo
  {
    if lo < hi {
      SumPositive(b, lo + 1, hi);
    }
  }

  lemma {:induction false} SumGrows(b: seq<real>, lo: nat, hi: nat)
    requires Positive(b) && lo <= hi <= |b|
    ensures SumFrom(b, lo, hi) <= SumFrom(b, 0, hi)
    decreases lo
  {
    if lo > 0 {
      SumGrows(b, lo - 1, hi);
    }
  }

  /** Term by term comparison; strict if one term is. */
  lemma {:induction false} SumCompare(a: seq<real>, c: seq<real>, lo: nat)
    requires |a| == |c| && lo <= |a| && forall k :: lo <= k < |a| ==> a[k] <= c[k]
    ensures SumFrom(a, lo, |a|) <= SumFrom(c, lo, |c|)
    ensures (exists k :: lo <= k < |a| && a[k] < c[k]) ==> SumFrom(a, lo, |a|) < SumFrom(c, lo, |c|)
    decreases |a| - lo
  {
    if lo < |a| {
      SumCompare(a, c, lo + 1);
    }
  }

  /** Adding x times the first m terms of b. */
  lemma {:induction false} SumShift(a: seq<real>, c: seq<real>, b: seq<real>, x: real, m: nat, lo: nat)
    requires |a| == |c| == |b| && m <= |a| && lo <= |a|
    requires forall k :: lo <= k < |a| ==> c[k] == if k < m then a[k] + Times(x, b[k]) else a[k]
    ensures SumFrom(c, lo, |c|) == SumFrom(a, lo, |a|) + Times(x, SumFrom(b, lo, m))
    decreases |a| - lo
  {
    hide Times;
    TimesAddRight(x, 0.0, 0.0);
    if lo < |a| {
      SumShift(a, c, b, x, m, lo + 1);
      if lo < m {
        TimesAddRight(x, b[lo], SumFrom(b, lo + 1, m));
      }
    }
  }

  // ---- Water levels ----

  predicate Ascending(d: seq<real>) {
    forall i, j :: 0 <= i < j < |d| ==> d[i] <= d[j]
  }

  predicate Paths(b: seq<real>, d: seq<real>) {
    |b| == |d| > 0 && Positive(b) && Ascending(d)
  }

  /** What each path can deliver by time t. */
  function At(b: seq<real>, d: seq<real>, t: real): (v: seq<real>)
    requires |b| == |d|
    ensures |v| == |b|
  {
    seq(|b|, k requires 0 <= k < |b| => if t > d[k] then Times(t - d[k], b[k]) else 0.0)
  }

  /** Some number of paths are used up to the delay of path i; with t up to the next delay, the volume grows with the
      bandwidth of the first i + 1 paths. */
  lemma LevelGrows(b: seq<real>, d: seq<real>, i: nat, t: real)
    requires Paths(b, d) && i < |b| && d[i] <= t && (i + 1 < |b| ==> t <= d[i + 1])
    ensures forall k :: 0 <= k < |b| ==>
                          At(b, d, t)[k] == if k < i + 1 then At(b, d, d[i])[k] + Times(t - d[i], b[k])
                                            else At(b, d, d[i])[k]
    ensures Sum(At(b, d, t)) == Sum(At(b, d, d[i])) + Times(t - d[i], SumFrom(b, 0, i + 1))
  {
    var a, c := At(b, d, d[i]), At(b, d, t);
    forall k | 0 <= k < |b|
      ensures c[k] == if k < i + 1 then a[k] + Times(t - d[i], b[k]) else a[k]
    {
      LevelAt(b, d, i, t, k);
    }
    hide At, Times;
    SumShift(a, c, b, t - d[i], i + 1, 0);
  }

  lemma LevelAt(b: seq<real>, d: seq<real>, i: nat, t: real, k: nat)
    requires Paths(b, d) && i < |b| && d[i] <= t && (i + 1 < |b| ==> t <= d[i + 1]) && k < |b|
    ensures At(b, d, t)[k] == if k < i + 1 then At(b, d, d[i])[k] + Times(t - d[i], b[k]) else At(b, d, d[i])[k]
  {
    hide Times;
    if k < i + 1 {
      assert d[k] <= d[i];
      TimesAddLeft(d[i] - d[k], t - d[i], b[k]);
      TimesAddLeft(0.0, 0.0, b[k]);
    } else {
      assert d[k] >= t && d[k] >= d[i];
    }
  }

  lemma AtNonNegative(b: seq<real>, d: seq<real>, t: real)
    requires |b| == |d| && Positive(b)
    ensures NonNegative(At(b, d, t))
  {
    forall k | 0 <= k < |b|
      ensures At(b, d, t)[k] >= 0.0
    {
      TimesOrder(t - d[k], 0.0, b[k]);
    }
  }

  lemma AtStart(b: seq<real>, d: seq<real>)
    requires Paths(b, d)
    ensures forall k :: 0 <= k < |b| ==> At(b, d, d[0])[k] == 0.0
    ensures Sum(At(b, d, d[0])) == 0.0
  {
    forall k | 0 <= k < |b|
      ensures At(b, d, d[0])[k] == 0.0
    {
      assert d[0] <= d[k];
    }
    SumZero(At(b, d, d[0]), 0);
  }

  lemma {:induction false} SumZero(s: seq<real>, lo: nat)
    requires lo <= |s| && forall k :: lo <= k < |s| ==> s[k] == 0.0
    ensures SumFrom(s, lo, |s|) == 0.0
    decreases |s| - lo
  {
    if lo < |s| {
      SumZero(s, lo + 1);
    }
  }

  /** More time, more volume. */
  lemma AtGrows(b: seq<real>, d: seq<real>, t: real, t': real)
    requires Paths(b, d) && t <= t'
    ensures Sum(At(b, d, t)) <= Sum(At(b, d, t'))
    ensures t < t' && d[0] < t' ==> Sum(At(b, d, t)) < Sum(At(b, d, t'))
  {
    var a, c := At(b, d, t), At(b, d, t');
    forall k | 0 <= k < |b|
      ensures a[k] <= c[k] && (t < t' && d[k] < t' ==> a[k] < c[k])
    {
      AtGrowsAt(b, d, t, t', k);
    }
    hide At;
    SumCompare(a, c, 0);
  }

  lemma AtGrowsAt(b: seq<real>, d: seq<real>, t: real, t': real, k: nat)
    requires Paths(b, d) && t <= t' && k < |b|
    ensures At(b, d, t)[k] <= At(b, d, t')[k]
    ensures t < t' && d[k] < t' ==> At(b, d, t)[k] < At(b, d, t')[k]
  {
    hide Times;
    TimesOrder(t - d[k], t' - d[k], b[k]);
    TimesOrder(t' - d[k], 0.0, b[k]);
  }

  // ---- The algorithm ----

  ghost predicate StrictTo(d: seq<real>, t: nat) {
    t < |d| && forall i, j :: 0 <= i < j <= t ==> d[i] < d[j]
  }

  /** What the loop that closes the gaps leaves. With volume left, it has reached the delay of path t, which is the last
      one or equal to the next one; otherwise the volume ended at some level up to the delay of path t. */
  ghost predicate Closed(b: seq<real>, d: seq<real>, total: real, volumes: seq<real>, left: real, t: nat) {
    && |b| == |d| == |volumes| && StrictTo(d, t)
    && if left > 0.0 then
         volumes == At(b, d, d[t]) && left == total - Sum(volumes) && (t + 1 < |d| ==> d[t] == d[t + 1])
       else
         left == 0.0 && Sum(volumes) == total <= Sum(At(b, d, d[t])) && exists level :: volumes == At(b, d, level)
  }

  /** The part of a volume for bandwidth x out of a larger bandwidth. */
  function Portion(volume: real, x: real, bandwidth: real): real
    requires bandwidth > 0.0
  {
    volume * x / bandwidth
  }

  /** Adds a share of the volume to each of the first m paths, in proportion to their bandwidth. */
  function Share(volumes: seq<real>, b: seq<real>, volume: real, bandwidth: real, m: nat): (v: seq<real>)
    requires |volumes| == |b| && bandwidth > 0.0
    ensures |v| == |b|
  {
    seq(|b|, k requires 0 <= k < |b| => if k < m then volumes[k] + Portion(volume, b[k], bandwidth) else volumes[k])
  }

  ghost predicate Allocated(b: seq<real>, d: seq<real>, total: real, volumes: seq<real>)
    requires Paths(b, d)
  {
    SumPositive(b, 0, |b|);
    exists mid, left, t ::
      && Closed(b, d, total, mid, left, t)
      && volumes == if left > 0.0 then Share(mid, b, left, Sum(b), |b|) else mid
  }

  /** Lines 624 to 723. */
  method Allocate(b: seq<real>, d: seq<real>, total: real) returns (volumes: seq<real>)
    requires Paths(b, d) && total > 0.0
    ensures Allocated(b, d, total, volumes)
    ensures NonNegative(volumes) && |volumes| == |b| && Sum(volumes) == total
  {
    var mid, volume;
    ghost var t;
    mid, volume, t := CloseGaps(b, d, total);
    volumes := mid;
    SumPositive(b, 0, |b|);
    if volume > 0.0 {
      var all := BandwidthSum(b, |b|);
      var cutted;
      volumes, cutted := AddShares(mid, b, volume, all, |b|);
    }
    AllocationConserves(b, d, total, mid, volume, t, volumes);
  }

  /** Lines 629 to 635. */
  method BandwidthSum(b: seq<real>, m: nat) returns (sum: real)
    requires m <= |b|
    ensures sum == SumFrom(b, 0, m)
  {
    sum := 0.0;
    var k := m;
    while k > 0
      invariant 0 <= k <= m && sum == SumFrom(b, k, m)
    {
      k := k - 1;
      sum := sum + b[k];
    }
  }

  /** Lines 667 to 673. */
  method AddShares(volumes: seq<real>, b: seq<real>, volume: real, bandwidth: real, m: nat)
    returns (v: seq<real>, cutted: real)
    requires |volumes| == |b| && bandwidth > 0.0 && m <= |b|
    ensures v == Share(volumes, b, volume, bandwidth, m) && cutted == Portion(volume, SumFrom(b, 0, m), bandwidth)
  {
    v, cutted := volumes, 0.0;
    PortionAdds(volume, 0.0, 0.0, bandwidth);
    hide Portion;
    var k := m;
    while k > 0
      invariant 0 <= k <= m && |v| == |b|
      invariant cutted == Portion(volume, SumFrom(b, k, m), bandwidth)
      invariant forall j :: 0 <= j < |b| ==>
                              v[j] == if k <= j < m then volumes[j] + Portion(volume, b[j], bandwidth) else volumes[j]
    {
      k := k - 1;
      var proportionStep := Portion(volume, b[k], bandwidth);
      PortionAdds(volume, b[k], SumFrom(b, k + 1, m), bandwidth);
      v := v[k := v[k] + proportionStep];
      cutted := cutted + proportionStep;
    }
  }

  lemma PortionAdds(volume: real, x: real, y: real, bandwidth: real)
    requires bandwidth > 0.0
    ensures Portion(volume, x, bandwidth) + Portion(volume, y, bandwidth) == Portion(volume, x + y, bandwidth)
  {
  }

  /** Lines 646 to 665. The loop would also end if the volume ran out, which it cannot. */
  method AddGap(volumes: seq<real>, b: seq<real>, volume: real, gap: real, m: nat) returns (v: seq<real>, left: real)
    requires |volumes| == |b| && Positive(b) && gap > 0.0 && m <= |b| && volume > Times(gap, SumFrom(b, 0, m))
    ensures |v| == |b|
    ensures forall k :: 0 <= k < |b| ==> v[k] == if k < m then volumes[k] + Times(gap, b[k]) else volumes[k]
    ensures left == volume - Times(gap, SumFrom(b, 0, m))
  {
    v, left := volumes, volume;
    hide Times;
    SumPositive(b, 0, m);
    TimesOrder(0.0, SumFrom(b, 0, m), gap);
    TimesAddRight(gap, 0.0, 0.0);
    var k := m;
    while k > 0 && left > 0.0
      invariant 0 <= k <= m && |v| == |b|
      invariant left == volume - Times(gap, SumFrom(b, k, m)) > 0.0
      invariant forall j :: 0 <= j < |b| ==> v[j] == if k <= j < m then volumes[j] + Times(gap, b[j]) else volumes[j]
    {
      k := k - 1;
      SumGrows(b, k, m);
      TimesOrder(SumFrom(b, k, m), SumFrom(b, 0, m), gap);
      TimesAddRight(gap, b[k], SumFrom(b, k + 1, m));
      var proportionStep := Times(gap, b[k]);
      v := v[k := v[k] + proportionStep];
      left := left - proportionStep;
    }
  }

  /** The level stands at the delay of path i and volume is left. */
  ghost predicate Level(b: seq<real>, d: seq<real>, total: real, volumes: seq<real>, left: real, i: nat) {
    |b| == |d| == |volumes| && StrictTo(d, i) && volumes == At(b, d, d[i]) && left == total - Sum(volumes) && left > 0.0
  }

  /** Lines 624 to 702: raises the level from delay to delay, up to the first tie. */
  method CloseGaps(b: seq<real>, d: seq<real>, total: real) returns (volumes: seq<real>, volume: real, ghost t: nat)
    requires Paths(b, d) && total > 0.0
    ensures Closed(b, d, total, volumes, volume, t)
  {
    volumes, volume := seq(|b|, _ => 0.0), total;
    AtStart(b, d);
    assert volumes == At(b, d, d[0]);
    var i, stop := 0, false;
    t := 0;
    while i + 1 < |b| && !stop
      invariant 0 <= i < |b|
      invariant if stop then Closed(b, d, total, volumes, volume, t)
                else t == i && Level(b, d, total, volumes, volume, i)
      decreases |b| - i, !stop
    {
      volumes, volume, stop, t := CloseGap(b, d, total, volumes, volume, i);
      if !stop {
        i := i + 1;
      }
    }
  }

  /** Lines 629 to 701: one level. */
  method CloseGap(b: seq<real>, d: seq<real>, total: real, volumes: seq<real>, volume: real, i: nat)
    returns (volumes': seq<real>, volume': real, stop: bool, ghost t: nat)
    requires Paths(b, d) && i + 1 < |b| && Level(b, d, total, volumes, volume, i)
    ensures if stop then Closed(b, d, total, volumes', volume', t)
            else t == i + 1 && Level(b, d, total, volumes', volume', i + 1)
  {
    hide Times;
    var bdwSum := BandwidthSum(b, i + 1);
    SumPositive(b, 0, i + 1);
    var owdGap := d[i + 1] - d[i];
    if owdGap == 0.0 {
      return volumes, volume, true, i;
    }
    StrictNext(d, i);
    if volume > Times(owdGap, bdwSum) {
      volumes', volume' := AddGap(volumes, b, volume, owdGap, i + 1);
      LevelGrows(b, d, i, d[i + 1]);
      assert volumes' == At(b, d, d[i + 1]);
      stop, t := false, i + 1;
    } else {
      LastLevel(b, d, i, volumes, volume, total);
      hide At, Share, Portion;
      var cutted;
      volumes', cutted := AddShares(volumes, b, volume, bdwSum, i + 1);
      volume' := volume - cutted;
      stop, t := volume' <= 0.0, i + 1;
    }
  }

  lemma StrictNext(d: seq<real>, i: nat)
    requires Ascending(d) && i + 1 < |d| && StrictTo(d, i) && d[i] != d[i + 1]
    ensures StrictTo(d, i + 1) && d[i] < d[i + 1]
  {
  }

  /** Where the volume ends, between the delays of path i and path i + 1. */
  lemma LastLevel(b: seq<real>, d: seq<real>, i: nat, volumes: seq<real>, volume: real, total: real)
    requires Paths(b, d) && i + 1 < |b| && volumes == At(b, d, d[i]) && volume == total - Sum(volumes) && volume > 0.0
    requires var bandwidth := SumFrom(b, 0, i + 1); bandwidth > 0.0 && volume <= Times(d[i + 1] - d[i], bandwidth)
    ensures var bandwidth := SumFrom(b, 0, i + 1);
            var level := d[i] + volume / bandwidth;
            && Share(volumes, b, volume, bandwidth, i + 1) == At(b, d, level)
            && Sum(At(b, d, level)) == total <= Sum(At(b, d, d[i + 1]))
            && Portion(volume, bandwidth, bandwidth) == volume
  {
    hide At, Share, SumFrom, Times;
    var bandwidth := SumFrom(b, 0, i + 1);
    var x := volume / bandwidth;
    Quotient(volume, bandwidth, d[i + 1] - d[i]);
    LevelGrows(b, d, i, d[i] + x);
    AtGrows(b, d, d[i] + x, d[i + 1]);
    SharesAre(volumes, b, volume, bandwidth, i + 1, At(b, d, d[i] + x));
  }

  lemma SharesAre(volumes: seq<real>, b: seq<real>, volume: real, bandwidth: real, m: nat, w: seq<real>)
    requires |volumes| == |b| == |w| && bandwidth > 0.0
    requires forall k :: 0 <= k < |b| ==>
               w[k] == if k < m then volumes[k] + Times(volume / bandwidth, b[k]) else volumes[k]
    ensures Share(volumes, b, volume, bandwidth, m) == w
  {
    var v := Share(volumes, b, volume, bandwidth, m);
    forall k | 0 <= k < |b|
      ensures v[k] == w[k]
    {
      PortionIs(volume, b[k], bandwidth);
    }
  }

  lemma Quotient(volume: real, bandwidth: real, gap: real)
    requires bandwidth > 0.0 && volume > 0.0
    ensures volume / bandwidth > 0.0
    ensures Times(volume / bandwidth, bandwidth) == volume == Portion(volume, bandwidth, bandwidth)
    ensures volume <= Times(gap, bandwidth) ==> volume / bandwidth <= gap
  {
  }

  lemma PortionIs(volume: real, x: real, bandwidth: real)
    requires bandwidth > 0.0
    ensures Portion(volume, x, bandwidth) == Times(volume / bandwidth, x)
  {
  }

  /** Volumes are not negative and add up to the volume of the stream, with or without ties. */
  lemma AllocationConserves(b: seq<real>, d: seq<real>, total: real, mid: seq<real>, left: real, t: nat,
                            volumes: seq<real>)
    requires Paths(b, d) && Closed(b, d, total, mid, left, t) && Sum(b) > 0.0
    requires volumes == if left > 0.0 then Share(mid, b, left, Sum(b), |b|) else mid
    ensures NonNegative(volumes) && Sum(volumes) == total
  {
    if left > 0.0 {
      AtNonNegative(b, d, d[t]);
      var x := left / Sum(b);
      Quotient(left, Sum(b), 0.0);
      forall k | 0 <= k < |b|
        ensures volumes[k] == mid[k] + Times(x, b[k]) && volumes[k] >= 0.0
      {
        PortionIs(left, b[k], Sum(b));
        TimesOrder(x, 0.0, b[k]);
      }
      hide Times, At, Share;
      SumShift(mid, volumes, b, x, |b|, 0);
    } else {
      var level :| mid == At(b, d, level);
      AtNonNegative(b, d, level);
    }
  }

  // ---- Optimality ----

  /** A way to split a volume over the paths. */
  ghost predicate Split(b: seq<real>, total: real, w: seq<real>) {
    |w| == |b| && NonNegative(w) && Sum(w) == total
  }

  /** Every path with data has delivered it by time f. */
  ghost predicate FinishesBy(b: seq<real>, d: seq<real>, w: seq<real>, f: real)
    requires |w| == |b| == |d| && Positive(b)
  {
    forall k :: 0 <= k < |b| && w[k] > 0.0 ==> d[k] + w[k] / b[k] <= f
  }

  /** No split finishes earlier. */
  ghost predicate Optimal(b: seq<real>, d: seq<real>, total: real, volumes: seq<real>)
    requires |volumes| == |b| == |d| && Positive(b)
  {
    forall w, f :: Split(b, total, w) && FinishesBy(b, d, w, f) ==> FinishesBy(b, d, volumes, f)
  }

  ghost predicate FirstTie(d: seq<real>, t: nat) {
    t + 1 < |d| && StrictTo(d, t) && d[t] == d[t + 1]
  }

  /** The first tie is reached with volume left, and a path with a larger delay is then given data. */
  ghost predicate HarmfulTie(b: seq<real>, d: seq<real>, total: real)
    requires |b| == |d|
  {
    exists t: nat :: FirstTie(d, t) && d[t] < d[|d| - 1] && total > Sum(At(b, d, d[t]))
  }

  lemma Finish(w: real, b: real, x: real)
    requires b > 0.0
    ensures w / b <= x <==> w <= Times(x, b)
    ensures Times(x, b) / b == x
    ensures w > 0.0 ==> w / b > 0.0
  {
  }

  /** All paths with data finish at one time, and the others have a delay that is not below it. */
  ghost predicate FinishTogether(b: seq<real>, d: seq<real>, w: seq<real>, time: real)
    requires |w| == |b| == |d| && Positive(b)
  {
    forall k :: 0 <= k < |b| ==> if w[k] > 0.0 then d[k] + w[k] / b[k] == time else d[k] >= time
  }

  /** A level is a common finishing time. */
  lemma LevelFinishes(b: seq<real>, d: seq<real>, level: real)
    requires Paths(b, d)
    ensures FinishTogether(b, d, At(b, d, level), level)
  {
    forall k | 0 <= k < |b|
      ensures if At(b, d, level)[k] > 0.0 then d[k] + At(b, d, level)[k] / b[k] == level else d[k] >= level
    {
      Finish(0.0, b[k], level - d[k]);
      TimesOrder(level - d[k], 0.0, b[k]);
    }
  }

  /** What finishes by time f is at most what the paths can deliver by then. */
  lemma FinishBound(b: seq<real>, d: seq<real>, total: real, w: seq<real>, f: real)
    requires Paths(b, d) && Split(b, total, w) && FinishesBy(b, d, w, f)
    ensures total <= Sum(At(b, d, f))
  {
    AtNonNegative(b, d, f);
    var a := At(b, d, f);
    forall k | 0 <= k < |b|
      ensures w[k] <= a[k]
    {
      Finish(w[k], b[k], f - d[k]);
    }
    hide At;
    SumCompare(w, a, 0);
  }

  /** No split of the volume below a level finishes before the level. */
  lemma LevelOptimal(b: seq<real>, d: seq<real>, total: real, level: real)
    requires Paths(b, d) && total > 0.0 && Sum(At(b, d, level)) == total
    ensures Optimal(b, d, total, At(b, d, level))
  {
    hide At, SumFrom;
    forall w, f | Split(b, total, w) && FinishesBy(b, d, w, f)
      ensures FinishesBy(b, d, At(b, d, level), f)
    {
      FinishBound(b, d, total, w, f);
      if f < level {
        AtStart(b, d);
        AtGrows(b, d, level, if level < d[0] then d[0] else level);
        AtGrows(b, d, f, level);
      }
      LevelFinishes(b, d, level);
    }
  }

  /** The level at which the volume fits, searched from the delay of path i. */
  function Waterline(b: seq<real>, d: seq<real>, total: real, i: nat): real
    requires Paths(b, d) && i < |b|
    decreases |b| - i
  {
    SumPositive(b, 0, i + 1);
    if i + 1 == |b| || total <= Sum(At(b, d, d[i + 1])) then
      d[i] + (total - Sum(At(b, d, d[i]))) / SumFrom(b, 0, i + 1)
    else Waterline(b, d, total, i + 1)
  }

  lemma {:induction false} WaterlineFits(b: seq<real>, d: seq<real>, total: real, i: nat)
    requires Paths(b, d) && i < |b| && total > Sum(At(b, d, d[i]))
    ensures Sum(At(b, d, Waterline(b, d, total, i))) == total
    decreases |b| - i
  {
    hide At, SumFrom, Times;
    if i + 1 == |b| || total <= Sum(At(b, d, d[i + 1])) {
      var left := total - Sum(At(b, d, d[i]));
      var bandwidth := SumFrom(b, 0, i + 1);
      SumPositive(b, 0, i + 1);
      Quotient(left, bandwidth, if i + 1 == |b| then 0.0 else d[i + 1] - d[i]);
      if i + 1 < |b| {
        LevelGrows(b, d, i, d[i + 1]);
      }
      LevelGrows(b, d, i, d[i] + left / bandwidth);
    } else {
      WaterlineFits(b, d, total, i + 1);
    }
  }

  /** The rest is spread over all paths: if the level stands at the largest delay, this raises the level. */
  lemma SpreadLevel(b: seq<real>, d: seq<real>, t: nat, left: real)
    requires Paths(b, d) && t < |d| && d[t] == d[|d| - 1] && left > 0.0 && Sum(b) > 0.0
    ensures Share(At(b, d, d[t]), b, left, Sum(b), |b|) == At(b, d, d[t] + left / Sum(b))
  {
    hide At, SumFrom, Times;
    Quotient(left, Sum(b), 0.0);
    LevelGrows(b, d, |d| - 1, d[t] + left / Sum(b));
    SharesAre(At(b, d, d[t]), b, left, Sum(b), |b|, At(b, d, d[t] + left / Sum(b)));
  }

  /** If the rest is spread while a path has a larger delay than the level, that path finishes too late. */
  lemma SpreadTooLate(b: seq<real>, d: seq<real>, t: nat, left: real, total: real, volumes: seq<real>)
    requires Paths(b, d) && t < |d| && d[t] < d[|d| - 1] && left > 0.0 && Sum(b) > 0.0
    requires volumes == Share(At(b, d, d[t]), b, left, Sum(b), |b|) && Sum(volumes) == total
    ensures var f := d[|d| - 1] + left / Sum(b);
            total < Sum(At(b, d, f)) && volumes[|b| - 1] > 0.0 && d[|b| - 1] + volumes[|b| - 1] / b[|b| - 1] == f
  {
    var x := left / Sum(b);
    Quotient(left, Sum(b), 0.0);
    var f := d[|d| - 1] + x;
    var a := At(b, d, f);
    forall k | 0 <= k < |b|
      ensures volumes[k] < a[k] || (volumes[k] == a[k] && k > 0)
      ensures k == |b| - 1 ==> volumes[k] == Times(x, b[k])
    {
      PortionIs(left, b[k], Sum(b));
      SpreadAt(b, d, t, x, k);
    }
    var n := |b| - 1;
    Finish(0.0, b[n], x);
    TimesOrder(x, 0.0, b[n]);
    hide At, Times, Share;
    SumCompare(volumes, a, 0);
  }

  lemma SpreadAt(b: seq<real>, d: seq<real>, t: nat, x: real, k: nat)
    requires Paths(b, d) && t < |d| && d[t] < d[|d| - 1] && x > 0.0 && k < |b|
    ensures var v := At(b, d, d[t])[k] + Times(x, b[k]);
            var a := At(b, d, d[|d| - 1] + x)[k];
            (v < a || (v == a && k > 0)) && (k == |b| - 1 ==> v == Times(x, b[k]))
  {
    hide Times;
    assert d[0] <= d[t] && d[0] <= d[k] <= d[|d| - 1];
    TimesAddLeft(d[t] - d[k], x, b[k]);
    TimesOrder(d[t] - d[k] + x, d[|d| - 1] + x - d[k], b[k]);
    TimesOrder(x, d[|d| - 1] + x - d[k], b[k]);
  }

  /** There is one first tie at most. */
  lemma FirstTieUnique(d: seq<real>, t: nat, t': nat)
    requires FirstTie(d, t) && StrictTo(d, t')
    ensures t' <= t
  {
  }

  /** Without a harmful tie the volumes are what the paths deliver by one common time. */
  lemma EvenFinish(b: seq<real>, d: seq<real>, total: real, volumes: seq<real>)
    requires Paths(b, d) && total > 0.0 && Allocated(b, d, total, volumes)
    ensures !HarmfulTie(b, d, total) ==> exists level :: volumes == At(b, d, level) && Sum(volumes) == total
  {
    hide At, SumFrom, Share;
    SumPositive(b, 0, |b|);
    var mid, left, t: nat :|
      && Closed(b, d, total, mid, left, t)
      && volumes == if left > 0.0 then Share(mid, b, left, Sum(b), |b|) else mid;
    AllocationConserves(b, d, total, mid, left, t, volumes);
    if !HarmfulTie(b, d, total) && left > 0.0 {
      assert t + 1 < |d| ==> FirstTie(d, t);
      assert d[t] <= d[|d| - 1];
      SpreadLevel(b, d, t, left);
    }
  }

  /** With a harmful tie another split finishes earlier. */
  lemma HarmfulIsLate(b: seq<real>, d: seq<real>, total: real, volumes: seq<real>)
    requires Paths(b, d) && total > 0.0 && Allocated(b, d, total, volumes) && HarmfulTie(b, d, total)
    ensures |volumes| == |b| && !Optimal(b, d, total, volumes)
  {
    hide At, SumFrom, Share;
    SumPositive(b, 0, |b|);
    var mid, left, t: nat :|
      && Closed(b, d, total, mid, left, t)
      && volumes == if left > 0.0 then Share(mid, b, left, Sum(b), |b|) else mid;
    var t': nat :| FirstTie(d, t') && d[t'] < d[|d| - 1] && total > Sum(At(b, d, d[t']));
    FirstTieUnique(d, t', t);
    AtGrows(b, d, d[t], d[t']);
    AllocationConserves(b, d, total, mid, left, t, volumes);
    SpreadTooLate(b, d, t, left, total, volumes);
    AtStart(b, d);
    WaterlineFits(b, d, total, 0);
    EarlierSplit(b, d, total, volumes, Waterline(b, d, total, 0), d[|d| - 1] + left / Sum(b));
  }

  lemma EarlierSplit(b: seq<real>, d: seq<real>, total: real, volumes: seq<real>, level: real, f: real)
    requires Paths(b, d) && |volumes| == |b| && Sum(At(b, d, level)) == total < Sum(At(b, d, f))
    requires var n := |b| - 1; volumes[n] > 0.0 && d[n] + volumes[n] / b[n] == f
    ensures !Optimal(b, d, total, volumes)
  {
    hide SumFrom;
    var w := At(b, d, level);
    AtNonNegative(b, d, level);
    LevelFinishes(b, d, level);
    hide At;
    assert Split(b, total, w) && FinishesBy(b, d, w, level);
    if f <= level {
      AtGrows(b, d, f, level);
    } else {
      assert !FinishesBy(b, d, volumes, level);
    }
  }

  /** The allocation is optimal if and only if there is no harmful tie; then all paths with data finish together and the
      others have a delay that is not below the common time. */
  lemma OptimalExactly(b: seq<real>, d: seq<real>, total: real, volumes: seq<real>)
    requires Paths(b, d) && total > 0.0 && Allocated(b, d, total, volumes)
    ensures |volumes| == |b|
    ensures Optimal(b, d, total, volumes) <==> !HarmfulTie(b, d, total)
    ensures !HarmfulTie(b, d, total) ==> exists time :: FinishTogether(b, d, volumes, time)
  {
    if HarmfulTie(b, d, total) {
      HarmfulIsLate(b, d, total, volumes);
    } else {
      EvenFinish(b, d, total, volumes);
      hide At, SumFrom, Allocated, HarmfulTie, FinishTogether, Optimal;
      var level :| volumes == At(b, d, level) && Sum(volumes) == total;
      LevelOptimal(b, d, total, level);
      LevelFinishes(b, d, level);
    }
  }

  /** Distinct delays leave no tie. */
  lemma DistinctDelays(b: seq<real>, d: seq<real>, total: real)
    requires Paths(b, d) && forall i, j :: 0 <= i < j < |d| ==> d[i] != d[j]
    ensures !HarmfulTie(b, d, total)
  {
  }

  /** A tie that costs time: two fast paths with equal delay and one slow path, for any volume. */
  lemma TieCanHarm(total: real)
    requires total > 0.0
    ensures HarmfulTie([1.0, 1.0, 1.0], [0.0, 0.0, 10.0], total)
  {
    var b, d := [1.0, 1.0, 1.0], [0.0, 0.0, 10.0];
    AtStart(b, d);
    assert FirstTie(d, 0);
  }

  // ---- Choosing paths ----

  /** What choosePaths reads of a path; the bandwidth is the share of this stream. */
  datatype PathInfo = PathInfo(sendingAllowed: bool, failed: bool, bandwidth: real, delay: real)

  /** The paths that may be used when there is more than one: not the initial one, which has the number 0. */
  predicate Available(paths: map<nat, PathInfo>, id: nat) {
    id in paths && id != 0 && paths[id].sendingAllowed && !paths[id].failed
  }

  /** An order that sorting the available paths by delay can produce. */
  predicate SortedOrder(paths: map<nat, PathInfo>, order: seq<nat>) {
    && (forall i :: 0 <= i < |order| ==> Available(paths, order[i]))
    && (forall id :: id in paths && Available(paths, id) ==> id in order)
    && (forall i, j :: 0 <= i < j < |order| ==> order[i] != order[j])
    && (forall i, j :: 0 <= i < j < |order| ==> paths[order[i]].delay <= paths[order[j]].delay)
  }

  function Bandwidths(paths: map<nat, PathInfo>, order: seq<nat>): seq<real>
    requires SortedOrder(paths, order)
  {
    seq(|order|, i requires 0 <= i < |order| => paths[order[i]].bandwidth)
  }

  function Delays(paths: map<nat, PathInfo>, order: seq<nat>): seq<real>
    requires SortedOrder(paths, order)
  {
    seq(|order|, i requires 0 <= i < |order| => paths[order[i]].delay)
  }

  function Given(selected: map<nat, real>, id: nat): real {
    if id in selected then selected[id] else 0.0
  }

  function Assigned(selected: map<nat, real>, order: seq<nat>): seq<real> {
    seq(|order|, i requires 0 <= i < |order| => Given(selected, order[i]))
  }

  /** Every path is given an eighth of its volume, which was counted in bits. */
  predicate Eighths(selected: map<nat, real>, order: seq<nat>, volumes: seq<real>) {
    |volumes| == |order| && forall i :: 0 <= i < |order| ==> Given(selected, order[i]) == volumes[i] / 8.0
  }

  /** Lines 514 to 740: the bytes of a stream for each path; none if nothing is to be sent or the only path is full. */
  method ChoosePaths(size: nat, paths: map<nat, PathInfo>, order: seq<nat>)
    returns (selected: map<nat, real>, found: bool)
    requires 0 in paths && SortedOrder(paths, order)
    requires forall id :: id in paths && Available(paths, id) ==> paths[id].bandwidth > 0.0
    ensures found <==> size > 0 && (|paths| > 1 || paths[0].sendingAllowed)
    ensures found && |paths| <= 1 ==> selected == map[0 := size as real]
    ensures found && |paths| > 1 ==> forall id :: id in selected ==> Available(paths, id) && selected[id] > 0.0
    ensures found && |paths| > 1 && order != [] ==>
              && Sum(Assigned(selected, order)) == size as real
              && var b, d := Bandwidths(paths, order), Delays(paths, order);
              && Paths(b, d)
              && exists volumes :: Allocated(b, d, size as real * 8.0, volumes) && Eighths(selected, order, volumes)
  {
    selected := map[];
    if size == 0 {
      return selected, false;
    }
    if |paths| <= 1 {
      if !paths[0].sendingAllowed {
        return selected, false;
      }
      return map[0 := size as real], true;
    }
    if |order| == 0 {
      return selected, true;
    }
    var b, d := Bandwidths(paths, order), Delays(paths, order);
    var volumes := Allocate(b, d, size as real * 8.0);
    selected := InBytes(order, volumes, size as real * 8.0);
    return selected, true;
  }

  /** Lines 728 to 737: from bits to bytes, for the paths that were given data. */
  method InBytes(order: seq<nat>, volumes: seq<real>, total: real) returns (selected: map<nat, real>)
    requires |order| == |volumes| && NonNegative(volumes) && Sum(volumes) == total
    requires forall i, j :: 0 <= i < j < |order| ==> order[i] != order[j]
    ensures forall id :: id in selected ==> id in order && selected[id] > 0.0
    ensures Sum(Assigned(selected, order)) == total / 8.0 && Eighths(selected, order, volumes)
  {
    selected := map[];
    for n := 0 to |order|
      invariant forall i :: 0 <= i < n ==> Given(selected, order[i]) == volumes[i] / 8.0
      invariant forall id :: id in selected ==> id in order[..n] && selected[id] > 0.0
    {
      if volumes[n] > 0.0 {
        selected := selected[order[n] := volumes[n] / 8.0];
      }
    }
    SumEighth(volumes, Assigned(selected, order), 0);
  }

  lemma {:induction false} SumEighth(v: seq<real>, w: seq<real>, lo: nat)
    requires |v| == |w| && lo <= |v| && forall k :: lo <= k < |v| ==> w[k] == v[k] / 8.0
    ensures SumFrom(w, lo, |w|) == SumFrom(v, lo, |v|) / 8.0
    decreases |v| - lo
  {
    if lo < |v| {
      SumEighth(v, w, lo + 1);
    }
  }
}

/** The coupled increase of OLIA over the reals (pstream/congestion/olia.go, pstream/congestion/olia_sender.go). */
module OliaExact {

  import opened Wire
  import opened OliaEpsilon
  import opened OliaSpec

  // ---- The change of the counter ----

  function Ratio(x: int, y: nat): real
    requires y > 0
  {
    x as real / y as real
  }

  /** OLIA's increase for one ACK in units of 1/1024 packet: the share of the path and its term. */
  function ExactChange(e: Epsilon, cwnd: nat, rate: nat, cwndScaled: nat): real
    requires e.den > 0 && cwnd > 0 && rate > 0
  {
    Positive(cwnd, rate);
    Positive(e.den, cwnd);
    1024.0 * (Ratio(Product(cwndScaled, cwndScaled), Product(cwnd, rate)) + Ratio(e.num, Product(e.den, cwnd)))
  }

  lemma Positive(x: nat, y: nat)
    requires x > 0 && y > 0
    ensures Product(x, y) > 0
  {
  }

  /** Truncation toward zero. */
  function Truncate(x: real): int {
    if x >= 0.0 then x.Floor else -((-x).Floor)
  }

  /** The products of one ACK fit into 63 bits. */
  predicate Fits(e: Epsilon, cwnd: nat, rate: nat, cwndScaled: nat) {
    && -1 <= e.num <= 1 && e.den > 0 && cwnd > 0 && rate > 0
    && e.den * cwnd * rate < WORD
    && (rate + e.den * cwndScaled * cwndScaled) * SCALE < WORD / 2
  }

  lemma WordSmall(x: int)
    requires 0 <= x < WORD
    ensures Word(x) == x && (x < WORD / 2 ==> Signed(x) == x)
  {
  }

  lemma QuotientSmall(x: nat, d: nat)
    requires d > 0
    ensures 0 <= x / d <= x
  {
    var q := x / d;
    assert x == d * q + x % d;
    assert q >= 0 by {
      QuotientSign(x, d);
    }
    Larger(d, 1, q);
  }

  function Numerator(e: Epsilon, rate: nat, cwndScaled: nat): int {
    SCALE * (e.num * rate + e.den * cwndScaled * cwndScaled)
  }

  function Denominator(e: Epsilon, cwnd: nat, rate: nat): int {
    e.den * cwnd * rate
  }

  /** Division of integers that truncates toward zero. */
  function TruncatedQuotient(n: int, d: nat): int
    requires d > 0
  {
    if n >= 0 then n / d else -((-n) / d)
  }

  /** The rate with the sign of a term. */
  function Signum(num: int, rate: int): int {
    if num == -1 then -rate else if num == 0 then 0 else rate
  }

  /** In 64-bit arithmetic the change is a truncated quotient of integers. */
  lemma ChangeIsQuotient(e: Epsilon, cwnd: nat, rate: nat, cwndScaled: nat)
    requires Fits(e, cwnd, rate, cwndScaled)
    ensures Denominator(e, cwnd, rate) > 0
    ensures var n, d := Numerator(e, rate, cwndScaled), Denominator(e, cwnd, rate);
            Change(e, cwnd, rate, cwndScaled) == TruncatedQuotient(n, d)
  {
    hide Word, Signed, Share, TruncatedQuotient, Change;
    var d, square := e.den * cwnd * rate, e.den * cwndScaled * cwndScaled;
    DenominatorPositive(e, cwnd, rate);
    SquareSign(e.den, cwndScaled);
    WordSmall(d);
    WordSmall(square);
    NumeratorIs(e, rate, cwndScaled);
    ChangeIs(e, cwnd, rate, cwndScaled, d, square);
    QuotientOf(e, rate, square, d);
  }

  lemma NumeratorIs(e: Epsilon, rate: nat, cwndScaled: nat)
    requires -1 <= e.num <= 1
    ensures Numerator(e, rate, cwndScaled) == SCALE * (Signum(e.num, rate) + e.den * cwndScaled * cwndScaled)
  {
    assert e.num * rate == Signum(e.num, rate);
  }

  /** The change with the products under names. */
  lemma ChangeIs(e: Epsilon, cwnd: nat, rate: nat, cwndScaled: nat, d: nat, square: nat)
    requires d > 0 && Word(e.den * cwnd * rate) == d && Word(e.den * cwndScaled * cwndScaled) == square
    ensures Change(e, cwnd, rate, cwndScaled)
            == if e.num == -1 then
                 if square < rate then -Share(rate - square, d) else Share(square - rate, d)
               else Share(Word(Word(e.num) * rate + square), d)
  {
    hide Word, Signed;
  }

  lemma DenominatorPositive(e: Epsilon, cwnd: nat, rate: nat)
    requires e.den > 0 && cwnd > 0 && rate > 0
    ensures e.den * cwnd * rate > 0
  {
    Positive(e.den, cwnd);
    Positive(Product(e.den, cwnd), rate);
  }

  lemma SquareSign(den: nat, x: nat)
    ensures den * x * x >= 0
  {
    assert Product(Product(den, x), x) >= 0;
  }

  /** The same with the products under names. */
  lemma QuotientOf(e: Epsilon, rate: nat, square: nat, d: nat)
    requires -1 <= e.num <= 1 && d > 0 && (rate + square) * SCALE < WORD / 2
    ensures var n := SCALE * (Signum(e.num, rate) + square);
            (if e.num == -1 then
               if square < rate then -Share(rate - square, d) else Share(square - rate, d)
             else Share(Word(Word(e.num) * rate + square), d))
            == TruncatedQuotient(n, d)
  {
    var a := if e.num == -1 then (if square < rate then rate - square else square - rate)
             else if e.num == 0 then square else rate + square;
    WordSmall(a);
    ShareIs(a, d);
    if e.num != -1 {
      WordSmall(e.num);
    }
    hide Word, Signed, Share;
    assert Word(e.num) * rate == if e.num == 0 then 0 else if e.num == 1 then rate else Word(e.num) * rate;
  }

  /** A scaled number divided by the denominator, in 64-bit arithmetic. */
  function Share(a: int, d: nat): int
    requires d > 0
  {
    Signed(Word(a * SCALE) / d)
  }

  lemma ShareIs(a: nat, d: nat)
    requires d > 0 && a * SCALE < WORD / 2
    ensures Share(a, d) == TruncatedQuotient(SCALE * a, d)
  {
    WordSmall(a * SCALE);
    QuotientSmall(a * SCALE, d);
    WordSmall(a * SCALE / d);
    hide Word, Signed;
  }

  /** A truncated quotient of integers is the truncation of the real quotient. */
  lemma TruncateQuotient(x: real, n: int, d: nat)
    requires d > 0 && x * d as real == n as real
    ensures Truncate(x) == TruncatedQuotient(n, d)
  {
    if n >= 0 {
      FloorQuotient(x, n, d);
      assert x >= 0.0;
    } else {
      FloorQuotient(-x, -n, d);
      assert x < 0.0;
    }
  }

  lemma FloorQuotient(x: real, n: nat, d: nat)
    requires d > 0 && x * d as real == n as real
    ensures x >= 0.0 && x.Floor == n / d && (n > 0 ==> x > 0.0)
  {
    var q, r := n / d, d as real;
    var low, high := q as real, (q + 1) as real;
    assert d * q <= n < d * (q + 1);
    assert (d * q) as real == r * low && (d * (q + 1)) as real == r * high;
    Below(low, x, r);
    StrictlyBelow(x, high, r);
  }

  lemma Below(x: real, y: real, d: real)
    requires d > 0.0 && x * d <= y * d
    ensures x <= y
  {
  }

  lemma StrictlyBelow(x: real, y: real, d: real)
    requires d > 0.0 && x * d < y * d
    ensures x < y
  {
  }

  lemma RatioTimes(x: int, y: nat, z: int)
    requires y > 0
    ensures Ratio(x, y) * (y * z) as real == (x * z) as real
  {
    ProductReal(y, z);
    ProductReal(x, z);
    Associate(Ratio(x, y), y as real, z as real);
    assert Ratio(x, y) * y as real == x as real;
  }

  lemma Reordered(a: int, b: int, c: int)
    ensures a * b * c == Product(b, c) * a && a * b * c == Product(a, b) * c && a * b * b == Product(b, b) * a
  {
  }

  /** The real increase, multiplied by the denominator, is the integer numerator. */
  lemma ExactTimes(e: Epsilon, cwnd: nat, rate: nat, cwndScaled: nat)
    requires e.den > 0 && cwnd > 0 && rate > 0
    ensures ExactChange(e, cwnd, rate, cwndScaled) * Denominator(e, cwnd, rate) as real
            == Numerator(e, rate, cwndScaled) as real
  {
    hide Ratio, Product;
    Positive(cwnd, rate);
    Positive(e.den, cwnd);
    var a, p, q := Product(cwndScaled, cwndScaled), Product(cwnd, rate), Product(e.den, cwnd);
    Reordered(e.den, cwnd, rate);
    Reordered(e.den, cwndScaled, 0);
    RatioTimes(a, p, e.den);
    RatioTimes(e.num, q, rate);
    Distribute(Ratio(a, p), Ratio(e.num, q), Denominator(e, cwnd, rate) as real);
  }

  lemma ProductReal(x: int, y: int)
    ensures (x * y) as real == x as real * y as real
  {
  }

  lemma Associate(x: real, y: real, z: real)
    ensures x * (y * z) == x * y * z
  {
  }

  lemma Distribute(x: real, y: real, d: real)
    ensures 1024.0 * (x + y) * d == 1024.0 * (x * d + y * d)
  {
  }

  /** While the products fit, the counter changes by OLIA's increase over the reals, truncated toward zero. */
  lemma ChangeExactly(e: Epsilon, cwnd: nat, rate: nat, cwndScaled: nat)
    requires Fits(e, cwnd, rate, cwndScaled)
    ensures Change(e, cwnd, rate, cwndScaled) == Truncate(ExactChange(e, cwnd, rate, cwndScaled))
  {
    hide Change, ExactChange, Truncate, Numerator, Denominator, TruncatedQuotient;
    assert e.den > 0 && cwnd > 0 && rate > 0;
    hide Fits;
    ChangeIsQuotient(e, cwnd, rate, cwndScaled);
    ExactTimes(e, cwnd, rate, cwndScaled);
    TruncateQuotient(ExactChange(e, cwnd, rate, cwndScaled), Numerator(e, rate, cwndScaled),
                     Denominator(e, cwnd, rate));
  }

  /** A change that was truncated toward zero is less than one away. */
  lemma TruncateClose(x: real)
    ensures -1.0 < x - Truncate(x) as real < 1.0
    ensures Truncate(x) > 0 <==> x >= 1.0
    ensures Truncate(x) < 0 <==> x <= -1.0
  {
  }

  /** Only a path with a negative term is ever slowed down, and it is slowed down only if its own share of the traffic
      is below the term. */
  lemma ChangeSigns(e: Epsilon, cwnd: nat, rate: nat, cwndScaled: nat)
    requires Fits(e, cwnd, rate, cwndScaled)
    ensures Change(e, cwnd, rate, cwndScaled) < 0 <==>
            e.num == -1 && Denominator(e, cwnd, rate) <= -Numerator(e, rate, cwndScaled)
    ensures Change(e, cwnd, rate, cwndScaled) < 0 ==> e.num == -1 && e.den * cwndScaled * cwndScaled < rate
    ensures Change(e, cwnd, rate, cwndScaled) > 0 <==> Denominator(e, cwnd, rate) <= Numerator(e, rate, cwndScaled)
  {
    ChangeIsQuotient(e, cwnd, rate, cwndScaled);
    NumeratorSign(e, rate, cwndScaled);
    hide Change, Numerator, Denominator;
    var n, d := Numerator(e, rate, cwndScaled), Denominator(e, cwnd, rate);
    if n >= 0 {
      QuotientPositive(n, d);
    } else {
      QuotientPositive(-n, d);
    }
  }

  lemma NumeratorSign(e: Epsilon, rate: nat, cwndScaled: nat)
    requires -1 <= e.num <= 1
    ensures Numerator(e, rate, cwndScaled) < 0 ==> e.num == -1 && e.den * cwndScaled * cwndScaled < rate
  {
    SquareSign(e.den, cwndScaled);
    assert e.num * rate == Signum(e.num, rate);
  }

  lemma QuotientPositive(n: nat, d: nat)
    requires d > 0
    ensures n / d >= 0 && (n / d > 0 <==> d <= n)
  {
  }

  /** Beyond 63 bits the change can be lost: the path with the smaller window should gain 32/1024 packets. */
  lemma ChangeWraps()
    ensures var e := Epsilon(1, 2);
            && !Fits(e, 16, 0x40_0000_0000_0000, 16 * SCALE)
            && Change(e, 16, 0x40_0000_0000_0000, 16 * SCALE) == 0
            && ExactChange(e, 16, 0x40_0000_0000_0000, 16 * SCALE) > 32.0
  {
  }

  // ---- The rate ----

  /** The sum of the scaled windows of all paths with a measured round trip, each in units of this path's round trip. */
  function ExactSum(senders: Senders, order: seq<nat>, rtt: nat): real
    requires forall id :: id in order ==> id in senders
  {
    if order == [] then 1.0
    else
      var s := senders[order[|order| - 1]];
      ExactSum(senders, order[..|order| - 1], rtt) +
      if s.rtt == 0 then 0.0 else Ratio(Product(s.cwnd * SCALE, rtt), s.rtt)
  }

  /** The products and the sum fit into a word. */
  ghost predicate SumFits(senders: Senders, order: seq<nat>, rtt: nat)
    requires forall id :: id in order ==> id in senders
  {
    && (forall id :: id in order ==> senders[id].cwnd * SCALE < WORD && Product(senders[id].cwnd * SCALE, rtt) < WORD)
    && ExactSum(senders, order, rtt) < WORD as real
  }

  lemma RatioFloor(x: nat, y: nat)
    requires y > 0
    ensures Quotient(x, y) as real <= Ratio(x, y) < Quotient(x, y) as real + 1.0
  {
    FloorQuotient(Ratio(x, y), x, y);
  }

  lemma RatioSign(x: nat, y: nat)
    requires y > 0
    ensures Ratio(x, y) >= 0.0
  {
  }

  /** While the products fit, the sum of getRate is less than one per path below the sum over the reals. */
  lemma {:induction false} SumExactly(senders: Senders, order: seq<nat>, rtt: nat)
    requires forall id :: id in order ==> id in senders
    requires SumFits(senders, order, rtt)
    ensures var sum, exact := RateSum(senders, order, rtt), ExactSum(senders, order, rtt);
            1 <= sum && sum as real <= exact <= (sum + |order|) as real
    decreases |order|
  {
    if order != [] {
      var n := |order| - 1;
      var s := senders[order[n]];
      hide Ratio, Quotient, Product, Word;
      if s.rtt != 0 {
        RatioSign(Product(s.cwnd * SCALE, rtt), s.rtt);
        RatioFloor(Product(s.cwnd * SCALE, rtt), s.rtt);
      }
      SumExactly(senders, order[..n], rtt);
      WordSmall(s.cwnd * SCALE);
      WordSmall(Product(s.cwnd * SCALE, rtt));
      if s.rtt != 0 {
        WordSmall(RateSum(senders, order[..n], rtt) + Quotient(Product(s.cwnd * SCALE, rtt), s.rtt));
      }
    }
  }

  /** The rate is the square of a number that is less than one per path below the sum over the reals. */
  lemma RateExactly(senders: Senders, order: seq<nat>, rtt: nat) returns (sum: nat)
    requires forall id :: id in order ==> id in senders
    requires SumFits(senders, order, rtt)
    ensures 1 <= sum && sum as real <= ExactSum(senders, order, rtt) <= (sum + |order|) as real
    ensures Product(sum, sum) < WORD ==> RateOf(senders, order, rtt) == Product(sum, sum)
  {
    sum := RateSum(senders, order, rtt);
    SumExactly(senders, order, rtt);
    hide Product, RateSum, ExactSum, SumFits, Word;
    if Product(sum, sum) < WORD {
      WordSmall(Product(sum, sum));
    }
  }

  // ---- The window ----

  /** The counter and the window after the counter reached t. */
  function Counter(t: int): int {
    if -1023 < t < 1023 then t else 0
  }

  function Moved(cwnd: nat, t: int): nat
    requires cwnd > 0
  {
    if t >= 1023 then cwnd + 1 else if t <= -1023 && cwnd > 1 then cwnd - 1 else cwnd
  }

  /** While the products fit, neither does the counter wrap. */
  lemma ChangeSmall(e: Epsilon, cwnd: nat, rate: nat, cwndScaled: nat)
    requires Fits(e, cwnd, rate, cwndScaled)
    ensures 1024 - WORD / 2 <= Change(e, cwnd, rate, cwndScaled) <= WORD / 2 - 1024
  {
    ChangeIsQuotient(e, cwnd, rate, cwndScaled);
    NumeratorSmall(e, rate, cwndScaled);
    hide Change, Fits, Numerator, Denominator;
    var n, d := Numerator(e, rate, cwndScaled), Denominator(e, cwnd, rate);
    QuotientSmall(if n >= 0 then n else -n, d);
  }

  lemma NumeratorSmall(e: Epsilon, rate: nat, cwndScaled: nat)
    requires -1 <= e.num <= 1 && (rate + e.den * cwndScaled * cwndScaled) * SCALE < WORD / 2
    ensures 1024 - WORD / 2 <= Numerator(e, rate, cwndScaled) <= WORD / 2 - 1024
  {
    SquareSign(e.den, cwndScaled);
    assert e.num * rate == Signum(e.num, rate);
  }

  lemma CarryExactly(o: Olia, cwnd: nat, change: int)
    requires ValidOlia(o) && 1 <= cwnd < WORD && 1024 - WORD / 2 <= change <= WORD / 2 - 1024
    ensures var t := o.count + change;
            Carry(o, cwnd, change) == (o.(count := Counter(t)), Moved(cwnd, t))
  {
  }

  /** The whole coupled increase: with the new term of the path and the rate of all paths, the counter moves by OLIA's
      increase over the reals, truncated; the window grows by one when the counter is at 1023 or above, and shrinks by
      one, down to one, when it is at -1023 or below. Nothing else changes but the terms. */
  lemma IncreaseExactly(senders: Senders, id: nat, orders: Orders)
    requires AllValid(senders) && id in senders && ValidOrders(senders, orders)
    requires forall x :: x in orders.rate ==> x in senders
    requires var s := senders[id];
             Fits(EpsilonFor(senders, orders, id), s.cwnd, RateOf(senders, orders.rate, s.rtt), s.cwnd * SCALE)
    ensures var s, e := senders[id], EpsilonFor(senders, orders, id);
            var rate := RateOf(senders, orders.rate, s.rtt);
            var t := s.olia.count + Truncate(ExactChange(e, s.cwnd, rate, s.cwnd * SCALE));
            Increase(senders, id, orders)
            == WithEpsilons(senders, orders)[id := s.(olia := s.olia.(epsilon := e, count := Counter(t)),
                                                      cwnd := Min(s.maxCwnd, Moved(s.cwnd, t)))]
  {
    hide EpsilonFor, ValidOrders, Word, AfterAck, RateOf, Fits, Truncate, ExactChange, Counter, Moved;
    var s, e := senders[id], EpsilonFor(senders, orders, id);
    var all := WithEpsilons(senders, orders);
    RateSame(senders, all, orders.rate, s.rtt);
    assert Valid(s);
    MoveExactly(s, e, RateOf(senders, orders.rate, s.rtt));
  }

  lemma MoveExactly(s: Sender, e: Epsilon, rate: nat)
    requires Valid(s) && Fits(e, s.cwnd, rate, s.cwnd * SCALE)
    ensures var t := s.olia.count + Truncate(ExactChange(e, s.cwnd, rate, s.cwnd * SCALE));
            AfterAck(s.olia.(epsilon := e), s.cwnd, rate, Word(s.cwnd * SCALE))
            == (s.olia.(epsilon := e, count := Counter(t)), Moved(s.cwnd, t))
  {
    hide Change, Counter, Moved, ExactChange, Truncate, Carry;
    ScaledFits(e, s.cwnd, rate);
    assert e.den > 0 && s.cwnd > 0 && rate > 0;
    hide Fits;
    ChangeExactly(e, s.cwnd, rate, s.cwnd * SCALE);
    ChangeSmall(e, s.cwnd, rate, s.cwnd * SCALE);
    CarryExactly(s.olia.(epsilon := e), s.cwnd, Change(e, s.cwnd, rate, s.cwnd * SCALE));
  }

  lemma ScaledFits(e: Epsilon, cwnd: nat, rate: nat)
    requires Fits(e, cwnd, rate, cwnd * SCALE)
    ensures Word(cwnd * SCALE) == cwnd * SCALE
  {
    var x := cwnd * SCALE;
    Positive(x, x);
    Larger(x, 1, x);
    Larger(e.den, 1, x * x);
    assert e.den * (x * x) == e.den * x * x;
    WordSmall(x);
    hide Word;
  }

  /** The rate depends only on windows and round trips. */
  lemma {:induction false} RateSame(senders: Senders, all: Senders, order: seq<nat>, rtt: nat)
    requires forall id :: id in order ==> id in senders && id in all
    requires forall id :: id in order ==> all[id].cwnd == senders[id].cwnd && all[id].rtt == senders[id].rtt
    ensures RateSum(all, order, rtt) == RateSum(senders, order, rtt)
    ensures RateOf(all, order, rtt) == RateOf(senders, order, rtt)
    decreases |order|
  {
    hide Word, Product, Quotient;
    if order != [] {
      RateSame(senders, all, order[..|order| - 1], rtt);
    }
  }

  // ---- The other changes of the window ----

  /** The factor of RenoBeta over the reals. */
  function Beta(connections: nat): real
    requires connections >= 1
  {
    ((connections - 1) as real + 0.7) / connections as real
  }

  /** The backoff is the window times the factor, rounded down. */
  lemma BackoffExactly(cwnd: nat, connections: nat)
    requires connections >= 1
    ensures Backoff(cwnd, connections) == (cwnd as real * Beta(connections)).Floor
  {
    var m := 10 * connections;
    var x := cwnd as real * Beta(connections);
    BetaTimes(cwnd as real, connections);
    ProductReal(cwnd, m - 3);
    assert Product(cwnd, m - 3) >= 0;
    hide Beta;
    FloorQuotient(x, Product(cwnd, m - 3), m);
  }

  lemma BetaTimes(x: real, connections: nat)
    requires connections >= 1
    ensures x * Beta(connections) * (10 * connections) as real == x * (10 * connections - 3) as real
  {
    var n := connections as real;
    var b := Beta(connections);
    assert b * n == n - 1.0 + 0.7;
    assert b * (10 * connections) as real == (10 * connections - 3) as real;
    Associate(x, b, (10 * connections) as real);
  }

  /** The window after a loss: one less in slow start with the large reduction, otherwise times the factor, but at least
      two; the interval since the loss before ends. Later losses of packets from before the cutback change the window
      only with the large reduction, if slow start ended there, for the first of them and whenever another full packet
      is lost. */
  lemma LossExactly(s: Sender, number: nat, lostBytes: nat)
    requires Valid(s)
    ensures var s' := OnPacketLost(s, number, lostBytes);
            if number > s.largestSentAtLastCutback then
              && s'.cwnd == Max(MIN_WINDOW, if s.slowStartLargeReduction && s.cwnd < s.ssthresh then s.cwnd - 1
                                            else Backoff(s.cwnd, s.connections))
              && s'.ssthresh == s'.cwnd && !InSlowStart(s')
              && s'.lastCutbackExitedSlowstart == (s.cwnd < s.ssthresh)
              && s'.slowstartPacketsLost == s.slowstartPacketsLost + (if s.cwnd < s.ssthresh then 1 else 0)
              && s'.slowstartBytesLost == s.slowstartBytesLost
              && (InRecovery(s') <==> s.largestAcked != 0 && s.largestAcked <= s.largestSent)
            else
              var counts := s.lastCutbackExitedSlowstart;
              && s'.cwnd == (if s.slowStartLargeReduction && counts
                                && (s.slowstartPacketsLost == 0
                                    || (s.slowstartBytesLost + lostBytes) / MSS > s.slowstartBytesLost / MSS)
                             then Max(MIN_WINDOW, s.cwnd - 1) else s.cwnd)
              && s'.ssthresh == (if s.slowStartLargeReduction && counts then s'.cwnd else s.ssthresh)
              && s'.slowstartPacketsLost == s.slowstartPacketsLost + (if counts then 1 else 0)
              && s'.slowstartBytesLost == s.slowstartBytesLost + (if counts then lostBytes else 0)
              && s'.lastCutbackExitedSlowstart == counts
  {
    hide Backoff;
  }

  /** A timeout ends recovery. With a retransmission the path starts again with two packets, in slow start if and
      only if it had at least six. */
  lemma TimeoutExactly(s: Sender, packetsRetransmitted: bool)
    ensures var s' := OnRetransmissionTimeout(s, packetsRetransmitted);
            && !InRecovery(s')
            && (packetsRetransmitted ==>
                  && s'.cwnd == 2 && s'.olia == NEW_OLIA && s'.ssthresh == s.cwnd / 2
                  && (InSlowStart(s') <==> s.cwnd >= 6))
            && (!packetsRetransmitted ==> s'.cwnd == s.cwnd && s'.ssthresh == s.ssthresh && s'.olia == s.olia)
  {
  }

  /** After a migration the path is a new one, but for the round trip, the settings and the statistics. */
  lemma MigrationExactly(s: Sender)
    ensures OnConnectionMigration(s)
            == NewSender(s.initialCwnd, s.initialMaxCwnd)
               .(rtt := s.rtt, connections := s.connections, slowStartLargeReduction := s.slowStartLargeReduction,
                 slowstartPacketsLost := s.slowstartPacketsLost, slowstartBytesLost := s.slowstartBytesLost)
  {
  }
}

/** What the counters and the window of a path remember of a run. */
module OliaHistory {

  import opened Wire
  import opened OliaEpsilon
  import opened OliaExact
  import opened OliaSpec

  // ---- Slow start ----

  /** An ACK for a packet that was sent after the last cutback, with a full window. */
  predicate FullAck(senders: Senders, id: nat, e: Event)
    requires id in senders
  {
    && e.Acked? && e.id == id && ValidOrders(senders, e.orders)
    && e.number > senders[id].largestSentAtLastCutback && e.bytesInFlight >= senders[id].maxCwnd * MSS
  }

  lemma SlowStartStep(senders: Senders, id: nat, e: Event)
    requires AllValid(senders) && id in senders && FullAck(senders, id, e)
    requires senders[id].cwnd < Min(senders[id].ssthresh, senders[id].maxCwnd)
    ensures var s, r := senders[id], Step(senders, e);
            && r.Keys == senders.Keys
            && r[id] == s.(cwnd := s.cwnd + 1, largestAcked := r[id].largestAcked, olia := r[id].olia)
            && r == senders[id := r[id]]
  {
    var s := Counted(senders[id], e.number, e.bytes);
    assert Valid(senders[id]);
    assert senders[id := s].Keys == senders.Keys;
    hide ValidOrders, Increase;
    assert Grows(s, e.bytesInFlight) && InSlowStart(s);
  }

  /** In slow start every ACK of a full window makes the window one packet larger: acknowledging all its packets doubles
      it, up to the threshold and the limit. */
  lemma {:induction false} SlowStartGrows(senders: Senders, id: nat, events: seq<Event>)
    requires AllValid(senders) && id in senders
    requires forall e :: e in events ==> FullAck(senders, id, e)
    requires senders[id].cwnd + |events| <= Min(senders[id].ssthresh, senders[id].maxCwnd)
    ensures var r := Run(senders, events);
            id in r && r[id].cwnd == senders[id].cwnd + |events|
    decreases |events|
  {
    if events != [] {
      var e := events[0];
      SlowStartStep(senders, id, e);
      StepValid(senders, e);
      hide Step;
      forall x | x in events[1..]
        ensures FullAck(Step(senders, e), id, x)
      {
        assert x in events && FullAck(senders, id, x);
      }
      hide FullAck;
      SlowStartGrows(Step(senders, e), id, events[1..]);
    }
  }

  /** What an ACK does to the window. In recovery, at the limit, or with more than three full packets of the window
      unused and, in slow start, at most half of it used, no window and no term changes; otherwise it grows by one
      packet in slow start, and by the coupled increase after it. */
  lemma AckedExactly(senders: Senders, id: nat, number: nat, bytes: nat, bytesInFlight: nat, orders: Orders)
    requires AllValid(senders) && id in senders && ValidOrders(senders, orders)
    ensures var s, acked := senders[id], Max(number, senders[id].largestAcked);
            var recovery := 0 < acked <= s.largestSentAtLastCutback;
            var slow := s.cwnd < s.ssthresh;
            var inUse := bytesInFlight + 3 * 1460 >= s.cwnd * 1460 || (slow && bytesInFlight > s.cwnd * 1460 / 2);
            var counted := s.(largestAcked := acked,
                              olia := s.olia.(loss3 := s.olia.loss3 + if recovery then 0 else bytes));
            && (senders[id := counted]).Keys == senders.Keys
            && OnPacketAcked(senders, id, number, bytes, bytesInFlight, orders)
               == if recovery || s.cwnd == s.maxCwnd || !inUse then senders[id := counted]
                  else if slow then senders[id := counted.(cwnd := s.cwnd + 1)]
                  else Increase(senders[id := counted], id, orders)
  {
    hide Increase, ValidOrders;
    assert Valid(senders[id]);
  }

  // ---- The last packet sent ----

  /** The number of the last retransmittable packet, or 0 if none was sent since the path started or migrated. */
  function NextSent(e: Event, id: nat, last: nat): nat {
    if e.id != id then last
    else
      match e
      case Sent(_, number, retransmittable) => if retransmittable then number else last
      case Opened(_, cwnd, max) => if id < MAX_PATHS && ValidConfig(cwnd, max) then 0 else last
      case Migrated(_) => 0
      case _ => last
  }

  function LastSent(events: seq<Event>, id: nat, last: nat): nat
    decreases |events|
  {
    if events == [] then last else LastSent(events[1..], id, NextSent(events[0], id, last))
  }

  /** The coupled increase leaves the packet numbers of all paths alone. */
  lemma IncreaseNumbers(senders: Senders, id: nat, orders: Orders, x: nat)
    requires id in senders && ValidOrders(senders, orders) && x in senders
    ensures Increase(senders, id, orders)[x].largestSent == senders[x].largestSent
  {
    hide EpsilonFor, ValidOrders, Word, AfterAck, RateOf;
  }

  lemma SentStep(senders: Senders, e: Event, id: nat, last: nat)
    requires AllValid(senders) && (id in senders ==> senders[id].largestSent == last)
    ensures id in Step(senders, e) ==> Step(senders, e)[id].largestSent == NextSent(e, id, last)
  {
    hide ValidOrders, Increase, Backoff, ValidConfig, Grows, InSlowStart, InRecovery;
    if id in senders && e.Acked? && e.id in senders && ValidOrders(senders, e.orders) {
      var senders1 := senders[e.id := Counted(senders[e.id], e.number, e.bytes)];
      assert senders1.Keys == senders.Keys;
      OrdersSame(senders, senders1, e.orders);
      IncreaseNumbers(senders1, e.id, e.orders, id);
    }
  }

  lemma {:induction false} SentRun(senders: Senders, events: seq<Event>, id: nat, last: nat)
    requires AllValid(senders) && (id in senders ==> senders[id].largestSent == last)
    ensures id in Run(senders, events) ==> Run(senders, events)[id].largestSent == LastSent(events, id, last)
    decreases |events|
  {
    if events != [] {
      StepValid(senders, events[0]);
      SentStep(senders, events[0], id, last);
      hide Step, NextSent, AllValid;
      SentRun(Step(senders, events[0]), events[1..], id, NextSent(events[0], id, last));
    }
  }

  /** In every run, once a loss cut the window, losses of packets up to the last retransmittable one sent before do
      not cut it again, unless the large reduction is on; the loss of a packet sent later does. */
  lemma OneCutPerWindow(events: seq<Event>, id: nat, number: nat, bytes: nat, later: nat, laterBytes: nat)
    requires id in Run(map[], events) && number > Run(map[], events)[id].largestSentAtLastCutback
    ensures var s := Run(map[], events)[id];
            var s1 := OnPacketLost(s, number, bytes);
            var s2 := OnPacketLost(s1, later, laterBytes);
            if later <= LastSent(events, id, 0) then s.slowStartLargeReduction || s2.cwnd == s1.cwnd
            else s2.cwnd <= Max(s1.cwnd - 1, MIN_WINDOW) && s2.largestSentAtLastCutback == LastSent(events, id, 0)
  {
    SentRun(map[], events, id, 0);
    var s := Run(map[], events)[id];
    hide Run, OnPacketLost, LastSent;
    assert Valid(s);
    LossCuts(s, number, bytes);
    LossExactly(s, number, bytes);
    LostValid(s, number, bytes);
    LossCuts(OnPacketLost(s, number, bytes), later, laterBytes);
    LossKeeps(s, number, bytes);
    LossKeeps(OnPacketLost(s, number, bytes), later, laterBytes);
  }

  lemma LossKeeps(s: Sender, number: nat, bytes: nat)
    requires Valid(s)
    ensures var s' := OnPacketLost(s, number, bytes);
            s'.largestSent == s.largestSent && s'.slowStartLargeReduction == s.slowStartLargeReduction
  {
    hide Backoff;
  }

  // ---- The bytes between losses ----

  /** The bytes that were acknowledged outside recovery, split at the losses that cut the window, since the path started
      or started again. */
  function Split(senders: Senders, e: Event, id: nat, parts: seq<nat>): (r: seq<nat>)
    requires parts != []
    ensures r != []
  {
    if e.id != id then parts
    else
      match e
      case Opened(_, cwnd, max) => if id < MAX_PATHS && ValidConfig(cwnd, max) then [0] else parts
      case Acked(_, number, bytes, _, orders) =>
        if id in senders && ValidOrders(senders, orders)
           && !InRecovery(senders[id].(largestAcked := Max(number, senders[id].largestAcked)))
        then parts[|parts| - 1 := parts[|parts| - 1] + bytes] else parts
      case Lost(_, number, _) =>
        if id in senders && number > senders[id].largestSentAtLastCutback then parts + [0] else parts
      case TimedOut(_, retransmitted) => if retransmitted then [0] else parts
      case Migrated(_) => [0]
      case _ => parts
  }

  ghost function Track(senders: Senders, events: seq<Event>, id: nat, parts: seq<nat>): (r: seq<nat>)
    requires AllValid(senders) && parts != []
    ensures r != []
    decreases |events|
  {
    if events == [] then parts
    else
      StepValid(senders, events[0]);
      Track(Step(senders, events[0]), events[1..], id, Split(senders, events[0], id, parts))
  }

  /** The part before the last one, or nothing. */
  function Previous(parts: seq<nat>): nat {
    if |parts| < 2 then 0 else parts[|parts| - 2]
  }

  /** The counters hold the last two parts. */
  predicate Remembers(o: Olia, parts: seq<nat>)
    requires parts != []
  {
    o.loss3 - o.loss2 == parts[|parts| - 1] && o.loss2 - o.loss1 == Previous(parts)
  }

  predicate SameLosses(o: Olia, o': Olia) {
    o.loss1 == o'.loss1 && o.loss2 == o'.loss2 && o.loss3 == o'.loss3
  }

  /** The coupled increase leaves the loss counters of all paths alone. */
  lemma IncreaseLosses(senders: Senders, id: nat, orders: Orders, x: nat)
    requires id in senders && ValidOrders(senders, orders) && x in senders
    ensures SameLosses(Increase(senders, id, orders)[x].olia, senders[x].olia)
  {
    hide EpsilonFor, ValidOrders, Word, Change, RateOf, Signed;
  }

  lemma AckedLosses(senders: Senders, id: nat, number: nat, bytes: nat, bytesInFlight: nat, orders: Orders, x: nat)
    requires id in senders && ValidOrders(senders, orders) && x in senders
    ensures var s := if x == id then Counted(senders[x], number, bytes) else senders[x];
            SameLosses(OnPacketAcked(senders, id, number, bytes, bytesInFlight, orders)[x].olia, s.olia)
  {
    hide Increase, ValidOrders, Grows, InSlowStart, Counted;
    var senders1 := senders[id := Counted(senders[id], number, bytes)];
    assert senders1.Keys == senders.Keys;
    OrdersSame(senders, senders1, orders);
    IncreaseLosses(senders1, id, orders, x);
  }

  lemma OrdersSame(senders: Senders, senders1: Senders, orders: Orders)
    requires ValidOrders(senders, orders) && senders1.Keys == senders.Keys
    ensures ValidOrders(senders1, orders)
  {
  }

  lemma SplitStep(senders: Senders, e: Event, id: nat, parts: seq<nat>)
    requires AllValid(senders) && parts != [] && (id in senders ==> Remembers(senders[id].olia, parts))
    ensures id in Step(senders, e) ==> Remembers(Step(senders, e)[id].olia, Split(senders, e, id, parts))
  {
    hide ValidOrders, OnPacketAcked, Backoff, ValidConfig;
    if id in senders && e.Acked? && e.id in senders && ValidOrders(senders, e.orders) {
      AckedLosses(senders, e.id, e.number, e.bytes, e.bytesInFlight, e.orders, id);
    }
  }

  lemma {:induction false} TrackRemembers(senders: Senders, events: seq<Event>, id: nat, parts: seq<nat>)
    requires AllValid(senders) && parts != [] && (id in senders ==> Remembers(senders[id].olia, parts))
    ensures id in Run(senders, events) ==> Remembers(Run(senders, events)[id].olia, Track(senders, events, id, parts))
    decreases |events|
  {
    if events != [] {
      StepValid(senders, events[0]);
      SplitStep(senders, events[0], id, parts);
      hide Step, Split, Remembers, AllValid;
      TrackRemembers(Step(senders, events[0]), events[1..], id, Split(senders, events[0], id, parts));
    }
  }

  /** In every run the bytes between losses of a path are the larger one of what was acknowledged since the last loss
      and of what was acknowledged between the two losses before. */
  lemma BytesExactly(events: seq<Event>, id: nat)
    ensures var r, parts := Run(map[], events), Track(map[], events, id, [0]);
            id in r && r[id].olia.loss3 < WORD ==>
              BytesBetweenLosses(r[id].olia) == Max(parts[|parts| - 1], Previous(parts))
  {
    hide Run, Track, BytesBetweenLosses, Previous, Word, Valid;
    TrackRemembers(map[], events, id, [0]);
    WindowsHold(events, id);
    var r, parts := Run(map[], events), Track(map[], events, id, [0]);
    if id in r {
      assert Remembers(r[id].olia, parts);
    }
  }
}

/** Olia (pstream/congestion/olia.go) and OliaSender (pstream/congestion/olia_sender.go), proved against OliaSpec. The
    loops of getEpsilon run over the map of all senders in any order. */
module OliaCongestion {

  import opened Wire
  import opened OliaEpsilon
  import Spec = OliaSpec

  class Olia {
    var loss1: nat
    var loss2: nat
    var loss3: nat
    var epsilonNum: int
    var epsilonDen: nat
    var sndCwndCnt: int

    function View(): Spec.Olia
      reads this
    {
      Spec.Olia(loss1, loss2, loss3, Epsilon(epsilonNum, epsilonDen), sndCwndCnt)
    }

    constructor ()
      ensures View() == Spec.NEW_OLIA
    {
      loss1, loss2, loss3, epsilonNum, epsilonDen, sndCwndCnt := 0, 0, 0, 0, 1, 0;
    }

    method Reset()
      modifies this
      ensures View() == Spec.NEW_OLIA
    {
      loss1, loss2, loss3, epsilonNum, epsilonDen, sndCwndCnt := 0, 0, 0, 0, 1, 0;
    }

    function SmoothedBytesBetweenLosses(): nat
      reads this`loss1, this`loss2, this`loss3
    {
      Max(Spec.Word(loss3 - loss2), Spec.Word(loss2 - loss1))
    }

    method UpdateAckedSinceLastLoss(ackedBytes: nat)
      modifies this`loss3
      ensures View() == old(View()).(loss3 := old(loss3) + ackedBytes)
    {
      loss3 := loss3 + ackedBytes;
    }

    method OnPacketLost()
      modifies this`loss1, this`loss2
      ensures View() == old(View()).(loss1 := old(loss2), loss2 := old(loss3))
    {
      loss1 := loss2;
      loss2 := loss3;
    }

    /** Lines 63 to 92. */
    method CongestionWindowAfterAck(currentWindow: nat, rate: nat, cwndScaled: nat) returns (newWindow: nat)
      modifies this`sndCwndCnt
      ensures (View(), newWindow) == Spec.AfterAck(old(View()), currentWindow, rate, cwndScaled)
    {
      hide Signed, Spec.Word;
      newWindow := currentWindow;
      var incDen := Max(Spec.Word(epsilonDen * currentWindow * rate), 1);
      var square := Spec.Word(epsilonDen * cwndScaled * cwndScaled);
      if epsilonNum == -1 {
        if square < rate {
          var incNum := rate - square;
          sndCwndCnt := Signed(sndCwndCnt + -Signed(Spec.Word(incNum * Spec.SCALE) / incDen));
        } else {
          var incNum := square - rate;
          sndCwndCnt := Signed(sndCwndCnt + Signed(Spec.Word(incNum * Spec.SCALE) / incDen));
        }
      } else {
        var incNum := Spec.Word(Spec.Word(epsilonNum) * rate + square);
        sndCwndCnt := Signed(sndCwndCnt + Signed(Spec.Word(incNum * Spec.SCALE) / incDen));
      }
      assert sndCwndCnt
             == Signed(old(sndCwndCnt) + Spec.Change(Epsilon(epsilonNum, epsilonDen), currentWindow, rate, cwndScaled));
      hide Spec.Change;
      if sndCwndCnt >= Spec.SCALE - 1 {
        newWindow := newWindow + 1;
        sndCwndCnt := 0;
      } else if sndCwndCnt <= 0 - Spec.SCALE + 1 {
        newWindow := Max(1, Spec.Word(currentWindow - 1));
        sndCwndCnt := 0;
      }
    }
  }

  class OliaSender {
    const olia: Olia
    const initialCongestionWindow: nat
    const initialMaxCongestionWindow: nat
    var smoothedRTT: nat
    var congestionWindow: nat
    var slowstartThreshold: nat
    var maxTCPCongestionWindow: nat
    var numConnections: nat
    var largestSentPacketNumber: nat
    var largestAckedPacketNumber: nat
    var largestSentAtLastCutback: nat
    var lastCutbackExitedSlowstart: bool
    var slowStartLargeReduction: bool
    var slowstartPacketsLost: nat
    var slowstartBytesLost: nat

    function View(): Spec.Sender
      reads this, olia
    {
      Spec.Sender(olia.View(), smoothedRTT, congestionWindow, slowstartThreshold, maxTCPCongestionWindow,
                  initialCongestionWindow, initialMaxCongestionWindow, numConnections,
                  largestSentPacketNumber, largestAckedPacketNumber, largestSentAtLastCutback,
                  lastCutbackExitedSlowstart, slowStartLargeReduction, slowstartPacketsLost, slowstartBytesLost)
    }

    constructor (initialCongestionWindow: nat, initialMaxCongestionWindow: nat)
      ensures fresh(olia) && View() == Spec.NewSender(initialCongestionWindow, initialMaxCongestionWindow)
    {
      olia := new Olia();
      smoothedRTT := 0;
      congestionWindow := initialCongestionWindow;
      slowstartThreshold := initialMaxCongestionWindow;
      maxTCPCongestionWindow := initialMaxCongestionWindow;
      this.initialCongestionWindow := initialCongestionWindow;
      this.initialMaxCongestionWindow := initialMaxCongestionWindow;
      numConnections := 2;
      largestSentPacketNumber, largestAckedPacketNumber, largestSentAtLastCutback := 0, 0, 0;
      lastCutbackExitedSlowstart, slowStartLargeReduction := false, false;
      slowstartPacketsLost, slowstartBytesLost := 0, 0;
    }

    predicate InSlowStart()
      reads this
    {
      congestionWindow * Spec.MSS < slowstartThreshold * Spec.MSS
    }

    predicate InRecovery()
      reads this
    {
      largestAckedPacketNumber <= largestSentAtLastCutback && largestAckedPacketNumber != 0
    }

    /** Lines 114 to 122. */
    predicate IsCwndLimited(bytesInFlight: nat)
      reads this
    {
      var window := congestionWindow * Spec.MSS;
      if bytesInFlight >= window then true
      else (InSlowStart() && bytesInFlight > window / 2) || window - bytesInFlight <= Spec.MAX_BURST
    }

    /** Lines 248 to 288. */
    method OnPacketLost(packetNumber: nat, lostBytes: nat)
      requires numConnections >= 1 && congestionWindow >= 1
      modifies this, olia
      ensures View() == Spec.OnPacketLost(old(View()), packetNumber, lostBytes)
    {
      hide Spec.Backoff;
      if packetNumber <= largestSentAtLastCutback {
        if lastCutbackExitedSlowstart {
          slowstartPacketsLost := slowstartPacketsLost + 1;
          slowstartBytesLost := slowstartBytesLost + lostBytes;
          if slowStartLargeReduction {
            if slowstartPacketsLost == 1
               || slowstartBytesLost / Spec.MSS > (slowstartBytesLost - lostBytes) / Spec.MSS {
              congestionWindow := Max(congestionWindow - 1, Spec.MIN_WINDOW);
            }
            slowstartThreshold := congestionWindow;
          }
        }
        return;
      }
      lastCutbackExitedSlowstart := Spec.InSlowStart(View());
      if lastCutbackExitedSlowstart {
        slowstartPacketsLost := slowstartPacketsLost + 1;
      }
      olia.OnPacketLost();
      var window;
      if slowStartLargeReduction && lastCutbackExitedSlowstart {
        window := congestionWindow - 1;
      } else {
        window := Spec.Backoff(congestionWindow, numConnections);
      }
      if window < Spec.MIN_WINDOW {
        window := Spec.MIN_WINDOW;
      }
      congestionWindow, slowstartThreshold, largestSentAtLastCutback := window, window, largestSentPacketNumber;
    }

    /** Lines 229 and 230. */
    method MoveWindow(rate: nat)
      modifies this`congestionWindow, olia`sndCwndCnt
      ensures var s := old(View());
              var (o, cwnd) := Spec.AfterAck(s.olia, s.cwnd, rate, Spec.Word(s.cwnd * Spec.SCALE));
              View() == s.(olia := o, cwnd := Min(s.maxCwnd, cwnd))
    {
      hide Spec.AfterAck, Spec.Word;
      var window := olia.CongestionWindowAfterAck(congestionWindow, rate, Spec.Word(congestionWindow * Spec.SCALE));
      congestionWindow := Min(maxTCPCongestionWindow, window);
    }

    method OnRetransmissionTimeout(packetsRetransmitted: bool)
      modifies this, olia
      ensures View() == Spec.OnRetransmissionTimeout(old(View()), packetsRetransmitted)
    {
      largestSentAtLastCutback := 0;
      if !packetsRetransmitted {
        return;
      }
      olia.Reset();
      slowstartThreshold := congestionWindow / 2;
      congestionWindow := Spec.MIN_WINDOW;
    }

    method OnConnectionMigration()
      modifies this, olia
      ensures View() == Spec.OnConnectionMigration(old(View()))
    {
      largestSentPacketNumber, largestAckedPacketNumber, largestSentAtLastCutback := 0, 0, 0;
      lastCutbackExitedSlowstart := false;
      olia.Reset();
      congestionWindow := initialCongestionWindow;
      slowstartThreshold := initialMaxCongestionWindow;
      maxTCPCongestionWindow := initialMaxCongestionWindow;
    }
  }

  // ---- The loops over all senders ----

  type Registry = map<nat, OliaSender>

  ghost function Olias(senders: Registry): set<Olia> {
    set id | id in senders :: senders[id].olia
  }

  /** Every path has its own sender. */
  ghost predicate Separate(senders: Registry) {
    forall i, j :: i in senders && j in senders && i != j ==>
      senders[i] != senders[j] && senders[i].olia != senders[j].olia
  }

  ghost function ViewAll(senders: Registry): Spec.Senders
    reads senders.Values, Olias(senders)
  {
    map id | id in senders :: senders[id].View()
  }

  /** What the loops of getEpsilon read of a sender. */
  function Shown(s: OliaSender): PathView
    reads s`congestionWindow, s`smoothedRTT, s.olia`loss1, s.olia`loss2, s.olia`loss3
  {
    PathView(s.congestionWindow, s.smoothedRTT, s.olia.SmoothedBytesBetweenLosses())
  }

  ghost predicate Shows(senders: Registry, views: map<nat, PathView>)
    reads senders.Values`congestionWindow, senders.Values`smoothedRTT
    reads Olias(senders)`loss1, Olias(senders)`loss2, Olias(senders)`loss3
  {
    views.Keys == senders.Keys && forall id :: id in senders ==> views[id] == Shown(senders[id])
  }

  /** An order in which Go may visit the keys of a map. */
  method Enumerate(ids: set<nat>) returns (order: seq<nat>)
    ensures Enumerates(order, ids) && forall id :: id in order <==> id in ids
  {
    order := [];
    var left := ids;
    while left != {}
      invariant left <= ids && Enumerates(order, ids - left)
      decreases left
    {
      var id :| id in left;
      Extends(order, ids - left, id);
      assert ids - left + {id} == ids - (left - {id});
      left := left - {id};
      order := order + [id];
    }
    assert ids - left == ids;
    Spec.EnumerationIn(order, ids);
  }

  lemma Extends(order: seq<nat>, ids: set<nat>, x: nat)
    requires Enumerates(order, ids) && x !in ids
    ensures Enumerates(order + [x], ids + {x})
  {
    Spec.EnumerationIn(order, ids);
    var s := set id | id in order + [x];
    assert forall id :: id in s <==> id in ids + {x};
  }

  lemma MaxNext(views: map<nat, PathView>, order: seq<nat>, i: nat)
    requires i < |order| && forall x :: x in order ==> x in views
    ensures MaxCwnd(views, order[..i + 1]) == Max(MaxCwnd(views, order[..i]), views[order[i]].cwnd)
  {
    assert order[..i + 1][..i] == order[..i];
  }

  lemma BestNext(views: map<nat, PathView>, order: seq<nat>, i: nat)
    requires i < |order| && forall x :: x in order ==> x in views
    ensures BestOf(views, order[..i + 1]) == Improve(views[order[i]], BestOf(views, order[..i]))
  {
    assert order[..i + 1][..i] == order[..i];
  }

  lemma RateNext(all: Spec.Senders, order: seq<nat>, rtt: nat, i: nat)
    requires i < |order| && forall x :: x in order ==> x in all
    ensures var s, sum := all[order[i]], Spec.RateSum(all, order[..i], rtt);
            Spec.RateSum(all, order[..i + 1], rtt) ==
              if s.rtt == 0 then sum
              else Spec.Word(sum + Spec.Quotient(Spec.Word(Product(Spec.Word(s.cwnd * Spec.SCALE), rtt)), s.rtt))
  {
    assert order[..i + 1][..i] == order[..i];
  }

  /** getMaxCwnd, lines 124 to 131. */
  method GetMaxCwnd(senders: Registry, ghost views: map<nat, PathView>) returns (bestCwnd: nat, order: seq<nat>)
    requires Shows(senders, views)
    ensures Enumerates(order, senders.Keys) && forall id :: id in order ==> id in views
    ensures bestCwnd == MaxCwnd(views, order)
  {
    order := Enumerate(senders.Keys);
    bestCwnd := 0;
    for i := 0 to |order|
      invariant bestCwnd == MaxCwnd(views, order[..i])
    {
      MaxNext(views, order, i);
      bestCwnd := Max(bestCwnd, senders[order[i]].congestionWindow);
    }
    assert order[..|order|] == order;
  }

  /** The comparison in lines 166 to 168. */
  predicate IsBest(s: OliaSender, best: Best)
    reads s`congestionWindow, s`smoothedRTT, s.olia`loss1, s.olia`loss2, s.olia`loss3
    ensures IsBest(s, best) == Beats(Shown(s), best)
  {
    Signed(Product(Signed(s.olia.SmoothedBytesBetweenLosses()), best.rtt))
    >= Signed(Product(Signed(best.bytes), Squared(s.smoothedRTT)))
  }

  /** Lines 165 to 172. */
  method FindBest(senders: Registry, ghost views: map<nat, PathView>) returns (best: Best, order: seq<nat>)
    requires Shows(senders, views)
    ensures Enumerates(order, senders.Keys) && forall id :: id in order ==> id in views
    ensures best == BestOf(views, order)
  {
    hide Beats, IsBest;
    order := Enumerate(senders.Keys);
    best := Best(0, 0);
    for i := 0 to |order|
      invariant best == BestOf(views, order[..i])
    {
      BestNext(views, order, i);
      var s := senders[order[i]];
      if IsBest(s, best) {
        best := Best(Squared(s.smoothedRTT), s.olia.SmoothedBytesBetweenLosses());
      }
    }
    assert order[..|order|] == order;
  }

  /** Lines 176 to 187: the counters are bytes. */
  method CountKinds(senders: Registry, ghost views: map<nat, PathView>, maxCwnd: nat, best: Best)
    returns (m: nat, bNotM: nat)
    requires Shows(senders, views)
    ensures m == |Largest(views, maxCwnd)| % 256
    ensures bNotM == |Collected(views, maxCwnd, best)| % 256
  {
    hide Beats, IsBest, Largest, Collected, Count, Low;
    var order := Enumerate(senders.Keys);
    CountEnds(views, maxCwnd, best, order);
    m, bNotM := 0, 0;
    for i := 0 to |order|
      invariant m == Low(Count(order[..i], Largest(views, maxCwnd)))
      invariant bNotM == Low(Count(order[..i], Collected(views, maxCwnd, best)))
    {
      CountNext(views, maxCwnd, best, order, i);
      var s := senders[order[i]];
      if s.congestionWindow == maxCwnd {
        m := (m + 1) % 256;
      } else if IsBest(s, best) {
        bNotM := (bNotM + 1) % 256;
      }
    }
    assert order[..|order|] == order;
  }

  /** The value of a byte that counts to n. */
  ghost function Low(n: nat): nat {
    n % 256
  }

  lemma CountNext(views: map<nat, PathView>, maxCwnd: nat, best: Best, order: seq<nat>, i: nat)
    requires i < |order| && order[i] in views
    ensures var n := Count(order[..i], Largest(views, maxCwnd));
            Low(Count(order[..i + 1], Largest(views, maxCwnd)))
            == if views[order[i]].cwnd == maxCwnd then (Low(n) + 1) % 256 else Low(n)
    ensures var n := Count(order[..i], Collected(views, maxCwnd, best));
            Low(Count(order[..i + 1], Collected(views, maxCwnd, best)))
            == if views[order[i]].cwnd != maxCwnd && Beats(views[order[i]], best) then (Low(n) + 1) % 256 else Low(n)
  {
    hide Beats;
    assert order[..i + 1][..i] == order[..i];
  }

  lemma CountEnds(views: map<nat, PathView>, maxCwnd: nat, best: Best, order: seq<nat>)
    requires Enumerates(order, views.Keys)
    ensures Low(Count(order, Largest(views, maxCwnd))) == |Largest(views, maxCwnd)| % 256
    ensures Low(Count(order, Collected(views, maxCwnd, best))) == |Collected(views, maxCwnd, best)| % 256
    ensures forall s :: Low(Count(order[..0], s)) == 0
  {
    hide Beats;
    assert Largest(views, maxCwnd) <= views.Keys && Collected(views, maxCwnd, best) <= views.Keys;
    CountIs(order, views.Keys, Largest(views, maxCwnd));
    CountIs(order, views.Keys, Collected(views, maxCwnd, best));
  }

  /** Lines 191 to 209: the term of one path. */
  method SetEpsilon(s: OliaSender, ghost views: map<nat, PathView>, ghost id: nat, n: nat,
                    maxCwnd: nat, best: Best, m: nat, bNotM: nat)
    requires id in views && views[id] == Shown(s) && n == |views|
    requires m == |Largest(views, maxCwnd)| % 256 && bNotM == |Collected(views, maxCwnd, best)| % 256
    modifies s.olia`epsilonNum, s.olia`epsilonDen
    ensures Epsilon(s.olia.epsilonNum, s.olia.epsilonDen) == EpsilonOf(views, maxCwnd, best, id)
  {
    hide Beats, IsBest, Largest, Collected;
    if bNotM == 0 {
      s.olia.epsilonNum, s.olia.epsilonDen := 0, 1;
    } else if s.congestionWindow < maxCwnd && IsBest(s, best) {
      s.olia.epsilonNum, s.olia.epsilonDen := 1, n * bNotM;
    } else if s.congestionWindow == maxCwnd {
      s.olia.epsilonNum, s.olia.epsilonDen := -1, n * m;
    } else {
      s.olia.epsilonNum, s.olia.epsilonDen := 0, 1;
    }
  }

  /** Lines 190 to 210. */
  method SetEpsilons(senders: Registry, ghost views: map<nat, PathView>, maxCwnd: nat, best: Best, m: nat, bNotM: nat)
    requires Separate(senders) && Shows(senders, views)
    requires m == |Largest(views, maxCwnd)| % 256 && bNotM == |Collected(views, maxCwnd, best)| % 256
    modifies Olias(senders)`epsilonNum, Olias(senders)`epsilonDen
    ensures forall id :: id in senders ==>
              Epsilon(senders[id].olia.epsilonNum, senders[id].olia.epsilonDen) == EpsilonOf(views, maxCwnd, best, id)
  {
    hide Largest, Collected, EpsilonOf, Shown;
    SameCount(senders, views);
    var order := Enumerate(senders.Keys);
    for i := 0 to |order|
      invariant forall k :: 0 <= k < i ==>
                  Epsilon(senders[order[k]].olia.epsilonNum, senders[order[k]].olia.epsilonDen)
                  == EpsilonOf(views, maxCwnd, best, order[k])
    {
      SetEpsilon(senders[order[i]], views, order[i], |senders|, maxCwnd, best, m, bNotM);
    }
  }

  lemma SameCount(senders: Registry, views: map<nat, PathView>)
    requires views.Keys == senders.Keys
    ensures |views| == |senders|
  {
    assert |views| == |views.Keys| && |senders| == |senders.Keys|;
  }

  lemma ShowsAll(senders: Registry)
    ensures Shows(senders, Spec.Views(ViewAll(senders)))
  {
  }

  /** getEpsilon, lines 150 to 211. */
  method GetEpsilon(senders: Registry) returns (ghost max: seq<nat>, ghost best: seq<nat>)
    requires Separate(senders)
    modifies Olias(senders)`epsilonNum, Olias(senders)`epsilonDen
    ensures Enumerates(max, senders.Keys) && Enumerates(best, senders.Keys)
    ensures forall id :: id in senders ==>
              Epsilon(senders[id].olia.epsilonNum, senders[id].olia.epsilonDen)
              == Spec.EpsilonFor(old(ViewAll(senders)), Spec.Orders(max, best, max), id)
  {
    ghost var views := Spec.Views(ViewAll(senders));
    ShowsAll(senders);
    hide Shows, ViewAll, Separate, Spec.Views;
    var maxCwnd, bestPath, m, bNotM;
    maxCwnd, max := GetMaxCwnd(senders, views);
    bestPath, best := FindBest(senders, views);
    m, bNotM := CountKinds(senders, views, maxCwnd, bestPath);
    SetEpsilons(senders, views, maxCwnd, bestPath, m, bNotM);
  }

  /** getEpsilon, as a change of all senders. */
  method UpdateEpsilons(senders: Registry) returns (ghost max: seq<nat>, ghost best: seq<nat>)
    requires Separate(senders)
    modifies Olias(senders)`epsilonNum, Olias(senders)`epsilonDen
    ensures Spec.ValidOrders(old(ViewAll(senders)), Spec.Orders(max, best, max))
    ensures ViewAll(senders) == Spec.WithEpsilons(old(ViewAll(senders)), Spec.Orders(max, best, max))
  {
    hide Spec.EpsilonFor, Separate, Enumerates;
    max, best := GetEpsilon(senders);
    ghost var before, orders := old(ViewAll(senders)), Spec.Orders(max, best, max);
    assert before.Keys == senders.Keys;
    forall id | id in senders
      ensures senders[id].View() == Spec.WithEpsilons(before, orders)[id]
    {
    }
    hide ViewAll, Spec.WithEpsilons;
    ViewsAre(senders, Spec.WithEpsilons(before, orders));
  }

  /** getRate, lines 133 to 148. */
  method GetRate(senders: Registry, pathRTT: nat, ghost all: Spec.Senders) returns (rate: nat, order: seq<nat>)
    requires all == ViewAll(senders)
    ensures Enumerates(order, senders.Keys) && forall id :: id in order ==> id in all
    ensures rate == Spec.RateOf(all, order, pathRTT)
  {
    hide Spec.Word, Spec.Quotient, Product;
    order := Enumerate(senders.Keys);
    rate := 1;
    for i := 0 to |order|
      invariant rate == Spec.RateSum(all, order[..i], pathRTT)
    {
      RateNext(all, order, pathRTT, i);
      var s := senders[order[i]];
      assert s.View() == all[order[i]];
      var scaledNum := Spec.Word(Product(Spec.Word(s.congestionWindow * Spec.SCALE), pathRTT));
      if s.smoothedRTT != 0 {
        rate := Spec.Word(rate + Spec.Quotient(scaledNum, s.smoothedRTT));
      }
    }
    assert order[..|order|] == order;
    rate := Spec.Word(Product(rate, rate));
  }

  /** Lines 227 to 230: the coupled increase. */
  method Increase(s: OliaSender, senders: Registry, ghost id: nat) returns (ghost orders: Spec.Orders)
    requires Separate(senders) && id in senders && senders[id] == s
    modifies s`congestionWindow, Olias(senders)
    ensures Spec.ValidOrders(old(ViewAll(senders)), orders)
    ensures ViewAll(senders) == Spec.Increase(old(ViewAll(senders)), id, orders)
  {
    var rate;
    rate, orders := CoupledRate(s, senders, id);
    hide Spec.WithEpsilons, Spec.AfterAck, Spec.RateOf, Spec.ValidOrders, Spec.Word;
    MoveOne(s, senders, id, rate, ViewAll(senders));
  }

  /** Lines 227 and 228: new terms for all paths, then the rate. */
  method CoupledRate(s: OliaSender, senders: Registry, ghost id: nat) returns (rate: nat, ghost orders: Spec.Orders)
    requires Separate(senders) && id in senders && senders[id] == s
    modifies Olias(senders)`epsilonNum, Olias(senders)`epsilonDen
    ensures Spec.ValidOrders(old(ViewAll(senders)), orders)
    ensures ViewAll(senders) == Spec.WithEpsilons(old(ViewAll(senders)), orders)
    ensures forall x :: x in orders.rate ==> x in senders
    ensures rate == Spec.RateOf(ViewAll(senders), orders.rate, s.View().rtt)
  {
    hide Spec.WithEpsilons, Spec.RateOf, Enumerates, Spec.EpsilonFor;
    ghost var before := ViewAll(senders);
    assert before.Keys == senders.Keys;
    ghost var max, best, rateOrder;
    max, best := UpdateEpsilons(senders);
    rate, rateOrder := GetRate(senders, s.smoothedRTT, ViewAll(senders));
    orders := Spec.Orders(max, best, rateOrder);
    SameEpsilons(before, max, best, rateOrder);
  }

  method MoveOne(s: OliaSender, senders: Registry, ghost id: nat, rate: nat, ghost all: Spec.Senders)
    requires Separate(senders) && id in senders && senders[id] == s && ViewAll(senders) == all
    modifies s`congestionWindow, s.olia`sndCwndCnt
    ensures var (o, cwnd) := Spec.AfterAck(all[id].olia, all[id].cwnd, rate, Spec.Word(all[id].cwnd * Spec.SCALE));
            ViewAll(senders) == all[id := all[id].(olia := o, cwnd := Min(all[id].maxCwnd, cwnd))]
  {
    hide Spec.AfterAck, Spec.Word;
    assert s.View() == all[id];
    s.MoveWindow(rate);
    forall x | x in senders && x != id
      ensures senders[x].View() == all[x]
    {
    }
    OnlyOneChanged(senders, all, id);
  }

  lemma SameEpsilons(before: Spec.Senders, max: seq<nat>, best: seq<nat>, rate: seq<nat>)
    requires Spec.ValidOrders(before, Spec.Orders(max, best, max)) && Enumerates(rate, before.Keys)
    ensures Spec.ValidOrders(before, Spec.Orders(max, best, rate))
    ensures Spec.WithEpsilons(before, Spec.Orders(max, best, rate))
            == Spec.WithEpsilons(before, Spec.Orders(max, best, max))
  {
  }

  lemma OnlyOneChanged(senders: Registry, all: Spec.Senders, id: nat)
    requires id in senders && all.Keys == senders.Keys
    requires forall x: nat :: x in senders && x != id ==> senders[x].View() == all[x]
    ensures ViewAll(senders) == all[id := senders[id].View()]
  {
  }

  /** OnPacketAcked and maybeIncreaseCwnd, lines 213 to 246. */
  method OnPacketAcked(s: OliaSender, senders: Registry, ghost id: nat, number: nat, bytes: nat, bytesInFlight: nat)
    returns (ghost orders: Spec.Orders)
    requires Separate(senders) && id in senders && senders[id] == s
    modifies s, Olias(senders)
    ensures var c := Spec.Counted(old(s.View()), number, bytes);
            var senders1 := old(ViewAll(senders))[id := c];
            if !Spec.Grows(c, bytesInFlight) then ViewAll(senders) == senders1
            else if Spec.InSlowStart(c) then ViewAll(senders) == senders1[id := c.(cwnd := c.cwnd + 1)]
            else Spec.ValidOrders(senders1, orders) && ViewAll(senders) == Spec.Increase(senders1, id, orders)
  {
    orders := Spec.Orders([], [], []);
    ghost var before := ViewAll(senders);
    hide Spec.Increase, Spec.ValidOrders, Spec.Counted, Spec.Grows, Spec.InSlowStart, ViewAll;
    ViewAt(senders, id);
    CountAcked(s, senders, id, number, bytes, before);
    var grows := MaybeIncrease(s, bytesInFlight);
    ViewAt(senders, id);
    if !grows {
      return;
    }
    var slow := s.InSlowStart();
    assert slow == Spec.InSlowStart(s.View()) by {
      SlowStart(s);
    }
    if slow {
      GrowByOne(s, senders, id, ViewAll(senders));
      return;
    }
    orders := Increase(s, senders, id);
  }

  lemma ViewAt(senders: Registry, id: nat)
    requires id in senders
    ensures id in ViewAll(senders) && ViewAll(senders)[id] == senders[id].View()
  {
  }

  lemma ViewsAre(senders: Registry, all: Spec.Senders)
    requires all.Keys == senders.Keys && forall id :: id in senders ==> senders[id].View() == all[id]
    ensures ViewAll(senders) == all
  {
  }

  lemma SlowStart(s: OliaSender)
    ensures s.InSlowStart() == Spec.InSlowStart(s.View())
  {
  }

  /** Lines 213 to 222 and 238: whether the window may grow. */
  method MaybeIncrease(s: OliaSender, bytesInFlight: nat) returns (grows: bool)
    ensures grows == Spec.Grows(s.View(), bytesInFlight)
  {
    grows := !s.InRecovery() && s.IsCwndLimited(bytesInFlight) && s.congestionWindow < s.maxTCPCongestionWindow;
  }

  /** Lines 235 to 241. */
  method CountAcked(s: OliaSender, senders: Registry, ghost id: nat, number: nat, bytes: nat, ghost all: Spec.Senders)
    requires Separate(senders) && id in senders && senders[id] == s && ViewAll(senders) == all
    modifies s`largestAckedPacketNumber, s.olia`loss3
    ensures ViewAll(senders) == all[id := Spec.Counted(all[id], number, bytes)]
  {
    assert s.View() == all[id];
    s.largestAckedPacketNumber := Max(number, s.largestAckedPacketNumber);
    if !s.InRecovery() {
      s.olia.UpdateAckedSinceLastLoss(bytes);
    }
    assert s.View() == Spec.Counted(all[id], number, bytes);
    forall x | x in senders && x != id
      ensures senders[x].View() == all[x]
    {
    }
    OnlyOneChanged(senders, all, id);
  }

  /** Line 224. */
  method GrowByOne(s: OliaSender, senders: Registry, ghost id: nat, ghost all: Spec.Senders)
    requires Separate(senders) && id in senders && senders[id] == s && ViewAll(senders) == all
    modifies s`congestionWindow
    ensures ViewAll(senders) == all[id := all[id].(cwnd := all[id].cwnd + 1)]
  {
    assert s.View() == all[id];
    s.congestionWindow := s.congestionWindow + 1;
    forall x | x in senders && x != id
      ensures senders[x].View() == all[x]
    {
    }
    OnlyOneChanged(senders, all, id);
  }
}

/**
 Exit rules of the backtest: the staged ladder, the two bracket exits that must fire at the same
 observation, and the windows that a long price history is fetched in.
 */
module ExitRules {
  import opened Wrappers
  import opened Arithmetic

  datatype Observation = Observation(time: int, price: real)

  datatype Leg = Leg(fraction: real, price: real, time: int)

  const EPS: real := 0.000000001

  // ------------------------------------------------------------------ the staged ladder

  datatype Rule = BaselineHold | StageRule | PercentRule | UnknownRule

  // The index of the first observation at or above a trigger, among those from i on.
  function FirstHit(prices: seq<Observation>, trigger: real, i: nat): (r: Option<nat>)
    requires i <= |prices|
    ensures r.Some? ==> i <= r.value < |prices| && prices[r.value].price >= trigger - EPS
    ensures forall k :: i <= k < (if r.Some? then r.value else |prices|) ==> prices[k].price < trigger - EPS
    decreases |prices| - i
  {
    if i == |prices| then None
    else if prices[i].price >= trigger - EPS then Some(i)
    else FirstHit(prices, trigger, i + 1)
  }

  function Triggers(rule: Rule, entry: real): Option<(real, real)> {
    match rule
    case StageRule => Some((0.60, 0.85))
    case PercentRule => Some((entry * 1.25, entry * 1.60))
    case _ => None
  }

  function HitLeg(prices: seq<Observation>, hit: Option<nat>): seq<Leg>
    requires hit.Some? ==> hit.value < |prices|
  {
    if hit.Some? then [Leg(0.5, prices[hit.value].price, prices[hit.value].time)] else []
  }

  // The legs of a staged exit, by which of the two triggers were reached; the rest is resolved.
  function Staged(prices: seq<Observation>, first: Option<nat>, second: Option<nat>, at: int, price: real): seq<Leg>
    requires (first.Some? ==> first.value < |prices|) && (second.Some? ==> second.value < |prices|)
  {
    var hit := HitLeg(prices, first) + HitLeg(prices, second);
    if |hit| == 0 then [Leg(1.0, price, at)] else if |hit| == 1 then hit + [Leg(0.5, price, at)] else hit
  }

  method ApplyExitLadder(rule: Rule, entry: real, prices: seq<Observation>, resolvedAt: int, resolvedPrice: real)
    returns (legs: Option<seq<Leg>>)
    ensures legs.None? <==> rule.UnknownRule?
    ensures rule.BaselineHold? ==> legs == Some([Leg(1.0, resolvedPrice, resolvedAt)])
    // Each stage sells half at the first observation that reaches its trigger.
    ensures Triggers(rule, entry).Some? ==>
      var t := Triggers(rule, entry).value;
      legs == Some(Staged(prices, FirstHit(prices, t.0, 0), FirstHit(prices, t.1, 0), resolvedAt, resolvedPrice))
  {
    if rule.BaselineHold? {
      return Some([Leg(1.0, resolvedPrice, resolvedAt)]);
    }
    if rule.UnknownRule? {
      return None;
    }
    var t := Triggers(rule, entry).value;
    var triggers := [t.0, t.1];
    var out: seq<Leg> := [];
    var remaining := 1.0;
    ghost var first, second := HitLeg(prices, FirstHit(prices, t.0, 0)), HitLeg(prices, FirstHit(prices, t.1, 0));
    for i := 0 to 2
      invariant out == if i == 0 then [] else if i == 1 then first else first + second
      invariant remaining == if |out| == 0 then 1.0 else if |out| == 1 then 0.5 else 0.0
    {
      var hit := FirstHit(prices, triggers[i], 0);
      if hit.Some? {
        out := out + [Leg(0.5, prices[hit.value].price, prices[hit.value].time)];
        remaining := remaining - 0.5;
      }
    }
    assert out == first + second;
    if remaining > EPS {
      assert [] + [Leg(remaining, resolvedPrice, resolvedAt)] == [Leg(remaining, resolvedPrice, resolvedAt)];
      out := out + [Leg(remaining, resolvedPrice, resolvedAt)];
    }
    return Some(out);
  }

  function Fractions(legs: seq<Leg>): real {
    if legs == [] then 0.0 else Fractions(legs[..|legs| - 1]) + legs[|legs| - 1].fraction
  }

  lemma FractionsOfOneOrTwo(legs: seq<Leg>)
    requires |legs| in {1, 2}
    ensures Fractions(legs) == if |legs| == 1 then legs[0].fraction else legs[0].fraction + legs[1].fraction
  {
    assert |legs| == 2 ==> legs[..1][..0] == [];
  }

  // One or two legs, each of a positive fraction, that add up to the whole position.
  lemma LadderSellsEverythingOnce(prices: seq<Observation>, first: Option<nat>, second: Option<nat>, at: int, price: real)
    requires (first.Some? ==> first.value < |prices|) && (second.Some? ==> second.value < |prices|)
    ensures var legs := Staged(prices, first, second, at, price);
      |legs| in {1, 2} && Fractions(legs) == 1.0 && forall i :: 0 <= i < |legs| ==> legs[i].fraction > 0.0
  {
    FractionsOfOneOrTwo(Staged(prices, first, second, at, price));
  }

  // A higher trigger is not reached earlier.
  lemma HigherTriggersHitLater(prices: seq<Observation>, a: real, b: real)
    requires a <= b
    ensures FirstHit(prices, b, 0).Some? ==>
      FirstHit(prices, a, 0).Some? && FirstHit(prices, a, 0).value <= FirstHit(prices, b, 0).value
  {
  }

  // With resolution last, the legs of a ladder leave in order of time.
  lemma LadderTimesAreOrdered(rule: Rule, entry: real, prices: seq<Observation>, at: int, price: real)
    requires entry >= 0.0 && Triggers(rule, entry).Some?
    requires forall i, j :: 0 <= i < j < |prices| ==> prices[i].time <= prices[j].time
    requires forall i :: 0 <= i < |prices| ==> prices[i].time <= at
    ensures var t := Triggers(rule, entry).value;
            var legs := Staged(prices, FirstHit(prices, t.0, 0), FirstHit(prices, t.1, 0), at, price);
            forall i, j :: 0 <= i < j < |legs| ==> legs[i].time <= legs[j].time
  {
    var t := Triggers(rule, entry).value;
    HigherTriggersHitLater(prices, t.0, t.1);
  }

  // Observation i is the first at or above a level, up to the tolerance.
  predicate FirstReaches(prices: seq<Observation>, level: real, i: nat) {
    && i < |prices| && prices[i].price >= level - 0.000000001
    && forall k :: 0 <= k < i ==> prices[k].price < level - 0.000000001
  }

  predicate NeverReaches(prices: seq<Observation>, level: real) {
    forall k :: 0 <= k < |prices| ==> prices[k].price < level - 0.000000001
  }

  // The levels of the two stages: 60 and 85 cents, or a quarter and three fifths above the entry price.
  predicate AreLevels(rule: Rule, entry: real, first: real, second: real) {
    || (rule.StageRule? && first == 0.6 && second == 0.85)
    || (rule.PercentRule? && first == entry + entry / 4.0 && second == entry + entry * 3.0 / 5.0)
  }

  // What a staged exit sells, by the prices alone: half at each level that is reached, and the rest when the
  // market is resolved.
  lemma WhatTheLadderSells(rule: Rule, entry: real, prices: seq<Observation>, at: int, price: real, first: real, second: real)
    requires AreLevels(rule, entry, first, second)
    ensures Triggers(rule, entry).Some?
    ensures var t := Triggers(rule, entry).value;
            var legs := Staged(prices, FirstHit(prices, t.0, 0), FirstHit(prices, t.1, 0), at, price);
      && (NeverReaches(prices, first) && NeverReaches(prices, second) ==> legs == [Leg(1.0, price, at)])
      && (forall i: nat :: FirstReaches(prices, first, i) && NeverReaches(prices, second) ==>
            legs == [Leg(0.5, prices[i].price, prices[i].time), Leg(0.5, price, at)])
      && (forall i: nat :: NeverReaches(prices, first) && FirstReaches(prices, second, i) ==>
            legs == [Leg(0.5, prices[i].price, prices[i].time), Leg(0.5, price, at)])
      && (forall i: nat, j: nat :: FirstReaches(prices, first, i) && FirstReaches(prices, second, j) ==>
            legs == [Leg(0.5, prices[i].price, prices[i].time), Leg(0.5, prices[j].price, prices[j].time)])
  {
    FirstHitReaches(prices, first);
    FirstHitReaches(prices, second);
    hide FirstHit, FirstReaches, NeverReaches;
  }

  lemma FirstHitReaches(prices: seq<Observation>, level: real)
    ensures forall i: nat :: FirstReaches(prices, level, i) <==> FirstHit(prices, level, 0) == Some(i)
    ensures NeverReaches(prices, level) <==> FirstHit(prices, level, 0) == None
  {
  }

  // ------------------------------------------------------------------ the net return of some legs

  function LegReturn(entry: real, leg: Leg, cost: real): real {
    var netEntry := entry + cost;
    if netEntry > 0.0 then (leg.price - cost - netEntry) / netEntry else 0.0
  }

  function NetReturn(entry: real, legs: seq<Leg>, cost: real): real {
    if legs == [] then 0.0
    else NetReturn(entry, legs[..|legs| - 1], cost)
         + Notional(LegReturn(entry, legs[|legs| - 1], cost), legs[|legs| - 1].fraction)
  }

  function WeightedTime(legs: seq<Leg>, from: int): real {
    if legs == [] then 0.0
    else WeightedTime(legs[..|legs| - 1], from)
         + Notional(Max((legs[|legs| - 1].time - from) as real, 0.0), legs[|legs| - 1].fraction)
  }

  method NetReturnForLegs(entry: real, legs: seq<Leg>, from: int, costCents: real) returns (total: real, weighted: real)
    ensures total == NetReturn(entry, legs, costCents / 100.0) && weighted == WeightedTime(legs, from)
  {
    var cost := costCents / 100.0;
    total, weighted := 0.0, 0.0;
    for i := 0 to |legs|
      invariant total == NetReturn(entry, legs[..i], cost) && weighted == WeightedTime(legs[..i], from)
    {
      assert legs[..i + 1][..i] == legs[..i];
      total := total + Notional(LegReturn(entry, legs[i], cost), legs[i].fraction);
      weighted := weighted + Notional(Max((legs[i].time - from) as real, 0.0), legs[i].fraction);
    }
    assert legs[..|legs|] == legs;
  }

  // A leg's proceeds, less the cost per side, are its return on the entry price with the cost.
  lemma ALegEarnsItsReturn(entry: real, leg: Leg, cost: real)
    ensures entry + cost > 0.0 ==> (1.0 + LegReturn(entry, leg, cost)) * (entry + cost) == leg.price - cost
    ensures entry + cost <= 0.0 ==> LegReturn(entry, leg, cost) == 0.0
  {
    if entry + cost > 0.0 {
      DivCancels(leg.price - cost - (entry + cost), entry + cost);
    }
  }

  lemma OneLeg(entry: real, leg: Leg, cost: real)
    ensures NetReturn(entry, [leg], cost) == LegReturn(entry, leg, cost) * leg.fraction
  {
    assert [leg][..0] == [];
  }

  // Where something was paid at all, a higher cost lowers a leg's return exactly when its price and the entry
  // price add up to something.
  lemma HigherCostsLowerALeg(entry: real, leg: Leg, cost: real, higher: real)
    requires entry + cost > 0.0 && cost < higher
    ensures LegReturn(entry, leg, higher) < LegReturn(entry, leg, cost) <==> entry + leg.price > 0.0
  {
    var a, b := entry + cost, entry + higher;
    var sum, step := entry + leg.price, higher - cost;
    var r, q := LegReturn(entry, leg, cost), LegReturn(entry, leg, higher);
    ALegEarnsItsReturn(entry, leg, cost);
    ALegEarnsItsReturn(entry, leg, higher);
    assert r * a == sum - 2.0 * a && q * b == sum - 2.0 * b;
    ReturnsCompared(r, q, a, b, sum);
  }

  lemma ReturnsCompared(r: real, q: real, a: real, b: real, sum: real)
    requires 0.0 < a < b && r * a == sum - 2.0 * a && q * b == sum - 2.0 * b
    ensures q < r <==> sum > 0.0
  {
    var x, y := r + 2.0, q + 2.0;
    assert x * a == sum && y * b == sum;
    assert (x - y) * a == y * (b - a) by {
      Distribute(x, y, a);
      Distribute(b, a, y);
    }
    SameSign(x - y, a, y, b - a);
    SameSign(y, b, sum, 1.0);
  }

  lemma SameSign(u: real, p: real, v: real, q: real)
    requires p > 0.0 && q > 0.0 && u * p == v * q
    ensures u > 0.0 <==> v > 0.0
  {
    if u > 0.0 {
      MulStrict(0.0, u, p);
    } else {
      MulMono(u, 0.0, p);
    }
    if v > 0.0 {
      MulStrict(0.0, v, q);
    } else {
      MulMono(v, 0.0, q);
    }
  }

  // So higher costs lower the net return of every exit that sells something at prices that are not negative.
  lemma {:induction false} HigherCostsReturnLess(entry: real, legs: seq<Leg>, cost: real, higher: real)
    requires entry > 0.0 && 0.0 <= cost < higher
    requires forall i :: 0 <= i < |legs| ==> legs[i].fraction > 0.0 && legs[i].price >= 0.0
    ensures legs != [] ==> NetReturn(entry, legs, higher) < NetReturn(entry, legs, cost)
  {
    if legs != [] {
      var g, x := legs[..|legs| - 1], legs[|legs| - 1];
      HigherCostsReturnLess(entry, g, cost, higher);
      HigherCostsLowerALeg(entry, x, cost, higher);
      MulStrict(LegReturn(entry, x, higher), LegReturn(entry, x, cost), x.fraction);
      if g == [] {
        assert NetReturn(entry, g, higher) == NetReturn(entry, g, cost);
      }
    }
  }

  lemma {:induction false} NetReturnWithin(entry: real, legs: seq<Leg>, cost: real, lo: real, hi: real)
    requires forall i :: 0 <= i < |legs| ==> legs[i].fraction >= 0.0 && lo <= LegReturn(entry, legs[i], cost) <= hi
    ensures Notional(lo, Fractions(legs)) <= NetReturn(entry, legs, cost) <= Notional(hi, Fractions(legs))
  {
    if legs == [] {
      NotionalSplits(lo, 0.0, 0.0);
      NotionalSplits(hi, 0.0, 0.0);
    } else {
      var n := |legs| - 1;
      var r, f, g := LegReturn(entry, legs[n], cost), legs[n].fraction, Fractions(legs[..n]);
      NetReturnWithin(entry, legs[..n], cost, lo, hi);
      NotionalMono(lo, r, f);
      NotionalMono(r, hi, f);
      NotionalSplits(lo, g, f);
      NotionalSplits(hi, g, f);
    }
  }

  // The net return of an exit lies between the returns of its legs.
  lemma NetReturnLiesBetweenLegs(entry: real, legs: seq<Leg>, cost: real, lo: real, hi: real)
    requires Fractions(legs) == 1.0
    requires forall i :: 0 <= i < |legs| ==> legs[i].fraction >= 0.0 && lo <= LegReturn(entry, legs[i], cost) <= hi
    ensures lo <= NetReturn(entry, legs, cost) <= hi
  {
    NetReturnWithin(entry, legs, cost, lo, hi);
    assert Notional(lo, 1.0) == lo && Notional(hi, 1.0) == hi;
  }

  // The time that a leg was held for, or nothing where it left before it began.
  function HeldFor(leg: Leg, from: int): int {
    if leg.time < from then 0 else leg.time - from
  }

  // The holding time lies between those of the legs.
  lemma HoldingTimeLiesBetweenLegs(legs: seq<Leg>, from: int, lo: int, hi: int)
    requires Fractions(legs) == 1.0
    requires forall i :: 0 <= i < |legs| ==> legs[i].fraction >= 0.0 && lo <= HeldFor(legs[i], from) <= hi
    ensures lo as real <= WeightedTime(legs, from) <= hi as real
  {
    HoldingTimeWithin(legs, from, lo, hi);
    assert Notional(lo as real, 1.0) == lo as real && Notional(hi as real, 1.0) == hi as real;
  }

  lemma {:induction false} HoldingTimeWithin(legs: seq<Leg>, from: int, lo: int, hi: int)
    requires forall i :: 0 <= i < |legs| ==> legs[i].fraction >= 0.0 && lo <= HeldFor(legs[i], from) <= hi
    ensures Notional(lo as real, Fractions(legs)) <= WeightedTime(legs, from) <= Notional(hi as real, Fractions(legs))
  {
    if legs == [] {
      NotionalSplits(lo as real, 0.0, 0.0);
      NotionalSplits(hi as real, 0.0, 0.0);
    } else {
      var n := |legs| - 1;
      var t, f, g := HeldFor(legs[n], from) as real, legs[n].fraction, Fractions(legs[..n]);
      HoldingTimeWithin(legs[..n], from, lo, hi);
      NotionalMono(lo as real, t, f);
      NotionalMono(t, hi as real, f);
      NotionalSplits(lo as real, g, f);
      NotionalSplits(hi as real, g, f);
    }
  }

  // ------------------------------------------------------------------ the bracket exits

  datatype Bracket = Bracket(takeProfit: real, stopLoss: real)

  function BracketOf(entry: real, tpPct: real, slPct: real): Bracket {
    Bracket(entry * (1.0 + tpPct), entry * (1.0 - slPct))
  }

  predicate Touches(b: Bracket, price: real) {
    price <= b.stopLoss + EPS || price >= b.takeProfit - EPS
  }

  // The first observation that touches the bracket, not later than the time exit.
  predicate IsFirstTouch(prices: seq<Observation>, until: int, b: Bracket, i: nat) {
    && i < |prices| && prices[i].time <= until && Touches(b, prices[i].price)
    && forall k :: 0 <= k < i ==> prices[k].time <= until && !Touches(b, prices[k].price)
  }

  method ApplyBracketExit(entry: real, prices: seq<Observation>, until: int, untilPrice: Option<real>, tpPct: real, slPct: real)
    returns (leg: Option<Leg>)
    ensures forall i: nat :: IsFirstTouch(prices, until, BracketOf(entry, tpPct, slPct), i) ==>
      leg == Some(Leg(1.0, prices[i].price, prices[i].time))
    ensures (forall i: nat :: !IsFirstTouch(prices, until, BracketOf(entry, tpPct, slPct), i)) ==>
      leg == if untilPrice.Some? then Some(Leg(1.0, untilPrice.value, until)) else None
  {
    var b := BracketOf(entry, tpPct, slPct);
    var i := 0;
    while i < |prices| && prices[i].time <= until
      invariant 0 <= i <= |prices|
      invariant forall k :: 0 <= k < i ==> prices[k].time <= until && !Touches(b, prices[k].price)
    {
      if prices[i].price <= b.stopLoss + EPS || prices[i].price >= b.takeProfit - EPS {
        assert IsFirstTouch(prices, until, b, i);
        return Some(Leg(1.0, prices[i].price, prices[i].time));
      }
      i := i + 1;
    }
    if untilPrice.None? {
      return None;
    }
    return Some(Leg(1.0, untilPrice.value, until));
  }

  datatype Why = TakeProfit | StopLoss | TimeExit

  datatype FineLeg = FineLeg(price: real, time: int, why: Why)

  method ApplyBracketExitC4(entry: real, prices: seq<Observation>, until: int, untilPrice: Option<real>,
                            tpPct: real, slPct: real, halfSpread: real, slippage: real)
    returns (leg: Option<FineLeg>)
    ensures var b := BracketOf(entry, tpPct, slPct);
      && (forall i: nat :: IsFirstTouch(prices, until, b, i) ==>
            leg == Some(if prices[i].price <= b.stopLoss + EPS
                        then FineLeg(b.stopLoss - halfSpread - slippage, prices[i].time, StopLoss)
                        else FineLeg(b.takeProfit, prices[i].time, TakeProfit)))
      && ((forall i: nat :: !IsFirstTouch(prices, until, b, i)) ==>
            leg == if untilPrice.Some? then Some(FineLeg(untilPrice.value, until, TimeExit)) else None)
  {
    var b := BracketOf(entry, tpPct, slPct);
    var i := 0;
    while i < |prices| && prices[i].time <= until
      invariant 0 <= i <= |prices|
      invariant forall k :: 0 <= k < i ==> prices[k].time <= until && !Touches(b, prices[k].price)
    {
      if prices[i].price <= b.stopLoss + EPS {
        assert IsFirstTouch(prices, until, b, i);
        return Some(FineLeg(b.stopLoss - halfSpread - slippage, prices[i].time, StopLoss));
      }
      if prices[i].price >= b.takeProfit - EPS {
        assert IsFirstTouch(prices, until, b, i);
        return Some(FineLeg(b.takeProfit, prices[i].time, TakeProfit));
      }
      i := i + 1;
    }
    if untilPrice.None? {
      return None;
    }
    return Some(FineLeg(untilPrice.value, until, TimeExit));
  }

  // Run side by side on one series: the two exits leave at the same time, if at all; a take-profit
  // fill is at most the plain one's print; a fill at the time exit is the same.
  method BothBracketExits(entry: real, prices: seq<Observation>, until: int, untilPrice: Option<real>,
                          tpPct: real, slPct: real, halfSpread: real, slippage: real)
    returns (plain: Option<Leg>, fine: Option<FineLeg>)
    ensures plain.Some? <==> fine.Some?
    ensures plain.Some? ==> plain.value.time == fine.value.time
    ensures plain.Some? && fine.value.why.TakeProfit? ==> fine.value.price <= plain.value.price + EPS
    ensures plain.Some? && fine.value.why.StopLoss? ==>
      plain.value.price <= fine.value.price + halfSpread + slippage + EPS
    ensures plain.Some? && fine.value.why.TimeExit? ==> plain.value.price == fine.value.price
  {
    plain := ApplyBracketExit(entry, prices, until, untilPrice, tpPct, slPct);
    fine := ApplyBracketExitC4(entry, prices, until, untilPrice, tpPct, slPct, halfSpread, slippage);
    ghost var b := BracketOf(entry, tpPct, slPct);
    if i: nat :| IsFirstTouch(prices, until, b, i) {
      assert fine.value.time == prices[i].time == plain.value.time;
    }
  }

  // The bracket lies the two shares of the entry price away from it, and its sides count as touched within the tolerance.
  lemma BracketByItsShares(entry: real, tpPct: real, slPct: real, price: real)
    ensures Touches(BracketOf(entry, tpPct, slPct), price) <==>
      price - entry >= entry * tpPct - 0.000000001 || entry - price >= entry * slPct - 0.000000001
  {
    Distribute(1.0, tpPct, entry);
    Distribute(1.0, slPct, entry);
  }

  // What comes after the first touch, or after the time exit, cannot matter.
  lemma LaterPricesDoNotMatter(prices: seq<Observation>, other: seq<Observation>, until: int, b: Bracket, n: nat, i: nat)
    requires n <= |prices| && n <= |other| && prices[..n] == other[..n]
    requires (exists k: nat :: k < n && IsFirstTouch(prices, until, b, k))
             || ((n == |prices| || prices[n].time > until) && (n == |other| || other[n].time > until))
    ensures IsFirstTouch(prices, until, b, i) <==> IsFirstTouch(other, until, b, i)
  {
    assert forall k :: 0 <= k < n ==> prices[k] == prices[..n][k] == other[..n][k] == other[k];
  }

  // The two sides of a bracket cannot be touched by one price, so which side is tested first is moot.
  lemma SidesExclude(entry: real, tpPct: real, slPct: real, price: real)
    requires BracketOf(entry, tpPct, slPct).takeProfit - BracketOf(entry, tpPct, slPct).stopLoss > 2.0 * EPS
    ensures var b := BracketOf(entry, tpPct, slPct);
            !(price <= b.stopLoss + EPS && price >= b.takeProfit - EPS)
  {
  }

  // ------------------------------------------------------------------ fetch windows

  datatype Window = Window(from: int, to: int)

  // Each window begins where the one before it ends.
  ghost predicate Consecutive(ws: seq<Window>) {
    && (forall i :: 0 <= i < |ws| ==> ws[i].from < ws[i].to)
    && (forall i, j :: 0 <= i < j < |ws| && j == i + 1 ==> ws[j].from == ws[i].to)
  }

  lemma ConsecutiveSnoc(ws: seq<Window>, w: Window)
    requires Consecutive(ws) && w.from < w.to && (ws != [] ==> ws[|ws| - 1].to == w.from)
    ensures Consecutive(ws + [w])
  {
  }

  method StitchWindows(start: int, end: int, length: nat) returns (ws: seq<Window>)
    requires length > 0
    ensures start >= end ==> ws == []
    ensures start < end ==> ws != [] && ws[0].from == start && ws[|ws| - 1].to == end
    ensures Consecutive(ws)
    ensures forall i :: 0 <= i < |ws| ==> ws[i].to - ws[i].from <= length
    // Only the last window may be short.
    ensures forall i :: 0 <= i < |ws| - 1 ==> ws[i].to - ws[i].from == length
  {
    ws := [];
    var cur := start;
    assert Consecutive([]);
    hide Consecutive;
    while cur < end
      invariant if ws == [] then cur == start else ws[0].from == start && ws[|ws| - 1].to == cur <= end
      invariant Consecutive(ws) && (ws != [] ==> start < end)
      invariant ws != [] ==> ws[|ws| - 1].to - ws[|ws| - 1].from <= length
      invariant ws != [] && cur < end ==> ws[|ws| - 1].to - ws[|ws| - 1].from == length
      invariant forall i :: 0 <= i < |ws| - 1 ==> ws[i].to - ws[i].from == length
    {
      var next := if cur + length < end then cur + length else end;
      ConsecutiveSnoc(ws, Window(cur, next));
      ws := ws + [Window(cur, next)];
      cur := next;
    }
  }

  lemma {:induction false} WindowsOrdered(ws: seq<Window>, i: nat, j: nat)
    requires Consecutive(ws) && i < j < |ws|
    ensures ws[i].to <= ws[j].from
  {
    if i + 1 < j {
      WindowsOrdered(ws, i, j - 1);
      assert ws[j - 1].to == ws[j].from;
    }
  }

  // Consecutive windows hold every instant of their span exactly once.
  lemma {:induction false} WindowsCoverExactlyOnce(ws: seq<Window>, t: int)
    requires Consecutive(ws) && ws != []
    ensures ws[0].from <= t < ws[|ws| - 1].to <==> exists i :: 0 <= i < |ws| && ws[i].from <= t < ws[i].to
    ensures forall i, j :: 0 <= i < |ws| && 0 <= j < |ws| && ws[i].from <= t < ws[i].to && ws[j].from <= t < ws[j].to ==> i == j
  {
    forall i, j | 0 <= i < j < |ws|
      ensures ws[i].to <= ws[j].from
    {
      WindowsOrdered(ws, i, j);
    }
    var n := |ws| - 1;
    if ws[0].from <= t < ws[n].to && t < ws[n].from {
      WindowsCoverExactlyOnce(ws[..n], t);
      assert ws[n - 1].to == ws[n].from;
      var i :| 0 <= i < n && ws[..n][i].from <= t < ws[..n][i].to;
      assert ws[i].from <= t < ws[i].to;
    }
  }
}

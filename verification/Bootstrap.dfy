/**
 The cluster bootstrap: whole clusters are drawn with replacement, and the interval is read off the
 sorted means by linear interpolation.  The draws of the generator are an input.
 */
module Bootstrap {
  import opened Wrappers
  import opened Arithmetic
  import opened Sums

  // ------------------------------------------------------------------ percentiles

  predicate Sorted(s: seq<real>) {
    forall i, j :: 0 <= i < j < |s| ==> s[i] <= s[j]
  }

  // The value at a fractional index.
  function Interpolate(s: seq<real>, x: real): real
    requires s != [] && 0.0 <= x <= (|s| - 1) as real
  {
    var lo := x.Floor;
    var hi := if lo + 1 < |s| - 1 then lo + 1 else |s| - 1;
    s[lo] + Notional(s[hi] - s[lo], x - lo as real)
  }

  function IndexOf(n: nat, pct: real): (x: real)
    requires n > 0 && 0.0 <= pct <= 100.0
    ensures 0.0 <= x <= (n - 1) as real
  {
    PctWithin(pct, (n - 1) as real);
    Notional(pct / 100.0, (n - 1) as real)
  }

  function Percentile(s: seq<real>, pct: real): real
    requires s != [] && 0.0 <= pct <= 100.0
  {
    if |s| == 1 then s[0] else Interpolate(s, IndexOf(|s|, pct))
  }

  lemma PctWithin(pct: real, m: real)
    requires 0.0 <= pct <= 100.0 && m >= 0.0
    ensures 0.0 <= Notional(pct / 100.0, m) <= m
  {
    NotionalMono(0.0, pct / 100.0, m);
    NotionalMono(pct / 100.0, 1.0, m);
  }

  lemma PartOfStep(d: real, f: real)
    requires d >= 0.0 && 0.0 <= f <= 1.0
    ensures 0.0 <= Notional(d, f) <= d
  {
    MulMono(0.0, f, d);
    MulMono(f, 1.0, d);
  }

  lemma PartGrows(d: real, f: real, g: real)
    requires d >= 0.0 && f <= g
    ensures Notional(d, f) <= Notional(d, g)
  {
    MulMono(f, g, d);
  }

  // Between two neighbouring ranks a percentile is read off the line that joins their values.
  lemma PercentileOnTheLine(s: seq<real>, pct: real, k: nat, part: real)
    requires 0.0 <= pct <= 100.0 && k + 1 < |s| && 0.0 <= part <= 1.0
    requires pct * (|s| - 1) as real == 100.0 * (k as real + part)
    ensures Percentile(s, pct) == s[k] + (s[k + 1] - s[k]) * part
  {
    var x := IndexOf(|s|, pct);
    assert 100.0 * x == pct * (|s| - 1) as real;
    assert x == k as real + part;
    if part < 1.0 {
      assert x.Floor == k;
    } else {
      assert x.Floor == k + 1;
    }
  }

  lemma InterpolationStaysInStep(s: seq<real>, x: real)
    requires Sorted(s) && s != [] && 0.0 <= x <= (|s| - 1) as real
    ensures s[x.Floor] <= Interpolate(s, x)
    ensures Interpolate(s, x) <= s[if x.Floor + 1 < |s| - 1 then x.Floor + 1 else |s| - 1]
  {
    var lo := x.Floor;
    var hi := if lo + 1 < |s| - 1 then lo + 1 else |s| - 1;
    assert s[lo] <= s[hi];
    PartOfStep(s[hi] - s[lo], x - lo as real);
  }

  lemma InterpolationIsMonotone(s: seq<real>, x: real, y: real)
    requires Sorted(s) && s != [] && 0.0 <= x <= y <= (|s| - 1) as real
    ensures Interpolate(s, x) <= Interpolate(s, y)
  {
    var lo := x.Floor;
    if lo == y.Floor {
      var hi := if lo + 1 < |s| - 1 then lo + 1 else |s| - 1;
      PartGrows(s[hi] - s[lo], x - lo as real, y - lo as real);
    } else {
      InterpolationStaysInStep(s, x);
      InterpolationStaysInStep(s, y);
      assert lo + 1 <= y.Floor;
    }
  }

  // On any sorted list a percentile lies between the ends and grows with its percentage.
  lemma PercentileIsBoundedAndMonotone(s: seq<real>, p: real, q: real)
    requires Sorted(s) && s != [] && 0.0 <= p <= q <= 100.0
    ensures s[0] <= Percentile(s, p) <= Percentile(s, q) <= s[|s| - 1]
  {
    if |s| > 1 {
      var x, y := IndexOf(|s|, p), IndexOf(|s|, q);
      NotionalMono(p / 100.0, q / 100.0, (|s| - 1) as real);
      InterpolationIsMonotone(s, x, y);
      InterpolationStaysInStep(s, x);
      InterpolationStaysInStep(s, y);
    }
  }

  // ------------------------------------------------------------------ sorting

  function Insert(s: seq<real>, v: real): seq<real> {
    if s == [] || s[|s| - 1] <= v then s + [v] else Insert(s[..|s| - 1], v) + [s[|s| - 1]]
  }

  function Sort(s: seq<real>): seq<real> {
    if s == [] then [] else Insert(Sort(s[..|s| - 1]), s[|s| - 1])
  }

  predicate Within(s: seq<real>, lo: real, hi: real) {
    forall i :: 0 <= i < |s| ==> lo <= s[i] <= hi
  }

  lemma {:induction false} InsertKeepsValues(s: seq<real>, v: real)
    ensures |Insert(s, v)| == |s| + 1 && multiset(Insert(s, v)) == multiset(s) + multiset{v}
  {
    if !(s == [] || s[|s| - 1] <= v) {
      InsertKeepsValues(s[..|s| - 1], v);
      assert s == s[..|s| - 1] + [s[|s| - 1]];
    }
  }

  lemma InsertKeeps(s: seq<real>, v: real, lo: real, hi: real)
    requires Within(s, lo, hi) && lo <= v <= hi
    ensures Within(Insert(s, v), lo, hi)
  {
  }

  lemma {:induction false} InsertKeepsOrder(s: seq<real>, v: real)
    requires Sorted(s)
    ensures Sorted(Insert(s, v))
  {
    if !(s == [] || s[|s| - 1] <= v) {
      var g, x := s[..|s| - 1], s[|s| - 1];
      InsertKeepsOrder(g, v);
      var lo := if g == [] || v <= g[0] then v else g[0];
      InsertKeeps(g, v, lo, x);
    }
  }

  lemma {:induction false} SortKeeps(s: seq<real>, lo: real, hi: real)
    requires Within(s, lo, hi)
    ensures Sorted(Sort(s)) && Within(Sort(s), lo, hi) && |Sort(s)| == |s| && multiset(Sort(s)) == multiset(s)
  {
    if s == [] {
    } else {
      SortKeeps(s[..|s| - 1], lo, hi);
      InsertKeepsOrder(Sort(s[..|s| - 1]), s[|s| - 1]);
      InsertKeeps(Sort(s[..|s| - 1]), s[|s| - 1], lo, hi);
      InsertKeepsValues(Sort(s[..|s| - 1]), s[|s| - 1]);
      assert s == s[..|s| - 1] + [s[|s| - 1]];
    }
  }

  lemma {:induction false} SortKeepsLength(s: seq<real>)
    ensures |Sort(s)| == |s|
  {
    if s == [] {
    } else {
      SortKeepsLength(s[..|s| - 1]);
      InsertKeepsValues(Sort(s[..|s| - 1]), s[|s| - 1]);
    }
  }

  // ------------------------------------------------------------------ means

  function Mean(s: seq<real>): real
    requires s != []
  {
    Sum(s) / |s| as real
  }

  lemma MeanTimesCount(s: seq<real>)
    requires s != []
    ensures Mean(s) * |s| as real == Sum(s)
  {
    DivCancels(Sum(s), |s| as real);
  }

  lemma {:induction false} SumWithin(s: seq<real>, lo: real, hi: real)
    requires Within(s, lo, hi)
    ensures Notional(lo, |s| as real) <= Sum(s) <= Notional(hi, |s| as real)
  {
    if s == [] {
      NotionalSplits(lo, 0.0, 0.0);
      NotionalSplits(hi, 0.0, 0.0);
    } else {
      SumWithin(s[..|s| - 1], lo, hi);
      var n := (|s| - 1) as real;
      NotionalSplits(lo, n, 1.0);
      NotionalSplits(hi, n, 1.0);
      assert Notional(lo, 1.0) == lo && Notional(hi, 1.0) == hi;
    }
  }

  lemma MeanWithin(s: seq<real>, lo: real, hi: real)
    requires s != [] && Within(s, lo, hi)
    ensures lo <= Mean(s) <= hi
  {
    SumWithin(s, lo, hi);
    DivBetween(Sum(s), |s| as real, lo, hi);
  }

  // ------------------------------------------------------------------ clusters

  datatype Observation = Observation(cluster: string, value: real)

  function Values(obs: seq<Observation>): seq<real> {
    if obs == [] then [] else Values(obs[..|obs| - 1]) + [obs[|obs| - 1].value]
  }

  // The values of one cluster, in order.
  function Group(obs: seq<Observation>, c: string): seq<real> {
    if obs == [] then []
    else Group(obs[..|obs| - 1], c) + if obs[|obs| - 1].cluster == c then [obs[|obs| - 1].value] else []
  }

  // The clusters, each once, in the order they first appear.
  function Clusters(obs: seq<Observation>): seq<string> {
    if obs == [] then []
    else
      var front := Clusters(obs[..|obs| - 1]);
      if obs[|obs| - 1].cluster in front then front else front + [obs[|obs| - 1].cluster]
  }

  // The values of the drawn clusters, one draw after another.
  function Pool(obs: seq<Observation>, drawn: seq<string>): seq<real> {
    if drawn == [] then [] else Pool(obs, drawn[..|drawn| - 1]) + Group(obs, drawn[|drawn| - 1])
  }

  predicate ValuesWithin(obs: seq<Observation>, lo: real, hi: real) {
    forall i :: 0 <= i < |obs| ==> lo <= obs[i].value <= hi
  }

  predicate AllFrom(drawn: seq<string>, clusters: seq<string>) {
    forall i :: 0 <= i < |drawn| ==> drawn[i] in clusters
  }

  // A draw picks existing clusters, as many as there are.
  predicate IsDraw(drawn: seq<string>, obs: seq<Observation>) {
    |drawn| == |Clusters(obs)| && AllFrom(drawn, Clusters(obs))
  }

  predicate AreDraws(draws: seq<seq<string>>, obs: seq<Observation>) {
    forall b :: 0 <= b < |draws| ==> IsDraw(draws[b], obs)
  }

  lemma {:induction false} GroupHasItsValues(obs: seq<Observation>, c: string, lo: real, hi: real)
    requires ValuesWithin(obs, lo, hi)
    ensures Within(Group(obs, c), lo, hi)
    ensures Group(obs, c) != [] <==> c in Clusters(obs)
  {
    if obs == [] {
    } else {
      GroupHasItsValues(obs[..|obs| - 1], c, lo, hi);
    }
  }

  lemma {:induction false} PoolWithin(obs: seq<Observation>, drawn: seq<string>, lo: real, hi: real)
    requires ValuesWithin(obs, lo, hi) && AllFrom(drawn, Clusters(obs))
    ensures Within(Pool(obs, drawn), lo, hi)
    ensures drawn != [] ==> Pool(obs, drawn) != []
  {
    if drawn == [] {
    } else {
      PoolWithin(obs, drawn[..|drawn| - 1], lo, hi);
      GroupHasItsValues(obs, drawn[|drawn| - 1], lo, hi);
    }
  }

  // A draw always pools something.
  lemma DrawsPoolSomething(obs: seq<Observation>, drawn: seq<string>, lo: real, hi: real)
    requires obs != [] && ValuesWithin(obs, lo, hi) && IsDraw(drawn, obs)
    ensures Pool(obs, drawn) != [] && lo <= Mean(Pool(obs, drawn)) <= hi
  {
    assert Clusters(obs) != [];
    PoolWithin(obs, drawn, lo, hi);
    MeanWithin(Pool(obs, drawn), lo, hi);
  }

  function Least(obs: seq<Observation>): (m: real)
    requires obs != []
    ensures forall i :: 0 <= i < |obs| ==> m <= obs[i].value
    ensures exists i :: 0 <= i < |obs| && m == obs[i].value
  {
    var n := |obs| - 1;
    if n == 0 then obs[0].value
    else
      var m := Least(obs[..n]);
      if obs[n].value < m then obs[n].value else m
  }

  function Greatest(obs: seq<Observation>): (m: real)
    requires obs != []
    ensures forall i :: 0 <= i < |obs| ==> obs[i].value <= m
    ensures exists i :: 0 <= i < |obs| && m == obs[i].value
  {
    var n := |obs| - 1;
    if n == 0 then obs[0].value
    else
      var m := Greatest(obs[..n]);
      if m < obs[n].value then obs[n].value else m
  }

  function DrawMean(obs: seq<Observation>, drawn: seq<string>): real
    requires obs != [] && IsDraw(drawn, obs)
  {
    DrawsPoolSomething(obs, drawn, Least(obs), Greatest(obs));
    Mean(Pool(obs, drawn))
  }

  function BootMeans(obs: seq<Observation>, draws: seq<seq<string>>): (means: seq<real>)
    requires obs != [] && AreDraws(draws, obs)
    ensures |means| == |draws|
  {
    if draws == [] then [] else BootMeans(obs, draws[..|draws| - 1]) + [DrawMean(obs, draws[|draws| - 1])]
  }

  // ------------------------------------------------------------------ the interval

  datatype Interval = Interval(low: real, high: real)

  function Tail(level: real): real {
    (1.0 - level) / 2.0
  }

  function IntervalOf(sorted: seq<real>, level: real): Interval
    requires sorted != [] && 0.0 <= level <= 1.0
  {
    Interval(Percentile(sorted, Tail(level) * 100.0), Percentile(sorted, (1.0 - Tail(level)) * 100.0))
  }

  // The interval is read off at two percentages that lie as far from the ends as each other, and the level apart.
  lemma BothEndsCutOffTheSame(s: seq<real>, level: real, low: real, high: real)
    requires s != [] && 0.0 <= level <= 1.0 && low + high == 100.0 && high - low == 100.0 * level
    ensures IntervalOf(s, level) == Interval(Percentile(s, low), Percentile(s, high))
  {
    assert low == Tail(level) * 100.0;
  }

  lemma IntervalIsOrdered(s: seq<real>, level: real)
    requires Sorted(s) && s != [] && 0.0 <= level <= 1.0
    ensures s[0] <= IntervalOf(s, level).low <= IntervalOf(s, level).high <= s[|s| - 1]
  {
    PercentileIsBoundedAndMonotone(s, Tail(level) * 100.0, (1.0 - Tail(level)) * 100.0);
  }

  // A higher level never gives a narrower interval.
  lemma HigherLevelIsWider(s: seq<real>, level: real, higher: real)
    requires Sorted(s) && s != [] && 0.0 <= level <= higher <= 1.0
    ensures IntervalOf(s, higher).low <= IntervalOf(s, level).low
    ensures IntervalOf(s, level).high <= IntervalOf(s, higher).high
  {
    PercentileIsBoundedAndMonotone(s, Tail(higher) * 100.0, Tail(level) * 100.0);
    PercentileIsBoundedAndMonotone(s, (1.0 - Tail(level)) * 100.0, (1.0 - Tail(higher)) * 100.0);
  }

  function BootInterval(obs: seq<Observation>, draws: seq<seq<string>>, level: real): Interval
    requires obs != [] && draws != [] && AreDraws(draws, obs) && 0.0 <= level <= 1.0
  {
    SortKeepsLength(BootMeans(obs, draws));
    IntervalOf(Sort(BootMeans(obs, draws)), level)
  }

  lemma {:induction false} MeansWithin(obs: seq<Observation>, draws: seq<seq<string>>, lo: real, hi: real)
    requires obs != [] && AreDraws(draws, obs) && ValuesWithin(obs, lo, hi)
    ensures Within(BootMeans(obs, draws), lo, hi)
  {
    if draws == [] {
    } else {
      MeansWithin(obs, draws[..|draws| - 1], lo, hi);
      DrawsPoolSomething(obs, draws[|draws| - 1], lo, hi);
    }
  }

  // Whatever clusters the generator draws, the interval lies within the observed values.
  lemma IntervalIsBounded(obs: seq<Observation>, draws: seq<seq<string>>, level: real)
    requires obs != [] && draws != [] && AreDraws(draws, obs) && 0.0 <= level <= 1.0
    ensures var r := BootInterval(obs, draws, level);
            Least(obs) <= r.low <= r.high <= Greatest(obs)
  {
    MeansWithin(obs, draws, Least(obs), Greatest(obs));
    SortKeeps(BootMeans(obs, draws), Least(obs), Greatest(obs));
    SortKeepsLength(BootMeans(obs, draws));
    IntervalIsOrdered(Sort(BootMeans(obs, draws)), level);
  }

  // ------------------------------------------------------------------ a single cluster

  predicate OneCluster(obs: seq<Observation>, c: string) {
    forall i :: 0 <= i < |obs| ==> obs[i].cluster == c
  }

  lemma {:induction false} OneClusterIsEverything(obs: seq<Observation>, c: string)
    requires OneCluster(obs, c)
    ensures Group(obs, c) == Values(obs)
    ensures obs != [] ==> Clusters(obs) == [c]
  {
    if obs == [] {
    } else {
      OneClusterIsEverything(obs[..|obs| - 1], c);
    }
  }

  lemma DrawOfOneCluster(obs: seq<Observation>, drawn: seq<string>, c: string)
    requires obs != [] && OneCluster(obs, c) && IsDraw(drawn, obs)
    ensures Pool(obs, drawn) == Values(obs)
  {
    OneClusterIsEverything(obs, c);
    assert drawn[0] in Clusters(obs) && drawn[..0] == [];
    assert drawn == [c];
    assert Pool(obs, drawn) == [] + Group(obs, c);
  }

  lemma {:induction false} EveryMeanIsTheMean(obs: seq<Observation>, draws: seq<seq<string>>, c: string)
    requires obs != [] && AreDraws(draws, obs) && OneCluster(obs, c) && Values(obs) != []
    ensures Within(BootMeans(obs, draws), Mean(Values(obs)), Mean(Values(obs)))
  {
    hide Pool, Values, Clusters, OneCluster, Mean;
    if draws == [] {
    } else {
      EveryMeanIsTheMean(obs, draws[..|draws| - 1], c);
      DrawOfOneCluster(obs, draws[|draws| - 1], c);
    }
  }

  // With a single cluster every resample is the sample, and the interval is the observed mean.
  lemma SingleClusterCollapses(obs: seq<Observation>, draws: seq<seq<string>>, level: real, c: string)
    requires obs != [] && draws != [] && AreDraws(draws, obs) && 0.0 <= level <= 1.0
    requires OneCluster(obs, c)
    ensures Values(obs) != []
    ensures var r := BootInterval(obs, draws, level); r.low == r.high == Mean(Values(obs))
  {
    var m := Mean(Values(obs));
    EveryMeanIsTheMean(obs, draws, c);
    SortKeeps(BootMeans(obs, draws), m, m);
    SortKeepsLength(BootMeans(obs, draws));
    IntervalIsOrdered(Sort(BootMeans(obs, draws)), level);
  }

  // ------------------------------------------------------------------ every cluster once

  // Drawing every cluster exactly once pools the sample itself.
  lemma {:induction false} DrawingEachOnceIsTheSample(obs: seq<Observation>, drawn: seq<string>)
    requires forall i, j :: 0 <= i < j < |drawn| ==> drawn[i] != drawn[j]
    requires forall i :: 0 <= i < |obs| ==> obs[i].cluster in drawn
    ensures multiset(Pool(obs, drawn)) == multiset(Values(obs))
  {
    hide Pool;
    if obs == [] {
      EmptyPool(drawn);
    } else {
      var g, x := obs[..|obs| - 1], obs[|obs| - 1];
      DrawingEachOnceIsTheSample(g, drawn);
      OneMoreObservation(g, x, drawn);
      assert obs == g + [x];
    }
  }

  lemma {:induction false} EmptyPool(drawn: seq<string>)
    ensures Pool([], drawn) == []
  {
    if drawn == [] {
    } else {
      EmptyPool(drawn[..|drawn| - 1]);
    }
  }

  // What one more observation adds to the pool of some clusters.
  function Extra(x: Observation, drawn: seq<string>): multiset<real> {
    if x.cluster in drawn then multiset{x.value} else multiset{}
  }

  lemma GroupSnoc(obs: seq<Observation>, x: Observation, c: string)
    ensures multiset(Group(obs + [x], c)) == multiset(Group(obs, c)) + Extra(x, [c])
  {
    assert (obs + [x])[..|obs|] == obs;
  }

  lemma PoolLast(obs: seq<Observation>, drawn: seq<string>)
    requires drawn != []
    ensures multiset(Pool(obs, drawn)) == multiset(Pool(obs, drawn[..|drawn| - 1])) + multiset(Group(obs, drawn[|drawn| - 1]))
  {
  }

  lemma ExtraSplits(x: Observation, g: seq<string>, c: string)
    requires c !in g
    ensures Extra(x, g + [c]) == Extra(x, g) + Extra(x, [c])
  {
  }

  lemma {:induction false} OneMoreObservation(obs: seq<Observation>, x: Observation, drawn: seq<string>)
    requires forall i, j :: 0 <= i < j < |drawn| ==> drawn[i] != drawn[j]
    ensures multiset(Pool(obs + [x], drawn)) == multiset(Pool(obs, drawn)) + Extra(x, drawn)
  {
    if drawn == [] {
    } else {
      hide *;
      var g, c := drawn[..|drawn| - 1], drawn[|drawn| - 1];
      assert drawn == g + [c];
      OneMoreObservation(obs, x, g);
      GroupSnoc(obs, x, c);
      PoolLast(obs, drawn);
      PoolLast(obs + [x], drawn);
      ExtraSplits(x, g, c);
    }
  }

  // ------------------------------------------------------------------ the loops

  datatype Result =
    | Done(mean: real, interval: Interval, observations: nat, clusters: nat)
    | LengthMismatch
    | NoObservations

  function Zip(ids: seq<string>, values: seq<real>): (obs: seq<Observation>)
    requires |ids| == |values|
    ensures |obs| == |ids| && forall i :: 0 <= i < |ids| ==> obs[i] == Observation(ids[i], values[i])
  {
    seq(|ids|, i requires 0 <= i < |ids| => Observation(ids[i], values[i]))
  }

  lemma {:induction false} ZipValues(ids: seq<string>, values: seq<real>)
    requires |ids| == |values|
    ensures Values(Zip(ids, values)) == values
  {
    if ids == [] {
    } else {
      var n := |ids| - 1;
      ZipValues(ids[..n], values[..n]);
      assert Zip(ids, values)[..n] == Zip(ids[..n], values[..n]);
    }
  }

  // The map holds the values of every cluster, and nothing else.
  ghost predicate Grouped(byCluster: map<string, seq<real>>, obs: seq<Observation>) {
    forall c :: if c in Clusters(obs) then c in byCluster && byCluster[c] == Group(obs, c)
                else c !in byCluster && Group(obs, c) == []
  }

  lemma NothingGrouped(obs: seq<Observation>)
    ensures Clusters(obs[..0]) == [] && Grouped(map[], obs[..0])
  {
  }

  lemma AllGrouped(byCluster: map<string, seq<real>>, obs: seq<Observation>)
    requires Grouped(byCluster, obs[..|obs|])
    ensures obs[..|obs|] == obs
    ensures forall c :: c in byCluster <==> c in Clusters(obs)
    ensures forall c :: c in byCluster ==> byCluster[c] == Group(obs, c)
  {
    assert obs[..|obs|] == obs;
    hide Group, Clusters;
  }

  lemma GroupsGrow(byCluster: map<string, seq<real>>, obs: seq<Observation>, i: nat)
    requires i < |obs| && Grouped(byCluster, obs[..i])
    ensures var c, v := obs[i].cluster, obs[i].value;
      && (c in byCluster <==> c in Clusters(obs[..i]))
      && Clusters(obs[..i + 1]) == (if c in byCluster then Clusters(obs[..i]) else Clusters(obs[..i]) + [c])
      && Grouped(byCluster[c := (if c in byCluster then byCluster[c] else []) + [v]], obs[..i + 1])
  {
    assert obs[..i + 1][..i] == obs[..i];
  }

  method GroupByCluster(obs: seq<Observation>) returns (byCluster: map<string, seq<real>>, unique: seq<string>)
    ensures unique == Clusters(obs)
    ensures forall c :: c in byCluster <==> c in unique
    ensures forall c :: c in byCluster ==> byCluster[c] == Group(obs, c)
  {
    hide *;
    byCluster, unique := map[], [];
    NothingGrouped(obs);
    for i := 0 to |obs|
      invariant unique == Clusters(obs[..i]) && Grouped(byCluster, obs[..i])
    {
      var c, v := obs[i].cluster, obs[i].value;
      GroupsGrow(byCluster, obs, i);
      if c in byCluster {
        byCluster := byCluster[c := byCluster[c] + [v]];
      } else {
        unique := unique + [c];
        byCluster := byCluster[c := [] + [v]];
      }
    }
    AllGrouped(byCluster, obs);
  }

  method PoolDraw(obs: seq<Observation>, byCluster: map<string, seq<real>>, drawn: seq<string>) returns (pooled: seq<real>)
    requires forall c :: c in byCluster ==> byCluster[c] == Group(obs, c)
    requires AllFrom(drawn, Clusters(obs)) && forall c :: c in Clusters(obs) ==> c in byCluster
    ensures pooled == Pool(obs, drawn)
  {
    pooled := [];
    for k := 0 to |drawn|
      invariant pooled == Pool(obs, drawn[..k])
    {
      assert drawn[..k + 1][..k] == drawn[..k];
      pooled := pooled + byCluster[drawn[k]];
    }
    assert drawn[..|drawn|] == drawn;
  }

  method ClusterBootstrapCi(values: seq<real>, ids: seq<string>, draws: seq<seq<string>>, level: real) returns (r: Result)
    requires draws != [] && 0.0 <= level <= 1.0
    requires |values| == |ids| ==> AreDraws(draws, Zip(ids, values))
    ensures r.LengthMismatch? <==> |values| != |ids|
    ensures r.NoObservations? <==> |values| == |ids| == 0
    ensures r.Done? ==>
      var obs := Zip(ids, values);
      && r.interval == BootInterval(obs, draws, level)
      && r.mean == Mean(values) && r.observations == |values| && r.clusters == |Clusters(obs)|
  {
    hide Pool, Group, Sort, Percentile, Sum;
    if |values| != |ids| {
      return LengthMismatch;
    }
    if values == [] {
      return NoObservations;
    }
    var obs := Zip(ids, values);
    var byCluster, unique := GroupByCluster(obs);
    var means: seq<real> := [];
    for b := 0 to |draws|
      invariant AreDraws(draws[..b], obs) && means == BootMeans(obs, draws[..b])
    {
      assert draws[..b + 1][..b] == draws[..b];
      var pooled := PoolDraw(obs, byCluster, draws[b]);
      DrawsPoolSomething(obs, draws[b], Least(obs), Greatest(obs));
      means := means + [Mean(pooled)];
    }
    assert draws[..|draws|] == draws;
    SortKeepsLength(means);
    return Done(Mean(values), IntervalOf(Sort(means), level), |values|, |unique|);
  }
}

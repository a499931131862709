/**
 Point-in-time wallet scores: only positions closed inside the formation window count, and the batch over
 all wallets gives each wallet the score it would get alone.
 */
module Scoring {
  import opened Wrappers
  import opened Arithmetic
  import opened Sums
  import opened Sequences

  type Wallet = string

  datatype ClosedRow = ClosedRow(
    wallet: Wallet,
    cost: real,
    pnl: real,
    entry: real,
    closedAt: int,
    source: Option<string>)

  datatype Config = Config(
    window: nat,
    excludedSources: set<string>,
    sybilExclusion: bool,
    minPositions: nat,
    minMeanRoi: real,
    skillRequired: bool,
    concentrationCap: real)

  datatype Reason = SybilFlagged | MinClosedPositions | MinMeanRoi | SkillVsImplied | ConcentrationCap

  datatype Score = Score(
    qualified: bool,
    meanRoi: Option<real>,
    winRate: Option<real>,
    impliedWinRate: Option<real>,
    positions: nat,
    concentration: Option<real>,
    reasons: seq<Reason>)

  // ------------------------------------------------------------------ what counts at a time

  // Closed before the time and not before the window; a row without a source is trusted.
  predicate Counts(r: ClosedRow, asOf: int, c: Config) {
    && asOf - c.window <= r.closedAt < asOf
    && (r.source.Some? ==> r.source.value !in c.excludedSources)
  }

  function CountsAt(asOf: int, c: Config): ClosedRow -> bool {
    (r: ClosedRow) => Counts(r, asOf, c)
  }

  function IsOf(w: Wallet): ClosedRow -> bool {
    (r: ClosedRow) => r.wallet == w
  }

  function InWindow(rows: seq<ClosedRow>, asOf: int, c: Config): seq<ClosedRow> {
    Filter(rows, CountsAt(asOf, c))
  }

  function OfWallet(rows: seq<ClosedRow>, w: Wallet): seq<ClosedRow> {
    Filter(rows, IsOf(w))
  }

  // ------------------------------------------------------------------ the score of some positions

  function RoiOf(): ClosedRow -> real {
    (r: ClosedRow) => if r.cost > 0.0 then r.pnl / r.cost else 0.0
  }

  function HasCost(): ClosedRow -> real {
    (r: ClosedRow) => if r.cost > 0.0 then 1.0 else 0.0
  }

  function IsWin(): ClosedRow -> real {
    (r: ClosedRow) => if r.pnl > 0.0 then 1.0 else 0.0
  }

  function EntryOf(): ClosedRow -> real {
    (r: ClosedRow) => r.entry
  }

  function AbsPnl(): ClosedRow -> real {
    (r: ClosedRow) => Abs(r.pnl)
  }

  function MaxAbs(rows: seq<ClosedRow>): (m: real)
    ensures m >= 0.0
  {
    if rows == [] then 0.0 else Max(MaxAbs(rows[..|rows| - 1]), Abs(rows[|rows| - 1].pnl))
  }

  function MeanRoi(rows: seq<ClosedRow>): Option<real> {
    var n := SumBy(rows, HasCost());
    if n > 0.0 then Some(SumBy(rows, RoiOf()) / n) else None
  }

  function Concentration(rows: seq<ClosedRow>): real {
    var total := SumBy(rows, AbsPnl());
    if total > 0.0 then MaxAbs(rows) / total else 0.0
  }

  function When(b: bool, r: Reason): seq<Reason> {
    if b then [r] else []
  }

  function Qualify(rows: seq<ClosedRow>, c: Config, sybil: bool): Score {
    var n := |rows|;
    var first := When(c.sybilExclusion && sybil, SybilFlagged) + When(n < c.minPositions, MinClosedPositions);
    if n == 0 then Score(false, None, None, None, 0, None, first)
    else
      var roi := MeanRoi(rows);
      var winRate := SumBy(rows, IsWin()) / n as real;
      var implied := SumBy(rows, EntryOf()) / n as real;
      var concentration := Concentration(rows);
      var reasons := first
        + When(roi.None? || roi.value < c.minMeanRoi, MinMeanRoi)
        + When(c.skillRequired && winRate <= implied, SkillVsImplied)
        + When(concentration > c.concentrationCap, ConcentrationCap);
      Score(reasons == [], roi, Some(winRate), Some(implied), n, Some(concentration), reasons)
  }

  function FlagOf(sybils: map<Wallet, bool>, w: Wallet): bool {
    w in sybils && sybils[w]
  }

  function ScoreWallet(rows: seq<ClosedRow>, w: Wallet, asOf: int, c: Config, sybils: map<Wallet, bool>): Score {
    Qualify(OfWallet(InWindow(rows, asOf, c), w), c, FlagOf(sybils, w))
  }

  // ------------------------------------------------------------------ no lookahead

  function CountsFor(w: Wallet, asOf: int, c: Config): ClosedRow -> bool {
    (r: ClosedRow) => Counts(r, asOf, c) && r.wallet == w
  }

  // Closed at the time or later, or before the window, or in an excluded way, or another wallet's.
  predicate IsOutside(r: ClosedRow, w: Wallet, asOf: int, c: Config) {
    || r.closedAt >= asOf || r.closedAt < asOf - c.window
    || (r.source.Some? && r.source.value in c.excludedSources) || r.wallet != w
  }

  // Rows that lie outside the window, come from an excluded source or belong to another wallet can be
  // put in, taken out or replaced anywhere without changing the score.
  lemma OnlyTheWindowMatters(front: seq<ClosedRow>, removed: seq<ClosedRow>, added: seq<ClosedRow>, back: seq<ClosedRow>,
                             w: Wallet, asOf: int, c: Config, sybils: map<Wallet, bool>)
    requires forall i :: 0 <= i < |removed| ==> IsOutside(removed[i], w, asOf, c)
    requires forall i :: 0 <= i < |added| ==> IsOutside(added[i], w, asOf, c)
    ensures ScoreWallet(front + removed + back, w, asOf, c, sybils) == ScoreWallet(front + added + back, w, asOf, c, sybils)
  {
    RowsOfThree(front, removed, back, w, asOf, c);
    RowsOfThree(front, added, back, w, asOf, c);
    FilterDrops(removed, CountsFor(w, asOf, c));
    FilterDrops(added, CountsFor(w, asOf, c));
  }

  lemma RowsOfThree(a: seq<ClosedRow>, b: seq<ClosedRow>, d: seq<ClosedRow>, w: Wallet, asOf: int, c: Config)
    ensures var p := CountsFor(w, asOf, c);
            OfWallet(InWindow(a + b + d, asOf, c), w) == Filter(a, p) + Filter(b, p) + Filter(d, p)
  {
    var p := CountsFor(w, asOf, c);
    FilterTwice(a + b + d, CountsAt(asOf, c), IsOf(w), p);
    FilterAppend(a + b, d, p);
    FilterAppend(a, b, p);
  }

  // One for a row of the wallet that was closed in the window, before the time, in a way that is allowed.
  function InsideOne(w: Wallet, asOf: int, c: Config): ClosedRow -> real {
    (r: ClosedRow) =>
      if r.wallet == w && asOf - c.window <= r.closedAt && r.closedAt < asOf && (r.source.None? || r.source.value !in c.excludedSources)
      then 1.0 else 0.0
  }

  lemma {:induction false} FilterCountsOnes(rows: seq<ClosedRow>, p: ClosedRow -> bool, one: ClosedRow -> real)
    requires forall r :: one(r) == if p(r) then 1.0 else 0.0
    ensures |Filter(rows, p)| as real == SumBy(rows, one)
  {
    if rows == [] {
    } else {
      FilterCountsOnes(rows[..|rows| - 1], p, one);
    }
  }

  // A score counts exactly these rows.
  lemma ScoreCountsTheWindow(rows: seq<ClosedRow>, w: Wallet, asOf: int, c: Config, sybils: map<Wallet, bool>)
    ensures ScoreWallet(rows, w, asOf, c, sybils).positions as real == SumBy(rows, InsideOne(w, asOf, c))
  {
    FilterTwice(rows, CountsAt(asOf, c), IsOf(w), CountsFor(w, asOf, c));
    FilterCountsOnes(rows, CountsFor(w, asOf, c), InsideOne(w, asOf, c));
  }

  lemma ScoredExactlyWithAPosition(rows: seq<ClosedRow>, w: Wallet, asOf: int, c: Config)
    ensures OfWallet(InWindow(rows, asOf, c), w) != [] <==> exists i :: 0 <= i < |rows| && !IsOutside(rows[i], w, asOf, c)
  {
    var p := CountsFor(w, asOf, c);
    FilterTwice(rows, CountsAt(asOf, c), IsOf(w), p);
    if forall i :: 0 <= i < |rows| ==> IsOutside(rows[i], w, asOf, c) {
      FilterDrops(rows, p);
    }
    if i :| 0 <= i < |rows| && !IsOutside(rows[i], w, asOf, c) {
      FilterCounts(rows, p, rows[i]);
      assert rows[i] in multiset(rows);
    }
  }

  // ------------------------------------------------------------------ what a score says

  function CostOne(): ClosedRow -> real {
    (r: ClosedRow) => if r.cost > 0.0 then 1.0 else 0.0
  }

  function WinOne(): ClosedRow -> real {
    (r: ClosedRow) => if r.pnl > 0.0 then 1.0 else 0.0
  }

  function Return(): ClosedRow -> real {
    (r: ClosedRow) => if r.cost > 0.0 then r.pnl / r.cost else 0.0
  }

  function Entry(): ClosedRow -> real {
    (r: ClosedRow) => r.entry
  }

  function Size(): ClosedRow -> real {
    (r: ClosedRow) => if r.pnl < 0.0 then -r.pnl else r.pnl
  }

  // Each figure of a score is the mean or the share of the rows that it should be ...
  lemma WhatAScoreSays(rows: seq<ClosedRow>, c: Config, sybil: bool)
    requires rows != []
    ensures var s := Qualify(rows, c, sybil); s.positions == |rows| && s.winRate.Some? && s.impliedWinRate.Some? && s.concentration.Some?
    ensures var s := Qualify(rows, c, sybil); s.meanRoi.Some? <==> SumBy(rows, CostOne()) > 0.0
    ensures var s := Qualify(rows, c, sybil); s.meanRoi.Some? ==> Notional(s.meanRoi.value, SumBy(rows, CostOne())) == SumBy(rows, Return())
    ensures var s := Qualify(rows, c, sybil); Notional(s.winRate.value, |rows| as real) == SumBy(rows, WinOne())
    ensures var s := Qualify(rows, c, sybil); Notional(s.impliedWinRate.value, |rows| as real) == SumBy(rows, Entry())
    ensures var s, size := Qualify(rows, c, sybil), SumBy(rows, Size());
      if size > 0.0 then Notional(s.concentration.value, size) == MaxAbs(rows) else s.concentration.value == 0.0
  {
    SameSums(rows, CostOne(), HasCost());
    SameSums(rows, WinOne(), IsWin());
    SameSums(rows, Return(), RoiOf());
    SameSums(rows, Entry(), EntryOf());
    SameSums(rows, Size(), AbsPnl());
    hide SumBy, MaxAbs, When;
    var n := |rows| as real;
    ShareTimesWhole(SumBy(rows, IsWin()), n);
    ShareTimesWhole(SumBy(rows, EntryOf()), n);
    if SumBy(rows, HasCost()) > 0.0 {
      ShareTimesWhole(SumBy(rows, RoiOf()), SumBy(rows, HasCost()));
    }
    if SumBy(rows, AbsPnl()) > 0.0 {
      ShareTimesWhole(MaxAbs(rows), SumBy(rows, AbsPnl()));
    }
    hide Notional;
  }

  lemma ShareTimesWhole(a: real, b: real)
    requires b > 0.0
    ensures Notional(a / b, b) == a
  {
    DivCancels(a, b);
  }

  // ... and each reason stands exactly where its own figure calls for it.
  lemma WhatSpeaksAgainstAWallet(rows: seq<ClosedRow>, c: Config, sybil: bool)
    requires rows != []
    ensures var s := Qualify(rows, c, sybil); s.winRate.Some? && s.impliedWinRate.Some? && s.concentration.Some?
    ensures var s := Qualify(rows, c, sybil);
      && (s.qualified <==> s.reasons == [])
      && (SybilFlagged in s.reasons <==> c.sybilExclusion && sybil)
      && (MinClosedPositions in s.reasons <==> |rows| < c.minPositions)
      && (Reason.MinMeanRoi in s.reasons <==> s.meanRoi.None? || s.meanRoi.value < c.minMeanRoi)
      && (SkillVsImplied in s.reasons <==> c.skillRequired && s.winRate.value <= s.impliedWinRate.value)
      && (Reason.ConcentrationCap in s.reasons <==> s.concentration.value > c.concentrationCap)
  {
    var s, few, flagged := Qualify(rows, c, sybil), |rows| < c.minPositions, c.sybilExclusion && sybil;
    Listed(flagged, few, s.meanRoi.None? || s.meanRoi.value < c.minMeanRoi,
           c.skillRequired && s.winRate.value <= s.impliedWinRate.value, s.concentration.value > c.concentrationCap);
    hide SumBy, MeanRoi, Concentration, When;
  }

  lemma Listed(a: bool, b: bool, d: bool, e: bool, f: bool)
    ensures var all := When(a, SybilFlagged) + When(b, MinClosedPositions) + When(d, Reason.MinMeanRoi) + When(e, SkillVsImplied)
                       + When(f, Reason.ConcentrationCap);
      && (SybilFlagged in all <==> a) && (MinClosedPositions in all <==> b) && (Reason.MinMeanRoi in all <==> d)
      && (SkillVsImplied in all <==> e) && (Reason.ConcentrationCap in all <==> f)
  {
  }

  lemma {:induction false} SameSums(rows: seq<ClosedRow>, f: ClosedRow -> real, g: ClosedRow -> real)
    requires forall r :: f(r) == g(r)
    ensures SumBy(rows, f) == SumBy(rows, g)
  {
    if rows == [] {
    } else {
      SameSums(rows[..|rows| - 1], f, g);
    }
  }

  // A wallet without positions never qualifies and has no figures.
  lemma WithoutPositionsNothingIsSaid(c: Config, sybil: bool)
    ensures var s := Qualify([], c, sybil);
      && !s.qualified && s.positions == 0
      && s.meanRoi.None? && s.winRate.None? && s.impliedWinRate.None? && s.concentration.None?
      && (SybilFlagged in s.reasons <==> c.sybilExclusion && sybil)
      && (MinClosedPositions in s.reasons <==> 0 < c.minPositions)
  {
  }

  // Only a wallet that is listed, and listed as flagged, is held to be one.
  lemma OnlyFlaggedWalletsAreExcluded(rows: seq<ClosedRow>, w: Wallet, asOf: int, c: Config, sybils: map<Wallet, bool>)
    ensures var s := ScoreWallet(rows, w, asOf, c, sybils);
      && (SybilFlagged in s.reasons <==> c.sybilExclusion && (w, true) in sybils.Items)
      && (SybilFlagged in s.reasons ==> !s.qualified)
  {
    var mine := OfWallet(InWindow(rows, asOf, c), w);
    if mine == [] {
      WithoutPositionsNothingIsSaid(c, FlagOf(sybils, w));
    } else {
      WhatSpeaksAgainstAWallet(mine, c, FlagOf(sybils, w));
    }
    hide Qualify;
  }

  // ------------------------------------------------------------------ row order

  lemma {:induction false} MaxAbsIsGreatest(rows: seq<ClosedRow>, m: real)
    ensures m >= MaxAbs(rows) <==> m >= 0.0 && forall r :: r in rows ==> m >= Abs(r.pnl)
  {
    if rows == [] {
    } else {
      var g, x := rows[..|rows| - 1], rows[|rows| - 1];
      MaxAbsIsGreatest(g, m);
      assert rows == g + [x];
    }
  }

  lemma MaxAbsPermutation(a: seq<ClosedRow>, b: seq<ClosedRow>)
    requires multiset(a) == multiset(b)
    ensures MaxAbs(a) == MaxAbs(b)
  {
    assert forall r :: r in a <==> r in multiset(a);
    assert forall r :: r in b <==> r in multiset(b);
    MaxAbsIsGreatest(a, MaxAbs(b));
    MaxAbsIsGreatest(b, MaxAbs(b));
    MaxAbsIsGreatest(b, MaxAbs(a));
    MaxAbsIsGreatest(a, MaxAbs(a));
  }

  lemma QualifyPermutation(a: seq<ClosedRow>, b: seq<ClosedRow>, c: Config, sybil: bool)
    requires multiset(a) == multiset(b)
    ensures Qualify(a, c, sybil) == Qualify(b, c, sybil)
  {
    hide SumBy, MaxAbs, When;
    SameLength(a, b);
    SumByPermutation(a, b, RoiOf());
    SumByPermutation(a, b, HasCost());
    SumByPermutation(a, b, IsWin());
    SumByPermutation(a, b, EntryOf());
    SumByPermutation(a, b, AbsPnl());
    MaxAbsPermutation(a, b);
  }

  // The order in which the database returns the rows does not matter.
  lemma ScoreIgnoresRowOrder(a: seq<ClosedRow>, b: seq<ClosedRow>, w: Wallet, asOf: int, c: Config, sybils: map<Wallet, bool>)
    requires multiset(a) == multiset(b)
    ensures ScoreWallet(a, w, asOf, c, sybils) == ScoreWallet(b, w, asOf, c, sybils)
  {
    FilterPermutation(a, b, CountsAt(asOf, c));
    FilterPermutation(InWindow(a, asOf, c), InWindow(b, asOf, c), IsOf(w));
    QualifyPermutation(OfWallet(InWindow(a, asOf, c), w), OfWallet(InWindow(b, asOf, c), w), c, FlagOf(sybils, w));
  }

  // ------------------------------------------------------------------ ranges of the statistics

  lemma {:induction false} AbsBounds(rows: seq<ClosedRow>)
    ensures SumBy(rows, AbsPnl()) >= MaxAbs(rows)
    ensures SumBy(rows, AbsPnl()) <= Notional(MaxAbs(rows), |rows| as real)
  {
    if rows == [] {
      NotionalSplits(0.0, 0.0, 0.0);
    } else {
      var g := rows[..|rows| - 1];
      AbsBounds(g);
      NotionalMono(MaxAbs(g), MaxAbs(rows), |g| as real);
      NotionalSplits(MaxAbs(rows), |g| as real, 1.0);
      assert Notional(MaxAbs(rows), 1.0) == MaxAbs(rows);
    }
  }

  // With some PnL at all, the largest position's share lies between an equal split and everything.
  lemma ConcentrationRange(rows: seq<ClosedRow>)
    requires rows != [] && SumBy(rows, AbsPnl()) > 0.0
    ensures 1.0 / |rows| as real <= Concentration(rows) <= 1.0
  {
    var total, m, n := SumBy(rows, AbsPnl()), MaxAbs(rows), |rows| as real;
    AbsBounds(rows);
    var k := 1.0 / n;
    DivCancels(1.0, n);
    ShareAtLeast(total, m, n, k);
    DivBetween(m, total, k, 1.0);
  }

  lemma ShareAtLeast(total: real, m: real, n: real, k: real)
    requires total <= Notional(m, n) && k > 0.0 && k * n == 1.0
    ensures k * total <= m
  {
    MulMono(total, m * n, k);
    assert k * (m * n) == (k * n) * m;
  }

  // A score qualifies exactly when no reason speaks against it, and never without positions.
  lemma QualifiedExactlyWithoutReasons(rows: seq<ClosedRow>, c: Config, sybil: bool)
    ensures var s := Qualify(rows, c, sybil);
      s.qualified <==>
        && rows != [] && !(c.sybilExclusion && sybil) && |rows| >= c.minPositions
        && s.meanRoi.Some? && s.meanRoi.value >= c.minMeanRoi
        && !(c.skillRequired && s.winRate.value <= s.impliedWinRate.value)
        && s.concentration.value <= c.concentrationCap
  {
  }

  // ------------------------------------------------------------------ what qualifying means

  // Where one sum exceeds another, so does some term.
  lemma {:induction false} SomeTermExceeds(rows: seq<ClosedRow>, f: ClosedRow -> real, g: ClosedRow -> real) returns (k: nat)
    requires SumBy(rows, f) > SumBy(rows, g)
    ensures k < |rows| && f(rows[k]) > g(rows[k])
  {
    var n := |rows| - 1;
    if f(rows[n]) > g(rows[n]) {
      k := n;
    } else {
      k := SomeTermExceeds(rows[..n], f, g);
    }
  }

  // The return that a position would need to be average, less what it made: negative terms are better.
  function Shortfall(min: real): ClosedRow -> real {
    (r: ClosedRow) => if r.cost > 0.0 then min - r.pnl / r.cost else 0.0
  }

  lemma {:induction false} ShortfallIsDifference(rows: seq<ClosedRow>, min: real)
    ensures SumBy(rows, Shortfall(min)) == Notional(min, SumBy(rows, HasCost())) - SumBy(rows, RoiOf())
  {
    if rows == [] {
      NotionalSplits(min, 0.0, 0.0);
    } else {
      ShortfallIsDifference(rows[..|rows| - 1], min);
      NotionalSplits(min, SumBy(rows[..|rows| - 1], HasCost()), 1.0);
      assert Notional(min, 1.0) == min;
    }
  }

  lemma {:induction false} SomePositionIsAsGood(rows: seq<ClosedRow>, min: real) returns (k: nat)
    requires SumBy(rows, Shortfall(min)) < 0.0 || (SumBy(rows, Shortfall(min)) <= 0.0 && SumBy(rows, HasCost()) > 0.0)
    ensures k < |rows| && rows[k].cost > 0.0 && rows[k].pnl / rows[k].cost >= min
  {
    var n := |rows| - 1;
    if rows[n].cost > 0.0 && rows[n].pnl / rows[n].cost >= min {
      k := n;
    } else {
      k := SomePositionIsAsGood(rows[..n], min);
    }
  }

  // A position that returned at least the required mean.
  predicate Returned(r: ClosedRow, min: real) {
    r.cost > 0.0 && r.pnl / r.cost >= min
  }

  // A position that did better than its entry price implied.
  predicate BeatItsOdds(r: ClosedRow) {
    r.entry < if r.pnl > 0.0 then 1.0 else 0.0
  }

  // A qualified wallet has enough positions, one that returned the required mean, one that beat its odds
  // where skill is required, and enough of them for its profits to be spread as the cap demands.
  lemma WhatAQualifiedWalletHas(rows: seq<ClosedRow>, c: Config, sybil: bool)
    requires Qualify(rows, c, sybil).qualified
    ensures |rows| >= c.minPositions && |rows| > 0
    ensures exists k :: 0 <= k < |rows| && Returned(rows[k], c.minMeanRoi)
    ensures c.skillRequired ==> exists k :: 0 <= k < |rows| && BeatItsOdds(rows[k])
    ensures SumBy(rows, AbsPnl()) > 0.0 ==> 1.0 / |rows| as real <= c.concentrationCap
  {
    QualifiedExactlyWithoutReasons(rows, c, sybil);
    hide SumBy, MaxAbs, When;
    SomeReturnIsTheMean(rows, c.minMeanRoi);
    if c.skillRequired {
      SomeWinBeatsItsOdds(rows);
    }
    if SumBy(rows, AbsPnl()) > 0.0 {
      ConcentrationRange(rows);
    }
  }

  lemma SomeReturnIsTheMean(rows: seq<ClosedRow>, min: real)
    requires MeanRoi(rows).Some? && MeanRoi(rows).value >= min
    ensures exists k :: 0 <= k < |rows| && Returned(rows[k], min)
  {
    var n, sum := SumBy(rows, HasCost()), SumBy(rows, RoiOf());
    NotionalMono(min, sum / n, n);
    DivCancels(sum, n);
    ShortfallIsDifference(rows, min);
    hide SumBy;
    var k := SomePositionIsAsGood(rows, min);
    assert Returned(rows[k], min);
  }

  lemma SomeWinBeatsItsOdds(rows: seq<ClosedRow>)
    requires rows != [] && SumBy(rows, IsWin()) / |rows| as real > SumBy(rows, EntryOf()) / |rows| as real
    ensures exists k :: 0 <= k < |rows| && BeatItsOdds(rows[k])
  {
    hide SumBy;
    var wins, implied, size := SumBy(rows, IsWin()), SumBy(rows, EntryOf()), |rows| as real;
    DivCancels(wins, size);
    DivCancels(implied, size);
    MulStrict(implied / size, wins / size, size);
    var k := SomeTermExceeds(rows, IsWin(), EntryOf());
    assert BeatItsOdds(rows[k]);
  }

  predicate Stricter(strict: Config, loose: Config) {
    && (loose.sybilExclusion ==> strict.sybilExclusion) && (loose.skillRequired ==> strict.skillRequired)
    && loose.minPositions <= strict.minPositions && loose.minMeanRoi <= strict.minMeanRoi
    && strict.concentrationCap <= loose.concentrationCap
  }

  // Tightening any threshold never lets a wallet in.
  lemma StricterThresholdsQualifyFewer(rows: seq<ClosedRow>, strict: Config, loose: Config, sybil: bool)
    requires Stricter(strict, loose) && Qualify(rows, strict, sybil).qualified
    ensures Qualify(rows, loose, sybil).qualified
  {
    QualifiedExactlyWithoutReasons(rows, strict, sybil);
    QualifiedExactlyWithoutReasons(rows, loose, sybil);
  }

  // ------------------------------------------------------------------ the unit of money

  function Scaled(r: ClosedRow, k: real): ClosedRow {
    r.(cost := Notional(r.cost, k), pnl := Notional(r.pnl, k))
  }

  function ScaledRows(rows: seq<ClosedRow>, k: real): (s: seq<ClosedRow>)
    ensures |s| == |rows|
  {
    if rows == [] then [] else ScaledRows(rows[..|rows| - 1], k) + [Scaled(rows[|rows| - 1], k)]
  }

  lemma ScalingKeepsSigns(x: real, k: real)
    requires k > 0.0
    ensures (Notional(x, k) > 0.0 <==> x > 0.0) && Abs(Notional(x, k)) == Notional(Abs(x), k)
  {
    if x > 0.0 {
      MulStrict(0.0, x, k);
    } else {
      MulMono(x, 0.0, k);
    }
    assert Notional(-x, k) == -Notional(x, k);
  }

  lemma ScalingKeepsQuotients(a: real, b: real, k: real)
    requires b > 0.0 && k > 0.0
    ensures Notional(b, k) > 0.0 && Notional(a, k) / Notional(b, k) == a / b
  {
    MulStrict(0.0, b, k);
    var q := a / b;
    DivCancels(a, b);
    assert Notional(a, k) == q * Notional(b, k);
    assert (q * Notional(b, k)) / Notional(b, k) == q;
  }

  lemma ScalingOneRow(r: ClosedRow, k: real)
    requires k > 0.0
    ensures RoiOf()(Scaled(r, k)) == RoiOf()(r) && HasCost()(Scaled(r, k)) == HasCost()(r)
    ensures IsWin()(Scaled(r, k)) == IsWin()(r) && EntryOf()(Scaled(r, k)) == EntryOf()(r)
    ensures AbsPnl()(Scaled(r, k)) == Notional(AbsPnl()(r), k)
  {
    ScalingKeepsSigns(r.cost, k);
    ScalingKeepsSigns(r.pnl, k);
    if r.cost > 0.0 {
      ScalingKeepsQuotients(r.pnl, r.cost, k);
    }
  }

  // A statistic that scaling leaves alone has the same sum, and one that it multiplies has that multiple.
  lemma {:induction false} ScalingSums(rows: seq<ClosedRow>, k: real, f: ClosedRow -> real, times: bool)
    requires forall r :: f(Scaled(r, k)) == if times then Notional(f(r), k) else f(r)
    ensures SumBy(ScaledRows(rows, k), f) == if times then Notional(SumBy(rows, f), k) else SumBy(rows, f)
  {
    if rows == [] {
    } else {
      var g, x := rows[..|rows| - 1], rows[|rows| - 1];
      ScalingSums(g, k, f, times);
      assert ScaledRows(rows, k)[..|g|] == ScaledRows(g, k);
      Distribute(SumBy(g, f), f(x), k);
    }
  }

  lemma {:induction false} ScalingMaxAbs(rows: seq<ClosedRow>, k: real)
    requires k > 0.0
    ensures MaxAbs(ScaledRows(rows, k)) == Notional(MaxAbs(rows), k)
  {
    if rows == [] {
      NotionalSplits(k, 0.0, 0.0);
    } else {
      var g, x := rows[..|rows| - 1], rows[|rows| - 1];
      ScalingMaxAbs(g, k);
      ScalingKeepsSigns(x.pnl, k);
      assert ScaledRows(rows, k)[..|g|] == ScaledRows(g, k);
      ScalingMax(MaxAbs(g), Abs(x.pnl), k);
      hide Notional, Abs, Max;
    }
  }

  lemma ScalingMax(a: real, b: real, k: real)
    requires k > 0.0
    ensures Max(Notional(a, k), Notional(b, k)) == Notional(Max(a, b), k)
  {
    if a >= b {
      NotionalMono(b, a, k);
    } else {
      MulStrict(a, b, k);
    }
  }

  // Counting all money in another unit changes no score.
  lemma ScoreIgnoresTheUnitOfMoney(rows: seq<ClosedRow>, k: real, c: Config, sybil: bool)
    requires k > 0.0
    ensures Qualify(ScaledRows(rows, k), c, sybil) == Qualify(rows, c, sybil)
  {
    forall r: ClosedRow
      ensures RoiOf()(Scaled(r, k)) == RoiOf()(r) && HasCost()(Scaled(r, k)) == HasCost()(r)
      ensures IsWin()(Scaled(r, k)) == IsWin()(r) && EntryOf()(Scaled(r, k)) == EntryOf()(r)
      ensures AbsPnl()(Scaled(r, k)) == Notional(AbsPnl()(r), k)
    {
      ScalingOneRow(r, k);
    }
    ScalingSums(rows, k, RoiOf(), false);
    ScalingSums(rows, k, HasCost(), false);
    ScalingSums(rows, k, IsWin(), false);
    ScalingSums(rows, k, EntryOf(), false);
    ScalingSums(rows, k, AbsPnl(), true);
    ScalingMaxAbs(rows, k);
    var total := SumBy(rows, AbsPnl());
    ScalingKeepsSigns(total, k);
    if total > 0.0 {
      ScalingKeepsQuotients(MaxAbs(rows), total, k);
    }
    hide SumBy, MaxAbs, When;
  }

  // ------------------------------------------------------------------ the batch

  method GroupByWallet(rows: seq<ClosedRow>) returns (wallets: seq<Wallet>, grouped: map<Wallet, seq<ClosedRow>>)
    ensures forall w :: w in grouped <==> OfWallet(rows, w) != []
    ensures forall w :: w in grouped ==> grouped[w] == OfWallet(rows, w)
    ensures forall w :: w in wallets <==> w in grouped
    ensures forall i, j :: 0 <= i < j < |wallets| ==> wallets[i] != wallets[j]
  {
    grouped, wallets := map[], [];
    for i := 0 to |rows|
      invariant forall w :: if w in grouped then grouped[w] == OfWallet(rows[..i], w) != [] else OfWallet(rows[..i], w) == []
      invariant forall w :: w in wallets <==> w in grouped
      invariant forall a, b :: 0 <= a < b < |wallets| ==> wallets[a] != wallets[b]
    {
      assert rows[..i + 1][..i] == rows[..i];
      var r := rows[i];
      if r.wallet in grouped {
        grouped := grouped[r.wallet := grouped[r.wallet] + [r]];
      } else {
        grouped := grouped[r.wallet := [r]];
        wallets := wallets + [r.wallet];
      }
    }
    assert rows[..|rows|] == rows;
  }

  method ScoreUniverse(rows: seq<ClosedRow>, asOf: int, c: Config, sybils: map<Wallet, bool>)
    returns (wallets: seq<Wallet>, scores: map<Wallet, Score>)
    // One score per wallet with a position in the window ...
    ensures forall w :: w in scores <==> exists i :: 0 <= i < |rows| && !IsOutside(rows[i], w, asOf, c)
    ensures forall w :: w in wallets <==> w in scores
    ensures forall i, j :: 0 <= i < j < |wallets| ==> wallets[i] != wallets[j]
    // ... and it is the score of the wallet alone.
    ensures forall w :: w in scores ==> scores[w] == ScoreWallet(rows, w, asOf, c, sybils)
  {
    hide InWindow, OfWallet, Qualify;
    var selected := InWindow(rows, asOf, c);
    var grouped;
    wallets, grouped := GroupByWallet(selected);
    scores := map[];
    for i := 0 to |wallets|
      invariant forall w :: w in scores <==> w in wallets[..i]
      invariant forall w :: w in scores ==> scores[w] == ScoreWallet(rows, w, asOf, c, sybils)
    {
      assert wallets[..i + 1] == wallets[..i] + [wallets[i]];
      var w := wallets[i];
      scores := scores[w := Qualify(grouped[w], c, FlagOf(sybils, w))];
    }
    assert wallets[..|wallets|] == wallets;
    forall w
      ensures OfWallet(selected, w) != [] <==> exists i :: 0 <= i < |rows| && !IsOutside(rows[i], w, asOf, c)
    {
      ScoredExactlyWithAPosition(rows, w, asOf, c);
    }
  }
}

/**
 The hourly check that stamped results agree with the markets' resolutions: when exactly it pages, for any
 trade in any reachable state, and when exactly a run of the stamping job silences it.
 */
module ConsistencyCheck {
  import opened Wrappers
  import opened Markets
  import opened Restamp
  import opened Sequences

  // The check compares labels exactly.
  predicate CheckFinds(s: State, id: TradeId) {
    && id in s.trades && s.trades[id].market in s.markets
    && var t, m := s.trades[id], s.markets[s.trades[id].market];
       && t.isBuy && t.result.Some? && t.outcome.Some? && m.resolution.Some? && m.closed
       && ((t.outcome == m.resolution && t.result == Some(0)) || (t.outcome != m.resolution && t.result == Some(1)))
  }

  // A stampable, stamped trade whose label differs from the resolution in nothing but case.
  predicate IsCaseVariant(s: State, id: TradeId) {
    && id in s.trades && s.trades[id].market in s.markets
    && var t, m := s.trades[id], s.markets[s.trades[id].market];
       && Stampable(t) && t.result.Some? && t.outcome.Some? && m.resolution.Some?
       && t.outcome != m.resolution && Upper(t.outcome.value) == Upper(m.resolution.value)
  }

  // The check looks at labelled, stamped buys of closed markets with a resolution, and pages for those whose
  // result says something else than that the label is the resolution, letter for letter.
  lemma WhatTheCheckLooksAt(s: State, id: TradeId, t: Trade, m: Market)
    requires id in s.trades && s.trades[id] == t && t.market in s.markets && s.markets[t.market] == m
    ensures !t.isBuy || t.outcome == None || t.result == None || m.resolution == None || !m.closed ==> !CheckFinds(s, id)
    ensures t.isBuy && t.outcome.Some? && m.resolution.Some? && m.closed && t.result in {Some(0), Some(1)} ==>
      (CheckFinds(s, id) <==> (t.result == Some(1)) != (t.outcome == m.resolution))
  {
  }

  // ------------------------------------------------------------------ any database

  // A stamped trade lies on a settled market, whatever its stamp says. Unlike consistency this holds of a
  // database whose stamps were recorded by the migration.
  predicate SaneStamp(s: State, t: Trade) {
    t.result.Some? ==>
      && t.market in s.markets && Settled(s.markets[t.market]) && t.isBuy && t.outcome.Some?
      && (t.tradeType.None? ==> Stampable(t) && (t.result == Some(0) || t.result == Some(1)))
  }

  predicate Sane(s: State) {
    && (forall m :: m in s.markets ==> ResolvedImpliesClosed(s.markets[m]))
    && (forall m :: m in s.queue ==> m in s.markets && Settled(s.markets[m]))
    && (forall id :: id in s.trades ==> SaneStamp(s, s.trades[id]))
  }

  lemma ConsistentIsSane(s: State)
    requires Consistent(s)
    ensures Sane(s)
  {
    forall id | id in s.trades
      ensures SaneStamp(s, s.trades[id])
    {
      assert StampAgrees(s, s.trades[id]);
    }
  }

  lemma MigrationKeepsSane(s: State)
    requires Sane(s)
    ensures Sane(Migrate(s))
  {
    forall id | id in s.trades
      ensures SaneStamp(Migrate(s), s.trades[id])
    {
      assert SaneStamp(s, s.trades[id]);
    }
  }

  lemma ProcessKeepsSane(s: State, m: MarketId)
    requires Sane(s) && m in s.queue
    ensures Sane(ProcessMarket(s, m))
  {
    var r := ProcessMarket(s, m);
    forall id | id in r.trades
      ensures SaneStamp(r, r.trades[id])
    {
      assert SaneStamp(s, s.trades[id]);
    }
  }

  lemma MarketWriteKeepsSane(s: State, m: MarketId, after: Market)
    requires Sane(s) && ResolvedImpliesClosed(after)
    requires m in s.markets ==>
      (s.markets[m].resolved ==> after.resolved) && (s.markets[m].resolution.Some? ==> after.resolution.Some?)
    ensures Sane(s.(markets := s.markets[m := after]))
  {
    var r := s.(markets := s.markets[m := after]);
    forall id | id in r.trades
      ensures SaneStamp(r, r.trades[id])
    {
      assert SaneStamp(s, s.trades[id]);
    }
  }

  lemma TradeChangeKeepsSane(s: State, id: TradeId, t: Trade)
    requires Sane(s) && SaneStamp(s, t)
    ensures Sane(s.(trades := s.trades[id := t]))
  {
    var r := s.(trades := s.trades[id := t]);
    forall k | k in r.trades
      ensures SaneStamp(r, r.trades[k])
    {
      assert k != id ==> SaneStamp(s, s.trades[k]);
    }
  }

  lemma StepKeepsSane(s: State, step: Step)
    requires Sane(s)
    ensures Sane(Next(s, step))
  {
    match step
    case Process(m) =>
      if m in s.queue {
        ProcessKeepsSane(s, m);
      }
    case Discover(m, info) =>
      if m in s.markets {
        WritersNeverRegress(s.markets[m], Discovery(info));
        MarketWriteKeepsSane(s, m, Upsert(s.markets[m], info));
      } else {
        InsertIsSound(info);
        MarketWriteKeepsSane(s, m, InsertMarket(info));
      }
    case WriteMarket(m, w) =>
      if m in s.markets {
        WritersNeverRegress(s.markets[m], w);
        MarketWriteKeepsSane(s, m, Apply(s.markets[m], w));
      }
    case Arrive(id, trade) => TradeChangeKeepsSane(s, id, trade.(result := None));
    case Attribute(id, wallet) =>
      if id in s.trades && s.trades[id].wallet.None? {
        assert SaneStamp(s, s.trades[id]);
        TradeChangeKeepsSane(s, id, s.trades[id].(wallet := Some(wallet)));
      }
    case Tag(id, tag) =>
      if id in s.trades && s.trades[id].tradeType.None? {
        assert SaneStamp(s, s.trades[id]);
        TradeChangeKeepsSane(s, id, s.trades[id].(tradeType := Some(tag)));
      }
    case _ =>
      assert forall id :: id in Next(s, step).trades ==> SaneStamp(s, s.trades[id]);
  }

  lemma {:induction false} EveryInterleavingKeepsSane(s: State, steps: seq<Step>)
    requires Sane(s)
    ensures Sane(RunSteps(s, steps))
  {
    if steps == [] {
    } else {
      EveryInterleavingKeepsSane(s, steps[..|steps| - 1]);
      StepKeepsSane(RunSteps(s, steps[..|steps| - 1]), steps[|steps| - 1]);
    }
  }

  // ------------------------------------------------------------------ trades that can be stamped

  // On a stamped trade without a tag the check pages exactly when the stamp is stale or the label a case
  // variant, but not both: the two mistakes cancel.
  lemma CheckFindsOneOfTwoExactly(s: State, id: TradeId)
    requires Sane(s) && id in s.trades && s.trades[id].tradeType.None? && s.trades[id].result.Some?
    ensures CheckFinds(s, id) <==> Stale(s, id) != IsCaseVariant(s, id)
  {
    assert SaneStamp(s, s.trades[id]);
  }

  // On a stampable trade that is not stale the check pages exactly when label and resolution differ
  // in nothing but case.
  lemma CheckPagesOnCaseVariants(s: State, id: TradeId)
    requires Consistent(s) && id in s.trades && Stampable(s.trades[id]) && s.trades[id].result.Some?
    requires !Stale(s, id)
    ensures CheckFinds(s, id) <==>
      var t, m := s.trades[id], s.markets[s.trades[id].market];
      t.outcome != m.resolution && Upper(t.outcome.value) == Upper(m.resolution.value)
  {
    ConsistentIsSane(s);
    assert StampAgrees(s, s.trades[id]);
    CheckFindsOneOfTwoExactly(s, id);
  }

  // ------------------------------------------------------------------ trades tagged after stamping

  // Step k tags the trade while it carries a stamp, and it is not purged afterwards.
  predicate FreezesAt(s0: State, steps: seq<Step>, id: TradeId, k: nat) {
    && k < |steps| && steps[k].Tag? && steps[k].id == id
    && (var s := RunSteps(s0, steps[..k]);
        id in s.trades && s.trades[id].tradeType.None? && s.trades[id].result.Some?)
    && forall j :: k < j < |steps| ==> steps[j] != Purge(id)
  }

  // The trade was tagged and stamped to begin with, and is not purged.
  predicate FrozenAtStart(s0: State, steps: seq<Step>, id: TradeId) {
    && id in s0.trades && s0.trades[id].tradeType.Some? && s0.trades[id].result.Some?
    && forall j :: 0 <= j < |steps| ==> steps[j] != Purge(id)
  }

  // What the check reads of a trade.
  predicate SameStamp(t: Trade, u: Trade) {
    t.market == u.market && t.isBuy == u.isBuy && t.outcome == u.outcome && t.result == u.result && t.tradeType == u.tradeType
  }

  lemma StepKeepsTaggedTrade(s: State, step: Step, id: TradeId)
    requires id in s.trades && s.trades[id].tradeType.Some? && s.trades[id].outcome.Some? && step != Purge(id)
    ensures id in Next(s, step).trades && SameStamp(Next(s, step).trades[id], s.trades[id])
    ensures s.trades[id].wallet.Some? ==> Next(s, step).trades[id] == s.trades[id]
  {
  }

  // From the tagging on nothing but a purge changes the trade.
  lemma {:induction false} TaggedTradeIsFrozen(s0: State, steps: seq<Step>, id: TradeId, k: nat)
    requires Sane(s0) && FreezesAt(s0, steps, id, k)
    ensures var s := RunSteps(s0, steps[..k]);
      && id in RunSteps(s0, steps).trades
      && RunSteps(s0, steps).trades[id] == s.trades[id].(tradeType := Some(steps[k].tag))
      && SaneStamp(s, s.trades[id])
    decreases |steps|
  {
    var n := |steps| - 1;
    var s := RunSteps(s0, steps[..k]);
    EveryInterleavingKeepsSane(s0, steps[..k]);
    assert SaneStamp(s, s.trades[id]);
    if k < n {
      assert steps[..n][..k] == steps[..k];
      assert steps[n] != Purge(id);
      TaggedTradeIsFrozen(s0, steps[..n], id, k);
      StepKeepsTaggedTrade(RunSteps(s0, steps[..n]), steps[n], id);
    }
  }

  lemma {:induction false} StartTaggedIsFrozen(s0: State, steps: seq<Step>, id: TradeId)
    requires Sane(s0) && FrozenAtStart(s0, steps, id)
    ensures id in RunSteps(s0, steps).trades && SameStamp(RunSteps(s0, steps).trades[id], s0.trades[id])
    ensures s0.trades[id].outcome.Some?
  {
    assert SaneStamp(s0, s0.trades[id]);
    if steps == [] {
    } else {
      var n := |steps| - 1;
      assert steps[n] != Purge(id);
      StartTaggedIsFrozen(s0, steps[..n], id);
      StepKeepsTaggedTrade(RunSteps(s0, steps[..n]), steps[n], id);
    }
  }

  // The result is the opposite of what exact agreement with the present resolution asks for.
  predicate Contradicts(s: State, id: TradeId, result: Option<int>) {
    && id in s.trades && s.trades[id].market in s.markets
    && result == Some(if s.trades[id].outcome == s.markets[s.trades[id].market].resolution then 0 else 1)
  }

  predicate FrozenContradicts(s0: State, steps: seq<Step>, id: TradeId, k: nat)
    requires FreezesAt(s0, steps, id, k)
  {
    Contradicts(RunSteps(s0, steps), id, RunSteps(s0, steps[..k]).trades[id].result)
  }

  predicate StartContradicts(s0: State, steps: seq<Step>, id: TradeId)
    requires FrozenAtStart(s0, steps, id)
  {
    Contradicts(RunSteps(s0, steps), id, s0.trades[id].result)
  }

  // Whatever happens after the tagging, the check pages for the trade exactly while its market's resolution
  // contradicts the result it was tagged with.
  lemma FrozenTradesPageExactly(s0: State, steps: seq<Step>, id: TradeId, k: nat)
    requires Sane(s0) && FreezesAt(s0, steps, id, k)
    ensures CheckFinds(RunSteps(s0, steps), id) <==> FrozenContradicts(s0, steps, id, k)
  {
    var r := RunSteps(s0, steps);
    TaggedTradeIsFrozen(s0, steps, id, k);
    EveryInterleavingKeepsSane(s0, steps);
    assert SaneStamp(r, r.trades[id]);
    hide RunSteps, Sane;
  }

  lemma StartTaggedPagesExactly(s0: State, steps: seq<Step>, id: TradeId)
    requires Sane(s0) && FrozenAtStart(s0, steps, id)
    ensures CheckFinds(RunSteps(s0, steps), id) <==> StartContradicts(s0, steps, id)
  {
    var r := RunSteps(s0, steps);
    StartTaggedIsFrozen(s0, steps, id);
    EveryInterleavingKeepsSane(s0, steps);
    assert SaneStamp(r, r.trades[id]);
    hide RunSteps, Sane;
  }

  // The resolution the trade was last stamped with.
  function FrozenWinner(s0: State, steps: seq<Step>, id: TradeId, k: nat): string
    requires Consistent(s0) && FreezesAt(s0, steps, id, k)
  {
    EveryInterleavingKeepsConsistent(s0, steps[..k]);
    var s := RunSteps(s0, steps[..k]);
    assert StampAgrees(s, s.trades[id]);
    s.markets[s.trades[id].market].stamped.value
  }

  // The trade's label and the resolution agree exactly now, but did not when it was stamped, or the other
  // way round.
  predicate Disagrees(s: State, id: TradeId, winner: string)
    requires id in s.trades && s.trades[id].market in s.markets && s.trades[id].outcome.Some?
  {
    var t := s.trades[id];
    (t.outcome == s.markets[t.market].resolution) != (Upper(t.outcome.value) == Upper(winner))
  }

  // From a consistent start that result is the verdict of the last stamp: the check pages exactly while the
  // resolution disagrees with the one the trade was stamped with.
  lemma TaggedTradesPageExactly(s0: State, steps: seq<Step>, id: TradeId, k: nat)
    requires Consistent(s0) && FreezesAt(s0, steps, id, k)
    ensures var r := RunSteps(s0, steps);
      && id in r.trades && r.trades[id].market in r.markets && r.trades[id].outcome.Some?
      && (CheckFinds(r, id) <==> Disagrees(r, id, FrozenWinner(s0, steps, id, k)))
  {
    var r, s := RunSteps(s0, steps), RunSteps(s0, steps[..k]);
    ConsistentIsSane(s0);
    TaggedTradeIsFrozen(s0, steps, id, k);
    EveryInterleavingKeepsSane(s0, steps);
    EveryInterleavingKeepsConsistent(s0, steps[..k]);
    assert SaneStamp(r, r.trades[id]) && StampAgrees(s, s.trades[id]);
    hide RunSteps, Consistent, Sane, Upper;
  }

  // A trade comes to be tagged and stamped in no other way.
  lemma StepFreezes(s: State, step: Step, id: TradeId)
    requires id in Next(s, step).trades && Next(s, step).trades[id].tradeType.Some? && Next(s, step).trades[id].result.Some?
    ensures step != Purge(id)
    ensures id in s.trades && s.trades[id].result.Some?
    ensures s.trades[id].tradeType.Some? || (step.Tag? && step.id == id)
  {
  }

  lemma {:induction false} FrozenTradesWereTagged(s0: State, steps: seq<Step>, id: TradeId) returns (k: nat)
    requires var r := RunSteps(s0, steps); id in r.trades && r.trades[id].tradeType.Some? && r.trades[id].result.Some?
    ensures FreezesAt(s0, steps, id, k) || FrozenAtStart(s0, steps, id)
  {
    if steps == [] {
      k := 0;
    } else {
      var n := |steps| - 1;
      var s := RunSteps(s0, steps[..n]);
      StepFreezes(s, steps[n], id);
      if s.trades[id].tradeType.Some? {
        k := FrozenTradesWereTagged(s0, steps[..n], id);
        FrozenGoesOn(s0, steps, id, k);
      } else {
        k := n;
      }
    }
  }

  lemma FrozenGoesOn(s0: State, steps: seq<Step>, id: TradeId, k: nat)
    requires steps != [] && steps[|steps| - 1] != Purge(id)
    ensures FreezesAt(s0, steps[..|steps| - 1], id, k) ==> FreezesAt(s0, steps, id, k)
    ensures FrozenAtStart(s0, steps[..|steps| - 1], id) ==> FrozenAtStart(s0, steps, id)
  {
    var n := |steps| - 1;
    assert k < n ==> steps[..n][..k] == steps[..k];
    assert forall j :: 0 <= j < n ==> steps[..n][j] == steps[j];
  }

  // ------------------------------------------------------------------ when the check is silent

  // No tagged trade contradicts the resolution with the result it was frozen with.
  ghost predicate NoFrozenContradiction(s0: State, steps: seq<Step>) {
    && (forall id, k :: FreezesAt(s0, steps, id, k) ==> !FrozenContradicts(s0, steps, id, k))
    && (forall id :: FrozenAtStart(s0, steps, id) ==> !StartContradicts(s0, steps, id))
  }

  ghost predicate Silent(s: State) {
    forall id :: !CheckFinds(s, id)
  }

  // Every stale stamp sits on a case variant, and the other way round.
  ghost predicate MistakesCancel(s: State) {
    forall id :: Stale(s, id) <==> IsCaseVariant(s, id)
  }

  lemma SilenceMeansNoMistake(s0: State, steps: seq<Step>)
    requires Sane(s0) && Silent(RunSteps(s0, steps))
    ensures MistakesCancel(RunSteps(s0, steps)) && NoFrozenContradiction(s0, steps)
  {
    var r := RunSteps(s0, steps);
    EveryInterleavingKeepsSane(s0, steps);
    forall id
      ensures Stale(r, id) <==> IsCaseVariant(r, id)
    {
      if Stale(r, id) || IsCaseVariant(r, id) {
        CheckFindsOneOfTwoExactly(r, id);
      }
    }
    forall id, k | FreezesAt(s0, steps, id, k)
      ensures !FrozenContradicts(s0, steps, id, k)
    {
      FrozenTradesPageExactly(s0, steps, id, k);
    }
    forall id | FrozenAtStart(s0, steps, id)
      ensures !StartContradicts(s0, steps, id)
    {
      StartTaggedPagesExactly(s0, steps, id);
    }
  }

  lemma NoMistakeMeansSilence(s0: State, steps: seq<Step>)
    requires Sane(s0) && MistakesCancel(RunSteps(s0, steps)) && NoFrozenContradiction(s0, steps)
    ensures Silent(RunSteps(s0, steps))
  {
    var r := RunSteps(s0, steps);
    EveryInterleavingKeepsSane(s0, steps);
    forall id
      ensures !CheckFinds(r, id)
    {
      if CheckFinds(r, id) {
        EveryFindingHasACause(s0, steps, id);
      }
    }
  }

  lemma EveryFindingHasACause(s0: State, steps: seq<Step>, id: TradeId)
    requires Sane(s0) && CheckFinds(RunSteps(s0, steps), id)
    ensures var r := RunSteps(s0, steps);
      || Stale(r, id) != IsCaseVariant(r, id)
      || (exists k :: FreezesAt(s0, steps, id, k) && FrozenContradicts(s0, steps, id, k))
      || (FrozenAtStart(s0, steps, id) && StartContradicts(s0, steps, id))
  {
    var r := RunSteps(s0, steps);
    EveryInterleavingKeepsSane(s0, steps);
    if r.trades[id].tradeType.None? {
      CheckFindsOneOfTwoExactly(r, id);
    } else {
      var k := FrozenTradesWereTagged(s0, steps, id);
      if FreezesAt(s0, steps, id, k) {
        FrozenTradesPageExactly(s0, steps, id, k);
      } else {
        StartTaggedPagesExactly(s0, steps, id);
      }
    }
  }

  // In every state reachable from any database, migrated or not, the check is silent exactly when stale
  // stamps and case variants are the same trades, and no trade was tagged with a result that its market's
  // resolution now contradicts.
  lemma CheckIsSilentExactly(s0: State, steps: seq<Step>)
    requires Sane(s0)
    ensures Silent(RunSteps(s0, steps)) <==> MistakesCancel(RunSteps(s0, steps)) && NoFrozenContradiction(s0, steps)
  {
    if Silent(RunSteps(s0, steps)) {
      SilenceMeansNoMistake(s0, steps);
    }
    if MistakesCancel(RunSteps(s0, steps)) && NoFrozenContradiction(s0, steps) {
      NoMistakeMeansSilence(s0, steps);
    }
  }

  // ------------------------------------------------------------------ after a run of the job

  // A stale stamp that the candidate query does not see.
  predicate IsHidden(s: State, id: TradeId) {
    Stale(s, id) && s.trades[id].market !in Candidates(s)
  }

  // A consistent database hides none; only what the migration recorded can.
  lemma ConsistentHidesNothing(s: State, id: TradeId)
    requires Consistent(s)
    ensures !IsHidden(s, id)
  {
    if Stale(s, id) {
      StaleIsCandidate(s, id);
    }
  }

  lemma ProcessingRepairsOneMarket(s: State, m: MarketId, id: TradeId)
    requires Sane(s) && m in s.queue
    ensures Stale(ProcessMarket(s, m), id) <==> Stale(s, id) && s.trades[id].market != m
  {
    if id in s.trades {
      assert SaneStamp(s, s.trades[id]);
    }
  }

  // What processing some selected markets leaves: the stale stamps of the others, and the others' places in
  // the queue.
  ghost predicate Repaired(s: State, r: State, done: seq<MarketId>) {
    && Sane(r)
    && (forall m :: m in s.queue && m !in done ==> m in r.queue)
    && (forall id :: id in r.trades ==> id in s.trades && r.trades[id].market == s.trades[id].market)
    && (forall id :: Stale(r, id) <==> Stale(s, id) && s.trades[id].market !in done)
  }

  lemma OneMoreRepaired(s: State, q: State, g: seq<MarketId>, m: MarketId)
    requires Repaired(s, q, g) && m in q.queue
    ensures Repaired(s, ProcessMarket(q, m), g + [m])
  {
    ProcessKeepsSane(q, m);
    var r := ProcessMarket(q, m);
    assert forall k :: k in g + [m] <==> k in g || k == m;
    assert r.trades.Keys == q.trades.Keys && forall id :: id in q.trades ==> r.trades[id].market == q.trades[id].market;
    hide Sane;
    forall id
      ensures Stale(r, id) <==> Stale(s, id) && s.trades[id].market !in g + [m]
    {
      ProcessingRepairsOneMarket(q, m, id);
      assert Stale(q, id) ==> q.trades[id].market == s.trades[id].market;
    }
  }

  predicate AllQueued(s: State, order: seq<MarketId>) {
    forall m :: m in order ==> m in s.queue
  }

  lemma FrontIsQueued(s: State, order: seq<MarketId>)
    requires order != [] && Distinct(order) && AllQueued(s, order)
    ensures var g, m := order[..|order| - 1], order[|order| - 1];
            Distinct(g) && AllQueued(s, g) && m in s.queue && m !in g && order == g + [m]
  {
    var g, m := order[..|order| - 1], order[|order| - 1];
    assert order == g + [m] && m in order;
    assert forall k :: k in g ==> k in order;
  }

  lemma {:induction false} ProcessAllRepairsItsMarkets(s: State, order: seq<MarketId>)
    requires Sane(s) && Distinct(order) && AllQueued(s, order)
    ensures Repaired(s, ProcessAll(s, order), order)
  {
    if order == [] {
    } else {
      var g, m := order[..|order| - 1], order[|order| - 1];
      FrontIsQueued(s, order);
      ProcessAllRepairsItsMarkets(s, g);
      OneMoreRepaired(s, ProcessAll(s, g), g, m);
      hide Repaired, Sane;
    }
  }

  function Processes(order: seq<MarketId>): seq<Step> {
    if order == [] then [] else Processes(order[..|order| - 1]) + [Process(order[|order| - 1])]
  }

  function JobRun(order: seq<MarketId>): seq<Step> {
    [Select] + Processes(order)
  }

  lemma {:induction false} RunStepsAppend(s: State, a: seq<Step>, b: seq<Step>)
    ensures RunSteps(s, a + b) == RunSteps(RunSteps(s, a), b)
  {
    if b == [] {
      assert a + b == a;
    } else {
      RunStepsAppend(s, a, b[..|b| - 1]);
      assert (a + b)[..|a + b| - 1] == a + b[..|b| - 1];
    }
  }

  lemma StepSnoc(s: State, steps: seq<Step>, step: Step)
    ensures RunSteps(s, steps + [step]) == Next(RunSteps(s, steps), step)
  {
    assert (steps + [step])[..|steps|] == steps;
  }

  // A job run is itself a sequence of steps.
  lemma {:induction false} ProcessAllIsSteps(s: State, order: seq<MarketId>)
    requires Sane(s) && Distinct(order) && AllQueued(s, order)
    ensures ProcessAll(s, order) == RunSteps(s, Processes(order))
  {
    if order == [] {
    } else {
      var g, m := order[..|order| - 1], order[|order| - 1];
      hide *;
      FrontIsQueued(s, order);
      ProcessAllIsSteps(s, g);
      ProcessAllRepairsItsMarkets(s, g);
      LastIsAStep(s, order);
      StepSnoc(s, Processes(g), Process(m));
    }
  }

  lemma LastIsAStep(s: State, order: seq<MarketId>)
    requires order != []
    requires var g, m := order[..|order| - 1], order[|order| - 1]; Repaired(s, ProcessAll(s, g), g) && m in s.queue && m !in g
    ensures var g, m := order[..|order| - 1], order[|order| - 1];
      && ProcessAll(s, order) == Next(ProcessAll(s, g), Process(m))
      && Processes(order) == Processes(g) + [Process(m)]
  {
    hide ProcessMarket, Sane, Stale;
  }

  // The job selects, and then processes every selected market in any order.
  predicate IsJobOrder(s: State, order: seq<MarketId>) {
    Distinct(order) && (forall m :: m in order ==> m in Candidates(s)) && (forall m :: m in Candidates(s) ==> m in order)
  }

  lemma Selected(s: State)
    ensures Candidates(s) <= Next(s, Select).queue && Next(s, Select).trades == s.trades
  {
  }

  lemma JobRunIsARun(s: State, order: seq<MarketId>)
    requires Sane(s) && IsJobOrder(s, order)
    ensures RunSteps(s, JobRun(order)) == ProcessAll(Next(s, Select), order)
    ensures forall id :: Stale(RunSteps(s, JobRun(order)), id) <==> IsHidden(s, id)
  {
    var q := Next(s, Select);
    StepKeepsSane(s, Select);
    assert forall id :: Stale(q, id) <==> Stale(s, id);
    assert [] + [Select] == [Select] && RunSteps(s, []) == s;
    StepSnoc(s, [], Select);
    hide Sane, Stale, Candidates, RunSteps, Next, ProcessAll;
    Selected(s);
    ProcessAllIsSteps(q, order);
    ProcessAllRepairsItsMarkets(q, order);
    RunStepsAppend(s, [Select], Processes(order));
  }

  // The hidden stale stamps before the run are the case variants after it.
  ghost predicate HiddenCancel(s: State, r: State) {
    forall id :: IsHidden(s, id) <==> IsCaseVariant(r, id)
  }

  // An undisturbed run of the job, over any history from any database, leaves exactly the hidden stale
  // stamps; and the check is then silent exactly when these are the case variants and no tagged trade
  // contradicts its market's resolution.
  lemma AfterTheJobTheCheckIsSilentExactly(s0: State, steps: seq<Step>, order: seq<MarketId>)
    requires Sane(s0) && IsJobOrder(RunSteps(s0, steps), order)
    ensures var s, all := RunSteps(s0, steps), steps + JobRun(order);
      && (forall id :: Stale(RunSteps(s0, all), id) <==> IsHidden(s, id))
      && (Silent(RunSteps(s0, all)) <==> HiddenCancel(s, RunSteps(s0, all)) && NoFrozenContradiction(s0, all))
  {
    var s, all := RunSteps(s0, steps), steps + JobRun(order);
    EveryInterleavingKeepsSane(s0, steps);
    JobRunIsARun(s, order);
    RunStepsAppend(s0, steps, JobRun(order));
    CheckIsSilentExactly(s0, all);
    hide RunSteps, Stale, IsCaseVariant, Sane, NoFrozenContradiction, Silent;
  }

  // ------------------------------------------------------------------ each of them occurs

  const EMPTY := State(map[], map[], map[], {})

  function ExampleMarket(resolution: string, stamped: Option<string>): Market {
    Market(false, true, true, Some(resolution), stamped)
  }

  function ExampleTrade(tag: Option<string>, result: Option<int>): Trade {
    Trade("m", "a", true, Some("w"), tag, true, Some("Yes"), result)
  }

  function ExampleState(m: Market, t: Trade, queue: set<MarketId>): State {
    State(map["m" := m], map["t" := t], map[], queue)
  }

  function TaggedHistory(): seq<Step> {
    [Discover("m", Info(true, true, true, Some("Yes"))),
     Arrive("t", Trade("m", "a", true, Some("w"), None, true, Some("Yes"), None)),
     Select, Process("m"), Tag("t", "unwind"), WriteMarket("m", Correction("No"))]
  }

  lemma ExampleUntilSelected()
    ensures var h, m, t := TaggedHistory(), ExampleMarket("Yes", None), ExampleTrade(None, None);
            Next(Next(Next(EMPTY, h[0]), h[1]), h[2]) == ExampleState(m, t, {"m"})
  {
    var h, m, t := TaggedHistory(), ExampleMarket("Yes", None), ExampleTrade(None, None);
    assert Next(EMPTY, h[0]) == State(map["m" := m], map[], map[], {});
    var s := Next(Next(EMPTY, h[0]), h[1]);
    assert s == ExampleState(m, t, {});
    assert NeedsRestamp(m, t) && Candidates(s) == {"m"};
  }

  lemma ExampleFromProcessing()
    ensures var h := TaggedHistory();
            Next(Next(Next(ExampleState(ExampleMarket("Yes", None), ExampleTrade(None, None), {"m"}), h[3]), h[4]), h[5])
            == ExampleState(ExampleMarket("No", Some("Yes")), ExampleTrade(Some("unwind"), Some(1)), {})
  {
    var h := TaggedHistory();
    var s := ExampleState(ExampleMarket("Yes", None), ExampleTrade(None, None), {"m"});
    assert Next(s, h[3]) == ExampleState(ExampleMarket("Yes", Some("Yes")), ExampleTrade(None, Some(1)), {});
  }

  // Such a state is reachable.
  lemma TaggedTradeExample()
    ensures var s := RunSteps(EMPTY, TaggedHistory());
            Consistent(s) && CheckFinds(s, "t") && Candidates(s) == {}
  {
    EveryInterleavingKeepsConsistent(EMPTY, TaggedHistory());
    ExampleUntilSelected();
    ExampleFromProcessing();
    RunSixSteps(EMPTY, TaggedHistory());
    hide Next, RunSteps, Consistent;
  }

  lemma RunSixSteps(s: State, h: seq<Step>)
    requires |h| == 6
    ensures RunSteps(s, h) == Next(Next(Next(Next(Next(Next(s, h[0]), h[1]), h[2]), h[3]), h[4]), h[5])
  {
    assert h[..5][..4] == h[..4] && h[..4][..3] == h[..3] && h[..3][..2] == h[..2] && h[..2][..1] == h[..1];
    assert h[..1][..0] == [];
    assert RunSteps(s, h[..1]) == Next(s, h[0]);
    assert RunSteps(s, h[..2]) == Next(RunSteps(s, h[..1]), h[1]);
    assert RunSteps(s, h[..3]) == Next(RunSteps(s, h[..2]), h[2]);
    assert RunSteps(s, h[..4]) == Next(RunSteps(s, h[..3]), h[3]);
    assert RunSteps(s, h[..5]) == Next(RunSteps(s, h[..4]), h[4]);
  }

  // A stale stamp that the migration hides: the check pages for it, and no run of the job helps.
  lemma HiddenStampExample()
    ensures var s := ExampleState(ExampleMarket("No", None), ExampleTrade(None, Some(1)), {});
      && Sane(s) && Stale(s, "t") && Candidates(s) == {"m"}
      && IsHidden(Migrate(s), "t") && Candidates(Migrate(s)) == {} && !IsCaseVariant(Migrate(s), "t") && CheckFinds(Migrate(s), "t")
  {
    var s := ExampleState(ExampleMarket("No", None), ExampleTrade(None, Some(1)), {});
    assert Upper("Yes")[0] != Upper("No")[0];
    assert NeedsRestamp(s.markets["m"], s.trades["t"]);
  }

  // A label that differs from the resolution in case alone pages, although everything is processed.
  lemma CaseVariantExample()
    ensures var s := ExampleState(ExampleMarket("YES", Some("YES")), ExampleTrade(None, Some(1)), {});
            Consistent(s) && IsCaseVariant(s, "t") && CheckFinds(s, "t") && Candidates(s) == {} && !Stale(s, "t")
  {
    UpperOfYes();
    var s := ExampleState(ExampleMarket("YES", Some("YES")), ExampleTrade(None, Some(1)), {});
    assert forall id :: id in s.trades ==> StampAgrees(s, s.trades[id]);
  }

  // A hidden stale stamp on a case variant: the result is wrong and the check says nothing.
  lemma CancellingExample()
    ensures var s := ExampleState(ExampleMarket("YES", Some("YES")), ExampleTrade(None, Some(0)), {});
            Sane(s) && IsHidden(s, "t") && IsCaseVariant(s, "t") && Silent(s)
  {
    UpperOfYes();
  }

  lemma UpperOfYes()
    ensures Upper("Yes") == Upper("YES") == "YES"
  {
    assert UpperChar('Y') == 'Y' && UpperChar('e') == 'E' && UpperChar('s') == 'S';
    assert UpperChar('E') == 'E' && UpperChar('S') == 'S';
  }
}

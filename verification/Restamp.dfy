/**
 Stamping BUY trades with the result of their market, and re-stamping them when the market's
 resolution changes.  The tables change in any interleaving of discovery, resolution jobs, arriving
 trades, corrections and processing; the job works from a list of markets it selected earlier.
 */
module Restamp {
  import opened Wrappers
  import opened Markets

  type MarketId = string
  type TradeId = string
  type AssetId = string

  datatype Trade = Trade(
    market: MarketId,
    asset: AssetId,
    isBuy: bool,
    wallet: Option<string>,
    tradeType: Option<string>,
    hasPrice: bool,
    outcome: Option<string>,
    result: Option<int>)

  datatype Token = Token(market: MarketId, outcome: Option<string>)

  // The tables, and the markets that a running job has selected but not yet processed.
  datatype State = State(
    markets: map<MarketId, Market>,
    trades: map<TradeId, Trade>,
    tokens: map<AssetId, Token>,
    queue: set<MarketId>)

  // ------------------------------------------------------------------ labels

  function UpperChar(c: char): char {
    if 'a' <= c <= 'z' then (c as int - 32) as char else c
  }

  function Upper(s: string): string {
    seq(|s|, i requires 0 <= i < |s| => UpperChar(s[i]))
  }

  // The result a label earns: none without a label, else whether it names the winner.
  function Verdict(outcome: Option<string>, winner: string): Option<int> {
    if outcome.None? then None
    else if Upper(outcome.value) == Upper(winner) then Some(1)
    else Some(0)
  }

  // ------------------------------------------------------------------ the restamp statements

  // The trades the candidate query looks at.
  predicate Eligible(t: Trade) {
    t.isBuy && t.wallet.Some? && t.tradeType.None?
  }

  // The trades the stamping update can touch.
  predicate Stampable(t: Trade) {
    Eligible(t) && t.hasPrice
  }

  function FillOutcome(t: Trade, tokens: map<AssetId, Token>): Trade {
    if t.isBuy && t.outcome.None? && t.asset in tokens && tokens[t.asset].outcome.Some?
    then t.(outcome := tokens[t.asset].outcome)
    else t
  }

  function Stamp(t: Trade, winner: string): Trade {
    if Stampable(t) then t.(result := Verdict(t.outcome, winner)) else t
  }

  function RestampTrades(trades: map<TradeId, Trade>, tokens: map<AssetId, Token>, m: MarketId, winner: string)
    : map<TradeId, Trade>
  {
    map id | id in trades ::
      if trades[id].market == m then Stamp(FillOutcome(trades[id], tokens), winner) else trades[id]
  }

  // ------------------------------------------------------------------ candidates and processing

  predicate NeedsRestamp(m: Market, t: Trade) {
    && m.resolved && m.closed && m.resolution.Some?
    && Eligible(t) && (t.result.None? || m.resolution != m.stamped)
  }

  function Candidates(s: State): set<MarketId> {
    set id | id in s.trades && s.trades[id].market in s.markets
             && NeedsRestamp(s.markets[s.trades[id].market], s.trades[id]) :: s.trades[id].market
  }

  // Processing reads the resolution afresh, stamps the market's trades and records what it stamped.
  function ProcessMarket(s: State, m: MarketId): State {
    if m !in s.markets || s.markets[m].resolution.None? then s.(queue := s.queue - {m})
    else
      var winner := s.markets[m].resolution.value;
      s.(trades := RestampTrades(s.trades, s.tokens, m, winner),
         markets := s.markets[m := s.markets[m].(stamped := Some(winner))],
         queue := s.queue - {m})
  }

  datatype Step =
    | Discover(m: MarketId, info: Info)
    | WriteMarket(m: MarketId, w: Write)
    | SetToken(asset: AssetId, m: MarketId, outcome: Option<string>)
    | Arrive(id: TradeId, trade: Trade)
    | Attribute(id: TradeId, wallet: string)
    | Tag(id: TradeId, tag: string)
    | Purge(id: TradeId)
    | Select
    | Process(m: MarketId)

  function Next(s: State, step: Step): State {
    match step
    case Discover(m, info) =>
      s.(markets := s.markets[m := if m in s.markets then Upsert(s.markets[m], info) else InsertMarket(info)])
    case WriteMarket(m, w) =>
      if m in s.markets then s.(markets := s.markets[m := Apply(s.markets[m], w)]) else s
    case SetToken(asset, m, outcome) =>
      if asset !in s.tokens then s.(tokens := s.tokens[asset := Token(m, outcome)])
      else if outcome.Some? then s.(tokens := s.tokens[asset := s.tokens[asset].(outcome := outcome)])
      else s
    case Arrive(id, trade) =>
      if id in s.trades then s else s.(trades := s.trades[id := trade.(result := None)])
    case Attribute(id, wallet) =>
      if id in s.trades && s.trades[id].wallet.None?
      then s.(trades := s.trades[id := s.trades[id].(wallet := Some(wallet))]) else s
    case Tag(id, tag) =>
      if id in s.trades && s.trades[id].tradeType.None?
      then s.(trades := s.trades[id := s.trades[id].(tradeType := Some(tag))]) else s
    case Purge(id) => s.(trades := s.trades - {id})
    case Select => s.(queue := s.queue + Candidates(s))
    case Process(m) => if m in s.queue then ProcessMarket(s, m) else s
  }

  function RunSteps(s: State, steps: seq<Step>): State {
    if steps == [] then s else Next(RunSteps(s, steps[..|steps| - 1]), steps[|steps| - 1])
  }

  // What any step does to a trade. It arrives without a result and never replaces one; a wallet and a tag are
  // filled in once; outcome and result change only where its own market is processed; and only a purge of it
  // takes it away.
  lemma WhatAStepDoesToATrade(s: State, step: Step, id: TradeId)
    ensures id in s.trades ==> (id !in Next(s, step).trades <==> step == Purge(id))
    ensures id !in s.trades && id in Next(s, step).trades ==>
      step.Arrive? && step.id == id && Next(s, step).trades[id] == step.trade.(result := None)
    ensures id in s.trades && id in Next(s, step).trades ==>
      var t, u := s.trades[id], Next(s, step).trades[id];
      && u == t.(wallet := u.wallet, tradeType := u.tradeType, outcome := u.outcome, result := u.result)
      && u.wallet == (if step.Attribute? && step.id == id && t.wallet == None then Some(step.wallet) else t.wallet)
      && u.tradeType == (if step.Tag? && step.id == id && t.tradeType == None then Some(step.tag) else t.tradeType)
      && (u.outcome != t.outcome || u.result != t.result ==> step == Process(t.market))
  {
    hide Verdict, Candidates;
  }

  // A token's label is set, and replaced by another one, but never taken away.
  lemma TokensKeepTheirLabels(s: State, asset: AssetId, m: MarketId, outcome: Option<string>)
    ensures var r := Next(s, SetToken(asset, m, outcome));
      && asset in r.tokens && r == s.(tokens := r.tokens)
      && (forall a :: a != asset ==> (a in r.tokens <==> a in s.tokens) && (a in s.tokens ==> r.tokens[a] == s.tokens[a]))
      && (asset !in s.tokens ==> r.tokens[asset].market == m && r.tokens[asset].outcome == outcome)
      && (asset in s.tokens ==>
            && r.tokens[asset].market == s.tokens[asset].market
            && r.tokens[asset].outcome == if outcome == None then s.tokens[asset].outcome else outcome)
  {
  }

  // ------------------------------------------------------------------ the invariant

  predicate Settled(m: Market) {
    m.resolved && m.closed && m.resolution.Some?
  }

  // A stamped trade lies on a settled market, and if it can still be re-stamped its result is the one
  // that the recorded stamp gives.
  predicate StampAgrees(s: State, t: Trade) {
    t.result.Some? ==>
      && t.market in s.markets && Settled(s.markets[t.market]) && t.isBuy && t.outcome.Some?
      && (t.tradeType.None? ==>
            && Stampable(t) && s.markets[t.market].stamped.Some?
            && t.result == Verdict(t.outcome, s.markets[t.market].stamped.value))
  }

  predicate Consistent(s: State) {
    && (forall m :: m in s.markets ==> ResolvedImpliesClosed(s.markets[m]))
    && (forall m :: m in s.queue ==> m in s.markets && Settled(s.markets[m]))
    && (forall id :: id in s.trades ==> StampAgrees(s, s.trades[id]))
  }

  lemma ProcessKeepsConsistent(s: State, m: MarketId)
    requires Consistent(s) && m in s.queue
    ensures Consistent(ProcessMarket(s, m))
  {
  }

  // A market write that regresses nothing leaves every stamp as it was.
  lemma MarketWriteKeepsConsistent(s: State, m: MarketId, after: Market)
    requires Consistent(s) && ResolvedImpliesClosed(after)
    requires m in s.markets ==>
      && (s.markets[m].resolved ==> after.resolved)
      && (s.markets[m].resolution.Some? ==> after.resolution.Some?)
      && after.stamped == s.markets[m].stamped
    ensures Consistent(s.(markets := s.markets[m := after]))
  {
  }

  // Changes to single trades keep a result only where they keep what it was based on.
  lemma TradeChangeKeepsConsistent(s: State, id: TradeId, t: Trade)
    requires Consistent(s) && StampAgrees(s, t)
    ensures Consistent(s.(trades := s.trades[id := t]))
  {
  }

  lemma StepKeepsConsistent(s: State, step: Step)
    requires Consistent(s)
    ensures Consistent(Next(s, step))
  {
    match step
    case Process(m) =>
      if m in s.queue {
        ProcessKeepsConsistent(s, m);
      }
    case Discover(m, info) =>
      if m in s.markets {
        WritersNeverRegress(s.markets[m], Discovery(info));
        MarketWriteKeepsConsistent(s, m, Upsert(s.markets[m], info));
      } else {
        InsertIsSound(info);
        MarketWriteKeepsConsistent(s, m, InsertMarket(info));
      }
    case WriteMarket(m, w) =>
      if m in s.markets {
        WritersNeverRegress(s.markets[m], w);
        MarketWriteKeepsConsistent(s, m, Apply(s.markets[m], w));
      }
    case Arrive(id, trade) => TradeChangeKeepsConsistent(s, id, trade.(result := None));
    case Attribute(id, wallet) =>
      if id in s.trades && s.trades[id].wallet.None? {
        TradeChangeKeepsConsistent(s, id, s.trades[id].(wallet := Some(wallet)));
      }
    case Tag(id, tag) =>
      if id in s.trades && s.trades[id].tradeType.None? {
        TradeChangeKeepsConsistent(s, id, s.trades[id].(tradeType := Some(tag)));
      }
    case _ =>
      assert forall id :: id in Next(s, step).trades ==> StampAgrees(s, s.trades[id]);
  }

  lemma {:induction false} EveryInterleavingKeepsConsistent(s: State, steps: seq<Step>)
    requires Consistent(s)
    ensures Consistent(RunSteps(s, steps))
  {
    if steps == [] {
    } else {
      EveryInterleavingKeepsConsistent(s, steps[..|steps| - 1]);
      StepKeepsConsistent(RunSteps(s, steps[..|steps| - 1]), steps[|steps| - 1]);
    }
  }

  // ------------------------------------------------------------------ no stale stamp is hidden

  // A stamped, still stampable trade whose result is not the one its market's resolution gives.
  predicate Stale(s: State, id: TradeId) {
    && id in s.trades && s.trades[id].market in s.markets && s.markets[s.trades[id].market].resolution.Some?
    && Stampable(s.trades[id]) && s.trades[id].result.Some?
    && s.trades[id].result != Verdict(s.trades[id].outcome, s.markets[s.trades[id].market].resolution.value)
  }

  lemma StaleIsCandidate(s: State, id: TradeId)
    requires Consistent(s) && Stale(s, id)
    ensures s.trades[id].market in Candidates(s)
  {
  }

  // In every state that any interleaving of the writers reaches, a stale stamp is on the candidate list.
  lemma NoStaleStampIsHidden(s: State, steps: seq<Step>, id: TradeId)
    requires Consistent(s) && Stale(RunSteps(s, steps), id)
    ensures RunSteps(s, steps).trades[id].market in Candidates(RunSteps(s, steps))
  {
    EveryInterleavingKeepsConsistent(s, steps);
    StaleIsCandidate(RunSteps(s, steps), id);
  }

  // ------------------------------------------------------------------ what processing achieves

  // The trades of a market that no restamp can give a result.
  predicate Unstampable(t: Trade, tokens: map<AssetId, Token>) {
    Eligible(t) && (!t.hasPrice || FillOutcome(t, tokens).outcome.None?)
  }

  lemma ProcessingRepairsTheMarket(s: State, m: MarketId)
    requires Consistent(s) && m in s.queue
    ensures var r := ProcessMarket(s, m);
      // every stampable trade of the market now has the result its resolution gives
      && (forall id :: id in s.trades && s.trades[id].market == m && Stampable(s.trades[id]) ==>
            r.trades[id].result == Verdict(FillOutcome(s.trades[id], s.tokens).outcome, s.markets[m].resolution.value))
      && (forall id :: id in r.trades && r.trades[id].market == m ==> !Stale(r, id))
      // nothing else has changed
      && r.trades.Keys == s.trades.Keys && r.tokens == s.tokens
      && (forall id :: id in s.trades && s.trades[id].market != m ==> r.trades[id] == s.trades[id])
      && (forall k :: k in s.markets && k != m ==> r.markets[k] == s.markets[k])
      // and the market is selected again exactly because of a trade that cannot be stamped
      && (m in Candidates(r) <==> exists id :: id in s.trades && s.trades[id].market == m && Unstampable(s.trades[id], s.tokens))
  {
    var r := ProcessMarket(s, m);
    assert forall id :: id in r.trades ==> r.trades[id].market == s.trades[id].market;
    forall id | id in s.trades && s.trades[id].market == m
      ensures NeedsRestamp(r.markets[m], r.trades[id]) <==> Unstampable(s.trades[id], s.tokens)
    {
      assert StampAgrees(s, s.trades[id]);
    }
  }

  // ------------------------------------------------------------------ the same, by fields

  // Two characters that are the same letter, or the same character.
  predicate SameLetter(c: char, d: char) {
    || c == d
    || ('a' <= c <= 'z' && 'A' <= d <= 'Z' && c as int - 'a' as int == d as int - 'A' as int)
    || ('A' <= c <= 'Z' && 'a' <= d <= 'z' && c as int - 'A' as int == d as int - 'a' as int)
  }

  predicate SameLabel(a: string, b: string) {
    |a| == |b| && forall i :: 0 <= i < |a| ==> SameLetter(a[i], b[i])
  }

  // Upper case forgets the case of letters and nothing else.
  lemma UpperForgetsCase(a: string, b: string)
    ensures Upper(a) == Upper(b) <==> SameLabel(a, b)
  {
    if Upper(a) == Upper(b) {
      assert |a| == |Upper(a)| == |Upper(b)| == |b|;
      forall i | 0 <= i < |a|
        ensures SameLetter(a[i], b[i])
      {
        assert UpperChar(a[i]) == Upper(a)[i] == Upper(b)[i] == UpperChar(b[i]);
      }
    }
  }

  // The label that the token of a trade's asset has.
  function TokenLabel(t: Trade, tokens: map<AssetId, Token>): Option<string> {
    if t.asset in tokens then tokens[t.asset].outcome else None
  }

  // Processing a market labels each of its buys that has no label with the token's, if there is one, whether
  // or not the trade can be stamped; and it stamps the buys that have a wallet, a price and no tag, with
  // nothing where there is no label, else with whether the label is the resolution up to case. All else of
  // each trade, and all trades of other markets, stay as they are.
  lemma ProcessingByFields(s: State, m: MarketId, id: TradeId)
    requires m in s.markets && s.markets[m].resolution.Some? && id in s.trades
    ensures id in ProcessMarket(s, m).trades
    ensures var t, u, winner := s.trades[id], ProcessMarket(s, m).trades[id], s.markets[m].resolution.value;
      && (t.market != m ==> u == t)
      && u.market == t.market && u.asset == t.asset && u.isBuy == t.isBuy && u.wallet == t.wallet
      && u.tradeType == t.tradeType && u.hasPrice == t.hasPrice
      && (t.outcome.Some? || !t.isBuy ==> u.outcome == t.outcome)
      && (t.market == m && t.isBuy && t.outcome.None? ==> u.outcome == TokenLabel(t, s.tokens))
      && (t.market == m && t.isBuy && t.wallet.Some? && t.tradeType.None? && t.hasPrice ==>
            && (u.outcome.None? ==> u.result == None)
            && (u.outcome.Some? && SameLabel(u.outcome.value, winner) ==> u.result == Some(1))
            && (u.outcome.Some? && !SameLabel(u.outcome.value, winner) ==> u.result == Some(0)))
      && (!t.isBuy || t.wallet.None? || t.tradeType.Some? || !t.hasPrice ==> u.result == t.result)
  {
    var t, winner := s.trades[id], s.markets[m].resolution.value;
    if t.outcome.Some? {
      UpperForgetsCase(t.outcome.value, winner);
    } else if TokenLabel(t, s.tokens).Some? {
      UpperForgetsCase(TokenLabel(t, s.tokens).value, winner);
    }
    hide Upper, SameLabel;
  }

  // A buy with a wallet and no tag, which the candidate query looks at.
  predicate IsCandidateTrade(t: Trade, m: MarketId) {
    t.market == m && t.isBuy && t.wallet.Some? && t.tradeType.None?
  }

  // A market is selected exactly when it is resolved and closed with a resolution, and has a buy with a
  // wallet and no tag that is not stamped, or was last stamped with another resolution.
  lemma SelectedExactly(s: State, m: MarketId)
    ensures m in Candidates(s) <==>
      && m in s.markets && s.markets[m].resolved && s.markets[m].closed && s.markets[m].resolution.Some?
      && exists id :: id in s.trades && IsCandidateTrade(s.trades[id], m)
                      && (s.trades[id].result.None? || s.markets[m].resolution != s.markets[m].stamped)
  {
    if m in Candidates(s) {
      var id :| id in s.trades && s.trades[id].market == m && m in s.markets && NeedsRestamp(s.markets[m], s.trades[id]);
      assert IsCandidateTrade(s.trades[id], m);
    }
  }

  // After its processing a market is selected again exactly for a buy with a wallet and no tag that has no
  // price, or that has neither a label nor a labelled token.
  lemma SelectedAgainExactly(s: State, m: MarketId)
    requires Consistent(s) && m in s.queue
    ensures m in Candidates(ProcessMarket(s, m)) <==>
      exists id :: id in s.trades && IsCandidateTrade(s.trades[id], m)
                   && (!s.trades[id].hasPrice || (s.trades[id].outcome.None? && TokenLabel(s.trades[id], s.tokens).None?))
  {
    ProcessingRepairsTheMarket(s, m);
    forall id | id in s.trades
      ensures s.trades[id].market == m && Unstampable(s.trades[id], s.tokens)
        <==> IsCandidateTrade(s.trades[id], m)
             && (!s.trades[id].hasPrice || (s.trades[id].outcome.None? && TokenLabel(s.trades[id], s.tokens).None?))
    {
      UnstampableByFields(s.trades[id], s.tokens, m);
    }
    hide *;
  }

  lemma UnstampableByFields(t: Trade, tokens: map<AssetId, Token>, m: MarketId)
    ensures t.market == m && Unstampable(t, tokens)
      <==> IsCandidateTrade(t, m) && (!t.hasPrice || (t.outcome.None? && TokenLabel(t, tokens).None?))
  {
  }

  lemma ProcessingMakesNothingStale(s: State, m: MarketId, id: TradeId)
    requires Consistent(s) && m in s.queue
    ensures Stale(ProcessMarket(s, m), id) ==> Stale(s, id) && s.trades[id].market != m
  {
    ProcessingRepairsTheMarket(s, m);
  }

  lemma ProcessingTwiceIsProcessingOnce(s: State, m: MarketId)
    ensures ProcessMarket(ProcessMarket(s, m), m) == ProcessMarket(s, m)
  {
    var r := ProcessMarket(s, m);
    assert ProcessMarket(r, m).trades == r.trades;
    assert ProcessMarket(r, m).markets == r.markets;
  }

  // ------------------------------------------------------------------ one undisturbed job run

  function ProcessAll(s: State, order: seq<MarketId>): State {
    if order == [] then s else ProcessMarket(ProcessAll(s, order[..|order| - 1]), order[|order| - 1])
  }

  lemma {:induction false} ProcessAllRepairs(s: State, order: seq<MarketId>)
    requires Consistent(s) && (forall i :: 0 <= i < |order| ==> order[i] in s.queue)
    requires forall i, j :: 0 <= i < j < |order| ==> order[i] != order[j]
    ensures var r := ProcessAll(s, order);
      && Consistent(r)
      && (forall m :: m in s.queue && m !in order ==> m in r.queue)
      && (forall id :: Stale(r, id) ==> Stale(s, id) && r.trades[id].market !in order)
      && (forall id :: id in r.trades ==> id in s.trades && r.trades[id].market == s.trades[id].market)
  {
    if order == [] {
    } else {
      var n := |order| - 1;
      var g, m := order[..n], order[n];
      assert forall i :: 0 <= i < n ==> g[i] == order[i];
      ProcessAllRepairs(s, g);
      var q := ProcessAll(s, g);
      ProcessKeepsConsistent(q, m);
      forall id
        ensures Stale(ProcessMarket(q, m), id) ==> Stale(q, id) && q.trades[id].market != m
      {
        ProcessingMakesNothingStale(q, m, id);
      }
    }
  }

  // Selecting and then processing every selected market, in any order, leaves no stale stamp at all.
  lemma OneRunLeavesNoStaleStamp(s: State, order: seq<MarketId>)
    requires Consistent(s)
    requires forall m :: m in order <==> m in Candidates(s)
    requires forall i, j :: 0 <= i < j < |order| ==> order[i] != order[j]
    ensures forall id :: !Stale(ProcessAll(Next(s, Select), order), id)
  {
    var q := Next(s, Select);
    StepKeepsConsistent(s, Select);
    ProcessAllRepairs(q, order);
    forall id | Stale(ProcessAll(q, order), id)
      ensures false
    {
      assert Stale(s, id);
      StaleIsCandidate(s, id);
    }
  }

  // ------------------------------------------------------------------ stamps from before the column

  // The migration that added the column recorded the current resolution for every settled market.
  function Migrate(s: State): State {
    s.(markets := map m | m in s.markets ::
         if Settled(s.markets[m]) then s.markets[m].(stamped := s.markets[m].resolution) else s.markets[m])
  }

  // After it a stamp that was already stale is visible exactly when the market also has an eligible
  // trade that was never stamped.
  lemma MigrationHidesOldStaleStamps(s: State, id: TradeId)
    requires Stale(s, id) && Settled(s.markets[s.trades[id].market])
    ensures var m := s.trades[id].market;
      m in Candidates(Migrate(s))
      <==> exists other :: other in s.trades && s.trades[other].market == m && Eligible(s.trades[other])
                           && s.trades[other].result.None?
  {
  }
}

/**
 Processing one resolved market: every open cost-basis row becomes a closed position or is dropped, the
 wallets' positions are settled, the market's trades are stamped and the stamp is recorded.
 */
module Settlement {
  import opened Wrappers
  import opened Arithmetic
  import opened Ledger
  import opened Restamp
  import opened Sums

  datatype CostBasis = CostBasis(market: MarketId, avg: real, size: real)

  // A row of the append-only table of closed positions.
  datatype ClosedPosition = ClosedPosition(
    key: Key,
    market: MarketId,
    entry: real,
    exit: real,
    shares: real,
    cost: real,
    pnl: real,
    closedAt: int,
    settlementTimeKnown: bool)

  // What processing needs to know about the market: its winner and when it settled.
  datatype Outcome = Outcome(winner: string, settledAt: Option<int>)

  function ClosingTime(o: Outcome, now: int): int {
    if o.settledAt.Some? then o.settledAt.value else now
  }

  function OutcomeLabel(tokens: map<AssetId, Token>, m: MarketId, asset: AssetId): Option<string> {
    if asset in tokens && tokens[asset].market == m then tokens[asset].outcome else None
  }

  // A row that closes into a position; the others are dropped.
  predicate Closes(cb: CostBasis, tokens: map<AssetId, Token>, m: MarketId, k: Key) {
    cb.avg > 0.0 && cb.size > 0.0 && OutcomeLabel(tokens, m, k.1).Some?
  }

  predicate Wins(tokens: map<AssetId, Token>, m: MarketId, k: Key, winner: string) {
    var outcome := OutcomeLabel(tokens, m, k.1);
    outcome.Some? && Upper(outcome.value) == Upper(winner)
  }

  function CloseRow(k: Key, cb: CostBasis, tokens: map<AssetId, Token>, m: MarketId, o: Outcome, now: int): ClosedPosition {
    var exit := ExitPrice(Wins(tokens, m, k, o.winner));
    ClosedPosition(k, m, cb.avg, exit, cb.size, Notional(cb.avg, cb.size), Gain(exit, cb.avg, cb.size),
                   ClosingTime(o, now), o.settledAt.Some?)
  }

  // The closed positions, in the order the rows are listed.
  function Closings(rows: map<Key, CostBasis>, order: seq<Key>, tokens: map<AssetId, Token>, m: MarketId, o: Outcome, now: int)
    : seq<ClosedPosition>
    requires forall i :: 0 <= i < |order| ==> order[i] in rows
  {
    if order == [] then []
    else
      var k := order[|order| - 1];
      Closings(rows, order[..|order| - 1], tokens, m, o, now)
      + if Closes(rows[k], tokens, m, k) then [CloseRow(k, rows[k], tokens, m, o, now)] else []
  }

  // Every closed position settles the wallet's position row, if there is one.
  function SettlePositions(positions: map<Key, Position>, closings: seq<ClosedPosition>): map<Key, Position> {
    if closings == [] then positions
    else
      var before, c := SettlePositions(positions, closings[..|closings| - 1]), closings[|closings| - 1];
      if c.key in before then before[c.key := SettleRow(before[c.key], c.shares, c.pnl, c.closedAt)] else before
  }

  function Wallets(cs: seq<ClosedPosition>): set<string> {
    if cs == [] then {} else Wallets(cs[..|cs| - 1]) + {cs[|cs| - 1].key.0}
  }

  lemma OneMoreClosing(cs: seq<ClosedPosition>, c: ClosedPosition, positions: map<Key, Position>)
    ensures Wallets(cs + [c]) == Wallets(cs) + {c.key.0}
    ensures TotalShares(cs + [c]) == TotalShares(cs) + c.shares
    ensures TotalPnl(cs + [c]) == TotalPnl(cs) + c.pnl
    ensures var before := SettlePositions(positions, cs);
            SettlePositions(positions, cs + [c])
            == if c.key in before then before[c.key := SettleRow(before[c.key], c.shares, c.pnl, c.closedAt)] else before
  {
    assert (cs + [c])[..|cs|] == cs;
  }

  // The rows of a market, each listed once.
  ghost predicate Lists(order: seq<Key>, rows: map<Key, CostBasis>, m: MarketId) {
    && (forall k :: k in order <==> k in rows && rows[k].market == m)
    && (forall i, j :: 0 <= i < j < |order| ==> order[i] != order[j])
  }

  function RestOf(rows: map<Key, CostBasis>, order: seq<Key>): map<Key, CostBasis> {
    map k | k in rows && k !in order :: rows[k]
  }

  lemma RemoveNext(rows: map<Key, CostBasis>, order: seq<Key>, i: nat)
    requires i < |order| && (forall j :: 0 <= j < |order| ==> order[j] in rows)
    requires forall a, b :: 0 <= a < b < |order| ==> order[a] != order[b]
    ensures order[i] in RestOf(rows, order[..i])
    ensures RestOf(rows, order[..i])[order[i]] == rows[order[i]]
    ensures RestOf(rows, order[..i + 1]) == RestOf(rows, order[..i]) - {order[i]}
    ensures RestOf(rows, []) == rows
  {
    assert order[..i + 1] == order[..i] + [order[i]];
  }

  lemma NextRow(rows: map<Key, CostBasis>, order: seq<Key>, i: nat, tokens: map<AssetId, Token>, m: MarketId, o: Outcome, now: int)
    requires i < |order| && forall j :: 0 <= j < |order| ==> order[j] in rows
    ensures var k := order[i];
            Closings(rows, order[..i + 1], tokens, m, o, now)
            == Closings(rows, order[..i], tokens, m, o, now)
               + if Closes(rows[k], tokens, m, k) then [CloseRow(k, rows[k], tokens, m, o, now)] else []
  {
    assert order[..i + 1][..i] == order[..i];
  }

  lemma NothingSettled(rows: map<Key, CostBasis>, order: seq<Key>, tokens: map<AssetId, Token>, m: MarketId, o: Outcome,
                       now: int, positions: map<Key, Position>)
    ensures Closings(rows, [], tokens, m, o, now) == [] && SettlePositions(positions, []) == positions
    ensures Wallets([]) == {} && RestOf(rows, order[..0]) == rows && order[..0] == []
  {
  }

  // ------------------------------------------------------------------ the tables

  datatype Tables = Tables(
    state: State,
    settledAt: map<MarketId, int>,
    costBasis: map<Key, CostBasis>,
    closed: seq<ClosedPosition>,
    positions: map<Key, Position>)

  predicate HasResolution(t: Tables, m: MarketId) {
    m in t.state.markets && t.state.markets[m].resolution.Some?
  }

  function OutcomeOf(t: Tables, m: MarketId): Outcome
    requires HasResolution(t, m)
  {
    Outcome(t.state.markets[m].resolution.value, if m in t.settledAt then Some(t.settledAt[m]) else None)
  }

  // The closed positions that processing a market adds; `order` lists its cost-basis rows.
  ghost function Added(t: Tables, m: MarketId, order: seq<Key>, now: int): seq<ClosedPosition>
    requires Lists(order, t.costBasis, m)
  {
    if HasResolution(t, m) then Closings(t.costBasis, order, t.state.tokens, m, OutcomeOf(t, m), now) else []
  }

  ghost function Processed(t: Tables, m: MarketId, order: seq<Key>, now: int): Tables
    requires Lists(order, t.costBasis, m)
  {
    if !HasResolution(t, m) then t
    else
      var added := Added(t, m, order, now);
      Tables(ProcessMarket(t.state, m).(queue := t.state.queue), t.settledAt, RestOf(t.costBasis, order),
             t.closed + added, SettlePositions(t.positions, added))
  }

  /** The tables that processing reads and writes. */
  class Store {
    var state: State
    var settledAt: map<MarketId, int>
    var costBasis: map<Key, CostBasis>
    var closed: seq<ClosedPosition>
    var positions: map<Key, Position>

    constructor (state: State, settledAt: map<MarketId, int>, costBasis: map<Key, CostBasis>, positions: map<Key, Position>)
      ensures this.state == state && this.settledAt == settledAt && this.costBasis == costBasis
      ensures this.positions == positions && closed == []
    {
      this.state, this.settledAt, this.costBasis, this.positions, this.closed := state, settledAt, costBasis, positions, [];
    }

    function Value(): Tables
      reads this
    {
      Tables(state, settledAt, costBasis, closed, positions)
    }

    // `order` is the market's cost-basis rows in the order the query returned them.
    method ProcessMarketResolution(m: MarketId, order: seq<Key>, now: int) returns (affected: set<string>)
      requires Lists(order, costBasis, m)
      modifies this
      ensures Value() == Processed(old(Value()), m, order, now)
      ensures affected == Wallets(Added(old(Value()), m, order, now))
    {
      hide Upper, SettleRow, Gain, Notional, Closings, SettlePositions, Wallets, RestOf, RestampTrades;
      affected := {};
      assert Wallets([]) == {} by { NothingSettled(costBasis, order, state.tokens, m, Outcome("", None), now, positions); }
      if m !in state.markets || state.markets[m].resolution.None? {
        return;
      }
      var o := OutcomeOf(Value(), m);
      ghost var rows, was, before := costBasis, closed, positions;
      ghost var done: seq<ClosedPosition> := [];
      NothingSettled(rows, order, state.tokens, m, o, now, before);
      for i := 0 to |order|
        invariant state == old(state) && settledAt == old(settledAt)
        invariant done == Closings(rows, order[..i], state.tokens, m, o, now)
        invariant closed == was + done && positions == SettlePositions(before, done)
        invariant costBasis == RestOf(rows, order[..i])
        invariant affected == Wallets(done)
      {
        var k := order[i];
        NextRow(rows, order, i, state.tokens, m, o, now);
        RemoveNext(rows, order, i);
        var cb := costBasis[k];
        var outcome := OutcomeLabel(state.tokens, m, k.1);
        if cb.avg > 0.0 && cb.size > 0.0 && outcome.Some? {
          var exit := if Upper(outcome.value) == Upper(o.winner) then 1.0 else 0.0;
          var pnl := Gain(exit, cb.avg, cb.size);
          var row := ClosedPosition(k, m, cb.avg, exit, cb.size, Notional(cb.avg, cb.size), pnl,
                                    ClosingTime(o, now), o.settledAt.Some?);
          closed := closed + [row];
          if k in positions {
            positions := positions[k := SettleRow(positions[k], cb.size, pnl, row.closedAt)];
          }
          affected := affected + {k.0};
          assert row == CloseRow(k, rows[k], state.tokens, m, o, now);
          OneMoreClosing(done, row, before);
          done := done + [row];
        }
        costBasis := costBasis - {k};
      }
      assert order[..|order|] == order;
      state := state.(trades := RestampTrades(state.trades, state.tokens, m, o.winner),
                      markets := state.markets[m := state.markets[m].(stamped := Some(o.winner))]);
    }
  }

  // ------------------------------------------------------------------ exactly once

  // A row is closed exactly when it is valid and labelled, and then as its own values say.
  lemma {:induction false} ClosingsAreExact(rows: map<Key, CostBasis>, order: seq<Key>, tokens: map<AssetId, Token>,
                                            m: MarketId, o: Outcome, now: int, c: ClosedPosition)
    requires forall i :: 0 <= i < |order| ==> order[i] in rows
    ensures c in Closings(rows, order, tokens, m, o, now)
      <==> c.key in order && Closes(rows[c.key], tokens, m, c.key) && c == CloseRow(c.key, rows[c.key], tokens, m, o, now)
  {
    if order == [] {
    } else {
      ClosingsAreExact(rows, order[..|order| - 1], tokens, m, o, now, c);
    }
  }

  // A closed position in terms of the tables alone: it comes from a row with a positive price and size whose
  // token is labelled, pays one unit a share where the label names the winner in any case, and was closed when
  // the market settled, or now if that is not known.
  predicate IsClosingOf(c: ClosedPosition, cb: CostBasis, tokens: map<AssetId, Token>, m: MarketId, o: Outcome, now: int) {
    && cb.avg > 0.0 && cb.size > 0.0
    && c.key.1 in tokens && tokens[c.key.1].market == m && tokens[c.key.1].outcome.Some?
    && c.market == m && c.entry == cb.avg && c.shares == cb.size && c.cost == cb.avg * cb.size
    && c.exit == (if SameLabel(tokens[c.key.1].outcome.value, o.winner) then 1.0 else 0.0)
    && c.pnl == (if SameLabel(tokens[c.key.1].outcome.value, o.winner) then cb.size else 0.0) - c.cost
    && (o.settledAt.Some? ==> c.settlementTimeKnown && c.closedAt == o.settledAt.value)
    && (o.settledAt.None? ==> !c.settlementTimeKnown && c.closedAt == now)
  }

  lemma ClosingsByTheTables(rows: map<Key, CostBasis>, order: seq<Key>, tokens: map<AssetId, Token>, m: MarketId, o: Outcome,
                            now: int, c: ClosedPosition)
    requires forall i :: 0 <= i < |order| ==> order[i] in rows
    ensures c in Closings(rows, order, tokens, m, o, now) <==> c.key in order && IsClosingOf(c, rows[c.key], tokens, m, o, now)
  {
    ClosingsAreExact(rows, order, tokens, m, o, now, c);
    if c.key in order && Closes(rows[c.key], tokens, m, c.key) {
      CloseRowByTheTables(c, rows[c.key], tokens, m, o, now);
    }
  }

  lemma CloseRowByTheTables(c: ClosedPosition, cb: CostBasis, tokens: map<AssetId, Token>, m: MarketId, o: Outcome, now: int)
    requires Closes(cb, tokens, m, c.key)
    ensures c == CloseRow(c.key, cb, tokens, m, o, now) <==> IsClosingOf(c, cb, tokens, m, o, now)
  {
    UpperForgetsCase(tokens[c.key.1].outcome.value, o.winner);
    GainIsDifference(0.0, cb.avg, cb.size);
    GainIsDifference(1.0, cb.avg, cb.size);
    hide Upper, SameLabel;
  }

  lemma {:induction false} NoRowClosesTwice(rows: map<Key, CostBasis>, order: seq<Key>, tokens: map<AssetId, Token>,
                                            m: MarketId, o: Outcome, now: int)
    requires forall i :: 0 <= i < |order| ==> order[i] in rows
    requires forall i, j :: 0 <= i < j < |order| ==> order[i] != order[j]
    ensures var cs := Closings(rows, order, tokens, m, o, now);
            forall i, j :: 0 <= i < j < |cs| ==> cs[i].key != cs[j].key
  {
    if order == [] {
    } else {
      var g, k := order[..|order| - 1], order[|order| - 1];
      NoRowClosesTwice(rows, g, tokens, m, o, now);
      var cs := Closings(rows, g, tokens, m, o, now);
      forall i | 0 <= i < |cs|
        ensures cs[i].key != k
      {
        ClosingsAreExact(rows, g, tokens, m, o, now, cs[i]);
      }
    }
  }

  // ------------------------------------------------------------------ conservation

  function TotalShares(cs: seq<ClosedPosition>): real {
    SumBy(cs, (c: ClosedPosition) => c.shares)
  }

  function TotalPnl(cs: seq<ClosedPosition>): real {
    SumBy(cs, (c: ClosedPosition) => c.pnl)
  }

  function ConsumedShares(rows: map<Key, CostBasis>, order: seq<Key>, tokens: map<AssetId, Token>, m: MarketId): real
    requires forall i :: 0 <= i < |order| ==> order[i] in rows
  {
    if order == [] then 0.0
    else
      var k := order[|order| - 1];
      ConsumedShares(rows, order[..|order| - 1], tokens, m) + if Closes(rows[k], tokens, m, k) then rows[k].size else 0.0
  }

  function ConsumedCost(rows: map<Key, CostBasis>, order: seq<Key>, tokens: map<AssetId, Token>, m: MarketId): real
    requires forall i :: 0 <= i < |order| ==> order[i] in rows
  {
    if order == [] then 0.0
    else
      var k := order[|order| - 1];
      ConsumedCost(rows, order[..|order| - 1], tokens, m)
      + if Closes(rows[k], tokens, m, k) then Notional(rows[k].avg, rows[k].size) else 0.0
  }

  function WinningShares(rows: map<Key, CostBasis>, order: seq<Key>, tokens: map<AssetId, Token>, m: MarketId, winner: string): real
    requires forall i :: 0 <= i < |order| ==> order[i] in rows
  {
    if order == [] then 0.0
    else
      var k := order[|order| - 1];
      WinningShares(rows, order[..|order| - 1], tokens, m, winner)
      + if Closes(rows[k], tokens, m, k) && Wins(tokens, m, k, winner) then rows[k].size else 0.0
  }

  // The shares closed are the shares consumed, and the PnL is one unit per winning share less the cost.
  lemma {:induction false} SettlementConserves(rows: map<Key, CostBasis>, order: seq<Key>, tokens: map<AssetId, Token>,
                                               m: MarketId, o: Outcome, now: int)
    requires forall i :: 0 <= i < |order| ==> order[i] in rows
    ensures var cs := Closings(rows, order, tokens, m, o, now);
      && TotalShares(cs) == ConsumedShares(rows, order, tokens, m)
      && TotalPnl(cs) == WinningShares(rows, order, tokens, m, o.winner) - ConsumedCost(rows, order, tokens, m)
  {
    if order == [] {
    } else {
      var g, k := order[..|order| - 1], order[|order| - 1];
      SettlementConserves(rows, g, tokens, m, o, now);
      var cs := Closings(rows, g, tokens, m, o, now);
      if Closes(rows[k], tokens, m, k) {
        var c := CloseRow(k, rows[k], tokens, m, o, now);
        OneMoreClosing(cs, c, map[]);
        PayoutOfOneRow(c.exit, rows[k].avg, rows[k].size);
      } else {
        assert cs + [] == cs;
      }
    }
  }

  lemma PayoutOfOneRow(exit: real, entry: real, shares: real)
    requires exit == 0.0 || exit == 1.0
    ensures Gain(exit, entry, shares) == (if exit == 1.0 then shares else 0.0) - Notional(entry, shares)
  {
    GainIsDifference(exit, entry, shares);
  }

  // A second processing of the market, at any later time, with whatever rows its query returns, changes
  // no table and affects no wallet; and the market is selected again exactly for a trade that cannot be
  // stamped.
  lemma SecondPassChangesNothing(t: Tables, m: MarketId, order: seq<Key>, again: seq<Key>, now: int, later: int)
    requires Lists(order, t.costBasis, m) && Lists(again, Processed(t, m, order, now).costBasis, m)
    ensures var r := Processed(t, m, order, now);
      && Processed(r, m, again, later) == r
      && Wallets(Added(r, m, again, later)) == {}
      && (Consistent(t.state) && HasResolution(t, m) && Settled(t.state.markets[m]) ==>
            (m in Candidates(r.state) <==>
               exists id :: id in t.state.trades && t.state.trades[id].market == m && Unstampable(t.state.trades[id], t.state.tokens)))
  {
    if HasResolution(t, m) {
      var r := Processed(t, m, order, now);
      NoRowsLeft(t.costBasis, order, again, m);
      ProcessingAgain(t.state, m);
      NothingSettled(r.costBasis, [], r.state.tokens, m, OutcomeOf(r, m), later, r.positions);
      assert r.closed + [] == r.closed;
      if Consistent(t.state) && Settled(t.state.markets[m]) {
        SelectedAgain(t.state, m);
      }
    }
  }

  // What processing leaves behind, table by table: the market's cost-basis rows are gone and no others, closed
  // positions are only added, the resolution is recorded as the stamp, and without a resolution nothing changes.
  lemma WhatProcessingLeaves(t: Tables, m: MarketId, order: seq<Key>, now: int)
    requires Lists(order, t.costBasis, m)
    ensures var r := Processed(t, m, order, now);
      if m in t.state.markets && t.state.markets[m].resolution.Some? then
        && (forall k :: k in r.costBasis <==> k in t.costBasis && t.costBasis[k].market != m)
        && (forall k :: k in r.costBasis ==> r.costBasis[k] == t.costBasis[k])
        && r.closed == t.closed + Added(t, m, order, now)
        && r.state.markets == t.state.markets[m := t.state.markets[m].(stamped := t.state.markets[m].resolution)]
        && r.state.tokens == t.state.tokens && r.state.queue == t.state.queue && r.settledAt == t.settledAt
      else r == t
  {
    hide SettlePositions, Closings, RestampTrades;
  }

  // The wallets that processing reports are those with a new closed position.
  lemma {:induction false} AffectedWalletsClosed(cs: seq<ClosedPosition>, w: string)
    ensures w in Wallets(cs) <==> exists i :: 0 <= i < |cs| && cs[i].key.0 == w
  {
    if cs == [] {
    } else {
      var n := |cs| - 1;
      AffectedWalletsClosed(cs[..n], w);
      if i :| 0 <= i < n && cs[..n][i].key.0 == w {
        assert cs[i].key.0 == w;
      }
      if i :| 0 <= i < |cs| && cs[i].key.0 == w {
        assert i < n ==> cs[..n][i].key.0 == w;
      }
    }
  }

  lemma NoRowsLeft(rows: map<Key, CostBasis>, order: seq<Key>, again: seq<Key>, m: MarketId)
    requires Lists(order, rows, m) && Lists(again, RestOf(rows, order), m)
    ensures again == []
  {
    if again != [] {
      var k := Member(again);
    }
  }

  lemma Member(keys: seq<Key>) returns (k: Key)
    requires keys != []
    ensures k in keys
  {
    k := keys[0];
  }

  // Outside the job's queue the second stamping is the first.
  lemma ProcessingAgain(s: State, m: MarketId)
    requires m in s.markets && s.markets[m].resolution.Some?
    ensures var r := ProcessMarket(s, m).(queue := s.queue);
            m in r.markets && r.markets[m].resolution.Some? && ProcessMarket(r, m).(queue := r.queue) == r
  {
    ProcessingTwiceIsProcessingOnce(s, m);
    var p := ProcessMarket(s, m);
    var r := p.(queue := s.queue);
    assert ProcessMarket(r, m).trades == ProcessMarket(p, m).trades;
    assert ProcessMarket(r, m).markets == ProcessMarket(p, m).markets;
  }

  lemma SelectedAgain(s: State, m: MarketId)
    requires Consistent(s) && m in s.markets && Settled(s.markets[m])
    ensures m in Candidates(ProcessMarket(s, m).(queue := s.queue)) <==>
      exists id :: id in s.trades && s.trades[id].market == m && Unstampable(s.trades[id], s.tokens)
  {
    var q := s.(queue := s.queue + {m});
    assert Consistent(q) by {
      assert forall id :: id in q.trades ==> StampAgrees(s, q.trades[id]);
    }
    ProcessingRepairsTheMarket(q, m);
    assert ProcessMarket(q, m).trades == ProcessMarket(s, m).trades;
    assert ProcessMarket(q, m).markets == ProcessMarket(s, m).markets;
    SameCandidates(ProcessMarket(q, m), ProcessMarket(s, m).(queue := s.queue));
  }

  lemma SameCandidates(a: State, b: State)
    requires a.markets == b.markets && a.trades == b.trades
    ensures Candidates(a) == Candidates(b)
  {
  }

  // The settled positions: untouched without a closing, and closed with one.
  lemma {:induction false} SettledRowsAreClosed(positions: map<Key, Position>, cs: seq<ClosedPosition>, k: Key)
    requires forall i, j :: 0 <= i < j < |cs| ==> cs[i].key != cs[j].key
    ensures SettlePositions(positions, cs).Keys == positions.Keys
    ensures k in positions && (forall i :: 0 <= i < |cs| ==> cs[i].key != k) ==> SettlePositions(positions, cs)[k] == positions[k]
    ensures forall i :: 0 <= i < |cs| && cs[i].key == k && k in positions ==>
      SettlePositions(positions, cs)[k] == SettleRow(positions[k], cs[i].shares, cs[i].pnl, cs[i].closedAt)
  {
    if cs == [] {
    } else {
      var n := |cs| - 1;
      assert forall i :: 0 <= i < n ==> cs[..n][i] == cs[i];
      SettledRowsAreClosed(positions, cs[..n], k);
    }
  }
}

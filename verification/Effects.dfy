/**
 What one committed trade, settlement or close does to the records of its wallet, said by its own fields
 and those of the records; and what that adds up to over any history.
 */
module Effects {
  import opened Wrappers
  import opened Arithmetic
  import opened Ledger
  import opened LedgerRuns
  import opened Backfill
  import opened CostBasis
  import opened Pagination
  import opened Poller
  import opened PollerResume
  import opened Holdings
  import opened Sums

  // ------------------------------------------------------------------ one trade

  // A trade touches the rows, the external ids and the records of its own asset, and nothing else.
  lemma TradeTouchesItsAsset(db: Db, t: Priced, asset: string)
    ensures var after := Record(db, t);
      && after.rows == db.rows + [t] && after.externalIds == db.externalIds + {t.tx}
      && (asset != t.asset ==>
            Entry(after.positions, asset) == Entry(db.positions, asset) && Entry(after.basis, asset) == Entry(db.basis, asset))
  {
  }

  // A buy opens a row, with the time of the trade, or adds its size to the shares bought and remaining of
  // the row there is, at the average that its cost moves; the cost basis grows by the same size.
  lemma ABuyAddsItsShares(db: Db, t: Priced)
    requires t.side == BuySide && t.size.value > 0.0
    requires t.asset in db.positions ==> db.positions[t.asset].remaining >= 0.0
    requires t.asset in db.basis ==> db.basis[t.asset].size >= 0.0
    ensures var after := Record(db, t); t.asset in after.positions && t.asset in after.basis
    ensures var q := Record(db, t).positions[t.asset];
      && q.status == Open
      && (t.asset !in db.positions ==>
            && q.bought == q.remaining == t.size.value && q.sold == q.pnl == 0.0 && q.avg == t.price.value
            && q.openedAt == Ts(t).Floor && q.closedAt.None? && !q.estimated)
      && (t.asset in db.positions ==>
            var p := db.positions[t.asset];
            && q.bought == p.bought + t.size.value && q.remaining == p.remaining + t.size.value
            && q.avg * q.remaining == p.avg * p.remaining + t.price.value * t.size.value
            && q.sold == p.sold && q.pnl == p.pnl && q.openedAt == p.openedAt && q.closedAt == p.closedAt && q.estimated == p.estimated)
      && q.cost == q.avg * q.bought
    ensures var c := Record(db, t).basis[t.asset];
      && (t.asset !in db.basis ==> c.size == t.size.value && c.avg == t.price.value)
      && (t.asset in db.basis ==>
            var b := db.basis[t.asset];
            c.size == b.size + t.size.value && c.avg * c.size == b.avg * b.size + t.price.value * t.size.value)
  {
    var price, size := t.price.value, t.size.value;
    if t.asset in db.positions {
      var p := db.positions[t.asset];
      DivCancels(Notional(p.avg, p.remaining) + Notional(price, size), p.remaining + size);
    }
    if t.asset in db.basis {
      var b := db.basis[t.asset];
      DivCancels(Notional(b.avg, b.size) + Notional(price, size), b.size + size);
    }
  }

  // A sell from a row adds its size to the shares sold and takes it from those remaining, to no less than
  // zero; what is then below 0.001 goes, and the row closes with the time of the trade. Bought grows only to
  // what has been sold. The PnL is that of the shares the cost basis holds, and the basis loses them.
  lemma ASellTakesItsShares(db: Db, t: Priced)
    requires t.side == SellSide && t.size.value > 0.0 && t.asset in db.positions
    ensures t.asset in Record(db, t).positions
    ensures var p, q, size := db.positions[t.asset], Record(db, t).positions[t.asset], t.size.value;
      && q.sold == p.sold + size
      && (p.remaining - size >= 0.001 ==> q.remaining == p.remaining - size && q.status == p.status && q.closedAt == p.closedAt)
      && (p.remaining - size < 0.001 ==> q.remaining == 0.0 && q.status == Closed && q.closedAt == Some(Ts(t).Floor))
      && q.bought == (if q.sold > p.bought then q.sold else p.bought)
      && q.avg == p.avg && q.openedAt == p.openedAt && q.estimated == p.estimated
      && (q.sold > p.bought ==> q.cost == q.avg * q.bought) && (q.sold <= p.bought ==> q.cost == p.cost)
    ensures var p, q, size := db.positions[t.asset], Record(db, t).positions[t.asset], t.size.value;
      if t.asset in db.basis && db.basis[t.asset].size > 0.0 && db.basis[t.asset].avg > 0.0
      then var b := db.basis[t.asset];
           q.pnl == p.pnl + (t.price.value - b.avg) * (if size <= b.size then size else b.size)
      else q.pnl == p.pnl
  {
  }

  lemma ASellShrinksTheBasis(db: Db, t: Priced)
    requires t.side == SellSide && t.size.value > 0.0
    ensures t.asset in db.basis <==> t.asset in Record(db, t).basis
    ensures t.asset in db.basis ==>
      var b, c := db.basis[t.asset], Record(db, t).basis[t.asset];
      && c.avg == b.avg
      && (b.size >= t.size.value ==> c.size == b.size - t.size.value)
      && (0.0 <= b.size < t.size.value ==> c.size == 0.0)
  {
  }

  // A sell without a row leaves a closed placeholder whose entry is the sale itself, if it has a price.
  lemma ASellWithoutARowLeavesAPlaceholder(db: Db, t: Priced)
    requires t.side == SellSide && t.size.value > 0.0 && t.asset !in db.positions
    ensures t.asset in Record(db, t).positions <==> t.price.value > 0.0
    ensures t.price.value > 0.0 ==>
      var q := Record(db, t).positions[t.asset];
      && q.bought == q.sold == t.size.value && q.remaining == q.pnl == 0.0 && q.avg == t.price.value
      && q.cost == t.price.value * t.size.value
      && q.status == Closed && q.estimated && q.openedAt == Ts(t).Floor && q.closedAt == Some(Ts(t).Floor)
  {
  }

  // A trade captured by the live ingestor does to the records what a polled one does, if it has a price and a
  // size that are not zero, an asset and a side, and nothing to them otherwise; its row is stored either way.
  lemma ACapturedTradeMovesTheRecords(w: World, t: Raw, v: World)
    requires Leads(w, Captured(t), v)
    ensures v.db.rows == w.db.rows + [t]
    ensures
      if && t.price.Some? && t.size.Some? && t.price.value != 0.0 && t.size.value != 0.0
         && t.asset != "" && t.side != OtherSide
      then v.log == w.log + [Traded(t)] && SameRecords(v.db, Record(w.db, t))
      else v.log == w.log + [Listed(t)] && v.db.positions == w.db.positions && v.db.basis == w.db.basis
  {
  }

  // ------------------------------------------------------------------ what a poll inserts

  // A poll inserts only trades of its window that have a transaction, an asset with a known market, a wallet,
  // a price, a size and a side, and whose transaction and asset it has not seen together.
  lemma OnlyCompleteTradesAreInserted(window: seq<Raw>, seen: set<TradeKey>, markets: Markets, t: Raw)
    requires t in Fresh(window, seen, markets)
    ensures t in window && (t.tx, t.asset) !in seen
    ensures t.tx != "" && t.asset != "" && t.wallet != "" && t.price.Some? && t.size.Some? && t.side != OtherSide && t.asset in markets
  {
    FreshComesFromTheWindow(window, seen, markets, t);
  }

  // And it inserts one for every such trade of the window.
  lemma EveryCompleteTradeIsInserted(window: seq<Raw>, seen: set<TradeKey>, markets: Markets, t: Raw)
    requires t in window && (t.tx, t.asset) !in seen
    requires t.tx != "" && t.asset != "" && t.wallet != "" && t.price.Some? && t.size.Some? && t.side != OtherSide && t.asset in markets
    ensures exists f :: f in Fresh(window, seen, markets) && f.tx == t.tx && f.asset == t.asset
  {
    var i :| 0 <= i < |window| && window[i] == t;
    CompleteRunsCaptureTheWindow(window, seen, markets, i);
    var f := KeysComeFromRows(Fresh(window, seen, markets), KeyOf(t));
  }

  // ------------------------------------------------------------------ one settlement or close

  // What every close leaves alone.
  predicate SameEntry(p: Position, q: Position) {
    q.avg == p.avg && q.openedAt == p.openedAt && q.estimated == p.estimated
  }

  predicate ClosedAsOf(q: Position, ts: int) {
    q.remaining == 0.0 && q.status == Closed && q.closedAt == Some(ts)
  }

  // A settlement closes the row for the shares and at the average of the cost basis, and deletes that; a
  // cost basis with nothing valid to settle is deleted alone.
  lemma ASettlementTakesTheBasis(l: Live, e: Event)
    requires e.Settle?
    ensures var after := Ingest(l, e);
      && after.basis.None?
      && (l.basis.None? || l.basis.value.size <= 0.0 || l.basis.value.avg <= 0.0 || l.row.None? ==> after.row == l.row)
      && (l.basis.Some? && l.basis.value.size > 0.0 && l.basis.value.avg > 0.0 && l.row.Some? ==>
            && after.row.Some?
            && var b, p, q := l.basis.value, l.row.value, after.row.value;
               && ClosedAsOf(q, e.ts) && SameEntry(p, q)
               && q.sold == p.sold + b.size && q.pnl == p.pnl + (e.exit - b.avg) * b.size
               && q.bought == (if q.sold > p.bought then q.sold else p.bought))
  {
  }

  // The resolver closes a row that holds shares, at one or nothing a share, valuing them at the average of
  // the cost basis when that is positive and at the row's own otherwise; it deletes the cost basis with it.
  lemma AResolutionPaysTheHolding(l: Live, e: Event)
    requires e.Resolve?
    ensures var after := Ingest(l, e);
      && (l.row.None? || l.row.value.remaining <= 0.0 ==> after == l)
      && (l.row.Some? && l.row.value.remaining > 0.0 ==>
            && after.basis.None? && after.row.Some?
            && var p, q := l.row.value, after.row.value;
               var entry := if l.basis.Some? && l.basis.value.avg > 0.0 then l.basis.value.avg else p.avg;
               && ClosedAsOf(q, e.ts) && SameEntry(p, q)
               && q.sold == p.sold + p.remaining && q.bought == p.bought && q.cost == p.cost
               && q.pnl == p.pnl + ((if e.won then 1.0 else 0.0) - entry) * p.remaining)
  {
  }

  // An unknown outcome closes a row that holds shares without PnL; the cost basis stays.
  lemma GivingUpLosesTheHolding(l: Live, e: Event)
    requires e.Abandon?
    ensures var after := Ingest(l, e);
      && after.basis == l.basis
      && (l.row.None? || l.row.value.remaining <= 0.0 ==> after.row == l.row)
      && (l.row.Some? && l.row.value.remaining > 0.0 ==>
            && after.row.Some?
            && var p, q := l.row.value, after.row.value;
               && ClosedAsOf(q, e.ts) && SameEntry(p, q)
               && q.sold == p.sold + p.remaining && q.bought == p.bought && q.cost == p.cost && q.pnl == p.pnl)
  {
  }

  // A drop deletes the cost basis and nothing else.
  lemma ADropDeletesTheBasis(l: Live, e: Event)
    requires e.Drop?
    ensures Ingest(l, e) == Live(None, l.row)
  {
  }

  // An open row of less than one share that was not closed as dust before, and for which there is a price.
  predicate IsPricedResidue(row: Option<Position>, e: Event)
    requires e.Residual?
  {
    && row.Some? && !e.duplicate && row.value.status == Open && 0.0 < row.value.remaining < 1.0
    && (e.own.Some? || row.value.avg > 0.0 || e.any.Some?)
  }

  // The dust job closes an open row of less than one share at the wallet's own last print, else at the
  // average, else at anyone's last print; without any of them, and in all other cases, nothing changes.
  lemma TheDustJobClosesAResidue(l: Live, e: Event)
    requires e.Residual?
    ensures var after := Ingest(l, e);
      && after.basis == l.basis
      && (!IsPricedResidue(l.row, e) ==> after.row == l.row)
      && (IsPricedResidue(l.row, e) ==>
            && after.row.Some?
            && var p, q := l.row.value, after.row.value;
               && ClosedAsOf(q, e.ts) && SameEntry(p, q)
               && q.sold == p.sold + p.remaining && q.bought == p.bought && q.cost == p.cost
               && (p.avg <= 0.0 ==> q.pnl == p.pnl)
               && (p.avg > 0.0 && e.own.Some? ==> q.pnl == p.pnl + (e.own.value - p.avg) * p.remaining)
               && (p.avg > 0.0 && e.own.None? ==> q.pnl == p.pnl))
  {
    if l.row.Some? {
      assert Gain(l.row.value.avg, l.row.value.avg, l.row.value.remaining) == 0.0;
    }
  }

  // ------------------------------------------------------------------ any history

  // The sizes of the committed buys of an asset that moved its records.
  function BuysCommitted(log: seq<Commit>, asset: string): real {
    if log == [] then 0.0
    else
      var x := log[|log| - 1];
      BuysCommitted(log[..|log| - 1], asset)
      + if x.Traded? && x.trade.asset == asset && x.trade.side == BuySide then x.trade.size.value else 0.0
  }

  predicate ClosersAreNoTrades(log: seq<Commit>) {
    forall i :: 0 <= i < |log| && log[i].ClosedOut? ==> !log[i].event.Buy? && !log[i].event.Sell?
  }

  lemma {:induction false} HistoryBuysWhatWasCommitted(log: seq<Commit>, asset: string)
    requires ClosersAreNoTrades(log)
    ensures SumBy(History(log, asset), BuySize()) == BuysCommitted(log, asset)
  {
    if log == [] {
    } else {
      var g, x := log[..|log| - 1], log[|log| - 1];
      HistoryBuysWhatWasCommitted(g, asset);
      SumByAppend(History(g, asset), EventsOf(x, asset), BuySize());
      BuysOfOne(x, asset);
      hide SumBy, EventsOf, BuySize;
    }
  }

  lemma BuysOfOne(x: Commit, asset: string)
    requires x.ClosedOut? ==> !x.event.Buy? && !x.event.Sell?
    ensures SumBy(EventsOf(x, asset), BuySize())
            == if x.Traded? && x.trade.asset == asset && x.trade.side == BuySide then x.trade.size.value else 0.0
  {
    var more := EventsOf(x, asset);
    if more != [] {
      SumByOne(more[0], BuySize());
      assert more == [more[0]];
    }
  }

  lemma {:induction false} LoggedAreNoClosers(s: seq<Priced>)
    ensures forall i :: 0 <= i < |Logged(s)| ==> Logged(s)[i].Traded?
  {
    if s == [] {
    } else {
      LoggedAreNoClosers(s[..|s| - 1]);
    }
  }

  lemma {:induction false} LogsHoldNoOtherTrades(ws: seq<World>, steps: seq<Step>)
    requires IsHistory(ws, steps)
    ensures ClosersAreNoTrades(ws[|steps|].log)
  {
    if steps == [] {
    } else {
      var n := |steps| - 1;
      HistoryBefore(ws, steps);
      LogsHoldNoOtherTrades(ws[..n + 1], steps[..n]);
      assert ws[..n + 1][n] == ws[n];
      match steps[n]
      case Polled(window, markets) =>
        var pending := Fresh(window, Keys(ws[n].db.rows), markets);
        var k: nat, sells: nat :| CommitsPrefix(ws[n].db, pending, ws[n + 1].db, k, sells) && ws[n + 1].log == ws[n].log + Logged(pending[..k]);
        LoggedAreNoClosers(pending[..k]);
      case _ =>
    }
  }

  // Over any history of polls, captures, settlements, closes and purges a row has bought at least the sizes
  // of the buys that were committed for it, and exactly these unless something was disposed of twice.
  lemma BoughtIsTheCommittedBuysExactly(ws: seq<World>, steps: seq<Step>, asset: string)
    requires IsHistory(ws, steps) && PositiveSizes(History(ws[|steps|].log, asset))
    ensures var bought := BoughtIn(Entry(ws[|steps|].db.positions, asset));
      && bought >= BuysCommitted(ws[|steps|].log, asset)
      && (bought == BuysCommitted(ws[|steps|].log, asset) <==> NeverInflates(History(ws[|steps|].log, asset)))
  {
    var log := ws[|steps|].log;
    RecordsFollowTheLog(ws, steps, asset);
    assert Entry(ws[|steps|].db.positions, asset) == IngestAll(History(log, asset)).row;
    BoughtIsWhatWasBoughtExactly(History(log, asset));
    LogsHoldNoOtherTrades(ws, steps);
    HistoryBuysWhatWasCommitted(log, asset);
  }
}

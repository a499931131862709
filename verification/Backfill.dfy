/**
 Rebuilding a position row from the trade history, and the exact condition under which the rebuilt
 row is the one the incremental ledger holds.
 */
module Backfill {
  import opened Wrappers
  import opened Arithmetic
  import opened Ledger
  import opened LedgerRuns
  import opened Sums

  // A closed-position row: when it was closed, what it realized and how many shares it sold.
  datatype ClosedRow = ClosedRow(closedAt: int, pnl: real, shares: real)

  // Seconds within which a sell is matched to a closed-position row.
  const MATCH_SECONDS := 30

  function Distance(row: ClosedRow, ts: int): nat {
    if row.closedAt >= ts then row.closedAt - ts else ts - row.closedAt
  }

  // ------------------------------------------------------------------ matching sells to closed rows

  // The first of the closest unused rows among the first n.
  function Closest(queue: seq<ClosedRow>, used: set<nat>, ts: int, n: nat): (r: Option<nat>)
    requires n <= |queue|
    ensures r.Some? ==> r.value < n && r.value !in used
  {
    if n == 0 then None
    else
      var best := Closest(queue, used, ts, n - 1);
      if n - 1 in used then best
      else if best.None? || Distance(queue[n - 1], ts) < Distance(queue[best.value], ts) then Some(n - 1)
      else best
  }

  function MatchSell(queue: seq<ClosedRow>, used: set<nat>, ts: int): (r: Option<nat>)
    ensures r.Some? ==> r.value < |queue|
  {
    var best := Closest(queue, used, ts, |queue|);
    if best.Some? && Distance(queue[best.value], ts) <= MATCH_SECONDS then best else None
  }

  lemma {:induction false} ClosestIsMinimal(queue: seq<ClosedRow>, used: set<nat>, ts: int, n: nat)
    requires n <= |queue|
    ensures forall j :: 0 <= j < n && j !in used ==>
      var best := Closest(queue, used, ts, n);
      && best.Some?
      && Distance(queue[best.value], ts) <= Distance(queue[j], ts)
      && (j < best.value ==> Distance(queue[best.value], ts) < Distance(queue[j], ts))
  {
    if n == 0 {
    } else {
      ClosestIsMinimal(queue, used, ts, n - 1);
    }
  }

  // A sell takes the earliest of the closest unused rows, and finds none exactly when no unused row
  // lies within the tolerance.
  lemma MatchIsClosestUnused(queue: seq<ClosedRow>, used: set<nat>, ts: int)
    ensures var m := MatchSell(queue, used, ts);
      && (m.None? <==> forall j :: 0 <= j < |queue| && j !in used ==> queue[j].closedAt < ts - 30 || queue[j].closedAt > ts + 30)
      && (m.Some? ==>
            && m.value < |queue| && m.value !in used
            && forall j :: 0 <= j < |queue| && j !in used ==>
                 && Distance(queue[m.value], ts) <= Distance(queue[j], ts)
                 && (j < m.value ==> Distance(queue[m.value], ts) < Distance(queue[j], ts)))
  {
    ClosestIsMinimal(queue, used, ts, |queue|);
  }

  method FindSellWcp(queue: seq<ClosedRow>, used: set<nat>, ts: int) returns (found: Option<nat>)
    ensures found == MatchSell(queue, used, ts)
    ensures found.Some? ==> found.value < |queue|
  {
    var best: Option<nat> := None;
    for i := 0 to |queue|
      invariant best == Closest(queue, used, ts, i)
    {
      if i !in used {
        if best.None? || Distance(queue[i], ts) < Distance(queue[best.value], ts) {
          best := Some(i);
        }
      }
    }
    if best.Some? && Distance(queue[best.value], ts) <= MATCH_SECONDS {
      return best;
    }
    return None;
  }

  // ------------------------------------------------------------------ the replay

  datatype Replay = Replay(
    bought: real,
    sold: real,
    remaining: real,
    avg: real,
    cost: real,
    pnl: real,
    openedAt: Option<int>,
    used: set<nat>)

  const START := Replay(0.0, 0.0, 0.0, 0.0, 0.0, 0.0, None, {})

  function ReplayTrade(st: Replay, e: Event, queue: seq<ClosedRow>): Replay {
    match e
    case Buy(price, size, ts) =>
      var total := st.remaining + size;
      var avg := if total > 0.0 then (Notional(st.avg, st.remaining) + Notional(price, size)) / total else st.avg;
      st.(openedAt := if st.openedAt.None? then Some(ts) else st.openedAt, avg := avg,
          bought := st.bought + size, remaining := total, cost := Notional(avg, st.bought + size))
    case Sell(price, size, ts) =>
      var m := MatchSell(queue, st.used, ts);
      st.(sold := st.sold + size, remaining := Max(0.0, st.remaining - size),
          pnl := st.pnl + if m.Some? then queue[m.value].pnl else Gain(price, st.avg, size),
          used := if m.Some? then st.used + {m.value} else st.used)
    case _ => st
  }

  function ReplayAll(h: seq<Event>, queue: seq<ClosedRow>): Replay {
    if h == [] then START else ReplayTrade(ReplayAll(h[..|h| - 1], queue), h[|h| - 1], queue)
  }

  function PnlOf(): ClosedRow -> real {
    (r: ClosedRow) => r.pnl
  }

  function SharesOf(): ClosedRow -> real {
    (r: ClosedRow) => r.shares
  }

  function TotalPnl(rows: seq<ClosedRow>): real {
    SumBy(rows, PnlOf())
  }

  function TotalShares(rows: seq<ClosedRow>): real {
    SumBy(rows, SharesOf())
  }

  // The latest closing time among the matched rows.
  function LastMatched(queue: seq<ClosedRow>, used: set<nat>, n: nat): Option<int>
    requires n <= |queue|
  {
    if n == 0 then None
    else
      var last := LastMatched(queue, used, n - 1);
      if n - 1 in used && (last.None? || queue[n - 1].closedAt > last.value) then Some(queue[n - 1].closedAt) else last
  }

  // The row the rebuild writes, or nothing when the history holds no buy.
  function RebuiltRow(st: Replay, queue: seq<ClosedRow>, resolved: seq<ClosedRow>): Option<Position> {
    if st.openedAt.None? then None
    else if resolved != [] then
      var sold := st.sold + TotalShares(resolved);
      var remaining := Max(0.0, st.bought - sold);
      Some(Position(st.bought, sold, remaining, st.avg, st.cost, st.pnl + TotalPnl(resolved),
                    if remaining <= 0.0 then Closed else Open, false, st.openedAt.value,
                    if remaining <= 0.0 then Some(resolved[|resolved| - 1].closedAt) else None))
    else
      var closed := st.remaining <= 0.0 && st.sold > 0.0;
      Some(Position(st.bought, st.sold, st.remaining, st.avg, st.cost, st.pnl,
                    if closed then Closed else Open, false, st.openedAt.value,
                    if closed then LastMatched(queue, st.used, |queue|) else None))
  }

  predicate IsTrade(e: Event) {
    e.Buy? || e.Sell?
  }

  lemma NothingReplayed(trades: seq<Event>, queue: seq<ClosedRow>, resolved: seq<ClosedRow>)
    ensures ReplayAll(trades[..0], queue) == START
    ensures TotalPnl(resolved[..0]) == 0.0 && TotalShares(resolved[..0]) == 0.0
    ensures forall used :: LastMatched(queue, used, 0) == None
  {
  }

  lemma ReplayNext(trades: seq<Event>, i: nat, queue: seq<ClosedRow>)
    requires i < |trades|
    ensures ReplayAll(trades[..i + 1], queue) == ReplayTrade(ReplayAll(trades[..i], queue), trades[i], queue)
  {
    assert trades[..i + 1][..i] == trades[..i];
  }

  lemma TotalsNext(rows: seq<ClosedRow>, i: nat)
    requires i < |rows|
    ensures TotalPnl(rows[..i + 1]) == TotalPnl(rows[..i]) + rows[i].pnl
    ensures TotalShares(rows[..i + 1]) == TotalShares(rows[..i]) + rows[i].shares
  {
    assert rows[..i + 1][..i] == rows[..i];
  }

  lemma LastMatchedNext(queue: seq<ClosedRow>, used: set<nat>, i: nat)
    requires i < |queue|
    ensures var last := LastMatched(queue, used, i);
            LastMatched(queue, used, i + 1)
            == if i in used && (last.None? || queue[i].closedAt > last.value) then Some(queue[i].closedAt) else last
  {
  }

  // One (wallet, asset) of the rebuild: trades oldest first, then the status decision.
  method RebuildPosition(trades: seq<Event>, queue: seq<ClosedRow>, resolved: seq<ClosedRow>)
    returns (row: Option<Position>)
    requires forall i :: 0 <= i < |trades| ==> IsTrade(trades[i])
    ensures row == RebuiltRow(ReplayAll(trades, queue), queue, resolved)
  {
    hide ReplayAll, MatchSell, TotalPnl, TotalShares, LastMatched, Notional, Gain;
    NothingReplayed(trades, queue, resolved);
    var totalBought, totalSold, remaining, avgEntry, totalCostBasis, realizedPnl := 0.0, 0.0, 0.0, 0.0, 0.0, 0.0;
    var openedAt: Option<int> := None;
    var used: set<nat> := {};
    for i := 0 to |trades|
      invariant Replay(totalBought, totalSold, remaining, avgEntry, totalCostBasis, realizedPnl, openedAt, used)
                == ReplayAll(trades[..i], queue)
    {
      ReplayNext(trades, i, queue);
      match trades[i]
      case Buy(price, size, ts) =>
        if openedAt.None? {
          openedAt := Some(ts);
        }
        var newTotal := remaining + size;
        if newTotal > 0.0 {
          avgEntry := (Notional(avgEntry, remaining) + Notional(price, size)) / newTotal;
        }
        totalBought := totalBought + size;
        remaining := newTotal;
        totalCostBasis := Notional(avgEntry, totalBought);
      case Sell(price, size, ts) =>
        var wcp := FindSellWcp(queue, used, ts);
        var sellPnl := if wcp.Some? then queue[wcp.value].pnl else Gain(price, avgEntry, size);
        if wcp.Some? {
          used := used + {wcp.value};
        }
        totalSold := totalSold + size;
        remaining := Max(0.0, remaining - size);
        realizedPnl := realizedPnl + sellPnl;
      case _ =>
    }
    assert trades[..|trades|] == trades;
    ghost var st := ReplayAll(trades, queue);
    if openedAt.None? {
      return None;
    }
    var status, closedAt := Open, None;
    if resolved != [] {
      for i := 0 to |resolved|
        invariant realizedPnl == st.pnl + TotalPnl(resolved[..i])
        invariant totalSold == st.sold + TotalShares(resolved[..i])
      {
        TotalsNext(resolved, i);
        realizedPnl := realizedPnl + resolved[i].pnl;
        totalSold := totalSold + resolved[i].shares;
      }
      assert resolved[..|resolved|] == resolved;
      remaining := Max(0.0, totalBought - totalSold);
      if remaining <= 0.0 {
        status, closedAt := Closed, Some(resolved[|resolved| - 1].closedAt);
      }
    } else if remaining <= 0.0 && totalSold > 0.0 {
      status := Closed;
      for i := 0 to |queue|
        invariant closedAt == LastMatched(queue, used, i)
      {
        LastMatchedNext(queue, used, i);
        if i in used && (closedAt.None? || queue[i].closedAt > closedAt.value) {
          closedAt := Some(queue[i].closedAt);
        }
      }
    }
    return Some(Position(totalBought, totalSold, remaining, avgEntry, totalCostBasis, realizedPnl,
                         status, false, openedAt.value, closedAt));
  }

  // ------------------------------------------------------------------ live ledger against replay

  // Same holdings: shares, average, cost basis, status and opening time.
  predicate SameHoldings(a: Option<Position>, b: Option<Position>) {
    && (a.Some? <==> b.Some?)
    && (a.Some? ==>
          var p, q := a.value, b.value;
          && p.bought == q.bought && p.sold == q.sold && p.remaining == q.remaining
          && p.avg == q.avg && p.cost == q.cost && p.status == q.status && p.openedAt == q.openedAt)
  }

  // After every prefix of the history the live row is the rebuilt row.
  predicate AgreesThroughout(h: seq<Event>, queue: seq<ClosedRow>) {
    && SameHoldings(Run(h), RebuiltRow(ReplayAll(h, queue), queue, []))
    && (h == [] || AgreesThroughout(h[..|h| - 1], queue))
  }

  // A sell that neither exceeds what is left nor leaves a leftover below 0.001 shares.
  predicate CleanSell(st: Replay, e: Event) {
    e.Sell? ==> e.size <= st.remaining && !(0.0 < st.remaining - e.size < DUST)
  }

  predicate CleanThroughout(h: seq<Event>, queue: seq<ClosedRow>) {
    h == [] || (CleanThroughout(h[..|h| - 1], queue) && CleanSell(ReplayAll(h[..|h| - 1], queue), h[|h| - 1]))
  }

  // A sell without a positive price, which opens no row.
  predicate UnpricedSell(e: Event) {
    e.Sell? && e.price <= 0.0
  }

  predicate OnlyUnpricedSells(h: seq<Event>) {
    h == [] || (OnlyUnpricedSells(h[..|h| - 1]) && UnpricedSell(h[|h| - 1]))
  }

  predicate TradesOnly(h: seq<Event>) {
    h == [] || (TradesOnly(h[..|h| - 1]) && IsTrade(h[|h| - 1]) && PositiveAmounts(h[|h| - 1]))
  }

  // Nothing lost and nothing invented: every share bought is sold or still there.
  predicate Tight(st: Replay) {
    && st.sold + st.remaining == st.bought && st.remaining >= 0.0 && st.sold >= 0.0
    && (st.openedAt.None? <==> st.bought == 0.0)
  }

  // From a tight state the rows go on agreeing exactly through a clean trade, or through a sell without
  // a price before there is any row.
  lemma StepAgreesExactlyWhenClean(row: Option<Position>, st: Replay, e: Event, queue: seq<ClosedRow>)
    requires SameHoldings(row, RebuiltRow(st, queue, [])) && Sound(row) && Tight(st)
    requires IsTrade(e) && PositiveAmounts(e)
    ensures SameHoldings(Apply(row, e), RebuiltRow(ReplayTrade(st, e, queue), queue, []))
      <==> CleanSell(st, e) || (row.None? && UnpricedSell(e))
    ensures CleanSell(st, e) ==> Tight(ReplayTrade(st, e, queue)) && Apply(row, e).Some?
  {
    if e.Buy? && row.None? {
      FirstAverage(st.avg, e.price, e.size);
    }
  }

  lemma FirstAverage(avg: real, price: real, size: real)
    requires size > 0.0
    ensures (Notional(avg, 0.0) + Notional(price, size)) / (0.0 + size) == price
  {
    NotionalSplits(avg, 0.0, 0.0);
  }

  lemma {:induction false} CleanHistoriesAreTight(h: seq<Event>, queue: seq<ClosedRow>)
    requires TradesOnly(h) && CleanThroughout(h, queue)
    ensures AgreesThroughout(h, queue) && Tight(ReplayAll(h, queue)) && AllPositive(h)
    ensures h != [] ==> Run(h).Some?
  {
    if h == [] {
    } else {
      var g := h[..|h| - 1];
      CleanHistoriesAreTight(g, queue);
      EveryRunIsSound(g);
      StepAgreesExactlyWhenClean(Run(g), ReplayAll(g, queue), h[|h| - 1], queue);
    }
  }

  // Sells without a price leave no row on either side, but the replay remembers what they sold.
  lemma {:induction false} UnpricedSellsLeaveNoRow(h: seq<Event>, queue: seq<ClosedRow>)
    requires TradesOnly(h) && OnlyUnpricedSells(h)
    ensures Run(h).None? && AgreesThroughout(h, queue) && AllPositive(h)
    ensures var st := ReplayAll(h, queue);
            st.openedAt.None? && st.bought == st.remaining == 0.0 && st.sold >= 0.0 && (h != [] ==> st.sold > 0.0)
    ensures h != [] ==> !CleanThroughout(h, queue)
  {
    if h == [] {
    } else {
      UnpricedSellsLeaveNoRow(h[..|h| - 1], queue);
    }
  }

  // After such sells the next trade agrees only if it is one more of them.
  lemma AfterUnpricedSells(g: seq<Event>, e: Event, queue: seq<ClosedRow>)
    requires TradesOnly(g) && g != [] && OnlyUnpricedSells(g) && IsTrade(e) && PositiveAmounts(e)
    ensures SameHoldings(Apply(Run(g), e), RebuiltRow(ReplayTrade(ReplayAll(g, queue), e, queue), queue, []))
      <==> UnpricedSell(e)
  {
    UnpricedSellsLeaveNoRow(g, queue);
    hide Run, ReplayAll, OnlyUnpricedSells, TradesOnly, CleanThroughout;
  }

  // After clean trades it agrees if it is clean too, or if it is the first one and a sell without a price.
  lemma AfterCleanTrades(g: seq<Event>, e: Event, queue: seq<ClosedRow>)
    requires TradesOnly(g) && CleanThroughout(g, queue) && IsTrade(e) && PositiveAmounts(e)
    ensures SameHoldings(Apply(Run(g), e), RebuiltRow(ReplayTrade(ReplayAll(g, queue), e, queue), queue, []))
      <==> CleanSell(ReplayAll(g, queue), e) || (OnlyUnpricedSells(g) && UnpricedSell(e))
  {
    hide *;
    CleanHistoriesAreTight(g, queue);
    AgreesNow(g, queue);
    EveryRunIsSound(g);
    StepAgreesExactlyWhenClean(Run(g), ReplayAll(g, queue), e, queue);
    NothingRun();
    if OnlyUnpricedSells(g) {
      UnpricedSellsLeaveNoRow(g, queue);
    }
  }

  lemma NothingRun()
    ensures Run([]).None? && OnlyUnpricedSells([])
  {
  }

  lemma OneMoreTrade(h: seq<Event>, queue: seq<ClosedRow>)
    requires h != []
    ensures var g, e := h[..|h| - 1], h[|h| - 1];
      && (AgreesThroughout(h, queue) <==>
            && AgreesThroughout(g, queue)
            && SameHoldings(Apply(Run(g), e), RebuiltRow(ReplayTrade(ReplayAll(g, queue), e, queue), queue, [])))
      && (CleanThroughout(h, queue) <==> CleanThroughout(g, queue) && CleanSell(ReplayAll(g, queue), e))
      && (OnlyUnpricedSells(h) <==> OnlyUnpricedSells(g) && UnpricedSell(e))
      && (TradesOnly(h) <==> TradesOnly(g) && IsTrade(e) && PositiveAmounts(e))
  {
    hide Apply, ReplayTrade, RebuiltRow, SameHoldings, CleanSell;
  }

  lemma AgreesNow(h: seq<Event>, queue: seq<ClosedRow>)
    requires AgreesThroughout(h, queue)
    ensures SameHoldings(Run(h), RebuiltRow(ReplayAll(h, queue), queue, []))
  {
  }

  // The incremental ledger and the rebuild agree after every prefix of a history exactly when every
  // sell in it is clean, or when it holds nothing but sells without a price.
  lemma {:induction false} LiveRefinesReplay(h: seq<Event>, queue: seq<ClosedRow>)
    requires TradesOnly(h)
    ensures AgreesThroughout(h, queue) <==> CleanThroughout(h, queue) || OnlyUnpricedSells(h)
  {
    if h == [] {
    } else {
      hide *;
      var g, e := h[..|h| - 1], h[|h| - 1];
      OneMoreTrade(h, queue);
      LiveRefinesReplay(g, queue);
      if CleanThroughout(g, queue) {
        AfterCleanTrades(g, e, queue);
      } else if OnlyUnpricedSells(g) {
        AfterUnpricedSells(g, e, queue);
      }
    }
  }

  predicate PnlAgreesThroughout(h: seq<Event>, queue: seq<ClosedRow>) {
    && Pnl(Run(h)) == ReplayAll(h, queue).pnl
    && (h == [] || PnlAgreesThroughout(h[..|h| - 1], queue))
  }

  // A sell that is matched takes the PnL of its row; that must be what the sale realized. A sell that is
  // not matched is valued in full, which is right at a positive entry price or without a profit.
  predicate RightlyValued(st: Replay, e: Event, queue: seq<ClosedRow>) {
    e.Sell? ==>
      var m := MatchSell(queue, st.used, e.ts);
      if m.Some? then queue[m.value].pnl == SellPnl(st.remaining, st.avg, e.price, e.size)
      else st.avg > 0.0 || e.price == st.avg
  }

  predicate RightlyValuedThroughout(h: seq<Event>, queue: seq<ClosedRow>) {
    h == [] || (RightlyValuedThroughout(h[..|h| - 1], queue) && RightlyValued(ReplayAll(h[..|h| - 1], queue), h[|h| - 1], queue))
  }

  lemma StepPnlAgreesExactlyWhenRightlyValued(row: Option<Position>, st: Replay, e: Event, queue: seq<ClosedRow>)
    requires SameHoldings(row, RebuiltRow(st, queue, [])) && Sound(row) && Tight(st) && Pnl(row) == st.pnl
    requires IsTrade(e) && PositiveAmounts(e) && CleanSell(st, e)
    ensures Pnl(Apply(row, e)) == ReplayTrade(st, e, queue).pnl <==> RightlyValued(st, e, queue)
  {
    if e.Sell? {
      GainIsZeroExactly(e.price, st.avg, e.size);
      hide MatchSell;
    }
  }

  lemma GainIsZeroExactly(exit: real, entry: real, shares: real)
    requires shares > 0.0
    ensures Gain(exit, entry, shares) == 0.0 <==> exit == entry
  {
  }

  // Whatever closed-position rows there are to match, a clean history realizes the same PnL after every
  // prefix exactly when each sell is rightly valued.
  lemma {:induction false} CleanPnlAgrees(h: seq<Event>, queue: seq<ClosedRow>)
    requires TradesOnly(h) && CleanThroughout(h, queue)
    ensures PnlAgreesThroughout(h, queue) <==> RightlyValuedThroughout(h, queue)
  {
    if h == [] {
    } else {
      var g, e := h[..|h| - 1], h[|h| - 1];
      CleanPnlAgrees(g, queue);
      CleanHistoriesAreTight(g, queue);
      AgreesNow(g, queue);
      EveryRunIsSound(g);
      if PnlAgreesThroughout(g, queue) {
        StepPnlAgreesExactlyWhenRightlyValued(Run(g), ReplayAll(g, queue), e, queue);
      }
      hide Apply, ReplayTrade, RebuiltRow, SameHoldings, Sound, Tight, CleanSell, RightlyValued, AgreesThroughout;
    }
  }

  // A rebuilt row that was settled adds up its settlements, is closed exactly when they leave nothing, and was
  // then closed by the last of them.
  lemma SettlementsCloseTheRebuiltRow(st: Replay, queue: seq<ClosedRow>, resolved: seq<ClosedRow>)
    requires st.openedAt.Some? && resolved != []
    ensures var row := RebuiltRow(st, queue, resolved);
      && row.Some? && row.value.openedAt == st.openedAt.value && row.value.bought == st.bought
      && row.value.sold == st.sold + SumBy(resolved, SharesOf()) && row.value.pnl == st.pnl + SumBy(resolved, PnlOf())
      && (row.value.status == Closed <==> st.bought <= row.value.sold)
      && (row.value.status == Closed ==> row.value.remaining == 0.0 && row.value.closedAt == Some(resolved[|resolved| - 1].closedAt))
      && (row.value.status == Open ==> row.value.remaining == st.bought - row.value.sold && row.value.closedAt == None)
  {
  }

  // A settlement agrees with the rebuild exactly when it settles the remaining shares, no more, no less.
  lemma SettlementAgreesExactlyOnRemaining(h: seq<Event>, queue: seq<ClosedRow>, exit: real, entry: real, row: ClosedRow)
    requires TradesOnly(h) && CleanThroughout(h, queue) && Run(h).Some? && row.shares > 0.0
    ensures var live := Apply(Run(h), Settle(exit, entry, row.shares, row.closedAt));
            SameHoldings(live, RebuiltRow(ReplayAll(h, queue), queue, [row])) <==> row.shares == Run(h).value.remaining
    // Then both rows were closed by the settlement.
    ensures row.shares == Run(h).value.remaining ==>
      var live, rebuilt := Apply(Run(h), Settle(exit, entry, row.shares, row.closedAt)), RebuiltRow(ReplayAll(h, queue), queue, [row]);
      && live.Some? && rebuilt.Some? && live.value.status == rebuilt.value.status == Closed
      && live.value.closedAt == rebuilt.value.closedAt == Some(row.closedAt)
  {
    CleanHistoriesAreTight(h, queue);
    AgreesNow(h, queue);
    EveryRunIsSound(h);
    SumByOne(row, SharesOf());
    hide Run, ReplayAll, CleanThroughout, TradesOnly, AgreesThroughout, TotalPnl, SumBy;
  }

  // ------------------------------------------------------------------ out-of-order arrival

  function BuySize(): Event -> real {
    (e: Event) => if e.Buy? then e.size else 0.0
  }

  function SellSize(): Event -> real {
    (e: Event) => if e.Sell? then e.size else 0.0
  }

  lemma {:induction false} ReplayAddsUp(h: seq<Event>, queue: seq<ClosedRow>)
    ensures ReplayAll(h, queue).bought == SumBy(h, BuySize()) && ReplayAll(h, queue).sold == SumBy(h, SellSize())
  {
    if h == [] {
    } else {
      ReplayAddsUp(h[..|h| - 1], queue);
    }
  }

  // The same trades in two orders that are both clean give the same shares and status; only the
  // average price and what follows from it can differ.
  lemma ArrivalOrderKeepsShares(a: seq<Event>, b: seq<Event>, queue: seq<ClosedRow>)
    requires TradesOnly(a) && TradesOnly(b) && multiset(a) == multiset(b)
    requires CleanThroughout(a, queue) && CleanThroughout(b, queue)
    ensures Run(a).Some? <==> Run(b).Some?
    ensures Run(a).Some? ==>
      var p, q := Run(a).value, Run(b).value;
      p.bought == q.bought && p.sold == q.sold && p.remaining == q.remaining && p.status == q.status
  {
    hide Run, ReplayAll, TradesOnly, CleanThroughout, AgreesThroughout;
    CleanHistoriesAreTight(a, queue);
    CleanHistoriesAreTight(b, queue);
    AgreesNow(a, queue);
    AgreesNow(b, queue);
    EveryRunIsSound(a);
    EveryRunIsSound(b);
    ReplayAddsUp(a, queue);
    ReplayAddsUp(b, queue);
    SumByPermutation(a, b, BuySize());
    SumByPermutation(a, b, SellSize());
  }

  // Why the condition is needed: an oversold history, and one that leaves dust.
  lemma OversoldHistoriesDiverge()
    ensures var h := [Buy(0.5, 10.0, 0), Sell(0.6, 12.0, 1)];
      && Run(h).value.bought == 12.0
      && RebuiltRow(ReplayAll(h, []), [], []).value.bought == 10.0
  {
  }
}

/**
 The average-cost position ledger: one row per (wallet, asset), written by trade ingestion, by two
 resolution jobs, by the residual-dust job and by the stale-market job.  Every writer is given as a
 function on the row's value; the classes below update rows in place and are proved against it.
 */
module Ledger {
  import opened Wrappers
  import opened Arithmetic

  type Key = (string, string)

  // Leftovers below this many shares are dropped when a sell leaves them behind.
  const DUST: real := 0.001

  datatype Status = Open | Closed

  datatype Position = Position(
    bought: real,
    sold: real,
    remaining: real,
    avg: real,
    cost: real,
    pnl: real,
    status: Status,
    estimated: bool,
    openedAt: int,
    closedAt: Option<int>)

  // ------------------------------------------------------------------ the writers, on values

  function FirstBuy(price: real, size: real, ts: int): Position {
    Position(size, 0.0, size, price, Notional(price, size), 0.0, Open, false, ts, None)
  }

  function MoreBuy(p: Position, price: real, size: real): Position {
    var remaining := Max(0.0, p.remaining);
    var total := remaining + size;
    var avg := if total > 0.0 then (Notional(p.avg, remaining) + Notional(price, size)) / total else p.avg;
    p.(avg := avg, bought := p.bought + size, remaining := total, cost := Notional(avg, p.bought + size), status := Open)
  }

  // A sell with no prior row: a closed row whose entry is the sale itself.
  function Placeholder(price: real, size: real, ts: int): Position {
    Position(size, size, 0.0, price, Notional(price, size), 0.0, Closed, true, ts, Some(ts))
  }

  // The oversell guard: shares sold beyond shares bought raise the bought total.
  function GuardOversell(p: Position): Position {
    if p.sold > p.bought then p.(bought := p.sold, cost := Notional(p.avg, p.sold)) else p
  }

  // What a sale realizes: shares beyond those held, and shares without a positive entry price, count
  // for nothing.
  function SellPnl(held: real, avg: real, price: real, size: real): real {
    if held > 0.0 && avg > 0.0 then Gain(price, avg, Min(size, held)) else 0.0
  }

  function SellFrom(p: Position, size: real, pnl: real, ts: int): Position {
    var q := GuardOversell(p.(sold := p.sold + size, remaining := Max(0.0, p.remaining - size), pnl := p.pnl + pnl));
    if q.remaining < DUST then q.(remaining := 0.0, status := Closed, closedAt := Some(ts)) else q
  }

  // The settlement of a market, for the shares its cost-basis row held.
  function SettleRow(p: Position, shares: real, pnl: real, ts: int): Position {
    GuardOversell(p.(sold := p.sold + shares, remaining := 0.0, pnl := p.pnl + pnl))
      .(status := Closed, closedAt := Some(ts))
  }

  // The closers without a guard: residual dust, resolver and unknown outcome all end like this.
  function CloseOut(p: Position, pnl: real, ts: int): Position {
    p.(sold := p.sold + p.remaining, remaining := 0.0, pnl := p.pnl + pnl, status := Closed, closedAt := Some(ts))
  }

  // The valuation chain of the dust job: own last print, else the average entry, else anyone's last print.
  function ResidualPrice(own: Option<real>, avg: real, any: Option<real>): Option<real> {
    if own.Some? then own else if avg > 0.0 then Some(avg) else any
  }

  predicate ResidualEligible(p: Position) {
    p.status == Open && 0.0 < p.remaining < 1.0
  }

  // The resolver takes the entry price from the cost-basis row when that has one.
  function EntryPrice(p: Position, costBasis: Option<real>): real {
    if costBasis.Some? && costBasis.value > 0.0 then costBasis.value else p.avg
  }

  // ------------------------------------------------------------------ events on one (wallet, asset)

  // A drop deletes the cost-basis row of a resolved market without settling it; the position row stays.

  datatype Event =
    | Buy(price: real, size: real, ts: int)
    | Sell(price: real, size: real, ts: int)
    | Settle(exit: real, entry: real, shares: real, ts: int)
    | Residual(duplicate: bool, own: Option<real>, any: Option<real>, ts: int)
    | Resolve(won: bool, costBasis: Option<real>, ts: int)
    | Abandon(ts: int)
    | Drop(ts: int)

  function ExitPrice(won: bool): real {
    if won then 1.0 else 0.0
  }

  function ResidualPnl(p: Position, exit: real): real {
    if p.avg > 0.0 then Gain(exit, p.avg, p.remaining) else 0.0
  }

  // True when the event finds a row it is going to close in full.
  predicate ClosesOut(p: Position, e: Event) {
    match e
    case Residual(duplicate, own, any, _) => !duplicate && ResidualEligible(p) && ResidualPrice(own, p.avg, any).Some?
    case Resolve(_, _, _) => p.remaining > 0.0
    case Abandon(_) => p.remaining > 0.0
    case _ => false
  }

  function Apply(row: Option<Position>, e: Event): Option<Position> {
    match row
    case None => (
      match e
      case Buy(price, size, ts) => Some(FirstBuy(price, size, ts))
      case Sell(price, size, ts) => if price > 0.0 then Some(Placeholder(price, size, ts)) else None
      case _ => None
    )
    case Some(p) => (
      match e
      case Buy(price, size, _) => Some(MoreBuy(p, price, size))
      case Sell(price, size, ts) => Some(SellFrom(p, size, SellPnl(p.remaining, p.avg, price, size), ts))
      case Settle(exit, entry, shares, ts) => Some(SettleRow(p, shares, Gain(exit, entry, shares), ts))
      case Residual(_, own, any, ts) =>
        if ClosesOut(p, e) then Some(CloseOut(p, ResidualPnl(p, ResidualPrice(own, p.avg, any).value), ts)) else row
      case Resolve(won, costBasis, ts) =>
        if ClosesOut(p, e) then Some(CloseOut(p, Gain(ExitPrice(won), EntryPrice(p, costBasis), p.remaining), ts)) else row
      case Abandon(ts) =>
        if ClosesOut(p, e) then Some(CloseOut(p, 0.0, ts)) else row
      case Drop(_) => row
    )
  }

  // The row after a whole history, oldest event first.
  function Run(h: seq<Event>): Option<Position> {
    if h == [] then None else Apply(Run(h[..|h| - 1]), h[|h| - 1])
  }

  // ------------------------------------------------------------------ what the closers write

  // The closed position that the dust job writes beside the row it closes.
  datatype ResidualRow = ResidualRow(entry: real, exit: real, shares: real, total: real, fraction: real, cost: real,
                                     pnl: real, closedAt: int)

  function ResidualOf(row: Option<Position>, e: Event): Option<ResidualRow>
    requires e.Residual?
  {
    if row.None? || !ClosesOut(row.value, e) then None
    else
      var p := row.value;
      var exit := ResidualPrice(e.own, p.avg, e.any).value;
      var total := if p.bought != 0.0 then p.bought else p.remaining;
      Some(ResidualRow(p.avg, exit, p.remaining, total, if total > 0.0 then p.remaining / total else 1.0,
                       Notional(p.avg, p.remaining), ResidualPnl(p, exit), e.ts))
  }

  // The dust job writes a closed position exactly where it closes a row, and with it accounts for all that
  // the row still held and for all that its PnL changes.
  lemma ResidualRowAccountsForTheClose(row: Option<Position>, e: Event)
    requires e.Residual?
    ensures ResidualOf(row, e).Some? <==> Apply(row, e) != row
    ensures ResidualOf(row, e).Some? ==>
      var w, p, q := ResidualOf(row, e).value, row.value, Apply(row, e).value;
      && w.shares == q.sold - p.sold == p.remaining && w.pnl == q.pnl - p.pnl && Some(w.closedAt) == q.closedAt
      && (p.avg > 0.0 ==> w.pnl == Notional(w.exit, w.shares) - w.cost)
  {
    if row.Some? && ClosesOut(row.value, e) {
      GainIsDifference(ResidualPrice(e.own, row.value.avg, e.any).value, row.value.avg, row.value.remaining);
    }
  }

  // How an eligible row is closed, and what is written of it, by the three prices.
  predicate ClosesAtChain(p: Position, q: Position, written: Option<ResidualRow>, own: Option<real>, any: Option<real>, ts: int) {
    && (written.None? <==> own.None? && p.avg <= 0.0 && any.None?)
    && (written.None? ==> q == p)
    && (written.Some? ==>
          && (own.Some? ==> written.value.exit == own.value)
          && (own.None? && p.avg > 0.0 ==> written.value.exit == p.avg)
          && (own.None? && p.avg <= 0.0 ==> any.Some? && written.value.exit == any.value)
          && written.value.entry == p.avg && written.value.shares == p.remaining && written.value.cost == p.avg * p.remaining
          && (p.bought != 0.0 ==> written.value.total == p.bought)
          && (p.bought > 0.0 ==> written.value.fraction == p.remaining / p.bought)
          && q.remaining == 0.0 && q.status == Closed && q.closedAt == Some(ts) && written.value.closedAt == ts
          && q.sold == p.sold + p.remaining
          && q.pnl == p.pnl + (if p.avg > 0.0 then (written.value.exit - p.avg) * p.remaining else 0.0)
          && written.value.pnl == q.pnl - p.pnl)
  }

  lemma ResiduesCloseAtTheChain(p: Position, own: Option<real>, any: Option<real>, ts: int)
    requires p.status == Open && 0.0 < p.remaining < 1.0
    ensures var e := Residual(false, own, any, ts);
            Apply(Some(p), e).Some? && ClosesAtChain(p, Apply(Some(p), e).value, ResidualOf(Some(p), e), own, any, ts)
  {
  }

  // All rows with a holding among the listed ones are given up.
  function Abandoned(rows: map<Key, Position>, keys: seq<Key>, ts: int): map<Key, Position>
    requires forall i :: 0 <= i < |keys| ==> keys[i] in rows
  {
    map k | k in rows :: if k in keys then Apply(Some(rows[k]), Abandon(ts)).value else rows[k]
  }

  lemma NothingAbandoned(rows: map<Key, Position>, ts: int)
    ensures Abandoned(rows, [], ts) == rows
  {
  }

  // Giving a row up twice is giving it up once.
  lemma OneMoreAbandoned(rows: map<Key, Position>, keys: seq<Key>, i: nat, ts: int)
    requires i < |keys| && forall j :: 0 <= j < |keys| ==> keys[j] in rows
    ensures var done, k := Abandoned(rows, keys[..i], ts), keys[i];
            k in done && Abandoned(rows, keys[..i + 1], ts) == done[k := Apply(Some(done[k]), Abandon(ts)).value]
  {
    assert keys[..i + 1] == keys[..i] + [keys[i]];
  }

  // ------------------------------------------------------------------ the rows, in place

  class WalletPosition {
    var totalSharesBought: real
    var totalSharesSold: real
    var remainingShares: real
    var avgEntryPrice: real
    var totalCostBasis: real
    var realizedPnl: real
    var status: Status
    var estimatedEntry: bool
    var openedAt: int
    var closedAt: Option<int>

    function Value(): Position
      reads this
    {
      Position(totalSharesBought, totalSharesSold, remainingShares, avgEntryPrice, totalCostBasis,
               realizedPnl, status, estimatedEntry, openedAt, closedAt)
    }

    constructor FromBuy(price: real, size: real, ts: int)
      ensures Value() == FirstBuy(price, size, ts)
    {
      totalSharesBought, totalSharesSold, remainingShares := size, 0.0, size;
      avgEntryPrice, totalCostBasis, realizedPnl := price, Notional(price, size), 0.0;
      status, estimatedEntry, openedAt, closedAt := Open, false, ts, None;
    }

    constructor FromSell(price: real, size: real, ts: int)
      ensures Value() == Placeholder(price, size, ts)
    {
      totalSharesBought, totalSharesSold, remainingShares := size, size, 0.0;
      avgEntryPrice, totalCostBasis, realizedPnl := price, Notional(price, size), 0.0;
      status, estimatedEntry, openedAt, closedAt := Closed, true, ts, Some(ts);
    }

    method OnBuy(price: real, size: real)
      modifies this
      ensures Value() == MoreBuy(old(Value()), price, size)
    {
      var remaining := Max(0.0, remainingShares);
      var newTotal := remaining + size;
      if newTotal > 0.0 {
        avgEntryPrice := (Notional(avgEntryPrice, remaining) + Notional(price, size)) / newTotal;
      }
      totalSharesBought := totalSharesBought + size;
      remainingShares := newTotal;
      totalCostBasis := Notional(avgEntryPrice, totalSharesBought);
      status := Open;
    }

    method InflateOnOversell()
      modifies this
      ensures Value() == GuardOversell(old(Value()))
    {
      if totalSharesSold > totalSharesBought {
        totalSharesBought := totalSharesSold;
        totalCostBasis := Notional(avgEntryPrice, totalSharesBought);
      }
    }

    method OnSell(size: real, pnl: real, ts: int)
      modifies this
      ensures Value() == SellFrom(old(Value()), size, pnl, ts)
    {
      totalSharesSold := totalSharesSold + size;
      remainingShares := Max(0.0, remainingShares - size);
      if pnl != 0.0 {
        realizedPnl := realizedPnl + pnl;
      }
      InflateOnOversell();
      if remainingShares < DUST {
        remainingShares := 0.0;
        status := Closed;
        closedAt := Some(ts);
      }
    }

    method OnResolution(pnl: real, shares: real, ts: int)
      modifies this
      ensures Value() == SettleRow(old(Value()), shares, pnl, ts)
    {
      totalSharesSold := totalSharesSold + shares;
      remainingShares := 0.0;
      realizedPnl := realizedPnl + pnl;
      InflateOnOversell();
      status := Closed;
      closedAt := Some(ts);
    }

    method OnCloseOut(pnl: real, ts: int)
      modifies this
      ensures Value() == CloseOut(old(Value()), pnl, ts)
    {
      totalSharesSold := totalSharesSold + remainingShares;
      remainingShares := 0.0;
      realizedPnl := realizedPnl + pnl;
      status := Closed;
      closedAt := Some(ts);
    }

    // The dust job at one row that was not closed as dust before.
    method OnResidual(own: Option<real>, any: Option<real>, ts: int) returns (written: Option<ResidualRow>)
      modifies this
      ensures Some(Value()) == Apply(Some(old(Value())), Residual(false, own, any, ts))
      ensures written == ResidualOf(Some(old(Value())), Residual(false, own, any, ts))
    {
      if status != Open || !(0.0 < remainingShares < 1.0) {
        return None;
      }
      var price := ResidualPrice(own, avgEntryPrice, any);
      if price.None? {
        return None;
      }
      var pnl := if avgEntryPrice > 0.0 then Gain(price.value, avgEntryPrice, remainingShares) else 0.0;
      var total := if totalSharesBought != 0.0 then totalSharesBought else remainingShares;
      written := Some(ResidualRow(avgEntryPrice, price.value, remainingShares, total,
                                  if total > 0.0 then remainingShares / total else 1.0,
                                  Notional(avgEntryPrice, remainingShares), pnl, ts));
      OnCloseOut(pnl, ts);
    }
  }

  /** The wallet_positions table: at most one row object per (wallet, asset). */
  class PositionTable {
    var rows: map<Key, WalletPosition>

    ghost predicate Valid()
      reads this
    {
      forall a, b :: a in rows && b in rows && a != b ==> rows[a] != rows[b]
    }

    ghost function View(): map<Key, Position>
      reads this, rows.Values
    {
      map k | k in rows :: rows[k].Value()
    }

    ghost function At(k: Key): Option<Position>
      reads this, rows.Values
    {
      if k in rows then Some(rows[k].Value()) else None
    }

    constructor ()
      ensures Valid() && rows == map[] && View() == map[]
    {
      rows := map[];
    }

    // The upsert on a BUY.
    method UpdatePositionOnBuy(k: Key, price: real, size: real, ts: int)
      requires Valid()
      modifies this, rows.Values
      ensures Valid() && fresh(rows.Values - old(rows.Values))
      ensures At(k) == Apply(old(At(k)), Buy(price, size, ts)) && View() == old(View())[k := At(k).value]
    {
      if k !in rows {
        var p := new WalletPosition.FromBuy(price, size, ts);
        rows := rows[k := p];
      } else {
        rows[k].OnBuy(price, size);
      }
    }

    // A SELL, with the PnL that the exit recorder returned; without a row it may leave a placeholder.
    method UpdatePositionOnSell(k: Key, size: real, pnl: real, ts: int, hasMarket: bool, price: real)
      requires Valid()
      modifies this, rows.Values
      ensures Valid() && fresh(rows.Values - old(rows.Values))
      ensures k in old(rows) ==> At(k) == Some(SellFrom(old(At(k)).value, size, pnl, ts))
      ensures k !in old(rows) && hasMarket ==> At(k) == Apply(None, Sell(price, size, ts))
      ensures k !in old(rows) && !hasMarket ==> At(k) == None
      ensures View() == if At(k).Some? then old(View())[k := At(k).value] else old(View())
    {
      if k !in rows {
        if price > 0.0 && hasMarket {
          var p := new WalletPosition.FromSell(price, size, ts);
          rows := rows[k := p];
        }
      } else {
        rows[k].OnSell(size, pnl, ts);
      }
    }

    method ClosePositionOnResolution(k: Key, pnl: real, shares: real, ts: int)
      requires Valid()
      modifies rows.Values
      ensures Valid()
      ensures View() == if k in rows then old(View())[k := SettleRow(old(View())[k], shares, pnl, ts)] else old(View())
    {
      if k in rows {
        rows[k].OnResolution(pnl, shares, ts);
      }
    }

    method AbandonRow(k: Key, ts: int)
      requires Valid() && k in rows
      modifies rows.Values
      ensures Valid() && View() == old(View())[k := Apply(Some(old(View())[k]), Abandon(ts)).value]
    {
      if rows[k].remainingShares > 0.0 {
        rows[k].OnCloseOut(0.0, ts);
      }
    }

    // Gives up the open positions of a market whose outcome is unknown; `keys` lists their rows.
    method ClosePositionsUnknownOutcome(keys: seq<Key>, ts: int)
      requires Valid() && forall i :: 0 <= i < |keys| ==> keys[i] in rows
      modifies rows.Values
      ensures Valid() && View() == Abandoned(old(View()), keys, ts)
    {
      hide Apply, Abandoned;
      ghost var before := View();
      NothingAbandoned(before, ts);
      for i := 0 to |keys|
        invariant Valid() && View() == Abandoned(before, keys[..i], ts)
        invariant rows == old(rows)
      {
        OneMoreAbandoned(before, keys, i, ts);
        AbandonRow(keys[i], ts);
      }
      assert keys[..|keys|] == keys;
    }

    // The close step of the dust job, once its price has been looked up; it also writes a closed position.
    method EpsilonClose(k: Key, duplicate: bool, own: Option<real>, any: Option<real>, ts: int)
      returns (written: Option<ResidualRow>)
      requires Valid()
      modifies rows.Values
      ensures Valid()
      ensures written == ResidualOf(old(At(k)), Residual(duplicate, own, any, ts))
      // In terms of the prices alone: own print, else average, else anyone's.
      ensures k in rows && !duplicate && old(rows[k].status) == Open && 0.0 < old(rows[k].remainingShares) < 1.0 ==>
        ClosesAtChain(old(View())[k], View()[k], written, own, any, ts)
      ensures !(k in rows && !duplicate && old(rows[k].status) == Open && 0.0 < old(rows[k].remainingShares) < 1.0) ==>
        written.None? && View() == old(View())
      ensures At(k) == Apply(old(At(k)), Residual(duplicate, own, any, ts))
      ensures View() == if k in rows then old(View())[k := At(k).value] else old(View())
    {
      if duplicate || k !in rows {
        return None;
      }
      if rows[k].status == Open && 0.0 < rows[k].remainingShares < 1.0 {
        ResiduesCloseAtTheChain(rows[k].Value(), own, any, ts);
      }
      hide ClosesAtChain;
      written := rows[k].OnResidual(own, any, ts);
    }
  }
}

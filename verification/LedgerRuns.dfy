/**
 What every history of events keeps: the row invariant across all writers, the bounds on the average
 entry price, and the conservation law that ties realized PnL to the cash that changed hands.
 */
module LedgerRuns {
  import opened Wrappers
  import opened Ledger
  import opened Arithmetic

  // ------------------------------------------------------------------ the row invariant

  predicate AmountsAtLeastZero(e: Event) {
    match e
    case Buy(_, size, _) => size >= 0.0
    case Sell(_, size, _) => size >= 0.0
    case Settle(_, _, shares, _) => shares >= 0.0
    case _ => true
  }

  predicate PositiveAmounts(e: Event) {
    match e
    case Buy(_, size, _) => size > 0.0
    case Sell(_, size, _) => size > 0.0
    case Settle(_, _, shares, _) => shares > 0.0
    case _ => true
  }

  predicate SoundAmounts(p: Position) {
    && p.remaining >= 0.0
    && p.sold >= 0.0
    && p.sold + p.remaining <= p.bought
    && p.cost == Notional(p.avg, p.bought)
  }

  predicate SoundStatus(p: Position) {
    && (p.status == Closed <==> p.remaining == 0.0)
    && (p.status == Closed ==> p.closedAt.Some?)
  }

  predicate Sound(row: Option<Position>) {
    row.Some? ==> SoundAmounts(row.value) && SoundStatus(row.value)
  }

  predicate AllPositive(h: seq<Event>) {
    h == [] || (AllPositive(h[..|h| - 1]) && PositiveAmounts(h[|h| - 1]))
  }

  lemma EveryWriterKeepsAmounts(row: Option<Position>, e: Event)
    requires row.Some? ==> SoundAmounts(row.value)
    requires AmountsAtLeastZero(e)
    ensures Apply(row, e).Some? ==> SoundAmounts(Apply(row, e).value)
  {
  }

  // The status can only go wrong in one way: a buy of nothing on a row that holds nothing.
  lemma StatusBreaksExactlyOnAnEmptyBuy(row: Option<Position>, e: Event)
    requires Sound(row)
    requires AmountsAtLeastZero(e)
    ensures Sound(Apply(row, e)) <==> !(e.Buy? && e.size == 0.0 && (row.Some? ==> row.value.remaining == 0.0))
  {
    EveryWriterKeepsAmounts(row, e);
  }

  lemma EmptyBuyExample(ts: int)
    ensures var p := Run([Buy(0.5, 0.0, ts)]); p.Some? && p.value.status == Open && p.value.remaining == 0.0
  {
  }

  lemma {:induction false} EveryRunIsSound(h: seq<Event>)
    requires AllPositive(h)
    ensures Sound(Run(h))
  {
    if h == [] {
    } else {
      var n := |h| - 1;
      EveryRunIsSound(h[..n]);
      StatusBreaksExactlyOnAnEmptyBuy(Run(h[..n]), h[n]);
    }
  }

  // ------------------------------------------------------------------ the average entry price

  // The prices that can become an entry price: every buy, and a sell that opens a placeholder row.
  predicate EntryPricesWithin(h: seq<Event>, lo: real, hi: real) {
    h == [] || (EntryPricesWithin(h[..|h| - 1], lo, hi) && EntryPriceWithin(Run(h[..|h| - 1]), h[|h| - 1], lo, hi))
  }

  predicate EntryPriceWithin(row: Option<Position>, e: Event, lo: real, hi: real) {
    e.Buy? || (e.Sell? && row.None?) ==> lo <= e.price <= hi
  }

  lemma WeightedAverage(r: real, a: real, s: real, p: real, lo: real, hi: real)
    requires r >= 0.0 && s >= 0.0 && r + s > 0.0
    requires lo <= a <= hi && lo <= p <= hi
    ensures lo <= (Notional(a, r) + Notional(p, s)) / (r + s) <= hi
  {
    NotionalMono(lo, a, r);
    NotionalMono(a, hi, r);
    NotionalMono(lo, p, s);
    NotionalMono(p, hi, s);
    NotionalSplits(lo, r, s);
    NotionalSplits(hi, r, s);
    DivBetween(Notional(a, r) + Notional(p, s), r + s, lo, hi);
  }

  predicate AverageWithin(row: Option<Position>, lo: real, hi: real) {
    row.Some? ==> lo <= row.value.avg <= hi
  }

  lemma OnlyBuysMoveTheAverage(p: Position, e: Event)
    requires !e.Buy?
    ensures Apply(Some(p), e).value.avg == p.avg
  {
  }

  lemma StepKeepsAverageWithin(row: Option<Position>, e: Event, lo: real, hi: real)
    requires Sound(row) && PositiveAmounts(e)
    requires AverageWithin(row, lo, hi) && EntryPriceWithin(row, e, lo, hi)
    ensures AverageWithin(Apply(row, e), lo, hi)
  {
    if row.Some? {
      if e.Buy? {
        WeightedAverage(row.value.remaining, row.value.avg, e.size, e.price, lo, hi);
      } else {
        OnlyBuysMoveTheAverage(row.value, e);
      }
    }
  }

  lemma {:induction false} AverageStaysBetweenEntryPrices(h: seq<Event>, lo: real, hi: real)
    requires AllPositive(h) && EntryPricesWithin(h, lo, hi)
    ensures AverageWithin(Run(h), lo, hi)
  {
    if h == [] {
    } else {
      var n := |h| - 1;
      AverageStaysBetweenEntryPrices(h[..n], lo, hi);
      EveryRunIsSound(h[..n]);
      StepKeepsAverageWithin(Run(h[..n]), h[n], lo, hi);
    }
  }

  // ------------------------------------------------------------------ realized PnL is cash flow

  // The cash an event moves into the wallet.
  function CashIn(row: Option<Position>, e: Event): real {
    match e
    case Buy(price, size, _) => -Notional(price, size)
    case Sell(price, size, _) => Notional(price, size)
    case Settle(exit, _, shares, _) => if row.Some? then Notional(exit, shares) else 0.0
    case Residual(_, own, any, _) =>
      if row.Some? && ClosesOut(row.value, e)
      then Notional(ResidualPrice(own, row.value.avg, any).value, row.value.remaining)
      else 0.0
    case Resolve(won, _, _) =>
      if row.Some? && ClosesOut(row.value, e) then Notional(ExitPrice(won), row.value.remaining) else 0.0
    case Abandon(_) => 0.0
    case Drop(_) => 0.0
  }

  function Cash(h: seq<Event>): real {
    if h == [] then 0.0 else Cash(h[..|h| - 1]) + CashIn(Run(h[..|h| - 1]), h[|h| - 1])
  }

  // Entry cost that leaves the row without a recorded sale (dust, abandoned shares), less what sales
  // brought in that the row does not count as profit: the proceeds of shares it never held, and the
  // profit on shares without an entry price.
  function UnmatchedCost(row: Option<Position>, e: Event): real {
    if row.None? then
      if e.Sell? then -Notional(e.price, e.size) else 0.0
    else
      var p := row.value;
      match e
      case Buy(_, _, _) => 0.0
      case Sell(price, size, _) =>
        var sold := Min(size, p.remaining);
        (if p.remaining - sold < DUST then Notional(p.avg, p.remaining - sold) else 0.0)
        - Notional(price, size - sold)
        - if p.avg > 0.0 then 0.0 else Gain(price, p.avg, sold)
      case Settle(_, entry, shares, _) => Notional(p.avg, p.remaining) - Notional(entry, shares)
      case Residual(_, own, any, _) =>
        if !ClosesOut(p, e) || p.avg > 0.0 then 0.0
        else Notional(p.avg, p.remaining) - Notional(ResidualPrice(own, p.avg, any).value, p.remaining)
      case Resolve(_, costBasis, _) =>
        if ClosesOut(p, e) then Notional(p.avg, p.remaining) - Notional(EntryPrice(p, costBasis), p.remaining)
        else 0.0
      case Abandon(_) => if ClosesOut(p, e) then Notional(p.avg, p.remaining) else 0.0
      case Drop(_) => 0.0
  }

  function Unmatched(h: seq<Event>): real {
    if h == [] then 0.0 else Unmatched(h[..|h| - 1]) + UnmatchedCost(Run(h[..|h| - 1]), h[|h| - 1])
  }

  function Pnl(row: Option<Position>): real {
    if row.Some? then row.value.pnl else 0.0
  }

  function BookValue(row: Option<Position>): real {
    if row.Some? then Notional(row.value.avg, row.value.remaining) else 0.0
  }

  // What one event does to PnL, cash, book value and unmatched cost balances out.
  predicate Balances(row: Option<Position>, e: Event) {
    Pnl(Apply(row, e)) - Pnl(row)
    == CashIn(row, e) + BookValue(Apply(row, e)) - BookValue(row) + UnmatchedCost(row, e)
  }

  lemma BuyBalances(p: Position, price: real, size: real, ts: int)
    requires p.remaining >= 0.0 && size > 0.0
    ensures Balances(Some(p), Buy(price, size, ts))
  {
    DivCancels(Notional(p.avg, p.remaining) + Notional(price, size), p.remaining + size);
  }

  lemma SellBalances(p: Position, price: real, size: real, ts: int)
    requires p.remaining >= 0.0 && size > 0.0
    ensures Balances(Some(p), Sell(price, size, ts))
  {
    var sold := Min(size, p.remaining);
    GainIsDifference(price, p.avg, sold);
    NotionalSplits(p.avg, p.remaining, sold);
    NotionalSplits(price, size, sold);
    assert Max(0.0, p.remaining - size) == p.remaining - sold;
    assert SellPnl(p.remaining, p.avg, price, size) == if p.avg > 0.0 then Gain(price, p.avg, sold) else 0.0;
  }

  lemma SettleBalances(p: Position, exit: real, entry: real, shares: real, ts: int)
    ensures Balances(Some(p), Settle(exit, entry, shares, ts))
  {
  }

  lemma CloserBalances(p: Position, e: Event)
    requires e.Residual? || e.Resolve? || e.Abandon? || e.Drop?
    ensures Balances(Some(p), e)
  {
  }

  lemma FirstEventBalances(e: Event)
    ensures Balances(None, e)
  {
  }

  lemma EveryStepBalances(row: Option<Position>, e: Event)
    requires Sound(row) && PositiveAmounts(e)
    ensures Balances(row, e)
  {
    if row.None? {
      FirstEventBalances(e);
    } else {
      var p := row.value;
      match e
      case Buy(price, size, ts) => BuyBalances(p, price, size, ts);
      case Sell(price, size, ts) => SellBalances(p, price, size, ts);
      case Settle(exit, entry, shares, ts) => SettleBalances(p, exit, entry, shares, ts);
      case _ => CloserBalances(p, e);
    }
  }

  // The conservation law, for every history: oversells, dust and all closers included.
  lemma {:induction false} RealizedPnlIsCashFlow(h: seq<Event>)
    requires AllPositive(h)
    ensures Pnl(Run(h)) == Cash(h) + BookValue(Run(h)) + Unmatched(h)
  {
    if h == [] {
    } else {
      var n := |h| - 1;
      EveryRunIsSound(h[..n]);
      RealizedPnlIsCashFlow(h[..n]);
      EveryStepBalances(Run(h[..n]), h[n]);
    }
  }

  // ------------------------------------------------------------------ how large the error can get

  // An orderly event sells or settles only what the row holds, at the row's own entry price.
  predicate OrderlyAt(row: Option<Position>, e: Event) {
    && (row.None? ==> e.Buy?)
    && (row.Some? ==>
          match e
          case Sell(_, size, _) => size <= row.value.remaining
          case Settle(_, entry, shares, _) => shares == row.value.remaining && entry == row.value.avg
          case Resolve(_, costBasis, _) => EntryPrice(row.value, costBasis) == row.value.avg
          case Abandon(_) => !ClosesOut(row.value, e)
          case _ => true)
  }

  predicate Orderly(h: seq<Event>) {
    h == [] || (Orderly(h[..|h| - 1]) && OrderlyAt(Run(h[..|h| - 1]), h[|h| - 1]))
  }

  predicate DropsDust(row: Option<Position>, e: Event) {
    row.Some? && e.Sell? && 0.0 < row.value.remaining - e.size < DUST
  }

  function DustCloses(h: seq<Event>): nat {
    if h == [] then 0
    else DustCloses(h[..|h| - 1]) + if DropsDust(Run(h[..|h| - 1]), h[|h| - 1]) then 1 else 0
  }

  // The entry cost of n leftovers of 0.001 shares, at the highest entry price.
  function DustAllowance(hi: real, n: nat): real {
    Notional(Notional(hi, DUST), n as real)
  }

  lemma StepLosesOnlyDust(row: Option<Position>, e: Event, lo: real, hi: real)
    requires Sound(row) && PositiveAmounts(e) && OrderlyAt(row, e)
    requires row.Some? ==> 0.0 < lo <= row.value.avg <= hi
    ensures if DropsDust(row, e) then 0.0 < UnmatchedCost(row, e) < Notional(hi, DUST) else UnmatchedCost(row, e) == 0.0
  {
    if row.Some? && e.Sell? {
      var a, left := row.value.avg, row.value.remaining - e.size;
      NotionalSplits(e.price, 0.0, 0.0);
      NotionalSplits(a, 0.0, 0.0);
      assert UnmatchedCost(row, e) == if left < DUST then Notional(a, left) else 0.0;
      if DropsDust(row, e) {
        DustIsSmall(a, left, hi);
      }
    }
  }

  lemma DustIsSmall(a: real, left: real, hi: real)
    requires 0.0 < a <= hi && 0.0 < left < DUST
    ensures 0.0 < Notional(a, left) < Notional(hi, DUST)
  {
    MulStrict(0.0, left, a);
    MulStrict(left, DUST, a);
    MulMono(a, hi, DUST);
    assert a * left < a * DUST <= hi * DUST;
    assert a * 0.0 == 0.0;
  }

  // With sells never exceeding the remaining shares, the error of the cash-flow reading of PnL lies
  // below 0.001 shares' worth of entry cost per dust close, and is zero exactly without dust closes.
  lemma OnlyDustSeparatesPnlFromCash(h: seq<Event>, lo: real, hi: real)
    requires AllPositive(h) && Orderly(h)
    requires 0.0 < lo <= hi && EntryPricesWithin(h, lo, hi)
    ensures var error := Pnl(Run(h)) - (Cash(h) + BookValue(Run(h)));
            && 0.0 <= error <= DustAllowance(hi, DustCloses(h))
            && (error == 0.0 <==> DustCloses(h) == 0)
            && (DustCloses(h) > 0 ==> error < DustAllowance(hi, DustCloses(h)))
  {
    RealizedPnlIsCashFlow(h);
    UnmatchedIsDust(h, lo, hi);
  }

  lemma DustAddsUp(k: nat, sum: real, step: real, cap: real, drop: bool)
    requires if k == 0 then sum == 0.0 else 0.0 < sum < Notional(cap, k as real)
    requires if drop then 0.0 < step < cap else step == 0.0
    ensures var n := k + if drop then 1 else 0;
            if n == 0 then sum + step == 0.0 else 0.0 < sum + step < Notional(cap, n as real)
  {
  }

  lemma {:induction false} UnmatchedIsDust(h: seq<Event>, lo: real, hi: real)
    requires AllPositive(h) && Orderly(h)
    requires 0.0 < lo <= hi && EntryPricesWithin(h, lo, hi)
    ensures if DustCloses(h) == 0 then Unmatched(h) == 0.0
            else 0.0 < Unmatched(h) < DustAllowance(hi, DustCloses(h))
  {
    if h == [] {
    } else {
      var g, e := h[..|h| - 1], h[|h| - 1];
      UnmatchedIsDust(g, lo, hi);
      assert Sound(Run(g)) && AverageWithin(Run(g), lo, hi) by {
        EveryRunIsSound(g);
        AverageStaysBetweenEntryPrices(g, lo, hi);
      }
      StepLosesOnlyDust(Run(g), e, lo, hi);
      DustAddsUp(DustCloses(g), Unmatched(g), UnmatchedCost(Run(g), e), Notional(hi, DUST), DropsDust(Run(g), e));
    }
  }

  // A closed, dust-free, orderly position has realized exactly its net cash.
  lemma ClosedPositionRealizedItsCash(h: seq<Event>, lo: real, hi: real)
    requires AllPositive(h) && Orderly(h)
    requires 0.0 < lo <= hi && EntryPricesWithin(h, lo, hi)
    requires Run(h).Some? && Run(h).value.status == Closed && DustCloses(h) == 0
    ensures Run(h).value.pnl == Cash(h)
  {
    OnlyDustSeparatesPnlFromCash(h, lo, hi);
    EveryRunIsSound(h);
  }
}

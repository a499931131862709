/**
 The running cost basis that sells are valued with: a second record of what a wallet holds, kept beside
 the position row, and the exact condition under which the two say the same.
 */
module CostBasis {
  import opened Wrappers
  import opened Arithmetic
  import opened Ledger
  import opened LedgerRuns
  import opened Backfill
  import opened Sums

  datatype Basis = Basis(avg: real, size: real)

  // The row a sell leaves in the table of closed positions.
  datatype Exit = Exit(entry: real, exit: real, shares: real, sharesBefore: real, cost: real, pnl: real, closedAt: int)

  function BuyBasis(b: Option<Basis>, price: real, size: real): Basis {
    if b.None? then Basis(price, size)
    else
      var total := b.value.size + size;
      Basis(if total > 0.0 then (Notional(b.value.avg, b.value.size) + Notional(price, size)) / total else b.value.avg, total)
  }

  function Held(b: Option<Basis>): real {
    if b.Some? then b.value.size else 0.0
  }

  function EntryOf(b: Option<Basis>): real {
    if b.Some? then b.value.avg else 0.0
  }

  // A sell is recorded only where shares with a positive entry price are held.
  predicate Recorded(b: Option<Basis>) {
    Held(b) > 0.0 && EntryOf(b) > 0.0
  }

  function ExitOf(b: Option<Basis>, price: real, size: real, ts: int): Option<Exit> {
    if !Recorded(b) then None
    else
      var shares := Min(size, b.value.size);
      Some(Exit(b.value.avg, price, shares, b.value.size, Notional(b.value.avg, shares),
                Gain(price, b.value.avg, shares), ts))
  }

  function SellBasis(b: Option<Basis>, size: real): Option<Basis> {
    if Held(b) <= 0.0 then b else Some(b.value.(size := Max(0.0, b.value.size - size)))
  }

  /** A wallet_cost_basis row. */
  class WalletCostBasis {
    var avgEntryPrice: real
    var totalSize: real

    function Value(): Basis
      reads this
    {
      Basis(avgEntryPrice, totalSize)
    }

    constructor (price: real, size: real)
      ensures Value() == BuyBasis(None, price, size)
    {
      avgEntryPrice, totalSize := price, size;
    }

    method UpdateOnBuy(price: real, size: real)
      modifies this
      ensures Value() == BuyBasis(Some(old(Value())), price, size)
    {
      var newTotal := totalSize + size;
      if newTotal > 0.0 {
        avgEntryPrice := (Notional(avgEntryPrice, totalSize) + Notional(price, size)) / newTotal;
      }
      totalSize := newTotal;
    }

    method Reduce(size: real)
      modifies this
      ensures Value() == old(Value()).(size := Max(0.0, old(totalSize) - size))
    {
      var newSize := Max(0.0, totalSize - size);
      totalSize := if newSize <= 0.0 then 0.0 else newSize;
    }

    // A sell of a wallet that has a row; the result is the PnL and the closed position, if one is written.
    method WriteSellClosedPosition(price: real, size: real, ts: int) returns (pnl: real, exit: Option<Exit>)
      modifies this
      ensures exit == ExitOf(Some(old(Value())), price, size, ts)
      ensures pnl == if exit.Some? then exit.value.pnl else 0.0
      ensures Some(Value()) == SellBasis(Some(old(Value())), size)
      // A row is written exactly where valued shares are tracked, for those it takes of them, and pays for them alone.
      ensures exit.Some? <==> old(totalSize) > 0.0 && old(avgEntryPrice) > 0.0
      ensures exit.Some? ==>
        && exit.value.shares == (if size < old(totalSize) then size else old(totalSize))
        && exit.value.sharesBefore == old(totalSize) && exit.value.entry == old(avgEntryPrice)
        && exit.value.exit == price && exit.value.closedAt == ts
        && exit.value.cost == old(avgEntryPrice) * exit.value.shares && pnl == price * exit.value.shares - exit.value.cost
    {
      if totalSize <= 0.0 {
        return 0.0, None;
      }
      if avgEntryPrice <= 0.0 {
        Reduce(size);
        return 0.0, None;
      }
      var shares := Min(size, totalSize);
      AnExitPaysForItsShares(Value(), price, size, ts);
      pnl := Gain(price, avgEntryPrice, shares);
      exit := Some(Exit(avgEntryPrice, price, shares, totalSize, Notional(avgEntryPrice, shares), pnl, ts));
      Reduce(size);
    }
  }

  // What a sell leaves in the table of closed positions: the shares it takes of those tracked, at their cost,
  // and what they brought beyond it.
  lemma AnExitPaysForItsShares(b: Basis, price: real, size: real, ts: int)
    ensures ExitOf(None, price, size, ts) == None
    ensures var exit := ExitOf(Some(b), price, size, ts);
      && (exit.Some? <==> b.size > 0.0 && b.avg > 0.0)
      && (exit.Some? ==>
            var x := exit.value;
            && x.shares == (if size < b.size then size else b.size) && x.sharesBefore == b.size
            && x.entry == b.avg && x.exit == price && x.closedAt == ts
            && x.cost == b.avg * x.shares && x.pnl == price * x.shares - x.cost)
  {
    GainIsDifference(price, b.avg, if size < b.size then size else b.size);
  }

  // ------------------------------------------------------------------ the two records side by side

  datatype Live = Live(basis: Option<Basis>, row: Option<Position>)

  function PnlOf(exit: Option<Exit>): real {
    if exit.Some? then exit.value.pnl else 0.0
  }

  // What an event records of the cost basis: a settlement closes its shares at its average, and where
  // there is nothing valid to settle it only drops the row.
  function AsRecorded(b: Option<Basis>, e: Event): Event {
    match e
    case Settle(exit, _, _, ts) => if Recorded(b) then Settle(exit, b.value.avg, b.value.size, ts) else Drop(ts)
    case Resolve(won, _, ts) => Resolve(won, if b.Some? then Some(b.value.avg) else None, ts)
    case _ => e
  }

  // Settlements and drops delete the cost basis, the resolver does for the rows it closes; the dust job and
  // the close of an unknown outcome leave it.
  function BasisAfter(l: Live, e: Event): Option<Basis> {
    match e
    case Buy(price, size, _) => Some(BuyBasis(l.basis, price, size))
    case Sell(_, size, _) => SellBasis(l.basis, size)
    case Settle(_, _, _, _) => None
    case Drop(_) => None
    case Resolve(_, _, _) => if HeldIn(l.row) > 0.0 then None else l.basis
    case _ => l.basis
  }

  // One event on both records. A sell first asks the cost basis, and the row takes the PnL that comes back.
  function Ingest(l: Live, e: Event): Live {
    Live(BasisAfter(l, e),
         if e.Sell? && l.row.Some?
         then Some(SellFrom(l.row.value, e.size, PnlOf(ExitOf(l.basis, e.price, e.size, e.ts)), e.ts))
         else Apply(l.row, AsRecorded(l.basis, e)))
  }

  function IngestAll(h: seq<Event>): Live {
    if h == [] then Live(None, None) else Ingest(IngestAll(h[..|h| - 1]), h[|h| - 1])
  }

  function HeldIn(row: Option<Position>): real {
    if row.Some? then row.value.remaining else 0.0
  }

  // Both records hold the same shares, at the same average where there are any.
  predicate Tracks(l: Live) {
    Held(l.basis) == HeldIn(l.row) && (Held(l.basis) > 0.0 ==> EntryOf(l.basis) == l.row.value.avg)
  }

  predicate TracksThroughout(h: seq<Event>) {
    Tracks(IngestAll(h)) && (h == [] || TracksThroughout(h[..|h| - 1]))
  }

  predicate PositiveSize(e: Event) {
    e.Buy? || e.Sell? ==> e.size > 0.0
  }

  predicate PositiveSizes(h: seq<Event>) {
    h == [] || (PositiveSizes(h[..|h| - 1]) && PositiveSize(h[|h| - 1]))
  }

  // The events that leave a holding in one record only: a sell that leaves dust, the dust job or an unknown
  // outcome closing a row, and a cost basis that is deleted without being settled.
  predicate Parts(l: Live, e: Event) {
    match e
    case Sell(_, size, _) => 0.0 < HeldIn(l.row) - size < DUST
    case Residual(_, _, _, _) => l.row.Some? && ClosesOut(l.row.value, e)
    case Abandon(_) => l.row.Some? && ClosesOut(l.row.value, e)
    case Settle(_, _, _, _) => HeldIn(l.row) > 0.0 && !Recorded(l.basis)
    case Drop(_) => HeldIn(l.row) > 0.0
    case _ => false
  }

  predicate NeverParts(h: seq<Event>) {
    h == [] || (NeverParts(h[..|h| - 1]) && !Parts(IngestAll(h[..|h| - 1]), h[|h| - 1]))
  }

  lemma BuyKeepsTracking(l: Live, e: Event)
    requires Tracks(l) && Sound(l.row) && e.Buy? && PositiveSize(e)
    ensures Tracks(Ingest(l, e))
  {
    NotionalSplits(EntryOf(l.basis), 0.0, 0.0);
    if l.row.Some? {
      NotionalSplits(l.row.value.avg, 0.0, 0.0);
    }
    FirstAverage(0.0, e.price, e.size);
    NotionalSplits(0.0, 0.0, 0.0);
  }

  // One step is exact: of all events, these part the records and no other does.
  lemma StepTracksExactlyUnlessParting(l: Live, e: Event)
    requires Tracks(l) && Sound(l.row) && PositiveSize(e)
    ensures Tracks(Ingest(l, e)) <==> !Parts(l, e)
  {
    if e.Buy? {
      BuyKeepsTracking(l, e);
    }
  }

  lemma IngestKeepsSound(l: Live, e: Event)
    requires Sound(l.row) && PositiveSize(e)
    ensures Sound(Ingest(l, e).row)
  {
    StatusBreaksExactlyOnAnEmptyBuy(l.row, AsRecorded(l.basis, e));
  }

  lemma {:induction false} IngestIsSound(h: seq<Event>)
    requires PositiveSizes(h)
    ensures Sound(IngestAll(h).row)
  {
    if h == [] {
    } else {
      IngestIsSound(h[..|h| - 1]);
      IngestKeepsSound(IngestAll(h[..|h| - 1]), h[|h| - 1]);
    }
  }

  // Cost basis and position row agree after every prefix of a history, over trades, settlements and all
  // closers, exactly when no event in it parts them.
  lemma {:induction false} BasisTracksExactlyUnlessParted(h: seq<Event>)
    requires PositiveSizes(h)
    ensures TracksThroughout(h) <==> NeverParts(h)
  {
    if h == [] {
    } else {
      var g, e := h[..|h| - 1], h[|h| - 1];
      BasisTracksExactlyUnlessParted(g);
      IngestIsSound(g);
      if TracksThroughout(g) {
        StepTracksExactlyUnlessParting(IngestAll(g), e);
      }
      hide Ingest, Sound, Tracks, Parts;
    }
  }

  // ------------------------------------------------------------------ what sells realize

  // With tracking records a sell realizes what the ledger says.
  lemma TrackedSellsRealizeTheLedgersPnl(l: Live, e: Event)
    requires Tracks(l)
    ensures Ingest(l, e).row == Apply(l.row, AsRecorded(l.basis, e))
  {
  }

  // The events as they are recorded.
  function RecordedAll(h: seq<Event>): seq<Event> {
    if h == [] then []
    else RecordedAll(h[..|h| - 1]) + [AsRecorded(IngestAll(h[..|h| - 1]).basis, h[|h| - 1])]
  }

  lemma RunOneMore(h: seq<Event>, e: Event)
    ensures Run(h + [e]) == Apply(Run(h), e)
  {
    assert (h + [e])[..|h|] == h;
  }

  // Until the records part, the live row, its PnL included, is the ledger's.
  lemma {:induction false} LiveRowIsTheLedgers(h: seq<Event>)
    requires PositiveSizes(h) && NeverParts(h)
    ensures IngestAll(h).row == Run(RecordedAll(h))
  {
    if h == [] {
    } else {
      var g, e := h[..|h| - 1], h[|h| - 1];
      LiveRowIsTheLedgers(g);
      BasisTracksExactlyUnlessParted(g);
      assert Tracks(IngestAll(g));
      TrackedSellsRealizeTheLedgersPnl(IngestAll(g), e);
      RunOneMore(RecordedAll(g), AsRecorded(IngestAll(g).basis, e));
      hide Ingest, Apply, Tracks, Parts, AsRecorded;
    }
  }

  lemma {:induction false} TradesAreRecordedAsTheyAre(h: seq<Event>)
    requires TradesOnly(h)
    ensures RecordedAll(h) == h && PositiveSizes(h) && AllPositive(h)
  {
    if h == [] {
    } else {
      TradesAreRecordedAsTheyAre(h[..|h| - 1]);
      assert h == h[..|h| - 1] + [h[|h| - 1]];
    }
  }

  // ------------------------------------------------------------------ the law of the live row

  // What the cost basis gives a sell beyond what the row would.
  function SellGap(l: Live, e: Event): real {
    if e.Sell? && l.row.Some?
    then PnlOf(ExitOf(l.basis, e.price, e.size, e.ts)) - SellPnl(l.row.value.remaining, l.row.value.avg, e.price, e.size)
    else 0.0
  }

  function LiveCash(h: seq<Event>): real {
    if h == [] then 0.0
    else
      var l, e := IngestAll(h[..|h| - 1]), h[|h| - 1];
      LiveCash(h[..|h| - 1]) + CashIn(l.row, AsRecorded(l.basis, e))
  }

  function LiveUnmatched(h: seq<Event>): real {
    if h == [] then 0.0
    else
      var l, e := IngestAll(h[..|h| - 1]), h[|h| - 1];
      LiveUnmatched(h[..|h| - 1]) + UnmatchedCost(l.row, AsRecorded(l.basis, e))
  }

  function LiveGaps(h: seq<Event>): real {
    if h == [] then 0.0 else LiveGaps(h[..|h| - 1]) + SellGap(IngestAll(h[..|h| - 1]), h[|h| - 1])
  }

  lemma LiveStepBalances(l: Live, e: Event)
    requires Sound(l.row) && PositiveSize(e)
    ensures var r, rec := Ingest(l, e).row, AsRecorded(l.basis, e);
      Pnl(r) - Pnl(l.row) == CashIn(l.row, rec) + BookValue(r) - BookValue(l.row) + UnmatchedCost(l.row, rec) + SellGap(l, e)
  {
    EveryStepBalances(l.row, AsRecorded(l.basis, e));
  }

  // The law for what the code records, over every history of trades, settlements and closers: realized PnL
  // is cash and book value, plus the unmatched cost, plus what sells took from a cost basis that had parted
  // from the row.
  lemma {:induction false} LivePnlIsCashFlow(h: seq<Event>)
    requires PositiveSizes(h)
    ensures var row := IngestAll(h).row; Pnl(row) == LiveCash(h) + BookValue(row) + LiveUnmatched(h) + LiveGaps(h)
  {
    if h == [] {
    } else {
      var g, e := h[..|h| - 1], h[|h| - 1];
      LivePnlIsCashFlow(g);
      IngestIsSound(g);
      LiveStepBalances(IngestAll(g), e);
      hide Ingest, AsRecorded, CashIn, UnmatchedCost, SellGap, Pnl, BookValue;
    }
  }

  // That last part is nothing until the records part.
  lemma {:induction false} NoGapsUntilParted(h: seq<Event>)
    requires PositiveSizes(h) && NeverParts(h)
    ensures LiveGaps(h) == 0.0
  {
    if h == [] {
    } else {
      var g := h[..|h| - 1];
      NoGapsUntilParted(g);
      BasisTracksExactlyUnlessParted(g);
      assert Tracks(IngestAll(g));
    }
  }

  // ------------------------------------------------------------------ no share twice

  function BoughtIn(row: Option<Position>): real {
    if row.Some? then row.value.bought else 0.0
  }

  // The event disposes of shares that the row never bought, or has disposed of before: the oversell guard
  // fires, or a sell without a row opens a placeholder.
  predicate Inflates(l: Live, e: Event) {
    match e
    case Sell(price, size, _) => if l.row.None? then price > 0.0 else l.row.value.sold + size > l.row.value.bought
    case Settle(_, _, _, _) => l.row.Some? && Recorded(l.basis) && l.row.value.sold + l.basis.value.size > l.row.value.bought
    case _ => false
  }

  predicate NeverInflates(h: seq<Event>) {
    h == [] || (NeverInflates(h[..|h| - 1]) && !Inflates(IngestAll(h[..|h| - 1]), h[|h| - 1]))
  }

  lemma StepInflatesExactly(l: Live, e: Event)
    requires Sound(l.row) && PositiveSize(e)
    ensures var more := BoughtIn(Ingest(l, e).row) - BoughtIn(l.row) - BuySize()(e);
            more >= 0.0 && (more == 0.0 <==> !Inflates(l, e))
  {
  }

  // The row's bought shares are those that were bought exactly when no share was disposed of twice.
  lemma {:induction false} BoughtIsWhatWasBoughtExactly(h: seq<Event>)
    requires PositiveSizes(h)
    ensures BoughtIn(IngestAll(h).row) >= SumBy(h, BuySize())
    ensures BoughtIn(IngestAll(h).row) == SumBy(h, BuySize()) <==> NeverInflates(h)
  {
    if h == [] {
    } else {
      var g, e := h[..|h| - 1], h[|h| - 1];
      BoughtIsWhatWasBoughtExactly(g);
      IngestIsSound(g);
      StepInflatesExactly(IngestAll(g), e);
      hide Ingest, Inflates, BoughtIn;
    }
  }

  // A sell of no more than the row holds.
  predicate Covered(l: Live, e: Event) {
    e.Sell? ==> e.size <= HeldIn(l.row)
  }

  predicate CoveredThroughout(h: seq<Event>) {
    h == [] || (CoveredThroughout(h[..|h| - 1]) && Covered(IngestAll(h[..|h| - 1]), h[|h| - 1]))
  }

  // Without oversells, only a settlement after the records have parted can do it.
  lemma CoveredStepsInflateOnlyAfterParting(l: Live, e: Event)
    requires Sound(l.row) && PositiveSize(e) && Covered(l, e)
    ensures Inflates(l, e) ==> e.Settle? && !Tracks(l)
  {
  }

  lemma {:induction false} UnpartedSharesGoOnce(h: seq<Event>)
    requires PositiveSizes(h) && NeverParts(h) && CoveredThroughout(h)
    ensures NeverInflates(h)
  {
    if h == [] {
    } else {
      var g, e := h[..|h| - 1], h[|h| - 1];
      UnpartedSharesGoOnce(g);
      IngestIsSound(g);
      BasisTracksExactlyUnlessParted(g);
      assert Tracks(IngestAll(g));
      CoveredStepsInflateOnlyAfterParting(IngestAll(g), e);
      hide Ingest, Inflates, Tracks, Covered, Sound;
    }
  }

  // ------------------------------------------------------------------ trades alone

  // The cash of the shares that were held: what a sell brings in beyond them is not counted.
  function HeldCashIn(row: Option<Position>, e: Event): real {
    match e
    case Buy(price, size, _) => -Notional(price, size)
    case Sell(price, size, _) => Notional(price, Min(size, HeldIn(row)))
    case _ => 0.0
  }

  function HeldCash(h: seq<Event>): real {
    if h == [] then 0.0 else HeldCash(h[..|h| - 1]) + HeldCashIn(IngestAll(h[..|h| - 1]).row, h[|h| - 1])
  }

  predicate PositivePrices(h: seq<Event>) {
    h == [] || (PositivePrices(h[..|h| - 1]) && (h[|h| - 1].Buy? || h[|h| - 1].Sell? ==> h[|h| - 1].price > 0.0))
  }

  lemma {:induction false} PositivePricesGivePositiveAverages(h: seq<Event>)
    requires TradesOnly(h) && PositivePrices(h)
    ensures Run(h).Some? ==> Run(h).value.avg > 0.0
  {
    if h == [] {
    } else {
      var g, e := h[..|h| - 1], h[|h| - 1];
      PositivePricesGivePositiveAverages(g);
      TradesAreRecordedAsTheyAre(g);
      EveryRunIsSound(g);
      if e.Buy? && Run(g).Some? {
        var low := Min(Run(g).value.avg, e.price);
        StepKeepsAverageWithin(Run(g), e, low, Max(Run(g).value.avg, e.price));
      }
    }
  }

  lemma StepRealizesHeldCash(row: Option<Position>, e: Event)
    requires Sound(row) && IsTrade(e) && PositiveAmounts(e) && !Parts(Live(None, row), e)
    requires row.Some? ==> row.value.avg > 0.0
    ensures Pnl(Apply(row, e)) - Pnl(row) == HeldCashIn(row, e) + BookValue(Apply(row, e)) - BookValue(row)
  {
    EveryStepBalances(row, e);
    if e.Sell? {
      var sold := Min(e.size, HeldIn(row));
      NotionalSplits(e.price, e.size, sold);
      NotionalSplits(e.price, 0.0, 0.0);
      if row.Some? {
        NotionalSplits(row.value.avg, 0.0, 0.0);
      }
    }
  }

  // The law for what the code records, exact and with oversells: without dust and with positive prices,
  // realized PnL is the cash of the shares that were held, plus their remaining book value.
  lemma {:induction false} LivePnlIsTheCashOfHeldShares(h: seq<Event>)
    requires TradesOnly(h) && NeverParts(h) && PositivePrices(h)
    ensures var row := IngestAll(h).row; Pnl(row) == HeldCash(h) + BookValue(row)
  {
    if h == [] {
    } else {
      var g, e := h[..|h| - 1], h[|h| - 1];
      LivePnlIsTheCashOfHeldShares(g);
      TradesAreRecordedAsTheyAre(g);
      TradesAreRecordedAsTheyAre(h);
      LiveRowIsTheLedgers(g);
      LiveRowIsTheLedgers(h);
      EveryRunIsSound(g);
      PositivePricesGivePositiveAverages(g);
      StepRealizesHeldCash(Run(g), e);
      hide Ingest, Apply, Sound, Parts, HeldCashIn, Pnl, BookValue;
    }
  }

  lemma ThreeTrades(a: Event, b: Event, c: Event)
    ensures IngestAll([a, b, c]) == Ingest(Ingest(Ingest(Live(None, None), a), b), c)
    ensures Run([a, b, c]) == Apply(Apply(Apply(None, a), b), c)
  {
    hide Ingest, Apply;
    assert [a, b, c][..2] == [a, b] && [a, b][..1] == [a] && [a][..0] == [];
    assert IngestAll([a][..0]) == Live(None, None) && Run([a][..0]) == None;
    assert IngestAll([a]) == Ingest(Live(None, None), a) && Run([a]) == Apply(None, a);
    assert IngestAll([a, b]) == Ingest(IngestAll([a]), b) && Run([a, b]) == Apply(Run([a]), b);
  }

  // Why dust matters: the row has dropped a leftover that the cost basis still holds and sells.
  lemma DustPartsTheRecords()
    ensures var h := [Buy(0.5, 1.0, 0), Sell(0.5, 0.9995, 1), Sell(1.0, 0.0005, 2)];
            IngestAll(h).row.value.pnl == 0.00025 && Run(h).value.pnl == 0.0
  {
    ThreeTrades(Buy(0.5, 1.0, 0), Sell(0.5, 0.9995, 1), Sell(1.0, 0.0005, 2));
    FirstTwoLeaveDust();
    hide IngestAll, Run;
    var dust := Position(1.0, 0.9995, 0.0, 0.5, 0.5, 0.0, Closed, false, 0, Some(1));
    assert Gain(1.0, 0.5, 0.0005) == 0.00025;
    assert ExitOf(Some(Basis(0.5, 0.0005)), 1.0, 0.0005, 2).value.pnl == 0.00025;
    assert SellFrom(dust, 0.0005, 0.00025, 2).pnl == 0.00025;
  }

  lemma FirstTwoLeaveDust()
    ensures var dust := Position(1.0, 0.9995, 0.0, 0.5, 0.5, 0.0, Closed, false, 0, Some(1));
      && Ingest(Ingest(Live(None, None), Buy(0.5, 1.0, 0)), Sell(0.5, 0.9995, 1)) == Live(Some(Basis(0.5, 0.0005)), Some(dust))
      && Apply(Apply(None, Buy(0.5, 1.0, 0)), Sell(0.5, 0.9995, 1)) == Some(dust)
  {
    var first := Position(1.0, 0.0, 1.0, 0.5, 0.5, 0.0, Open, false, 0, None);
    assert FirstBuy(0.5, 1.0, 0) == first;
    assert Gain(0.5, 0.5, 0.9995) == 0.0;
    assert SellFrom(first, 0.9995, 0.0, 1) == Position(1.0, 0.9995, 0.0, 0.5, 0.5, 0.0, Closed, false, 0, Some(1));
    assert SellBasis(Some(Basis(0.5, 1.0)), 0.9995) == Some(Basis(0.5, 0.0005));
    hide FirstBuy, SellFrom, SellBasis, Gain, Notional;
  }

  lemma FourEvents(a: Event, b: Event, c: Event, d: Event)
    ensures IngestAll([a, b, c]) == Ingest(Ingest(Ingest(Live(None, None), a), b), c)
    ensures IngestAll([a, b, c, d]) == Ingest(IngestAll([a, b, c]), d)
  {
    ThreeTrades(a, b, c);
    assert [a, b, c, d][..3] == [a, b, c];
  }

  // The dust job closes the row and leaves the cost basis: a later sell realizes its half share again.
  lemma ResidualPartsTheRecords()
    ensures var h := [Buy(0.5, 10.0, 0), Sell(0.6, 9.5, 100), Residual(false, Some(0.6), None, 100)];
            var again := Sell(0.7, 0.5, 200);
      && HeldIn(IngestAll(h).row) == 0.0 && Held(IngestAll(h).basis) == 0.5
      && Pnl(IngestAll(h + [again]).row) == Pnl(IngestAll(h).row) + 0.1
      && Pnl(Apply(IngestAll(h).row, again)) == Pnl(IngestAll(h).row)
  {
    var a, b, c, d := Buy(0.5, 10.0, 0), Sell(0.6, 9.5, 100), Residual(false, Some(0.6), None, 100), Sell(0.7, 0.5, 200);
    FourEvents(a, b, c, d);
    assert [a, b, c] + [d] == [a, b, c, d];
    hide IngestAll;
    ResidualStates();
    var row := Position(10.0, 10.0, 0.0, 0.5, 5.0, 1.0, Closed, false, 0, Some(100));
    assert ExitOf(Some(Basis(0.5, 0.5)), 0.7, 0.5, 200).value.pnl == Gain(0.7, 0.5, 0.5) == 0.1;
    assert SellFrom(row, 0.5, 0.1, 200).pnl == 1.1;
    assert SellPnl(0.0, 0.5, 0.7, 0.5) == 0.0;
  }

  lemma ResidualStates()
    ensures var l := Ingest(Ingest(Live(None, None), Buy(0.5, 10.0, 0)), Sell(0.6, 9.5, 100));
      Ingest(l, Residual(false, Some(0.6), None, 100))
      == Live(Some(Basis(0.5, 0.5)), Some(Position(10.0, 10.0, 0.0, 0.5, 5.0, 1.0, Closed, false, 0, Some(100))))
  {
    var l := Live(Some(Basis(0.5, 10.0)), Some(FirstBuy(0.5, 10.0, 0)));
    assert Ingest(Live(None, None), Buy(0.5, 10.0, 0)) == l;
    assert Notional(0.5, 10.0) == 5.0 && Gain(0.6, 0.5, 9.5) == 0.95 && Gain(0.6, 0.5, 0.5) == 0.05;
    var p := Position(10.0, 9.5, 0.5, 0.5, 5.0, 0.95, Open, false, 0, None);
    assert SellFrom(l.row.value, 9.5, 0.95, 100) == p;
    assert ExitOf(l.basis, 0.6, 9.5, 100).value.pnl == 0.95;
    assert Ingest(l, Sell(0.6, 9.5, 100)) == Live(Some(Basis(0.5, 0.5)), Some(p));
    assert CloseOut(p, 0.05, 100) == Position(10.0, 10.0, 0.0, 0.5, 5.0, 1.0, Closed, false, 0, Some(100));
    assert ResidualPnl(p, 0.6) == 0.05;
  }

  // A market that is given up and settled late disposes of all shares twice.
  lemma GivenUpThenSettled()
    ensures var h := [Buy(0.5, 10.0, 0), Abandon(1), Settle(1.0, 0.5, 10.0, 2)];
            BoughtIn(IngestAll(h).row) == 20.0 && SumBy(h, BuySize()) == 10.0
  {
    var a, b, c := Buy(0.5, 10.0, 0), Abandon(1), Settle(1.0, 0.5, 10.0, 2);
    ThreeTrades(a, b, c);
    SumByThree(a, b, c, BuySize());
    hide IngestAll;
    var l1 := Live(Some(Basis(0.5, 10.0)), Some(FirstBuy(0.5, 10.0, 0)));
    assert Ingest(Live(None, None), a) == l1;
    var l2 := Ingest(l1, b);
    assert l2.basis == Some(Basis(0.5, 10.0)) && l2.row.value.sold == 10.0 && l2.row.value.bought == 10.0;
  }
}

/**
 The PnL half of the rebuild: with the closed positions that the ingest itself has written, replaying the
 trades realizes the live PnL; and what rows of another origin do to that.
 */
module RebuildPnl {
  import opened Wrappers
  import opened Arithmetic
  import opened Ledger
  import opened LedgerRuns
  import opened Backfill
  import opened CostBasis
  import opened Sums

  // ------------------------------------------------------------------ the rows the ingest writes

  function OwnRow(l: Live, e: Event): seq<ClosedRow> {
    if e.Sell? && Recorded(l.basis)
    then var exit := ExitOf(l.basis, e.price, e.size, e.ts).value; [ClosedRow(exit.closedAt, exit.pnl, exit.shares)]
    else []
  }

  function OwnQueue(h: seq<Event>): seq<ClosedRow> {
    if h == [] then [] else OwnQueue(h[..|h| - 1]) + OwnRow(IngestAll(h[..|h| - 1]), h[|h| - 1])
  }

  function FirstRows(n: nat): (r: set<nat>)
    ensures forall i: nat :: i in r <==> i < n
  {
    if n == 0 then {} else FirstRows(n - 1) + {n - 1}
  }

  // With the rows before it used, a row at the sell's own time is the match.
  lemma OwnRowIsMatched(queue: seq<ClosedRow>, n: nat, ts: int)
    requires n < |queue| && queue[n].closedAt == ts
    ensures MatchSell(queue, FirstRows(n), ts) == Some(n)
  {
    MatchIsClosestUnused(queue, FirstRows(n), ts);
    assert Distance(queue[n], ts) == 0 && n !in FirstRows(n);
  }

  // What the live row, the cost basis and the replay hold after a clean history is the same.
  lemma CleanRecordsTrack(h: seq<Event>, queue: seq<ClosedRow>)
    requires TradesOnly(h) && CleanThroughout(h, queue)
    ensures NeverParts(h) && IngestAll(h).row == Run(h) && Tracks(IngestAll(h))
    ensures var st := ReplayAll(h, queue);
      HeldIn(Run(h)) == st.remaining && (h != [] ==> Run(h).Some? && Run(h).value.avg == st.avg)
  {
    CleanSellsNeverPart(h, queue);
    TradesAreRecordedAsTheyAre(h);
    LiveRowIsTheLedgers(h);
    BasisTracksExactlyUnlessParted(h);
    CleanHistoriesAreTight(h, queue);
    AgreesNow(h, queue);
  }

  lemma {:induction false} CleanSellsNeverPart(h: seq<Event>, queue: seq<ClosedRow>)
    requires TradesOnly(h) && CleanThroughout(h, queue)
    ensures NeverParts(h)
  {
    if h == [] {
    } else {
      var g := h[..|h| - 1];
      CleanSellsNeverPart(g, queue);
      TradesAreRecordedAsTheyAre(g);
      LiveRowIsTheLedgers(g);
      CleanHistoriesAreTight(g, queue);
      AgreesNow(g, queue);
      assert HeldIn(IngestAll(g).row) == ReplayAll(g, queue).remaining;
    }
  }

  // A clean sell at positive prices is recorded, for its size and with what the ledger realizes.
  lemma CleanSellIsRecorded(g: seq<Event>, e: Event, queue: seq<ClosedRow>)
    requires TradesOnly(g) && CleanThroughout(g, queue) && PositivePrices(g)
    requires e.Sell? && e.size > 0.0 && CleanSell(ReplayAll(g, queue), e)
    ensures var st := ReplayAll(g, queue);
      OwnRow(IngestAll(g), e) == [ClosedRow(e.ts, SellPnl(st.remaining, st.avg, e.price, e.size), e.size)]
  {
    CleanRecordsTrack(g, queue);
    PositivePricesGivePositiveAverages(g);
    hide IngestAll, Run, ReplayAll, CleanThroughout, TradesOnly, PositivePrices, NeverParts;
  }

  // Every sell takes its own row, so the replay is right whatever follows the rows in the queue.
  lemma {:induction false} EachSellTakesItsOwnRow(h: seq<Event>, queue: seq<ClosedRow>)
    requires TradesOnly(h) && CleanThroughout(h, queue) && PositivePrices(h) && OwnQueue(h) <= queue
    ensures RightlyValuedThroughout(h, queue) && ReplayAll(h, queue).used == FirstRows(|OwnQueue(h)|)
  {
    if h == [] {
    } else {
      var g, e := h[..|h| - 1], h[|h| - 1];
      var n := |OwnQueue(g)|;
      EachSellTakesItsOwnRow(g, queue);
      if e.Sell? {
        CleanSellIsRecorded(g, e, queue);
        assert OwnQueue(h) == OwnQueue(g) + OwnRow(IngestAll(g), e);
        assert queue[n] == OwnQueue(h)[n] == OwnRow(IngestAll(g), e)[0];
        OwnRowIsMatched(queue, n, e.ts);
        assert FirstRows(n + 1) == FirstRows(n) + {n};
        hide IngestAll, OwnQueue, CleanThroughout, PositivePrices, TradesOnly, MatchSell;
      } else {
        assert OwnQueue(h) == OwnQueue(g) + [] == OwnQueue(g);
      }
    }
  }

  lemma {:induction false} OwnQueueGrows(h: seq<Event>, n: nat)
    requires n <= |h|
    ensures OwnQueue(h[..n]) <= OwnQueue(h)
  {
    if n == |h| {
      assert h[..n] == h;
    } else {
      OwnQueueGrows(h[..|h| - 1], n);
      assert h[..|h| - 1][..n] == h[..n];
    }
  }

  // For every clean history at positive prices, the rebuild realizes the PnL of the live row, after every
  // prefix, with the queue that the ingest itself has written.
  lemma RebuildRealizesTheLivePnl(h: seq<Event>)
    requires TradesOnly(h) && CleanThroughout(h, OwnQueue(h)) && PositivePrices(h)
    ensures PnlAgreesThroughout(h, OwnQueue(h)) && Pnl(IngestAll(h).row) == ReplayAll(h, OwnQueue(h)).pnl
  {
    EachSellTakesItsOwnRow(h, OwnQueue(h));
    CleanPnlAgrees(h, OwnQueue(h));
    CleanRecordsTrack(h, OwnQueue(h));
  }

  // ------------------------------------------------------------------ rows in any order

  // One for a row, or a sell, at a time.
  function RowAt(ts: int): ClosedRow -> real {
    (r: ClosedRow) => if r.closedAt == ts then 1.0 else 0.0
  }

  function SellAt(ts: int): Event -> real {
    (e: Event) => if e.Sell? && e.ts == ts then 1.0 else 0.0
  }

  // How many of the first n rows are used and stamped with a time, and what the used ones realized.
  function UsedAt(queue: seq<ClosedRow>, used: set<nat>, ts: int, n: nat): real
    requires n <= |queue|
  {
    if n == 0 then 0.0 else UsedAt(queue, used, ts, n - 1) + if n - 1 in used then RowAt(ts)(queue[n - 1]) else 0.0
  }

  function UsedPnl(queue: seq<ClosedRow>, used: set<nat>, n: nat): real
    requires n <= |queue|
  {
    if n == 0 then 0.0 else UsedPnl(queue, used, n - 1) + if n - 1 in used then queue[n - 1].pnl else 0.0
  }

  lemma {:induction false} UseOneMore(queue: seq<ClosedRow>, used: set<nat>, m: nat, ts: int, n: nat)
    requires n <= |queue| && m < |queue| && m !in used
    ensures UsedAt(queue, used + {m}, ts, n) == UsedAt(queue, used, ts, n) + if m < n then RowAt(ts)(queue[m]) else 0.0
    ensures UsedPnl(queue, used + {m}, n) == UsedPnl(queue, used, n) + if m < n then queue[m].pnl else 0.0
  {
    if n == 0 {
    } else {
      UseOneMore(queue, used, m, ts, n - 1);
    }
  }

  // While fewer rows at a time are used than there are, one is left; with as many used, all are.
  lemma {:induction false} SomeRowIsLeft(queue: seq<ClosedRow>, used: set<nat>, ts: int, n: nat)
    requires n <= |queue|
    ensures UsedAt(queue, used, ts, n) <= SumBy(queue[..n], RowAt(ts))
    ensures UsedAt(queue, used, ts, n) < SumBy(queue[..n], RowAt(ts)) <==>
      exists j :: 0 <= j < n && j !in used && queue[j].closedAt == ts
  {
    if n == 0 {
    } else {
      SomeRowIsLeft(queue, used, ts, n - 1);
      assert queue[..n][..n - 1] == queue[..n - 1];
    }
  }

  lemma {:induction false} AllUsedPnl(queue: seq<ClosedRow>, used: set<nat>, n: nat)
    requires n <= |queue| && forall j :: 0 <= j < n ==> j in used
    ensures UsedPnl(queue, used, n) == TotalPnl(queue[..n])
  {
    if n == 0 {
    } else {
      AllUsedPnl(queue, used, n - 1);
      assert queue[..n][..n - 1] == queue[..n - 1];
    }
  }

  // The replay uses rows at the times of its sells, one for each sell, and realizes what they say.
  ghost predicate UsesOwnTimes(h: seq<Event>, queue: seq<ClosedRow>) {
    var st := ReplayAll(h, queue);
    && st.pnl == UsedPnl(queue, st.used, |queue|)
    && forall ts :: UsedAt(queue, st.used, ts, |queue|) == SumBy(h, SellAt(ts))
  }

  // Every sell has a row at its time.
  ghost predicate EnoughRows(h: seq<Event>, queue: seq<ClosedRow>) {
    forall ts :: SumBy(h, SellAt(ts)) <= SumBy(queue, RowAt(ts))
  }

  lemma AMatchAtTheTime(queue: seq<ClosedRow>, used: set<nat>, ts: int)
    requires UsedAt(queue, used, ts, |queue|) < SumBy(queue, RowAt(ts))
    ensures var m := MatchSell(queue, used, ts); m.Some? && m.value !in used && queue[m.value].closedAt == ts
  {
    SomeRowIsLeft(queue, used, ts, |queue|);
    assert queue[..|queue|] == queue;
    var j :| 0 <= j < |queue| && j !in used && queue[j].closedAt == ts;
    MatchIsClosestUnused(queue, used, ts);
    assert Distance(queue[j], ts) == 0;
  }

  lemma {:induction false} NothingUsed(queue: seq<ClosedRow>, ts: int, n: nat)
    requires n <= |queue|
    ensures UsedAt(queue, {}, ts, n) == 0.0 && UsedPnl(queue, {}, n) == 0.0
  {
    if n == 0 {
    } else {
      NothingUsed(queue, ts, n - 1);
    }
  }

  lemma {:induction false} EachSellUsesItsTime(h: seq<Event>, queue: seq<ClosedRow>)
    requires TradesOnly(h) && EnoughRows(h, queue)
    ensures UsesOwnTimes(h, queue)
  {
    if h == [] {
      forall ts
        ensures UsedAt(queue, {}, ts, |queue|) == 0.0 && UsedPnl(queue, {}, |queue|) == 0.0
      {
        NothingUsed(queue, ts, |queue|);
      }
      NothingUsed(queue, 0, |queue|);
    } else {
      var g, e := h[..|h| - 1], h[|h| - 1];
      forall ts
        ensures SumBy(h, SellAt(ts)) == SumBy(g, SellAt(ts)) + SellAt(ts)(e)
      {
      }
      assert EnoughRows(g, queue);
      EachSellUsesItsTime(g, queue);
      StepUsesItsTime(g, e, h, queue);
    }
  }

  lemma StepUsesItsTime(g: seq<Event>, e: Event, h: seq<Event>, queue: seq<ClosedRow>)
    requires h == g + [e] && UsesOwnTimes(g, queue) && EnoughRows(h, queue) && IsTrade(e)
    ensures UsesOwnTimes(h, queue)
  {
    var st := ReplayAll(g, queue);
    assert h[..|h| - 1] == g;
    forall ts
      ensures SumBy(h, SellAt(ts)) == SumBy(g, SellAt(ts)) + SellAt(ts)(e)
    {
    }
    if e.Sell? {
      assert SumBy(h, SellAt(e.ts)) == SumBy(g, SellAt(e.ts)) + 1.0;
      AMatchAtTheTime(queue, st.used, e.ts);
      var m := MatchSell(queue, st.used, e.ts).value;
      forall ts
        ensures UsedAt(queue, st.used + {m}, ts, |queue|) == UsedAt(queue, st.used, ts, |queue|) + SellAt(ts)(e)
      {
        UseOneMore(queue, st.used, m, ts, |queue|);
      }
      UseOneMore(queue, st.used, m, e.ts, |queue|);
    }
  }

  // The rows of a clean history at positive prices: one at the time of each sell, and together its PnL.
  lemma {:induction false} OwnRowsAddUp(h: seq<Event>, queue: seq<ClosedRow>, ts: int)
    requires TradesOnly(h) && CleanThroughout(h, queue) && PositivePrices(h)
    ensures SumBy(OwnQueue(h), RowAt(ts)) == SumBy(h, SellAt(ts))
    ensures TotalPnl(OwnQueue(h)) == Pnl(Run(h))
  {
    if h == [] {
    } else {
      var g, e := h[..|h| - 1], h[|h| - 1];
      var own := OwnRow(IngestAll(g), e);
      OwnRowsAddUp(g, queue, ts);
      OwnRowAddsUp(g, e, queue, ts);
      assert OwnQueue(h) == OwnQueue(g) + own && Run(h) == Apply(Run(g), e);
      hide *;
      SumByAppend(OwnQueue(g), own, RowAt(ts));
      SumByAppend(OwnQueue(g), own, Backfill.PnlOf());
      SumOfTrades(h, ts);
      TotalIsSum(OwnQueue(h));
      TotalIsSum(OwnQueue(g));
      TotalIsSum(own);
    }
  }

  lemma SumOfTrades(h: seq<Event>, ts: int)
    requires h != []
    ensures SumBy(h, SellAt(ts)) == SumBy(h[..|h| - 1], SellAt(ts)) + SellAt(ts)(h[|h| - 1])
  {
  }

  lemma TotalIsSum(queue: seq<ClosedRow>)
    ensures TotalPnl(queue) == SumBy(queue, Backfill.PnlOf())
  {
  }

  lemma OwnRowAddsUp(g: seq<Event>, e: Event, queue: seq<ClosedRow>, ts: int)
    requires TradesOnly(g) && CleanThroughout(g, queue) && PositivePrices(g) && IsTrade(e) && PositiveAmounts(e)
    requires CleanSell(ReplayAll(g, queue), e)
    ensures var own := OwnRow(IngestAll(g), e);
            SumBy(own, RowAt(ts)) == SellAt(ts)(e) && TotalPnl(own) == Pnl(Apply(Run(g), e)) - Pnl(Run(g))
  {
    if e.Sell? {
      var own := OwnRow(IngestAll(g), e);
      CleanSellIsRecorded(g, e, queue);
      SumByOne(own[0], RowAt(ts));
      SumByOne(own[0], Backfill.PnlOf());
      CleanRecordsTrack(g, queue);
      FirstSellIsNotClean(g, e, queue);
      hide ReplayAll, IngestAll, CleanThroughout, CleanSell, TradesOnly, PositivePrices, NeverParts, Tracks, Run, OwnRow, SumBy;
    } else {
      BuyRealizesNothing(Run(g), e);
    }
  }

  lemma FirstSellIsNotClean(g: seq<Event>, e: Event, queue: seq<ClosedRow>)
    requires e.Sell? && e.size > 0.0 && CleanSell(ReplayAll(g, queue), e)
    ensures g != []
  {
  }

  // In whatever order the rows of the ingest come back, sells at one time included, the rebuild has realized
  // the live PnL in the end.
  lemma AnyOrderOfRowsRealizesTheLivePnl(h: seq<Event>, queue: seq<ClosedRow>)
    requires TradesOnly(h) && CleanThroughout(h, queue) && PositivePrices(h) && multiset(queue) == multiset(OwnQueue(h))
    ensures ReplayAll(h, queue).pnl == Pnl(IngestAll(h).row)
  {
    forall ts
      ensures SumBy(queue, RowAt(ts)) == SumBy(h, SellAt(ts))
    {
      OwnRowsAddUp(h, queue, ts);
      SumByPermutation(queue, OwnQueue(h), RowAt(ts));
    }
    EachSellUsesItsTime(h, queue);
    var used := ReplayAll(h, queue).used;
    assert queue[..|queue|] == queue;
    forall j | 0 <= j < |queue|
      ensures j in used
    {
      var ts := queue[j].closedAt;
      SomeRowIsLeft(queue, used, ts, |queue|);
      assert UsedAt(queue, used, ts, |queue|) == SumBy(h, SellAt(ts));
    }
    AllUsedPnl(queue, used, |queue|);
    SumByPermutation(queue, OwnQueue(h), Backfill.PnlOf());
    OwnRowsAddUp(h, queue, 0);
    CleanRecordsTrack(h, queue);
  }

  // ------------------------------------------------------------------ the closing time

  predicate TimesOrdered(h: seq<Event>) {
    h == [] || (TimesOrdered(h[..|h| - 1]) && (|h| == 1 || h[|h| - 2].ts <= h[|h| - 1].ts))
  }

  predicate ClosedBy(queue: seq<ClosedRow>, ts: int) {
    forall i :: 0 <= i < |queue| ==> queue[i].closedAt <= ts
  }

  lemma {:induction false} OwnRowsAreNotLater(h: seq<Event>)
    requires TimesOrdered(h)
    ensures h != [] ==> ClosedBy(OwnQueue(h), h[|h| - 1].ts)
  {
    if h == [] {
    } else {
      OwnRowsAreNotLater(h[..|h| - 1]);
    }
  }

  lemma {:induction false} LastMatchedIsTheLatest(queue: seq<ClosedRow>, n: nat, m: nat, ts: int)
    requires n <= m && n <= |queue| && ClosedBy(queue, ts)
    ensures LastMatched(queue, FirstRows(m), n).Some? <==> n > 0
    ensures n > 0 ==> LastMatched(queue, FirstRows(m), n).value <= ts
    ensures n > 0 && queue[n - 1].closedAt == ts ==> LastMatched(queue, FirstRows(m), n) == Some(ts)
  {
    if n == 0 {
    } else {
      LastMatchedIsTheLatest(queue, n - 1, m, ts);
    }
  }

  // With trades in the order of their times, a closed row is rebuilt with its closing time as well.
  lemma ClosingTimesAgree(h: seq<Event>)
    requires TradesOnly(h) && CleanThroughout(h, OwnQueue(h)) && PositivePrices(h) && TimesOrdered(h)
    requires Run(h).Some? && Run(h).value.status == Closed
    ensures var rebuilt := RebuiltRow(ReplayAll(h, OwnQueue(h)), OwnQueue(h), []);
            rebuilt.Some? && rebuilt.value.closedAt == Run(h).value.closedAt
  {
    var q := OwnQueue(h);
    var g, e := h[..|h| - 1], h[|h| - 1];
    CleanHistoriesAreTight(h, q);
    AgreesNow(h, q);
    LastTradeSells(h);
    EachSellTakesItsOwnRow(h, q);
    CleanSellIsRecorded(g, e, q);
    OwnRowsAreNotLater(h);
    assert q == OwnQueue(g) + OwnRow(IngestAll(g), e);
    LastMatchedIsTheLatest(q, |q|, |q|, e.ts);
    hide CleanThroughout, TradesOnly, PositivePrices, OwnQueue, Run, AgreesThroughout;
  }

  lemma LastTradeSells(h: seq<Event>)
    requires TradesOnly(h) && Run(h).Some? && Run(h).value.status == Closed
    ensures h != [] && h[|h| - 1].Sell? && Run(h).value.closedAt == Some(h[|h| - 1].ts)
  {
    var g := h[..|h| - 1];
    TradesAreRecordedAsTheyAre(h);
    EveryRunIsSound(h);
    EveryRunIsSound(g);
  }

  // ------------------------------------------------------------------ rows of another origin

  // The first row of the queue that is stamped with a time.
  function FirstStamped(queue: seq<ClosedRow>, ts: int, n: nat): (r: Option<nat>)
    requires n <= |queue|
    ensures r.Some? ==> r.value < n && queue[r.value].closedAt == ts
    ensures forall j :: 0 <= j < n && queue[j].closedAt == ts ==> r.Some? && r.value <= j
  {
    if n == 0 then None
    else
      var r := FirstStamped(queue, ts, n - 1);
      if r.Some? then r else if queue[n - 1].closedAt == ts then Some(n - 1) else None
  }

  predicate SellsAt(h: seq<Event>, ts: int) {
    h != [] && (SellsAt(h[..|h| - 1], ts) || (h[|h| - 1].Sell? && h[|h| - 1].ts == ts))
  }

  // No two sells at one time, and a row stamped with the time of each.
  predicate SellsAreStamped(h: seq<Event>, queue: seq<ClosedRow>) {
    h == []
    || var g, e := h[..|h| - 1], h[|h| - 1];
       SellsAreStamped(g, queue) && (e.Sell? ==> !SellsAt(g, e.ts) && FirstStamped(queue, e.ts, |queue|).Some?)
  }

  // The first row stamped with the time of a sell carries what the live row realized on it.
  predicate FirstRowsAreRight(h: seq<Event>, queue: seq<ClosedRow>) {
    h == []
    || var g, e := h[..|h| - 1], h[|h| - 1];
       FirstRowsAreRight(g, queue)
       && (e.Sell? ==>
             var m := FirstStamped(queue, e.ts, |queue|);
             m.Some? && queue[m.value].pnl == Pnl(Run(h)) - Pnl(Run(g)))
  }

  lemma FirstStampedIsMatched(queue: seq<ClosedRow>, used: set<nat>, ts: int)
    requires forall j :: j in used && j < |queue| ==> queue[j].closedAt != ts
    requires FirstStamped(queue, ts, |queue|).Some?
    ensures MatchSell(queue, used, ts) == FirstStamped(queue, ts, |queue|)
  {
    var m := FirstStamped(queue, ts, |queue|).value;
    MatchIsClosestUnused(queue, used, ts);
    assert Distance(queue[m], ts) == 0 && m !in used;
  }

  // Only rows stamped with the time of a sell are ever used.
  lemma {:induction false} UsedRowsAreStamped(h: seq<Event>, queue: seq<ClosedRow>, j: nat)
    requires SellsAreStamped(h, queue) && j in ReplayAll(h, queue).used
    ensures j < |queue| && SellsAt(h, queue[j].closedAt)
    decreases |h|, 0
  {
    var g, e := h[..|h| - 1], h[|h| - 1];
    if j in ReplayAll(g, queue).used {
      UsedRowsAreStamped(g, queue, j);
    } else {
      SellTakesFirstStamped(g, e, queue);
    }
  }

  lemma {:induction false} SellTakesFirstStamped(g: seq<Event>, e: Event, queue: seq<ClosedRow>)
    requires SellsAreStamped(g, queue) && e.Sell? && !SellsAt(g, e.ts) && FirstStamped(queue, e.ts, |queue|).Some?
    ensures MatchSell(queue, ReplayAll(g, queue).used, e.ts) == FirstStamped(queue, e.ts, |queue|)
    decreases |g|, 1
  {
    var used := ReplayAll(g, queue).used;
    forall j | j in used && j < |queue|
      ensures queue[j].closedAt != e.ts
    {
      UsedRowsAreStamped(g, queue, j);
    }
    FirstStampedIsMatched(queue, used, e.ts);
  }

  // The exact condition for rows of any origin in the queue, such as those of the dust job: as long as no
  // two sells share a time and each has a row at its own, the PnL agrees after every prefix exactly when
  // the first row stamped with the time of each sell carries what that sell realized.
  lemma {:induction false} ExtraRowsAgreeExactly(h: seq<Event>, queue: seq<ClosedRow>)
    requires TradesOnly(h) && CleanThroughout(h, queue) && SellsAreStamped(h, queue)
    ensures PnlAgreesThroughout(h, queue) <==> FirstRowsAreRight(h, queue)
  {
    if h == [] {
    } else {
      var g, e := h[..|h| - 1], h[|h| - 1];
      ExtraRowsAgreeExactly(g, queue);
      if e.Sell? {
        SellTakesFirstStamped(g, e, queue);
      } else {
        BuyRealizesNothing(Run(g), e);
      }
      hide Apply, CleanThroughout, SellsAt, TradesOnly;
    }
  }

  lemma BuyRealizesNothing(row: Option<Position>, e: Event)
    requires e.Buy?
    ensures Pnl(Apply(row, e)) == Pnl(row)
  {
  }

  // The dust job stamps its row with the time of the last trade. Listed before the row of the sell that
  // left the residue, it takes that sell's place.
  lemma ResidualRowTakesTheSell()
    ensures var h, queue := [Buy(0.5, 10.0, 0), Sell(0.6, 9.5, 100)], [ClosedRow(100, 0.05, 0.5), ClosedRow(100, 0.95, 9.5)];
      && CleanThroughout(h, queue) && SellsAreStamped(h, queue)
      && Pnl(Run(h)) == 0.95 && ReplayAll(h, queue).pnl == 0.05
  {
    var a, b := Buy(0.5, 10.0, 0), Sell(0.6, 9.5, 100);
    var queue := [ClosedRow(100, 0.05, 0.5), ClosedRow(100, 0.95, 9.5)];
    assert [a, b][..1] == [a] && [a][..0] == [];
    assert FirstStamped(queue, 100, 1) == Some(0);
    FirstStampedIsMatched(queue, {}, 100);
    assert Notional(0.0, 0.0) == 0.0 && Notional(0.5, 10.0) == 5.0 && Gain(0.6, 0.5, 9.5) == 0.95;
    var st := Replay(10.0, 0.0, 10.0, 0.5, 5.0, 0.0, Some(0), {});
    assert ReplayAll([a], queue) == ReplayTrade(START, a, queue) == st;
    assert ReplayAll([a, b], queue) == ReplayTrade(st, b, queue);
    assert Run([a]) == Some(FirstBuy(0.5, 10.0, 0));
    assert Run([a, b]) == Apply(Run([a]), b);
  }
}

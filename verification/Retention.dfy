/**
 The archive-then-delete purge: old trades of resolved markets move from the live table to an archive
 that has no uniqueness of its own, guarded by a count check that aborts the whole pass.
 */
module Retention {
  import opened Wrappers
  import opened Calendar
  import opened Sequences

  type TradeId = string
  type MarketId = string

  // A trade row; `payload` stands for the columns that are copied without being looked at.
  datatype Trade = Trade(id: TradeId, date: Date, ts: int, market: MarketId, wallet: Option<string>, payload: string)

  // The tables of a purge, with the months for which the archive has a partition.
  datatype Tables = Tables(trades: map<TradeId, Trade>, archive: seq<Trade>, partitions: set<Month>)

  datatype Result = Purged(count: nat) | CountMismatch

  predicate Keyed(t: Tables) {
    forall id :: id in t.trades ==> t.trades[id].id == id && IsDate(t.trades[id].date)
  }

  predicate AllIn(ids: seq<TradeId>, trades: map<TradeId, Trade>) {
    forall i :: 0 <= i < |ids| ==> ids[i] in trades
  }

  // How often an id is archived.
  function Copies(archive: seq<Trade>, id: TradeId): nat {
    if archive == [] then 0
    else Copies(archive[..|archive| - 1], id) + if archive[|archive| - 1].id == id then 1 else 0
  }

  // The ids of the archived rows among the selected ones, with repetitions.
  function AlreadyArchived(archive: seq<Trade>, ids: seq<TradeId>): seq<TradeId> {
    if archive == [] then []
    else
      AlreadyArchived(archive[..|archive| - 1], ids)
      + if archive[|archive| - 1].id in ids then [archive[|archive| - 1].id] else []
  }

  function ToInsert(ids: seq<TradeId>, already: seq<TradeId>): seq<TradeId> {
    if ids == [] then []
    else ToInsert(ids[..|ids| - 1], already) + if ids[|ids| - 1] in already then [] else [ids[|ids| - 1]]
  }

  function RowsOf(trades: map<TradeId, Trade>, ids: seq<TradeId>): (rows: seq<Trade>)
    requires AllIn(ids, trades)
    ensures |rows| == |ids|
  {
    if ids == [] then [] else RowsOf(trades, ids[..|ids| - 1]) + [trades[ids[|ids| - 1]]]
  }

  function MonthsOf(trades: map<TradeId, Trade>, ids: seq<TradeId>): set<Month>
    requires AllIn(ids, trades)
  {
    set i | 0 <= i < |ids| :: trades[ids[i]].date.month
  }

  lemma {:induction false} ToInsertIsSelected(ids: seq<TradeId>, already: seq<TradeId>, trades: map<TradeId, Trade>)
    requires AllIn(ids, trades)
    ensures AllIn(ToInsert(ids, already), trades)
    ensures forall id :: id in ToInsert(ids, already) <==> id in ids && id !in already
  {
    if ids == [] {
    } else {
      ToInsertIsSelected(ids[..|ids| - 1], already, trades);
    }
  }

  // One pass over the selected ids: None when it aborts.
  function Pass(t: Tables, ids: seq<TradeId>): Option<Tables>
    requires AllIn(ids, t.trades)
  {
    if ids == [] then Some(t)
    else
      var already := AlreadyArchived(t.archive, ids);
      var inserted := ToInsert(ids, already);
      ToInsertIsSelected(ids, already, t.trades);
      if |inserted| + |already| != |ids| then None
      else Some(Tables(t.trades - (set i | 0 <= i < |ids| :: ids[i]),
                       t.archive + RowsOf(t.trades, inserted),
                       t.partitions + MonthsOf(t.trades, ids)))
  }

  // ------------------------------------------------------------------ the count check

  function TotalCopies(archive: seq<Trade>, ids: seq<TradeId>): nat {
    if ids == [] then 0 else TotalCopies(archive, ids[..|ids| - 1]) + Copies(archive, ids[|ids| - 1])
  }

  lemma {:induction false} OneMoreRow(archive: seq<Trade>, row: Trade, ids: seq<TradeId>)
    requires Distinct(ids)
    ensures TotalCopies(archive + [row], ids) == TotalCopies(archive, ids) + if row.id in ids then 1 else 0
  {
    if ids == [] {
    } else {
      var g := ids[..|ids| - 1];
      OneMoreRow(archive, row, g);
      assert (archive + [row])[..|archive|] == archive;
      assert row.id in ids <==> row.id in g || row.id == ids[|ids| - 1];
    }
  }

  lemma {:induction false} NoRowsNoCopies(ids: seq<TradeId>)
    ensures TotalCopies([], ids) == 0
  {
    if ids == [] {
    } else {
      NoRowsNoCopies(ids[..|ids| - 1]);
    }
  }

  lemma {:induction false} AlreadyArchivedCountsCopies(archive: seq<Trade>, ids: seq<TradeId>)
    requires Distinct(ids)
    ensures |AlreadyArchived(archive, ids)| == TotalCopies(archive, ids)
  {
    if archive == [] {
      NoRowsNoCopies(ids);
    } else {
      var g, row := archive[..|archive| - 1], archive[|archive| - 1];
      AlreadyArchivedCountsCopies(g, ids);
      OneMoreRow(g, row, ids);
      assert archive == g + [row];
    }
  }

  lemma {:induction false} ArchivedExactlyWhenCopied(archive: seq<Trade>, ids: seq<TradeId>, id: TradeId)
    ensures id in AlreadyArchived(archive, ids) <==> id in ids && Copies(archive, id) > 0
  {
    if archive == [] {
    } else {
      ArchivedExactlyWhenCopied(archive[..|archive| - 1], ids, id);
    }
  }

  predicate NoneTwice(archive: seq<Trade>, ids: seq<TradeId>) {
    forall i :: 0 <= i < |ids| ==> Copies(archive, ids[i]) <= 1
  }

  lemma {:induction false} CountsMatchExactlyWithoutRepeats(archive: seq<Trade>, ids: seq<TradeId>, already: seq<TradeId>)
    requires forall i :: 0 <= i < |ids| ==> (ids[i] in already <==> Copies(archive, ids[i]) > 0)
    ensures |ToInsert(ids, already)| + TotalCopies(archive, ids) >= |ids|
    ensures |ToInsert(ids, already)| + TotalCopies(archive, ids) == |ids| <==> NoneTwice(archive, ids)
  {
    if ids == [] {
    } else {
      var g := ids[..|ids| - 1];
      CountsMatchExactlyWithoutRepeats(archive, g, already);
      assert NoneTwice(archive, ids) <==> NoneTwice(archive, g) && Copies(archive, ids[|ids| - 1]) <= 1;
    }
  }

  // The check aborts the pass exactly when some selected trade is archived more than once.
  lemma CountCheckIsExact(t: Tables, ids: seq<TradeId>)
    requires Distinct(ids) && AllIn(ids, t.trades)
    ensures Pass(t, ids).Some? <==> NoneTwice(t.archive, ids)
  {
    var already := AlreadyArchived(t.archive, ids);
    AlreadyArchivedCountsCopies(t.archive, ids);
    forall i | 0 <= i < |ids|
      ensures ids[i] in already <==> Copies(t.archive, ids[i]) > 0
    {
      ArchivedExactlyWhenCopied(t.archive, ids, ids[i]);
    }
    CountsMatchExactlyWithoutRepeats(t.archive, ids, already);
  }

  // ------------------------------------------------------------------ conservation

  lemma {:induction false} CopiesOfAppend(a: seq<Trade>, b: seq<Trade>, id: TradeId)
    ensures Copies(a + b, id) == Copies(a, id) + Copies(b, id)
  {
    if b == [] {
      assert a + b == a;
    } else {
      CopiesOfAppend(a, b[..|b| - 1], id);
      assert (a + b)[..|a + b| - 1] == a + b[..|b| - 1];
    }
  }

  lemma {:induction false} ToInsertIsDistinct(ids: seq<TradeId>, already: seq<TradeId>, trades: map<TradeId, Trade>)
    requires Distinct(ids) && AllIn(ids, trades)
    ensures Distinct(ToInsert(ids, already))
  {
    if ids == [] {
    } else {
      var g := ids[..|ids| - 1];
      ToInsertIsDistinct(g, already, trades);
      ToInsertIsSelected(g, already, trades);
      assert forall i :: 0 <= i < |ToInsert(g, already)| ==> ToInsert(g, already)[i] in g;
    }
  }

  lemma {:induction false} CopiesOfRows(trades: map<TradeId, Trade>, ids: seq<TradeId>, id: TradeId)
    requires AllIn(ids, trades) && Distinct(ids) && (forall k :: k in trades ==> trades[k].id == k)
    ensures Copies(RowsOf(trades, ids), id) == if id in ids then 1 else 0
  {
    if ids == [] {
    } else {
      var g, last := ids[..|ids| - 1], ids[|ids| - 1];
      CopiesOfRows(trades, g, id);
      var rows := RowsOf(trades, g);
      assert (rows + [trades[last]])[..|rows|] == rows;
      assert id in ids <==> id in g || id == last;
    }
  }

  lemma {:induction false} RowsAreCopied(trades: map<TradeId, Trade>, ids: seq<TradeId>, id: TradeId)
    requires AllIn(ids, trades) && id in ids
    ensures trades[id] in RowsOf(trades, ids)
  {
    var g := ids[..|ids| - 1];
    if id != ids[|ids| - 1] {
      assert id in g;
      RowsAreCopied(trades, g, id);
    }
  }

  // A pass that goes through moves the selected trades: each is gone from the live table and archived
  // exactly once, and every other id has as many copies as before in either table.
  lemma PassConservesTrades(t: Tables, ids: seq<TradeId>, id: TradeId)
    requires Keyed(t) && Distinct(ids) && AllIn(ids, t.trades) && Pass(t, ids).Some?
    ensures var r := Pass(t, ids).value;
      && (id in r.trades <==> id in t.trades && id !in ids)
      && (id in r.trades ==> r.trades[id] == t.trades[id])
      && t.archive <= r.archive
      && Copies(r.archive, id) == (if id in ids then 1 else Copies(t.archive, id))
      && (id in t.trades || Copies(t.archive, id) > 0 <==> id in r.trades || Copies(r.archive, id) > 0)
      && (id in ids && Copies(t.archive, id) == 0 ==> t.trades[id] in r.archive)
  {
    if ids != [] {
      CountCheckIsExact(t, ids);
      var already := AlreadyArchived(t.archive, ids);
      ToInsertIsSelected(ids, already, t.trades);
      ArchivedExactlyWhenCopied(t.archive, ids, id);
      ToInsertIsDistinct(ids, already, t.trades);
      CopiesOfRows(t.trades, ToInsert(ids, already), id);
      CopiesOfAppend(t.archive, RowsOf(t.trades, ToInsert(ids, already)), id);
      assert id in ids ==> exists i :: 0 <= i < |ids| && ids[i] == id;
      if id in ids && Copies(t.archive, id) == 0 {
        RowsAreCopied(t.trades, ToInsert(ids, already), id);
      }
    }
  }

  // Every archived row has the partition it needs, and no other partition takes it.
  lemma ArchivedRowsFallInOnePartition(t: Tables, ids: seq<TradeId>, i: nat, m: Month)
    requires Keyed(t) && AllIn(ids, t.trades) && Pass(t, ids).Some? && i < |ids|
    ensures var d := t.trades[ids[i]].date;
            d.month in Pass(t, ids).value.partitions && (InPartition(d, m) <==> m == d.month)
  {
    PartitionsCoverEachDateOnce(t.trades[ids[i]].date, m);
  }

  // ------------------------------------------------------------------ the purge

  // What the purge reads besides its own tables.
  datatype Facts = Facts(resolved: set<MarketId>, scored: set<string>)

  predicate FirstPass(t: Trade, f: Facts, cutoff: int) {
    t.ts < cutoff && t.market in f.resolved && t.wallet.None?
  }

  predicate SecondPass(t: Trade, f: Facts, cutoff: int) {
    t.ts < cutoff && t.market in f.resolved && t.wallet.Some? && t.wallet.value in f.scored
  }

  // The ids a query returns: every matching row once, in any order.
  ghost predicate Returns(ids: seq<TradeId>, trades: map<TradeId, Trade>, matches: Trade -> bool) {
    Distinct(ids) && forall id :: id in ids <==> id in trades && matches(trades[id])
  }

  class Purger {
    var tables: Tables

    constructor (tables: Tables)
      ensures this.tables == tables
    {
      this.tables := tables;
    }

    // Archives and deletes in one transaction; an abort leaves every table as it was.
    method ArchiveThenDelete(ids: seq<TradeId>) returns (r: Result)
      requires Distinct(ids) && AllIn(ids, tables.trades)
      modifies this
      ensures r.CountMismatch? <==> Pass(old(tables), ids).None?
      ensures r.CountMismatch? ==> tables == old(tables)
      ensures r.Purged? ==> r.count == |ids| && Some(tables) == Pass(old(tables), ids)
    {
      if ids == [] {
        return Purged(0);
      }
      var session := tables;
      for i := 0 to |ids|
        invariant session == tables.(partitions := tables.partitions + MonthsOf(tables.trades, ids[..i]))
      {
        assert ids[..i + 1] == ids[..i] + [ids[i]];
        assert MonthsOf(tables.trades, ids[..i + 1]) == MonthsOf(tables.trades, ids[..i]) + {tables.trades[ids[i]].date.month};
        session := session.(partitions := session.partitions + {session.trades[ids[i]].date.month});
      }
      assert ids[..|ids|] == ids;
      var already := AlreadyArchived(session.archive, ids);
      var toInsert := ToInsert(ids, already);
      ToInsertIsSelected(ids, already, session.trades);
      session := session.(archive := session.archive + RowsOf(session.trades, toInsert));
      if |toInsert| + |already| != |ids| {
        return CountMismatch;
      }
      session := session.(trades := session.trades - set i | 0 <= i < |ids| :: ids[i]);
      tables := session;
      return Purged(|ids|);
    }

    // The query of a pass; the order of the rows is the database's own.
    method SelectTrades(f: Facts, cutoff: int, attributed: bool) returns (ids: seq<TradeId>)
      ensures Selects(ids, tables.trades, f, cutoff, attributed)
      ensures forall id :: id in ids <==>
        && id in tables.trades && tables.trades[id].ts < cutoff && tables.trades[id].market in f.resolved
        && (if attributed then tables.trades[id].wallet.Some? && tables.trades[id].wallet.value in f.scored
            else tables.trades[id].wallet.None?)
      ensures AllIn(ids, tables.trades)
    {
      ids := [];
      var todo := tables.trades.Keys;
      while todo != {}
        invariant todo <= tables.trades.Keys && Distinct(ids)
        invariant forall id :: id in ids <==> id in tables.trades && id !in todo && Matches(tables.trades[id], f, cutoff, attributed)
        decreases todo
      {
        var id :| id in todo;
        todo := todo - {id};
        if Matches(tables.trades[id], f, cutoff, attributed) {
          ids := ids + [id];
        }
      }
      assert forall i :: 0 <= i < |ids| ==> ids[i] in ids;
    }

    // The two passes, each with its own query in its own transaction; an abort of the first prevents the
    // second.
    method PurgeOldTrades(f: Facts, cutoff: int) returns (r: Result)
      requires Keyed(tables)
      modifies this
      ensures r.Purged? ==> r.count == |old(tables).trades| - |tables.trades|
      ensures forall id :: Moved(old(tables), tables, f, cutoff, id)
      // What a finished purge leaves is recent, or unresolved, or a trade of a wallet that is not scored.
      ensures r.Purged? ==> forall id :: id in tables.trades ==>
        var t := tables.trades[id];
        t.ts >= cutoff || t.market !in f.resolved || (t.wallet.Some? && t.wallet.value !in f.scored)
    {
      ghost var t0 := tables;
      var first := SelectTrades(f, cutoff, false);
      r := ArchiveThenDelete(first);
      if r.CountMismatch? {
        assert forall id :: Moved(t0, tables, f, cutoff, id);
        return;
      }
      ghost var t1 := tables;
      APassMoves(t0, first, f, cutoff, false);
      var second := SelectTrades(f, cutoff, true);
      var r2 := ArchiveThenDelete(second);
      if r2.CountMismatch? {
        return r2;
      }
      APassMoves(t1, second, f, cutoff, true);
      TwoPassesMove(t0, t1, tables, first, second, f, cutoff);
      r := Purged(r.count + r2.count);
    }
  }

  predicate Matches(t: Trade, f: Facts, cutoff: int, attributed: bool) {
    if attributed then SecondPass(t, f, cutoff) else FirstPass(t, f, cutoff)
  }

  // The ids a pass's query returns: every matching row once, in any order.
  ghost predicate Selects(ids: seq<TradeId>, trades: map<TradeId, Trade>, f: Facts, cutoff: int, attributed: bool) {
    Returns(ids, trades, t => Matches(t, f, cutoff, attributed))
  }

  lemma SizeAfterPass(before: set<TradeId>, after: set<TradeId>, ids: seq<TradeId>)
    requires Distinct(ids) && forall id :: id in after <==> id in before && id !in ids
    requires forall id :: id in ids ==> id in before
    ensures |before| == |after| + |ids|
  {
    SizeOfDistinct(ids);
    var gone := set id | id in ids;
    assert before == after + gone && after !! gone;
  }

  // What one pass that goes through does.
  lemma APassMoves(t: Tables, ids: seq<TradeId>, f: Facts, cutoff: int, attributed: bool)
    requires Keyed(t) && AllIn(ids, t.trades) && Pass(t, ids).Some? && Selects(ids, t.trades, f, cutoff, attributed)
    ensures var r := Pass(t, ids).value;
      && Keyed(r) && |t.trades| == |r.trades| + |ids|
      && (forall id :: PassFacts(t, r, ids, id) && Moved(t, r, f, cutoff, id))
      && (forall id :: id in r.trades ==> !Matches(r.trades[id], f, cutoff, attributed))
  {
    var r := Pass(t, ids).value;
    forall id
      ensures PassFacts(t, r, ids, id) && Moved(t, r, f, cutoff, id)
    {
      PassConservesTrades(t, ids, id);
    }
    hide Pass, Moved, Copies;
    assert forall id :: id in r.trades ==> PassFacts(t, r, ids, id);
    assert forall id :: id in t.trades ==> PassFacts(t, r, ids, id);
    assert forall id :: id in ids ==> PassFacts(t, r, ids, id);
    SizeAfterPass(t.trades.Keys, r.trades.Keys, ids);
    assert |t.trades| == |t.trades.Keys| && |r.trades| == |r.trades.Keys|;
  }

  lemma TwoPassesMove(t0: Tables, t1: Tables, t2: Tables, first: seq<TradeId>, second: seq<TradeId>, f: Facts, cutoff: int)
    requires forall id :: PassFacts(t0, t1, first, id) && Moved(t0, t1, f, cutoff, id)
    requires forall id :: PassFacts(t1, t2, second, id) && Moved(t1, t2, f, cutoff, id)
    ensures forall id :: Moved(t0, t2, f, cutoff, id)
    ensures forall id :: id in t2.trades ==> id in t1.trades && t2.trades[id] == t1.trades[id]
  {
    forall id
      ensures Moved(t0, t2, f, cutoff, id)
      ensures id in t2.trades ==> id in t1.trades && t2.trades[id] == t1.trades[id]
    {
      assert PassFacts(t0, t1, first, id) && Moved(t0, t1, f, cutoff, id);
      assert PassFacts(t1, t2, second, id) && Moved(t1, t2, f, cutoff, id);
    }
  }

  // What leaves the live table is old, belongs to a resolved market, has no wallet or a scored one, and is
  // archived once, as it was unless an older copy was there; the rest stays as it was, and nothing leaves
  // the archive.
  predicate Moved(t: Tables, r: Tables, f: Facts, cutoff: int, id: TradeId) {
    && (id in r.trades ==> id in t.trades && r.trades[id] == t.trades[id])
    && (id in t.trades && id !in r.trades ==>
          && t.trades[id].ts < cutoff && t.trades[id].market in f.resolved
          && (t.trades[id].wallet.None? || t.trades[id].wallet.value in f.scored)
          && Copies(r.archive, id) == 1 && (Copies(t.archive, id) == 0 ==> t.trades[id] in r.archive))
    && (Copies(t.archive, id) > 0 ==> Copies(r.archive, id) > 0)
  }

  // What one pass does to one id.
  predicate PassFacts(t: Tables, r: Tables, ids: seq<TradeId>, id: TradeId) {
    && (id in ids ==> id in t.trades)
    && (id in r.trades <==> id in t.trades && id !in ids)
    && (id in r.trades ==> r.trades[id] == t.trades[id])
    && Copies(r.archive, id) == (if id in ids then 1 else Copies(t.archive, id))
    && t.archive <= r.archive && (id in ids && Copies(t.archive, id) == 0 ==> t.trades[id] in r.archive)
  }

  // ------------------------------------------------------------------ over any sequence of purges

  datatype Step =
    | Arrive(trade: Trade)
    | ResolveMarket(market: MarketId)
    | ScoreWallet(wallet: string)
    | PurgePass(ids: seq<TradeId>, cutoff: int)

  datatype World = World(tables: Tables, facts: Facts)

  // A step that can happen: new trades have new ids, and a pass takes only what its query returns.
  ghost predicate Happens(w: World, s: Step) {
    match s
    case Arrive(trade) => trade.id !in w.tables.trades && Copies(w.tables.archive, trade.id) == 0 && IsDate(trade.date)
    case PurgePass(ids, cutoff) =>
      || Returns(ids, w.tables.trades, t => FirstPass(t, w.facts, cutoff))
      || Returns(ids, w.tables.trades, t => SecondPass(t, w.facts, cutoff))
    case _ => true
  }

  ghost function Next(w: World, s: Step): World
    requires Happens(w, s)
  {
    match s
    case Arrive(trade) => w.(tables := w.tables.(trades := w.tables.trades[trade.id := trade]))
    case ResolveMarket(market) => w.(facts := w.facts.(resolved := w.facts.resolved + {market}))
    case ScoreWallet(wallet) => w.(facts := w.facts.(scored := w.facts.scored + {wallet}))
    case PurgePass(ids, _) =>
      assert AllIn(ids, w.tables.trades) by {
        assert forall i :: 0 <= i < |ids| ==> ids[i] in ids;
      }
      var r := Pass(w.tables, ids);
      if r.Some? then w.(tables := r.value) else w
  }

  ghost predicate IsHistory(ws: seq<World>, steps: seq<Step>) {
    && |ws| == |steps| + 1 && Keyed(ws[0].tables)
    && forall i :: 0 <= i < |steps| ==> Happens(ws[i], steps[i]) && ws[i + 1] == Next(ws[i], steps[i])
  }

  lemma StepKeepsTrades(w: World, s: Step, id: TradeId)
    requires Keyed(w.tables) && Happens(w, s)
    ensures var v := Next(w, s);
      && Keyed(v.tables) && w.facts.resolved <= v.facts.resolved && w.facts.scored <= v.facts.scored
      && (id in w.tables.trades && id !in v.tables.trades ==>
            && s.PurgePass? && w.tables.trades[id].ts < s.cutoff && w.tables.trades[id].market in w.facts.resolved
            && (w.tables.trades[id].wallet.None? || w.tables.trades[id].wallet.value in w.facts.scored)
            && Copies(v.tables.archive, id) == 1)
      && (id in w.tables.trades && id in v.tables.trades ==> v.tables.trades[id] == w.tables.trades[id])
      && (Copies(w.tables.archive, id) > 0 ==> Copies(v.tables.archive, id) > 0)
  {
    if s.PurgePass? {
      assert AllIn(s.ids, w.tables.trades) by {
        assert forall i :: 0 <= i < |s.ids| ==> s.ids[i] in s.ids;
      }
      if Pass(w.tables, s.ids).Some? {
        PassConservesTrades(w.tables, s.ids, id);
        forall k | k in Next(w, s).tables.trades
          ensures Next(w, s).tables.trades[k] == w.tables.trades[k]
        {
          PassConservesTrades(w.tables, s.ids, k);
        }
      }
    }
  }

  // Over any history no trade is lost; and as long as its market is unresolved, or its wallet is not scored,
  // or no purge has reached its time, it stays in the live table, unchanged.
  predicate NotReached(steps: seq<Step>, ts: int) {
    forall i :: 0 <= i < |steps| && steps[i].PurgePass? ==> ts >= steps[i].cutoff
  }

  lemma {:induction false} PurgesNeverLoseATrade(ws: seq<World>, steps: seq<Step>, id: TradeId)
    requires IsHistory(ws, steps) && id in ws[0].tables.trades
    ensures var last := ws[|steps|];
      && Keyed(last.tables)
      && (id in last.tables.trades || Copies(last.tables.archive, id) > 0)
      && (ws[0].tables.trades[id].market !in last.facts.resolved
          || (ws[0].tables.trades[id].wallet.Some? && ws[0].tables.trades[id].wallet.value !in last.facts.scored)
          || NotReached(steps, ws[0].tables.trades[id].ts) ==>
            id in last.tables.trades && last.tables.trades[id] == ws[0].tables.trades[id])
      && (id in last.tables.trades && Copies(last.tables.archive, id) == 0 ==>
            last.tables.trades[id] == ws[0].tables.trades[id])
  {
    if steps == [] {
    } else {
      var n := |steps| - 1;
      assert forall i :: 0 <= i < n ==> steps[..n][i] == steps[i] && ws[..|ws| - 1][i] == ws[i];
      assert ws[..|ws| - 1][n] == ws[n];
      assert IsHistory(ws[..|ws| - 1], steps[..n]);
      PurgesNeverLoseATrade(ws[..|ws| - 1], steps[..n], id);
      assert NotReached(steps, ws[0].tables.trades[id].ts) ==> NotReached(steps[..n], ws[0].tables.trades[id].ts);
      StepKeepsTrades(ws[n], steps[n], id);
    }
  }
}

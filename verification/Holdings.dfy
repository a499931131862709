/**
 What the poller, the live ingestor, the closers, the rebuild and the purge say about each other, over any
 sequence of polls with any windows and failures, captured trades, settlements, closes and purges.
 */
module Holdings {
  import opened Wrappers
  import opened Arithmetic
  import opened Ledger
  import opened LedgerRuns
  import opened Backfill
  import opened CostBasis
  import opened Pagination
  import opened Poller
  import opened PollerResume
  import opened RebuildPnl
  import Sums

  // What has been committed for the wallet: a trade that moved its records, a trade row that did not, or a
  // settlement or another closer of one asset.
  datatype Commit =
    | Traded(trade: Priced)
    | Listed(row: Raw)
    | ClosedOut(asset: string, event: Event)

  // The tables, and everything ever committed, purged since or not.
  datatype World = World(db: Db, log: seq<Commit>)

  function EventsOf(x: Commit, asset: string): seq<Event> {
    match x
    case Traded(t) => if t.asset == asset then [EventOf(t)] else []
    case Listed(_) => []
    case ClosedOut(a, e) => if a == asset then [e] else []
  }

  // The events of one asset, in the order they were committed.
  function History(log: seq<Commit>, asset: string): seq<Event> {
    if log == [] then [] else History(log[..|log| - 1], asset) + EventsOf(log[|log| - 1], asset)
  }

  function RowsOf(x: Commit): seq<Raw> {
    match x
    case Traded(t) => [t]
    case Listed(t) => [t]
    case ClosedOut(_, _) => []
  }

  // The trade rows ever committed.
  function TradesIn(log: seq<Commit>): seq<Raw> {
    if log == [] then []
    else TradesIn(log[..|log| - 1]) + RowsOf(log[|log| - 1])
  }

  function Logged(s: seq<Priced>): seq<Commit> {
    if s == [] then [] else Logged(s[..|s| - 1]) + [Traded(s[|s| - 1])]
  }

  lemma LogSnoc(log: seq<Commit>, x: Commit, asset: string)
    ensures History(log + [x], asset) == History(log, asset) + EventsOf(x, asset)
    ensures TradesIn(log + [x]) == TradesIn(log) + RowsOf(x)
  {
    assert (log + [x])[..|log|] == log;
  }

  lemma AppendLast<T>(a: seq<T>, b: seq<T>, x: T)
    ensures a + (b + [x]) == a + b + [x]
  {
  }

  lemma LoggedLast(s: seq<Priced>)
    requires s != []
    ensures var g, t := s[..|s| - 1], s[|s| - 1]; Logged(s) == Logged(g) + [Traded(t)] && RowsOf(Traded(t)) == [t] && s == g + [t]
  {
  }

  lemma {:induction false} LoggedTrades(log: seq<Commit>, s: seq<Priced>)
    ensures TradesIn(log + Logged(s)) == TradesIn(log) + s
  {
    if s == [] {
      assert log + [] == log;
    } else {
      var g, t := s[..|s| - 1], s[|s| - 1];
      hide *;
      LoggedTrades(log, g);
      LoggedLast(s);
      LogSnoc(log + Logged(g), Traded(t), t.asset);
      AppendLast(log, Logged(g), Traded(t));
      AppendLast(TradesIn(log), g, t);
    }
  }

  lemma IngestSnoc(h: seq<Event>, e: Event)
    ensures IngestAll(h + [e]) == Ingest(IngestAll(h), e)
  {
    assert (h + [e])[..|h|] == h;
  }

  // The wallet's records of an asset are what its history makes of them.
  predicate Follows(db: Db, log: seq<Commit>, asset: string) {
    LiveOf(db, asset) == IngestAll(History(log, asset))
  }

  lemma UpdateMovesOneAsset(db: Db, a: string, e: Event, asset: string)
    ensures LiveOf(Updated(db, a, e), asset) == if a == asset then Ingest(LiveOf(db, asset), e) else LiveOf(db, asset)
  {
    hide Ingest;
  }

  lemma CommitKeepsFollowing(db: Db, log: seq<Commit>, x: Commit, after: Db, asset: string)
    requires Follows(db, log, asset)
    requires match x
             case Traded(t) => LiveOf(after, asset) == LiveOf(Updated(db, t.asset, EventOf(t)), asset)
             case Listed(_) => LiveOf(after, asset) == LiveOf(db, asset)
             case ClosedOut(a, e) => LiveOf(after, asset) == LiveOf(Updated(db, a, e), asset)
    ensures Follows(after, log + [x], asset)
  {
    LogSnoc(log, x, asset);
    var h := History(log, asset);
    match x
    case Traded(t) =>
      UpdateMovesOneAsset(db, t.asset, EventOf(t), asset);
      IngestSnoc(h, EventOf(t));
      hide Ingest, IngestAll, LiveOf, Updated;
      assert h + [] == h;
    case Listed(_) =>
      assert h + [] == h;
    case ClosedOut(a, e) =>
      UpdateMovesOneAsset(db, a, e, asset);
      IngestSnoc(h, e);
      hide Ingest, IngestAll, LiveOf, Updated;
      assert h + [] == h;
  }

  lemma {:induction false} RecordingRunsTheLedger(db: Db, log: seq<Commit>, s: seq<Priced>, asset: string)
    requires Follows(db, log, asset)
    ensures Follows(RecordAll(db, s), log + Logged(s), asset)
  {
    if s == [] {
      assert log + [] == log;
    } else {
      hide *;
      var g, t := s[..|s| - 1], s[|s| - 1];
      RecordingRunsTheLedger(db, log, g, asset);
      RecordLast(db, s, asset);
      CommitKeepsFollowing(RecordAll(db, g), log + Logged(g), Traded(t), RecordAll(db, s), asset);
      LoggedLast(s);
      AppendLast(log, Logged(g), Traded(t));
    }
  }

  lemma RecordLast(db: Db, s: seq<Priced>, asset: string)
    requires s != []
    ensures var g, t := s[..|s| - 1], s[|s| - 1];
            LiveOf(RecordAll(db, s), asset) == LiveOf(Updated(RecordAll(db, g), t.asset, EventOf(t)), asset)
  {
    hide Ingest;
  }

  // ------------------------------------------------------------------ polls, captures, closers and purges

  datatype Step =
    | Polled(window: seq<Raw>, markets: Markets)
    | Captured(trade: Raw)
    | Closing(asset: string, event: Event)
    | Purged(cutoff: real)
    | Elsewhere

  predicate SameRecords(a: Db, b: Db) {
    a.positions == b.positions && a.basis == b.basis
  }

  // The live ingestor moves the records for a buy or a sell with a price and a size that are not zero.
  predicate Moves(t: Raw) {
    && t.price.Some? && t.price.value != 0.0 && t.size.Some? && t.size.value != 0.0
    && t.asset != "" && (t.side == BuySide || t.side == SellSide)
  }

  function CaptureCommit(t: Raw): Commit {
    if Moves(t) then Traded(t) else Listed(t)
  }

  // A poll commits what any failures leave of it. The live ingestor captures a trade without looking for
  // duplicates. A closer moves one asset's records. A purge takes live trades from before its cutoff.
  // Elsewhere, external ids come and go.
  ghost predicate Leads(w: World, step: Step, v: World) {
    match step
    case Polled(window, markets) =>
      exists k: nat, sells: nat ::
        var pending := Fresh(window, Keys(w.db.rows), markets);
        CommitsPrefix(w.db, pending, v.db, k, sells) && v.log == w.log + Logged(pending[..k])
    case Captured(t) =>
      && v.log == w.log + [CaptureCommit(t)] && v.db.rows == w.db.rows + [t]
      && SameRecords(v.db, if Moves(t) then Updated(w.db, t.asset, EventOf(t)) else w.db)
    case Closing(asset, e) => !IsTrade(e) && v.log == w.log + [ClosedOut(asset, e)] && v.db == Updated(w.db, asset, e)
    case Purged(cutoff) =>
      && v.log == w.log && SameRecords(v.db, w.db) && multiset(v.db.rows) <= multiset(w.db.rows)
      && forall t :: t in w.db.rows && t !in v.db.rows ==> Ts(t) < cutoff
    case Elsewhere => v.log == w.log && SameRecords(v.db, w.db) && v.db.rows == w.db.rows
  }

  ghost predicate IsHistory(ws: seq<World>, steps: seq<Step>) {
    && |ws| == |steps| + 1
    && ws[0].log == [] && ws[0].db.rows == [] && ws[0].db.positions == map[] && ws[0].db.basis == map[]
    && forall i :: 0 <= i < |steps| ==> Leads(ws[i], steps[i], ws[i + 1])
  }

  lemma HistoryBefore(ws: seq<World>, steps: seq<Step>)
    requires IsHistory(ws, steps) && steps != []
    ensures IsHistory(ws[..|steps|], steps[..|steps| - 1])
    ensures Leads(ws[|steps| - 1], steps[|steps| - 1], ws[|steps|])
  {
    hide Leads;
    var n := |steps| - 1;
    assert forall i :: 0 <= i < n ==> steps[..n][i] == steps[i];
    assert forall i :: 0 <= i <= n ==> ws[..n + 1][i] == ws[i];
  }

  lemma StepKeepsFollowing(w: World, step: Step, v: World, asset: string)
    requires Leads(w, step, v) && Follows(w.db, w.log, asset)
    ensures Follows(v.db, v.log, asset)
  {
    match step
    case Polled(window, markets) =>
      var pending := Fresh(window, Keys(w.db.rows), markets);
      var k: nat, sells: nat :| CommitsPrefix(w.db, pending, v.db, k, sells) && v.log == w.log + Logged(pending[..k]);
      RecordingRunsTheLedger(w.db, w.log, pending[..k], asset);
    case Captured(t) => CommitKeepsFollowing(w.db, w.log, CaptureCommit(t), v.db, asset);
    case Closing(a, e) => CommitKeepsFollowing(w.db, w.log, ClosedOut(a, e), v.db, asset);
    case _ =>
      assert SameRecords(v.db, w.db);
  }

  // Whatever crashed, was fetched again, captured twice, settled, closed or purged: the records are the
  // ledger run over the log.
  lemma {:induction false} RecordsFollowTheLog(ws: seq<World>, steps: seq<Step>, asset: string)
    requires IsHistory(ws, steps)
    ensures LiveOf(ws[|steps|].db, asset) == IngestAll(History(ws[|steps|].log, asset))
  {
    if steps == [] {
    } else {
      var n := |steps| - 1;
      HistoryBefore(ws, steps);
      RecordsFollowTheLog(ws[..n + 1], steps[..n], asset);
      assert ws[..n + 1][n] == ws[n];
      StepKeepsFollowing(ws[n], steps[n], ws[n + 1], asset);
      hide Leads, IngestAll, History, LiveOf;
    }
  }

  predicate NothingPurged(steps: seq<Step>) {
    forall i :: 0 <= i < |steps| ==> !steps[i].Purged?
  }

  // The live trades are trades that were committed, each as often; and without a purge they are all of them,
  // in the order they were committed.
  lemma {:induction false} LiveTradesWereCommitted(ws: seq<World>, steps: seq<Step>)
    requires IsHistory(ws, steps)
    ensures multiset(ws[|steps|].db.rows) <= multiset(TradesIn(ws[|steps|].log))
    ensures NothingPurged(steps) ==> ws[|steps|].db.rows == TradesIn(ws[|steps|].log)
  {
    if steps == [] {
    } else {
      var n := |steps| - 1;
      HistoryBefore(ws, steps);
      LiveTradesWereCommitted(ws[..n + 1], steps[..n]);
      assert ws[..n + 1][n] == ws[n];
      StepKeepsTradesIn(ws[n], steps[n], ws[n + 1], NothingPurged(steps[..n]));
      hide Leads, TradesIn;
    }
  }

  // What the live table holds of everything that was committed.
  predicate HoldsOf(rows: seq<Raw>, committed: seq<Raw>, all: bool) {
    multiset(rows) <= multiset(committed) && (all ==> rows == committed)
  }

  lemma HoldsOfMore(rows: seq<Raw>, committed: seq<Raw>, all: bool, more: seq<Raw>)
    requires HoldsOf(rows, committed, all)
    ensures HoldsOf(rows + more, committed + more, all)
  {
  }

  lemma StepKeepsTradesIn(w: World, step: Step, v: World, all: bool)
    requires Leads(w, step, v) && HoldsOf(w.db.rows, TradesIn(w.log), all)
    ensures HoldsOf(v.db.rows, TradesIn(v.log), all && !step.Purged?)
  {
    match step
    case Polled(window, markets) => PollKeepsTradesIn(w, step, v, all);
    case Captured(t) => CaptureKeepsTradesIn(w, t, v, all);
    case Closing(asset, e) => ClosingKeepsTradesIn(w, asset, e, v);
    case _ =>
  }

  lemma PollKeepsTradesIn(w: World, step: Step, v: World, all: bool)
    requires step.Polled? && Leads(w, step, v) && HoldsOf(w.db.rows, TradesIn(w.log), all)
    ensures HoldsOf(v.db.rows, TradesIn(v.log), all)
  {
    var pending := Fresh(step.window, Keys(w.db.rows), step.markets);
    var k: nat, sells: nat :| CommitsPrefix(w.db, pending, v.db, k, sells) && v.log == w.log + Logged(pending[..k]);
    RecordAllAddsRows(w.db, pending[..k]);
    LoggedTrades(w.log, pending[..k]);
    HoldsOfMore(w.db.rows, TradesIn(w.log), all, pending[..k]);
    hide TradesIn, Logged, Fresh, RecordAll, HoldsOf;
  }

  lemma CaptureKeepsTradesIn(w: World, t: Raw, v: World, all: bool)
    requires Leads(w, Captured(t), v) && HoldsOf(w.db.rows, TradesIn(w.log), all)
    ensures HoldsOf(v.db.rows, TradesIn(v.log), all)
  {
    LogSnoc(w.log, CaptureCommit(t), "");
    HoldsOfMore(w.db.rows, TradesIn(w.log), all, [t]);
    hide TradesIn, HoldsOf, Updated, EventOf, History, EventsOf;
  }

  lemma ClosingKeepsTradesIn(w: World, asset: string, e: Event, v: World)
    requires Leads(w, Closing(asset, e), v)
    ensures v.db.rows == w.db.rows && TradesIn(v.log) == TradesIn(w.log)
  {
    LogSnoc(w.log, ClosedOut(asset, e), "");
    assert TradesIn(w.log) + [] == TradesIn(w.log);
    hide TradesIn, History, EventsOf;
  }

  // ------------------------------------------------------------------ each key once

  // No poll looks back behind an earlier purge, nor into the skew of its cutoff.
  predicate LooksBackNoFurther(steps: seq<Step>, skew: real) {
    forall i, j, t :: 0 <= i < j < |steps| && steps[i].Purged? && steps[j].Polled? && t in steps[j].window ==>
      Ts(t) >= steps[i].cutoff + skew
  }

  // A fill that is delivered again carries the time it was committed with, up to a skew.
  predicate StampsAgree(ws: seq<World>, steps: seq<Step>, skew: real)
    requires |ws| > |steps|
  {
    forall i, t, r :: 0 <= i < |steps| && steps[i].Polled? && t in steps[i].window && r in TradesIn(ws[i].log) && KeyOf(r) == KeyOf(t) ==>
      Ts(t) <= Ts(r) + skew
  }

  // The live ingestor captures only trades that have not been committed yet.
  predicate CapturesAreNew(ws: seq<World>, steps: seq<Step>)
    requires |ws| > |steps|
  {
    forall i :: 0 <= i < |steps| && steps[i].Captured? ==> KeyOf(steps[i].trade) !in Keys(TradesIn(ws[i].log))
  }

  // A trade of the log that is no longer live lies before some purge.
  predicate PurgedEarlier(w: World, steps: seq<Step>) {
    forall r :: r in TradesIn(w.log) && r !in w.db.rows ==> exists i :: 0 <= i < |steps| && BeforeCutoff(steps[i], r)
  }

  predicate BeforeCutoff(step: Step, r: Raw) {
    step.Purged? && Ts(r) < step.cutoff
  }

  lemma {:induction false} FreshComesFromTheWindow(window: seq<Raw>, seen: set<TradeKey>, markets: Markets, t: Raw)
    requires t in Fresh(window, seen, markets)
    ensures t in window && Accepted(t, markets) && KeyOf(t) !in seen
  {
    var g := window[..|window| - 1];
    if t in Fresh(g, seen, markets) {
      FreshComesFromTheWindow(g, seen, markets, t);
    }
  }

  lemma {:induction false} KeysComeFromRows(s: seq<Raw>, k: TradeKey) returns (r: Raw)
    requires k in Keys(s)
    ensures r in s && KeyOf(r) == k
  {
    if KeyOf(s[|s| - 1]) == k {
      r := s[|s| - 1];
    } else {
      r := KeysComeFromRows(s[..|s| - 1], k);
    }
  }

  lemma RowsHaveKeys(s: seq<Raw>, r: Raw)
    requires r in s
    ensures KeyOf(r) in Keys(s)
  {
    var i :| 0 <= i < |s| && s[i] == r;
    KeysAreExact(s, i);
  }

  // Appending trades with different keys keeps the keys different exactly when they are all new.
  lemma DistinctExactlyWhenNew(log: seq<Raw>, more: seq<Raw>)
    requires DistinctKeys(log) && DistinctKeys(more)
    ensures DistinctKeys(log + more) <==> Keys(more) !! Keys(log)
  {
    var all := log + more;
    if Keys(more) !! Keys(log) {
      forall i, j | 0 <= i < |log| && 0 <= j < |more|
        ensures KeyOf(log[i]) != KeyOf(more[j])
      {
        KeysAreExact(log, i);
        KeysAreExact(more, j);
      }
    } else {
      var k :| k in Keys(more) && k in Keys(log);
      var r := KeysComeFromRows(log, k);
      var t := KeysComeFromRows(more, k);
      var i :| 0 <= i < |log| && log[i] == r;
      var j :| 0 <= j < |more| && more[j] == t;
      assert KeyOf(all[i]) == KeyOf(all[|log| + j]);
    }
  }

  lemma FreshPrefixIsDistinct(window: seq<Raw>, seen: set<TradeKey>, markets: Markets, k: nat)
    requires k <= |Fresh(window, seen, markets)|
    ensures DistinctKeys(Fresh(window, seen, markets)[..k])
  {
    FreshKeysAreNew(window, seen, markets);
  }

  // As long as no poll looks back behind a purge and no capture repeats a trade, no (transaction, asset) is
  // ever committed twice.
  lemma {:induction false} KeysStayUnique(ws: seq<World>, steps: seq<Step>, skew: real)
    requires IsHistory(ws, steps) && LooksBackNoFurther(steps, skew) && StampsAgree(ws, steps, skew) && CapturesAreNew(ws, steps)
    ensures DistinctKeys(TradesIn(ws[|steps|].log)) && PurgedEarlier(ws[|steps|], steps)
  {
    if steps == [] {
    } else {
      var n := |steps| - 1;
      HistoryBefore(ws, steps);
      LooksBefore(ws, steps, skew);
      hide *;
      KeysStayUnique(ws[..n + 1], steps[..n], skew);
      StepKeepsKeysUnique(ws[n], steps[..n], steps[n], ws[n + 1], skew);
    }
  }

  // What the conditions say of the next step alone.
  predicate QuietStep(w: World, g: seq<Step>, step: Step, skew: real) {
    && (forall i, t :: 0 <= i < |g| && g[i].Purged? && step.Polled? && t in step.window ==> Ts(t) >= g[i].cutoff + skew)
    && (forall t, r :: step.Polled? && t in step.window && r in TradesIn(w.log) && KeyOf(r) == KeyOf(t) ==> Ts(t) <= Ts(r) + skew)
    && (step.Captured? ==> KeyOf(step.trade) !in Keys(TradesIn(w.log)))
  }

  lemma LooksBefore(ws: seq<World>, steps: seq<Step>, skew: real)
    requires steps != [] && |ws| == |steps| + 1
    requires LooksBackNoFurther(steps, skew) && StampsAgree(ws, steps, skew) && CapturesAreNew(ws, steps)
    ensures var n := |steps| - 1;
      && LooksBackNoFurther(steps[..n], skew) && StampsAgree(ws[..n + 1], steps[..n], skew) && CapturesAreNew(ws[..n + 1], steps[..n])
      && QuietStep(ws[n], steps[..n], steps[n], skew)
      && steps == steps[..n] + [steps[n]] && ws[..n + 1][n] == ws[n]
  {
    var n := |steps| - 1;
    assert forall i :: 0 <= i < n ==> steps[..n][i] == steps[i] && ws[..n + 1][i] == ws[i];
  }

  lemma StepKeepsKeysUnique(w: World, g: seq<Step>, step: Step, v: World, skew: real)
    requires Leads(w, step, v) && DistinctKeys(TradesIn(w.log)) && PurgedEarlier(w, g) && QuietStep(w, g, step, skew)
    ensures DistinctKeys(TradesIn(v.log)) && PurgedEarlier(v, g + [step])
  {
    match step
    case Polled(window, markets) => PollKeepsKeysUnique(w, g, step, v, skew);
    case Captured(t) =>
      LogSnoc(w.log, CaptureCommit(t), "");
      OneKey(t);
      DistinctExactlyWhenNew(TradesIn(w.log), [t]);
      PurgesGoOn(w, g, step, v);
    case Closing(asset, e) =>
      LogSnoc(w.log, ClosedOut(asset, e), "");
      assert TradesIn(w.log) + [] == TradesIn(w.log);
      PurgesGoOn(w, g, step, v);
    case _ =>
      PurgesGoOn(w, g, step, v);
  }

  lemma OneKey(t: Raw)
    ensures Keys([t]) == {KeyOf(t)} && DistinctKeys([t])
  {
    assert [t][..0] == [];
  }

  lemma PollKeepsKeysUnique(w: World, g: seq<Step>, step: Step, v: World, skew: real)
    requires step.Polled? && Leads(w, step, v) && DistinctKeys(TradesIn(w.log)) && PurgedEarlier(w, g) && QuietStep(w, g, step, skew)
    ensures DistinctKeys(TradesIn(v.log)) && PurgedEarlier(v, g + [step])
  {
    var seen := Keys(w.db.rows);
    var pending := Fresh(step.window, seen, step.markets);
    var k: nat, sells: nat :| CommitsPrefix(w.db, pending, v.db, k, sells) && v.log == w.log + Logged(pending[..k]);
    var more := pending[..k];
    RecordAllAddsRows(w.db, more);
    LoggedTrades(w.log, more);
    FreshPrefixIsDistinct(step.window, seen, step.markets, k);
    forall key | key in Keys(more)
      ensures key !in Keys(TradesIn(w.log))
    {
      var t := KeysComeFromRows(more, key);
      FreshComesFromTheWindow(step.window, seen, step.markets, t);
      ANewKey(w, g, t, skew);
    }
    DistinctExactlyWhenNew(TradesIn(w.log), more);
    PurgesGoOn(w, g, step, v);
  }

  // A trade whose key is not live, and which is not older than any purge, has not been committed before.
  lemma ANewKey(w: World, g: seq<Step>, t: Raw, skew: real)
    requires PurgedEarlier(w, g) && KeyOf(t) !in Keys(w.db.rows)
    requires forall i :: 0 <= i < |g| && g[i].Purged? ==> Ts(t) >= g[i].cutoff + skew
    requires forall r :: r in TradesIn(w.log) && KeyOf(r) == KeyOf(t) ==> Ts(t) <= Ts(r) + skew
    ensures KeyOf(t) !in Keys(TradesIn(w.log))
  {
    hide Keys;
    if KeyOf(t) in Keys(TradesIn(w.log)) {
      var r := KeysComeFromRows(TradesIn(w.log), KeyOf(t));
      if r in w.db.rows {
        RowsHaveKeys(w.db.rows, r);
      }
    }
  }

  lemma PurgesGoOn(w: World, g: seq<Step>, step: Step, v: World)
    requires PurgedEarlier(w, g)
    requires forall r :: r in TradesIn(v.log) && r !in v.db.rows ==> (r in TradesIn(w.log) && r !in w.db.rows) || BeforeCutoff(step, r)
    ensures PurgedEarlier(v, g + [step])
  {
    hide TradesIn;
    forall r | r in TradesIn(v.log) && r !in v.db.rows
      ensures exists i :: 0 <= i < |g + [step]| && BeforeCutoff((g + [step])[i], r)
    {
      if r in TradesIn(w.log) && r !in w.db.rows {
        var i :| 0 <= i < |g| && BeforeCutoff(g[i], r);
        assert BeforeCutoff((g + [step])[i], r);
      } else {
        assert BeforeCutoff((g + [step])[|g|], r);
      }
    }
  }

  // The exact condition for a capture, which looks for no duplicate: the trade is new.
  lemma CapturesRepeatExactly(log: seq<Raw>, t: Raw)
    requires DistinctKeys(log)
    ensures DistinctKeys(log + [t]) <==> KeyOf(t) !in Keys(log)
  {
    OneKey(t);
    DistinctExactlyWhenNew(log, [t]);
  }

  // The exact condition for one run that commits its whole window: no acceptable trade of the window has
  // the key of a trade that has been purged.
  lemma PurgedTradesComeBack(w: World, window: seq<Raw>, markets: Markets)
    requires DistinctKeys(TradesIn(w.log))
    ensures DistinctKeys(TradesIn(w.log) + Fresh(window, Keys(w.db.rows), markets))
      <==> forall t :: t in window && Accepted(t, markets) ==> KeyOf(t) !in Keys(TradesIn(w.log)) - Keys(w.db.rows)
  {
    var seen := Keys(w.db.rows);
    var pending := Fresh(window, seen, markets);
    FreshKeysAreNew(window, seen, markets);
    DistinctExactlyWhenNew(TradesIn(w.log), pending);
    if Keys(pending) !! Keys(TradesIn(w.log)) {
      forall t | t in window && Accepted(t, markets)
        ensures KeyOf(t) !in Keys(TradesIn(w.log)) - seen
      {
        var i :| 0 <= i < |window| && window[i] == t;
        CompleteRunsCaptureTheWindow(window, seen, markets, i);
      }
    } else {
      var key :| key in Keys(pending) && key in Keys(TradesIn(w.log));
      var t := KeysComeFromRows(pending, key);
      FreshComesFromTheWindow(window, seen, markets, t);
    }
  }

  // A trade that is polled, purged and polled again counts twice.
  lemma PolledAgainAfterThePurge()
    ensures var t := Raw("0x1", "a", "w", BuySide, Some(0.5), Some(10.0), Some(5.0));
            var m: Markets := {"a"};
            var once := RecordAll(Db([], {}, map[], map[]), Fresh([t], {}, m));
            var again := RecordAll(once.(rows := [], externalIds := {}), Fresh([t], {}, m));
            BoughtIn(Entry(once.positions, "a")) == 10.0 && BoughtIn(Entry(again.positions, "a")) == 20.0
  {
    var t: Priced := Raw("0x1", "a", "w", BuySide, Some(0.5), Some(10.0), Some(5.0));
    var m: Markets := {"a"};
    assert [t][..0] == [];
    assert Fresh([t], {}, m) == [t];
    forall db: Db
      ensures RecordAll(db, [t]) == Record(db, t)
    {
      assert RecordAll(db, [t][..0]) == db;
    }
  }

  // ------------------------------------------------------------------ what the records are worth

  // With positive sizes every row is sound and obeys the law of the live row; until its records part it is
  // the ledger run; and its bought shares are those bought exactly while none is disposed of twice.
  lemma RecordsAreSoundAndPaid(ws: seq<World>, steps: seq<Step>, asset: string)
    requires IsHistory(ws, steps) && PositiveSizes(History(ws[|steps|].log, asset))
    ensures var row, h := Entry(ws[|steps|].db.positions, asset), History(ws[|steps|].log, asset);
      && Sound(row)
      && Pnl(row) == LiveCash(h) + BookValue(row) + LiveUnmatched(h) + LiveGaps(h)
      && (NeverParts(h) ==> row == Run(RecordedAll(h)) && LiveGaps(h) == 0.0)
      && (BoughtIn(row) == Sums.SumBy(h, BuySize()) <==> NeverInflates(h))
  {
    var row, h := Entry(ws[|steps|].db.positions, asset), History(ws[|steps|].log, asset);
    RecordsFollowTheLog(ws, steps, asset);
    assert row == IngestAll(h).row;
    hide IngestAll, History, Entry, IsHistory, Run, NeverParts, NeverInflates, Sound, PositiveSizes, RecordedAll;
    IngestIsSound(h);
    LivePnlIsCashFlow(h);
    BoughtIsWhatWasBoughtExactly(h);
    if NeverParts(h) {
      LiveRowIsTheLedgers(h);
      NoGapsUntilParted(h);
    }
  }

  // Without closers and with positive prices, realized PnL is the cash of the shares that were held.
  lemma PolledPnlIsTheCashOfHeldShares(ws: seq<World>, steps: seq<Step>, asset: string)
    requires IsHistory(ws, steps)
    requires var h := History(ws[|steps|].log, asset); TradesOnly(h) && PositivePrices(h) && NeverParts(h)
    ensures var row, h := Entry(ws[|steps|].db.positions, asset), History(ws[|steps|].log, asset);
            Pnl(row) == HeldCash(h) + BookValue(row)
  {
    RecordsFollowTheLog(ws, steps, asset);
    LivePnlIsTheCashOfHeldShares(History(ws[|steps|].log, asset));
    hide IngestAll, History, IsHistory, NeverParts;
  }

  // The rebuild reads the live trades in the order of their times, and the rows of the ingest in any order.
  // When none of the asset's trades has been purged and both orders are clean, it writes the shares and the
  // status of the live row; and when the trades came in the order of their times, its PnL as well.
  lemma RebuildAgreesWithThePolls(ws: seq<World>, steps: seq<Step>, asset: string, byTime: seq<Event>, queue: seq<ClosedRow>)
    requires IsHistory(ws, steps)
    requires var h := History(ws[|steps|].log, asset);
      && multiset(byTime) == multiset(h) && TradesOnly(h) && TradesOnly(byTime)
      && CleanThroughout(h, queue) && CleanThroughout(byTime, queue)
    ensures var h := History(ws[|steps|].log, asset);
      var row, rebuilt := Entry(ws[|steps|].db.positions, asset), RebuiltRow(ReplayAll(byTime, queue), queue, []);
      && SameShares(row, rebuilt)
      && (byTime == h && PositivePrices(h) && multiset(queue) == multiset(OwnQueue(h)) ==> Pnl(row) == Pnl(rebuilt))
  {
    var h := History(ws[|steps|].log, asset);
    RecordsFollowTheLog(ws, steps, asset);
    assert Entry(ws[|steps|].db.positions, asset) == IngestAll(h).row;
    RebuildAgrees(h, byTime, queue);
  }

  predicate SameShares(a: Option<Position>, b: Option<Position>) {
    && (a.Some? <==> b.Some?)
    && (a.Some? ==>
          var p, q := a.value, b.value;
          p.bought == q.bought && p.sold == q.sold && p.remaining == q.remaining && p.status == q.status)
  }

  lemma RebuildAgrees(h: seq<Event>, byTime: seq<Event>, queue: seq<ClosedRow>)
    requires multiset(byTime) == multiset(h) && TradesOnly(h) && TradesOnly(byTime)
    requires CleanThroughout(h, queue) && CleanThroughout(byTime, queue)
    ensures var row, rebuilt := IngestAll(h).row, RebuiltRow(ReplayAll(byTime, queue), queue, []);
      && SameShares(row, rebuilt)
      && (byTime == h && PositivePrices(h) && multiset(queue) == multiset(OwnQueue(h)) ==> Pnl(row) == Pnl(rebuilt))
  {
    hide *;
    CleanRecordsTrack(h, queue);
    ArrivalOrderKeepsShares(h, byTime, queue);
    CleanHistoriesAreTight(byTime, queue);
    AgreesNow(byTime, queue);
    SharesThrough(Run(h), Run(byTime), RebuiltRow(ReplayAll(byTime, queue), queue, []));
    if byTime == h && PositivePrices(h) && multiset(queue) == multiset(OwnQueue(h)) {
      AnyOrderOfRowsRealizesTheLivePnl(h, queue);
      NoRowNoReplay(h, queue);
    }
  }

  lemma SharesThrough(a: Option<Position>, b: Option<Position>, c: Option<Position>)
    requires a.Some? <==> b.Some?
    requires a.Some? ==>
      a.value.bought == b.value.bought && a.value.sold == b.value.sold && a.value.remaining == b.value.remaining && a.value.status == b.value.status
    requires SameHoldings(b, c)
    ensures SameShares(a, c)
  {
  }

  lemma NoRowNoReplay(h: seq<Event>, queue: seq<ClosedRow>)
    requires TradesOnly(h) && CleanThroughout(h, queue)
    ensures var rebuilt := RebuiltRow(ReplayAll(h, queue), queue, []); Pnl(rebuilt) == ReplayAll(h, queue).pnl
  {
    if h == [] {
    } else {
      CleanHistoriesAreTight(h, queue);
      AgreesNow(h, queue);
      hide Run, ReplayAll, CleanThroughout, TradesOnly, AgreesThroughout;
    }
  }

  // After a final settlement of what the cost basis holds, the rebuild with the settlement's row agrees
  // again on shares and status, and on PnL under the same conditions.
  lemma RebuildAgreesAfterSettlement(g: seq<Event>, byTime: seq<Event>, queue: seq<ClosedRow>, settle: Event, row: ClosedRow)
    requires multiset(byTime) == multiset(g) && TradesOnly(g) && TradesOnly(byTime)
    requires CleanThroughout(g, queue) && CleanThroughout(byTime, queue)
    requires settle.Settle? && CostBasis.Recorded(IngestAll(g).basis)
    requires var b := IngestAll(g).basis.value;
             row == ClosedRow(settle.ts, Gain(settle.exit, b.avg, b.size), b.size)
    ensures var live, rebuilt := Ingest(IngestAll(g), settle).row, RebuiltRow(ReplayAll(byTime, queue), queue, [row]);
      && SameShares(live, rebuilt) && live.Some? && live.value.status == Ledger.Closed
      && rebuilt.value.closedAt == live.value.closedAt == Some(settle.ts)
      && (byTime == g && PositivePrices(g) && multiset(queue) == multiset(OwnQueue(g)) ==> Pnl(live) == Pnl(rebuilt))
  {
    RebuildAgrees(g, byTime, queue);
    CleanRecordsTrack(g, queue);
    CleanHistoriesAreTight(g, queue);
    CleanHistoriesAreTight(byTime, queue);
    EveryRunIsSound(g);
    Sums.SumByOne(row, SharesOf());
    Sums.SumByOne(row, Backfill.PnlOf());
    hide IngestAll, Run, ReplayAll, CleanThroughout, TradesOnly, AgreesThroughout, Sums.SumBy, PositivePrices, OwnQueue;
  }

  // From the server's list to the trade table: when the fetch was not truncated and no transaction
  // collides, an undisturbed run leaves no acceptable trade of the window uncaptured.
  lemma ListedTradesAreCaptured(before: Db, listed: seq<Raw>, fetched: seq<Raw>, cutoff: real, markets: Markets, t: Raw)
    requires multiset(Recent(listed, cutoff)) <= multiset(fetched)
    requires t in listed && Ts(t) >= cutoff && Accepted(t, markets)
    requires FreeTransactions(Fresh(FilterAndSortWindow(fetched, cutoff), Keys(before.rows), markets), before.externalIds)
    ensures KeyOf(t) in Keys(UndisturbedRun(before, FilterAndSortWindow(fetched, cutoff), markets).rows)
  {
    var window := FilterAndSortWindow(fetched, cutoff);
    var pending := Fresh(window, Keys(before.rows), markets);
    assert t in window by {
      UntruncatedWindowIsComplete(listed, fetched, cutoff);
      RecentIsFilter(listed, cutoff, t);
      assert t in multiset(listed) && t in multiset(Recent(listed, cutoff)) && t in multiset(window);
    }
    var i :| 0 <= i < |window| && window[i] == t;
    CompleteRunsCaptureTheWindow(window, Keys(before.rows), markets, i);
    WindowFinishesExactlyWhenTransactionsAreFree(before, window, markets);
    KeysOfAppend(before.rows, pending);
  }
}

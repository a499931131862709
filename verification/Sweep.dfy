/**
 The round-robin sweep over unresolved markets that are not yet due: each run checks the least recently
 checked ones and stamps them, so that no market of the sweep is left out for long.
 */
module Sweep {
  import opened Wrappers
  import opened Markets
  import opened Sequences

  type MarketId = string

  // Each of the two candidate queries returns at most this many markets.
  const LIMIT: nat := 50

  datatype Row = Row(market: Market, endDate: Option<int>, checkedAt: Option<int>)

  predicate IsDue(r: Row, now: int) {
    !r.market.resolved && r.endDate.Some? && r.endDate.value < now
  }

  predicate InSweep(r: Row, now: int) {
    !r.market.resolved && r.market.active && r.endDate.Some? && r.endDate.value >= now
  }

  // Checked no later, with markets that were never checked first.
  predicate NoLater(a: Option<int>, b: Option<int>) {
    a.None? || (b.Some? && a.value <= b.value)
  }

  function SweepSet(rows: map<MarketId, Row>, now: int): set<MarketId> {
    set id | id in rows && InSweep(rows[id], now)
  }

  // An unresolved market with an end is queried as due once it has ended, and in the sweep while it is active
  // and has not; a resolved market or one without an end is queried in neither way.
  lemma QueriesSplitTheUnresolved(rows: map<MarketId, Row>, id: MarketId, now: int)
    requires id in rows
    ensures var r := rows[id];
      && ((id in DueSet(rows, now) || id in SweepSet(rows, now)) <==>
            !r.market.resolved && r.endDate.Some? && (r.endDate.value < now || r.market.active))
      && (id in DueSet(rows, now) ==> r.endDate.value < now)
      && (id in SweepSet(rows, now) ==> now <= r.endDate.value)
  {
  }

  // ------------------------------------------------------------------ one run of the sync

  // A checked market is stamped, and resolved if the answer says so.
  function CheckRow(r: Row, answer: Option<Info>, now: int): Row {
    Row(Sync(r.market, answer), r.endDate, Some(now))
  }

  function AnswerFor(answers: map<MarketId, Info>, id: MarketId): Option<Info> {
    if id in answers then Some(answers[id]) else None
  }

  function DueSet(rows: map<MarketId, Row>, now: int): set<MarketId> {
    set id | id in rows && IsDue(rows[id], now)
  }

  function Limited(n: nat): nat {
    if n < LIMIT then n else LIMIT
  }

  // The due query: the markets that ended last, breaking ties in any way.
  predicate IsDueSelection(rows: map<MarketId, Row>, due: seq<MarketId>, now: int) {
    && Distinct(due) && |due| == Limited(|DueSet(rows, now)|)
    && (forall id :: id in due ==> id in DueSet(rows, now))
    && (forall a, b :: a in due && b in DueSet(rows, now) && b !in due ==> rows[b].endDate.value <= rows[a].endDate.value)
  }

  // The sweep query: the least recently checked markets, breaking ties in any way.
  predicate IsSweepSelection(rows: map<MarketId, Row>, swept: seq<MarketId>, now: int) {
    && Distinct(swept) && |swept| == Limited(|SweepSet(rows, now)|)
    && (forall id :: id in swept ==> id in SweepSet(rows, now))
    && (forall a, b :: a in swept && b in SweepSet(rows, now) && b !in swept ==> NoLater(rows[a].checkedAt, rows[b].checkedAt))
  }

  // Every candidate is stamped, whatever its answer; nothing else changes.
  predicate SyncedTo(rows: map<MarketId, Row>, after: map<MarketId, Row>, candidates: seq<MarketId>,
                     answers: map<MarketId, Info>, now: int)
  {
    && after.Keys == rows.Keys
    && forall id :: id in rows ==>
         after[id] == if id in candidates then CheckRow(rows[id], AnswerFor(answers, id), now) else rows[id]
  }

  // A candidate is stamped as checked, keeps its end, and takes the winner of its answer if it had none; without
  // an answer it keeps its market state.
  lemma ACandidateIsSyncedAndStamped(rows: map<MarketId, Row>, after: map<MarketId, Row>, candidates: seq<MarketId>,
                                     answers: map<MarketId, Info>, now: int, id: MarketId)
    requires SyncedTo(rows, after, candidates, answers, now) && id in candidates && id in rows
    ensures id in after && after[id].checkedAt == Some(now) && after[id].endDate == rows[id].endDate
    ensures id !in answers ==> after[id].market == rows[id].market
    ensures id in answers && answers[id].resolved && answers[id].resolution.Some? && answers[id].resolution.value != ""
            && !rows[id].market.resolved ==>
      var m := after[id].market; m.resolved && m.closed && !m.active && m.resolution == answers[id].resolution
  {
  }

  // No market is both due and in the sweep, so no market is a candidate twice.
  lemma CandidatesAreDistinct(rows: map<MarketId, Row>, due: seq<MarketId>, swept: seq<MarketId>, now: int)
    requires IsDueSelection(rows, due, now) && IsSweepSelection(rows, swept, now)
    ensures Distinct(due + swept)
  {
    forall i, j | 0 <= i < |due| && 0 <= j < |swept|
      ensures due[i] != swept[j]
    {
      assert due[i] in due && swept[j] in swept;
    }
  }

  class MarketTable {
    var rows: map<MarketId, Row>

    constructor (rows: map<MarketId, Row>)
      ensures this.rows == rows
    {
      this.rows := rows;
    }

    // `due` and `swept` are what the two queries return.
    method SyncResolvedMarkets(due: seq<MarketId>, swept: seq<MarketId>, answers: map<MarketId, Info>, now: int)
      returns (newlyResolved: seq<MarketId>)
      requires Distinct(due + swept)
      modifies this
      ensures SyncedTo(old(rows), rows, due + swept, answers, now)
      ensures forall id :: id in newlyResolved <==>
        id in due + swept && id in old(rows) && !old(rows)[id].market.resolved && rows[id].market.resolved
    {
      newlyResolved := [];
      var candidates := due + swept;
      for i := 0 to |candidates|
        invariant SyncedTo(old(rows), rows, candidates[..i], answers, now)
        invariant forall id :: id in newlyResolved <==>
          id in candidates[..i] && id in old(rows) && !old(rows)[id].market.resolved && rows[id].market.resolved
      {
        var id := candidates[i];
        assert id !in candidates[..i] && candidates[..i + 1] == candidates[..i] + [id];
        if id !in rows {
          continue;
        }
        var row := rows[id];
        var checked := CheckRow(row, AnswerFor(answers, id), now);
        if checked.market.resolved && !row.market.resolved {
          newlyResolved := newlyResolved + [id];
        }
        rows := rows[id := checked];
      }
      assert candidates[..|candidates|] == candidates;
    }
  }

  // ------------------------------------------------------------------ runs of the sync

  // One sync: the table before, what its queries returned, what the API answered, and the table after.
  datatype SyncRun = SyncRun(rows: map<MarketId, Row>, now: int, due: seq<MarketId>, swept: seq<MarketId>,
                             answers: map<MarketId, Info>, after: map<MarketId, Row>)

  predicate IsSync(r: SyncRun) {
    && IsDueSelection(r.rows, r.due, r.now) && IsSweepSelection(r.rows, r.swept, r.now)
    && SyncedTo(r.rows, r.after, r.due + r.swept, r.answers, r.now)
  }

  // Until the next sync, which is later, anything may happen to the markets, but no market joins the sweep
  // and nothing else stamps one as checked.
  predicate Meanwhile(r: SyncRun, s: SyncRun) {
    && r.now < s.now
    && forall id :: id in SweepSet(s.rows, s.now) ==>
         id in SweepSet(r.rows, r.now) && id in r.after && s.rows[id].checkedAt == r.after[id].checkedAt
  }

  predicate StampsArePast(r: SyncRun) {
    forall id :: id in SweepSet(r.rows, r.now) && r.rows[id].checkedAt.Some? ==> r.rows[id].checkedAt.value < r.now
  }

  ghost predicate IsSyncHistory(runs: seq<SyncRun>) {
    && (forall i :: 0 <= i < |runs| ==> IsSync(runs[i]))
    && (forall i :: 0 < i < |runs| ==> Meanwhile(runs[i - 1], runs[i]))
    && (runs != [] ==> StampsArePast(runs[0]))
  }

  // Of the sweep, a sync stamps the swept markets and no other.
  lemma ASyncStampsTheSwept(r: SyncRun, s: SyncRun)
    requires IsSync(r) && StampsArePast(r) && Meanwhile(r, s)
    ensures StampsArePast(s)
    ensures forall id :: id in SweepSet(s.rows, s.now) ==>
      id in r.rows && s.rows[id].checkedAt == if id in r.swept then Some(r.now) else r.rows[id].checkedAt
  {
  }

  lemma {:induction false} StampsStayPast(runs: seq<SyncRun>, n: nat)
    requires IsSyncHistory(runs) && n < |runs|
    ensures StampsArePast(runs[n])
  {
    if n == 0 {
    } else {
      StampsStayPast(runs, n - 1);
      ASyncStampsTheSwept(runs[n - 1], runs[n]);
    }
  }

  // ------------------------------------------------------------------ fairness

  predicate StaysUnchecked(runs: seq<SyncRun>, m: MarketId) {
    forall i :: 0 <= i < |runs| ==> m in SweepSet(runs[i].rows, runs[i].now) && m !in runs[i].swept
  }

  function SweptBy(r: SyncRun): set<MarketId> {
    set id | id in r.swept
  }

  function CheckedIn(runs: seq<SyncRun>): set<MarketId> {
    if runs == [] then {} else CheckedIn(runs[..|runs| - 1]) + SweptBy(runs[|runs| - 1])
  }

  // A sync that leaves a market of the sweep out sweeps as many as it can.
  lemma LeftOutOfFullSweep(r: SyncRun, m: MarketId)
    requires IsSync(r) && m in SweepSet(r.rows, r.now) && m !in r.swept
    ensures |SweptBy(r)| == LIMIT && SweptBy(r) <= SweepSet(r.rows, r.now)
  {
    SizeOfDistinct(r.swept);
    if |r.swept| == |SweepSet(r.rows, r.now)| {
      SubsetOfSameSize(SweptBy(r), SweepSet(r.rows, r.now));
    }
  }

  lemma SubsetOfSameSize<T>(a: set<T>, b: set<T>)
    requires a <= b && |a| == |b|
    ensures a == b
  {
    assert b == a + (b - a);
    assert |b - a| == 0;
  }

  lemma SubsetIsSmaller<T>(a: set<T>, b: set<T>)
    requires a <= b
    ensures |a| <= |b|
  {
    assert b == a + (b - a);
  }

  // A market that the run sweeps, or that has a newer stamp than the unchecked one.
  predicate Newer(r: SyncRun, x: MarketId, m: MarketId)
    requires x in r.rows && m in r.rows
  {
    x in r.swept || !NoLater(r.rows[x].checkedAt, r.rows[m].checkedAt)
  }

  // After the last of the runs, whatever they checked is newer than the market they left out.
  ghost predicate CheckedAreNewer(runs: seq<SyncRun>, m: MarketId) {
    runs == []
    || var r := runs[|runs| - 1];
       && m in r.rows && m !in CheckedIn(runs) && CheckedIn(runs) <= SweepSet(runs[0].rows, runs[0].now)
       && SweepSet(r.rows, r.now) <= SweepSet(runs[0].rows, runs[0].now)
       && forall x :: x in CheckedIn(runs) && x in SweepSet(r.rows, r.now) ==> Newer(r, x, m)
  }

  // What the runs before checked, the next run does not sweep while it leaves out an older market.
  lemma CheckedAreNotSweptAgain(g: seq<SyncRun>, s: SyncRun, m: MarketId)
    requires g != [] && IsSync(g[|g| - 1]) && StampsArePast(g[|g| - 1]) && Meanwhile(g[|g| - 1], s) && IsSync(s)
    requires CheckedAreNewer(g, m) && m in SweepSet(s.rows, s.now) && m !in s.swept && m !in g[|g| - 1].swept
    ensures CheckedIn(g) !! SweptBy(s)
    ensures forall x :: x in CheckedIn(g) && x in SweepSet(s.rows, s.now) ==> !NoLater(s.rows[x].checkedAt, s.rows[m].checkedAt)
  {
    var r := g[|g| - 1];
    ASyncStampsTheSwept(r, s);
    forall x | x in CheckedIn(g) && x in SweepSet(s.rows, s.now)
      ensures x !in s.swept && !NoLater(s.rows[x].checkedAt, s.rows[m].checkedAt)
    {
      assert Newer(r, x, m);
    }
  }

  // While a market is left out, every sync checks others, and never the same twice.
  lemma {:induction false} UncheckedWhileOthersAre(runs: seq<SyncRun>, m: MarketId)
    requires IsSyncHistory(runs) && StaysUnchecked(runs, m)
    ensures |CheckedIn(runs)| == 50 * |runs| && CheckedAreNewer(runs, m)
  {
    if runs == [] {
    } else {
      hide *;
      var g, s := runs[..|runs| - 1], runs[|runs| - 1];
      RunsBefore(runs, m);
      UncheckedWhileOthersAre(g, m);
      LeftOutOfFullSweep(s, m);
      if g == [] {
        NothingChecked(s);
      } else {
        CheckedAreNotSweptAgain(g, s, m);
      }
      OneMoreSync(g, s, m);
    }
  }

  lemma RunsBefore(runs: seq<SyncRun>, m: MarketId)
    requires IsSyncHistory(runs) && StaysUnchecked(runs, m) && runs != []
    ensures var g, s := runs[..|runs| - 1], runs[|runs| - 1];
      && runs == g + [s] && IsSyncHistory(g) && StaysUnchecked(g, m)
      && IsSync(s) && m in SweepSet(s.rows, s.now) && m !in s.swept
      && (g != [] ==> IsSync(g[|g| - 1]) && StampsArePast(g[|g| - 1]) && Meanwhile(g[|g| - 1], s) && m !in g[|g| - 1].swept)
  {
    hide IsSync, Meanwhile, StampsArePast;
    var n := |runs| - 1;
    assert forall i :: 0 <= i < n ==> runs[..n][i] == runs[i];
    if n > 0 {
      StampsStayPast(runs, n - 1);
    }
  }

  lemma NothingChecked(s: SyncRun)
    ensures CheckedIn([]) !! SweptBy(s) && |CheckedIn([])| == 0
  {
  }

  lemma OneMoreSync(g: seq<SyncRun>, s: SyncRun, m: MarketId)
    requires CheckedAreNewer(g, m) && m in SweepSet(s.rows, s.now) && m !in s.swept
    requires |SweptBy(s)| == LIMIT && SweptBy(s) <= SweepSet(s.rows, s.now) && CheckedIn(g) !! SweptBy(s)
    requires g != [] ==> Meanwhile(g[|g| - 1], s)
    requires g != [] ==> forall x :: x in CheckedIn(g) && x in SweepSet(s.rows, s.now) ==> !NoLater(s.rows[x].checkedAt, s.rows[m].checkedAt)
    ensures CheckedAreNewer(g + [s], m) && |CheckedIn(g + [s])| == |CheckedIn(g)| + LIMIT
  {
    assert (g + [s])[..|g|] == g;
    assert CheckedIn(g + [s]) == CheckedIn(g) + SweptBy(s);
  }

  // While a market is left out, each sync checks 50 others.
  lemma UncheckedOnlyBriefly(runs: seq<SyncRun>, m: MarketId, size: nat)
    requires IsSyncHistory(runs) && runs != [] && StaysUnchecked(runs, m)
    requires |SweepSet(runs[0].rows, runs[0].now)| <= size
    ensures LIMIT * |runs| < size
  {
    UncheckedWhileOthersAre(runs, m);
    var pop := SweepSet(runs[0].rows, runs[0].now);
    assert m in pop && m !in CheckedIn(runs) && CheckedIn(runs) <= pop;
    hide SweepSet, IsSyncHistory, StaysUnchecked, CheckedAreNewer, CheckedIn;
    assert CheckedIn(runs) <= pop - {m};
    SubsetIsSmaller(CheckedIn(runs), pop - {m});
    assert |pop - {m}| == |pop| - 1;
  }

  lemma CeilingIsEnough(n: nat, size: nat)
    requires n >= (size + LIMIT - 1) / LIMIT
    ensures LIMIT * n >= size
  {
  }

  // With at most `size` markets in the sweep and no new ones, a market that stays in the sweep is
  // checked and stamped within any ceil(size / 50) consecutive syncs.
  lemma EveryMarketIsCheckedInTime(runs: seq<SyncRun>, m: MarketId, size: nat)
    requires IsSyncHistory(runs) && runs != [] && |SweepSet(runs[0].rows, runs[0].now)| <= size
    requires |runs| >= (size + 49) / 50
    requires forall i :: 0 <= i < |runs| ==> m in SweepSet(runs[i].rows, runs[i].now)
    ensures exists i :: 0 <= i < |runs| && m in runs[i].swept && m in runs[i].after && runs[i].after[m].checkedAt == Some(runs[i].now)
  {
    if StaysUnchecked(runs, m) {
      CeilingIsEnough(|runs|, size);
      UncheckedOnlyBriefly(runs, m, size);
    } else {
      var i :| 0 <= i < |runs| && m in runs[i].swept;
      assert IsSync(runs[i]);
      assert m in runs[i].due + runs[i].swept && m in runs[i].rows;
    }
  }
}

/**
 Crash and resume: whatever fails, and however often, the trades and positions that the runs over a
 window end with are those of a single undisturbed run.
 */
module PollerResume {
  import opened Wrappers
  import opened Pagination
  import opened Sequences
  import opened Poller

  // ------------------------------------------------------------------ no key twice

  predicate DistinctKeys(s: seq<Raw>) {
    forall i, j :: 0 <= i < j < |s| ==> KeyOf(s[i]) != KeyOf(s[j])
  }

  lemma {:induction false} KeysAreExact(s: seq<Raw>, i: nat)
    requires i < |s|
    ensures KeyOf(s[i]) in Keys(s)
  {
    if i < |s| - 1 {
      KeysAreExact(s[..|s| - 1], i);
    }
  }

  lemma {:induction false} FreshKeysAreNew(window: seq<Raw>, seen: set<TradeKey>, markets: Markets)
    ensures DistinctKeys(Fresh(window, seen, markets)) && Keys(Fresh(window, seen, markets)) !! seen
  {
    if window == [] {
    } else {
      var g := window[..|window| - 1];
      FreshKeysAreNew(g, seen, markets);
      var done, t := Fresh(g, seen, markets), window[|window| - 1];
      forall i | 0 <= i < |done| && KeyOf(t) !in Keys(done)
        ensures KeyOf(done[i]) != KeyOf(t)
      {
        KeysAreExact(done, i);
      }
      assert (done + [t])[..|done|] == done;
    }
  }

  // However a run ends, it commits no (transaction, asset) twice and none that was already captured.
  lemma NoKeyIsCommittedTwice(before: Db, window: seq<Raw>, markets: Markets, after: Db, k: nat, sells: nat)
    requires CommitsPrefix(before, Fresh(window, Keys(before.rows), markets), after, k, sells)
    requires DistinctKeys(before.rows)
    ensures DistinctKeys(after.rows) && before.rows <= after.rows
  {
    var pending := Fresh(window, Keys(before.rows), markets);
    FreshKeysAreNew(window, Keys(before.rows), markets);
    RecordAllAddsRows(before, pending[..k]);
    forall i, j | 0 <= i < |before.rows| && 0 <= j < k
      ensures KeyOf(before.rows[i]) != KeyOf(pending[j])
    {
      KeysAreExact(before.rows, i);
      KeysAreExact(pending, j);
    }
  }

  // Every accepted trade of the window has its key captured once the run is complete.
  lemma {:induction false} CompleteRunsCaptureTheWindow(window: seq<Raw>, seen: set<TradeKey>, markets: Markets, i: nat)
    requires i < |window| && Accepted(window[i], markets)
    ensures KeyOf(window[i]) in seen + Keys(Fresh(window, seen, markets))
  {
    hide *;
    var g, t := window[..|window| - 1], window[|window| - 1];
    FreshOfLast(window, seen, markets);
    KeysOfSnoc(Fresh(g, seen, markets), t);
    if i < |g| {
      assert g[i] == window[i];
      CompleteRunsCaptureTheWindow(g, seen, markets, i);
    }
  }

  // ------------------------------------------------------------------ resuming

  lemma {:induction false} NothingFreshLeft(window: seq<Raw>, seen: set<TradeKey>, more: set<TradeKey>, markets: Markets)
    requires seen + Keys(Fresh(window, seen, markets)) <= more
    ensures Fresh(window, more, markets) == []
  {
    if window == [] {
    } else {
      var g, t := window[..|window| - 1], window[|window| - 1];
      var done := Fresh(g, seen, markets);
      assert (done + [t])[..|done|] == done;
      NothingFreshLeft(g, seen, more, markets);
    }
  }

  lemma SplitSnoc(s: seq<Raw>, t: Raw, k: nat)
    requires k <= |s|
    ensures s == s[..k] + s[k..] && (s + [t])[..k] == s[..k] && (s + [t])[k..] == s[k..] + [t]
  {
  }

  // Once the first k fresh trades are captured, exactly the others are fresh.
  lemma {:induction false} FreshAfterPrefix(window: seq<Raw>, seen: set<TradeKey>, markets: Markets, k: nat)
    requires k <= |Fresh(window, seen, markets)|
    ensures Fresh(window, seen + Keys(Fresh(window, seen, markets)[..k]), markets) == Fresh(window, seen, markets)[k..]
  {
    if window == [] {
    } else {
      var g, t := window[..|window| - 1], window[|window| - 1];
      var done, all := Fresh(g, seen, markets), Fresh(window, seen, markets);
      FreshOfLast(window, seen, markets);
      hide Fresh, Keys, Accepted, KeyOf;
      if k <= |done| {
        FreshAfterPrefix(g, seen, markets, k);
        FreshOfLast(window, seen + Keys(done[..k]), markets);
        SplitSnoc(done, t, k);
        KeysOfAppend(done[..k], done[k..]);
      } else {
        assert all == done + [t] && all[..k] == all && all[k..] == [];
        NothingFreshLeft(window, seen, seen + Keys(all), markets);
      }
    }
  }

  lemma {:induction false} CollisionAfterPrefix(s: seq<Raw>, taken: set<string>, k: nat)
    requires k <= FirstCollision(s, taken)
    ensures FirstCollision(s[k..], taken + Txs(s[..k])) == FirstCollision(s, taken) - k
  {
    if k == |s| {
      assert s[k..] == [];
    } else {
      var g, t := s[..|s| - 1], s[|s| - 1];
      assert s == g + [t];
      SplitSnoc(g, t, k);
      CollisionAfterPrefix(g, taken, k);
      KeysOfAppend(g[..k], g[k..]);
      CollisionOfLast(s, taken);
      CollisionOfLast(s[k..], taken + Txs(s[..k]));
      assert s[k..][..|s[k..]| - 1] == g[k..];
      hide FirstCollision, Txs;
    }
  }

  lemma CollisionOfLast(s: seq<Raw>, taken: set<string>)
    requires s != []
    ensures var g, t := s[..|s| - 1], s[|s| - 1];
      FirstCollision(s, taken) == if FirstCollision(g, taken) < |g| then FirstCollision(g, taken)
                                  else if t.tx in taken || t.tx in Txs(g) then |g|
                                  else |s|
  {
  }

  lemma SubtractWholeBatches(c: nat, k: nat)
    requires WholeBatches(k) && k <= c
    ensures (c - k) % BATCH == c % BATCH
  {
    var q := k / BATCH;
    assert k == q * BATCH;
    assert (c - q * BATCH) % BATCH == c % BATCH;
  }

  // The database an undisturbed run ends with.
  function UndisturbedRun(db: Db, window: seq<Raw>, markets: Markets): Db {
    var pending := Fresh(window, Keys(db.rows), markets);
    RecordAll(db, pending[..CommitPoint(pending, db.externalIds)])
  }

  // A run with any failures.
  ghost predicate DisturbedRun(before: Db, window: seq<Raw>, markets: Markets, after: Db) {
    exists k: nat, sells: nat :: CommitsPrefix(before, Fresh(window, Keys(before.rows), markets), after, k, sells)
  }

  lemma CommitPointAfterPrefix(pending: seq<Raw>, taken: set<string>, k: nat)
    requires k <= FirstCollision(pending, taken) && (k == |pending| || WholeBatches(k))
    ensures k <= CommitPoint(pending, taken)
    ensures CommitPoint(pending[k..], taken + Txs(pending[..k])) == CommitPoint(pending, taken) - k
  {
    CollisionAfterPrefix(pending, taken, k);
    if k < |pending| {
      SubtractWholeBatches(FirstCollision(pending, taken), k);
    }
  }

  // What a disturbed run leaves behind, and what is then still fresh.
  lemma AfterCrash(before: Db, window: seq<Raw>, markets: Markets, k: nat)
    requires k <= |Fresh(window, Keys(before.rows), markets)|
    ensures var pending := Fresh(window, Keys(before.rows), markets);
            var after := RecordAll(before, pending[..k]);
      && Fresh(window, Keys(after.rows), markets) == pending[k..]
      && after.externalIds == before.externalIds + Txs(pending[..k])
  {
    var done := Fresh(window, Keys(before.rows), markets)[..k];
    RecordAllAddsRows(before, done);
    KeysOfAppend(before.rows, done);
    FreshAfterPrefix(window, Keys(before.rows), markets, k);
  }

  lemma ResumingChangesNothing(before: Db, window: seq<Raw>, markets: Markets, after: Db)
    requires DisturbedRun(before, window, markets, after)
    ensures UndisturbedRun(after, window, markets) == UndisturbedRun(before, window, markets)
  {
    hide Fresh, FirstCollision, CommitPoint, RecordAll, Keys, Txs, CountSells;
    var pending := Fresh(window, Keys(before.rows), markets);
    var k: nat, sells: nat :| CommitsPrefix(before, pending, after, k, sells);
    AfterCrash(before, window, markets, k);
    CommitPointAfterPrefix(pending, before.externalIds, k);
    var p := CommitPoint(pending, before.externalIds);
    assert pending[..p] == pending[..k] + pending[k..][..p - k];
    RecordAllOfAppend(before, pending[..k], pending[k..][..p - k]);
  }

  // Any number of disturbed runs followed by an undisturbed one leave the same trades, external ids and
  // positions as the undisturbed run alone.
  lemma {:induction false} CrashesNeverShow(runs: seq<Db>, window: seq<Raw>, markets: Markets)
    requires runs != []
    requires forall i {:trigger runs[i]} :: 0 < i < |runs| ==> DisturbedRun(runs[i - 1], window, markets, runs[i])
    ensures UndisturbedRun(runs[|runs| - 1], window, markets) == UndisturbedRun(runs[0], window, markets)
  {
    hide UndisturbedRun, DisturbedRun;
    if |runs| > 1 {
      var n := |runs| - 1;
      var g := runs[..n];
      assert forall i :: 0 <= i < n ==> g[i] == runs[i];
      CrashesNeverShow(g, window, markets);
      assert DisturbedRun(runs[n - 1], window, markets, runs[n]);
      ResumingChangesNothing(runs[n - 1], window, markets, runs[n]);
    }
  }

  // ------------------------------------------------------------------ when a window can be finished at all

  // No two of the trades share a transaction hash, and none uses one that is taken.
  predicate FreeTransactions(s: seq<Raw>, taken: set<string>) {
    && (forall i :: 0 <= i < |s| ==> s[i].tx !in taken)
    && (forall i, j :: 0 <= i < j < |s| ==> s[i].tx != s[j].tx)
  }

  lemma {:induction false} TxsAreExact(s: seq<Raw>, tx: string)
    ensures tx in Txs(s) <==> exists i :: 0 <= i < |s| && s[i].tx == tx
  {
    if s == [] {
    } else {
      var g := s[..|s| - 1];
      TxsAreExact(g, tx);
      if i :| 0 <= i < |g| && g[i].tx == tx {
        assert s[i].tx == tx;
      }
      if i :| 0 <= i < |s| && s[i].tx == tx {
        assert i < |g| ==> g[i].tx == tx;
      }
    }
  }

  lemma {:induction false} NoCollisionExactlyWhenFree(s: seq<Raw>, taken: set<string>)
    ensures FirstCollision(s, taken) == |s| <==> FreeTransactions(s, taken)
  {
    if s == [] {
    } else {
      var g, t := s[..|s| - 1], s[|s| - 1];
      NoCollisionExactlyWhenFree(g, taken);
      TxsAreExact(g, t.tx);
      if FreeTransactions(s, taken) {
        assert FreeTransactions(g, taken);
        assert forall i :: 0 <= i < |g| ==> g[i].tx == s[i].tx != t.tx;
      }
      if FreeTransactions(g, taken) && t.tx !in taken && t.tx !in Txs(g) {
        assert forall i :: 0 <= i < |g| ==> s[i] == g[i] && g[i].tx != t.tx;
      }
    }
  }

  // Inserting trade i would repeat an external id.
  predicate Collides(s: seq<Raw>, taken: set<string>, i: nat) {
    i < |s| && (s[i].tx in taken || exists j :: 0 <= j < i && s[j].tx == s[i].tx)
  }

  lemma {:induction false} FirstCollisionCollides(s: seq<Raw>, taken: set<string>)
    ensures var c := FirstCollision(s, taken);
      && (forall i :: 0 <= i < c ==> !Collides(s, taken, i))
      && (c < |s| ==> Collides(s, taken, c))
  {
    if s == [] {
    } else {
      var g, n := s[..|s| - 1], |s| - 1;
      FirstCollisionCollides(g, taken);
      TxsAreExact(g, s[n].tx);
      forall i | 0 <= i < n
        ensures Collides(s, taken, i) <==> Collides(g, taken, i)
      {
        assert forall j :: 0 <= j <= i ==> s[j] == g[j];
      }
      if j :| 0 <= j < |g| && g[j].tx == s[n].tx {
        assert s[j].tx == s[n].tx;
      }
      if j :| 0 <= j < n && s[j].tx == s[n].tx {
        assert g[j].tx == s[n].tx;
      }
    }
  }

  // A run without outside failures commits everything when no external id repeats, and otherwise the whole
  // hundreds before the first that does.
  lemma RunsStopAtWholeHundreds(pending: seq<Raw>, taken: set<string>, c: nat)
    requires c <= |pending| && forall i :: 0 <= i < c ==> !Collides(pending, taken, i)
    ensures c == |pending| ==> CommitPoint(pending, taken) == |pending|
    ensures Collides(pending, taken, c) ==>
      CommitPoint(pending, taken) % 100 == 0 && CommitPoint(pending, taken) <= c < CommitPoint(pending, taken) + 100
  {
    FirstCollisionCollides(pending, taken);
    hide FirstCollision;
  }

  function SellOne(): Raw -> bool {
    (t: Raw) => t.side == SellSide
  }

  lemma {:induction false} SellsAreCounted(s: seq<Raw>)
    ensures CountSells(s) == |Filter(s, SellOne())|
  {
    if s == [] {
    } else {
      SellsAreCounted(s[..|s| - 1]);
    }
  }

  // The external id is made from the transaction hash alone, so an undisturbed run ingests the whole
  // window exactly when the fresh trades have different transactions with unused ids; otherwise the
  // same fault comes back on every run.
  lemma WindowFinishesExactlyWhenTransactionsAreFree(db: Db, window: seq<Raw>, markets: Markets)
    ensures var pending := Fresh(window, Keys(db.rows), markets);
      UndisturbedRun(db, window, markets).rows == db.rows + pending <==> FreeTransactions(pending, db.externalIds)
  {
    var pending := Fresh(window, Keys(db.rows), markets);
    NoCollisionExactlyWhenFree(pending, db.externalIds);
    var p := CommitPoint(pending, db.externalIds);
    RecordAllAddsRows(db, pending[..p]);
    assert |db.rows + pending[..p]| == |db.rows| + p;
    if p == |pending| {
      assert pending[..p] == pending;
    }
  }

  // Two fills of one transaction in different assets cannot both be ingested.
  lemma TwoAssetsOneTransaction()
    ensures var a := Raw("0x1", "yes", "w", BuySide, Some(0.5), Some(1.0), Some(10.0));
            var b := Raw("0x1", "no", "w", BuySide, Some(0.5), Some(1.0), Some(11.0));
            UndisturbedRun(Db([], {}, map[], map[]), [a, b], {"yes", "no"}).rows == []
  {
    var a := Raw("0x1", "yes", "w", BuySide, Some(0.5), Some(1.0), Some(10.0));
    var b := Raw("0x1", "no", "w", BuySide, Some(0.5), Some(1.0), Some(11.0));
    hide Record;
    var db, m: Markets := Db([], {}, map[], map[]), {"yes", "no"};
    assert [a, b][..1] == [a] && [a][..0] == [];
    assert Fresh([a], Keys(db.rows), m) == [a];
    assert Fresh([a, b], Keys(db.rows), m) == [a, b];
    assert Txs([a]) == {"0x1"};
    assert FirstCollision([a, b], {}) == 1;
    assert CommitPoint([a, b], {}) == 0;
  }
}

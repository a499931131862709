/**
 Ingesting one wallet's window in batches: duplicates are skipped, each batch is committed whole, and
 any failure rolls back the open batch and ends the run.  The next run starts over on the window.
 */
module Poller {
  import opened Wrappers
  import opened Ledger
  import opened Pagination
  import CostBasis

  const BATCH: nat := 100

  type TradeKey = (string, string)

  function KeyOf(t: Raw): TradeKey {
    (t.tx, t.asset)
  }

  // The committed tables as the poll of one wallet sees them: its own trade rows, the transaction
  // hashes already used in a poll-made external id (by any wallet), and its position and cost-basis rows.
  datatype Db = Db(rows: seq<Raw>, externalIds: set<string>, positions: map<string, Position>, basis: map<string, CostBasis.Basis>)

  // Markets are found for these assets; the lookup is fixed for the run.
  type Markets = set<string>

  // A trade whose price and size parse.
  type Priced = t: Raw | t.price.Some? && t.size.Some?
    witness Raw("", "", "", BuySide, Some(0.0), Some(0.0), None)

  // A trade that is ingested rather than skipped.
  predicate Accepted(t: Raw, markets: Markets) {
    && t.tx != "" && t.asset != "" && t.wallet != ""
    && t.price.Some? && t.size.Some? && (t.side == BuySide || t.side == SellSide)
    && t.asset in markets
  }

  function EventOf(t: Priced): Event {
    var ts := Ts(t).Floor;
    if t.side == BuySide then Buy(t.price.value, t.size.value, ts) else Sell(t.price.value, t.size.value, ts)
  }

  function Entry<T>(rows: map<string, T>, asset: string): Option<T> {
    if asset in rows then Some(rows[asset]) else None
  }

  function Stored<T>(rows: map<string, T>, asset: string, row: Option<T>): map<string, T> {
    if row.Some? then rows[asset := row.value] else rows - {asset}
  }

  // What the wallet's records say about one asset.
  function LiveOf(db: Db, asset: string): CostBasis.Live {
    CostBasis.Live(Entry(db.basis, asset), Entry(db.positions, asset))
  }

  // An event on one asset's records.
  function Updated(db: Db, asset: string, e: Event): Db {
    var live := CostBasis.Ingest(LiveOf(db, asset), e);
    db.(positions := Stored(db.positions, asset, live.row), basis := Stored(db.basis, asset, live.basis))
  }

  // The insert of a trade row and the updates of cost basis and position that go with it.
  function Record(db: Db, t: Priced): Db {
    Updated(db.(rows := db.rows + [t], externalIds := db.externalIds + {t.tx}), t.asset, EventOf(t))
  }

  function RecordAll(db: Db, s: seq<Priced>): Db {
    if s == [] then db else Record(RecordAll(db, s[..|s| - 1]), s[|s| - 1])
  }

  function Keys(s: seq<Raw>): set<TradeKey> {
    if s == [] then {} else Keys(s[..|s| - 1]) + {KeyOf(s[|s| - 1])}
  }

  function Txs(s: seq<Raw>): set<string> {
    if s == [] then {} else Txs(s[..|s| - 1]) + {s[|s| - 1].tx}
  }

  // What a window adds to a database that has captured the keys `seen`: the first accepted copy of
  // every key it has not seen, oldest first.
  function Fresh(window: seq<Raw>, seen: set<TradeKey>, markets: Markets): seq<Priced> {
    if window == [] then []
    else
      var done, t := Fresh(window[..|window| - 1], seen, markets), window[|window| - 1];
      if Accepted(t, markets) && KeyOf(t) !in seen && KeyOf(t) !in Keys(done) then done + [t] else done
  }

  // The first trade whose external id is taken when its turn comes; inserting it raises.
  function FirstCollision(s: seq<Raw>, taken: set<string>): (c: nat)
    ensures c <= |s|
  {
    if s == [] then 0
    else
      var c := FirstCollision(s[..|s| - 1], taken);
      if c < |s| - 1 then c
      else if s[|s| - 1].tx in taken || s[|s| - 1].tx in Txs(s[..|s| - 1]) then |s| - 1
      else |s|
  }

  // Where a run without outside failures stops: at the end, or at the last whole batch before a collision.
  function CommitPoint(pending: seq<Raw>, taken: set<string>): (k: nat)
    ensures k <= |pending|
  {
    var c := FirstCollision(pending, taken);
    if c == |pending| then c else c - c % BATCH
  }

  function CountSells(s: seq<Raw>): nat {
    if s == [] then 0 else CountSells(s[..|s| - 1]) + if s[|s| - 1].side == SellSide then 1 else 0
  }

  // ------------------------------------------------------------------ sequence facts

  lemma {:induction false} KeysOfAppend(a: seq<Raw>, b: seq<Raw>)
    ensures Keys(a + b) == Keys(a) + Keys(b)
    ensures Txs(a + b) == Txs(a) + Txs(b)
    ensures CountSells(a + b) == CountSells(a) + CountSells(b)
  {
    if b == [] {
      assert a + b == a;
    } else {
      KeysOfAppend(a, b[..|b| - 1]);
      assert (a + b)[..|a + b| - 1] == a + b[..|b| - 1];
    }
  }

  lemma {:induction false} RecordAllOfAppend(db: Db, a: seq<Priced>, b: seq<Priced>)
    ensures RecordAll(db, a + b) == RecordAll(RecordAll(db, a), b)
  {
    if b == [] {
      assert a + b == a;
    } else {
      RecordAllOfAppend(db, a, b[..|b| - 1]);
      assert (a + b)[..|a + b| - 1] == a + b[..|b| - 1];
    }
  }

  lemma {:induction false} RecordAllAddsRows(db: Db, s: seq<Priced>)
    ensures RecordAll(db, s).rows == db.rows + s
    ensures RecordAll(db, s).externalIds == db.externalIds + Txs(s)
  {
    if s == [] {
    } else {
      RecordAllAddsRows(db, s[..|s| - 1]);
      assert s == s[..|s| - 1] + [s[|s| - 1]];
    }
  }

  lemma {:induction false} CollisionOfPrefix(s: seq<Raw>, n: nat, taken: set<string>)
    requires n <= |s|
    ensures var c := FirstCollision(s[..n], taken);
            FirstCollision(s, taken) >= c && (c < n ==> FirstCollision(s, taken) == c)
    ensures n < |s| && FirstCollision(s[..n], taken) == n && (s[n].tx in taken || s[n].tx in Txs(s[..n]))
            ==> FirstCollision(s, taken) == n
  {
    if n == |s| {
      assert s[..n] == s;
    } else {
      var g := s[..|s| - 1];
      CollisionOfPrefix(g, n, taken);
      assert g[..n] == s[..n];
      if n == |g| {
        assert g[..n] == g;
      } else {
        assert g[n] == s[n];
      }
    }
  }

  lemma {:induction false} FreshOfPrefix(window: seq<Raw>, n: nat, seen: set<TradeKey>, markets: Markets)
    requires n <= |window|
    ensures Fresh(window[..n], seen, markets) <= Fresh(window, seen, markets)
  {
    if n == |window| {
      assert window[..n] == window;
    } else {
      FreshOfPrefix(window[..|window| - 1], n, seen, markets);
      assert window[..|window| - 1][..n] == window[..n];
    }
  }

  lemma FreshOfLast(window: seq<Raw>, seen: set<TradeKey>, markets: Markets)
    requires window != []
    ensures var done, t := Fresh(window[..|window| - 1], seen, markets), window[|window| - 1];
            Fresh(window, seen, markets)
            == if Accepted(t, markets) && KeyOf(t) !in seen && KeyOf(t) !in Keys(done) then done + [t] else done
  {
  }

  lemma KeysOfSnoc(s: seq<Raw>, t: Raw)
    ensures Keys(s + [t]) == Keys(s) + {KeyOf(t)}
  {
    assert (s + [t])[..|s|] == s;
  }

  lemma FreshOfNext(window: seq<Raw>, i: nat, seen: set<TradeKey>, markets: Markets)
    requires i < |window|
    ensures var done, t := Fresh(window[..i], seen, markets), window[i];
            Fresh(window[..i + 1], seen, markets)
            == if Accepted(t, markets) && KeyOf(t) !in seen && KeyOf(t) !in Keys(done) then done + [t] else done
  {
    assert window[..i + 1][..i] == window[..i];
  }

  // ------------------------------------------------------------------ the run

  class Database {
    var committed: Db

    constructor (db: Db)
      ensures committed == db
    {
      committed := db;
    }
  }

  datatype Summary = Summary(inWindow: nat, inserted: nat, skipped: nat, newSells: nat, aborted: bool)

  predicate WholeBatches(n: nat) {
    n % BATCH == 0
  }

  // The part of a run's outcome that no failure can take away: the committed trades are a prefix of
  // the fresh ones, and unless it is all of them it ends with a whole batch.
  predicate CommitsPrefix(before: Db, pending: seq<Priced>, after: Db, k: nat, sells: nat) {
    && k <= FirstCollision(pending, before.externalIds) <= |pending|
    && (k == |pending| || WholeBatches(k))
    && after == RecordAll(before, pending[..k])
    && sells == CountSells(pending[..k])
  }

  // Midway through a run, before window position i: `saved` is committed and `batch` is in the session.
  predicate Midway(before: Db, window: seq<Raw>, i: nat, markets: Markets,
                   saved: seq<Priced>, batch: seq<Priced>, session: Db, committed: Db, seen: set<TradeKey>, sells: nat)
    requires i <= |window|
  {
    && saved + batch == Fresh(window[..i], Keys(before.rows), markets)
    && WholeBatches(|saved|)
    && committed == RecordAll(before, saved) && sells == CountSells(saved)
    && session == RecordAll(committed, batch)
    && seen == Keys(saved + batch)
    && FirstCollision(saved + batch, before.externalIds) == |saved| + |batch|
  }

  lemma MidwayCommitsPrefix(before: Db, window: seq<Raw>, i: nat, markets: Markets, saved: seq<Priced>,
                            batch: seq<Priced>, session: Db, committed: Db, seen: set<TradeKey>, sells: nat)
    requires i <= |window| && Midway(before, window, i, markets, saved, batch, session, committed, seen, sells)
    ensures var pending := Fresh(window, Keys(before.rows), markets);
      && CommitsPrefix(before, pending, committed, |saved|, sells)
      && (i == |window| ==> pending == saved + batch)
  {
    hide Fresh, FirstCollision, RecordAll, CountSells, Keys, Txs;
    var pending := Fresh(window, Keys(before.rows), markets);
    FreshOfPrefix(window, i, Keys(before.rows), markets);
    CollisionOfPrefix(pending, |saved + batch|, before.externalIds);
    assert pending[..|saved + batch|] == saved + batch;
    assert pending[..|saved|] == saved;
    if i == |window| {
      assert window[..i] == window;
    }
  }

  lemma SkipStep(before: Db, window: seq<Raw>, i: nat, markets: Markets, saved: seq<Priced>,
                 batch: seq<Priced>, session: Db, committed: Db, seen: set<TradeKey>, sells: nat)
    requires i < |window| && Midway(before, window, i, markets, saved, batch, session, committed, seen, sells)
    requires KeyOf(window[i]) in Keys(before.rows) || KeyOf(window[i]) in seen || !Accepted(window[i], markets)
    ensures Midway(before, window, i + 1, markets, saved, batch, session, committed, seen, sells)
  {
    FreshOfNext(window, i, Keys(before.rows), markets);
  }

  lemma CollisionOfSnoc(s: seq<Raw>, t: Raw, taken: set<string>)
    requires FirstCollision(s, taken) == |s|
    ensures FirstCollision(s + [t], taken) == if t.tx in taken || t.tx in Txs(s) then |s| else |s| + 1
  {
    assert (s + [t])[..|s|] == s;
  }

  // The session's external ids are the old ones and those of everything ingested so far.
  lemma SessionIds(before: Db, saved: seq<Priced>, batch: seq<Priced>, session: Db)
    requires session == RecordAll(RecordAll(before, saved), batch)
    ensures session.externalIds == before.externalIds + Txs(saved + batch)
  {
    RecordAllOfAppend(before, saved, batch);
    RecordAllAddsRows(before, saved + batch);
  }

  // A collision in the session is the first collision of the whole window.
  lemma CollidingStep(before: Db, window: seq<Raw>, i: nat, markets: Markets, done: seq<Priced>)
    requires i < |window| && done == Fresh(window[..i], Keys(before.rows), markets)
    requires FirstCollision(done, before.externalIds) == |done|
    requires KeyOf(window[i]) !in Keys(before.rows) && KeyOf(window[i]) !in Keys(done) && Accepted(window[i], markets)
    requires window[i].tx in before.externalIds + Txs(done)
    ensures var pending := Fresh(window, Keys(before.rows), markets);
            FirstCollision(pending, before.externalIds) == |done| < |pending|
  {
    hide Fresh, FirstCollision, Keys, Txs, Accepted;
    var pending := Fresh(window, Keys(before.rows), markets);
    FreshOfNext(window, i, Keys(before.rows), markets);
    FreshOfPrefix(window, i + 1, Keys(before.rows), markets);
    CollisionOfSnoc(done, window[i], before.externalIds);
    CollisionOfPrefix(pending, |done| + 1, before.externalIds);
    assert pending[..|done| + 1] == done + [window[i]];
  }

  lemma RecordAllOfSnoc(db: Db, s: seq<Priced>, t: Priced)
    ensures RecordAll(db, s + [t]) == Record(RecordAll(db, s), t)
    ensures Keys(s + [t]) == Keys(s) + {KeyOf(t)}
  {
    assert (s + [t])[..|s|] == s;
  }

  lemma NothingRecorded(db: Db)
    ensures RecordAll(db, []) == db
  {
  }

  // An accepted trade with a new key and an unused id extends the session.
  lemma ExtendingStep(before: Db, window: seq<Raw>, i: nat, markets: Markets, saved: seq<Priced>,
                      batch: seq<Priced>, session: Db, committed: Db, seen: set<TradeKey>, sells: nat)
    requires i < |window| && Midway(before, window, i, markets, saved, batch, session, committed, seen, sells)
    requires KeyOf(window[i]) !in Keys(before.rows) && KeyOf(window[i]) !in seen && Accepted(window[i], markets)
    requires window[i].tx !in before.externalIds + Txs(saved + batch)
    ensures Midway(before, window, i + 1, markets, saved, batch + [window[i]],
                   Record(session, window[i]), committed, seen + {KeyOf(window[i])}, sells)
  {
    hide Record, FirstCollision, Fresh, Keys, Txs;
    var t: Priced, done := window[i], saved + batch;
    assert saved + (batch + [t]) == done + [t];
    FreshOfNext(window, i, Keys(before.rows), markets);
    CollisionOfSnoc(done, t, before.externalIds);
    RecordAllOfSnoc(committed, batch, t);
    RecordAllOfSnoc(before, done, t);
  }

  lemma CommitStep(before: Db, window: seq<Raw>, i: nat, markets: Markets, saved: seq<Priced>,
                   batch: seq<Priced>, session: Db, committed: Db, seen: set<TradeKey>, sells: nat)
    requires i <= |window| && Midway(before, window, i, markets, saved, batch, session, committed, seen, sells)
    requires |batch| == BATCH
    ensures Midway(before, window, i, markets, saved + batch, [], session, session, seen, sells + CountSells(batch))
  {
    hide Fresh, FirstCollision, RecordAll, CountSells, Keys, Txs;
    NothingRecorded(session);
    assert (saved + batch) + [] == saved + batch && |saved + batch| == |saved| + BATCH;
    RecordAllOfAppend(before, saved, batch);
    KeysOfAppend(saved, batch);
  }

  // One run over a window.  The adversary names the window positions whose ingest raises and the
  // commits (counted from 0) that fail.
  method PollWallet(db: Database, window: seq<Raw>, markets: Markets, ingestFaults: set<nat>, commitFaults: set<nat>)
    returns (s: Summary)
    modifies db
    ensures CommitsPrefix(old(db.committed), Fresh(window, Keys(old(db.committed).rows), markets),
                          db.committed, s.inserted, s.newSells)
    ensures s.inWindow == |window|
    ensures !s.aborted ==>
      && s.inserted == |Fresh(window, Keys(old(db.committed).rows), markets)|
      && s.inserted + s.skipped == s.inWindow
    // Without outside failures the run gets as far as it can, and aborts only on a collision.
    ensures ingestFaults == {} && commitFaults == {} ==>
      var pending := Fresh(window, Keys(old(db.committed).rows), markets);
      && s.inserted == CommitPoint(pending, old(db.committed).externalIds)
      && (s.aborted <==> FirstCollision(pending, old(db.committed).externalIds) < |pending|)
  {
    hide Fresh, FirstCollision, RecordAll, Record, Keys, Txs, CountSells, Midway;
    ghost var before := db.committed;
    var session := db.committed;
    var captured := Keys(session.rows);
    var seen: set<TradeKey> := {};
    var skipped: nat, inserted: nat, newSells: nat, commits: nat := 0, 0, 0, 0;
    var batch: seq<Priced> := [];
    ghost var saved: seq<Priced> := [];
    StartMidway(before, window, markets);
    for i := 0 to |window|
      invariant captured == Keys(before.rows)
      invariant Midway(before, window, i, markets, saved, batch, session, db.committed, seen, newSells)
      invariant |batch| < BATCH && inserted == |saved| && skipped + |saved| + |batch| == i
    {
      var t := window[i];
      MidwayCommitsPrefix(before, window, i, markets, saved, batch, session, db.committed, seen, newSells);
      if KeyOf(t) in captured || KeyOf(t) in seen {
        SkipStep(before, window, i, markets, saved, batch, session, db.committed, seen, newSells);
        skipped := skipped + 1;
        continue;
      }
      if i in ingestFaults {
        return Summary(|window|, inserted, skipped, newSells, true);
      }
      if !Accepted(t, markets) {
        SkipStep(before, window, i, markets, saved, batch, session, db.committed, seen, newSells);
        skipped := skipped + 1;
        continue;
      }
      MidwayParts(before, window, i, markets, saved, batch, session, db.committed, seen, newSells);
      if t.tx in session.externalIds {
        CollidingStep(before, window, i, markets, saved + batch);
        CommitPointBelow(|saved|, |saved| + |batch|);
        return Summary(|window|, inserted, skipped, newSells, true);
      }
      ExtendingStep(before, window, i, markets, saved, batch, session, db.committed, seen, newSells);
      session := Record(session, t);
      seen := seen + {KeyOf(t)};
      batch := batch + [t];
      if |batch| >= BATCH {
        if commits in commitFaults {
          return Summary(|window|, inserted, skipped, newSells, true);
        }
        commits := commits + 1;
        CommitStep(before, window, i + 1, markets, saved, batch, session, db.committed, seen, newSells);
        db.committed := session;
        newSells := newSells + CountSells(batch);
        inserted := inserted + |batch|;
        saved := saved + batch;
        batch := [];
      }
    }
    MidwayCommitsPrefix(before, window, |window|, markets, saved, batch, session, db.committed, seen, newSells);
    MidwayIsComplete(before, window, markets, saved, batch, session, db.committed, seen, newSells);
    if batch != [] {
      if commits in commitFaults {
        return Summary(|window|, inserted, skipped, newSells, true);
      }
      db.committed := session;
      newSells := newSells + CountSells(batch);
      inserted := inserted + |batch|;
    }
    return Summary(|window|, inserted, skipped, newSells, false);
  }

  lemma MidwayParts(before: Db, window: seq<Raw>, i: nat, markets: Markets, saved: seq<Priced>,
                    batch: seq<Priced>, session: Db, committed: Db, seen: set<TradeKey>, sells: nat)
    requires i <= |window| && Midway(before, window, i, markets, saved, batch, session, committed, seen, sells)
    ensures saved + batch == Fresh(window[..i], Keys(before.rows), markets) && seen == Keys(saved + batch)
    ensures FirstCollision(saved + batch, before.externalIds) == |saved + batch| && WholeBatches(|saved|)
    ensures session.externalIds == before.externalIds + Txs(saved + batch)
  {
    SessionIds(before, saved, batch, session);
  }

  lemma StartMidway(before: Db, window: seq<Raw>, markets: Markets)
    ensures Midway(before, window, 0, markets, [], [], before, before, {}, 0)
  {
  }

  lemma CommitPointBelow(saved: nat, c: nat)
    requires WholeBatches(saved) && saved <= c < saved + BATCH
    ensures c - c % BATCH == saved
  {
  }

  // After the last trade the session holds the whole outcome.
  lemma MidwayIsComplete(before: Db, window: seq<Raw>, markets: Markets, saved: seq<Priced>,
                         batch: seq<Priced>, session: Db, committed: Db, seen: set<TradeKey>, sells: nat)
    requires Midway(before, window, |window|, markets, saved, batch, session, committed, seen, sells)
    ensures var pending := Fresh(window, Keys(before.rows), markets);
      && FirstCollision(pending, before.externalIds) == |pending| == |saved| + |batch|
      && CommitsPrefix(before, pending, session, |pending|, sells + CountSells(batch))
      && (batch == [] ==> session == committed && CountSells(batch) == 0)
  {
    assert window[..|window|] == window;
    var pending := saved + batch;
    assert pending[..|pending|] == pending;
    RecordAllOfAppend(before, saved, batch);
    KeysOfAppend(saved, batch);
  }
}

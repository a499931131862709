/**
 Reading one wallet's trade list page by page.  The server lists trades newest first and may put new
 trades at the head between two requests; a page is addressed by its offset from the current head.
 */
module Pagination {
  import opened Wrappers
  import opened Sequences

  datatype Side = BuySide | SellSide | OtherSide

  // One trade as the API returns it; fields that do not parse are None.
  datatype Raw = Raw(
    tx: string,
    asset: string,
    wallet: string,
    side: Side,
    price: Option<real>,
    size: Option<real>,
    stamp: Option<real>)

  const EARLIEST: real := -62135596800.0
  const MAX_PAGES: nat := 200

  // Seconds since the epoch; stamps above 1e10 are milliseconds, unreadable ones count as the earliest time.
  function ParseTs(stamp: Option<real>): real {
    match stamp
    case None => EARLIEST
    case Some(v) => if v > 10000000000.0 then v / 1000.0 else v
  }

  // A time of the years 1971 to 2286 reads the same in seconds and in milliseconds, and one that cannot be read
  // lies before any of them.
  lemma StampsReadInEitherUnit(seconds: real)
    requires 10000000.0 < seconds <= 10000000000.0
    ensures ParseTs(Some(seconds)) == ParseTs(Some(1000.0 * seconds)) == seconds
    ensures ParseTs(None) < 0.0
  {
  }

  function Ts(t: Raw): real {
    ParseTs(t.stamp)
  }

  predicate OldestFirst(s: seq<Raw>) {
    forall i, j :: 0 <= i < j < |s| ==> Ts(s[i]) <= Ts(s[j])
  }

  // ------------------------------------------------------------------ the trades inside the window

  function AtOrAfter(cutoff: real): Raw -> bool {
    (t: Raw) => Ts(t) >= cutoff
  }

  function Recent(s: seq<Raw>, cutoff: real): seq<Raw> {
    Filter(s, AtOrAfter(cutoff))
  }

  lemma RecentOfOldFront(s: seq<Raw>, cutoff: real, c: nat)
    requires c <= |s| && forall i :: 0 <= i < c ==> Ts(s[i]) < cutoff
    ensures Recent(s, cutoff) == Recent(s[c..], cutoff)
  {
    FilterDrops(s[..c], AtOrAfter(cutoff));
    FilterAppend(s[..c], s[c..], AtOrAfter(cutoff));
    assert s == s[..c] + s[c..];
  }

  lemma RecentIsFilter(s: seq<Raw>, cutoff: real, t: Raw)
    ensures multiset(Recent(s, cutoff))[t] == if Ts(t) >= cutoff then multiset(s)[t] else 0
  {
    FilterCounts(s, AtOrAfter(cutoff), t);
  }

  lemma RecentIsMonotone(a: seq<Raw>, b: seq<Raw>, cutoff: real)
    requires multiset(a) <= multiset(b)
    ensures multiset(Recent(a, cutoff)) <= multiset(Recent(b, cutoff))
    ensures multiset(Recent(a, cutoff)) <= multiset(a)
  {
    forall t: Raw
      ensures multiset(Recent(a, cutoff))[t] <= multiset(Recent(b, cutoff))[t]
      ensures multiset(Recent(a, cutoff))[t] <= multiset(a)[t]
    {
      RecentIsFilter(a, cutoff, t);
      RecentIsFilter(b, cutoff, t);
    }
  }

  // ------------------------------------------------------------------ fetching

  // What one page request comes back with, after its retries.
  datatype Reply = Delivered | RateLimited | HttpError

  datatype Reason = Faulted(reply: Reply) | MaxPages

  datatype FetchResult = FetchResult(trades: seq<Raw>, truncated: bool, reason: Option<Reason>)

  // The wallet's trades, oldest first; the server lists the first n of them newest first.  A page skips
  // `offset` trades from the newest end and takes up to `limit`.
  function PageStart(n: nat, offset: nat, limit: nat): nat {
    if n < offset + limit then 0 else n - offset - limit
  }

  function Page(timeline: seq<Raw>, n: nat, offset: nat, limit: nat): seq<Raw>
    requires n <= |timeline|
  {
    if n < offset then [] else Reversed(timeline[PageStart(n, offset, limit)..n - offset])
  }

  // Of the trades listed at the start, all from index c on have been delivered, each as often as it occurs.
  ghost predicate Covers(trades: seq<Raw>, timeline: seq<Raw>, start: nat, c: nat)
    requires start <= |timeline|
  {
    c <= start && multiset(timeline[c..start]) <= multiset(trades)
  }

  lemma SlicesAdd(s: seq<Raw>, a: nat, b: nat, c: nat)
    requires a <= b <= c <= |s|
    ensures multiset(s[a..c]) == multiset(s[a..b]) + multiset(s[b..c])
  {
    assert s[a..c] == s[a..b] + s[b..c];
  }

  // A page whose newest row is not older than what is covered extends the cover down to its oldest
  // row: rows may be delivered again, but none is jumped over.
  lemma PageExtendsCover(trades: seq<Raw>, timeline: seq<Raw>, start: nat, c: nat, lo: nat, hi: nat)
    requires start <= |timeline| && lo <= hi <= |timeline|
    requires Covers(trades, timeline, start, c) && c <= hi
    ensures Covers(trades + Reversed(timeline[lo..hi]), timeline, start, if lo < c then lo else c)
  {
    ReversedKeeps(timeline[lo..hi]);
    if lo < c {
      SlicesAdd(timeline, lo, c, hi);
      SlicesAdd(timeline, lo, c, start);
    }
  }

  lemma CoveredWindow(trades: seq<Raw>, timeline: seq<Raw>, start: nat, c: nat, cutoff: real)
    requires start <= |timeline| && Covers(trades, timeline, start, c)
    requires forall i :: 0 <= i < c ==> Ts(timeline[i]) < cutoff
    ensures multiset(Recent(timeline[..start], cutoff)) <= multiset(trades)
  {
    RecentOfOldFront(timeline[..start], cutoff, c);
    assert timeline[..start][c..] == timeline[c..start];
    RecentIsMonotone(timeline[c..start], timeline[c..start], cutoff);
  }

  lemma SliceIsWithin(s: seq<Raw>, lo: nat, hi: nat)
    requires lo <= hi <= |s|
    ensures multiset(s[lo..hi]) <= multiset(s)
  {
    SlicesAdd(s, 0, lo, hi);
    SlicesAdd(s, 0, hi, |s|);
    assert s[0..|s|] == s;
  }

  lemma PageIsFromTimeline(timeline: seq<Raw>, n: nat, offset: nat, limit: nat)
    requires n <= |timeline|
    ensures multiset(Page(timeline, n, offset, limit)) <= multiset(timeline)
    ensures var page := Page(timeline, n, offset, limit);
            && |page| == (if n < offset then 0 else n - offset - PageStart(n, offset, limit))
            && (page != [] ==> page[|page| - 1] == timeline[PageStart(n, offset, limit)])
  {
    if offset <= n {
      var lo := PageStart(n, offset, limit);
      ReversedKeeps(timeline[lo..n - offset]);
      SliceIsWithin(timeline, lo, n - offset);
    }
  }

  // Every delivered row is a trade of this wallet.
  ghost predicate From(trades: seq<Raw>, timeline: seq<Raw>) {
    forall t :: t in trades ==> t in timeline
  }

  // The length of k full pages.
  function Pages(k: nat, limit: nat): nat {
    if k == 0 then 0 else Pages(k - 1, limit) + limit
  }

  // What is covered once the page has been added.
  function CoverAfter(n: nat, offset: nat, limit: nat, c: nat): nat {
    if PageStart(n, offset, limit) < c then PageStart(n, offset, limit) else c
  }

  lemma OnePage(trades: seq<Raw>, timeline: seq<Raw>, start: nat, n: nat, offset: nat, limit: nat, c: nat)
    requires start <= n <= |timeline|
    requires Covers(trades, timeline, start, c) && From(trades, timeline)
    requires (c <= n - offset || c == 0) && limit > 0
    ensures var page := Page(timeline, n, offset, limit);
      && Covers(trades + page, timeline, start, CoverAfter(n, offset, limit, c))
      && From(trades + page, timeline)
      && (|page| < limit ==> CoverAfter(n, offset, limit, c) == 0)
      && (|page| >= limit ==> CoverAfter(n, offset, limit, c) <= n - offset - limit && |page| == limit)
      && (|page| > 0 ==> page[|page| - 1] == timeline[PageStart(n, offset, limit)])
  {
    hide From, Covers, Reversed;
    PageIsFromTimeline(timeline, n, offset, limit);
    var page := Page(timeline, n, offset, limit);
    if offset <= n {
      PageExtendsCover(trades, timeline, start, c, PageStart(n, offset, limit), n - offset);
    } else {
      assert trades + page == trades;
    }
    FromGrows(trades, page, timeline);
  }

  lemma FromGrows(trades: seq<Raw>, page: seq<Raw>, timeline: seq<Raw>)
    requires From(trades, timeline) && multiset(page) <= multiset(timeline)
    ensures From(trades + page, timeline)
  {
    forall t | t in trades + page
      ensures t in timeline
    {
      assert t in page ==> t in multiset(page);
    }
  }

  lemma NothingYet(timeline: seq<Raw>, start: nat)
    requires start <= |timeline|
    ensures Covers([], timeline, start, start) && From([], timeline)
  {
    assert timeline[start..start] == [];
  }

  method FetchWalletTrades(timeline: seq<Raw>, start: nat, listed: seq<nat>, replies: seq<Reply>, cutoff: real, limit: nat)
    returns (r: FetchResult)
    requires OldestFirst(timeline) && start <= |timeline| && |listed| == |replies| == MAX_PAGES && limit > 0
    // Between two requests the list can only grow, and only at its newest end.
    requires forall k :: 0 <= k < MAX_PAGES ==> start <= listed[k] <= |timeline|
    requires forall j, k :: 0 <= j < k < MAX_PAGES ==> listed[j] <= listed[k]
    // However the loop ends, unless it reports truncation nothing in the window was skipped.
    ensures !r.truncated ==> multiset(Recent(timeline[..start], cutoff)) <= multiset(r.trades)
    ensures From(r.trades, timeline)
    ensures r.truncated <==> r.reason.Some?
    ensures r.reason.Some? && r.reason.value.Faulted? ==> r.reason.value.reply in replies && !r.reason.value.reply.Delivered?
    ensures r.reason == Some(MaxPages) ==> |r.trades| == Pages(MAX_PAGES, limit)
  {
    hide Covers, From, Page, Recent;
    var all: seq<Raw> := [];
    var offset := 0;
    ghost var c: nat := start;
    NothingYet(timeline, start);
    for k := 0 to MAX_PAGES
      invariant offset == |all| == Pages(k, limit)
      invariant Covers(all, timeline, start, c) && From(all, timeline)
      invariant k < MAX_PAGES ==> c <= listed[k] - offset || c == 0
    {
      if !replies[k].Delivered? {
        return FetchResult(all, true, Some(Faulted(replies[k])));
      }
      var n := listed[k];
      var page := Page(timeline, n, offset, limit);
      OnePage(all, timeline, start, n, offset, limit, c);
      ghost var lo := PageStart(n, offset, limit);
      c := CoverAfter(n, offset, limit, c);
      if page == [] {
        assert all + page == all;
        CoveredWindow(all, timeline, start, c, cutoff);
        return FetchResult(all, false, None);
      }
      all := all + page;
      if |page| < limit {
        CoveredWindow(all, timeline, start, c, cutoff);
        return FetchResult(all, false, None);
      }
      if Ts(page[|page| - 1]) < cutoff {
        CoveredWindow(all, timeline, start, c, cutoff);
        return FetchResult(all, false, None);
      }
      offset := offset + limit;
    }
    return FetchResult(all, true, Some(MaxPages));
  }

  // ------------------------------------------------------------------ trimming and sorting

  // Stable insertion by time, as the library sort orders equal keys.
  function InsertByTime(s: seq<Raw>, t: Raw): seq<Raw> {
    if s == [] || Ts(s[|s| - 1]) <= Ts(t) then s + [t]
    else InsertByTime(s[..|s| - 1], t) + [s[|s| - 1]]
  }

  function SortByTime(s: seq<Raw>): seq<Raw> {
    if s == [] then [] else InsertByTime(SortByTime(s[..|s| - 1]), s[|s| - 1])
  }

  function FilterAndSortWindow(raw: seq<Raw>, cutoff: real): seq<Raw> {
    SortByTime(Recent(raw, cutoff))
  }

  // The trades at one instant, in order.
  function IsAt(ts: real): Raw -> bool {
    (t: Raw) => Ts(t) == ts
  }

  function AtTime(s: seq<Raw>, ts: real): seq<Raw> {
    Filter(s, IsAt(ts))
  }

  predicate NoneLater(s: seq<Raw>, ts: real) {
    forall i :: 0 <= i < |s| ==> Ts(s[i]) <= ts
  }

  lemma {:induction false} InsertKeepsBound(s: seq<Raw>, t: Raw, ts: real)
    requires NoneLater(s, ts) && Ts(t) <= ts
    ensures NoneLater(InsertByTime(s, t), ts)
  {
    if !(s == [] || Ts(s[|s| - 1]) <= Ts(t)) {
      InsertKeepsBound(s[..|s| - 1], t, ts);
    }
  }

  lemma {:induction false} InsertKeepsOrder(s: seq<Raw>, t: Raw)
    requires OldestFirst(s)
    ensures OldestFirst(InsertByTime(s, t))
  {
    if !(s == [] || Ts(s[|s| - 1]) <= Ts(t)) {
      InsertKeepsOrder(s[..|s| - 1], t);
      InsertKeepsBound(s[..|s| - 1], t, Ts(s[|s| - 1]));
    }
  }

  lemma {:induction false} InsertKeepsTrades(s: seq<Raw>, t: Raw)
    ensures multiset(InsertByTime(s, t)) == multiset(s) + multiset{t}
  {
    if !(s == [] || Ts(s[|s| - 1]) <= Ts(t)) {
      InsertKeepsTrades(s[..|s| - 1], t);
      MultisetOfSnoc(s);
    }
  }

  lemma AtTimeOfSnoc(s: seq<Raw>, t: Raw, ts: real)
    ensures AtTime(s + [t], ts) == AtTime(s, ts) + if Ts(t) == ts then [t] else []
  {
    assert (s + [t])[..|s|] == s;
  }

  lemma {:induction false} InsertIsStable(s: seq<Raw>, t: Raw, ts: real)
    ensures AtTime(InsertByTime(s, t), ts) == AtTime(s, ts) + if Ts(t) == ts then [t] else []
  {
    if s == [] || Ts(s[|s| - 1]) <= Ts(t) {
      AtTimeOfSnoc(s, t, ts);
    } else {
      InsertIsStable(s[..|s| - 1], t, ts);
      AtTimeOfSnoc(InsertByTime(s[..|s| - 1], t), s[|s| - 1], ts);
    }
  }

  lemma {:induction false} SortKeeps(s: seq<Raw>, ts: real)
    ensures OldestFirst(SortByTime(s))
    ensures multiset(SortByTime(s)) == multiset(s)
    ensures AtTime(SortByTime(s), ts) == AtTime(s, ts)
  {
    if s == [] {
    } else {
      var g, t := s[..|s| - 1], s[|s| - 1];
      SortKeeps(g, ts);
      InsertKeepsOrder(SortByTime(g), t);
      InsertKeepsTrades(SortByTime(g), t);
      InsertIsStable(SortByTime(g), t, ts);
      MultisetOfSnoc(s);
    }
  }

  // The window is oldest first, holds exactly the fetched trades at or after the cutoff, and keeps the
  // delivery order of trades with equal times.
  lemma WindowIsSortedAndExact(raw: seq<Raw>, cutoff: real, t: Raw, ts: real)
    ensures var w := FilterAndSortWindow(raw, cutoff);
      && OldestFirst(w)
      && multiset(w)[t] == (if Ts(t) >= cutoff then multiset(raw)[t] else 0)
      && AtTime(w, ts) == AtTime(Recent(raw, cutoff), ts)
  {
    SortKeeps(Recent(raw, cutoff), ts);
    RecentIsFilter(raw, cutoff, t);
  }

  // A fetch that was not truncated puts every trade that was listed at its start, and lies in the
  // lookback window, into the window that is ingested.
  lemma UntruncatedWindowIsComplete(initial: seq<Raw>, fetched: seq<Raw>, cutoff: real)
    requires multiset(Recent(initial, cutoff)) <= multiset(fetched)
    ensures multiset(Recent(initial, cutoff)) <= multiset(FilterAndSortWindow(fetched, cutoff))
  {
    SortKeeps(Recent(fetched, cutoff), 0.0);
    forall t: Raw
      ensures multiset(Recent(initial, cutoff))[t] <= multiset(Recent(fetched, cutoff))[t]
    {
      RecentIsFilter(initial, cutoff, t);
      RecentIsFilter(fetched, cutoff, t);
    }
  }
}

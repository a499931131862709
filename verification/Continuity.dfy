/**
 The continuity audit: hours without a trade, grouped into gaps. An hour is an integer.
 */
module Continuity {
  datatype Gap = Gap(start: int, end: int)

  const GAP_MIN_HOURS := 2

  // The hours of [start, end) that have a trade.
  function PresentIn(present: set<int>, start: int, end: int): set<int> {
    set h | h in present && start <= h < end
  }

  predicate InGap(g: Gap, h: int) {
    g.start <= h < g.end
  }

  predicate AllAbsent(present: set<int>, from: int, to: int) {
    forall h :: from <= h < to ==> h !in present
  }

  // A longest run of absent hours inside [start, end).
  ghost predicate IsMaximalRun(g: Gap, present: set<int>, start: int, end: int) {
    && start <= g.start < g.end <= end
    && AllAbsent(present, g.start, g.end)
    && (g.start == start || g.start - 1 in present)
    && (g.end == end || g.end in present)
  }

  ghost predicate Covered(gaps: seq<Gap>, h: int) {
    exists i :: 0 <= i < |gaps| && InGap(gaps[i], h)
  }

  // Maximal runs that all end before hour h, each after the one before it.
  ghost predicate RunsBefore(gaps: seq<Gap>, present: set<int>, start: int, end: int, h: int) {
    && (forall i :: 0 <= i < |gaps| ==> IsMaximalRun(gaps[i], present, start, end) && gaps[i].end < h)
    && (forall i, j :: 0 <= i < j < |gaps| ==> gaps[i].end < gaps[j].start)
  }

  ghost predicate CoversTo(gaps: seq<Gap>, present: set<int>, start: int, h: int) {
    forall k :: start <= k < h && k !in present ==> Covered(gaps, k)
  }

  // Exactly the maximal runs of absent hours, in order.
  ghost predicate AreGaps(gaps: seq<Gap>, present: set<int>, start: int, end: int) {
    RunsBefore(gaps, present, start, end, end + 1) && CoversTo(gaps, present, start, end)
  }

  function TotalHours(gaps: seq<Gap>): int {
    if gaps == [] then 0 else TotalHours(gaps[..|gaps| - 1]) + gaps[|gaps| - 1].end - gaps[|gaps| - 1].start
  }

  lemma PresentSnoc(present: set<int>, start: int, h: int)
    requires start <= h
    ensures PresentIn(present, start, h + 1) == PresentIn(present, start, h) + if h in present then {h} else {}
    ensures h !in PresentIn(present, start, h)
  {
  }

  lemma TotalSnoc(gaps: seq<Gap>, g: Gap)
    ensures TotalHours(gaps + [g]) == TotalHours(gaps) + g.end - g.start
  {
    assert (gaps + [g])[..|gaps|] == gaps;
  }

  // What the walk has found before hour h, when a run of absent hours from run on is still open
  // (run is h when none is).
  ghost predicate Walked(gaps: seq<Gap>, present: set<int>, start: int, end: int, run: int, h: int) {
    && start <= run <= h
    && RunsBefore(gaps, present, start, end, run) && CoversTo(gaps, present, start, run)
    && AllAbsent(present, run, h)
    && TotalHours(gaps) + h - run + |PresentIn(present, start, h)| == h - start
  }

  lemma WalkStarts(present: set<int>, start: int, end: int)
    ensures Walked([], present, start, end, start, start)
  {
    assert PresentIn(present, start, start) == {};
  }

  // An absent hour extends the open run; a present one is passed over when none is open.
  lemma WalkSteps(gaps: seq<Gap>, present: set<int>, start: int, end: int, run: int, h: int)
    requires Walked(gaps, present, start, end, run, h) && (h in present ==> run == h)
    ensures Walked(gaps, present, start, end, if h in present then h + 1 else run, h + 1)
  {
    PresentSnoc(present, start, h);
    if h in present {
      MoreHours(gaps, present, start, end, h);
    }
    hide RunsBefore, CoversTo, TotalHours, PresentIn;
  }

  // A present hour adds nothing to find.
  lemma MoreHours(gaps: seq<Gap>, present: set<int>, start: int, end: int, h: int)
    requires h in present
    ensures RunsBefore(gaps, present, start, end, h) ==> RunsBefore(gaps, present, start, end, h + 1)
    ensures CoversTo(gaps, present, start, h) ==> CoversTo(gaps, present, start, h + 1)
  {
    hide IsMaximalRun, Covered;
  }

  lemma RunsSnoc(gaps: seq<Gap>, g: Gap, present: set<int>, start: int, end: int)
    requires RunsBefore(gaps, present, start, end, g.start) && IsMaximalRun(g, present, start, end)
    ensures RunsBefore(gaps + [g], present, start, end, g.end + 1)
  {
    hide AllAbsent;
  }

  lemma CoveredSnoc(gaps: seq<Gap>, g: Gap, k: int)
    ensures Covered(gaps, k) || InGap(g, k) ==> Covered(gaps + [g], k)
  {
    var more := gaps + [g];
    if i :| 0 <= i < |gaps| && InGap(gaps[i], k) {
      assert InGap(more[i], k);
    }
    assert more[|gaps|] == g;
  }

  lemma CoversSnoc(gaps: seq<Gap>, g: Gap, present: set<int>, start: int)
    requires CoversTo(gaps, present, start, g.start)
    ensures CoversTo(gaps + [g], present, start, g.end)
  {
    forall k | start <= k < g.end && k !in present
      ensures Covered(gaps + [g], k)
    {
      CoveredSnoc(gaps, g, k);
    }
  }

  // The open run closes at a present hour ...
  lemma RunCloses(gaps: seq<Gap>, present: set<int>, start: int, end: int, run: int, h: int)
    requires Walked(gaps, present, start, end, run, h)
    requires run < h < end && (run == start || run - 1 in present) && h in present
    ensures Walked(gaps + [Gap(run, h)], present, start, end, h + 1, h + 1)
  {
    var g := Gap(run, h);
    RunsSnoc(gaps, g, present, start, end);
    CoversSnoc(gaps, g, present, start);
    MoreHours(gaps + [g], present, start, end, h);
    TotalSnoc(gaps, g);
    PresentSnoc(present, start, h);
    hide RunsBefore, CoversTo, TotalHours, PresentIn;
  }

  // ... or at the end of the walk.
  lemma RunEnds(gaps: seq<Gap>, present: set<int>, start: int, end: int, run: int)
    requires Walked(gaps, present, start, end, run, end)
    requires run < end && (run == start || run - 1 in present)
    ensures AreGaps(gaps + [Gap(run, end)], present, start, end)
    ensures TotalHours(gaps + [Gap(run, end)]) + |PresentIn(present, start, end)| == end - start
  {
    var g := Gap(run, end);
    RunsSnoc(gaps, g, present, start, end);
    CoversSnoc(gaps, g, present, start);
    TotalSnoc(gaps, g);
    hide RunsBefore, CoversTo, TotalHours, PresentIn;
  }

  lemma WalkEnds(gaps: seq<Gap>, present: set<int>, start: int, end: int, h: int)
    requires Walked(gaps, present, start, end, h, h) && (h == end || h == start > end)
    ensures AreGaps(gaps, present, start, end)
    ensures TotalHours(gaps) + |PresentIn(present, start, end)| == if start <= end then end - start else 0
  {
  }

  method FindGaps(present: set<int>, start: int, end: int) returns (gaps: seq<Gap>)
    ensures AreGaps(gaps, present, start, end)
    // Gap hours and present hours add up to the expected hours.
    ensures TotalHours(gaps) + |PresentIn(present, start, end)| == if start <= end then end - start else 0
  {
    hide *;
    gaps := [];
    var runStart: int, open := start, false;
    ghost var run := start;
    var h := start;
    WalkStarts(present, start, end);
    while h < end
      invariant start <= run <= h && (h <= end || h == start)
      invariant if open then run == runStart < h && (run == start || run - 1 in present)
                else run == h && (h == start || h - 1 in present)
      invariant Walked(gaps, present, start, end, run, h)
    {
      if h !in present {
        WalkSteps(gaps, present, start, end, run, h);
        if !open {
          runStart, open := h, true;
        }
      } else {
        if open {
          RunCloses(gaps, present, start, end, run, h);
          gaps := gaps + [Gap(runStart, h)];
          open := false;
        } else {
          WalkSteps(gaps, present, start, end, h, h);
        }
        run := h + 1;
      }
      h := h + 1;
    }
    if open {
      RunEnds(gaps, present, start, end, run);
      gaps := gaps + [Gap(runStart, end)];
    } else {
      WalkEnds(gaps, present, start, end, h);
    }
  }

  // Every maximal run is in the list.
  lemma MaximalRunIsListed(gaps: seq<Gap>, g: Gap, present: set<int>, start: int, end: int) returns (i: nat)
    requires AreGaps(gaps, present, start, end) && IsMaximalRun(g, present, start, end)
    ensures i < |gaps| && gaps[i] == g
  {
    assert Covered(gaps, g.start);
    var k :| 0 <= k < |gaps| && InGap(gaps[k], g.start);
    assert IsMaximalRun(gaps[k], present, start, end);
    i := k;
  }

  // The list of gaps is determined by the hours: the walk could not have answered otherwise.
  lemma GapsAreUnique(gaps: seq<Gap>, other: seq<Gap>, present: set<int>, start: int, end: int)
    requires AreGaps(gaps, present, start, end) && AreGaps(other, present, start, end)
    ensures gaps == other
  {
    SameUpTo(gaps, other, present, start, end, |gaps|);
    SameUpTo(other, gaps, present, start, end, |other|);
    assert gaps[..|gaps|] == gaps && other[..|other|] == other;
  }

  lemma {:induction false} SameUpTo(gaps: seq<Gap>, other: seq<Gap>, present: set<int>, start: int, end: int, n: nat)
    requires AreGaps(gaps, present, start, end) && AreGaps(other, present, start, end) && n <= |gaps|
    ensures n <= |other| && forall i :: 0 <= i < n ==> gaps[i] == other[i]
  {
    if n == 0 {
    } else {
      SameUpTo(gaps, other, present, start, end, n - 1);
      var j := MaximalRunIsListed(other, gaps[n - 1], present, start, end);
      var i := MaximalRunIsListed(gaps, other[n - 1], present, start, end);
      hide IsMaximalRun, Covered;
      Starts(gaps, present, start, end);
      Starts(other, present, start, end);
    }
  }

  lemma Starts(gaps: seq<Gap>, present: set<int>, start: int, end: int)
    requires AreGaps(gaps, present, start, end)
    ensures forall i, j :: 0 <= i < j < |gaps| ==> gaps[i].start < gaps[j].start
  {
    assert forall i :: 0 <= i < |gaps| ==> IsMaximalRun(gaps[i], present, start, end);
  }

  // ------------------------------------------------------------------ the alert

  predicate Alarming(g: Gap, cutoff: int) {
    g.end - g.start >= GAP_MIN_HOURS && g.end > cutoff
  }

  // The longest gap of at least two hours that ends after the cutoff.
  function RecentGapHours(gaps: seq<Gap>, cutoff: int): (r: int)
    ensures r == 0 || exists i :: 0 <= i < |gaps| && Alarming(gaps[i], cutoff) && r == gaps[i].end - gaps[i].start
    ensures forall i :: 0 <= i < |gaps| && Alarming(gaps[i], cutoff) ==> r >= gaps[i].end - gaps[i].start
  {
    if gaps == [] then 0
    else
      var g, most := gaps[|gaps| - 1], RecentGapHours(gaps[..|gaps| - 1], cutoff);
      assert forall i :: 0 <= i < |gaps| - 1 ==> gaps[..|gaps| - 1][i] == gaps[i];
      if Alarming(g, cutoff) && g.end - g.start > most then g.end - g.start else most
  }

  // The audit reports n hours or more exactly when at least n hours in a row have no trade, up to
  // the cutoff or later.
  lemma AlertExactlyOnRecentSilence(gaps: seq<Gap>, present: set<int>, start: int, end: int, cutoff: int, n: int)
    requires AreGaps(gaps, present, start, end) && n >= 2
    ensures RecentGapHours(gaps, cutoff) >= n <==>
      exists from, to :: start <= from && to <= end && to - from >= n && to > cutoff && AllAbsent(present, from, to)
  {
    if from, to :| start <= from && to <= end && to - from >= n && to > cutoff && AllAbsent(present, from, to) {
      assert Covered(gaps, from);
      var i :| 0 <= i < |gaps| && InGap(gaps[i], from);
      assert IsMaximalRun(gaps[i], present, start, end);
      assert gaps[i].end >= to;
      assert Alarming(gaps[i], cutoff);
    }
    if RecentGapHours(gaps, cutoff) >= n {
      var i :| 0 <= i < |gaps| && Alarming(gaps[i], cutoff) && RecentGapHours(gaps, cutoff) == gaps[i].end - gaps[i].start;
      assert IsMaximalRun(gaps[i], present, start, end);
    }
  }
}

/**
 Accumulation signals: over the prints of one wallet in one asset, ordered by time, a signal fires where
 the net notional of the trailing window rises to the threshold.
 */
module Crossings {
  import opened Sums

  datatype Print = Print(ts: int, isBuy: bool, notional: real, price: real)

  function Signed(p: Print): real {
    if p.isBuy then p.notional else -p.notional
  }

  predicate Ordered(rows: seq<Print>) {
    forall i, j :: 0 <= i < j < |rows| ==> rows[i].ts <= rows[j].ts
  }

  // What a print adds to the window that ends at `ts`; the window is a range of times, so it holds
  // every print at its own end as well.
  function InWindow(ts: int, window: nat): Print -> real {
    (p: Print) => if ts - window <= p.ts <= ts then Signed(p) else 0.0
  }

  function NetAt(rows: seq<Print>, window: nat, ts: int): real {
    SumBy(rows, InWindow(ts, window))
  }

  function Net(rows: seq<Print>, window: nat, i: nat): real
    requires i < |rows|
  {
    NetAt(rows, window, rows[i].ts)
  }

  // Prints of one side that are at most the window older than a time, and not newer than it.
  function SideWithin(isBuy: bool, window: nat, ts: int): Print -> real {
    (p: Print) => if p.isBuy == isBuy && p.ts <= ts && ts - p.ts <= window then p.notional else 0.0
  }

  // The net is what the prints of the window bought, less what they sold.
  lemma {:induction false} NetIsBuysLessSells(rows: seq<Print>, window: nat, ts: int)
    ensures NetAt(rows, window, ts) == SumBy(rows, SideWithin(true, window, ts)) - SumBy(rows, SideWithin(false, window, ts))
  {
    if rows == [] {
    } else {
      NetIsBuysLessSells(rows[..|rows| - 1], window, ts);
    }
  }

  predicate Elevated(rows: seq<Print>, window: nat, min: real, i: nat)
    requires i < |rows|
  {
    Net(rows, window, i) >= min
  }

  // The row passes the query: elevated, and the row before it (if any) was not.
  predicate Fires(rows: seq<Print>, window: nat, min: real, i: nat)
    requires i < |rows|
  {
    Elevated(rows, window, min, i) && (i == 0 || Net(rows, window, i - 1) < min)
  }

  // A signal: its time, its price and the net it fired with.
  datatype Signal = Signal(time: int, price: real, accumulated: real)

  function Signals(rows: seq<Print>, window: nat, min: real, n: nat): seq<Signal>
    requires n <= |rows|
  {
    if n == 0 then []
    else
      Signals(rows, window, min, n - 1)
      + if Fires(rows, window, min, n - 1)
        then [Signal(rows[n - 1].ts, rows[n - 1].price, Net(rows, window, n - 1))] else []
  }

  // ------------------------------------------------------------------ rising edges

  // Elevated rows [i, e) that cannot be extended on either side.
  predicate MaximalRun(rows: seq<Print>, window: nat, min: real, i: nat, e: nat) {
    && i < e <= |rows|
    && (forall k :: i <= k < e ==> Elevated(rows, window, min, k))
    && (i == 0 || !Elevated(rows, window, min, i - 1))
    && (e == |rows| || !Elevated(rows, window, min, e))
  }

  lemma {:induction false} RunExtends(rows: seq<Print>, window: nat, min: real, i: nat, e: nat) returns (end: nat)
    requires i < e <= |rows| && forall k :: i <= k < e ==> Elevated(rows, window, min, k)
    ensures e <= end <= |rows| && (forall k :: i <= k < end ==> Elevated(rows, window, min, k))
    ensures end == |rows| || !Elevated(rows, window, min, end)
    decreases |rows| - e
  {
    if e == |rows| || !Elevated(rows, window, min, e) {
      end := e;
    } else {
      end := RunExtends(rows, window, min, i, e + 1);
    }
  }

  lemma {:induction false} RunBegins(rows: seq<Print>, window: nat, min: real, j: nat) returns (i: nat)
    requires j < |rows| && Elevated(rows, window, min, j)
    ensures i <= j && Fires(rows, window, min, i)
    ensures forall k :: i <= k <= j ==> Elevated(rows, window, min, k)
  {
    if j == 0 || !Elevated(rows, window, min, j - 1) {
      i := j;
    } else {
      i := RunBegins(rows, window, min, j - 1);
    }
  }

  // The firing rows are exactly the first rows of the maximal elevated runs.
  lemma FiresAtRunStarts(rows: seq<Print>, window: nat, min: real, i: nat)
    requires i < |rows|
    ensures Fires(rows, window, min, i) <==> exists e :: MaximalRun(rows, window, min, i, e)
  {
    if Fires(rows, window, min, i) {
      var e := RunExtends(rows, window, min, i, i + 1);
      assert MaximalRun(rows, window, min, i, e);
    }
  }

  // Row i fires, and the net stays up from it to row j.
  predicate RunReaches(rows: seq<Print>, window: nat, min: real, i: nat, j: nat) {
    i <= j < |rows| && Fires(rows, window, min, i) && forall k :: i <= k <= j ==> Elevated(rows, window, min, k)
  }

  // Every elevated row belongs to the run of exactly one firing row.
  lemma ElevatedRowsHaveOneSignal(rows: seq<Print>, window: nat, min: real, j: nat, a: nat, b: nat)
    requires j < |rows| && Elevated(rows, window, min, j)
    ensures exists i: nat :: RunReaches(rows, window, min, i, j)
    ensures RunReaches(rows, window, min, a, j) && RunReaches(rows, window, min, b, j) ==> a == b
  {
    var i := RunBegins(rows, window, min, j);
    assert RunReaches(rows, window, min, i, j);
    if RunReaches(rows, window, min, a, j) && RunReaches(rows, window, min, b, j) {
      RunsDoNotOverlap(rows, window, min, a, b, j);
      RunsDoNotOverlap(rows, window, min, b, a, j);
    }
  }

  lemma RunsDoNotOverlap(rows: seq<Print>, window: nat, min: real, a: nat, b: nat, j: nat)
    requires RunReaches(rows, window, min, a, j) && RunReaches(rows, window, min, b, j)
    ensures b <= a
  {
    assert b > 0 ==> !Elevated(rows, window, min, b - 1);
  }

  // Between two firing rows the net has been below the threshold.
  lemma DropBetweenSignals(rows: seq<Print>, window: nat, min: real, i: nat, j: nat)
    requires i < j < |rows| && Fires(rows, window, min, i) && Fires(rows, window, min, j)
    ensures exists k :: i < k < j && !Elevated(rows, window, min, k)
  {
    assert !Elevated(rows, window, min, j - 1);
  }

  // ------------------------------------------------------------------ prints at one time

  // Prints at one time see the same window, so only the first of them can fire.
  lemma OnlyTheFirstOfPeersFires(rows: seq<Print>, window: nat, min: real, i: nat)
    requires 0 < i < |rows| && rows[i].ts == rows[i - 1].ts
    ensures !Fires(rows, window, min, i)
  {
  }

  predicate Increasing(s: seq<Signal>) {
    forall i, j :: 0 <= i < j < |s| ==> s[i].time < s[j].time
  }

  lemma IncreasingSnoc(s: seq<Signal>, x: Signal)
    requires Increasing(s) && (s != [] ==> s[|s| - 1].time < x.time)
    ensures Increasing(s + [x])
  {
    assert forall i :: 0 <= i < |s| ==> s[i].time <= s[|s| - 1].time;
  }

  // The last signal is not later than the last row, and if it has that row's time the row is elevated.
  lemma {:induction false} SignalTimesIncrease(rows: seq<Print>, window: nat, min: real, n: nat)
    requires Ordered(rows) && 0 < n <= |rows|
    ensures var s := Signals(rows, window, min, n);
      && Increasing(s)
      && (s != [] ==> s[|s| - 1].time <= rows[n - 1].ts)
      && (s != [] && s[|s| - 1].time == rows[n - 1].ts ==> Elevated(rows, window, min, n - 1))
  {
    hide NetAt, Increasing;
    var s := Signals(rows, window, min, n - 1);
    if n > 1 {
      SignalTimesIncrease(rows, window, min, n - 1);
    } else {
      assert s == [];
      assert Increasing([]) by {
        NothingIncreases();
      }
    }
    if Fires(rows, window, min, n - 1) {
      assert n > 1 ==> !Elevated(rows, window, min, n - 2);
      IncreasingSnoc(s, Signal(rows[n - 1].ts, rows[n - 1].price, Net(rows, window, n - 1)));
    } else {
      assert s + [] == s;
    }
  }

  lemma NothingIncreases()
    ensures Increasing([])
  {
  }

  // No two signals of a wallet and asset share a time, so the key they are stored under is unique.
  lemma SignalKeysAreDistinct(rows: seq<Print>, window: nat, min: real)
    requires Ordered(rows)
    ensures var s := Signals(rows, window, min, |rows|);
            forall i, j :: 0 <= i < j < |s| ==> s[i].time != s[j].time
  {
    if rows != [] {
      SignalTimesIncrease(rows, window, min, |rows|);
    }
  }

  // ------------------------------------------------------------------ ties in any order

  function NotLater(ts: int): Print -> real {
    (p: Print) => if p.ts <= ts then 1.0 else 0.0
  }

  lemma {:induction false} CountAtLeast(rows: seq<Print>, ts: int, n: nat)
    requires n <= |rows| && forall i :: 0 <= i < n ==> rows[i].ts <= ts
    ensures SumBy(rows, NotLater(ts)) >= n as real
  {
    if rows == [] {
    } else {
      CountAtLeast(rows[..|rows| - 1], ts, if n == |rows| then n - 1 else n);
    }
  }

  lemma {:induction false} CountAtMost(rows: seq<Print>, ts: int, n: nat)
    requires n <= |rows| && forall i :: n <= i < |rows| ==> rows[i].ts > ts
    ensures SumBy(rows, NotLater(ts)) <= n as real
  {
    if rows == [] {
    } else {
      CountAtMost(rows[..|rows| - 1], ts, if n == |rows| then n - 1 else n);
    }
  }

  // Two orderings of the same prints by time have the same time in every place.
  lemma SameTimes(a: seq<Print>, b: seq<Print>, i: nat)
    requires Ordered(a) && Ordered(b) && multiset(a) == multiset(b) && i < |a| == |b|
    ensures a[i].ts == b[i].ts
  {
    if a[i].ts < b[i].ts {
      NotEarlier(a, b, i);
    }
    if b[i].ts < a[i].ts {
      NotEarlier(b, a, i);
    }
  }

  lemma NotEarlier(a: seq<Print>, b: seq<Print>, i: nat)
    requires Ordered(a) && Ordered(b) && multiset(a) == multiset(b) && i < |a| == |b|
    ensures a[i].ts >= b[i].ts
  {
    if a[i].ts < b[i].ts {
      CountAtLeast(a, a[i].ts, i + 1);
      CountAtMost(b, a[i].ts, i);
      SumByPermutation(a, b, NotLater(a[i].ts));
    }
  }

  // Whatever order prints with equal times come in, the same rows fire, at the same times and with the
  // same accumulated net.
  lemma TieOrderDoesNotMatter(a: seq<Print>, b: seq<Print>, window: nat, min: real, i: nat)
    requires Ordered(a) && Ordered(b) && multiset(a) == multiset(b) && i < |a|
    ensures |a| == |b| && a[i].ts == b[i].ts && Net(a, window, i) == Net(b, window, i)
    ensures Fires(a, window, min, i) <==> Fires(b, window, min, i)
  {
    SameLength(a, b);
    SameTimes(a, b, i);
    SumByPermutation(a, b, InWindow(a[i].ts, window));
    if i > 0 {
      SameTimes(a, b, i - 1);
      SumByPermutation(a, b, InWindow(a[i - 1].ts, window));
    }
  }

  lemma {:induction false} TieOrderKeepsSignals(a: seq<Print>, b: seq<Print>, window: nat, min: real, n: nat)
    requires Ordered(a) && Ordered(b) && multiset(a) == multiset(b) && n <= |a|
    ensures |a| == |b|
    ensures var s, t := Signals(a, window, min, n), Signals(b, window, min, n);
      |s| == |t| && forall i :: 0 <= i < |s| ==> s[i].time == t[i].time && s[i].accumulated == t[i].accumulated
  {
    SameLength(a, b);
    if n == 0 {
    } else {
      TieOrderKeepsSignals(a, b, window, min, n - 1);
      TieOrderDoesNotMatter(a, b, window, min, n - 1);
    }
  }

  predicate SamePrices(a: seq<Print>, b: seq<Print>, window: nat, min: real) {
    var s, t := Signals(a, window, min, |a|), Signals(b, window, min, |b|);
    |s| == |t| && forall i :: 0 <= i < |s| ==> s[i].price == t[i].price
  }

  // Where a firing row's signal stands in the list.
  lemma {:induction false} SignalOfRow(rows: seq<Print>, window: nat, min: real, i: nat, n: nat)
    requires i < n <= |rows| && Fires(rows, window, min, i)
    ensures var p := |Signals(rows, window, min, i)|;
      && p < |Signals(rows, window, min, n)|
      && Signals(rows, window, min, n)[p] == Signal(rows[i].ts, rows[i].price, Net(rows, window, i))
  {
    hide Net, Fires;
    if n == i + 1 {
    } else {
      SignalOfRow(rows, window, min, i, n - 1);
    }
  }

  // Two prints at one time can change places.
  function Swapped(rows: seq<Print>, i: nat, j: nat): seq<Print>
    requires i < |rows| && j < |rows|
  {
    rows[i := rows[j]][j := rows[i]]
  }

  lemma SwapKeepsOrder(rows: seq<Print>, i: nat, j: nat)
    requires Ordered(rows) && i < |rows| && j < |rows| && rows[i].ts == rows[j].ts
    ensures Ordered(Swapped(rows, i, j)) && multiset(Swapped(rows, i, j)) == multiset(rows)
  {
  }

  lemma PlaceIn(a: seq<Print>, x: Print, b: seq<Print>) returns (j: nat)
    requires multiset(a) == multiset(b) && x in b
    ensures j < |a| && a[j] == x
  {
    assert x in multiset(b) && x in multiset(a);
    j :| 0 <= j < |a| && a[j] == x;
  }

  // Where all prints at a signal's time have one price, no tie order changes the signals.
  lemma {:induction false} OnePriceKeepsSignals(a: seq<Print>, b: seq<Print>, window: nat, min: real, n: nat)
    requires Ordered(a) && Ordered(b) && multiset(a) == multiset(b) && n <= |a|
    requires forall i, j :: 0 <= i < |a| && 0 <= j < |a| && a[j].ts == a[i].ts && Fires(a, window, min, i) ==> a[j].price == a[i].price
    ensures |a| == |b| && Signals(a, window, min, n) == Signals(b, window, min, n)
  {
    SameLength(a, b);
    if n == 0 {
    } else {
      hide Net, Fires, Ordered;
      OnePriceKeepsSignals(a, b, window, min, n - 1);
      TieOrderDoesNotMatter(a, b, window, min, n - 1);
      var j := PlaceIn(a, b[n - 1], b);
      assert a[j].ts == a[n - 1].ts;
    }
  }

  // The prices of the signals are the same in every tie order exactly when, at each signal's time, all
  // prints have one price.
  lemma TieOrderKeepsPricesExactly(a: seq<Print>, window: nat, min: real)
    requires Ordered(a)
    ensures (forall b :: Ordered(b) && multiset(b) == multiset(a) ==> SamePrices(a, b, window, min))
      <==> forall i, j :: 0 <= i < |a| && 0 <= j < |a| && a[j].ts == a[i].ts && Fires(a, window, min, i) ==> a[j].price == a[i].price
  {
    if i, j :| 0 <= i < |a| && 0 <= j < |a| && a[j].ts == a[i].ts && Fires(a, window, min, i) && a[j].price != a[i].price {
      SwapChangesPrice(a, window, min, i, j);
    } else {
      forall b | Ordered(b) && multiset(b) == multiset(a)
        ensures SamePrices(a, b, window, min)
      {
        OnePriceKeepsSignals(a, b, window, min, |a|);
      }
    }
  }

  lemma SwapChangesPrice(a: seq<Print>, window: nat, min: real, i: nat, j: nat)
    requires Ordered(a) && i < |a| && j < |a| && a[j].ts == a[i].ts && Fires(a, window, min, i) && a[j].price != a[i].price
    ensures var b := Swapped(a, i, j); Ordered(b) && multiset(b) == multiset(a) && !SamePrices(a, b, window, min)
  {
    hide Net, Fires, Signals, Ordered;
    var b := Swapped(a, i, j);
    SwapKeepsOrder(a, i, j);
    TieOrderDoesNotMatter(a, b, window, min, i);
    TieOrderKeepsSignals(a, b, window, min, i);
    SignalOfRow(a, window, min, i, |a|);
    SignalOfRow(b, window, min, i, |b|);
  }

  // The price is the firing print's own, so among prints at one time it does depend on their order.
  lemma TieOrderCanChangeThePrice()
    ensures var x, y := Print(0, true, 300.0, 0.4), Print(0, true, 300.0, 0.6);
            && Signals([x, y], 60, 500.0, 2) == [Signal(0, 0.4, 600.0)]
            && Signals([y, x], 60, 500.0, 2) == [Signal(0, 0.6, 600.0)]
  {
    var x, y := Print(0, true, 300.0, 0.4), Print(0, true, 300.0, 0.6);
    SumByTwo(x, y, InWindow(0, 60));
    SumByTwo(y, x, InWindow(0, 60));
    assert Signals([x, y], 60, 500.0, 0) == [] && Signals([y, x], 60, 500.0, 0) == [];
    assert Signals([x, y], 60, 500.0, 1) == [Signal(0, 0.4, 600.0)];
    assert Signals([y, x], 60, 500.0, 1) == [Signal(0, 0.6, 600.0)];
    assert !Fires([x, y], 60, 500.0, 1) && !Fires([y, x], 60, 500.0, 1);
    assert Signals([x, y], 60, 500.0, 2) == [Signal(0, 0.4, 600.0)] + [];
    assert Signals([y, x], 60, 500.0, 2) == [Signal(0, 0.6, 600.0)] + [];
  }

  // A signal does not need a buy: when an older sell leaves the window, the net rises on a sell print.
  lemma ASellPrintCanFire()
    ensures var rows := [Print(0, false, 900.0, 0.5), Print(1, true, 600.0, 0.5), Print(61, false, 1.0, 0.5)];
            Ordered(rows) && Fires(rows, 60, 500.0, 2) && !rows[2].isBuy
  {
    var x, y, z := Print(0, false, 900.0, 0.5), Print(1, true, 600.0, 0.5), Print(61, false, 1.0, 0.5);
    SumByThree(x, y, z, InWindow(1, 60));
    SumByThree(x, y, z, InWindow(61, 60));
    assert Net([x, y, z], 60, 1) == -300.0;
    assert Net([x, y, z], 60, 2) == 599.0;
  }

  // The net a row adds over an earlier row: what entered the window since, less what left it.
  function Entered(rows: seq<Print>, from: int, to: int): real {
    SumBy(rows, InOpenRange(from, to))
  }

  // Prints after one time and not after another.
  function InOpenRange(from: int, to: int): Print -> real {
    (p: Print) => if from < p.ts <= to then Signed(p) else 0.0
  }

  lemma {:induction false} NetMovesByEnteringAndLeaving(rows: seq<Print>, window: nat, from: int, to: int)
    requires from <= to
    ensures NetAt(rows, window, to) - NetAt(rows, window, from)
            == Entered(rows, from, to) - Entered(rows, from - window - 1, to - window - 1)
  {
    if rows == [] {
    } else {
      NetMovesByEnteringAndLeaving(rows[..|rows| - 1], window, from, to);
    }
  }

  // ------------------------------------------------------------------ which rows fire

  // The first of the prints at its time.
  predicate IsFirstOfPeers(rows: seq<Print>, i: nat)
    requires i < |rows|
  {
    i == 0 || rows[i - 1].ts < rows[i].ts
  }

  // The net of all prints at one time.
  function PeerNet(rows: seq<Print>, ts: int): real {
    Entered(rows, ts - 1, ts)
  }

  function NetBefore(rows: seq<Print>, window: nat, i: nat): real
    requires i < |rows|
  {
    if i == 0 then 0.0 else Net(rows, window, i - 1)
  }

  // The net of what leaves the window between the previous row and this one.
  function LeftBefore(rows: seq<Print>, window: nat, i: nat): real
    requires i < |rows|
  {
    if i == 0 then 0.0 else Entered(rows, rows[i - 1].ts - window - 1, rows[i].ts - window - 1)
  }

  lemma {:induction false} SameTerms(rows: seq<Print>, f: Print -> real, g: Print -> real)
    requires forall k :: 0 <= k < |rows| ==> f(rows[k]) == g(rows[k])
    ensures SumBy(rows, f) == SumBy(rows, g)
  {
    if rows == [] {
    } else {
      SameTerms(rows[..|rows| - 1], f, g);
    }
  }

  lemma NetOfAFirstPeer(rows: seq<Print>, window: nat, i: nat)
    requires Ordered(rows) && i < |rows| && IsFirstOfPeers(rows, i)
    ensures Net(rows, window, i) == NetBefore(rows, window, i) + PeerNet(rows, rows[i].ts) - LeftBefore(rows, window, i)
  {
    var ts := rows[i].ts;
    if i == 0 {
      SameTerms(rows, InWindow(ts, window), InOpenRange(ts - 1, ts));
    } else {
      var from := rows[i - 1].ts;
      NetMovesByEnteringAndLeaving(rows, window, from, ts);
      forall k | 0 <= k < |rows|
        ensures InOpenRange(from, ts)(rows[k]) == InOpenRange(ts - 1, ts)(rows[k])
      {
        assert k < i ==> rows[k].ts <= from;
        assert k >= i ==> rows[k].ts >= ts;
      }
      SameTerms(rows, InOpenRange(from, ts), InOpenRange(ts - 1, ts));
    }
  }

  // A print fires, buy or sell, exactly when it is the first at its time, the net before it was below the
  // threshold, and that net with all prints at its time and without what has left reaches the threshold.
  lemma FiresExactlyByPeersAndExpiry(rows: seq<Print>, window: nat, min: real, i: nat)
    requires Ordered(rows) && i < |rows|
    ensures Fires(rows, window, min, i) <==>
      && IsFirstOfPeers(rows, i)
      && (i > 0 ==> NetBefore(rows, window, i) < min)
      && NetBefore(rows, window, i) + PeerNet(rows, rows[i].ts) - LeftBefore(rows, window, i) >= min
  {
    if IsFirstOfPeers(rows, i) {
      NetOfAFirstPeer(rows, window, i);
    } else {
      assert rows[i - 1].ts == rows[i].ts;
      OnlyTheFirstOfPeersFires(rows, window, min, i);
    }
  }

  // A sum that is not zero has a term of its sign.
  lemma {:induction false} SignedTerm(rows: seq<Print>, f: Print -> real) returns (k: nat)
    requires SumBy(rows, f) != 0.0
    ensures k < |rows| && if SumBy(rows, f) > 0.0 then f(rows[k]) > 0.0 else f(rows[k]) < 0.0
  {
    var n := |rows| - 1;
    var front := SumBy(rows[..n], f);
    if (SumBy(rows, f) > 0.0 && f(rows[n]) > 0.0) || (SumBy(rows, f) < 0.0 && f(rows[n]) < 0.0) {
      k := n;
    } else {
      k := SignedTerm(rows[..n], f);
    }
  }

  predicate BuysAt(rows: seq<Print>, ts: int, k: nat) {
    k < |rows| && rows[k].isBuy && rows[k].ts == ts
  }

  predicate ExpiredSell(rows: seq<Print>, window: nat, i: nat, k: nat)
    requires 0 < i < |rows|
  {
    k < |rows| && !rows[k].isBuy && rows[i - 1].ts - window <= rows[k].ts < rows[i].ts - window
  }

  // So a sell print fires in two ways only: beside a later-listed buy at its own time, or because an older
  // sell has left the window.
  lemma ASellFiresBesideBuysOrAfterSells(rows: seq<Print>, window: nat, min: real, i: nat)
    requires Ordered(rows) && i < |rows| && !rows[i].isBuy && Fires(rows, window, min, i) && min > 0.0
    requires forall k :: 0 <= k < |rows| ==> rows[k].notional >= 0.0
    ensures (exists k :: i < k && BuysAt(rows, rows[i].ts, k)) || (i > 0 && exists k :: ExpiredSell(rows, window, i, k))
  {
    FiresExactlyByPeersAndExpiry(rows, window, min, i);
    var ts := rows[i].ts;
    if PeerNet(rows, ts) > 0.0 {
      var k := SignedTerm(rows, InOpenRange(ts - 1, ts));
      assert BuysAt(rows, ts, k) && k > i;
    } else {
      assert i > 0 && LeftBefore(rows, window, i) < 0.0;
      var k := SignedTerm(rows, InOpenRange(rows[i - 1].ts - window - 1, ts - window - 1));
      assert ExpiredSell(rows, window, i, k);
    }
  }

  // A sell that fires beside a buy at its own time, with nothing leaving the window.
  lemma ASellBesideABuyFires()
    ensures var rows := [Print(0, true, 1.0, 0.5), Print(1, false, 100.0, 0.5), Print(1, true, 700.0, 0.5)];
            Ordered(rows) && Fires(rows, 60, 500.0, 1) && !rows[1].isBuy && LeftBefore(rows, 60, 1) == 0.0
  {
    var x, y, z := Print(0, true, 1.0, 0.5), Print(1, false, 100.0, 0.5), Print(1, true, 700.0, 0.5);
    SumByThree(x, y, z, InWindow(0, 60));
    SumByThree(x, y, z, InWindow(1, 60));
    SumByThree(x, y, z, InOpenRange(-61, -60));
    assert Net([x, y, z], 60, 0) == 1.0;
    assert Net([x, y, z], 60, 1) == 601.0;
  }
}

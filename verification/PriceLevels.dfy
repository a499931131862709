/**
 Price-level alerts: a row fires on the edge, when the price moves to the trigger side of its
 level, and at most once per cooldown. Observations may carry timestamps out of order.
 */
module PriceLevels {
  import opened Wrappers

  datatype Direction = Above | Below

  datatype Watch = Watch(id: int, asset: string, level: real, direction: Direction, cooldown: int, active: bool,
                         lastPrice: Option<real>, lastFiredAt: Option<int>, firedCount: nat)

  datatype Tick = Tick(price: real, time: int)

  datatype Alert = Alert(watch: int, price: real, time: int)

  predicate Satisfied(direction: Direction, price: real, level: real) {
    match direction
    case Above => price >= level
    case Below => price <= level
  }

  predicate CheckCrossing(w: Watch, t: Tick) {
    && w.active
    && Satisfied(w.direction, t.price, w.level)
    && w.lastPrice.Some? && !Satisfied(w.direction, w.lastPrice.value, w.level)
    && (w.lastFiredAt.Some? ==> t.time - w.lastFiredAt.value >= w.cooldown)
  }

  function Observe(w: Watch, t: Tick): Watch {
    var seen := w.(lastPrice := Some(t.price));
    if CheckCrossing(w, t) then seen.(lastFiredAt := Some(t.time), firedCount := w.firedCount + 1) else seen
  }

  // ------------------------------------------------------------------ runs of one row

  function After(w: Watch, ticks: seq<Tick>): Watch {
    if ticks == [] then w else Observe(After(w, ticks[..|ticks| - 1]), ticks[|ticks| - 1])
  }

  // The row fires at observation i.
  predicate FiresAt(w: Watch, ticks: seq<Tick>, i: nat)
    requires i < |ticks|
  {
    CheckCrossing(After(w, ticks[..i]), ticks[i])
  }

  // A row as it is created.
  predicate IsNew(w: Watch) {
    w.active && w.lastPrice.None? && w.lastFiredAt.None? && w.firedCount == 0
  }

  predicate Beyond(w: Watch, t: Tick) {
    Satisfied(w.direction, t.price, w.level)
  }

  // The price moved over to the trigger side between observations i - 1 and i.
  predicate IsEdge(w: Watch, ticks: seq<Tick>, i: nat)
    requires i < |ticks|
  {
    i > 0 && !Beyond(w, ticks[i - 1]) && Beyond(w, ticks[i])
  }

  // By the prices: it came from short of the level to the level or past it.
  lemma EdgesByThePrices(w: Watch, ticks: seq<Tick>, i: nat)
    requires 0 < i < |ticks|
    ensures IsEdge(w, ticks, i) <==>
      if w.direction == Above then ticks[i - 1].price < w.level <= ticks[i].price
      else ticks[i].price <= w.level < ticks[i - 1].price
  {
  }

  // The last of the first n observations at which the row fired.
  function LastFire(w: Watch, ticks: seq<Tick>, n: nat): (r: Option<nat>)
    requires n <= |ticks|
    ensures r.Some? ==> r.value < n && FiresAt(w, ticks, r.value)
    ensures forall i: nat :: i < n && FiresAt(w, ticks, i) ==> r.Some? && i <= r.value
  {
    if n == 0 then None else if FiresAt(w, ticks, n - 1) then Some(n - 1) else LastFire(w, ticks, n - 1)
  }

  function Fires(w: Watch, ticks: seq<Tick>, n: nat): nat
    requires n <= |ticks|
  {
    if n == 0 then 0 else Fires(w, ticks, n - 1) + if FiresAt(w, ticks, n - 1) then 1 else 0
  }

  // What a row remembers of a run: its last price, its last fire and how often it fired.
  lemma {:induction false} RowRemembers(w: Watch, ticks: seq<Tick>, n: nat)
    requires IsNew(w) && n <= |ticks|
    ensures var now := After(w, ticks[..n]);
      now == w.(lastPrice := if n == 0 then None else Some(ticks[n - 1].price),
                lastFiredAt := if LastFire(w, ticks, n).Some? then Some(ticks[LastFire(w, ticks, n).value].time) else None,
                firedCount := Fires(w, ticks, n))
  {
    if n == 0 {
    } else {
      RowRemembers(w, ticks, n - 1);
      assert ticks[..n][..n - 1] == ticks[..n - 1];
    }
  }

  // A row fires exactly at the edges that keep the cooldown since its last fire.
  lemma FiresExactlyAtClearEdges(w: Watch, ticks: seq<Tick>, i: nat)
    requires IsNew(w) && i < |ticks|
    ensures FiresAt(w, ticks, i) <==>
      && IsEdge(w, ticks, i)
      && (LastFire(w, ticks, i).Some? ==> ticks[i].time - ticks[LastFire(w, ticks, i).value].time >= w.cooldown)
  {
    RowRemembers(w, ticks, i);
  }

  // A row that was switched off never fires, whatever it remembers.
  lemma InactiveRowsNeverFire(w: Watch, ticks: seq<Tick>, i: nat)
    requires !w.active && i < |ticks|
    ensures !FiresAt(w, ticks, i)
  {
    StaysInactive(w, ticks[..i]);
  }

  lemma {:induction false} StaysInactive(w: Watch, ticks: seq<Tick>)
    requires !w.active
    ensures !After(w, ticks).active
  {
    if ticks == [] {
    } else {
      StaysInactive(w, ticks[..|ticks| - 1]);
    }
  }

  lemma FirstObservationNeverFires(w: Watch, ticks: seq<Tick>)
    requires IsNew(w) && ticks != []
    ensures !FiresAt(w, ticks, 0)
  {
    RowRemembers(w, ticks, 0);
  }

  // Any two fires are a cooldown apart, with an observation on the other side of the level between
  // them, whatever timestamps the observations carry.
  lemma {:induction false} FiresAreApart(w: Watch, ticks: seq<Tick>, i: nat, j: nat)
    requires IsNew(w) && w.cooldown >= 0 && i < j < |ticks|
    requires FiresAt(w, ticks, i) && FiresAt(w, ticks, j)
    ensures ticks[j].time - ticks[i].time >= w.cooldown
    ensures exists k :: i < k < j && !Beyond(w, ticks[k])
    decreases j
  {
    FiresExactlyAtClearEdges(w, ticks, i);
    FiresExactlyAtClearEdges(w, ticks, j);
    var k := LastFire(w, ticks, j).value;
    if k != i {
      FiresAreApart(w, ticks, i, k);
    }
    assert !Beyond(w, ticks[j - 1]);
  }

  // Without the assumption that the cooldown is not negative, it still holds of neighbouring fires.
  lemma NeighbouringFiresAreApart(w: Watch, ticks: seq<Tick>, i: nat, j: nat)
    requires IsNew(w) && i < j < |ticks| && LastFire(w, ticks, j) == Some(i) && FiresAt(w, ticks, j)
    ensures ticks[j].time - ticks[i].time >= w.cooldown
    ensures exists k :: i < k < j && !Beyond(w, ticks[k])
  {
    FiresExactlyAtClearEdges(w, ticks, i);
    FiresExactlyAtClearEdges(w, ticks, j);
    assert !Beyond(w, ticks[j - 1]);
  }

  function Cooldowns(n: nat, cooldown: nat): nat {
    if n == 0 then 0 else Cooldowns(n - 1, cooldown) + cooldown
  }

  // So many fires take that much time: no burst of alerts, however the price flaps.
  lemma {:induction false} FiresTakeTime(w: Watch, ticks: seq<Tick>, i: nat, n: nat)
    requires IsNew(w) && w.cooldown >= 0 && i < n <= |ticks|
    requires FiresAt(w, ticks, i) && Fires(w, ticks, i) == 0
    ensures LastFire(w, ticks, n).Some? && Fires(w, ticks, n) >= 1
    ensures ticks[LastFire(w, ticks, n).value].time - ticks[i].time >= Cooldowns(Fires(w, ticks, n) - 1, w.cooldown)
  {
    hide FiresAt, IsEdge, IsNew;
    if i < n - 1 {
      FiresTakeTime(w, ticks, i, n - 1);
      FiresExactlyAtClearEdges(w, ticks, n - 1);
    }
  }

  // An edge that comes within the cooldown is lost: while the price stays beyond the level, no
  // later observation fires, however much time passes.
  lemma SuppressedEdgeStaysSilent(w: Watch, ticks: seq<Tick>, i: nat, j: nat)
    requires IsNew(w) && i < j < |ticks| && IsEdge(w, ticks, i) && !FiresAt(w, ticks, i)
    requires forall k :: i <= k < j ==> Beyond(w, ticks[k])
    ensures !FiresAt(w, ticks, j)
  {
    FiresExactlyAtClearEdges(w, ticks, j);
  }

  // An alert on 0.5 that fires at 0.6, misses the next crossing within its five minutes, and stays silent
  // an hour later, the price still being beyond the level.
  lemma SuppressedEdgeExample()
    ensures var w := Watch(1, "a", 0.5, Above, 300, true, None, None, 0);
            var ticks := [Tick(0.4, 0), Tick(0.6, 10), Tick(0.4, 20), Tick(0.6, 30), Tick(0.6, 3630)];
            && FiresAt(w, ticks, 1) && IsEdge(w, ticks, 3) && !FiresAt(w, ticks, 3) && !FiresAt(w, ticks, 4)
            && ticks[4].time - ticks[1].time > w.cooldown
  {
    var w := Watch(1, "a", 0.5, Above, 300, true, None, None, 0);
    var ticks := [Tick(0.4, 0), Tick(0.6, 10), Tick(0.4, 20), Tick(0.6, 30), Tick(0.6, 3630)];
    FiresExactlyAtClearEdges(w, ticks, 0);
    FiresExactlyAtClearEdges(w, ticks, 1);
    FiresExactlyAtClearEdges(w, ticks, 2);
    FiresExactlyAtClearEdges(w, ticks, 3);
    assert IsEdge(w, ticks, 1) && LastFire(w, ticks, 1).None?;
    assert LastFire(w, ticks, 3) == Some(1);
    SuppressedEdgeStaysSilent(w, ticks, 3, 4);
  }

  function Mirror(w: Watch): Watch {
    w.(direction := if w.direction.Above? then Below else Above, level := -w.level,
       lastPrice := if w.lastPrice.Some? then Some(-w.lastPrice.value) else None)
  }

  function MirrorTicks(ticks: seq<Tick>): (r: seq<Tick>)
    ensures |r| == |ticks| && forall i :: 0 <= i < |r| ==> r[i] == Tick(-ticks[i].price, ticks[i].time)
  {
    seq(|ticks|, i requires 0 <= i < |ticks| => Tick(-ticks[i].price, ticks[i].time))
  }

  lemma ObservationMirrors(w: Watch, t: Tick)
    ensures Observe(Mirror(w), Tick(-t.price, t.time)) == Mirror(Observe(w, t))
  {
  }

  // The two directions are each other's mirror image.
  lemma {:induction false} DirectionsMirror(w: Watch, ticks: seq<Tick>)
    ensures After(Mirror(w), MirrorTicks(ticks)) == Mirror(After(w, ticks))
  {
    if ticks == [] {
    } else {
      var n := |ticks| - 1;
      assert MirrorTicks(ticks)[..n] == MirrorTicks(ticks[..n]);
      DirectionsMirror(w, ticks[..n]);
      ObservationMirrors(After(w, ticks[..n]), ticks[n]);
      hide Observe, Mirror;
    }
  }

  // ------------------------------------------------------------------ all rows of an asset

  predicate Watching(w: Watch, asset: string) {
    w.asset == asset && w.active
  }

  predicate Alerts(w: Watch, asset: string, t: Tick) {
    Watching(w, asset) && CheckCrossing(w, t)
  }

  // The alerts written for one observation of an asset, row by row.
  function AlertsOf(ws: seq<Watch>, asset: string, t: Tick): seq<Alert> {
    if ws == [] then []
    else
      var w := ws[|ws| - 1];
      AlertsOf(ws[..|ws| - 1], asset, t) + Written(w, asset, t)
  }

  function Tally(alerts: seq<Alert>, id: int): nat {
    if alerts == [] then 0
    else Tally(alerts[..|alerts| - 1], id) + if alerts[|alerts| - 1].watch == id then 1 else 0
  }

  lemma {:induction false} TallyConcat(alerts: seq<Alert>, more: seq<Alert>, id: int)
    ensures Tally(alerts + more, id) == Tally(alerts, id) + Tally(more, id)
  {
    if more == [] {
      assert alerts + more == alerts;
    } else {
      var n := |more| - 1;
      TallyConcat(alerts, more[..n], id);
      assert (alerts + more)[..|alerts + more| - 1] == alerts + more[..n];
    }
  }

  ghost predicate DistinctIds(ws: seq<Watch>) {
    forall i, j :: 0 <= i < j < |ws| ==> ws[i].id != ws[j].id
  }

  function Written(w: Watch, asset: string, t: Tick): seq<Alert> {
    if Alerts(w, asset, t) then [Alert(w.id, t.price, t.time)] else []
  }

  lemma TallyWritten(alerts: seq<Alert>, w: Watch, asset: string, t: Tick, id: int)
    ensures Tally(alerts + Written(w, asset, t), id)
      == Tally(alerts, id) + if w.id == id && Alerts(w, asset, t) then 1 else 0
  {
    hide Alerts;
    TallyConcat(alerts, Written(w, asset, t), id);
    assert |Written(w, asset, t)| == 1 ==> Written(w, asset, t)[..0] == [];
  }

  lemma {:induction false} NoAlertForOthers(ws: seq<Watch>, asset: string, t: Tick, id: int)
    requires forall i :: 0 <= i < |ws| ==> ws[i].id != id
    ensures Tally(AlertsOf(ws, asset, t), id) == 0
  {
    if ws == [] {
    } else {
      hide Alerts;
      var n := |ws| - 1;
      TallyWritten(AlertsOf(ws[..n], asset, t), ws[n], asset, t, id);
      NoAlertForOthers(ws[..n], asset, t, id);
    }
  }

  // One observation writes one alert for a row that fires, and none for another.
  lemma {:induction false} OneAlertPerFire(ws: seq<Watch>, asset: string, t: Tick, i: nat)
    requires DistinctIds(ws) && i < |ws|
    ensures Tally(AlertsOf(ws, asset, t), ws[i].id) == if Alerts(ws[i], asset, t) then 1 else 0
  {
    var n := |ws| - 1;
    TallyWritten(AlertsOf(ws[..n], asset, t), ws[n], asset, t, ws[i].id);
    assert AlertsOf(ws, asset, t) == AlertsOf(ws[..n], asset, t) + Written(ws[n], asset, t);
    hide Alerts, Tally, AlertsOf;
    if i < n {
      OneAlertPerFire(ws[..n], asset, t, i);
    } else {
      NoAlertForOthers(ws[..n], asset, t, ws[i].id);
    }
  }

  // Every row has fired as often as alerts were written for it.
  ghost predicate CountsAlerts(ws: seq<Watch>, alerts: seq<Alert>) {
    forall i :: 0 <= i < |ws| ==> Tally(alerts, ws[i].id) == ws[i].firedCount
  }

  function NoteTick(w: Watch, asset: string, t: Tick): Watch {
    if Watching(w, asset) then Observe(w, t) else w
  }

  // The rows before and after one observation of an asset.
  ghost predicate Noted(before: seq<Watch>, after: seq<Watch>, asset: string, t: Tick) {
    |after| == |before| && forall i :: 0 <= i < |before| ==> after[i] == NoteTick(before[i], asset, t)
  }

  lemma CountsAreKept(before: seq<Watch>, after: seq<Watch>, alerts: seq<Alert>, asset: string, t: Tick)
    requires DistinctIds(before) && CountsAlerts(before, alerts) && Noted(before, after, asset, t)
    ensures CountsAlerts(after, alerts + AlertsOf(before, asset, t))
  {
    forall i | 0 <= i < |after|
      ensures Tally(alerts + AlertsOf(before, asset, t), after[i].id) == after[i].firedCount
    {
      OneAlertPerFire(before, asset, t, i);
      hide AlertsOf, Tally;
      TallyConcat(alerts, AlertsOf(before, asset, t), before[i].id);
    }
  }

  // The first n rows have noted the observation, the others have not.
  ghost predicate NotedUpTo(before: seq<Watch>, after: seq<Watch>, n: nat, asset: string, t: Tick) {
    && |after| == |before| && n <= |before|
    && (forall i :: 0 <= i < n ==> after[i] == NoteTick(before[i], asset, t))
    && (forall i :: n <= i < |before| ==> after[i] == before[i])
  }

  lemma NothingNoted(ws: seq<Watch>, alerts: seq<Alert>, asset: string, t: Tick)
    ensures NotedUpTo(ws, ws, 0, asset, t) && alerts == alerts + AlertsOf(ws[..0], asset, t)
  {
  }

  lemma NotedSnoc(before: seq<Watch>, after: seq<Watch>, alerts: seq<Alert>, n: nat, asset: string, t: Tick)
    requires NotedUpTo(before, after, n, asset, t) && DistinctIds(after) && n < |after|
    ensures |before| == |after| && after[n] == before[n]
    ensures NotedUpTo(before, after[n := NoteTick(after[n], asset, t)], n + 1, asset, t)
    ensures DistinctIds(after[n := NoteTick(after[n], asset, t)])
    ensures alerts + AlertsOf(before[..n], asset, t) + Written(after[n], asset, t) == alerts + AlertsOf(before[..n + 1], asset, t)
  {
    assert before[..n + 1][..n] == before[..n];
    hide Alerts;
  }

  lemma AllNoted(before: seq<Watch>, after: seq<Watch>, alerts: seq<Alert>, asset: string, t: Tick)
    requires NotedUpTo(before, after, |before|, asset, t) && DistinctIds(before) && CountsAlerts(before, alerts)
    ensures |after| == |before| && before[..|before|] == before && Noted(before, after, asset, t)
    ensures CountsAlerts(after, alerts + AlertsOf(before, asset, t))
  {
    assert Noted(before, after, asset, t);
    CountsAreKept(before, after, alerts, asset, t);
  }

  class PriceLevelAlert {
    const id: int
    const asset: string
    const level: real
    const direction: Direction
    const cooldown: int
    const active: bool
    var lastPrice: Option<real>
    var lastFiredAt: Option<int>
    var firedCount: nat

    function State(): Watch
      reads this
    {
      Watch(id, asset, level, direction, cooldown, active, lastPrice, lastFiredAt, firedCount)
    }

    constructor (id: int, asset: string, level: real, direction: Direction, cooldown: int)
      ensures IsNew(State())
      ensures State() == Watch(id, asset, level, direction, cooldown, true, None, None, 0)
    {
      this.id, this.asset, this.level, this.direction, this.cooldown := id, asset, level, direction, cooldown;
      active := true;
      lastPrice, lastFiredAt, firedCount := None, None, 0;
    }

    // One observation of an asset, at this row; says whether it fires.
    method Note(asset: string, t: Tick) returns (fires: bool)
      modifies this
      ensures fires == Alerts(old(State()), asset, t)
      ensures State() == NoteTick(old(State()), asset, t)
    {
      fires := false;
      if this.asset == asset && active {
        fires := CheckCrossing(State(), t);
        if fires {
          lastFiredAt := Some(t.time);
          firedCount := firedCount + 1;
        }
        lastPrice := Some(t.price);
      }
    }
  }

  class AlertBook {
    const rows: seq<PriceLevelAlert>
    var alerts: seq<Alert>

    ghost function States(): seq<Watch>
      reads rows
    {
      seq(|rows|, i requires 0 <= i < |rows| reads rows => rows[i].State())
    }

    ghost predicate Valid()
      reads this, rows
    {
      |States()| == |rows| && DistinctIds(States()) && CountsAlerts(States(), alerts)
    }

    constructor (rows: seq<PriceLevelAlert>)
      requires forall i :: 0 <= i < |rows| ==> IsNew(rows[i].State())
      requires forall i, j :: 0 <= i < j < |rows| ==> rows[i].id != rows[j].id
      ensures Valid() && this.rows == rows && alerts == []
    {
      this.rows := rows;
      alerts := [];
    }

    method NoteRow(n: nat, asset: string, t: Tick) returns (fires: bool)
      requires n < |rows| == |States()| && DistinctIds(States())
      modifies this`alerts, rows[n]
      ensures |States()| == |rows|
      ensures States() == old(States())[n := NoteTick(old(States())[n], asset, t)]
      ensures alerts == old(alerts) + Written(old(States())[n], asset, t)
      ensures |alerts| == |old(alerts)| + if fires then 1 else 0
    {
      hide Alerts, NoteTick;
      forall i | 0 <= i < |rows| && i != n
        ensures rows[i] != rows[n]
      {
        assert States()[i].id != States()[n].id && States()[i].id == rows[i].id && States()[n].id == rows[n].id;
      }
      fires := rows[n].Note(asset, t);
      if fires {
        alerts := alerts + [Alert(rows[n].id, t.price, t.time)];
      }
    }

    method EvaluatePriceLevels(asset: string, t: Tick) returns (fired: nat)
      requires Valid()
      modifies this, rows
      ensures Valid()
      ensures Noted(old(States()), States(), asset, t)
      ensures alerts == old(alerts) + AlertsOf(old(States()), asset, t)
      ensures |alerts| == |old(alerts)| + fired
    {
      fired := 0;
      ghost var before, was := States(), alerts;
      NothingNoted(before, alerts, asset, t);
      hide *;
      for n := 0 to |rows|
        invariant |States()| == |rows|
        invariant NotedUpTo(before, States(), n, asset, t) && DistinctIds(States())
        invariant alerts == was + AlertsOf(before[..n], asset, t)
        invariant |alerts| == |was| + fired
      {
        NotedSnoc(before, States(), was, n, asset, t);
        var fires := NoteRow(n, asset, t);
        fired := fired + if fires then 1 else 0;
      }
      AllNoted(before, States(), was, asset, t);
    }
  }
}

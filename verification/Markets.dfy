/**
 The market row and everything that writes its resolution state: discovery, the resolution sync, the
 resolver, the status refresh and later corrections.
 */
module Markets {
  import opened Wrappers

  datatype Market = Market(
    active: bool,
    closed: bool,
    resolved: bool,
    resolution: Option<string>,
    stamped: Option<string>)

  // What the market API reports.
  datatype Info = Info(active: bool, closed: bool, resolved: bool, resolution: Option<string>)

  // A label that counts as present: neither missing nor empty.
  predicate Present(winner: Option<string>) {
    winner.Some? && winner.value != ""
  }

  function InsertMarket(info: Info): Market {
    Market(!info.resolved && info.active, info.resolved || info.closed, info.resolved, info.resolution, None)
  }

  function Upsert(m: Market, info: Info): Market {
    var resolved := m.resolved || info.resolved;
    m.(resolved := resolved,
       resolution := if Present(info.resolution) && !Present(m.resolution) then info.resolution else m.resolution,
       active := !resolved && info.active,
       closed := resolved || info.closed)
  }

  function Sync(m: Market, info: Option<Info>): Market {
    if info.None? || !info.value.resolved || !Present(info.value.resolution) then m
    else if !m.resolved then
      m.(resolved := true, resolution := info.value.resolution, active := false, closed := true)
    else if !Present(m.resolution) then
      m.(resolution := info.value.resolution, active := false, closed := true)
    else m
  }

  function ApplyResolution(m: Market, winner: string): Market {
    m.(resolved := true, resolution := Some(winner), active := false, closed := true)
  }

  function RefreshStatus(m: Market, info: Info): Market {
    if info.resolved && Present(info.resolution) then
      m.(resolved := true, resolution := info.resolution, active := false, closed := true)
    else if !info.active || info.closed then m.(active := false, closed := true)
    else m
  }

  // Seconds past its end after which an unresolved market is inactive, and its positions are given up.
  const STALE_SECONDS: int := 48 * 3600
  const NO_DATA_SECONDS: int := 7 * 24 * 3600

  datatype Rung = TooEarly | PastStale | PastNoData

  function RungOf(endDate: Option<int>, now: int): Rung {
    if endDate.None? then TooEarly
    else if endDate.value < now - NO_DATA_SECONDS then PastNoData
    else if endDate.value < now - STALE_SECONDS then PastStale
    else TooEarly
  }

  // The resolver's step for a market it cannot resolve.  The closed flag is set in the session either
  // way, but only the stale branches commit it.
  function StaleLadder(m: Market, gammaClosed: bool, endDate: Option<int>, now: int): Market {
    match RungOf(endDate, now)
    case PastNoData => m.(closed := m.closed || gammaClosed, active := false)
    case PastStale => m.(closed := m.closed || gammaClosed, active := false)
    case TooEarly => m
  }

  datatype Write =
    | Discovery(info: Info)
    | Synced(answer: Option<Info>)
    | Resolver(winner: string)
    | Refresh(info: Info)
    | Ladder(gammaClosed: bool, endDate: Option<int>, now: int)
    | Correction(winner: string)

  function Apply(m: Market, w: Write): Market {
    match w
    case Discovery(info) => Upsert(m, info)
    case Synced(answer) => Sync(m, answer)
    case Resolver(winner) => ApplyResolution(m, winner)
    case Refresh(info) => RefreshStatus(m, info)
    case Ladder(gammaClosed, endDate, now) => StaleLadder(m, gammaClosed, endDate, now)
    case Correction(winner) => m.(resolution := Some(winner))
  }

  // The invariant that the database also enforces.
  predicate ResolvedImpliesClosed(m: Market) {
    m.resolved ==> m.closed && !m.active
  }

  // Every writer keeps resolved => closed, never takes a resolution back and never touches the stamp.
  lemma WritersNeverRegress(m: Market, w: Write)
    ensures ResolvedImpliesClosed(m) ==> ResolvedImpliesClosed(Apply(m, w))
    ensures m.resolved ==> Apply(m, w).resolved
    ensures m.resolution.Some? ==> Apply(m, w).resolution.Some?
    ensures Apply(m, w).stamped == m.stamped
  {
  }

  // A winner that the API reports is recorded where none was, and a resolved market is closed by it; an answer
  // without a winner changes nothing, and neither does one about a market that has its winner.
  lemma ASyncRecordsTheWinner(m: Market, answer: Option<Info>)
    ensures var after := Apply(m, Synced(answer));
            var winner := if answer.Some? && answer.value.resolved then answer.value.resolution else None;
      && (winner.Some? && winner.value != "" && (!m.resolved || m.resolution == None || m.resolution == Some("")) ==>
            after.resolved && after.closed && !after.active && after.resolution == winner)
      && (winner == None || winner == Some("") ==> after == m)
      && (m.resolved && m.resolution.Some? && m.resolution.value != "" ==> after == m)
  {
  }

  // Discovery fills in a missing winner and never takes one back; a market that either side calls resolved is
  // closed, and any other follows the report.
  lemma ADiscoveryMerges(m: Market, info: Info)
    ensures var after := Apply(m, Discovery(info));
      && (after.resolved <==> m.resolved || info.resolved)
      && (after.closed <==> m.resolved || info.resolved || info.closed)
      && (after.active <==> info.active && !info.resolved && !m.resolved)
      && (m.resolution.Some? && m.resolution.value != "" ==> after.resolution == m.resolution)
      && (m.resolution == None || m.resolution == Some("") ==>
            after.resolution == if info.resolution == None || info.resolution == Some("") then m.resolution else info.resolution)
  {
  }

  // A new row says what the report says, except that a resolved market is closed.
  lemma ANewRowFollowsTheReport(info: Info)
    ensures var m := InsertMarket(info);
      && (m.resolved <==> info.resolved) && m.resolution == info.resolution
      && (info.resolved ==> m.closed && !m.active)
      && (!info.resolved ==> (m.closed <==> info.closed) && (m.active <==> info.active))
  {
  }

  // The resolver and the status refresh write their winner over any other; a correction writes it alone.
  lemma OverwritersRecordTheirWinner(m: Market, winner: string, info: Info)
    ensures var r := Apply(m, Resolver(winner)); r.resolved && r.closed && !r.active && r.resolution == Some(winner)
    ensures var r := Apply(m, Correction(winner)); r.resolution == Some(winner) && r == m.(resolution := Some(winner))
    ensures var r := Apply(m, Refresh(info));
      && (info.resolved && info.resolution.Some? && info.resolution.value != "" ==>
            r.resolved && r.closed && !r.active && r.resolution == info.resolution)
      && (!info.resolved || info.resolution == None || info.resolution == Some("") ==>
            && r.resolution == m.resolution && r.resolved == m.resolved
            && (info.active && !info.closed ==> r == m)
            && (!info.active || info.closed ==> r.closed && !r.active))
  {
  }

  lemma InsertIsSound(info: Info)
    ensures ResolvedImpliesClosed(InsertMarket(info)) && InsertMarket(info).stamped.None?
  {
  }

  // Discovery and the sync keep a label that is present; only the resolver, the status refresh and a
  // correction can replace it by another one.
  lemma OnlyOverwritersReplaceALabel(m: Market, w: Write)
    requires m.resolved && Present(m.resolution)
    ensures Apply(m, w).resolution != m.resolution ==>
      || (w.Resolver? && w.winner != m.resolution.value)
      || (w.Refresh? && w.info.resolved && w.info.resolution != m.resolution)
      || (w.Correction? && w.winner != m.resolution.value)
  {
  }

  // A close that the API reports is recorded exactly when the market's end lies 48 hours back.
  lemma CloseIsRecordedExactlyWhenStale(m: Market, gammaClosed: bool, endDate: Option<int>, now: int)
    ensures Apply(m, Ladder(gammaClosed, endDate, now)).closed
      <==> m.closed || (gammaClosed && endDate.Some? && now - endDate.value > 172800)
  {
  }

  // The ladder makes a market inactive exactly from 48 hours past its end, and touches no resolution.
  lemma AStaleMarketIsInactive(m: Market, gammaClosed: bool, endDate: Option<int>, now: int)
    ensures var after := Apply(m, Ladder(gammaClosed, endDate, now));
      && (after.active <==> m.active && (endDate.None? || now - endDate.value <= 172800))
      && after.resolved == m.resolved && after.resolution == m.resolution
  {
  }

  // Thirty hours after its end the reported close is lost.
  lemma LostCloseExample()
    ensures var m := Market(true, false, false, None, None);
            Apply(m, Ladder(true, Some(0), 30 * 3600)) == m && !m.closed
  {
  }

  // The status refresh leaves a market alone exactly when the API still shows it active and open, without
  // a resolution that has a label.
  predicate StillOpen(info: Info) {
    info.active && !info.closed && !(info.resolved && Present(info.resolution))
  }

  /** A markets row, updated field by field. */
  class MarketRow {
    var active: bool
    var closed: bool
    var resolved: bool
    var resolution: Option<string>
    var stamped: Option<string>

    function Value(): Market
      reads this
    {
      Market(active, closed, resolved, resolution, stamped)
    }

    constructor (info: Info)
      ensures Value() == InsertMarket(info)
    {
      active := if info.resolved then false else info.active;
      closed := if info.resolved then true else info.closed;
      resolved := info.resolved;
      resolution := info.resolution;
      stamped := None;
    }

    method OnDiscovery(info: Info)
      modifies this
      ensures Value() == Apply(old(Value()), Discovery(info))
    {
      if info.resolved && !resolved {
        resolved := true;
      }
      if Present(info.resolution) && !Present(resolution) {
        resolution := info.resolution;
      }
      var isResolved := resolved || info.resolved;
      active := if isResolved then false else info.active;
      closed := if isResolved then true else info.closed;
    }

    method OnSync(answer: Option<Info>) returns (newlyResolved: bool)
      modifies this
      ensures Value() == Apply(old(Value()), Synced(answer))
      ensures newlyResolved <==> resolved && !old(resolved)
    {
      newlyResolved := false;
      if answer.None? || !answer.value.resolved || !Present(answer.value.resolution) {
        return;
      }
      if !resolved {
        resolved, resolution, active, closed := true, answer.value.resolution, false, true;
        newlyResolved := true;
      } else if !Present(resolution) {
        resolution, active, closed := answer.value.resolution, false, true;
      }
    }

    method OnResolver(winner: string)
      modifies this
      ensures Value() == Apply(old(Value()), Resolver(winner))
    {
      resolved := true;
      resolution := Some(winner);
      active := false;
      closed := true;
    }

    method OnRefresh(info: Info) returns (changed: bool)
      modifies this
      ensures Value() == Apply(old(Value()), Refresh(info))
      ensures !changed <==> StillOpen(info)
      ensures !changed ==> Value() == old(Value())
    {
      changed := false;
      if info.resolved && Present(info.resolution) {
        resolved, resolution, active, closed := true, info.resolution, false, true;
        changed := true;
      } else if !info.active || info.closed {
        active, closed := false, true;
        changed := true;
      }
    }

    // Says whether the market's open positions are given up as well.
    method OnStaleLadder(gammaClosed: bool, endDate: Option<int>, now: int) returns (abandons: bool)
      modifies this
      ensures Value() == Apply(old(Value()), Ladder(gammaClosed, endDate, now))
      ensures abandons <==> endDate.Some? && now - endDate.value > 604800
    {
      abandons := false;
      var sessionClosed := closed || gammaClosed;
      if endDate.Some? && endDate.value < now - NO_DATA_SECONDS {
        closed := sessionClosed;
        active := false;
        abandons := true;
      } else if endDate.Some? && endDate.value < now - STALE_SECONDS {
        closed := sessionClosed;
        active := false;
      }
    }
  }
}

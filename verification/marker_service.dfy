/** `DeedMarkerService` (src/services/map_deed_service.py): the markers
    shown for found deeds, kept apart by Manhattan distance, and the events
    the service emits on its signal bus, returned here as a list. */
module MarkerService {
  import opened Wrappers
  import opened Text
  import opened Seqs
  import opened Decimal
  import opened Deeds
  import opened MapGeometry

  /** `MarkerData`. */
  datatype MarkerData = MarkerData(id: string, pos: (real, real), radius: real, deed: DeedModel)

  /** The service's signals: `deed_marker_added`, `deed_marker_updated`,
      `deed_marker_removed` and `deed_marker_tick`. */
  datatype MarkerEvent =
    | Added(id: string, x: real, y: real, radius: real, deed: DeedModel)
    | Updated(id: string, x: real, y: real, radius: real, deed: DeedModel)
    | Removed(id: string)
    | Ticked(id: string, ttl: nat)

  datatype ServiceState = ServiceState(markers: seq<MarkerData>, playerPos: (real, real))

  /** No markers, and the player at the origin until a position arrives. */
  function InitialState(): (s: ServiceState)
    ensures |s.markers| == 0 && s.playerPos == (0.0, 0.0)
  {
    ServiceState([], (0.0, 0.0))
  }

  /** `NEAR_PX`. */
  const NearPx: real := 10.0

  /** The radius every new marker gets. */
  const MarkerRadius: real := 0.2

  function Abs(x: real): (r: real)
    ensures r >= 0.0 && (r == x || r == -x)
  {
    if x < 0.0 then -x else x
  }

  /** `QPointF.manhattanLength()` of the difference of two points. */
  function Manhattan(a: (real, real), b: (real, real)): (d: real)
    ensures d >= 0.0
  {
    Abs(a.0 - b.0) + Abs(a.1 - b.1)
  }

  predicate Near(a: (real, real), b: (real, real)) {
    Manhattan(a, b) <= NearPx
  }

  /** No two markers are near each other. */
  predicate Separated(markers: seq<MarkerData>) {
    forall i, j :: 0 <= i < j < |markers| ==> !Near(markers[i].pos, markers[j].pos)
  }

  // ------------------------------------------------------------ marker ids

  /** `f"{lon}-{lat}-{count}"`: the id reads back as what it was built
      from. */
  function MarkerId(lon: int, lat: int, count: nat): (s: string)
    ensures |s| >= 5
    ensures ParseMarkerId(s) == Some((lon, lat, count))
  {
    var mid := "-" + IntToDecimal(lat) + "-" + NatToDecimal(count);
    ReadIntOf(lon, mid);
    LatCountRoundTrip(lat, count);
    IntToDecimal(lon) + mid
  }

  /** An optionally negative decimal integer at the front of `s`, and the
      text after it. */
  function ReadInt(s: string): (r: Option<(int, string)>)
    ensures r.Some? ==> |r.value.1| < |s|
  {
    var neg := |s| > 0 && s[0] == '-';
    var t := if neg then s[1..] else s;
    var n := Run(t, IsDigit);
    if n == 0 then None
    else
      var v: int := DecimalValue(t[..n]);
      Some((if neg then -v else v, t[n..]))
  }

  /** `str(i)` followed by a non-digit reads back as `i`. */
  lemma ReadIntOf(i: int, t: string)
    requires |t| == 0 || !IsDigit(t[0])
    ensures ReadInt(IntToDecimal(i) + t) == Some((i, t))
  {
    var m: nat := if i < 0 then -i else i;
    NatThen(m, t);
    if i < 0 {
      NegThen(NatToDecimal(m), t);
    }
  }

  /** A printed natural number followed by a non-digit is read whole. */
  lemma NatThen(n: nat, t: string)
    requires |t| == 0 || !IsDigit(t[0])
    ensures var d := NatToDecimal(n);
      && Run(d + t, IsDigit) == |d| > 0
      && (d + t)[..|d|] == d && (d + t)[|d|..] == t
      && DecimalValue(d) == n
  {
    var d := NatToDecimal(n);
    DecimalRoundTrip(n);
    RunExact(d, t, IsDigit);
    assert (d + t)[..|d|] == d && (d + t)[|d|..] == t;
  }

  lemma NegThen(d: string, t: string)
    ensures (['-'] + d + t)[0] == '-' && (['-'] + d + t)[1..] == d + t
  {
  }

  /** The text after a leading `'-'`. */
  function ReadDash(s: string): (r: Option<string>)
    ensures r.Some? <==> |s| > 0 && s[0] == '-'
    ensures r.Some? ==> r.value == s[1..]
  {
    if |s| > 0 && s[0] == '-' then Some(s[1..]) else None
  }

  /** A non-empty text made only of digits, as a number. */
  function ReadCount(s: string): (r: Option<nat>)
    ensures r.Some? <==> |s| > 0 && AllDigits(s)
  {
    if |s| > 0 && Run(s, IsDigit) == |s| then
      assert s[..|s|] == s;
      Some(DecimalValue(s))
    else None
  }

  /** Reads a marker id back into its longitude, latitude and count. */
  function ParseMarkerId(s: string): (r: Option<(int, int, nat)>)
  {
    var (lon, a) :- ReadInt(s);
    var (lat, n) :- ReadLatCount(a);
    Some((lon, lat, n))
  }

  /** The `-{lat}-{count}` part of a marker id. */
  function ReadLatCount(s: string): (r: Option<(int, nat)>)
  {
    var a :- ReadDash(s);
    var (lat, b) :- ReadInt(a);
    var n :- ReadCountField(b);
    Some((lat, n))
  }

  /** The `-{count}` end of a marker id. */
  function ReadCountField(s: string): (r: Option<nat>)
  {
    var c :- ReadDash(s);
    ReadCount(c)
  }

  lemma LatCountRoundTrip(lat: int, count: nat)
    ensures ReadLatCount("-" + IntToDecimal(lat) + "-" + NatToDecimal(count)) == Some((lat, count))
  {
    var tail := "-" + NatToDecimal(count);
    var x := IntToDecimal(lat) + tail;
    DashParts(IntToDecimal(lat), NatToDecimal(count));
    ReadIntOf(lat, tail);
    CountField(count);
    DashThen(x, lat, tail, count);
  }

  lemma DashParts(a: string, b: string)
    ensures "-" + a + "-" + b == "-" + (a + ("-" + b))
  {
  }

  lemma DashThen(x: string, lat: int, rest: string, n: nat)
    requires ReadInt(x) == Some((lat, rest))
    requires ReadCountField(rest) == Some(n)
    ensures ReadLatCount("-" + x) == Some((lat, n))
  {
    assert ("-" + x)[1..] == x;
  }

  /** The count field reads back as the count. */
  lemma CountField(count: nat)
    ensures ReadCount(NatToDecimal(count)) == Some(count)
  {
    var cs := NatToDecimal(count);
    RunExact(cs, [], IsDigit);
    assert cs + [] == cs;
    assert cs[..|cs|] == cs;
    DecimalRoundTrip(count);
  }

  /** Different origins give different ids. */
  lemma MarkerIdInjective(lon1: int, lat1: int, n1: nat, lon2: int, lat2: int, n2: nat)
    requires MarkerId(lon1, lat1, n1) == MarkerId(lon2, lat2, n2)
    ensures lon1 == lon2 && lat1 == lat2 && n1 == n2
  {
  }

  // ------------------------------------------------------------ scan results

  /** Index of the first marker near `p`, or `|markers|`. */
  function FirstNear(markers: seq<MarkerData>, p: (real, real)): (i: nat)
    ensures i <= |markers|
    ensures i < |markers| ==> Near(markers[i].pos, p)
    ensures forall j :: 0 <= j < i ==> !Near(markers[j].pos, p)
  {
    FirstWhere(markers, (m: MarkerData) => Near(m.pos, p))
  }

  /** The marker at `i` takes the new deed only when that deed has more
      time left; either way it is announced as updated at `p`. */
  function Refresh(ms: seq<MarkerData>, i: nat, deed: DeedModel, p: (real, real), now: real)
    : (r: (seq<MarkerData>, MarkerEvent))
    requires i < |ms|
    ensures |r.0| == |ms|
    ensures r.0[i].deed == (if TtlOrZero(deed, now) > TtlOrZero(ms[i].deed, now) then deed else ms[i].deed)
    ensures forall j :: 0 <= j < |ms| && j != i ==> r.0[j] == ms[j]
    ensures r.1 == Updated(ms[i].id, p.0, p.1, ms[i].radius, r.0[i].deed)
    ensures r.1.Updated? && r.1.x == p.0 && r.1.y == p.1
    ensures forall j :: 0 <= j < |ms| && r.0[j] != ms[j] ==>
      TtlOrZero(ms[j].deed, now) < TtlOrZero(deed, now) && r.0[j].deed == deed
    ensures forall j :: 0 <= j < |ms| ==>
      && r.0[j].id == ms[j].id && r.0[j].pos == ms[j].pos && r.0[j].radius == ms[j].radius
      && TtlOrZero(ms[j].deed, now) <= TtlOrZero(r.0[j].deed, now)
  {
    var m := ms[i];
    var m' := if TtlOrZero(deed, now) > TtlOrZero(m.deed, now) then m.(deed := deed) else m;
    (ms[i := m'], Updated(m'.id, p.0, p.1, m'.radius, m'.deed))
  }

  /** `_on_scan_result`. A deed without x or y is ignored. Otherwise its
      scene point either refreshes the first marker within `NEAR_PX`
      (whose deed is replaced only by one with strictly more time left, and
      whose position stays), announcing the new point, or becomes a new
      marker at the end. */
  function OnScanResult(st: ServiceState, deed: DeedModel, now: real, cfg: Config)
    : (r: (ServiceState, seq<MarkerEvent>))
    requires deed.x.Some? && deed.y.Some? ==> Calibrated(cfg)
    ensures r.0.playerPos == st.playerPos
    ensures |r.0.markers| >= |st.markers|
    ensures deed.x.None? || deed.y.None? ==> r == (st, [])
    ensures deed.x.Some? && deed.y.Some? ==>
      var p := LonLatToScene(deed.x.value as real, deed.y.value as real, cfg);
      var ms := st.markers;
      var ms' := r.0.markers;
      && |r.1| == 1
      && ((exists j :: 0 <= j < |ms| && Near(ms[j].pos, p)) ==>
            && |ms'| == |ms|
            && r.1[0].Updated? && r.1[0].x == p.0 && r.1[0].y == p.1
            && (forall j :: 0 <= j < |ms| && ms'[j] != ms[j]
                 ==> TtlOrZero(ms[j].deed, now) < TtlOrZero(deed, now) && ms'[j].deed == deed))
      && ((forall j :: 0 <= j < |ms| ==> !Near(ms[j].pos, p)) ==>
            && ms' == ms + [MarkerData(MarkerId(deed.x.value, deed.y.value, |ms|), p, MarkerRadius, deed)]
            && r.1 == [Added(MarkerId(deed.x.value, deed.y.value, |ms|), p.0, p.1, MarkerRadius, deed)])
    ensures deed.x.Some? && deed.y.Some? ==>
      var p := LonLatToScene(deed.x.value as real, deed.y.value as real, cfg);
      var ms := st.markers;
      var i := FirstNear(ms, p);
      i < |ms| ==>
        && r.0.markers[i].deed == (if TtlOrZero(deed, now) > TtlOrZero(ms[i].deed, now) then deed else ms[i].deed)
        && (forall j :: 0 <= j < |ms| && j != i ==> r.0.markers[j] == ms[j])
        && r.1 == [Updated(ms[i].id, p.0, p.1, ms[i].radius, r.0.markers[i].deed)]
    ensures forall j :: 0 <= j < |st.markers| ==>
      && r.0.markers[j].id == st.markers[j].id
      && r.0.markers[j].pos == st.markers[j].pos
      && r.0.markers[j].radius == st.markers[j].radius
      && TtlOrZero(st.markers[j].deed, now) <= TtlOrZero(r.0.markers[j].deed, now)
  {
    if deed.x.None? || deed.y.None? then (st, [])
    else
      var lon, lat := deed.x.value, deed.y.value;
      var p := LonLatToScene(lon as real, lat as real, cfg);
      var i := FirstNear(st.markers, p);
      if i < |st.markers| then
        var (ms', e) := Refresh(st.markers, i, deed, p, now);
        (st.(markers := ms'), [e])
      else
        var id := MarkerId(lon, lat, |st.markers|);
        (st.(markers := st.markers + [MarkerData(id, p, MarkerRadius, deed)]),
         [Added(id, p.0, p.1, MarkerRadius, deed)])
  }

  /** A scan result never brings two markers near each other. */
  lemma ScanKeepsSeparated(st: ServiceState, deed: DeedModel, now: real, cfg: Config)
    requires deed.x.Some? && deed.y.Some? ==> Calibrated(cfg)
    requires Separated(st.markers)
    ensures Separated(OnScanResult(st, deed, now, cfg).0.markers)
  {
    var ms := st.markers;
    var ms' := OnScanResult(st, deed, now, cfg).0.markers;
    if deed.x.Some? && deed.y.Some? {
      var p := LonLatToScene(deed.x.value as real, deed.y.value as real, cfg);
      if exists j :: 0 <= j < |ms| && Near(ms[j].pos, p) {
        SamePositionsSeparated(ms, ms');
      } else {
        var m := MarkerData(MarkerId(deed.x.value, deed.y.value, |ms|), p, MarkerRadius, deed);
        assert ms' == ms + [m];
        AppendSeparated(ms, m);
      }
    }
  }

  /** Markers that stay where they were stay separated. */
  lemma SamePositionsSeparated(ms: seq<MarkerData>, ms': seq<MarkerData>)
    requires Separated(ms) && |ms'| == |ms|
    requires forall j :: 0 <= j < |ms| ==> ms'[j].pos == ms[j].pos
    ensures Separated(ms')
  {
  }

  /** A marker far from every other one can join them. */
  lemma AppendSeparated(ms: seq<MarkerData>, m: MarkerData)
    requires Separated(ms)
    requires forall j :: 0 <= j < |ms| ==> !Near(ms[j].pos, m.pos)
    ensures Separated(ms + [m])
  {
    var ms' := ms + [m];
    forall i, j | 0 <= i < j < |ms'|
      ensures !Near(ms'[i].pos, ms'[j].pos)
    {
      assert ms'[i] == ms[i];
      if j < |ms| {
        assert ms'[j] == ms[j];
      }
    }
  }

  // ------------------------------------------------------------ tick_deeds

  predicate MarkerAlive(m: MarkerData, now: real) {
    Alive(m.deed, now)
  }

  /** The filter `tick_deeds` keeps markers by. */
  function AliveAt(now: real): MarkerData -> bool {
    m => MarkerAlive(m, now)
  }

  /** What `tick_deeds` announces for one marker: its removal once no
      whole second is left, otherwise the seconds it still has. */
  function TickEvent(m: MarkerData, now: real): (e: MarkerEvent)
    ensures e.id == m.id
    ensures e.Removed? <==> !MarkerAlive(m, now)
    ensures e.Ticked? ==> e.ttl > 0 && m.deed.expiry.Some? && TtlSec(m.deed, now) == Some(e.ttl)
  {
    if !MarkerAlive(m, now) then Removed(m.id) else Ticked(m.id, TtlOrZero(m.deed, now))
  }

  /** `tick_deeds`: one event per marker, in marker order, and only the
      live markers stay, in their order and unchanged. */
  method TickDeeds(st: ServiceState, now: real) returns (st': ServiceState, events: seq<MarkerEvent>)
    ensures st'.playerPos == st.playerPos
    ensures st'.markers == Keep(st.markers, AliveAt(now))
    ensures |events| == |st.markers|
    ensures forall i :: 0 <= i < |st.markers| ==> events[i] == TickEvent(st.markers[i], now)
  {
    var ms := st.markers;
    var alive: seq<MarkerData> := [];
    events := [];
    var i := 0;
    while i < |ms|
      invariant 0 <= i <= |ms|
      invariant alive == Keep(ms[..i], AliveAt(now))
      invariant |events| == i
      invariant forall k :: 0 <= k < i ==> events[k] == TickEvent(ms[k], now)
    {
      var e := TickEvent(ms[i], now);
      var alive' := if e.Ticked? then alive + [ms[i]] else alive;
      TickStep(ms, i, now, alive, events, alive');
      alive, events := alive', events + [e];
      i := i + 1;
    }
    assert ms[..|ms|] == ms;
    st' := st.(markers := alive);
  }

  /** One marker further, the loop of `tick_deeds` keeps its account. */
  lemma TickStep(ms: seq<MarkerData>, i: nat, now: real, alive: seq<MarkerData>,
                 events: seq<MarkerEvent>, alive': seq<MarkerData>)
    requires i < |ms|
    requires alive == Keep(ms[..i], AliveAt(now))
    requires |events| == i
    requires forall k :: 0 <= k < i ==> events[k] == TickEvent(ms[k], now)
    requires alive' == if TickEvent(ms[i], now).Ticked? then alive + [ms[i]] else alive
    ensures alive' == Keep(ms[..i + 1], AliveAt(now))
    ensures var events' := events + [TickEvent(ms[i], now)];
      forall k :: 0 <= k < i + 1 ==> events'[k] == TickEvent(ms[k], now)
  {
    KeepSnoc(ms, i, AliveAt(now));
    AliveTicks(ms[i], now);
    var events' := events + [TickEvent(ms[i], now)];
    forall k | 0 <= k < i + 1
      ensures events'[k] == TickEvent(ms[k], now)
    {
      if k < i {
        assert events'[k] == events[k];
      }
    }
  }

  lemma AliveTicks(m: MarkerData, now: real)
    ensures AliveAt(now)(m) == TickEvent(m, now).Ticked?
  {
  }

  /** A tick right after a tick removes nothing and changes nothing. */
  lemma TickSettled(ms: seq<MarkerData>, now: real)
    ensures var k := Keep(ms, AliveAt(now));
      && Keep(k, AliveAt(now)) == k
      && forall i :: 0 <= i < |k| ==> TickEvent(k[i], now).Ticked?
  {
    var k := Keep(ms, AliveAt(now));
    KeepAllPass(k, AliveAt(now));
  }

  /** A marker apart from every marker of a separated list can lead it. */
  lemma SeparatedCons(x: MarkerData, rest: seq<MarkerData>)
    requires Separated(rest)
    requires forall k :: 0 <= k < |rest| ==> !Near(x.pos, rest[k].pos)
    ensures Separated([x] + rest)
  {
    var r := [x] + rest;
    forall i, j | 0 <= i < j < |r|
      ensures !Near(r[i].pos, r[j].pos)
    {
      assert r[j] == rest[j - 1];
      if i > 0 {
        assert r[i] == rest[i - 1];
      }
    }
  }

  lemma SeparatedTail(ms: seq<MarkerData>)
    requires |ms| > 0 && Separated(ms)
    ensures Separated(ms[1..])
    ensures forall k :: 0 <= k < |ms| - 1 ==> !Near(ms[0].pos, ms[1..][k].pos)
  {
    forall i, j | 0 <= i < j < |ms[1..]|
      ensures !Near(ms[1..][i].pos, ms[1..][j].pos)
    {
      assert ms[1..][i] == ms[i + 1] && ms[1..][j] == ms[j + 1];
    }
  }

  /** Dropping markers keeps the rest apart. */
  lemma {:induction false} KeepSeparated(ms: seq<MarkerData>, p: MarkerData -> bool)
    requires Separated(ms)
    ensures Separated(Keep(ms, p))
    decreases |ms|
  {
    if |ms| > 0 {
      var tail := ms[1..];
      var rest := Keep(tail, p);
      SeparatedTail(ms);
      KeepSeparated(tail, p);
      if p(ms[0]) {
        forall k | 0 <= k < |rest|
          ensures !Near(ms[0].pos, rest[k].pos)
        {
          var j :| 0 <= j < |tail| && tail[j] == rest[k];
        }
        SeparatedCons(ms[0], rest);
      }
      assert Keep(ms, p) == (if p(ms[0]) then [ms[0]] else []) + rest;
    }
  }

  // ------------------------------------------------------------ remove_nearest_deed

  /** The Manhattan distance of a marker from the player. */
  function PlayerDistance(st: ServiceState): MarkerData -> Option<real> {
    (m: MarkerData) => Some(Manhattan(m.pos, st.playerPos))
  }

  /** `remove_nearest_deed`: with no markers nothing happens; otherwise the
      first marker at the least Manhattan distance from the player goes,
      however far away it is, and its removal is announced. */
  function RemoveNearest(st: ServiceState): (r: (ServiceState, seq<MarkerEvent>))
    ensures r.0.playerPos == st.playerPos
    ensures |st.markers| == 0 ==> r == (st, [])
    ensures |st.markers| > 0 ==>
      && |r.0.markers| == |st.markers| - 1
      && exists i ::
           && IsFirstMin(st.markers, PlayerDistance(st), i)
           && r.0.markers == RemoveAt(st.markers, i)
           && r.1 == [Removed(st.markers[i].id)]
  {
    match FirstArgMin(st.markers, PlayerDistance(st))
    case None => (st, [])
    case Some(i) =>
      (st.(markers := RemoveAt(st.markers, i)), [Removed(st.markers[i].id)])
  }

  /** Removing one marker keeps the others apart. */
  lemma RemoveKeepsSeparated(ms: seq<MarkerData>, i: nat)
    requires i < |ms| && Separated(ms)
    ensures Separated(RemoveAt(ms, i))
  {
    var r := RemoveAt(ms, i);
    forall a, b | 0 <= a < b < |r|
      ensures !Near(r[a].pos, r[b].pos)
    {
      var a' := if a < i then a else a + 1;
      var b' := if b < i then b else b + 1;
      assert r[a] == ms[a'] && r[b] == ms[b'];
    }
  }

  /** `_on_player_position_changed`: only the player's position changes. */
  function OnPlayerPositionChanged(st: ServiceState, pos: (real, real)): (r: ServiceState)
    ensures r.playerPos == pos && r.markers == st.markers
  {
    st.(playerPos := pos)
  }

  // ------------------------------------------------------------ invariant

  /** A marker's id names the spot its position was computed from. */
  predicate OriginMatches(m: MarkerData, cfg: Config)
    requires Calibrated(cfg)
  {
    var o := ParseMarkerId(m.id);
    o.Some? && m.pos == LonLatToScene(o.value.0 as real, o.value.1 as real, cfg)
  }

  /** What every operation keeps: markers apart, and every id naming its
      marker's origin. */
  predicate Wellformed(ms: seq<MarkerData>, cfg: Config) {
    && Calibrated(cfg)
    && Separated(ms)
    && forall i :: 0 <= i < |ms| ==> OriginMatches(ms[i], cfg)
  }

  /** In a well-formed marker list no id occurs twice, although ids embed
      the list length at the time and the list also shrinks. */
  lemma WellformedIdsUnique(ms: seq<MarkerData>, cfg: Config)
    requires Wellformed(ms, cfg)
    ensures forall i, j :: 0 <= i < j < |ms| ==> ms[i].id != ms[j].id
  {
  }

  lemma InitialWellformed(cfg: Config)
    requires Calibrated(cfg)
    ensures Wellformed(InitialState().markers, cfg)
  {
  }

  lemma ScanKeepsWellformed(st: ServiceState, deed: DeedModel, now: real, cfg: Config)
    requires Wellformed(st.markers, cfg)
    ensures Wellformed(OnScanResult(st, deed, now, cfg).0.markers, cfg)
  {
    ScanKeepsSeparated(st, deed, now, cfg);
    var ms := st.markers;
    var ms' := OnScanResult(st, deed, now, cfg).0.markers;
    forall i | 0 <= i < |ms'|
      ensures OriginMatches(ms'[i], cfg)
    {
      if i < |ms| {
        assert ms'[i].id == ms[i].id && ms'[i].pos == ms[i].pos;
        assert OriginMatches(ms[i], cfg);
      } else {
        assert ms'[i].id == MarkerId(deed.x.value, deed.y.value, |ms|);
      }
    }
  }

  lemma TickKeepsWellformed(ms: seq<MarkerData>, now: real, cfg: Config)
    requires Wellformed(ms, cfg)
    ensures Wellformed(Keep(ms, AliveAt(now)), cfg)
  {
    KeepSeparated(ms, AliveAt(now));
  }

  lemma RemoveKeepsWellformed(st: ServiceState, cfg: Config)
    requires Wellformed(st.markers, cfg)
    ensures Wellformed(RemoveNearest(st).0.markers, cfg)
  {
    match FirstArgMin(st.markers, PlayerDistance(st))
    case None =>
    case Some(i) => RemoveAtWellformed(st.markers, i, cfg);
  }

  lemma RemoveAtWellformed(ms: seq<MarkerData>, i: nat, cfg: Config)
    requires i < |ms| && Wellformed(ms, cfg)
    ensures Wellformed(RemoveAt(ms, i), cfg)
  {
    RemoveKeepsSeparated(ms, i);
    var r := RemoveAt(ms, i);
    forall a | 0 <= a < |r|
      ensures OriginMatches(r[a], cfg)
    {
      assert r[a] == ms[if a < i then a else a + 1];
    }
  }
}

/** `PlayerPositionService` (src/Services/player_position_service.py): the
    player's scene point and the square drawn around it. The signal it
    emits is returned as an event list. */
module PlayerPosition {
  import opened MapGeometry

  /** `QRectF(left, top, width, height)`. */
  datatype Rect = Rect(left: real, top: real, width: real, height: real)

  datatype PlayerState = PlayerState(position: (real, real), rect: Rect)

  /** `player_position_changed.emit(point, rect)`. */
  datatype PositionChanged = PositionChanged(position: (real, real), rect: Rect)

  /** The state right after construction: the origin and an empty rect. */
  function InitialState(): (s: PlayerState)
    ensures s.position == (0.0, 0.0)
    ensures s.rect.width == 0.0 && s.rect.height == 0.0
  {
    PlayerState((0.0, 0.0), Rect(0.0, 0.0, 0.0, 0.0))
  }

  /** `update_position`: the new point is the scene image of (lon, lat);
      the rect is a square of side twice the pixel radius centred on it;
      exactly one event carries both. Nothing of the old state survives. */
  function UpdatePosition(st: PlayerState, lon: int, lat: int, cfg: Config)
    : (r: (PlayerState, seq<PositionChanged>))
    requires Calibrated(cfg)
    ensures r.0.position == LonLatToScene(lon as real, lat as real, cfg)
    ensures HasArea(cfg) ==> SceneToLonLat(r.0.position.0, r.0.position.1, cfg) == (lon as real, lat as real)
    ensures var rad := CoordToPixelRadius(cfg) as real;
      && r.0.rect.width == 2.0 * rad && r.0.rect.height == 2.0 * rad
      && r.0.rect.left + rad == r.0.position.0
      && r.0.rect.top + rad == r.0.position.1
    ensures r.1 == [PositionChanged(r.0.position, r.0.rect)]
  {
    var p := LonLatToScene(lon as real, lat as real, cfg);
    assert HasArea(cfg) ==> SceneToLonLat(p.0, p.1, cfg) == (lon as real, lat as real) by {
      if HasArea(cfg) {
        LonLatRoundTrip(lon as real, lat as real, cfg);
      }
    }
    var radius := CoordToPixelRadius(cfg) as real;
    var st' := PlayerState(p, Rect(p.0 - radius, p.1 - radius, 2.0 * radius, 2.0 * radius));
    (st', [PositionChanged(st'.position, st'.rect)])
  }

  /** The square's size depends on the configuration only: two updates to
      any positions, from any states, give squares of the same size. */
  lemma RectSizeIndependentOfPosition(st1: PlayerState, st2: PlayerState,
                                      lon1: int, lat1: int, lon2: int, lat2: int, cfg: Config)
    requires Calibrated(cfg)
    ensures var a := UpdatePosition(st1, lon1, lat1, cfg).0.rect;
      var b := UpdatePosition(st2, lon2, lat2, cfg).0.rect;
      a.width == b.width && a.height == b.height
  {
  }

  /** Updating to the same place twice gives the same state and announces it
      again. */
  lemma UpdateTwiceSamePlace(st: PlayerState, lon: int, lat: int, cfg: Config)
    requires Calibrated(cfg)
    ensures var (s1, e1) := UpdatePosition(st, lon, lat, cfg);
      var (s2, e2) := UpdatePosition(s1, lon, lat, cfg);
      s2 == s1 && e2 == e1 && |e2| == 1
  {
  }
}

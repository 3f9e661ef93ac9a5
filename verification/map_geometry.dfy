/** The map calibration of src/map/map_utils.py and the inverse formula of
    src/Map/map_view.py: an affine map between game longitude/latitude and
    scene pixels, with the latitude axis pointing up on the map and the
    scene's y axis pointing down. */
module MapGeometry {
  import opened Wrappers
  import opened Reals

  /** One entry of `config["planets"]`. */
  datatype PlanetConfig = PlanetConfig(
    minLon: real, maxLon: real, minLat: real, maxLat: real,
    tileCountX: int, tileCountY: int)

  /** The parts of the configuration the map code reads:
      `config["planets"]`, `config["map"]["planet"]`,
      `config["map"]["tile_size"]` and `config["player"]["radius_coord"]`. */
  datatype Config = Config(
    planets: map<string, PlanetConfig>,
    mapPlanet: string,
    tileSize: int,
    radiusCoord: real)

  /** `get_planet_config`: the entry of the current planet; None where the
      source raises `KeyError`. */
  function GetPlanetConfig(cfg: Config): (r: Option<PlanetConfig>)
    ensures r.Some? <==> cfg.mapPlanet in cfg.planets
    ensures r.Some? ==> r.value in cfg.planets.Values
  {
    if cfg.mapPlanet in cfg.planets then Some(cfg.planets[cfg.mapPlanet]) else None
  }

  predicate HasPlanet(cfg: Config) {
    cfg.mapPlanet in cfg.planets
  }

  function Planet(cfg: Config): PlanetConfig
    requires HasPlanet(cfg)
  {
    cfg.planets[cfg.mapPlanet]
  }

  function MapWidth(cfg: Config): real
    requires HasPlanet(cfg)
  {
    (Planet(cfg).tileCountX * cfg.tileSize) as real
  }

  function MapHeight(cfg: Config): real
    requires HasPlanet(cfg)
  {
    (Planet(cfg).tileCountY * cfg.tileSize) as real
  }

  function LonRange(cfg: Config): real
    requires HasPlanet(cfg)
  {
    Planet(cfg).maxLon - Planet(cfg).minLon
  }

  function LatRange(cfg: Config): real
    requires HasPlanet(cfg)
  {
    Planet(cfg).maxLat - Planet(cfg).minLat
  }

  /** What `lonlat_to_scene` needs to return at all: the planet is
      configured and neither coordinate range is empty (the source divides
      by both ranges without a guard). */
  predicate Calibrated(cfg: Config) {
    HasPlanet(cfg) && LonRange(cfg) != 0.0 && LatRange(cfg) != 0.0
  }

  /** What the inverse formula needs: a map of non-zero size (the read-out
      divides by the map width and height without a guard, so a zero-size
      map raises instead of giving coordinates). */
  predicate HasArea(cfg: Config) {
    HasPlanet(cfg) && MapWidth(cfg) != 0.0 && MapHeight(cfg) != 0.0
  }

  /** `lonlat_to_scene`: scene x grows with longitude from 0 at `min_lon`;
      scene y is `map_height` at `min_lat` and shrinks as latitude grows. The
      result is characterised by the two proportions it keeps. */
  function LonLatToScene(lon: real, lat: real, cfg: Config): (p: (real, real))
    requires Calibrated(cfg)
    ensures p.0 * LonRange(cfg) == (lon - Planet(cfg).minLon) * MapWidth(cfg)
    ensures (MapHeight(cfg) - p.1) * LatRange(cfg) == (lat - Planet(cfg).minLat) * MapHeight(cfg)
  {
    var pc := Planet(cfg);
    var x := ((lon - pc.minLon) / LonRange(cfg)) * MapWidth(cfg);
    var y := MapHeight(cfg) - ((lat - pc.minLat) / LatRange(cfg)) * MapHeight(cfg);
    ScaleCancel(lon - pc.minLon, LonRange(cfg), MapWidth(cfg));
    ScaleCancel(lat - pc.minLat, LatRange(cfg), MapHeight(cfg));
    (x, y)
  }

  /** The coordinate read-out of `MapView.mouseMoveEvent`: the scene point
      back to longitude and latitude. */
  function SceneToLonLat(x: real, y: real, cfg: Config): (g: (real, real))
    requires HasArea(cfg)
    ensures (g.0 - Planet(cfg).minLon) * MapWidth(cfg) == x * LonRange(cfg)
    ensures (g.1 - Planet(cfg).minLat) * MapHeight(cfg) == (MapHeight(cfg) - y) * LatRange(cfg)
  {
    var pc := Planet(cfg);
    var lon := pc.minLon + (x / MapWidth(cfg)) * LonRange(cfg);
    var lat := pc.minLat + ((MapHeight(cfg) - y) / MapHeight(cfg)) * LatRange(cfg);
    ScaleCancel(x, MapWidth(cfg), LonRange(cfg));
    ScaleCancel(MapHeight(cfg) - y, MapHeight(cfg), LatRange(cfg));
    (lon, lat)
  }

  /** `(a / b) * c` times `b` is `a * c`. */
  lemma ScaleCancel(a: real, b: real, c: real)
    requires b != 0.0
    ensures ((a / b) * c) * b == a * c
  {
    calc {
      ((a / b) * c) * b;
      (a / b) * b * c;
      { assert (a / b) * b == a; }
      a * c;
    }
  }

  /** From lon/lat to the scene and back gives the same lon/lat. */
  lemma LonLatRoundTrip(lon: real, lat: real, cfg: Config)
    requires Calibrated(cfg) && HasArea(cfg)
    ensures var p := LonLatToScene(lon, lat, cfg);
      SceneToLonLat(p.0, p.1, cfg) == (lon, lat)
  {
    var p := LonLatToScene(lon, lat, cfg);
    var g := SceneToLonLat(p.0, p.1, cfg);
    var pc := Planet(cfg);
    CancelFactor(g.0 - pc.minLon, lon - pc.minLon, MapWidth(cfg));
    CancelFactor(g.1 - pc.minLat, lat - pc.minLat, MapHeight(cfg));
  }

  /** From the scene to lon/lat and back gives the same scene point. */
  lemma SceneRoundTrip(x: real, y: real, cfg: Config)
    requires Calibrated(cfg) && HasArea(cfg)
    ensures var g := SceneToLonLat(x, y, cfg);
      LonLatToScene(g.0, g.1, cfg) == (x, y)
  {
    var g := SceneToLonLat(x, y, cfg);
    var p := LonLatToScene(g.0, g.1, cfg);
    CancelFactor(p.0, x, LonRange(cfg));
    CancelFactor(MapHeight(cfg) - p.1, MapHeight(cfg) - y, LatRange(cfg));
  }

  lemma CancelFactor(a: real, b: real, k: real)
    requires k != 0.0 && a * k == b * k
    ensures a == b
  {
    assert (a - b) * k == 0.0;
  }

  /** The corners of the calibration land on the corners of the map:
      (`min_lon`, `min_lat`) at the bottom left, (`max_lon`, `max_lat`) at
      the top right. */
  lemma SceneCorners(cfg: Config)
    requires Calibrated(cfg)
    ensures LonLatToScene(Planet(cfg).minLon, Planet(cfg).minLat, cfg) == (0.0, MapHeight(cfg))
    ensures LonLatToScene(Planet(cfg).maxLon, Planet(cfg).maxLat, cfg) == (MapWidth(cfg), 0.0)
  {
    var pc := Planet(cfg);
    var p := LonLatToScene(pc.maxLon, pc.maxLat, cfg);
    CancelFactor(p.0, MapWidth(cfg), LonRange(cfg));
    CancelFactor(MapHeight(cfg) - p.1, MapHeight(cfg), LatRange(cfg));
    var q := LonLatToScene(pc.minLon, pc.minLat, cfg);
    CancelFactor(q.0, 0.0, LonRange(cfg));
    CancelFactor(MapHeight(cfg) - q.1, 0.0, LatRange(cfg));
  }

  /** Scene x depends on longitude only, scene y on latitude only. */
  lemma AxesIndependent(lon1: real, lat1: real, lon2: real, lat2: real, cfg: Config)
    requires Calibrated(cfg)
    ensures lon1 == lon2 ==> LonLatToScene(lon1, lat1, cfg).0 == LonLatToScene(lon2, lat2, cfg).0
    ensures lat1 == lat2 ==> LonLatToScene(lon1, lat1, cfg).1 == LonLatToScene(lon2, lat2, cfg).1
  {
    var p := LonLatToScene(lon1, lat1, cfg);
    var q := LonLatToScene(lon2, lat2, cfg);
    if lon1 == lon2 {
      CancelFactor(p.0, q.0, LonRange(cfg));
    }
    if lat1 == lat2 {
      CancelFactor(MapHeight(cfg) - p.1, MapHeight(cfg) - q.1, LatRange(cfg));
    }
  }

  /** With increasing ranges and a map of non-negative size, a point inside
      the calibrated box lands inside the map. */
  lemma InRangeOnMap(lon: real, lat: real, cfg: Config)
    requires Calibrated(cfg) && LonRange(cfg) > 0.0 && LatRange(cfg) > 0.0
    requires MapWidth(cfg) >= 0.0 && MapHeight(cfg) >= 0.0
    requires Planet(cfg).minLon <= lon <= Planet(cfg).maxLon
    requires Planet(cfg).minLat <= lat <= Planet(cfg).maxLat
    ensures var p := LonLatToScene(lon, lat, cfg);
      0.0 <= p.0 <= MapWidth(cfg) && 0.0 <= p.1 <= MapHeight(cfg)
  {
    var pc := Planet(cfg);
    var p := LonLatToScene(lon, lat, cfg);
    var w, h := MapWidth(cfg), MapHeight(cfg);
    var dl, dt := LonRange(cfg), LatRange(cfg);
    Between(p.0, lon - pc.minLon, dl, w);
    Between(h - p.1, lat - pc.minLat, dt, h);
  }

  /** If `v * d == a * w` with `0 <= a <= d` and `d > 0`, then `0 <= v <= w`. */
  lemma Between(v: real, a: real, d: real, w: real)
    requires d > 0.0 && w >= 0.0 && 0.0 <= a <= d
    requires v * d == a * w
    ensures 0.0 <= v <= w
  {
    var t := a / d;
    assert t * d == a;
    assert v * d == (t * w) * d;
    CancelFactor(v, t * w, d);
    assert 0.0 <= t <= 1.0;
    assert t * w <= 1.0 * w;
  }

  /** `coord_to_pixel_radius`: the player's radius in coordinate units as
      whole scene pixels, truncated toward zero; 0 when the longitude range
      is empty. */
  function CoordToPixelRadius(cfg: Config): (r: int)
    requires HasPlanet(cfg)
    ensures LonRange(cfg) == 0.0 ==> r == 0
    ensures LonRange(cfg) != 0.0 ==>
      var v := (cfg.radiusCoord / LonRange(cfg)) * MapWidth(cfg);
      && (v >= 0.0 ==> 0 <= r && r as real <= v < r as real + 1.0)
      && (v < 0.0 ==> r <= 0 && r as real - 1.0 < v <= r as real)
  {
    if LonRange(cfg) == 0.0 then 0
    else
      Trunc((cfg.radiusCoord / LonRange(cfg)) * MapWidth(cfg))
  }

  /** The pixel radius is the scene-x length of `radius_coord` degrees of
      longitude, truncated toward zero, wherever it is measured. */
  lemma RadiusIsSceneLength(lon: real, lat: real, cfg: Config)
    requires Calibrated(cfg)
    ensures CoordToPixelRadius(cfg) ==
      Trunc(LonLatToScene(lon + cfg.radiusCoord, lat, cfg).0 - LonLatToScene(lon, lat, cfg).0)
  {
    SceneXOffset(lon, cfg.radiusCoord, lat, cfg);
  }

  /** Moving `d` degrees east moves the scene point `d / lon_range * map_width`
      pixels along x, wherever it starts. */
  lemma SceneXOffset(lon: real, d: real, lat: real, cfg: Config)
    requires Calibrated(cfg)
    ensures LonLatToScene(lon + d, lat, cfg).0 - LonLatToScene(lon, lat, cfg).0
      == (d / LonRange(cfg)) * MapWidth(cfg)
  {
    var a := LonLatToScene(lon + d, lat, cfg).0;
    var b := LonLatToScene(lon, lat, cfg).0;
    var u := lon - Planet(cfg).minLon;
    assert a * LonRange(cfg) == (u + d) * MapWidth(cfg);
    assert b * LonRange(cfg) == u * MapWidth(cfg);
    OffsetLength(a, b, u, d, LonRange(cfg), MapWidth(cfg));
  }

  /** Two points whose proportions differ by `rc` lie `rc / dl * w` apart. */
  lemma OffsetLength(a: real, b: real, u: real, rc: real, dl: real, w: real)
    requires dl != 0.0
    requires a * dl == (u + rc) * w && b * dl == u * w
    ensures a - b == (rc / dl) * w
  {
    assert (a - b) * dl == rc * w;
    var q := (rc / dl) * w;
    ScaleCancel(rc, dl, w);
    CancelFactor(a - b, q, dl);
  }
}

/** `DeedMarkerController` (src/Map/map_deed_controller.py): the scene's
    list of deed markers, each with a countdown in whole ticks and a label.
    The Qt items (dot, text) are left out; a marker keeps what the list
    logic reads. */
module MarkerController {
  import opened Wrappers
  import opened Text
  import opened Clock
  import opened Seqs

  datatype Marker = Marker(pos: (real, real), remaining: int, labelText: string)

  /** `NEAR_PX`: detections closer than this to a marker update it. */
  const NearPx: real := 10.0

  /** Squared Euclidean distance within `NEAR_PX`, as the source compares it. */
  predicate Near(a: (real, real), b: (real, real)) {
    (a.0 - b.0) * (a.0 - b.0) + (a.1 - b.1) * (a.1 - b.1) <= NearPx * NearPx
  }

  /** No two markers are near each other. */
  predicate Separated(markers: seq<Marker>) {
    forall i, j :: 0 <= i < j < |markers| ==> !Near(markers[i].pos, markers[j].pos)
  }

  /** Index of the first marker near `p`, or `|markers|`. */
  function FirstNear(markers: seq<Marker>, p: (real, real)): (i: nat)
    ensures i <= |markers|
    ensures i < |markers| ==> Near(markers[i].pos, p)
    ensures forall j :: 0 <= j < i ==> !Near(markers[j].pos, p)
  {
    FirstWhere(markers, (m: Marker) => Near(m.pos, p))
  }

  /** Python's truthiness of an optional label. */
  predicate Given(s: Option<string>) {
    s.Some? && |s.value| > 0
  }

  /** `add_or_update_deed_marker` with `lonlat_to_scene` as a parameter. A
      detection near an existing marker refreshes the first such marker:
      its countdown becomes the larger of the two and its label is replaced
      only by a non-empty one. Otherwise a marker is appended. A missing TTL
      counts as 0. */
  function AddOrUpdate(markers: seq<Marker>, lon: int, lat: int, ttl: Option<int>, newLabel: Option<string>,
                       toScene: (real, real) -> (real, real)): (r: seq<Marker>)
    ensures var p := toScene(lon as real, lat as real);
      var t := OrZero(ttl);
      && ((exists j :: 0 <= j < |markers| && Near(markers[j].pos, p)) ==> |r| == |markers|)
      && ((forall j :: 0 <= j < |markers| ==> !Near(markers[j].pos, p)) ==>
            r == markers + [Marker(p, t, if Given(newLabel) then newLabel.value else "")])
    ensures var i := FirstNear(markers, toScene(lon as real, lat as real));
      i < |markers| ==>
        && |r| == |markers|
        && r[i].pos == markers[i].pos
        && r[i].remaining == (if OrZero(ttl) > markers[i].remaining then OrZero(ttl) else markers[i].remaining)
        && r[i].labelText == (if Given(newLabel) then newLabel.value else markers[i].labelText)
        && (forall j :: 0 <= j < |markers| && j != i ==> r[j] == markers[j])
    ensures forall j :: 0 <= j < |markers| ==> r[j].pos == markers[j].pos
    ensures forall j :: 0 <= j < |markers| ==> r[j].remaining >= markers[j].remaining
    ensures forall j :: 0 <= j < |markers| && r[j] != markers[j] ==>
      && Near(markers[j].pos, toScene(lon as real, lat as real))
      && (forall k :: 0 <= k < j ==> !Near(markers[k].pos, toScene(lon as real, lat as real)))
      && r[j].remaining >= OrZero(ttl)
      && r[j].labelText == (if Given(newLabel) then newLabel.value else markers[j].labelText)
  {
    var p := toScene(lon as real, lat as real);
    var t := OrZero(ttl);
    var i := FirstNear(markers, p);
    if i < |markers| then
      var m := markers[i];
      markers[i := Marker(m.pos, if t > m.remaining then t else m.remaining,
                          if Given(newLabel) then newLabel.value else m.labelText)]
    else
      markers + [Marker(p, t, if Given(newLabel) then newLabel.value else "")]
  }

  /** Markers stay apart: a detection either lands on an existing marker
      (whose position does not move) or is appended far from all of them. */
  lemma AddKeepsSeparated(markers: seq<Marker>, lon: int, lat: int, ttl: Option<int>, newLabel: Option<string>,
                          toScene: (real, real) -> (real, real))
    requires Separated(markers)
    ensures Separated(AddOrUpdate(markers, lon, lat, ttl, newLabel, toScene))
  {
    var r := AddOrUpdate(markers, lon, lat, ttl, newLabel, toScene);
    var p := toScene(lon as real, lat as real);
    forall i, j | 0 <= i < j < |r|
      ensures !Near(r[i].pos, r[j].pos)
    {
      if j == |markers| {
        assert r[j].pos == p;
        assert !Near(markers[i].pos, p);
      }
    }
  }

  // ------------------------------------------------------------ tick

  /** One tick of `tick_deeds`: every countdown drops by one and markers
      whose countdown reaches 0 or below are removed. */
  function Tick(markers: seq<Marker>): (r: seq<Marker>)
    ensures |r| <= |markers|
    ensures forall i :: 0 <= i < |r| ==> r[i].remaining >= 1
    decreases |markers|
  {
    if |markers| == 0 then []
    else
      var m := markers[0];
      (if m.remaining - 1 <= 0 then [] else [m.(remaining := m.remaining - 1)]) + Tick(markers[1..])
  }

  /** A tick acts on each marker separately and keeps the order of the
      survivors. */
  lemma {:induction false} TickConcat(a: seq<Marker>, b: seq<Marker>)
    ensures Tick(a + b) == Tick(a) + Tick(b)
    decreases |a|
  {
    if |a| == 0 {
      assert a + b == b;
    } else {
      assert (a + b)[1..] == a[1..] + b;
      TickConcat(a[1..], b);
    }
  }

  /** A tick on a single marker: one tick less, or gone when that leaves
      nothing. */
  lemma TickOne(m: Marker)
    ensures m.remaining <= 1 ==> Tick([m]) == []
    ensures m.remaining > 1 ==> Tick([m]) == [Marker(m.pos, m.remaining - 1, m.labelText)]
  {
    assert [m][1..] == [];
  }

  /** The survivors of a tick are a subsequence of the markers, so they stay
      apart. */
  lemma {:induction false} TickKeepsSeparated(markers: seq<Marker>)
    requires Separated(markers)
    ensures Separated(Tick(markers))
    decreases |markers|
  {
    if |markers| > 0 {
      var m := markers[0];
      var rest := Tick(markers[1..]);
      TickKeepsSeparated(markers[1..]);
      TickPositions(markers[1..]);
      if m.remaining - 1 > 0 {
        var r := Tick(markers);
        assert r == [m.(remaining := m.remaining - 1)] + rest;
        forall i, j | 0 <= i < j < |r|
          ensures !Near(r[i].pos, r[j].pos)
        {
          if i == 0 {
            var k :| 0 <= k < |markers[1..]| && markers[1..][k].pos == rest[j - 1].pos;
            assert markers[k + 1] == markers[1..][k];
          } else {
            assert r[i] == rest[i - 1] && r[j] == rest[j - 1];
          }
        }
      }
    }
  }

  /** Every survivor of a tick sits where some marker sat. */
  lemma {:induction false} TickPositions(markers: seq<Marker>)
    ensures forall i :: 0 <= i < |Tick(markers)| ==>
      exists k :: 0 <= k < |markers| && markers[k].pos == Tick(markers)[i].pos
    decreases |markers|
  {
    if |markers| > 0 {
      TickPositions(markers[1..]);
      var r := Tick(markers);
      var rest := Tick(markers[1..]);
      var head := if markers[0].remaining - 1 <= 0 then [] else [markers[0].(remaining := markers[0].remaining - 1)];
      assert r == head + rest;
      forall i | 0 <= i < |r|
        ensures exists k :: 0 <= k < |markers| && markers[k].pos == r[i].pos
      {
        if i < |head| {
          assert r[i] == head[i];
          assert markers[0].pos == r[i].pos;
        } else {
          assert r[i] == rest[i - |head|];
          var k :| 0 <= k < |markers[1..]| && markers[1..][k].pos == rest[i - |head|].pos;
          assert markers[k + 1].pos == r[i].pos;
        }
      }
    } else {
      assert Tick(markers) == [];
    }
  }

  // ------------------------------------------------------------ caption

  /** The caption `update_marker_visual` shows: the countdown alone, or the
      label, " | " and the countdown. */
  function Caption(m: Marker): (c: string)
    ensures |m.labelText| == 0 ==>
      c == FormatTtl(m.remaining) && ClockValue(c) == Some(if m.remaining < 0 then 0 else m.remaining)
    ensures |m.labelText| > 0 ==>
      var n := |m.labelText| + 3;
      && |c| > n && c[..n] == m.labelText + " | " && c[n..] == FormatTtl(m.remaining)
      && ClockValue(c[n..]) == Some(if m.remaining < 0 then 0 else m.remaining)
  {
    var ttl := FormatTtl(m.remaining);
    if |m.labelText| == 0 then ttl
    else
      var c := m.labelText + " | " + ttl;
      assert c[|m.labelText| + 3..] == ttl;
      assert |ttl| > 0 by {
        assert |Split(ttl, ':')| == 3;
      }
      c
  }
}

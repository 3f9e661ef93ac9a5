/** `DeedRepository` (src/Repositories/deed_repository.py): the in-memory
    list of active deeds. The store is a sequence value, and every operation
    returns the new sequence. */
module DeedRepository {
  import opened Wrappers
  import opened Seqs
  import opened Deeds

  /** The dedupe key `(x, y, resource)`; missing parts compare as None. */
  datatype Key = Key(x: Option<int>, y: Option<int>, resource: Option<string>)

  function KeyOf(d: DeedModel): Key {
    Key(d.x, d.y, d.resource)
  }

  /** No two stored deeds share a key. */
  predicate UniqueKeys(items: seq<DeedModel>) {
    forall i, j :: 0 <= i < j < |items| ==> KeyOf(items[i]) != KeyOf(items[j])
  }

  predicate HasKey(items: seq<DeedModel>, k: Key) {
    exists i :: 0 <= i < |items| && KeyOf(items[i]) == k
  }

  /** Index of the first deed with key `k`, or `|items|`. */
  function FirstWithKey(items: seq<DeedModel>, k: Key): (i: nat)
    ensures i <= |items|
    ensures i < |items| ==> KeyOf(items[i]) == k
    ensures forall j :: 0 <= j < i ==> KeyOf(items[j]) != k
    decreases |items|
  {
    if |items| == 0 then 0
    else if KeyOf(items[0]) == k then 0
    else 1 + FirstWithKey(items[1..], k)
  }

  // ------------------------------------------------------------ add_or_update

  /** `add_or_update`: the first deed with the same key is replaced when the
      new deed has strictly more time left (None counting as 0) and kept
      otherwise; a deed with a new key is appended. */
  function AddOrUpdate(items: seq<DeedModel>, deed: DeedModel, now: real): (r: seq<DeedModel>)
    ensures HasKey(items, KeyOf(deed)) ==> |r| == |items|
    ensures !HasKey(items, KeyOf(deed)) ==> r == items + [deed]
    ensures HasKey(r, KeyOf(deed))
    ensures var i := FirstWithKey(items, KeyOf(deed));
      i < |items| ==>
        && r[i] == (if TtlOrZero(items[i], now) < TtlOrZero(deed, now) then deed else items[i])
        && (forall j :: 0 <= j < |items| && j != i ==> r[j] == items[j])
    ensures forall j :: 0 <= j < |items| ==> KeyOf(r[j]) == KeyOf(items[j])
    ensures forall j :: 0 <= j < |items| ==> TtlOrZero(items[j], now) <= TtlOrZero(r[j], now)
    ensures forall j :: 0 <= j < |items| && r[j] != items[j] ==>
      r[j] == deed && TtlOrZero(items[j], now) < TtlOrZero(deed, now)
      && forall k :: 0 <= k < j ==> KeyOf(items[k]) != KeyOf(deed)
  {
    var i := FirstWithKey(items, KeyOf(deed));
    if i == |items| then
      assert (items + [deed])[|items|] == deed;
      items + [deed]
    else if TtlOrZero(items[i], now) < TtlOrZero(deed, now) then
      assert items[i := deed][i] == deed;
      items[i := deed]
    else
      assert KeyOf(items[i]) == KeyOf(deed);
      items
  }

  /** Adding or updating never creates a second deed with the same key. */
  lemma AddKeepsKeysUnique(items: seq<DeedModel>, deed: DeedModel, now: real)
    requires UniqueKeys(items)
    ensures UniqueKeys(AddOrUpdate(items, deed, now))
  {
    var r := AddOrUpdate(items, deed, now);
    if !HasKey(items, KeyOf(deed)) {
      forall i, j | 0 <= i < j < |r|
        ensures KeyOf(r[i]) != KeyOf(r[j])
      {
        if j == |items| {
          assert r[i] == items[i];
        }
      }
    }
  }

  /** Adding a deed whose key is already stored a second time with no more
      time left changes nothing. */
  lemma AddSameDeedTwice(items: seq<DeedModel>, deed: DeedModel, now: real)
    ensures var once := AddOrUpdate(items, deed, now);
      AddOrUpdate(once, deed, now) == once
  {
    var once := AddOrUpdate(items, deed, now);
    var i := FirstWithKey(once, KeyOf(deed));
    var k := FirstWithKey(items, KeyOf(deed));
    if k < |items| {
      assert FirstWithKey(once, KeyOf(deed)) == k;
    } else {
      assert once[|items|] == deed;
      assert i <= |items|;
      assert once[i] == deed;
    }
  }

  // ------------------------------------------------------------ remove_nearest

  /** The default `max_dist_px` of `remove_nearest`. */
  const DefaultMaxDist: real := 120.0

  /** Squared distance between two scene points. */
  function SqDist(a: (real, real), b: (real, real)): (d: real)
    ensures d >= 0.0
  {
    (a.0 - b.0) * (a.0 - b.0) + (a.1 - b.1) * (a.1 - b.1)
  }

  /** The squared scene distance from the player to a deed, or None for a
      deed without x or y (such deeds are skipped). Comparing squares orders
      deeds exactly as `math.hypot` does. */
  function DistKey(d: DeedModel, player: (real, real), toScene: (real, real) -> (real, real)): Option<real> {
    if d.x.None? || d.y.None? then None
    else Some(SqDist(toScene(d.x.value as real, d.y.value as real), player))
  }

  /** `hypot(...) <= max_dist_px` stated on the square: a negative cap
      admits nothing. */
  predicate WithinCap(sq: real, maxDist: real) {
    maxDist >= 0.0 && sq <= maxDist * maxDist
  }

  /** `remove_nearest`: the earliest deed at minimal distance is popped when
      it lies within `maxDist`; otherwise nothing changes. Returns the new
      list and the removed deed. */
  function RemoveNearest(items: seq<DeedModel>, player: (real, real),
                         toScene: (real, real) -> (real, real), maxDist: real)
    : (r: (seq<DeedModel>, Option<DeedModel>))
    ensures r.1.None? ==> r.0 == items
    ensures r.1.None? <==> forall j :: 0 <= j < |items| && DistKey(items[j], player, toScene).Some? ==>
      !WithinCap(DistKey(items[j], player, toScene).value, maxDist)
    ensures r.1.Some? ==> exists i ::
      && IsFirstMin(items, (d: DeedModel) => DistKey(d, player, toScene), i)
      && r.1.value == items[i]
      && WithinCap(DistKey(items[i], player, toScene).value, maxDist)
      && r.0 == RemoveAt(items, i)
  {
    var key := (d: DeedModel) => DistKey(d, player, toScene);
    var best := FirstArgMin(items, key);
    if best.Some? && WithinCap(key(items[best.value]).value, maxDist) then
      (RemoveAt(items, best.value), Some(items[best.value]))
    else
      assert best.Some? ==> forall j :: 0 <= j < |items| && key(items[j]).Some? ==>
        !WithinCap(key(items[j]).value, maxDist) by {
        if best.Some? {
          forall j | 0 <= j < |items| && key(items[j]).Some?
            ensures !WithinCap(key(items[j]).value, maxDist)
          {
            assert key(items[best.value]).value <= key(items[j]).value;
          }
        }
      }
      (items, None)
  }

  /** The repository removes at most one deed, and only a deed it held. */
  lemma RemoveNearestAtMostOne(items: seq<DeedModel>, player: (real, real),
                               toScene: (real, real) -> (real, real), maxDist: real)
    ensures var r := RemoveNearest(items, player, toScene, maxDist);
      && |items| - 1 <= |r.0| <= |items|
      && (r.1.Some? <==> |r.0| == |items| - 1)
      && (r.1.Some? ==> r.1.value in items)
  {
  }

  // ------------------------------------------------------------ gc_expired

  /** The deeds that survive `gc_expired`, in their original order. */
  function Survivors(items: seq<DeedModel>, now: real): (r: seq<DeedModel>)
    ensures forall i :: 0 <= i < |r| ==> Alive(r[i], now) && r[i] in items
    ensures forall i :: 0 <= i < |items| && Alive(items[i], now) ==> items[i] in r
  {
    Keep(items, d => Alive(d, now))
  }

  /** Collecting a concatenation collects each part, so survivors keep their
      relative order. */
  lemma SurvivorsConcat(a: seq<DeedModel>, b: seq<DeedModel>, now: real)
    ensures Survivors(a + b, now) == Survivors(a, now) + Survivors(b, now)
  {
    KeepConcat(a, b, d => Alive(d, now));
  }

  /** When every deed still has time left, collection changes nothing. */
  lemma SurvivorsAllAlive(items: seq<DeedModel>, now: real)
    requires forall i :: 0 <= i < |items| ==> Alive(items[i], now)
    ensures Survivors(items, now) == items
  {
    KeepAllPass(items, d => Alive(d, now));
  }

  /** `gc_expired`: the loop of the source, keeping live deeds and counting
      the rest. */
  method GcExpired(items: seq<DeedModel>, now: real) returns (alive: seq<DeedModel>, removed: nat)
    ensures alive == Survivors(items, now)
    ensures removed == |items| - |alive|
    ensures removed == Count(items, d => !Alive(d, now))
  {
    alive := [];
    removed := 0;
    var i := 0;
    while i < |items|
      invariant 0 <= i <= |items|
      invariant alive == Survivors(items[..i], now)
      invariant removed == i - |alive|
    {
      SurvivorsConcat(items[..i], [items[i]], now);
      assert items[..i + 1] == items[..i] + [items[i]];
      if !Alive(items[i], now) {
        removed := removed + 1;
      } else {
        alive := alive + [items[i]];
      }
      i := i + 1;
    }
    assert items[..i] == items;
    ExpiredCount(items, now);
  }

  /** Survivors and expired deeds together account for every deed. */
  lemma {:induction false} ExpiredCount(items: seq<DeedModel>, now: real)
    ensures Count(items, d => !Alive(d, now)) == |items| - |Survivors(items, now)|
    decreases |items|
  {
    if |items| > 0 {
      ExpiredCount(items[1..], now);
      assert items == [items[0]] + items[1..];
      SurvivorsConcat([items[0]], items[1..], now);
    }
  }
}

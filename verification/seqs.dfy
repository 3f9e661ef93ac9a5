/** Sequence helpers shared by the deed stores: order-keeping filtering,
    removal at an index, and the "first minimum" scan used by every
    nearest-deed search. */
module Seqs {
  import opened Wrappers

  /** The elements of `s` that satisfy `p`, in their original order
      (a Python list comprehension with an `if`). */
  function Keep<T>(s: seq<T>, p: T -> bool): (r: seq<T>)
    ensures |r| <= |s|
    ensures forall i :: 0 <= i < |r| ==> p(r[i])
    ensures forall i :: 0 <= i < |r| ==> r[i] in s
    ensures forall i :: 0 <= i < |s| && p(s[i]) ==> s[i] in r
    decreases |s|
  {
    if |s| == 0 then []
    else (if p(s[0]) then [s[0]] else []) + Keep(s[1..], p)
  }

  /** Filtering acts on each part of a concatenation separately, so the
      survivors keep their relative order. */
  lemma {:induction false} KeepConcat<T>(a: seq<T>, b: seq<T>, p: T -> bool)
    ensures Keep(a + b, p) == Keep(a, p) + Keep(b, p)
    decreases |a|
  {
    if |a| == 0 {
      assert a + b == b;
    } else {
      assert (a + b)[1..] == a[1..] + b;
      KeepConcat(a[1..], b, p);
    }
  }

  /** A sequence is its prefix followed by the matching suffix. */
  lemma TakeDrop<T>(s: seq<T>, n: nat)
    requires n <= |s|
    ensures s[..n] + s[n..] == s
  {
  }

  /** Filtering a sequence with a given first element. */
  lemma KeepCons<T>(x: T, xs: seq<T>, p: T -> bool)
    ensures Keep([x] + xs, p) == (if p(x) then [x] else []) + Keep(xs, p)
  {
    assert ([x] + xs)[1..] == xs;
  }

  /** Filtering one element further along. */
  lemma KeepSnoc<T>(s: seq<T>, i: nat, p: T -> bool)
    requires i < |s|
    ensures Keep(s[..i + 1], p) == Keep(s[..i], p) + (if p(s[i]) then [s[i]] else [])
  {
    assert s[..i + 1] == s[..i] + [s[i]];
    KeepConcat(s[..i], [s[i]], p);
    assert Keep([s[i]], p) == (if p(s[i]) then [s[i]] else []) by {
      KeepCons(s[i], [], p);
      assert [s[i]] + [] == [s[i]];
    }
  }

  /** When every element passes, filtering changes nothing. */
  lemma {:induction false} KeepAllPass<T>(s: seq<T>, p: T -> bool)
    requires forall i :: 0 <= i < |s| ==> p(s[i])
    ensures Keep(s, p) == s
    decreases |s|
  {
    if |s| > 0 {
      KeepAllPass(s[1..], p);
    }
  }

  /** Number of elements of `s` that satisfy `p`. */
  function Count<T>(s: seq<T>, p: T -> bool): (n: nat)
    ensures n <= |s|
    decreases |s|
  {
    if |s| == 0 then 0 else (if p(s[0]) then 1 else 0) + Count(s[1..], p)
  }

  /** The survivors of a filter are exactly as many as the elements it accepts. */
  lemma {:induction false} KeepCount<T>(s: seq<T>, p: T -> bool)
    ensures |Keep(s, p)| == Count(s, p)
    decreases |s|
  {
    if |s| > 0 {
      KeepCount(s[1..], p);
    }
  }

  /** Index of the first element of `s` that satisfies `p`, or `|s|` when
      none does (a `for` loop that stops at the first hit). */
  function FirstWhere<T>(s: seq<T>, p: T -> bool): (i: nat)
    ensures i <= |s|
    ensures i < |s| ==> p(s[i])
    ensures forall j :: 0 <= j < i ==> !p(s[j])
    decreases |s|
  {
    if |s| == 0 then 0
    else if p(s[0]) then 0
    else 1 + FirstWhere(s[1..], p)
  }

  /** `s` without its element at index `i` (Python `list.pop(i)`). */
  function RemoveAt<T>(s: seq<T>, i: nat): (r: seq<T>)
    requires i < |s|
    ensures |r| == |s| - 1
    ensures forall j :: 0 <= j < i ==> r[j] == s[j]
    ensures forall j :: i <= j < |r| ==> r[j] == s[j + 1]
  {
    s[..i] + s[i + 1..]
  }

  /** `i` is the earliest index whose key is minimal among the elements that
      have a key at all (elements whose key is `None` are not candidates). */
  ghost predicate IsFirstMin<T>(s: seq<T>, key: T -> Option<real>, i: int) {
    && 0 <= i < |s|
    && key(s[i]).Some?
    && (forall j :: 0 <= j < |s| && key(s[j]).Some? ==> key(s[i]).value <= key(s[j]).value)
    && (forall j :: 0 <= j < i && key(s[j]).Some? ==> key(s[i]).value < key(s[j]).value)
  }

  /** The left-to-right scan of the source's nearest-deed loops: a candidate
      replaces the current best only when its key is strictly smaller, so
      the earliest of equal keys is kept. `best` is the answer for `s[..i]`. */
  function ArgMinFrom<T>(s: seq<T>, key: T -> Option<real>, i: nat, best: Option<nat>): (r: Option<nat>)
    requires i <= |s|
    requires best.None? <==> forall j :: 0 <= j < i ==> key(s[j]).None?
    requires best.Some? ==> best.value < i && IsFirstMin(s[..i], key, best.value)
    ensures r.None? <==> forall j :: 0 <= j < |s| ==> key(s[j]).None?
    ensures r.Some? ==> IsFirstMin(s, key, r.value)
    decreases |s| - i
  {
    if i == |s| then
      assert s[..i] == s;
      best
    else
      assert s[..i + 1][..i] == s[..i];
      match key(s[i])
      case None => ArgMinFrom(s, key, i + 1, best)
      case Some(k) =>
        if best.None? || k < key(s[best.value]).value then ArgMinFrom(s, key, i + 1, Some(i))
        else ArgMinFrom(s, key, i + 1, best)
  }

  /** The first element with the smallest key, or `None` when no element
      has a key. */
  function FirstArgMin<T>(s: seq<T>, key: T -> Option<real>): (r: Option<nat>)
    ensures r.None? <==> forall j :: 0 <= j < |s| ==> key(s[j]).None?
    ensures r.Some? ==> IsFirstMin(s, key, r.value)
  {
    ArgMinFrom(s, key, 0, None)
  }

  /** There is only one first minimum. */
  lemma FirstMinUnique<T>(s: seq<T>, key: T -> Option<real>, i: int, j: int)
    requires IsFirstMin(s, key, i) && IsFirstMin(s, key, j)
    ensures i == j
  {
  }
}

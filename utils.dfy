/**
 * Jaccard index and distance, and the `minOf` scan that the clusterer uses
 * to pick a cluster.
 */
module Utils {
  import opened Common

  /** A Kotlin Double as the model needs it: an exact ratio or NaN. */
  datatype Num = Real(value: real) | NaN

  /**
   * Double.compareTo, the order the generic `minOf` compares with: numbers by
   * value, NaN above every number and equal to itself.
   */
  predicate Less(a: Num, b: Num) {
    match (a, b)
    case (Real(x), Real(y)) => x < y
    case (Real(_), NaN) => true
    case (NaN, _) => false
  }

  /** The primitive `<` of a Double against a number: false for NaN. */
  predicate Below(a: Num, bound: real) {
    a.Real? && a.value < bound
  }

  lemma {:induction false} LessIsStrictTotalOrder(a: Num, b: Num, c: Num)
    ensures !Less(a, a)
    ensures Less(a, b) ==> !Less(b, a)
    ensures Less(a, b) && Less(b, c) ==> Less(a, c)
    ensures a != b ==> Less(a, b) || Less(b, a)
  {
  }

  /** |A ∩ B| / |A ∪ B|; 0 / 0 is NaN when both sets are empty. */
  function JaccardIndex<X>(a: set<X>, b: set<X>): (r: Num)
    ensures r.NaN? <==> a == {} && b == {}
  {
    if |a + b| == 0 then NaN else Real(|a * b| as real / |a + b| as real)
  }

  /** 1 - JaccardIndex; NaN stays NaN. */
  function JaccardDistance<X>(a: set<X>, b: set<X>): (r: Num)
    ensures r.NaN? <==> a == {} && b == {}
  {
    match JaccardIndex(a, b)
    case Real(x) => Real(1.0 - x)
    case NaN => NaN
  }

  lemma {:induction false} SubsetCard<X>(a: set<X>, b: set<X>)
    requires a <= b
    ensures |a| <= |b|
    ensures |a| == |b| ==> a == b
  {
    if |a| == |b| {
      assert |b - a| == |b| - |a|;
      assert b - a == {};
      assert forall x :: x in b ==> x in a || x in b - a;
    }
  }

  /** The index is a ratio in [0, 1], and 1 exactly when the sets are equal. */
  lemma {:induction false} JaccardIndexRange<X>(a: set<X>, b: set<X>)
    requires a != {} || b != {}
    ensures JaccardIndex(a, b).Real?
    ensures 0.0 <= JaccardIndex(a, b).value <= 1.0
    ensures JaccardIndex(a, b).value == 1.0 <==> a == b
    ensures JaccardIndex(a, b).value == 0.0 <==> a * b == {}
  {
    SubsetCard(a * b, a + b);
    var i, u := |a * b|, |a + b|;
    assert u > 0;
    var r := i as real / u as real;
    assert JaccardIndex(a, b) == Real(r);
    assert r * u as real == i as real;
    assert r <= 1.0;
    if r == 1.0 {
      assert i == u;
      assert a * b == a + b;
      assert a == b by {
        forall x | x in a ensures x in b { assert x in a + b; }
        forall x | x in b ensures x in a { assert x in a + b; }
      }
    }
    if a == b {
      assert a * b == a + b;
    }
    if r == 0.0 {
      assert i == 0;
    }
    assert JaccardIndex(a, b).Real?;
    assert 0.0 <= JaccardIndex(a, b).value <= 1.0;
    assert JaccardIndex(a, b).value == 1.0 <==> a == b;
    assert JaccardIndex(a, b).value == 0.0 <==> a * b == {};
  }

  /** The distance lies in [0, 1]; 0 exactly for equal sets, 1 for disjoint ones. */
  lemma {:induction false} JaccardDistanceRange<X>(a: set<X>, b: set<X>)
    requires a != {} || b != {}
    ensures JaccardDistance(a, b).Real?
    ensures 0.0 <= JaccardDistance(a, b).value <= 1.0
    ensures JaccardDistance(a, b).value == 0.0 <==> a == b
    ensures JaccardDistance(a, b).value == 1.0 <==> a * b == {}
    ensures JaccardDistance(a, b).value + JaccardIndex(a, b).value == 1.0
  {
    JaccardIndexRange(a, b);
  }

  /** Both measures are symmetric. */
  lemma {:induction false} JaccardSymmetric<X>(a: set<X>, b: set<X>)
    ensures JaccardIndex(a, b) == JaccardIndex(b, a)
    ensures JaccardDistance(a, b) == JaccardDistance(b, a)
  {
    assert a * b == b * a;
    assert a + b == b + a;
  }

  /** The values the tests check. */
  lemma {:induction false} JaccardExamples()
    ensures JaccardIndex({1, 2, 3}, {1, 2, 3}) == Real(1.0)
    ensures JaccardIndex({1, 2, 3}, {4, 5, 6}) == Real(0.0)
    ensures JaccardIndex({1, 2, 3}, {2, 3, 4}) == Real(0.5)
    ensures JaccardIndex({4, 5, 6}, {2, 3, 4}) == Real(0.2)
    ensures JaccardDistance({4, 5, 6}, {2, 3, 4}) == Real(0.8)
  {
    assert {1, 2, 3} * {1, 2, 3} == {1, 2, 3} + {1, 2, 3} == {1, 2, 3};
    assert {1, 2, 3} * {4, 5, 6} == {};
    assert {1, 2, 3} + {4, 5, 6} == {1, 2, 3, 4, 5, 6};
    assert {1, 2, 3} * {2, 3, 4} == {2, 3};
    assert {1, 2, 3} + {2, 3, 4} == {1, 2, 3, 4};
    assert {4, 5, 6} * {2, 3, 4} == {4};
    assert {4, 5, 6} + {2, 3, 4} == {2, 3, 4, 5, 6};
    assert |{1, 2, 3}| == 3;
    assert |{2, 3}| == 2;
    assert |{1, 2, 3, 4}| == 4;
    assert |{2, 3, 4, 5, 6}| == 5;
    assert |{1, 2, 3, 4, 5, 6}| == 6;
    assert |{4}| == 1;
  }

  // ---------------------------------------------------------------------
  // minOf
  // ---------------------------------------------------------------------

  /**
   * k is the position `minOf` settles on: every earlier key is strictly below
   * keys[k] and no later key is strictly above it, so keys[k] is the first
   * occurrence of the LARGEST key.
   */
  ghost predicate IsFirstMax(keys: seq<Num>, k: int) {
    && 0 <= k < |keys|
    && (forall j :: 0 <= j < k ==> Less(keys[j], keys[k]))
    && (forall j :: k < j < |keys| ==> !Less(keys[k], keys[j]))
  }

  /** The position of the first largest key. */
  function FirstMaxIndex(keys: seq<Num>): (k: nat)
    requires |keys| > 0
    ensures k < |keys|
  {
    if |keys| == 1 then 0
    else
      var k := FirstMaxIndex(keys[..|keys| - 1]);
      if Less(keys[k], keys[|keys| - 1]) then |keys| - 1 else k
  }

  /** The scan settles on the first occurrence of the largest key. */
  lemma {:induction false} FirstMaxIndexIsFirstMax(keys: seq<Num>)
    requires |keys| > 0
    ensures IsFirstMax(keys, FirstMaxIndex(keys))
    decreases |keys|
  {
    if |keys| > 1 {
      var init := keys[..|keys| - 1];
      FirstMaxIndexIsFirstMax(init);
      var k := FirstMaxIndex(init);
      var x := keys[|keys| - 1];
      forall j | 0 <= j < |init| ensures init[j] == keys[j] {
      }
      if Less(keys[k], x) {
        forall j | 0 <= j < |keys| - 1 ensures Less(keys[j], x) {
          if j < k {
            LessIsStrictTotalOrder(keys[j], keys[k], x);
          } else if j > k {
            LessIsStrictTotalOrder(keys[k], keys[j], x);
            if !Less(keys[j], x) {
              LessIsStrictTotalOrder(keys[j], x, keys[j]);
              LessIsStrictTotalOrder(x, keys[j], keys[k]);
              LessIsStrictTotalOrder(keys[k], x, keys[j]);
            }
          }
        }
      }
    }
  }

  /** The characterisation determines the position. */
  lemma {:induction false} FirstMaxUnique(keys: seq<Num>, k1: int, k2: int)
    requires IsFirstMax(keys, k1) && IsFirstMax(keys, k2)
    ensures k1 == k2
  {
    var x1, x2 := keys[k1], keys[k2];
    assert k1 < k2 ==> Less(x1, x2);
    assert k1 < k2 ==> !Less(x1, x2);
    assert k2 < k1 ==> Less(x2, x1);
    assert k2 < k1 ==> !Less(x2, x1);
  }

  /** No key is strictly above the selected one. */
  lemma {:induction false} FirstMaxIsMaximum(keys: seq<Num>, j: int)
    requires |keys| > 0 && 0 <= j < |keys|
    ensures !Less(keys[FirstMaxIndex(keys)], keys[j])
  {
    var k := FirstMaxIndex(keys);
    FirstMaxIndexIsFirstMax(keys);
    if j < k {
      LessIsStrictTotalOrder(keys[j], keys[k], keys[j]);
    }
  }

  /**
   * The selected key is the minimum, as the name `minOf` promises, only when
   * every key is the same.
   */
  lemma {:induction false} MinOfIsMinimumOnlyWhenAllEqual(keys: seq<Num>)
    requires |keys| > 0
    ensures (forall j :: 0 <= j < |keys| ==> !Less(keys[j], keys[FirstMaxIndex(keys)]))
        <==> (forall i, j :: 0 <= i < |keys| && 0 <= j < |keys| ==> keys[i] == keys[j])
  {
    var k := FirstMaxIndex(keys);
    if forall j :: 0 <= j < |keys| ==> !Less(keys[j], keys[k]) {
      forall i | 0 <= i < |keys| ensures keys[i] == keys[k] {
        FirstMaxIsMaximum(keys, i);
        LessIsStrictTotalOrder(keys[i], keys[k], keys[i]);
      }
    }
  }

  /** The keys `selector` gives to `items`, in iteration order. */
  function Selected<T>(items: seq<T>, selector: T -> Num): (keys: seq<Num>)
    ensures |keys| == |items|
    ensures forall i :: 0 <= i < |items| ==> keys[i] == selector(items[i])
  {
    seq(|items|, i requires 0 <= i < |items| => selector(items[i]))
  }

  /**
   * `minOf`: scans `items` once and keeps a pair (element, key), replacing it
   * whenever the kept key is strictly below the new one. Returns None exactly
   * for an empty input, otherwise the first element with the largest key.
   */
  method MinOf<T>(items: seq<T>, selector: T -> Num) returns (min: Option<(T, Num)>)
    ensures min.None? <==> items == []
    ensures items != [] ==>
              var k := FirstMaxIndex(Selected(items, selector));
              min == Some((items[k], selector(items[k])))
  {
    min := None;
    ghost var keys := Selected(items, selector);
    for i := 0 to |items|
      invariant i == 0 <==> min.None?
      invariant i > 0 ==>
                  var k := FirstMaxIndex(keys[..i]);
                  min == Some((items[k], keys[k]))
    {
      var selected := selector(items[i]);
      assert keys[..i + 1][..i] == keys[..i];
      if min == None || Less(min.value.1, selected) {
        min := Some((items[i], selected));
      }
    }
    assert keys[..|items|] == keys;
  }

  /** The example the test checks: `minOf` returns the LONGEST string. */
  lemma {:induction false} MinOfTestExample()
    ensures FirstMaxIndex([Real(5.0), Real(3.0), Real(8.0)]) == 2
  {
    var keys := [Real(5.0), Real(3.0), Real(8.0)];
    assert IsFirstMax(keys, 2);
    FirstMaxIndexIsFirstMax(keys);
    FirstMaxUnique(keys, FirstMaxIndex(keys), 2);
  }
}

/** Real-number helpers shared by the PHP and the JavaScript pipelines:
    rounding, square roots and sums. Weights and scores are exact reals here;
    double-precision effects are not modelled. */
module Numeric {

  function Min(a: real, b: real): real { if a <= b then a else b }

  function Max(a: real, b: real): real { if a >= b then a else b }

  function Pow10(n: nat): (r: real)
    ensures r >= 1.0
  {
    if n == 0 then 1.0 else 10.0 * Pow10(n - 1)
  }

  /** The integer nearest to z, halves going up. */
  function HalfUp(z: real): (k: int)
    ensures z - 0.5 < k as real <= z + 0.5
  {
    (z + 0.5).Floor
  }

  /** Rounds x to a multiple of 1/p, halves going away from zero. */
  function RoundTo(x: real, p: real): (r: real)
    requires p > 0.0
  {
    if x >= 0.0 then HalfUp(x * p) as real / p
    else -(HalfUp((-x) * p) as real / p)
  }

  /** PHP round($x, $places). */
  function PhpRound(x: real, places: nat): real
  {
    RoundTo(x, Pow10(places))
  }

  /** round($x * 100, 1): a share as a percentage with one decimal. */
  function Percent(x: real): real
  {
    PhpRound(x * 100.0, 1)
  }

  /** JavaScript Math.round: nearest integer, halves towards +infinity. */
  function JsRound(x: real): (r: real)
    ensures x - 0.5 < r <= x + 0.5
  {
    HalfUp(x) as real
  }

  /** Math.round(x * 1000) / 10: a share as a percentage with one decimal,
      on the browser side. */
  function JsPercent(x: real): real
  {
    JsRound(x * 1000.0) / 10.0
  }

  lemma MulMono(x: real, y: real, p: real)
    requires x <= y && p > 0.0
    ensures x * p <= y * p
  {}

  lemma DivMono(x: real, y: real, p: real)
    requires x <= y && p > 0.0
    ensures x / p <= y / p
  {}

  lemma HalfUpMono(a: real, b: real)
    requires a <= b
    ensures HalfUp(a) <= HalfUp(b)
  {
    assert (a + 0.5).Floor as real <= a + 0.5 <= b + 0.5 < (b + 0.5).Floor as real + 1.0;
  }

  lemma RoundToNonNegativeMono(x: real, y: real, p: real)
    requires 0.0 <= x <= y && p > 0.0
    ensures 0.0 <= RoundTo(x, p) <= RoundTo(y, p)
  {
    var a, b := x * p, y * p;
    MulMono(0.0, x, p);
    MulMono(x, y, p);
    HalfUpMono(a, b);
    var ka, kb := HalfUp(a) as real, HalfUp(b) as real;
    DivMono(0.0, ka, p);
    DivMono(ka, kb, p);
    assert RoundTo(x, p) == ka / p;
    assert RoundTo(y, p) == kb / p;
  }

  lemma RoundToOdd(x: real, p: real)
    requires x > 0.0 && p > 0.0
    ensures RoundTo(-x, p) == -RoundTo(x, p)
  {}

  lemma RoundToMonotone(x: real, y: real, p: real)
    requires x <= y && p > 0.0
    ensures RoundTo(x, p) <= RoundTo(y, p)
  {
    if 0.0 <= x {
      RoundToNonNegativeMono(x, y, p);
    } else if y < 0.0 {
      RoundToNonNegativeMono(-y, -x, p);
      RoundToOdd(-y, p);
      RoundToOdd(-x, p);
    } else {
      RoundToNonNegativeMono(0.0, y, p);
      RoundToNonNegativeMono(0.0, -x, p);
      RoundToOdd(-x, p);
    }
  }

  /** PHP's round never reorders two values. */
  lemma PhpRoundMonotone(x: real, y: real, places: nat)
    requires x <= y
    ensures PhpRound(x, places) <= PhpRound(y, places)
  {
    RoundToMonotone(x, y, Pow10(places));
  }

  /** Rounding keeps zero. */
  lemma PhpRoundZero(places: nat)
    ensures PhpRound(0.0, places) == 0.0
  {
    assert HalfUp(0.0 * Pow10(places)) == 0;
  }

  lemma JsRoundMonotone(x: real, y: real)
    requires x <= y
    ensures JsRound(x) <= JsRound(y)
  {
    HalfUpMono(x, y);
  }

  /** A square-root function as the model uses it: on non-negative inputs it
      is non-negative, squares back to its input and is zero exactly at zero
      (the last conjunct follows from the others; stating it spares the
      solver nonlinear reasoning). */
  ghost predicate IsSqrt(sqrt: real -> real)
  {
    forall x: real {:trigger sqrt(x)} :: 0.0 <= x ==>
      0.0 <= sqrt(x) && sqrt(x) * sqrt(x) == x && (sqrt(x) == 0.0 <==> x == 0.0)
  }

  /** Left-to-right sum of a sequence. */
  function Sum(s: seq<real>): real
  {
    if s == [] then 0.0 else Sum(s[..|s| - 1]) + s[|s| - 1]
  }

  lemma {:induction false} SumBounds(s: seq<real>, lo: real, hi: real)
    requires forall i :: 0 <= i < |s| ==> lo <= s[i] <= hi
    ensures |s| as real * lo <= Sum(s) <= |s| as real * hi
  {
    if s != [] {
      SumBounds(s[..|s| - 1], lo, hi);
    }
  }

  lemma {:induction false} SumUpdate(s: seq<real>, i: int, w: real)
    requires 0 <= i < |s|
    ensures Sum(s[i := s[i] + w]) == Sum(s) + w
  {
    var n := |s|;
    if i < n - 1 {
      assert s[i := s[i] + w][..n - 1] == s[..n - 1][i := s[i] + w];
      SumUpdate(s[..n - 1], i, w);
    } else {
      assert s[i := s[i] + w][..n - 1] == s[..n - 1];
    }
  }

  /** Sum of the values of a map, in no particular order. */
  ghost function SumMap<K>(m: map<K, real>): real
    decreases |m|
  {
    if m == map[] then 0.0 else var k :| k in m; m[k] + SumMap(m - {k})
  }

  lemma {:induction false} SumMapRemove<K>(m: map<K, real>, k: K)
    requires k in m
    ensures SumMap(m) == m[k] + SumMap(m - {k})
    decreases |m|
  {
    var j :| j in m && SumMap(m) == m[j] + SumMap(m - {j});
    if j != k {
      SumMapRemove(m - {j}, k);
      SumMapRemove(m - {k}, j);
      assert m - {j} - {k} == m - {k} - {j};
    }
  }

  lemma SumMapAdd<K>(m: map<K, real>, k: K, v: real)
    requires k !in m
    ensures SumMap(m[k := v]) == SumMap(m) + v
  {
    SumMapRemove(m[k := v], k);
    assert m[k := v] - {k} == m;
  }

  lemma {:induction false} SumMapNonNegative<K>(m: map<K, real>)
    requires forall k :: k in m ==> m[k] >= 0.0
    ensures SumMap(m) >= 0.0
    decreases |m|
  {
    if m != map[] {
      var k :| k in m;
      SumMapRemove(m, k);
      SumMapNonNegative(m - {k});
    }
  }

  lemma {:induction false} SumMapZero<K>(m: map<K, real>)
    requires forall k :: k in m ==> m[k] == 0.0
    ensures SumMap(m) == 0.0
    decreases |m|
  {
    if m != map[] {
      var k :| k in m;
      SumMapRemove(m, k);
      SumMapZero(m - {k});
    }
  }
}

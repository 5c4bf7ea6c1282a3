/** Term-frequency vectors and their cosine similarity (ca_build_tf_vector
    and ca_cosine_similarity). A vector is a PHP array from term to weight;
    a term that is absent has weight 0. */
module TermVectors {
  import opened Numeric
  import opened Collections
  import opened Tokenizer

  type Vector = map<string, real>

  /** $v[$t] ?? 0.0 */
  function Weight(v: Vector, t: string): real
  {
    if t in v then v[t] else 0.0
  }

  // ------------------------------------------------------------ TF vectors

  /** The rescaling step: each count divided by the total when the total is
      positive, the counts unchanged otherwise. */
  function Normalize(counts: map<string, nat>, total: nat): (v: Vector)
    ensures v.Keys == counts.Keys
    ensures forall t :: t in v ==> v[t] == Share(counts[t], total)
  {
    map t | t in counts :: Share(counts[t], total)
  }

  function Share(count: nat, total: nat): real
  {
    if total > 0 then count as real / total as real else count as real
  }

  /** `if($total>0)foreach($tf as $t=>$c)$tf[$t]=$c/$total;` */
  method Rescale(counts: map<string, nat>, total: nat) returns (v: Vector)
    ensures v == Normalize(counts, total)
  {
    v := map t | t in counts :: counts[t] as real;
    if total > 0 {
      var rest := counts.Keys;
      while rest != {}
        invariant rest <= counts.Keys && v.Keys == counts.Keys
        invariant forall t :: t in counts ==>
          v[t] == if t in rest then counts[t] as real else Share(counts[t], total)
        decreases |rest|
      {
        var t :| t in rest;
        v := v[t := counts[t] as real / total as real];
        rest := rest - {t};
      }
    }
  }

  /** The TF vector of a text: each token weighted by its share of all
      tokens. */
  function TfVector(text: string, stop: seq<string>): Vector
  {
    var toks := Tokenize(text, stop);
    Normalize(Counts(toks), |toks|)
  }

  /** ca_build_tf_vector. */
  method BuildTfVector(text: string, stop: seq<string>) returns (tf: Vector)
    ensures tf == TfVector(text, stop)
  {
    var counts, total := CountTokens(Pieces(Lower(text)), stop);
    tf := Rescale(counts, total);
  }

  lemma {:induction false} CountsAtMostLength(ts: seq<string>)
    ensures forall k :: k in Counts(ts) ==> Counts(ts)[k] <= |ts|
  {
    if ts != [] {
      CountsAtMostLength(ts[..|ts| - 1]);
    }
  }

  /** The TF vector is empty exactly when no token survives the filter;
      otherwise its keys are the tokens, each weighted by its count over the
      number of tokens. */
  lemma TfVectorSpec(text: string, stop: seq<string>)
    ensures TfVector(text, stop) == map[] <==> Tokenize(text, stop) == []
    ensures forall t :: t in TfVector(text, stop) <==> t in Tokenize(text, stop)
    ensures forall t :: t in TfVector(text, stop) ==>
      TfVector(text, stop)[t] == multiset(Tokenize(text, stop))[t] as real / |Tokenize(text, stop)| as real
  {
    var toks := Tokenize(text, stop);
    CountsSpec(toks);
    if toks != [] {
      assert toks[0] in TfVector(text, stop);
    }
  }

  /** Every TF weight lies in (0, 1]. */
  lemma TfWeightRange(text: string, stop: seq<string>)
    ensures forall t :: t in TfVector(text, stop) ==> 0.0 < TfVector(text, stop)[t] <= 1.0
  {
    var toks := Tokenize(text, stop);
    CountsSpec(toks);
    CountsAtMostLength(toks);
    forall t | t in TfVector(text, stop) ensures 0.0 < TfVector(text, stop)[t] <= 1.0 {
      ShareRange(Counts(toks)[t], |toks|);
    }
  }

  lemma ShareRange(c: nat, n: nat)
    requires 0 < c <= n
    ensures 0.0 < Share(c, n) <= 1.0
  {
    var x, y := c as real, n as real;
    DivMono(x, y, y);
    DivSelf1(y);
  }

  /** Shares are never negative. */
  lemma NormalizeNonNegative(counts: map<string, nat>, total: nat)
    ensures NonNegative(Normalize(counts, total))
  {
    forall t | t in counts ensures Share(counts[t], total) >= 0.0 {
      if total > 0 {
        DivMono(0.0, counts[t] as real, total as real);
      }
    }
  }

  /** Shares of all tokens sum to the number of tokens over the total. */
  lemma {:induction false} SumOfShares(ts: seq<string>, total: nat)
    requires total > 0
    ensures SumMap(Normalize(Counts(ts), total)) == |ts| as real / total as real
  {
    var n := total as real;
    if ts != [] {
      var prefix, k := ts[..|ts| - 1], ts[|ts| - 1];
      SumOfShares(prefix, total);
      var before, after := Normalize(Counts(prefix), total), Normalize(Counts(ts), total);
      if k in Counts(prefix) {
        SumMapRemove(before, k);
        SumMapRemove(after, k);
        assert after - {k} == before - {k};
        AddShare(Counts(prefix)[k], n);
      } else {
        assert after == before[k := 1.0 / n];
        SumMapAdd(before, k, 1.0 / n);
      }
      AddShare(|prefix|, n);
    }
  }

  lemma AddShare(c: nat, n: real)
    requires n > 0.0
    ensures (c + 1) as real / n == c as real / n + 1.0 / n
  {}

  /** A non-empty TF vector is a distribution: its weights sum to 1. */
  lemma TfVectorSumsToOne(text: string, stop: seq<string>)
    requires Tokenize(text, stop) != []
    ensures SumMap(TfVector(text, stop)) == 1.0
  {
    var toks := Tokenize(text, stop);
    SumOfShares(toks, |toks|);
    DivSelf1(|toks| as real);
  }

  // ---------------------------------------------------------------- cosine

  function Prod(va: Vector, vb: Vector, t: string): real
  {
    Weight(va, t) * Weight(vb, t)
  }

  /** The products of the two weights of each of the given terms. */
  function Products(va: Vector, vb: Vector, terms: set<string>): (m: map<string, real>)
    ensures m.Keys == terms
    ensures forall t :: t in m ==> m[t] == Prod(va, vb, t)
  {
    map t | t in terms :: Prod(va, vb, t)
  }

  /** Sum over the given terms of the products of the two weights. */
  ghost function DotOver(va: Vector, vb: Vector, terms: set<string>): real
  {
    SumMap(Products(va, vb, terms))
  }

  /** ca_cosine_similarity: the dot product over the union of the keys,
      divided by the product of the magnitudes and rounded to 4 places;
      0.0 when either magnitude is 0. */
  ghost function Cosine(va: Vector, vb: Vector, sqrt: real -> real): real
  {
    var terms := va.Keys + vb.Keys;
    Ratio(DotOver(va, vb, terms), sqrt(DotOver(va, va, terms)), sqrt(DotOver(vb, vb, terms)))
  }

  /** The final step of ca_cosine_similarity, from the dot product and the
      two magnitudes. */
  function Ratio(dot: real, ma: real, mb: real): real
  {
    if ma == 0.0 || mb == 0.0 then 0.0 else PhpRound(dot / (ma * mb), 4)
  }

  lemma DotOverAdd(va: Vector, vb: Vector, terms: set<string>, t: string)
    requires t !in terms
    ensures DotOver(va, vb, terms + {t}) == DotOver(va, vb, terms) + Prod(va, vb, t)
  {
    var m := Products(va, vb, terms);
    assert Products(va, vb, terms + {t}) == m[t := Prod(va, vb, t)];
    SumMapAdd(m, t, Prod(va, vb, t));
  }

  /** ca_cosine_similarity: the three sums over the union of the keys, then
      the rounded ratio of the dot product to the product of the magnitudes. */
  method CosineSimilarity(va: Vector, vb: Vector, sqrt: real -> real) returns (r: real)
    ensures r == Cosine(va, vb, sqrt)
  {
    var dot, ma, mb := SumProducts(va, vb, va.Keys + vb.Keys);
    CosineOfSums(va, vb, sqrt, dot, ma, mb);
    ma, mb := sqrt(ma), sqrt(mb);
    r := Ratio(dot, ma, mb);
  }

  /** The accumulating loop of ca_cosine_similarity: the dot product and the
      two squared magnitudes over the given terms. */
  method SumProducts(va: Vector, vb: Vector, terms: set<string>) returns (dot: real, ma: real, mb: real)
    ensures Accumulated(va, vb, terms, dot, ma, mb)
  {
    dot, ma, mb := 0.0, 0.0, 0.0;
    var rest := terms;
    ghost var done: set<string> := {};
    AccumulatedNothing(va, vb);
    while rest != {}
      invariant rest <= terms && done == terms - rest
      invariant Accumulated(va, vb, done, dot, ma, mb)
      decreases |rest|
    {
      var t :| t in rest;
      var a := Weight(va, t);
      var b := Weight(vb, t);
      ghost var dot0, ma0, mb0 := dot, ma, mb;
      dot, ma, mb := dot + a * b, ma + a * a, mb + b * b;
      AccumulateStep(va, vb, done, t, a, b, dot0, ma0, mb0, dot, ma, mb);
      rest, done := rest - {t}, done + {t};
    }
    assert done == terms;
  }

  /** The three running sums of the loop, over the terms seen so far. */
  ghost predicate Accumulated(va: Vector, vb: Vector, done: set<string>, dot: real, ma: real, mb: real)
  {
    dot == DotOver(va, vb, done) && ma == DotOver(va, va, done) && mb == DotOver(vb, vb, done)
  }

  lemma AccumulatedNothing(va: Vector, vb: Vector)
    ensures Accumulated(va, vb, {}, 0.0, 0.0, 0.0)
  {
    assert Products(va, vb, {}) == map[];
    assert Products(va, va, {}) == map[];
    assert Products(vb, vb, {}) == map[];
  }

  /** One step of the accumulator loop: the three sums over one more term. */
  lemma AccumulateStep(va: Vector, vb: Vector, done: set<string>, t: string, a: real, b: real,
                       dot: real, ma: real, mb: real, dot': real, ma': real, mb': real)
    requires t !in done && a == Weight(va, t) && b == Weight(vb, t)
    requires Accumulated(va, vb, done, dot, ma, mb)
    requires dot' == dot + a * b && ma' == ma + a * a && mb' == mb + b * b
    ensures Accumulated(va, vb, done + {t}, dot', ma', mb')
  {
    assert DotOver(va, vb, done + {t}) == DotOver(va, vb, done) + a * b by {
      ProductIs(va, vb, t, a, b, a * b);
      DotOverAdd(va, vb, done, t);
    }
    assert DotOver(va, va, done + {t}) == DotOver(va, va, done) + a * a by {
      ProductIs(va, va, t, a, a, a * a);
      DotOverAdd(va, va, done, t);
    }
    assert DotOver(vb, vb, done + {t}) == DotOver(vb, vb, done) + b * b by {
      ProductIs(vb, vb, t, b, b, b * b);
      DotOverAdd(vb, vb, done, t);
    }
  }

  lemma CosineOfSums(va: Vector, vb: Vector, sqrt: real -> real, dot: real, ma: real, mb: real)
    requires Accumulated(va, vb, va.Keys + vb.Keys, dot, ma, mb)
    ensures Cosine(va, vb, sqrt) == Ratio(dot, sqrt(ma), sqrt(mb))
  {}

  lemma ProductIs(va: Vector, vb: Vector, t: string, a: real, b: real, x: real)
    requires a == Weight(va, t) && b == Weight(vb, t) && x == a * b
    ensures x == Prod(va, vb, t)
  {}

  /** The similarity does not depend on the order of its arguments. */
  lemma CosineSymmetric(va: Vector, vb: Vector, sqrt: real -> real)
    ensures Cosine(va, vb, sqrt) == Cosine(vb, va, sqrt)
  {
    var terms, terms' := va.Keys + vb.Keys, vb.Keys + va.Keys;
    assert terms' == terms;
    assert Products(va, vb, terms) == Products(vb, va, terms);
    var d := DotOver(va, vb, terms);
    var ma, mb := sqrt(DotOver(va, va, terms)), sqrt(DotOver(vb, vb, terms));
    assert Cosine(va, vb, sqrt) == Ratio(d, ma, mb);
    assert Cosine(vb, va, sqrt) == Ratio(d, mb, ma);
    assert ma * mb == mb * ma;
  }

  /** A vector whose weights are all zero (in particular an empty one) has
      magnitude 0, so its similarity with anything is 0. */
  lemma CosineZeroVector(va: Vector, vb: Vector, sqrt: real -> real)
    requires IsSqrt(sqrt)
    requires forall t :: t in va ==> va[t] == 0.0
    ensures Cosine(va, vb, sqrt) == 0.0
    ensures Cosine(vb, va, sqrt) == 0.0
  {
    var terms := va.Keys + vb.Keys;
    SumMapZero(Products(va, va, terms));
    assert sqrt(0.0) == 0.0;
    CosineSymmetric(va, vb, sqrt);
  }

  /** Two pairs of vectors whose products agree on every term have the same
      dot product over those terms. */
  lemma SameProducts(va: Vector, vb: Vector, va': Vector, vb': Vector, terms: set<string>)
    requires forall t :: t in terms ==> Prod(va, vb, t) == Prod(va', vb', t)
    ensures DotOver(va, vb, terms) == DotOver(va', vb', terms)
  {
    var m, m' := Products(va, vb, terms), Products(va', vb', terms);
    assert forall t :: t in m ==> m[t] == m'[t];
    assert m == m';
  }

  /** A term whose product is zero adds nothing to the dot product. */
  lemma DotOverZeroTerm(va: Vector, vb: Vector, terms: set<string>, k: string)
    requires Prod(va, vb, k) == 0.0
    ensures DotOver(va, vb, terms + {k}) == DotOver(va, vb, terms)
  {
    if k !in terms {
      DotOverAdd(va, vb, terms, k);
    } else {
      assert terms + {k} == terms;
    }
  }

  /** An explicit zero weight is the same as an absent key. */
  lemma CosineAbsentIsZero(va: Vector, vb: Vector, k: string, sqrt: real -> real)
    requires k !in va
    ensures Cosine(va[k := 0.0], vb, sqrt) == Cosine(va, vb, sqrt)
  {
    var va' := va[k := 0.0];
    var terms := va.Keys + vb.Keys;
    assert va'.Keys + vb.Keys == terms + {k};
    forall t | t in terms + {k}
      ensures Prod(va', vb, t) == Prod(va, vb, t) && Prod(va', va', t) == Prod(va, va, t)
    {
      assert Weight(va', t) == Weight(va, t);
    }
    SameProducts(va', vb, va, vb, terms + {k});
    SameProducts(va', va', va, va, terms + {k});
    assert Prod(va, vb, k) == 0.0 && Prod(va, va, k) == 0.0;
    DotOverZeroTerm(va, vb, terms, k);
    DotOverZeroTerm(va, va, terms, k);
    if k !in vb {
      DotOverZeroTerm(vb, vb, terms, k);
    } else {
      assert terms + {k} == terms;
    }
  }

  predicate NonNegative(v: Vector)
  {
    forall t :: t in v ==> v[t] >= 0.0
  }

  /** With non-negative weights the similarity is never negative. */
  lemma CosineNonNegative(va: Vector, vb: Vector, sqrt: real -> real)
    requires IsSqrt(sqrt) && NonNegative(va) && NonNegative(vb)
    ensures Cosine(va, vb, sqrt) >= 0.0
  {
    var terms := va.Keys + vb.Keys;
    var m := Products(va, vb, terms);
    forall t | t in m ensures m[t] >= 0.0 {
      ProductNonNegative(Weight(va, t), Weight(vb, t), m[t]);
    }
    SumMapNonNegative(m);
    SquaresNonNegative(va, terms);
    SquaresNonNegative(vb, terms);
    RatioNonNegative(DotOver(va, vb, terms), sqrt(DotOver(va, va, terms)), sqrt(DotOver(vb, vb, terms)));
  }

  lemma RatioNonNegative(dot: real, ma: real, mb: real)
    requires dot >= 0.0 && ma >= 0.0 && mb >= 0.0
    ensures Ratio(dot, ma, mb) >= 0.0
  {
    if ma != 0.0 && mb != 0.0 {
      ProductPositive(ma, mb, ma * mb);
      DivMono(0.0, dot, ma * mb);
      PhpRoundMonotone(0.0, dot / (ma * mb), 4);
      assert PhpRound(0.0, 4) == 0.0;
    }
  }

  lemma SquaresNonNegative(v: Vector, terms: set<string>)
    ensures DotOver(v, v, terms) >= 0.0
  {
    var m := Products(v, v, terms);
    forall t | t in m ensures m[t] >= 0.0 {
      SquareNonNegative(Weight(v, t), m[t]);
    }
    SumMapNonNegative(m);
  }

  /** A vector with a non-zero weight is fully similar to itself. */
  lemma CosineSelf(v: Vector, sqrt: real -> real)
    requires IsSqrt(sqrt)
    requires exists t :: t in v && v[t] != 0.0
    ensures Cosine(v, v, sqrt) == 1.0
  {
    var d := DotOver(v, v, v.Keys + v.Keys);
    var t :| t in v && v[t] != 0.0;
    SelfDotPositive(v, t);
    RatioSelf(d, sqrt(d));
  }

  /** A non-zero weight makes the squared magnitude positive. */
  lemma SelfDotPositive(v: Vector, t: string)
    requires t in v && v[t] != 0.0
    ensures DotOver(v, v, v.Keys + v.Keys) > 0.0
  {
    var terms := v.Keys + v.Keys;
    var sq := Products(v, v, terms);
    SumMapRemove(sq, t);
    SquaresNonNegative(v, terms - {t});
    assert Products(v, v, terms - {t}) == sq - {t};
    SquarePositive(Weight(v, t), sq[t]);
  }

  lemma RatioSelf(d: real, m: real)
    requires m > 0.0 && m * m == d
    ensures Ratio(d, m, m) == 1.0
  {
    var x := d / (m * m);
    DivSquare(d, m, x);
    assert PhpRound(x, 4) == 1.0;
  }

  // Products and quotients, each stated with the product as a parameter:
  // the solver handles a square best when it meets it through an equation.

  lemma ProductPositive(a: real, b: real, x: real)
    requires a > 0.0 && b > 0.0 && x == a * b
    ensures x > 0.0
  {}

  lemma ProductOfNegatives(a: real, b: real, x: real)
    requires a < 0.0 && b < 0.0 && x == a * b
    ensures x > 0.0
  {}

  lemma ProductNonNegative(a: real, b: real, x: real)
    requires a >= 0.0 && b >= 0.0 && x == a * b
    ensures x >= 0.0
  {}

  lemma SquarePositive(a: real, x: real)
    requires a != 0.0 && x == a * a
    ensures x > 0.0
  {
    if a > 0.0 {
      ProductPositive(a, a, x);
    } else {
      ProductOfNegatives(a, a, x);
    }
  }

  lemma SquareNonNegative(a: real, x: real)
    requires x == a * a
    ensures x >= 0.0
  {
    if a != 0.0 {
      SquarePositive(a, x);
    }
  }

  lemma DivSelf(d: real, y: real, x: real)
    requires d > 0.0 && y == d && x == d / y
    ensures x == 1.0
  {
    DivSelf1(d);
  }

  lemma DivSquare(d: real, m: real, x: real)
    requires m > 0.0 && m * m == d && x == d / (m * m)
    ensures x == 1.0
  {
    ProductPositive(m, m, d);
    DivSelf(d, m * m, x);
  }

  lemma DivSelf1(n: real)
    requires n > 0.0
    ensures n / n == 1.0
  {}
}

/** The browser's feature-hashing vectors: caVectorize adds a weight for
    every word, every pair of neighbouring words and every four-unit window
    of a text to the slot its hash picks, and caCos compares two such
    vectors. */
module HashVectors {
  import opened Numeric
  import opened Collections
  import opened JsText
  import opened JsHash
  import TermVectors

  /** The dimension both reports use, and the default for a dimension of 0. */
  const DefaultDim: nat := 1024

  const WordWeight: real := 1.0
  const PairWeight: real := 0.35
  const GramWeight: real := 0.08

  const WordTag: seq<Unit> := [0x77, 0x3A]   // "w:"
  const PairTag: seq<Unit> := [0x62, 0x3A]   // "b:"
  const GramTag: seq<Unit> := [0x63, 0x3A]   // "c:"

  /** One hashed feature: the string whose hash picks the slot, and the
      weight added there. */
  datatype Feature = Feature(key: seq<Unit>, weight: real)

  /** dim || 1024. */
  function Dim(dim: nat): (d: nat)
    ensures d > 0
  {
    if dim == 0 then DefaultDim else dim
  }

  /** 'w:' + w, 'b:' + (w + ' ' + next) and 'c:' + g. */
  function WordKey(w: seq<Unit>): seq<Unit> { WordTag + w }

  function PairKey(w: seq<Unit>, next: seq<Unit>): seq<Unit> { PairTag + (w + [Space] + next) }

  function GramKey(g: seq<Unit>): seq<Unit> { GramTag + g }

  /** The features of token i: the word, and the pair with the next token
      when there is one. */
  function TokenFeature(toks: seq<seq<Unit>>, i: nat): seq<Feature>
    requires i < |toks|
  {
    [Feature(WordKey(toks[i]), WordWeight)]
    + (if i < |toks| - 1 then [Feature(PairKey(toks[i], toks[i + 1]), PairWeight)] else [])
  }

  /** The features of the first n tokens, in order. */
  function TokenFeatures(toks: seq<seq<Unit>>, n: nat): seq<Feature>
    requires n <= |toks|
  {
    if n == 0 then [] else TokenFeatures(toks, n - 1) + TokenFeature(toks, n - 1)
  }

  /** text.replace(/\s+/g, ' '): every run of white space becomes one
      space. */
  function Collapse(s: seq<Unit>): (r: seq<Unit>)
    ensures forall i :: 0 <= i < |r| ==> !IsJsSpace(r[i]) || r[i] == Space
  {
    if s == [] then []
    else
      var p, u := Collapse(s[..|s| - 1]), s[|s| - 1];
      if !IsJsSpace(u) then p + [u]
      else if p != [] && p[|p| - 1] == Space && IsJsSpace(s[|s| - 2]) then p
      else p + [Space]
  }

  predicate NotJsSpace(u: Unit) { !IsJsSpace(u) }

  /** r is s with its white space collapsed: the runs of non-white-space
      units are those of s; every white-space unit left is a Space and no
      two of them are adjacent, so each white-space run of s became exactly
      one Space; and r starts and ends with white space exactly when s does.
      Together these determine r. */
  predicate Collapsed(s: seq<Unit>, r: seq<Unit>)
  {
    && Runs(r, NotJsSpace) == Runs(s, NotJsSpace)
    && (forall i :: 0 <= i < |r| ==> !IsJsSpace(r[i]) || r[i] == Space)
    && (forall i :: 0 <= i < |r| - 1 ==> IsJsSpace(r[i]) ==> !IsJsSpace(r[i + 1]))
    && (r == [] <==> s == [])
    && (s != [] ==> (IsJsSpace(r[0]) <==> IsJsSpace(s[0])))
    && (s != [] ==> (IsJsSpace(r[|r| - 1]) <==> IsJsSpace(s[|s| - 1])))
  }

  /** The replacement keeps the words and turns each white-space run into
      one space. */
  lemma {:induction false} CollapseSpec(s: seq<Unit>)
    ensures Collapsed(s, Collapse(s))
  {
    if s != [] {
      var p, u := s[..|s| - 1], s[|s| - 1];
      assert s == p + [u];
      CollapseSpec(p);
      var r0 := Collapse(p);
      if !IsJsSpace(u) {
        assert Collapse(s) == r0 + [u];
        CollapseWord(p, r0, u);
      } else if r0 != [] && r0[|r0| - 1] == Space && IsJsSpace(p[|p| - 1]) {
        assert Collapse(s) == r0;
        CollapseMerge(p, r0, u);
      } else {
        assert Collapse(s) == r0 + [Space];
        CollapseSpace(p, r0, u);
      }
    }
  }

  /** A non-white-space unit is appended to both. */
  lemma CollapseWord(p: seq<Unit>, r: seq<Unit>, u: Unit)
    requires Collapsed(p, r) && !IsJsSpace(u)
    ensures Collapsed(p + [u], r + [u])
  {
    var s, t := p + [u], r + [u];
    assert (r != [] && NotJsSpace(r[|r| - 1])) == (p != [] && NotJsSpace(p[|p| - 1]));
    RunsSnocBoth(p, r, u, NotJsSpace);
    assert forall i :: 0 <= i < |t| ==> !IsJsSpace(t[i]) || t[i] == Space by {
      assert forall i :: 0 <= i < |r| ==> t[i] == r[i];
    }
    assert forall i :: 0 <= i < |t| - 1 ==> IsJsSpace(t[i]) ==> !IsJsSpace(t[i + 1]) by {
      forall i | 0 <= i < |t| - 1 && IsJsSpace(t[i]) ensures !IsJsSpace(t[i + 1]) {
        assert t[i] == r[i];
        if i < |r| - 1 {
          assert t[i + 1] == r[i + 1];
        }
      }
    }
    assert s[0] == if p == [] then u else p[0];
    assert t[0] == if r == [] then u else r[0];
  }

  /** White space after white space adds nothing. */
  lemma CollapseMerge(p: seq<Unit>, r: seq<Unit>, u: Unit)
    requires Collapsed(p, r) && IsJsSpace(u) && p != [] && IsJsSpace(p[|p| - 1])
    ensures Collapsed(p + [u], r)
  {
    RunsSnoc(p, u, NotJsSpace);
    assert (p + [u])[0] == p[0];
  }

  /** White space after a word, or at the start, becomes one Space. */
  lemma CollapseSpace(p: seq<Unit>, r: seq<Unit>, u: Unit)
    requires Collapsed(p, r) && IsJsSpace(u)
    requires r == [] || r[|r| - 1] != Space
    ensures Collapsed(p + [u], r + [Space])
  {
    var s, t := p + [u], r + [Space];
    RunsSnoc(p, u, NotJsSpace);
    RunsSnoc(r, Space, NotJsSpace);
    assert Runs(t, NotJsSpace) == Runs(s, NotJsSpace);
    assert forall i :: 0 <= i < |t| ==> !IsJsSpace(t[i]) || t[i] == Space by {
      assert forall i :: 0 <= i < |r| ==> t[i] == r[i];
    }
    assert forall i :: 0 <= i < |t| - 1 ==> IsJsSpace(t[i]) ==> !IsJsSpace(t[i + 1]) by {
      forall i | 0 <= i < |t| - 1 && IsJsSpace(t[i]) ensures !IsJsSpace(t[i + 1]) {
        assert t[i] == r[i];
        if i < |r| - 1 {
          assert t[i + 1] == r[i + 1];
        }
      }
    }
    assert s[0] == if p == [] then u else p[0];
    assert t[0] == if r == [] then Space else r[0];
  }

  /** The number of four-unit windows: j runs while j < s.length - 3. */
  function Windows(s: seq<Unit>): nat
  {
    if |s| > 3 then |s| - 3 else 0
  }

  /** g.trim().length < 4 fails exactly when neither end of g is white
      space: trim shortens a string only at white-space ends. */
  predicate GramKept(g: seq<Unit>)
  {
    |g| == 4 && !IsJsSpace(g[0]) && !IsJsSpace(g[3])
  }

  /** The features of the first n windows of s. */
  function GramFeatures(s: seq<Unit>, n: nat): seq<Feature>
    requires n <= Windows(s)
  {
    if n == 0 then []
    else
      var g := s[n - 1..n + 3];
      GramFeatures(s, n - 1) + (if GramKept(g) then [Feature(GramKey(g), GramWeight)] else [])
  }

  /** The number of kept windows among the first n. */
  function KeptGrams(s: seq<Unit>, n: nat): nat
    requires n <= Windows(s)
  {
    if n == 0 then 0 else KeptGrams(s, n - 1) + (if GramKept(s[n - 1..n + 3]) then 1 else 0)
  }

  /** Every feature of a lowercased text, in the order caVectorize adds
      them. */
  function Features(t: seq<Unit>): seq<Feature>
  {
    var toks := JsTok(t);
    var s := Collapse(t);
    TokenFeatures(toks, |toks|) + GramFeatures(s, Windows(s))
  }

  /** The slot a key lands in. */
  function Slot(key: seq<Unit>, d: nat): (k: nat)
    requires d > 0
    ensures k < d
  {
    Fnv1a(key) % d
  }

  /** v with the feature's weight added to its slot. */
  function Add(v: seq<real>, f: Feature): (r: seq<real>)
    requires |v| > 0
    ensures |r| == |v|
  {
    var k := Slot(f.key, |v|);
    v[k := v[k] + f.weight]
  }

  /** The features added one after the other. */
  function Accumulate(v: seq<real>, fs: seq<Feature>): (r: seq<real>)
    requires |v| > 0
    ensures |r| == |v|
  {
    if fs == [] then v else Add(Accumulate(v, fs[..|fs| - 1]), fs[|fs| - 1])
  }

  function Zeros(d: nat): (z: seq<real>)
    ensures |z| == d && forall i :: 0 <= i < d ==> z[i] == 0.0
  {
    seq(d, _ => 0.0)
  }

  /** The vector caVectorize returns for text and dim. */
  function HashVector(text: seq<Unit>, dim: nat): (v: seq<real>)
    ensures |v| == Dim(dim)
  {
    Accumulate(Zeros(Dim(dim)), Features(LowerUnits(text)))
  }

  /** caVectorize: a zeroed array filled in place, word and pair features
      first, then the windows. */
  method Vectorize(text: seq<Unit>, dim: nat) returns (v: array<real>)
    ensures fresh(v)
    ensures v[..] == HashVector(text, dim)
  {
    var d := if dim == 0 then DefaultDim else dim;
    v := new real[d];
    for i := 0 to d
      invariant forall k :: 0 <= k < i ==> v[k] == 0.0
    {
      v[i] := 0.0;
    }
    assert v[..] == Zeros(d);
    var t := LowerUnits(text);
    var toks := JsTok(t);
    for i := 0 to |toks|
      invariant v[..] == Accumulate(Zeros(d), TokenFeatures(toks, i))
    {
      AddTokenFeatures(v, toks, i);
    }
    var s := Collapse(t);
    ghost var afterTokens := v[..];
    for j := 0 to Windows(s)
      invariant v[..] == Accumulate(afterTokens, GramFeatures(s, j))
    {
      AddGramFeature(v, s, j, afterTokens);
    }
    AccumulateConcat(Zeros(d), TokenFeatures(toks, |toks|), GramFeatures(s, Windows(s)));
  }

  /** The body of the token loop: the word feature, then the pair feature. */
  method AddTokenFeatures(v: array<real>, toks: seq<seq<Unit>>, i: nat)
    requires i < |toks| && v.Length > 0
    requires v[..] == Accumulate(Zeros(v.Length), TokenFeatures(toks, i))
    modifies v
    ensures v[..] == Accumulate(Zeros(v.Length), TokenFeatures(toks, i + 1))
  {
    ghost var before := TokenFeatures(toks, i);
    var w := toks[i];
    var word := Feature(WordKey(w), WordWeight);
    Place(v, word);
    AccumulateSnoc(Zeros(v.Length), before, word);
    if i < |toks| - 1 {
      var pair := Feature(PairKey(w, toks[i + 1]), PairWeight);
      Place(v, pair);
      AccumulateSnoc(Zeros(v.Length), before + [word], pair);
      TokenStep(toks, i);
    } else {
      TokenStep(toks, i);
    }
  }

  /** The features of one more token. */
  lemma TokenStep(toks: seq<seq<Unit>>, i: nat)
    requires i < |toks|
    ensures var word := Feature(WordKey(toks[i]), WordWeight);
      TokenFeatures(toks, i + 1) ==
        if i < |toks| - 1 then TokenFeatures(toks, i) + [word] + [Feature(PairKey(toks[i], toks[i + 1]), PairWeight)]
        else TokenFeatures(toks, i) + [word]
  {}

  /** The body of the window loop: window j, when kept. */
  method AddGramFeature(v: array<real>, s: seq<Unit>, j: nat, ghost base: seq<real>)
    requires j < Windows(s) && |base| > 0 && v.Length == |base|
    requires v[..] == Accumulate(base, GramFeatures(s, j))
    modifies v
    ensures v[..] == Accumulate(base, GramFeatures(s, j + 1))
  {
    var g := s[j..j + 4];
    if !IsJsSpace(g[0]) && !IsJsSpace(g[3]) {
      var f := Feature(GramKey(g), GramWeight);
      assert GramFeatures(s, j + 1) == GramFeatures(s, j) + [f];
      Place(v, f);
      AccumulateSnoc(base, GramFeatures(s, j), f);
    } else {
      assert GramFeatures(s, j + 1) == GramFeatures(s, j) + [] == GramFeatures(s, j);
    }
  }

  /** v[caHash32(key) % dim] += weight. */
  method Place(v: array<real>, f: Feature)
    requires v.Length > 0
    modifies v
    ensures v[..] == Add(old(v[..]), f)
  {
    var h := Hash32(f.key);
    var idx := h % v.Length;
    v[idx] := v[idx] + f.weight;
  }

  lemma {:induction false} AccumulateConcat(v: seq<real>, a: seq<Feature>, b: seq<Feature>)
    requires |v| > 0
    ensures Accumulate(v, a + b) == Accumulate(Accumulate(v, a), b)
    decreases |b|
  {
    if b == [] {
      assert a + b == a;
    } else {
      var init := b[..|b| - 1];
      assert (a + b)[..|a + b| - 1] == a + init;
      AccumulateConcat(v, a, init);
    }
  }

  lemma AccumulateSnoc(v: seq<real>, fs: seq<Feature>, f: Feature)
    requires |v| > 0
    ensures Accumulate(v, fs + [f]) == Add(Accumulate(v, fs), f)
  {
    assert (fs + [f])[..|fs|] == fs;
  }

  // ------------------------------------------------------ vector lemmas

  /** The total weight of some features. */
  function Weights(fs: seq<Feature>): real
  {
    if fs == [] then 0.0 else Weights(fs[..|fs| - 1]) + fs[|fs| - 1].weight
  }

  /** Adding features adds their weights to the sum of the vector. */
  lemma {:induction false} AccumulateSum(v: seq<real>, fs: seq<Feature>)
    requires |v| > 0
    ensures Sum(Accumulate(v, fs)) == Sum(v) + Weights(fs)
  {
    if fs != [] {
      var init, f := fs[..|fs| - 1], fs[|fs| - 1];
      AccumulateSum(v, init);
      var a := Accumulate(v, init);
      var k := Slot(f.key, |a|);
      assert Accumulate(v, fs) == a[k := a[k] + f.weight];
      SumUpdate(a, k, f.weight);
    }
  }

  /** With non-negative weights every slot stays at least where it was. */
  lemma {:induction false} AccumulateGrows(v: seq<real>, fs: seq<Feature>)
    requires |v| > 0
    requires forall f :: f in fs ==> f.weight >= 0.0
    ensures forall i :: 0 <= i < |v| ==> Accumulate(v, fs)[i] >= v[i]
  {
    if fs != [] {
      var init := fs[..|fs| - 1];
      assert forall f :: f in init ==> f in fs;
      assert fs[|fs| - 1] in fs;
      AccumulateGrows(v, init);
    }
  }

  lemma {:induction false} WeightsConcat(a: seq<Feature>, b: seq<Feature>)
    ensures Weights(a + b) == Weights(a) + Weights(b)
    decreases |b|
  {
    if b != [] {
      assert (a + b)[..|a + b| - 1] == a + b[..|b| - 1];
      WeightsConcat(a, b[..|b| - 1]);
    } else {
      assert a + b == a;
    }
  }

  /** The number of neighbouring pairs among n tokens. */
  function Pairs(n: nat): nat
  {
    if n > 0 then n - 1 else 0
  }

  /** The first n tokens weigh 1 each, plus 0.35 for each of them that has
      a next token. */
  lemma {:induction false} TokenWeights(toks: seq<seq<Unit>>, n: nat)
    requires n <= |toks|
    ensures Weights(TokenFeatures(toks, n)) == n as real + 0.35 * (if n == |toks| then Pairs(n) else n) as real
    ensures forall f :: f in TokenFeatures(toks, n) ==> f.weight > 0.0
  {
    if n > 0 {
      TokenWeights(toks, n - 1);
      var one := TokenFeature(toks, n - 1);
      WeightsConcat(TokenFeatures(toks, n - 1), one);
      var word := Feature(WordKey(toks[n - 1]), WordWeight);
      assert Weights([word]) == 1.0 by {
        assert [word][..0] == [];
      }
      if n - 1 < |toks| - 1 {
        var pair := Feature(PairKey(toks[n - 1], toks[n]), PairWeight);
        assert one == [word, pair];
        assert Weights([word, pair]) == 1.35 by {
          assert [word, pair][..1] == [word];
        }
      } else {
        assert one == [word];
      }
    }
  }

  lemma {:induction false} GramWeights(s: seq<Unit>, n: nat)
    requires n <= Windows(s)
    ensures Weights(GramFeatures(s, n)) == 0.08 * KeptGrams(s, n) as real
    ensures forall f :: f in GramFeatures(s, n) ==> f.weight > 0.0
  {
    if n > 0 {
      GramWeights(s, n - 1);
      var g := s[n - 1..n + 3];
      var more := if GramKept(g) then [Feature(GramKey(g), GramWeight)] else [];
      WeightsConcat(GramFeatures(s, n - 1), more);
      if GramKept(g) {
        assert more[..0] == [];
      }
    }
  }

  /** The accumulated features of some tokens and windows: every slot is
      non-negative and the slots add up to the features' weights. */
  lemma MassOf(toks: seq<seq<Unit>>, s: seq<Unit>, d: nat)
    requires d > 0
    ensures var v := Accumulate(Zeros(d), TokenFeatures(toks, |toks|) + GramFeatures(s, Windows(s)));
      && Sum(v) == |toks| as real + 0.35 * Pairs(|toks|) as real + 0.08 * KeptGrams(s, Windows(s)) as real
      && forall i :: 0 <= i < d ==> v[i] >= 0.0
  {
    var tf, gf := TokenFeatures(toks, |toks|), GramFeatures(s, Windows(s));
    TokenWeights(toks, |toks|);
    GramWeights(s, Windows(s));
    WeightsConcat(tf, gf);
    var z := Zeros(d);
    SumZeros(d);
    AccumulateSum(z, tf + gf);
    assert forall f :: f in tf + gf ==> f in tf || f in gf;
    AccumulateGrows(z, tf + gf);
  }

  lemma SumZeros(d: nat)
    ensures Sum(Zeros(d)) == 0.0
  {
    SumBounds(Zeros(d), 0.0, 0.0);
  }

  /** The mass of a text's vector: 1 per token, 0.35 per pair of
      neighbouring tokens and 0.08 per kept window; every slot is
      non-negative. */
  lemma VectorMass(text: seq<Unit>, dim: nat)
    ensures var t := LowerUnits(text);
      var toks, s := JsTok(t), Collapse(t);
      Sum(HashVector(text, dim)) ==
        |toks| as real + 0.35 * Pairs(|toks|) as real + 0.08 * KeptGrams(s, Windows(s)) as real
    ensures forall i :: 0 <= i < Dim(dim) ==> HashVector(text, dim)[i] >= 0.0
  {
    var t := LowerUnits(text);
    MassOf(JsTok(t), Collapse(t), Dim(dim));
  }

  /** The accumulated features are all zeros exactly when there is no
      token and no kept window. */
  lemma ZeroOf(toks: seq<seq<Unit>>, s: seq<Unit>, d: nat)
    requires d > 0
    ensures var v := Accumulate(Zeros(d), TokenFeatures(toks, |toks|) + GramFeatures(s, Windows(s)));
      (forall i :: 0 <= i < d ==> v[i] == 0.0) <==> toks == [] && KeptGrams(s, Windows(s)) == 0
  {
    var v := Accumulate(Zeros(d), TokenFeatures(toks, |toks|) + GramFeatures(s, Windows(s)));
    MassOf(toks, s, d);
    if forall i :: 0 <= i < d ==> v[i] == 0.0 {
      assert v == Zeros(d);
      SumZeros(d);
    }
    if toks == [] && KeptGrams(s, Windows(s)) == 0 {
      ZeroSumZero(v);
    }
  }

  /** The vector is all zeros exactly when the text has no token and no
      kept window. */
  lemma VectorZero(text: seq<Unit>, dim: nat)
    ensures var t := LowerUnits(text);
      var toks, s := JsTok(t), Collapse(t);
      (forall i :: 0 <= i < Dim(dim) ==> HashVector(text, dim)[i] == 0.0) <==>
        toks == [] && KeptGrams(s, Windows(s)) == 0
  {
    var t := LowerUnits(text);
    var toks, s := JsTok(t), Collapse(t);
    assert HashVector(text, dim) ==
      Accumulate(Zeros(Dim(dim)), TokenFeatures(toks, |toks|) + GramFeatures(s, Windows(s)));
    ZeroOf(toks, s, Dim(dim));
  }

  /** The empty text hashes to the zero vector. */
  lemma EmptyVector(dim: nat)
    ensures forall i :: 0 <= i < Dim(dim) ==> HashVector([], dim)[i] == 0.0
  {
    var t := LowerUnits([]);
    NoWordNoToken([]);
    assert Collapse(t) == [];
    assert Windows(Collapse(t)) == 0;
    VectorZero([], dim);
  }

  /** A non-negative sequence summing to 0 is all zeros. */
  lemma {:induction false} ZeroSumZero(v: seq<real>)
    requires forall i :: 0 <= i < |v| ==> v[i] >= 0.0
    requires Sum(v) <= 0.0
    ensures forall i :: 0 <= i < |v| ==> v[i] == 0.0
  {
    if v != [] {
      var init := v[..|v| - 1];
      SumNonNegative(init);
      ZeroSumZero(init);
    }
  }

  lemma {:induction false} SumNonNegative(v: seq<real>)
    requires forall i :: 0 <= i < |v| ==> v[i] >= 0.0
    ensures Sum(v) >= 0.0
  {
    if v != [] {
      SumNonNegative(v[..|v| - 1]);
    }
  }

  // ------------------------------------------------------------- caCos

  /** The dot product of the first n entries. */
  function Dot(a: seq<real>, b: seq<real>, n: nat): real
    requires n <= |a| && n <= |b|
  {
    if n == 0 then 0.0 else Dot(a, b, n - 1) + a[n - 1] * b[n - 1]
  }

  function MinLen(a: seq<real>, b: seq<real>): (n: nat)
    ensures n <= |a| && n <= |b|
  {
    if |a| <= |b| then |a| else |b|
  }

  /** caCos: over the common length, the dot product divided by the
      product of the magnitudes, 0 when either magnitude is 0; no
      rounding. */
  function CaCos(a: seq<real>, b: seq<real>, sqrt: real -> real): real
  {
    var n := MinLen(a, b);
    var ma, mb := sqrt(Dot(a, a, n)), sqrt(Dot(b, b, n));
    if ma == 0.0 || mb == 0.0 then 0.0 else Dot(a, b, n) / (ma * mb)
  }

  /** The accumulator loop of caCos. */
  method CaCosine(a: array<real>, b: array<real>, sqrt: real -> real) returns (r: real)
    ensures r == CaCos(a[..], b[..], sqrt)
  {
    var dot, ma, mb := 0.0, 0.0, 0.0;
    var n := if a.Length <= b.Length then a.Length else b.Length;
    for i := 0 to n
      invariant dot == Dot(a[..], b[..], i)
      invariant ma == Dot(a[..], a[..], i)
      invariant mb == Dot(b[..], b[..], i)
    {
      var x, y := a[i], b[i];
      dot := dot + x * y;
      ma := ma + x * x;
      mb := mb + y * y;
    }
    ma := sqrt(ma);
    mb := sqrt(mb);
    if ma == 0.0 || mb == 0.0 {
      return 0.0;
    }
    r := dot / (ma * mb);
  }

  lemma {:induction false} DotSymmetric(a: seq<real>, b: seq<real>, n: nat)
    requires n <= |a| && n <= |b|
    ensures Dot(a, b, n) == Dot(b, a, n)
  {
    if n > 0 {
      DotSymmetric(a, b, n - 1);
    }
  }

  /** caCos does not depend on the order of its arguments. */
  lemma CaCosSymmetric(a: seq<real>, b: seq<real>, sqrt: real -> real)
    ensures CaCos(a, b, sqrt) == CaCos(b, a, sqrt)
  {
    var n := MinLen(a, b);
    assert MinLen(b, a) == n;
    DotSymmetric(a, b, n);
  }

  lemma {:induction false} DotZero(a: seq<real>, b: seq<real>, n: nat)
    requires n <= |a| && n <= |b|
    requires forall i :: 0 <= i < n ==> a[i] == 0.0
    ensures Dot(a, b, n) == 0.0 && Dot(a, a, n) == 0.0
  {
    if n > 0 {
      DotZero(a, b, n - 1);
    }
  }

  /** The zero rule: a vector whose compared entries are all 0 is similar
      to nothing, on either side. */
  lemma CaCosZero(a: seq<real>, b: seq<real>, sqrt: real -> real)
    requires IsSqrt(sqrt)
    requires forall i :: 0 <= i < MinLen(a, b) ==> a[i] == 0.0
    ensures CaCos(a, b, sqrt) == 0.0 && CaCos(b, a, sqrt) == 0.0
  {
    DotZero(a, b, MinLen(a, b));
    CaCosSymmetric(a, b, sqrt);
  }

  lemma {:induction false} DotNonNegative(a: seq<real>, b: seq<real>, n: nat)
    requires n <= |a| && n <= |b|
    requires forall i :: 0 <= i < n ==> a[i] >= 0.0 && b[i] >= 0.0
    ensures Dot(a, b, n) >= 0.0
  {
    if n > 0 {
      DotNonNegative(a, b, n - 1);
      TermVectors.ProductNonNegative(a[n - 1], b[n - 1], a[n - 1] * b[n - 1]);
    }
  }

  lemma {:induction false} SquaresNonNegative(a: seq<real>, n: nat)
    requires n <= |a|
    ensures Dot(a, a, n) >= 0.0
  {
    if n > 0 {
      SquaresNonNegative(a, n - 1);
      TermVectors.SquareNonNegative(a[n - 1], a[n - 1] * a[n - 1]);
    }
  }

  /** Vectors with non-negative entries are never negatively similar. */
  lemma CaCosNonNegative(a: seq<real>, b: seq<real>, sqrt: real -> real)
    requires IsSqrt(sqrt)
    requires forall i :: 0 <= i < |a| ==> a[i] >= 0.0
    requires forall i :: 0 <= i < |b| ==> b[i] >= 0.0
    ensures CaCos(a, b, sqrt) >= 0.0
  {
    var n := MinLen(a, b);
    DotNonNegative(a, b, n);
    SquaresNonNegative(a, n);
    SquaresNonNegative(b, n);
    var ma, mb := sqrt(Dot(a, a, n)), sqrt(Dot(b, b, n));
    if ma != 0.0 && mb != 0.0 {
      TermVectors.ProductPositive(ma, mb, ma * mb);
      DivMono(0.0, Dot(a, b, n), ma * mb);
    }
  }

  /** A vector with a non-zero entry is fully similar to itself. */
  lemma CaCosSelf(a: seq<real>, sqrt: real -> real, k: nat)
    requires IsSqrt(sqrt)
    requires k < |a| && a[k] != 0.0
    ensures CaCos(a, a, sqrt) == 1.0
  {
    var n := |a|;
    assert MinLen(a, a) == n;
    SelfDotPositive(a, n, k);
    var d := Dot(a, a, n);
    assert 0.0 <= sqrt(d) && sqrt(d) * sqrt(d) == d && sqrt(d) != 0.0;
    assert CaCos(a, a, sqrt) == d / (sqrt(d) * sqrt(d));
    TermVectors.DivSquare(d, sqrt(d), d / (sqrt(d) * sqrt(d)));
  }

  lemma {:induction false} SelfDotPositive(a: seq<real>, n: nat, k: nat)
    requires k < n <= |a| && a[k] != 0.0
    ensures Dot(a, a, n) > 0.0
  {
    SquaresNonNegative(a, n - 1);
    if k == n - 1 {
      TermVectors.SquarePositive(a[k], a[k] * a[k]);
    } else {
      SelfDotPositive(a, n - 1, k);
      TermVectors.SquareNonNegative(a[n - 1], a[n - 1] * a[n - 1]);
    }
  }
}

/** The topic vector of the two server handlers: the TF vector of the focus
    phrase, plus a light weight for each pair of adjacent phrase pieces. */
module Topic {
  import opened Collections
  import opened Tokenizer
  import opened TermVectors

  /** The weight added for each occurrence of a phrase bigram. */
  const BigramWeight: real := 0.35

  /** Two adjacent pieces, hyphen-trimmed and joined by a space. */
  function Pair(a: string, b: string): (r: string)
    ensures ' ' in r
  {
    var r := TrimHyphens(a) + " " + TrimHyphens(b);
    assert r[|TrimHyphens(a)|] == ' ';
    r
  }

  /** The bigram keys of the raw (unfiltered) pieces of a phrase, one per
      adjacent pair whose joined form has at least five characters, in
      order and with repetitions. */
  function Bigrams(pieces: seq<string>): (r: seq<string>)
    ensures forall b :: b in r ==> ' ' in b && |b| >= 5
  {
    if |pieces| < 2 then []
    else
      var n := |pieces|;
      var bg := Pair(pieces[n - 2], pieces[n - 1]);
      Bigrams(pieces[..n - 1]) + (if |bg| >= 5 then [bg] else [])
  }

  /** v with BigramWeight added to the weight of each listed key, an absent
      key counting as zero. */
  function Boost(v: Vector, bgs: seq<string>): Vector
  {
    if bgs == [] then v
    else
      var b := Boost(v, bgs[..|bgs| - 1]);
      var k := bgs[|bgs| - 1];
      b[k := Weight(b, k) + BigramWeight]
  }

  /** The value of $topic_vec (and $tv in the chunk handler). */
  function TopicVector(phrase: string, stop: seq<string>): Vector
  {
    Boost(TfVector(phrase, stop), Bigrams(Pieces(Lower(phrase))))
  }

  /** The keys of the topic vector in PHP insertion order: the tokens as the
      TF builder first meets them, then the new bigrams. */
  function TopicKeys(phrase: string, stop: seq<string>): seq<string>
  {
    Distinct(Tokenize(phrase, stop) + Bigrams(Pieces(Lower(phrase))))
  }

  /** The topic-vector step of both handlers. */
  method BuildTopicVector(phrase: string, stop: seq<string>) returns (tv: Vector)
    ensures tv == TopicVector(phrase, stop)
  {
    tv := BuildTfVector(phrase, stop);
    tv := AddBigrams(tv, Pieces(Lower(phrase)));
  }

  /** The bigram loop: for each adjacent pair of pieces whose joined form
      has at least five characters, add BigramWeight to its weight. */
  method AddBigrams(tf: Vector, words: seq<string>) returns (tv: Vector)
    ensures tv == Boost(tf, Bigrams(words))
  {
    tv := tf;
    if |words| >= 2 {
      ghost var seen := [];
      for i := 0 to |words| - 1
        invariant seen == Bigrams(words[..i + 1])
        invariant Boosted(tv, tf, seen)
      {
        BigramsSnoc(words, i);
        var bg := TrimHyphens(words[i]) + " " + TrimHyphens(words[i + 1]);
        assert bg == Pair(words[i], words[i + 1]);
        if |bg| >= 5 {
          BoostedStep(tv, tf, seen, bg);
          tv := tv[bg := Weight(tv, bg) + BigramWeight];
          seen := seen + [bg];
        } else {
          assert seen + [] == seen;
        }
      }
      assert words[..|words|] == words;
    }
  }

  /** tv is tf boosted by the bigrams seen so far. */
  ghost predicate Boosted(tv: Vector, tf: Vector, seen: seq<string>)
  {
    tv == Boost(tf, seen)
  }

  lemma BoostedStep(tv: Vector, tf: Vector, seen: seq<string>, k: string)
    requires Boosted(tv, tf, seen)
    ensures Boosted(tv[k := Weight(tv, k) + BigramWeight], tf, seen + [k])
  {
    assert (seen + [k])[..|seen|] == seen;
  }

  lemma BigramsSnoc(words: seq<string>, i: nat)
    requires i + 1 < |words|
    ensures Bigrams(words[..i + 2]) == Bigrams(words[..i + 1]) +
      (if |Pair(words[i], words[i + 1])| >= 5 then [Pair(words[i], words[i + 1])] else [])
  {
    assert words[..i + 2][..i + 1] == words[..i + 1];
  }

  /** Every adjacent pair of pieces, joined, in order. */
  function AdjacentPairs(pieces: seq<string>): (r: seq<string>)
    ensures |r| == if |pieces| < 2 then 0 else |pieces| - 1
    ensures forall i :: 0 <= i < |r| ==> r[i] == Pair(pieces[i], pieces[i + 1])
  {
    if |pieces| < 2 then []
    else seq(|pieces| - 1, i requires 0 <= i < |pieces| - 1 => Pair(pieces[i], pieces[i + 1]))
  }

  predicate LongPair(b: string) { |b| >= 5 }

  /** The bigram list is the list of all adjacent pairs with the short ones
      dropped: in order and with repetitions, so a pair that occurs k times
      (and is long enough) is listed k times; a key is listed exactly when
      it is a long enough adjacent pair. */
  lemma BigramsSpec(pieces: seq<string>)
    ensures Bigrams(pieces) == Filter(AdjacentPairs(pieces), LongPair)
    ensures forall b :: multiset(Bigrams(pieces))[b] == (if |b| >= 5 then multiset(AdjacentPairs(pieces))[b] else 0)
    ensures forall b :: b in Bigrams(pieces) <==>
      |b| >= 5 && exists i :: 0 <= i < |pieces| - 1 && b == Pair(pieces[i], pieces[i + 1])
  {
    BigramsFiltered(pieces);
    var ps := AdjacentPairs(pieces);
    forall b ensures multiset(Bigrams(pieces))[b] == (if |b| >= 5 then multiset(ps)[b] else 0) {
      FilterMultiplicity(ps, LongPair, b);
    }
    forall b ensures b in Bigrams(pieces) <==>
      |b| >= 5 && exists i :: 0 <= i < |pieces| - 1 && b == Pair(pieces[i], pieces[i + 1])
    {
      assert b in Bigrams(pieces) <==> multiset(Bigrams(pieces))[b] > 0;
      InAdjacentPairs(pieces, b);
    }
  }

  lemma {:induction false} BigramsFiltered(pieces: seq<string>)
    ensures Bigrams(pieces) == Filter(AdjacentPairs(pieces), LongPair)
  {
    var n := |pieces|;
    if n >= 2 {
      var init := pieces[..n - 1];
      BigramsFiltered(init);
      var last := Pair(pieces[n - 2], pieces[n - 1]);
      assert Bigrams(pieces) == Bigrams(init) + (if |last| >= 5 then [last] else []);
      AdjacentSnoc(pieces);
      FilterSnoc(AdjacentPairs(init), last, LongPair);
    }
  }

  lemma AdjacentSnoc(pieces: seq<string>)
    requires |pieces| >= 2
    ensures AdjacentPairs(pieces) ==
      AdjacentPairs(pieces[..|pieces| - 1]) + [Pair(pieces[|pieces| - 2], pieces[|pieces| - 1])]
  {
    var n := |pieces|;
    var a, b := AdjacentPairs(pieces), AdjacentPairs(pieces[..n - 1]);
    assert forall i :: 0 <= i < |b| ==> a[i] == b[i];
  }

  lemma InAdjacentPairs(pieces: seq<string>, b: string)
    ensures b in AdjacentPairs(pieces) <==>
      exists i :: 0 <= i < |pieces| - 1 && b == Pair(pieces[i], pieces[i + 1])
  {
    var ps := AdjacentPairs(pieces);
    if b in ps {
      var i :| 0 <= i < |ps| && ps[i] == b;
      assert 0 <= i < |pieces| - 1 && b == Pair(pieces[i], pieces[i + 1]);
    }
    if exists i :: 0 <= i < |pieces| - 1 && b == Pair(pieces[i], pieces[i + 1]) {
      var i :| 0 <= i < |pieces| - 1 && b == Pair(pieces[i], pieces[i + 1]);
      assert ps[i] == b;
    }
  }

  // ----------------------------------------------------------- lemmas

  /** Boosting adds the listed keys and no other. */
  lemma {:induction false} BoostKeys(v: Vector, bgs: seq<string>)
    ensures Boost(v, bgs).Keys == v.Keys + set b | b in bgs
  {
    if bgs != [] {
      BoostKeys(v, bgs[..|bgs| - 1]);
      assert bgs == bgs[..|bgs| - 1] + [bgs[|bgs| - 1]];
    }
  }

  /** Boosting leaves the weight of an unlisted key alone. */
  lemma {:induction false} BoostUnlisted(v: Vector, bgs: seq<string>, k: string)
    requires k in v && k !in bgs
    ensures k in Boost(v, bgs) && Boost(v, bgs)[k] == v[k]
  {
    if bgs != [] {
      BoostKeys(v, bgs);
      BoostUnlisted(v, bgs[..|bgs| - 1], k);
      assert k in Boost(v, bgs[..|bgs| - 1]);
    }
  }

  /** Boosting adds BigramWeight to a key once per listing, an absent key
      counting as zero. */
  lemma {:induction false} BoostListed(v: Vector, bgs: seq<string>, k: string)
    requires k in bgs
    ensures k in Boost(v, bgs) && Boost(v, bgs)[k] == Weight(v, k) + BigramWeight * multiset(bgs)[k] as real
  {
    var p, x := bgs[..|bgs| - 1], bgs[|bgs| - 1];
    assert bgs == p + [x];
    var before := Boost(v, p);
    BoostKeys(v, p);
    if k == x {
      assert multiset(bgs)[k] == multiset(p)[k] + 1;
      if k in p {
        BoostListed(v, p, k);
      } else {
        assert multiset(p)[k] == 0;
        if k in v {
          BoostUnlisted(v, p, k);
        }
      }
    } else {
      assert multiset(bgs)[k] == multiset(p)[k];
      BoostListed(v, p, k);
    }
  }

  /** Tokens keep their TF weight; each bigram weighs BigramWeight per
      occurrence, repeated pairs accumulating; nothing else is a key. */
  lemma TopicVectorSpec(phrase: string, stop: seq<string>)
    ensures var tv, tf, bgs := TopicVector(phrase, stop), TfVector(phrase, stop), Bigrams(Pieces(Lower(phrase)));
      && tv.Keys == tf.Keys + (set b | b in bgs)
      && (forall t :: t in tf ==> tv[t] == tf[t])
      && (forall b :: b in bgs ==> tv[b] == BigramWeight * multiset(bgs)[b] as real)
  {
    var tf, bgs := TfVector(phrase, stop), Bigrams(Pieces(Lower(phrase)));
    BoostKeys(tf, bgs);
    TfVectorSpec(phrase, stop);
    TokenShape(phrase, stop);
    forall b | b in bgs ensures b !in tf {
      assert ' ' in b;
    }
    forall t | t in tf ensures TopicVector(phrase, stop)[t] == tf[t] {
      BoostUnlisted(tf, bgs, t);
    }
    forall b | b in bgs ensures TopicVector(phrase, stop)[b] == BigramWeight * multiset(bgs)[b] as real {
      BoostListed(tf, bgs, b);
    }
  }

  /** A phrase of fewer than two pieces gets no bigram. */
  lemma ShortPhrase(phrase: string, stop: seq<string>)
    requires |Pieces(Lower(phrase))| < 2
    ensures TopicVector(phrase, stop) == TfVector(phrase, stop)
  {}

  /** Topic weights are never negative. */
  lemma TopicNonNegative(phrase: string, stop: seq<string>)
    ensures NonNegative(TopicVector(phrase, stop))
  {
    var tf := TfVector(phrase, stop);
    TopicVectorSpec(phrase, stop);
    TfWeightRange(phrase, stop);
  }

  /** The key order lists exactly the keys of the topic vector. */
  lemma TopicKeysSpec(phrase: string, stop: seq<string>)
    ensures forall t :: t in TopicKeys(phrase, stop) <==> t in TopicVector(phrase, stop)
  {
    var toks, bgs := Tokenize(phrase, stop), Bigrams(Pieces(Lower(phrase)));
    var keys := TopicKeys(phrase, stop);
    TopicVectorSpec(phrase, stop);
    TfVectorSpec(phrase, stop);
    forall t ensures t in keys <==> t in toks + bgs {
      if t in toks + bgs {
        var i :| 0 <= i < |toks + bgs| && (toks + bgs)[i] == t;
      }
      if t in keys {
        var i :| 0 <= i < |keys| && keys[i] == t;
      }
    }
  }

  /** The space-free keys of the topic vector are exactly its tokens. */
  lemma SingleWordKeys(phrase: string, stop: seq<string>)
    ensures forall t :: t in TopicVector(phrase, stop) && ' ' !in t <==> t in Tokenize(phrase, stop)
  {
    TopicVectorSpec(phrase, stop);
    TfVectorSpec(phrase, stop);
    TokenShape(phrase, stop);
  }
}

/** The browser mode of the word-relevance report (caBrowserWordAnalysis):
    the same shape as the server report, computed in the page from the
    hashed vectors of the phrase, of the text and of each word's context. */
module BrowserWords {
  import opened Numeric
  import opened Collections
  import opened JsText
  import opened HashVectors
  import opened Bands

  /** The vector dimension the page passes to caVectorize. */
  const Dimension: nat := 1024

  /** At most this many distinct words are scored, and at most this many
      returned. */
  const MaxTerms: nat := 600
  const MaxReturned: nat := 200

  /** Words taken on each side of an occurrence, and the context length
      after which the search stops. */
  const Win: nat := 5
  const ContextLimit: nat := 200

  /** The page's own minimal stop set. */
  const StopWords: seq<string> := [
    "który", "która", "które", "oraz", "ponieważ", "bardzo", "więcej", "mniej", "przez", "przed",
    "między", "tylko", "jest", "było", "była", "były", "będzie", "można", "their", "this",
    "that", "with", "from", "have", "has", "had", "will", "would", "shall", "should"]

  const StopUnits: seq<seq<Unit>> := Encode(StopWords)

  /** The UTF-16 encoding of each string. */
  function Encode(ss: seq<string>): (r: seq<seq<Unit>>)
    ensures |r| == |ss|
  {
    if ss == [] then [] else Encode(ss[..|ss| - 1]) + [Utf16(ss[|ss| - 1])]
  }

  /** The stop set is a plain object, so a lookup also finds what every
      object inherits; of those names only "constructor" can be a token. */
  const Constructor: seq<Unit> := [0x63, 0x6F, 0x6E, 0x73, 0x74, 0x72, 0x75, 0x63, 0x74, 0x6F, 0x72]

  /** stop[w] is truthy. */
  predicate IsStop(stop: seq<seq<Unit>>, w: seq<Unit>)
  {
    w in stop || w == Constructor
  }

  /** The words the frequency loop counts. */
  function Counted(stop: seq<seq<Unit>>): seq<Unit> -> bool
  {
    w => !IsStop(stop, w)
  }

  datatype WordScore = WordScore(
    word: seq<Unit>,
    count: nat,
    directMatch: bool,
    contextScore: real,
    relevanceScore: real)

  datatype Report = Report(
    phrase: string,
    overallSimilarity: real,
    totalUniqueWords: nat,
    highRelevance: nat,
    mediumRelevance: nat,
    lowRelevance: nat,
    averageRelevance: real,
    words: seq<WordScore>)

  // ------------------------------------------------------------ counting

  /** The frequency loop: every word outside the stop set, counted. */
  method CountWords(words: seq<seq<Unit>>, stop: seq<seq<Unit>>) returns (freq: map<seq<Unit>, nat>)
    ensures freq == Counts(Filter(words, Counted(stop)))
  {
    freq := map[];
    for i := 0 to |words|
      invariant freq == Counts(Filter(words[..i], Counted(stop)))
    {
      var w := words[i];
      FilterPrefix(words, i, Counted(stop));
      if IsStop(stop, w) {
        assert !Counted(stop)(w);
        assert Filter(words[..i + 1], Counted(stop)) == Filter(words[..i], Counted(stop));
        continue;
      }
      assert Counted(stop)(w);
      assert Filter(words[..i + 1], Counted(stop)) == Filter(words[..i], Counted(stop)) + [w];
      CountsSnoc(Filter(words[..i], Counted(stop)), w);
      freq := freq[w := (if w in freq then freq[w] else 0) + 1];
      assert freq == Counts(Filter(words[..i + 1], Counted(stop)));
    }
    assert words[..|words|] == words;
  }

  /** The frequency table holds exactly the words outside the stop set,
      each with its number of occurrences. */
  lemma FrequencySpec(words: seq<seq<Unit>>, stop: seq<seq<Unit>>)
    ensures var freq := Counts(Filter(words, Counted(stop)));
      && (forall w :: w in freq <==> w in words && !IsStop(stop, w))
      && (forall w :: w in freq ==> freq[w] == multiset(words)[w])
  {
    var kept := Filter(words, Counted(stop));
    CountsSpec(kept);
    forall w | w in words && !IsStop(stop, w) ensures w in kept {
      FilterMultiplicity(words, Counted(stop), w);
      assert multiset(words)[w] > 0;
    }
    forall w | w in Counts(kept) ensures Counts(kept)[w] == multiset(words)[w] {
      FilterMultiplicity(words, Counted(stop), w);
    }
  }

  /** "constructor" is never counted, however often the text says it. */
  lemma ConstructorNeverCounted(words: seq<seq<Unit>>, stop: seq<seq<Unit>>)
    ensures Constructor !in Counts(Filter(words, Counted(stop)))
  {
    CountsSpec(Filter(words, Counted(stop)));
  }

  // ------------------------------------------------------------- context

  /** Math.max(0, i - win), and one past Math.min(words.length - 1, i + win). */
  function WindowLo(i: nat): nat
  {
    if i >= Win then i - Win else 0
  }

  function WindowHi(n: nat, i: nat): nat
  {
    if i + Win + 1 <= n then i + Win + 1 else n
  }

  /** The words around position i: up to five on each side. */
  function Neighbours(words: seq<seq<Unit>>, i: nat): (r: seq<seq<Unit>>)
    requires i < |words|
    ensures |r| <= 2 * Win
  {
    words[WindowLo(i)..i] + words[i + 1..WindowHi(|words|, i)]
  }

  /** The context list once the loop has looked at the first n positions:
      each occurrence of term adds its neighbours, until the list is longer
      than ContextLimit. */
  function Context(words: seq<seq<Unit>>, term: seq<Unit>, n: nat): seq<seq<Unit>>
    requires n <= |words|
  {
    if n == 0 then []
    else
      var c := Context(words, term, n - 1);
      if |c| > ContextLimit || words[n - 1] != term then c else c + Neighbours(words, n - 1)
  }

  /** The context loop, with its early exit. */
  method ContextWords(words: seq<seq<Unit>>, term: seq<Unit>) returns (ctx: seq<seq<Unit>>)
    ensures ctx == Context(words, term, |words|)
  {
    ctx := [];
    var i := 0;
    while i < |words|
      invariant 0 <= i <= |words|
      invariant ctx == Context(words, term, i)
      invariant |ctx| <= ContextLimit
    {
      if words[i] == term {
        ctx := PushNeighbours(ctx, words, i);
        if |ctx| > ContextLimit {
          ContextSettled(words, term, i + 1, |words|);
          break;
        }
      }
      i := i + 1;
    }
  }

  /** The inner loop: push words[j] for every j within five positions of
      i, i itself excepted. */
  method PushNeighbours(ctx: seq<seq<Unit>>, words: seq<seq<Unit>>, i: nat) returns (r: seq<seq<Unit>>)
    requires i < |words|
    ensures r == ctx + Neighbours(words, i)
  {
    r := ctx;
    var lo := if 0 < i - Win then i - Win else 0;
    var hi := if |words| - 1 < i + Win then |words| - 1 else i + Win;
    for j := lo to hi + 1
      invariant r == ctx + (if j <= i then words[lo..j] else words[lo..i] + words[i + 1..j])
    {
      if j != i {
        if j < i {
          assert words[lo..j + 1] == words[lo..j] + [words[j]];
        } else {
          assert words[i + 1..j + 1] == words[i + 1..j] + [words[j]];
        }
        r := r + [words[j]];
      } else {
        assert words[i + 1..i + 1] == [];
      }
    }
  }

  /** Once the list is over the limit, later positions add nothing. */
  lemma {:induction false} ContextSettled(words: seq<seq<Unit>>, term: seq<Unit>, m: nat, n: nat)
    requires m <= n <= |words| && |Context(words, term, m)| > ContextLimit
    ensures Context(words, term, n) == Context(words, term, m)
    decreases n
  {
    if n > m {
      ContextSettled(words, term, m, n - 1);
    }
  }

  /** The list grows by at most one window past the limit. */
  lemma {:induction false} ContextBound(words: seq<seq<Unit>>, term: seq<Unit>, n: nat)
    requires n <= |words|
    ensures |Context(words, term, n)| <= ContextLimit + 2 * Win
  {
    if n > 0 {
      ContextBound(words, term, n - 1);
    }
  }

  /** The first n positions end up as a prefix of the list. */
  lemma {:induction false} ContextGrows(words: seq<seq<Unit>>, term: seq<Unit>, m: nat, n: nat)
    requires m <= n <= |words|
    ensures Context(words, term, m) <= Context(words, term, n)
    decreases n
  {
    if n > m {
      ContextGrows(words, term, m, n - 1);
    }
  }

  /** w sits within five positions of an occurrence of term before n. */
  ghost predicate NearTerm(words: seq<seq<Unit>>, term: seq<Unit>, n: nat, w: seq<Unit>)
    requires n <= |words|
  {
    exists i, j :: 0 <= i < n && words[i] == term && WindowLo(i) <= j < WindowHi(|words|, i) && j != i && words[j] == w
  }

  /** Every context word is a neighbour of an occurrence of the term; in
      particular a term that does not occur has an empty context. */
  lemma {:induction false} ContextNear(words: seq<seq<Unit>>, term: seq<Unit>, n: nat)
    requires n <= |words|
    ensures forall w :: w in Context(words, term, n) ==> NearTerm(words, term, n, w)
    ensures (forall i :: 0 <= i < n ==> words[i] != term) ==> Context(words, term, n) == []
  {
    if n > 0 {
      ContextNear(words, term, n - 1);
      var c := Context(words, term, n - 1);
      forall w | w in Context(words, term, n) ensures NearTerm(words, term, n, w) {
        if w in c {
          var i, j :| 0 <= i < n - 1 && words[i] == term && WindowLo(i) <= j < WindowHi(|words|, i) && j != i && words[j] == w;
          assert 0 <= i < n;
        } else {
          var i := n - 1;
          var k :| 0 <= k < |Neighbours(words, i)| && Neighbours(words, i)[k] == w;
          if k < i - WindowLo(i) {
            assert words[WindowLo(i) + k] == w;
          } else {
            assert words[i + 1 + (k - (i - WindowLo(i)))] == w;
          }
        }
      }
    }
  }

  /** Below the limit, nothing was cut: every neighbour of every occurrence
      is in the context. */
  lemma {:induction false} ContextComplete(words: seq<seq<Unit>>, term: seq<Unit>, n: nat)
    requires n <= |words| && |Context(words, term, n)| <= ContextLimit
    ensures forall i, j :: 0 <= i < n && words[i] == term && WindowLo(i) <= j < WindowHi(|words|, i) && j != i ==>
      words[j] in Context(words, term, n)
  {
    if n > 0 {
      var c := Context(words, term, n - 1);
      ContextGrows(words, term, n - 1, n);
      ContextComplete(words, term, n - 1);
      forall i, j | 0 <= i < n && words[i] == term && WindowLo(i) <= j < WindowHi(|words|, i) && j != i
        ensures words[j] in Context(words, term, n)
      {
        if i < n - 1 {
          assert words[j] in c;
        } else {
          NeighbourIn(words, i, j);
          assert Context(words, term, n) == c + Neighbours(words, i);
        }
      }
    }
  }

  /** Every position of the window other than i itself is a neighbour. */
  lemma NeighbourIn(words: seq<seq<Unit>>, i: nat, j: nat)
    requires i < |words| && WindowLo(i) <= j < WindowHi(|words|, i) && j != i
    ensures words[j] in Neighbours(words, i)
  {
    var nb := Neighbours(words, i);
    if j < i {
      assert nb[j - WindowLo(i)] == words[j];
    } else {
      assert nb[(i - WindowLo(i)) + (j - i - 1)] == words[j];
    }
  }

  /** ctx.join(' '). */
  function Join(ws: seq<seq<Unit>>): seq<Unit>
  {
    if ws == [] then []
    else if |ws| == 1 then ws[0]
    else Join(ws[..|ws| - 1]) + [Space] + ws[|ws| - 1]
  }

  // -------------------------------------------------------------- scoring

  /** Math.min(1, dm*0.55 + cs*0.45). */
  function Relevance(dm: bool, cs: real): real
  {
    Min(1.0, (if dm then 1.0 else 0.0) * 0.55 + cs * 0.45)
  }

  /** The entry the page builds for one word. */
  function MakeScore(word: seq<Unit>, count: nat, dm: bool, cs: real): WordScore
  {
    WordScore(word, count, dm, JsPercent(cs), JsPercent(Relevance(dm, cs)))
  }

  /** The entry of one word and its count: whether the phrase names the
      word, and how similar its context is to the phrase. */
  function ScoreOf(word: seq<Unit>, count: nat, topic: seq<real>, words: seq<seq<Unit>>, ptoks: seq<seq<Unit>>,
                   sqrt: real -> real): WordScore
  {
    var ctx := Context(words, word, |words|);
    MakeScore(word, count, word in ptoks, CaCos(topic, HashVector(Join(ctx), Dimension), sqrt))
  }

  /** ScoreOf with the phrase, the text and the square root fixed. */
  function Scorer(topic: seq<real>, words: seq<seq<Unit>>, ptoks: seq<seq<Unit>>, sqrt: real -> real)
    : (seq<Unit>, nat) -> WordScore
  {
    (word: seq<Unit>, count: nat) => ScoreOf(word, count, topic, words, ptoks, sqrt)
  }

  /** The body of the scoring loop for one word; topic is the phrase's
      vector the array holds. */
  method ScoreWord(term: seq<Unit>, count: nat, topicVec: array<real>, ghost topic: seq<real>,
                   words: seq<seq<Unit>>, ptoks: seq<seq<Unit>>, sqrt: real -> real) returns (e: WordScore)
    requires topicVec[..] == topic
    ensures e == ScoreOf(term, count, topic, words, ptoks, sqrt)
  {
    var dm := term in ptoks;
    var ctx := ContextWords(words, term);
    var ctxVec := Vectorize(Join(ctx), Dimension);
    var cs := CaCosine(topicVec, ctxVec, sqrt);
    e := MakeScore(term, count, dm, cs);
  }

  /** The scoring loop: one entry per selected pair, in order. */
  method ScoreWords(top: seq<(seq<Unit>, nat)>, topicVec: array<real>, ghost topic: seq<real>,
                    words: seq<seq<Unit>>, ptoks: seq<seq<Unit>>, sqrt: real -> real) returns (out: seq<WordScore>)
    requires topicVec[..] == topic
    ensures |out| == |top|
    ensures forall i :: 0 <= i < |top| ==> out[i] == ScoreOf(top[i].0, top[i].1, topic, words, ptoks, sqrt)
  {
    out := [];
    for i := 0 to |top|
      invariant |out| == i
      invariant forall k :: 0 <= k < i ==> out[k] == ScoreOf(top[k].0, top[k].1, topic, words, ptoks, sqrt)
    {
      var e := ScoreWord(top[i].0, top[i].1, topicVec, topic, words, ptoks, sqrt);
      out := out + [e];
    }
  }

  function Entry(e: WordScore): (seq<Unit>, nat) { (e.word, e.count) }

  function RelevanceKey(e: WordScore): real { e.relevanceScore }


  /** The band loop: the three band counts and the sum of the relevances. */
  method Tally(out: seq<WordScore>) returns (hi: nat, md: nat, lo: nat, sum: real)
    ensures hi == High(Column(out, RelevanceKey)) && md == Medium(Column(out, RelevanceKey)) && lo == Low(Column(out, RelevanceKey))
    ensures sum == Sum(Column(out, RelevanceKey))
  {
    hi, md, lo, sum := 0, 0, 0, 0.0;
    for i := 0 to |out|
      invariant hi == High(Column(out[..i], RelevanceKey)) && md == Medium(Column(out[..i], RelevanceKey))
      invariant lo == Low(Column(out[..i], RelevanceKey)) && sum == Sum(Column(out[..i], RelevanceKey))
    {
      RelevancesPrefix(out, i);
      hi, md, lo, sum := TallyOne(hi, md, lo, sum, Column(out[..i], RelevanceKey), out[i].relevanceScore);
    }
    assert out[..|out|] == out;
  }

  /** One pass of the band loop: the score joins its band and the sum. */
  method TallyOne(hi0: nat, md0: nat, lo0: nat, sum0: real, ghost seen: seq<real>, rs: real)
    returns (hi: nat, md: nat, lo: nat, sum: real)
    requires hi0 == High(seen) && md0 == Medium(seen) && lo0 == Low(seen) && sum0 == Sum(seen)
    ensures hi == High(seen + [rs]) && md == Medium(seen + [rs]) && lo == Low(seen + [rs])
    ensures sum == Sum(seen + [rs])
  {
    BandsSnoc(seen, rs);
    hi, md, lo, sum := hi0, md0, lo0, sum0 + rs;
    if rs >= 40.0 {
      hi := hi + 1;
    } else if rs >= 15.0 {
      md := md + 1;
    } else {
      lo := lo + 1;
    }
  }

  lemma RelevancesPrefix(out: seq<WordScore>, i: nat)
    requires i < |out|
    ensures Column(out[..i + 1], RelevanceKey) == Column(out[..i], RelevanceKey) + [out[i].relevanceScore]
  {}

  /** Math.round(sum / n * 10) / 10, or 0 without words. */
  function Average(rs: seq<real>): real
  {
    if |rs| > 0 then JsRound(Sum(rs) / |rs| as real * 10.0) / 10.0 else 0.0
  }

  // ----------------------------------------------------------- the report

  /** The report summarises ranked: its length, bands, average and first
      MaxReturned entries, with the overall similarity of text and phrase. */
  ghost predicate Summarises(r: Report, ranked: seq<WordScore>, phrase: string, overall: real)
  {
    var rs := Column(ranked, RelevanceKey);
    && r.phrase == phrase
    && r.overallSimilarity == JsPercent(overall)
    && r.totalUniqueWords == |ranked|
    && r.highRelevance == High(rs) && r.mediumRelevance == Medium(rs) && r.lowRelevance == Low(rs)
    && r.averageRelevance == Average(rs)
    && r.words == ranked[..if |ranked| < MaxReturned then |ranked| else MaxReturned]
  }

  /** ranked holds, sorted by relevance, the entry score builds for each
      of the (at most MaxTerms) most frequent words: no word left out
      occurs more often than one kept. */
  ghost predicate Ranks(ranked: seq<WordScore>, freq: map<seq<Unit>, nat>, score: (seq<Unit>, nat) -> WordScore)
  {
    && |ranked| == (if |freq| < MaxTerms then |freq| else MaxTerms)
    && SortedDesc(ranked, RelevanceKey)
    && (forall i, j :: 0 <= i < j < |ranked| ==> ranked[i].word != ranked[j].word)
    && (forall e :: e in ranked ==> e.word in freq && e.count == freq[e.word] && e == score(e.word, e.count))
    && (forall k :: k in freq && (forall e :: e in ranked ==> e.word != k) ==>
          forall e :: e in ranked ==> freq[k] <= e.count)
  }

  /** caBrowserWordAnalysis on the text and the phrase the server sent;
      ranked is the whole sorted list before the cut to MaxReturned. */
  method AnalyzeWords(text: string, phrase: string, sqrt: real -> real)
    returns (r: Report, ghost ranked: seq<WordScore>)
    ensures Summarises(r, ranked, phrase,
              CaCos(HashVector(Utf16(phrase), Dimension), HashVector(Utf16(text), Dimension), sqrt))
    ensures Ranks(ranked, Counts(Filter(JsTok(Utf16(text)), Counted(StopUnits))),
                  Scorer(HashVector(Utf16(phrase), Dimension), JsTok(Utf16(text)), JsTok(Utf16(phrase)), sqrt))
  {
    var p, t := Utf16(phrase), Utf16(text);
    var topicVec := Vectorize(p, Dimension);
    var fullVec := Vectorize(t, Dimension);
    var overall := CaCosine(topicVec, fullVec, sqrt);
    var sorted := RankWords(JsTok(t), StopUnits, topicVec, topicVec[..], JsTok(p), sqrt);
    r := Summarise(sorted, phrase, overall);
    ranked := sorted;
  }

  /** The report over the ranked list: the band counts, the average and
      the first MaxReturned entries. */
  method Summarise(ranked: seq<WordScore>, phrase: string, overall: real) returns (r: Report)
    ensures Summarises(r, ranked, phrase, overall)
  {
    var hi, md, lo, sum := Tally(ranked);
    var avg := if |ranked| > 0 then JsRound(sum / |ranked| as real * 10.0) / 10.0 else 0.0;
    var n := if |ranked| < MaxReturned then |ranked| else MaxReturned;
    r := Report(phrase, JsPercent(overall), |ranked|, hi, md, lo, avg, ranked[..n]);
  }

  /** Counting, selection, scoring and sorting of the text's words. */
  method RankWords(words: seq<seq<Unit>>, stop: seq<seq<Unit>>, topicVec: array<real>, ghost topic: seq<real>,
                   ptoks: seq<seq<Unit>>, sqrt: real -> real) returns (ranked: seq<WordScore>)
    requires topicVec[..] == topic
    ensures Ranks(ranked, Counts(Filter(words, Counted(stop))), Scorer(topic, words, ptoks, sqrt))
  {
    var freq := CountWords(words, stop);
    ranked := RankFrequencies(freq, topicVec, topic, words, ptoks, sqrt);
  }

  /** Selection, scoring and sorting of a frequency table. */
  method RankFrequencies(freq: map<seq<Unit>, nat>, topicVec: array<real>, ghost topic: seq<real>,
                         words: seq<seq<Unit>>, ptoks: seq<seq<Unit>>, sqrt: real -> real)
    returns (ranked: seq<WordScore>)
    requires topicVec[..] == topic
    ensures Ranks(ranked, freq, Scorer(topic, words, ptoks, sqrt))
  {
    var top := SelectTop(freq, MaxTerms);
    var out := ScoreWords(top, topicVec, topic, words, ptoks, sqrt);
    ScoredEntries(top, out, topic, words, ptoks, sqrt);
    ranked := SortDesc(out, RelevanceKey);
    RankedFromTop(freq, top, out, ranked, Scorer(topic, words, ptoks, sqrt));
  }

  /** Each scored entry is what the scorer builds for its pair, and reads
      back that pair. */
  lemma ScoredEntries(top: seq<(seq<Unit>, nat)>, out: seq<WordScore>, topic: seq<real>,
                      words: seq<seq<Unit>>, ptoks: seq<seq<Unit>>, sqrt: real -> real)
    requires |out| == |top|
    requires forall i :: 0 <= i < |top| ==> out[i] == ScoreOf(top[i].0, top[i].1, topic, words, ptoks, sqrt)
    ensures forall i :: 0 <= i < |top| ==>
      out[i] == Scorer(topic, words, ptoks, sqrt)(top[i].0, top[i].1) && Entry(out[i]) == top[i]
  {}

  /** Scoring the selected pairs and sorting the entries ranks the
      frequency table. */
  lemma RankedFromTop(freq: map<seq<Unit>, nat>, top: seq<(seq<Unit>, nat)>, out: seq<WordScore>,
                      sorted: seq<WordScore>, score: (seq<Unit>, nat) -> WordScore)
    requires |top| == (if |freq| < MaxTerms then |freq| else MaxTerms)
    requires forall e :: e in top ==> e.0 in freq && e.1 == freq[e.0]
    requires forall i, j :: 0 <= i < j < |top| ==> top[i].0 != top[j].0
    requires forall k :: k in freq && (forall e :: e in top ==> e.0 != k) ==> forall e :: e in top ==> freq[k] <= e.1
    requires |out| == |top|
    requires forall i :: 0 <= i < |top| ==> out[i] == score(top[i].0, top[i].1) && Entry(out[i]) == top[i]
    requires multiset(sorted) == multiset(out) && SortedDesc(sorted, RelevanceKey)
    ensures Ranks(sorted, freq, score)
  {
    RankScores(freq, top, out, sorted, Entry);
    forall e | e in sorted ensures e == score(e.word, e.count) {
      var i :| 0 <= i < |out| && out[i] == e;
    }
  }

  // ------------------------------------------------------------- lemmas

  /** The sizes of the report: at most MaxTerms words are scored, at most
      MaxReturned returned, in relevance order, and the bands split the
      scored words. */
  lemma ReportShape(r: Report, ranked: seq<WordScore>, phrase: string, overall: real,
                    freq: map<seq<Unit>, nat>, score: (seq<Unit>, nat) -> WordScore)
    requires Summarises(r, ranked, phrase, overall) && Ranks(ranked, freq, score)
    ensures r.totalUniqueWords <= MaxTerms && r.totalUniqueWords <= |freq|
    ensures |r.words| <= MaxReturned && |r.words| <= r.totalUniqueWords
    ensures SortedDesc(r.words, RelevanceKey)
    ensures r.highRelevance + r.mediumRelevance + r.lowRelevance == r.totalUniqueWords
  {
    BandsPartition(Column(ranked, RelevanceKey));
  }

  /** No stop word is ranked, and each ranked word carries its number of
      occurrences in the text. */
  lemma RankedWords(ranked: seq<WordScore>, words: seq<seq<Unit>>, stop: seq<seq<Unit>>,
                    score: (seq<Unit>, nat) -> WordScore)
    requires Ranks(ranked, Counts(Filter(words, Counted(stop))), score)
    ensures forall e :: e in ranked ==> e.word in words && !IsStop(stop, e.word) && e.count == multiset(words)[e.word]
  {
    FrequencySpec(words, stop);
  }

  /** The hashed vector of any text has non-negative slots, so its
      similarity to another is non-negative, and so is its percentage. */
  lemma SimilarityNonNegative(a: seq<Unit>, b: seq<Unit>, sqrt: real -> real)
    requires IsSqrt(sqrt)
    ensures CaCos(HashVector(a, Dimension), HashVector(b, Dimension), sqrt) >= 0.0
    ensures JsPercent(CaCos(HashVector(a, Dimension), HashVector(b, Dimension), sqrt)) >= 0.0
  {
    VectorMass(a, Dimension);
    VectorMass(b, Dimension);
    var cs := CaCos(HashVector(a, Dimension), HashVector(b, Dimension), sqrt);
    CaCosNonNegative(HashVector(a, Dimension), HashVector(b, Dimension), sqrt);
    PercentRange(cs);
  }

  /** A non-negative share has a non-negative percentage, and one of at
      most 1 a percentage of at most 100. */
  lemma PercentRange(x: real)
    requires x >= 0.0
    ensures JsPercent(x) >= 0.0
    ensures x <= 1.0 ==> JsPercent(x) <= 100.0
  {
    assert JsRound(0.0) == 0.0;
    JsRoundMonotone(0.0, x * 1000.0);
    if x <= 1.0 {
      assert JsRound(1000.0) == 1000.0;
      JsRoundMonotone(x * 1000.0, 1000.0);
    }
  }

  /** The relevance never goes down when the word becomes a direct match
      or its context similarity goes up. */
  lemma ScoreMonotone(dm1: bool, cs1: real, dm2: bool, cs2: real)
    requires (dm1 ==> dm2) && cs1 <= cs2
    ensures JsPercent(Relevance(dm1, cs1)) <= JsPercent(Relevance(dm2, cs2))
  {
    assert Relevance(dm1, cs1) <= Relevance(dm2, cs2);
    JsRoundMonotone(Relevance(dm1, cs1) * 1000.0, Relevance(dm2, cs2) * 1000.0);
  }

  /** With a non-negative context similarity, the relevance lies in
      [0, 100], and a word the phrase names scores at least 55. */
  lemma ScoreRange(dm: bool, cs: real)
    requires cs >= 0.0
    ensures var rel := JsPercent(Relevance(dm, cs));
      0.0 <= rel <= 100.0 && (dm ==> rel >= 55.0)
    ensures forall dm2: bool, cs2: real :: (dm ==> dm2) && cs <= cs2 ==>
      JsPercent(Relevance(dm, cs)) <= JsPercent(Relevance(dm2, cs2))
  {
    forall dm2: bool, cs2: real | (dm ==> dm2) && cs <= cs2
      ensures JsPercent(Relevance(dm, cs)) <= JsPercent(Relevance(dm2, cs2))
    {
      ScoreMonotone(dm, cs, dm2, cs2);
    }
    var x := Relevance(dm, cs);
    PercentRange(x);
    if dm {
      assert x >= 0.55;
      assert JsRound(550.0) == 550.0;
      JsRoundMonotone(550.0, x * 1000.0);
    }
  }

  /** Any entry the scoring builds has a relevance in [0, 100], at least 55
      when the phrase names its word, and a non-negative context score. */
  lemma ScoredEntry(word: seq<Unit>, count: nat, topicText: seq<Unit>, words: seq<seq<Unit>>,
                    ptoks: seq<seq<Unit>>, sqrt: real -> real)
    requires IsSqrt(sqrt)
    ensures var e := ScoreOf(word, count, HashVector(topicText, Dimension), words, ptoks, sqrt);
      && 0.0 <= e.relevanceScore <= 100.0 && e.contextScore >= 0.0
      && (e.directMatch ==> e.relevanceScore >= 55.0)
  {
    var ctx := Join(Context(words, word, |words|));
    SimilarityNonNegative(topicText, ctx, sqrt);
    ScoreRange(word in ptoks, CaCos(HashVector(topicText, Dimension), HashVector(ctx, Dimension), sqrt));
  }

  /** Every relevance of the report lies in [0, 100], a word the phrase
      names scores at least 55, every context score is non-negative, and
      the average lies in [0, 100]. */
  lemma ReportRanges(r: Report, ranked: seq<WordScore>, phrase: string, overall: real,
                     freq: map<seq<Unit>, nat>, topicText: seq<Unit>, words: seq<seq<Unit>>,
                     ptoks: seq<seq<Unit>>, sqrt: real -> real)
    requires IsSqrt(sqrt)
    requires Summarises(r, ranked, phrase, overall)
    requires Ranks(ranked, freq, Scorer(HashVector(topicText, Dimension), words, ptoks, sqrt))
    ensures forall e :: e in r.words ==>
      && 0.0 <= e.relevanceScore <= 100.0 && e.contextScore >= 0.0
      && (e.directMatch ==> e.relevanceScore >= 55.0)
    ensures 0.0 <= r.averageRelevance <= 100.0
  {
    RankedInRange(ranked, freq, topicText, words, ptoks, sqrt);
    SummaryInRange(r, ranked, phrase, overall);
  }

  /** Every scored entry of a ranking lies in range. */
  lemma RankedInRange(ranked: seq<WordScore>, freq: map<seq<Unit>, nat>, topicText: seq<Unit>, words: seq<seq<Unit>>,
                        ptoks: seq<seq<Unit>>, sqrt: real -> real)
    requires IsSqrt(sqrt)
    requires Ranks(ranked, freq, Scorer(HashVector(topicText, Dimension), words, ptoks, sqrt))
    ensures forall e :: e in ranked ==> 0.0 <= e.relevanceScore <= 100.0 && e.contextScore >= 0.0 && (e.directMatch ==> e.relevanceScore >= 55.0)
  {
    forall e | e in ranked ensures 0.0 <= e.relevanceScore <= 100.0 && e.contextScore >= 0.0 && (e.directMatch ==> e.relevanceScore >= 55.0) {
      ScoredEntry(e.word, e.count, topicText, words, ptoks, sqrt);
    }
  }

  /** The returned words and the average of in-range entries lie in range. */
  lemma SummaryInRange(r: Report, ranked: seq<WordScore>, phrase: string, overall: real)
    requires Summarises(r, ranked, phrase, overall)
    requires forall e :: e in ranked ==> 0.0 <= e.relevanceScore <= 100.0 && e.contextScore >= 0.0 && (e.directMatch ==> e.relevanceScore >= 55.0)
    ensures forall e :: e in r.words ==> 0.0 <= e.relevanceScore <= 100.0 && e.contextScore >= 0.0 && (e.directMatch ==> e.relevanceScore >= 55.0)
    ensures 0.0 <= r.averageRelevance <= 100.0
  {
    assert forall e :: e in r.words ==> e in ranked by {
      forall e | e in r.words ensures e in ranked {
        var i :| 0 <= i < |r.words| && r.words[i] == e;
        assert ranked[i] == e;
      }
    }
    var rs := Column(ranked, RelevanceKey);
    assert forall i :: 0 <= i < |rs| ==> rs[i] == ranked[i].relevanceScore && ranked[i] in ranked;
    AverageRange(rs);
  }

  /** Relevances in [0, 100] average to a value in [0, 100]. */
  lemma AverageRange(rs: seq<real>)
    requires forall i :: 0 <= i < |rs| ==> 0.0 <= rs[i] <= 100.0
    ensures 0.0 <= Average(rs) <= 100.0
  {
    if |rs| > 0 {
      var n := |rs| as real;
      SumBounds(rs, 0.0, 100.0);
      DivMono(0.0, Sum(rs), n);
      DivMono(Sum(rs), n * 100.0, n);
      assert n * 100.0 / n == 100.0;
      var m := Sum(rs) / n;
      MulMono(0.0, m, 10.0);
      MulMono(m, 100.0, 10.0);
      assert JsRound(0.0) == 0.0 && JsRound(1000.0) == 1000.0;
      JsRoundMonotone(0.0, m * 10.0);
      JsRoundMonotone(m * 10.0, 1000.0);
    }
  }
}

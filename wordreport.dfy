/** The scoring body of the server's word-relevance handler: the 600 most
    frequent tokens of the text, each scored by whether the phrase names it
    and by how similar its context is to the phrase, sorted by relevance,
    with band counts, the average and the overall similarity. */
module WordReport {
  import opened Numeric
  import opened Collections
  import opened Tokenizer
  import opened TermVectors
  import opened Context
  import opened Topic
  import opened Bands

  /** At most this many distinct tokens are scored. */
  const MaxTerms: nat := 600

  /** At most this many scored words are returned. */
  const MaxReturned: nat := 200

  datatype WordScore = WordScore(
    word: string,
    count: nat,
    directMatch: bool,
    contextScore: real,
    relevanceScore: real)

  datatype Report = Report(
    phrase: string,
    overallSimilarity: real,
    totalUniqueWords: nat,
    highRelevance: nat,
    mediumRelevance: nat,
    lowRelevance: nat,
    averageRelevance: real,
    words: seq<WordScore>)

  /** round(min(1.0, dm*0.55 + cs*0.45), 4). */
  function Score(dm: bool, cs: real): real
  {
    PhpRound(Min(1.0, (if dm then 1.0 else 0.0) * 0.55 + cs * 0.45), 4)
  }

  /** The entry the handler builds for one word. */
  function MakeScore(word: string, count: nat, dm: bool, cs: real): WordScore
  {
    WordScore(word, count, dm, Percent(cs), Percent(Score(dm, cs)))
  }

  /** The entry of one (word, count) pair of the frequency list. */
  ghost function ScoreOf(e: (string, nat), topic: Vector, words: seq<string>, stop: seq<string>,
                         sqrt: real -> real): WordScore
  {
    MakeScore(e.0, e.1, e.0 in topic, Cosine(topic, ContextVector(words, e.0, stop), sqrt))
  }


  /** round(array_sum(relevances) / count, 1), or 0 without words. */
  function Average(rs: seq<real>): real
  {
    if |rs| > 0 then PhpRound(Sum(rs) / |rs| as real, 1) else 0.0
  }

  function RelevanceKey(e: WordScore): real { e.relevanceScore }

  // --------------------------------------------------------- the handler

  /** The server-mode body of the word-relevance handler, from the plain text
      and the phrase on, with the plugin's stop list; ranked is the whole
      sorted list before the cut to MaxReturned entries. */
  method AnalyzeWords(text: string, phrase: string, sqrt: real -> real) returns (r: Report, ghost ranked: seq<WordScore>)
    ensures Summarises(r, ranked, phrase, Cosine(TopicVector(phrase, StopList), TfVector(text, StopList), sqrt))
    ensures Ranks(ranked, Counts(Tokenize(text, StopList)), TopicVector(phrase, StopList), Pieces(Lower(text)), StopList, sqrt)
  {
    r, ranked := Analyze(text, phrase, StopList, sqrt);
  }

  /** The report summarises ranked: its length, bands, average and first
      MaxReturned entries, with the overall similarity of text and phrase. */
  ghost predicate Summarises(r: Report, ranked: seq<WordScore>, phrase: string, overall: real)
  {
    var rs := Column(ranked, RelevanceKey);
    && r.phrase == phrase
    && r.overallSimilarity == Percent(overall)
    && r.totalUniqueWords == |ranked|
    && r.highRelevance == High(rs) && r.mediumRelevance == Medium(rs) && r.lowRelevance == Low(rs)
    && r.averageRelevance == Average(rs)
    && r.words == ranked[..if |ranked| < MaxReturned then |ranked| else MaxReturned]
  }

  /** ranked holds, sorted by relevance, one scored entry for each of the
      (at most MaxTerms) most frequent tokens: no token left out occurs more
      often than one kept. */
  ghost predicate Ranks(ranked: seq<WordScore>, wf: map<string, nat>, topic: Vector, words: seq<string>,
                        stop: seq<string>, sqrt: real -> real)
  {
    && |ranked| == (if |wf| < MaxTerms then |wf| else MaxTerms)
    && SortedDesc(ranked, RelevanceKey)
    && (forall i, j :: 0 <= i < j < |ranked| ==> ranked[i].word != ranked[j].word)
    && (forall e :: e in ranked ==>
          e.word in wf && e.count == wf[e.word] && e == ScoreOf((e.word, e.count), topic, words, stop, sqrt))
    && (forall k :: k in wf && (forall e :: e in ranked ==> e.word != k) ==>
          forall e :: e in ranked ==> wf[k] <= e.count)
  }

  method Analyze(text: string, phrase: string, stop: seq<string>, sqrt: real -> real)
    returns (r: Report, ghost ranked: seq<WordScore>)
    ensures Summarises(r, ranked, phrase, Cosine(TopicVector(phrase, stop), TfVector(text, stop), sqrt))
    ensures Ranks(ranked, Counts(Tokenize(text, stop)), TopicVector(phrase, stop), Pieces(Lower(text)), stop, sqrt)
  {
    var topic := BuildTopicVector(phrase, stop);
    var ws := RankWords(text, topic, stop, sqrt);
    var tv := BuildTfVector(text, stop);
    var os := CosineSimilarity(topic, tv, sqrt);
    var rs := Column(ws, RelevanceKey);
    var n := if |ws| < MaxReturned then |ws| else MaxReturned;
    r := Report(phrase, Percent(os), |ws|, High(rs), Medium(rs), Low(rs), Average(rs), ws[..n]);
    ranked := ws;
  }

  /** Counting, selection, scoring and sorting of the text's tokens. */
  method RankWords(text: string, topic: Vector, stop: seq<string>, sqrt: real -> real) returns (ranked: seq<WordScore>)
    ensures Ranks(ranked, Counts(Tokenize(text, stop)), topic, Pieces(Lower(text)), stop, sqrt)
  {
    var allWords := Pieces(Lower(text));
    var wf, _ := CountTokens(allWords, stop);
    var top := SelectTop(wf, MaxTerms);
    var scored := ScoreWords(top, topic, allWords, stop, sqrt);
    ranked := SortDesc(scored, RelevanceKey);
    RankedFromTop(top, scored, ranked, wf, topic, allWords, stop, sqrt);
  }

  /** The scoring loop: one entry per (word, count) pair, in order. */
  method ScoreWords(top: seq<(string, nat)>, topic: Vector, words: seq<string>, stop: seq<string>,
                    sqrt: real -> real) returns (ws: seq<WordScore>)
    ensures |ws| == |top|
    ensures forall i :: 0 <= i < |top| ==> ws[i] == ScoreOf(top[i], topic, words, stop, sqrt)
  {
    ws := [];
    for i := 0 to |top|
      invariant |ws| == i
      invariant forall k :: 0 <= k < i ==> ws[k] == ScoreOf(top[k], topic, words, stop, sqrt)
    {
      var (word, count) := top[i];
      var dm := word in topic;
      var cv := BuildContextVector(words, word, stop);
      var cs := CosineSimilarity(topic, cv, sqrt);
      var e := MakeScore(word, count, dm, cs);
      ScoredSnoc(ws, e, top, i, topic, words, stop, sqrt);
      ws := ws + [e];
    }
  }

  /** Appending the next pair's entry extends the scored prefix. */
  lemma ScoredSnoc(ws: seq<WordScore>, e: WordScore, top: seq<(string, nat)>, i: nat, topic: Vector,
                   words: seq<string>, stop: seq<string>, sqrt: real -> real)
    requires |ws| == i < |top|
    requires forall k :: 0 <= k < i ==> ws[k] == ScoreOf(top[k], topic, words, stop, sqrt)
    requires e == ScoreOf(top[i], topic, words, stop, sqrt)
    ensures forall k :: 0 <= k < i + 1 ==> (ws + [e])[k] == ScoreOf(top[k], topic, words, stop, sqrt)
  {
    var t := ws + [e];
    assert forall k :: 0 <= k < i ==> t[k] == ws[k];
    assert t[i] == e;
  }

  /** Scoring the selected (word, count) pairs and sorting the entries
      ranks the frequency list. */
  lemma RankedFromTop(top: seq<(string, nat)>, scored: seq<WordScore>, ws: seq<WordScore>,
                      wf: map<string, nat>, topic: Vector, words: seq<string>, stop: seq<string>,
                      sqrt: real -> real)
    requires |top| == (if |wf| < MaxTerms then |wf| else MaxTerms)
    requires forall e :: e in top ==> e.0 in wf && e.1 == wf[e.0]
    requires forall i, j :: 0 <= i < j < |top| ==> top[i].0 != top[j].0
    requires forall k :: k in wf && (forall e :: e in top ==> e.0 != k) ==> forall e :: e in top ==> wf[k] <= e.1
    requires |scored| == |top|
    requires forall i :: 0 <= i < |top| ==> scored[i] == ScoreOf(top[i], topic, words, stop, sqrt)
    requires multiset(ws) == multiset(scored) && SortedDesc(ws, RelevanceKey)
    ensures Ranks(ws, wf, topic, words, stop, sqrt)
  {
    assert |ws| == |multiset(ws)| == |scored|;
    RankedEntries(top, scored, ws, wf, topic, words, stop, sqrt);
    RankedCutOff(top, scored, ws, wf);
    RankedDistinct(top, scored, ws, wf, topic, words, stop, sqrt);
  }

  /** The sorted entries name distinct words, as the selected pairs do. */
  lemma RankedDistinct(top: seq<(string, nat)>, scored: seq<WordScore>, ws: seq<WordScore>,
                       wf: map<string, nat>, topic: Vector, words: seq<string>, stop: seq<string>,
                       sqrt: real -> real)
    requires forall i, j :: 0 <= i < j < |top| ==> top[i].0 != top[j].0
    requires |scored| == |top|
    requires forall i :: 0 <= i < |top| ==> scored[i] == ScoreOf(top[i], topic, words, stop, sqrt)
    requires multiset(ws) == multiset(scored)
    requires forall e :: e in ws ==>
      e.word in wf && e.count == wf[e.word] && e == ScoreOf((e.word, e.count), topic, words, stop, sqrt)
    ensures forall i, j :: 0 <= i < j < |ws| ==> ws[i].word != ws[j].word
  {
    forall i, j | 0 <= i < j < |scored| ensures scored[i] != scored[j] {
      assert scored[i].word == top[i].0 && scored[j].word == top[j].0;
    }
    OnceCounted(scored);
    forall i, j | 0 <= i < j < |ws| ensures ws[i].word != ws[j].word {
      if ws[i].word == ws[j].word {
        assert ws[i] in ws && ws[j] in ws;
        assert ws[i] == ws[j];
        TwiceCounted(ws, i, j);
        assert false;
      }
    }
  }

  /** Each sorted entry is the scored entry of a selected pair. */
  lemma RankedEntries(top: seq<(string, nat)>, scored: seq<WordScore>, ws: seq<WordScore>,
                      wf: map<string, nat>, topic: Vector, words: seq<string>, stop: seq<string>,
                      sqrt: real -> real)
    requires forall e :: e in top ==> e.0 in wf && e.1 == wf[e.0]
    requires |scored| == |top|
    requires forall i :: 0 <= i < |top| ==> scored[i] == ScoreOf(top[i], topic, words, stop, sqrt)
    requires multiset(ws) == multiset(scored)
    ensures forall e :: e in ws ==>
      e.word in wf && e.count == wf[e.word] && e == ScoreOf((e.word, e.count), topic, words, stop, sqrt)
  {
    forall e | e in ws
      ensures e.word in wf && e.count == wf[e.word] && e == ScoreOf((e.word, e.count), topic, words, stop, sqrt)
    {
      assert e in multiset(scored);
      var i :| 0 <= i < |scored| && scored[i] == e;
      assert top[i] in top;
    }
  }

  /** A token missing from the sorted entries was not selected, so it
      occurs no more often than any entry. */
  lemma RankedCutOff(top: seq<(string, nat)>, scored: seq<WordScore>, ws: seq<WordScore>, wf: map<string, nat>)
    requires forall k :: k in wf && (forall e :: e in top ==> e.0 != k) ==> forall e :: e in top ==> wf[k] <= e.1
    requires |scored| == |top|
    requires forall i :: 0 <= i < |top| ==> scored[i].word == top[i].0 && scored[i].count == top[i].1
    requires multiset(ws) == multiset(scored)
    ensures forall k :: k in wf && (forall e :: e in ws ==> e.word != k) ==>
      forall e :: e in ws ==> wf[k] <= e.count
  {
    forall k, e | k in wf && (forall e :: e in ws ==> e.word != k) && e in ws
      ensures wf[k] <= e.count
    {
      forall t | t in top ensures t.0 != k {
        var i :| 0 <= i < |top| && top[i] == t;
        assert scored[i] in multiset(ws);
      }
      assert e in multiset(scored);
      var i :| 0 <= i < |scored| && scored[i] == e;
      assert top[i] in top;
    }
  }

  /** The sizes of the report: at most MaxTerms words are scored, at most
      MaxReturned returned, in relevance order, and the bands split the
      scored words. */
  lemma ReportShape(r: Report, ranked: seq<WordScore>, phrase: string, overall: real,
                    wf: map<string, nat>, topic: Vector, words: seq<string>, stop: seq<string>, sqrt: real -> real)
    requires Summarises(r, ranked, phrase, overall) && Ranks(ranked, wf, topic, words, stop, sqrt)
    ensures r.totalUniqueWords <= MaxTerms && r.totalUniqueWords <= |wf|
    ensures |r.words| <= MaxReturned && |r.words| <= r.totalUniqueWords
    ensures SortedDesc(r.words, RelevanceKey)
    ensures r.highRelevance + r.mediumRelevance + r.lowRelevance == r.totalUniqueWords
  {
    BandsPartition(Column(ranked, RelevanceKey));
  }

  /** Every relevance of the report lies in [0, 100], a word the phrase
      names scores at least 55, and so does the average lie in [0, 100]. */
  lemma ReportRanges(r: Report, ranked: seq<WordScore>, phrase: string, overall: real,
                     wf: map<string, nat>, topic: Vector, words: seq<string>, stop: seq<string>, sqrt: real -> real)
    requires IsSqrt(sqrt) && NonNegative(topic)
    requires Summarises(r, ranked, phrase, overall) && Ranks(ranked, wf, topic, words, stop, sqrt)
    ensures forall e :: e in r.words ==>
      0.0 <= e.relevanceScore <= 100.0 && (e.directMatch ==> e.relevanceScore >= 55.0)
    ensures 0.0 <= r.averageRelevance <= 100.0
  {
    RankedInRange(ranked, wf, topic, words, stop, sqrt);
    SummaryInRange(r, ranked, phrase, overall);
  }

  /** Every scored entry of a ranking lies in range. */
  lemma RankedInRange(ranked: seq<WordScore>, wf: map<string, nat>, topic: Vector, words: seq<string>, stop: seq<string>,
                        sqrt: real -> real)
    requires IsSqrt(sqrt) && NonNegative(topic)
    requires Ranks(ranked, wf, topic, words, stop, sqrt)
    ensures forall e :: e in ranked ==> 0.0 <= e.relevanceScore <= 100.0 && (e.directMatch ==> e.relevanceScore >= 55.0)
  {
    forall e | e in ranked ensures 0.0 <= e.relevanceScore <= 100.0 && (e.directMatch ==> e.relevanceScore >= 55.0) {
      ScoredEntry((e.word, e.count), topic, words, stop, sqrt);
    }
  }

  /** The returned words and the average of in-range entries lie in range. */
  lemma SummaryInRange(r: Report, ranked: seq<WordScore>, phrase: string, overall: real)
    requires Summarises(r, ranked, phrase, overall)
    requires forall e :: e in ranked ==> 0.0 <= e.relevanceScore <= 100.0 && (e.directMatch ==> e.relevanceScore >= 55.0)
    ensures forall e :: e in r.words ==> 0.0 <= e.relevanceScore <= 100.0 && (e.directMatch ==> e.relevanceScore >= 55.0)
    ensures 0.0 <= r.averageRelevance <= 100.0
  {
    assert forall e :: e in r.words ==> e in ranked by {
      forall e | e in r.words ensures e in ranked {
        var i :| 0 <= i < |r.words| && r.words[i] == e;
        assert ranked[i] == e;
      }
    }
    var rs := Column(ranked, RelevanceKey);
    assert forall i :: 0 <= i < |rs| ==> rs[i] == ranked[i].relevanceScore && ranked[i] in ranked;
    AverageRange(rs);
  }

  /** Any entry the scoring builds has a relevance in [0, 100], and at
      least 55 when the phrase names its word. */
  lemma ScoredEntry(t: (string, nat), topic: Vector, words: seq<string>, stop: seq<string>, sqrt: real -> real)
    requires IsSqrt(sqrt) && NonNegative(topic)
    ensures var e := ScoreOf(t, topic, words, stop, sqrt);
      0.0 <= e.relevanceScore <= 100.0 && (e.directMatch ==> e.relevanceScore >= 55.0)
  {
    var cv := ContextVector(words, t.0, stop);
    ContextVectorNonNegative(words, t.0, stop);
    CosineNonNegative(topic, cv, sqrt);
    ScoreRange(t.0 in topic, Cosine(topic, cv, sqrt));
  }

  // ----------------------------------------------------------- lemmas

  /** With a non-negative context similarity, the relevance lies in
      [0, 100], and a word the phrase names scores at least 55. */
  lemma ScoreRange(dm: bool, cs: real)
    requires cs >= 0.0
    ensures var rel := Percent(Score(dm, cs));
      0.0 <= rel <= 100.0 && (dm ==> rel >= 55.0)
    ensures forall dm2: bool, cs2: real :: (dm ==> dm2) && cs <= cs2 ==>
      Percent(Score(dm, cs)) <= Percent(Score(dm2, cs2))
  {
    forall dm2: bool, cs2: real | (dm ==> dm2) && cs <= cs2
      ensures Percent(Score(dm, cs)) <= Percent(Score(dm2, cs2))
    {
      ScoreMonotone(dm, cs, dm2, cs2);
    }
    var x := Min(1.0, (if dm then 1.0 else 0.0) * 0.55 + cs * 0.45);
    RoundingFacts();
    PhpRoundMonotone(0.0, x, 4);
    PhpRoundMonotone(x, 1.0, 4);
    var score := Score(dm, cs);
    PhpRoundMonotone(0.0, score * 100.0, 1);
    PhpRoundMonotone(score * 100.0, 100.0, 1);
    if dm {
      PhpRoundMonotone(0.55, x, 4);
      PhpRoundMonotone(55.0, score * 100.0, 1);
    }
  }

  /** The relevance never goes down when the word becomes a direct match
      or its context similarity goes up. */
  lemma ScoreMonotone(dm1: bool, cs1: real, dm2: bool, cs2: real)
    requires (dm1 ==> dm2) && cs1 <= cs2
    ensures Percent(Score(dm1, cs1)) <= Percent(Score(dm2, cs2))
  {
    var x1 := Min(1.0, (if dm1 then 1.0 else 0.0) * 0.55 + cs1 * 0.45);
    var x2 := Min(1.0, (if dm2 then 1.0 else 0.0) * 0.55 + cs2 * 0.45);
    assert x1 <= x2;
    PhpRoundMonotone(x1, x2, 4);
    PhpRoundMonotone(Score(dm1, cs1) * 100.0, Score(dm2, cs2) * 100.0, 1);
  }

  /** The exact values the score bounds rest on. */
  lemma RoundingFacts()
    ensures PhpRound(0.0, 4) == 0.0 && PhpRound(1.0, 4) == 1.0 && PhpRound(0.55, 4) == 0.55
    ensures PhpRound(0.0, 1) == 0.0 && PhpRound(100.0, 1) == 100.0 && PhpRound(55.0, 1) == 55.0
  {
    assert Pow10(1) == 10.0;
    assert Pow10(4) == 10000.0 by {
      assert Pow10(2) == 100.0;
      assert Pow10(3) == 1000.0;
    }
    assert HalfUp(0.55 * 10000.0) == 5500;
    assert HalfUp(10000.0) == 10000;
    assert HalfUp(1000.0) == 1000;
    assert HalfUp(550.0) == 550;
  }

  /** Relevances in [0, 100] average to a value in [0, 100]. */
  lemma AverageRange(rs: seq<real>)
    requires forall i :: 0 <= i < |rs| ==> 0.0 <= rs[i] <= 100.0
    ensures 0.0 <= Average(rs) <= 100.0
  {
    if |rs| > 0 {
      var n := |rs| as real;
      SumBounds(rs, 0.0, 100.0);
      DivMono(0.0, Sum(rs), n);
      DivMono(Sum(rs), n * 100.0, n);
      assert n * 100.0 / n == 100.0;
      RoundingFacts();
      PhpRoundMonotone(0.0, Sum(rs) / n, 1);
      PhpRoundMonotone(Sum(rs) / n, 100.0, 1);
    }
  }
}

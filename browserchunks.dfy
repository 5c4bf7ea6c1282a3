/** The browser mode of the chunk report (caBrowserChunkAnalysis): each
    chunk the server extracted is compared with the phrase through the
    hashed vectors, the chunks are sorted by similarity, and one loop
    gathers the sum, the best and the worst percentage. */
module BrowserChunks {
  import opened Numeric
  import opened Collections
  import opened JsText
  import opened HashVectors
  import opened Chunks
  import BrowserWords

  /** The entry of one chunk; topicTermsFound is always empty in the page. */
  datatype ChunkScore = ChunkScore(
    index: nat,
    text: string,
    wordCount: nat,
    similarity: real,
    similarityPercent: real,
    topicTermsFound: seq<string>)

  datatype Report = Report(
    phrase: string,
    chunks: seq<ChunkScore>,
    chunkCount: nat,
    averageSimilarity: real,
    averagePercent: real,
    maxPercent: real,
    minPercent: real)

  // ------------------------------------------------------------- scoring

  /** The entry of one chunk against the phrase's vector. */
  function Evaluate(ch: Chunk, topic: seq<real>, sqrt: real -> real): ChunkScore
  {
    var sim := CaCos(topic, HashVector(Utf16(ch.text), BrowserWords.Dimension), sqrt);
    ChunkScore(ch.index, ch.text, ch.wordCount, sim, JsPercent(sim), [])
  }

  /** The body of the chunk loop; topic is the vector the array holds. */
  method EvaluateChunk(ch: Chunk, topicVec: array<real>, ghost topic: seq<real>, sqrt: real -> real)
    returns (c: ChunkScore)
    requires topicVec[..] == topic
    ensures c == Evaluate(ch, topic, sqrt)
  {
    var vec := Vectorize(Utf16(ch.text), BrowserWords.Dimension);
    var sim := CaCosine(topicVec, vec, sqrt);
    c := ChunkScore(ch.index, ch.text, ch.wordCount, sim, JsPercent(sim), []);
  }

  /** The chunk loop: one entry per chunk, in chunk order. */
  method ScoreChunks(chunks: seq<Chunk>, topicVec: array<real>, ghost topic: seq<real>, sqrt: real -> real)
    returns (res: seq<ChunkScore>)
    requires topicVec[..] == topic
    ensures |res| == |chunks|
    ensures forall i :: 0 <= i < |chunks| ==> res[i] == Evaluate(chunks[i], topic, sqrt)
  {
    res := [];
    for i := 0 to |chunks|
      invariant |res| == i
      invariant forall k :: 0 <= k < i ==> res[k] == Evaluate(chunks[k], topic, sqrt)
    {
      var c := EvaluateChunk(chunks[i], topicVec, topic, sqrt);
      res := res + [c];
    }
  }

  function SimilarityKey(c: ChunkScore): real { c.similarity }

  function PercentKey(c: ChunkScore): real { c.similarityPercent }

  // ---------------------------------------------------------- statistics

  /** mx = Math.max(mx, p) over the percentages, starting from 0. */
  function Highest(ps: seq<real>): real
  {
    if ps == [] then 0.0 else Max(Highest(ps[..|ps| - 1]), ps[|ps| - 1])
  }

  /** mn = Math.min(mn, p) over the percentages, starting from 100. */
  function Lowest(ps: seq<real>): real
  {
    if ps == [] then 100.0 else Min(Lowest(ps[..|ps| - 1]), ps[|ps| - 1])
  }

  /** The statistics loop: the sum of the similarities, the best and the
      worst percentage. */
  method Stats(res: seq<ChunkScore>) returns (sum: real, mx: real, mn: real)
    ensures sum == Sum(Column(res, SimilarityKey))
    ensures mx == Highest(Column(res, PercentKey)) && mn == Lowest(Column(res, PercentKey))
  {
    sum, mx, mn := 0.0, 0.0, 100.0;
    for i := 0 to |res|
      invariant sum == Sum(Column(res[..i], SimilarityKey))
      invariant mx == Highest(Column(res[..i], PercentKey)) && mn == Lowest(Column(res[..i], PercentKey))
    {
      StatsPrefix(res, i);
      sum := sum + res[i].similarity;
      mx := Max(mx, res[i].similarityPercent);
      mn := Min(mn, res[i].similarityPercent);
    }
    assert res[..|res|] == res;
  }

  lemma StatsPrefix(res: seq<ChunkScore>, i: nat)
    requires i < |res|
    ensures Column(res[..i + 1], SimilarityKey) == Column(res[..i], SimilarityKey) + [res[i].similarity]
    ensures Column(res[..i + 1], PercentKey) == Column(res[..i], PercentKey) + [res[i].similarityPercent]
  {}

  /** The mean similarity, 0 without chunks. */
  function Mean(sims: seq<real>): real
  {
    if |sims| > 0 then Sum(sims) / |sims| as real else 0.0
  }

  /** Math.round(x * 10000) / 10000. */
  function JsRound4(x: real): real
  {
    JsRound(x * 10000.0) / 10000.0
  }

  /** The report over the sorted entries; a worst percentage of exactly
      100 is reported as 0. */
  function Summary(phrase: string, sorted: seq<ChunkScore>): Report
  {
    var avg := Mean(Column(sorted, SimilarityKey));
    var mn := Lowest(Column(sorted, PercentKey));
    Report(phrase, sorted, |sorted|, JsRound4(avg), JsPercent(avg), Highest(Column(sorted, PercentKey)),
           if mn == 100.0 then 0.0 else mn)
  }

  /** The statistics loop and the report built from its results. */
  method Summarise(sorted: seq<ChunkScore>, phrase: string) returns (r: Report)
    ensures r == Summary(phrase, sorted)
  {
    var sum, mx, mn := Stats(sorted);
    var avg := if |sorted| > 0 then sum / |sorted| as real else 0.0;
    r := Report(phrase, sorted, |sorted|, JsRound4(avg), JsPercent(avg), mx, if mn == 100.0 then 0.0 else mn);
  }

  // ------------------------------------------------------------ analysis

  /** caBrowserChunkAnalysis on the chunks and the phrase the server sent;
      scored lists the entries in chunk order, before the sort. */
  method AnalyzeChunks(chunks: seq<Chunk>, phrase: string, sqrt: real -> real)
    returns (r: Report, ghost scored: seq<ChunkScore>)
    ensures Evaluated(scored, chunks, phrase, sqrt)
    ensures Sorts(r, scored, phrase)
  {
    var topicVec := Vectorize(Utf16(phrase), BrowserWords.Dimension);
    var res := ScoreChunks(chunks, topicVec, topicVec[..], sqrt);
    scored := res;
    var sorted := SortDesc(res, SimilarityKey);
    r := Summarise(sorted, phrase);
  }

  /** scored holds the entry of each chunk, in chunk order. */
  ghost predicate Evaluated(scored: seq<ChunkScore>, chunks: seq<Chunk>, phrase: string, sqrt: real -> real)
  {
    && |scored| == |chunks|
    && forall i :: 0 <= i < |chunks| ==>
         scored[i] == Evaluate(chunks[i], HashVector(Utf16(phrase), BrowserWords.Dimension), sqrt)
  }

  /** The report lists the entries sorted by similarity and summarises them. */
  ghost predicate Sorts(r: Report, scored: seq<ChunkScore>, phrase: string)
  {
    && multiset(r.chunks) == multiset(scored)
    && SortedDesc(r.chunks, SimilarityKey)
    && r == Summary(phrase, r.chunks)
  }

  // -------------------------------------------------------------- lemmas

  /** The running maximum is the least value that is at least 0 and at
      least every percentage. */
  lemma {:induction false} HighestSpec(ps: seq<real>)
    ensures Highest(ps) >= 0.0 && forall x :: x in ps ==> x <= Highest(ps)
    ensures Highest(ps) == 0.0 || Highest(ps) in ps
  {
    if ps != [] {
      var init := ps[..|ps| - 1];
      HighestSpec(init);
      assert forall x :: x in ps ==> x in init || x == ps[|ps| - 1];
    }
  }

  /** The running minimum is the greatest value that is at most 100 and at
      most every percentage. */
  lemma {:induction false} LowestSpec(ps: seq<real>)
    ensures Lowest(ps) <= 100.0 && forall x :: x in ps ==> Lowest(ps) <= x
    ensures Lowest(ps) == 100.0 || Lowest(ps) in ps
  {
    if ps != [] {
      var init := ps[..|ps| - 1];
      LowestSpec(init);
      assert forall x :: x in ps ==> x in init || x == ps[|ps| - 1];
    }
  }

  /** An entry's similarity and percentage are non-negative. */
  lemma EvaluateNonNegative(ch: Chunk, phrase: string, sqrt: real -> real)
    requires IsSqrt(sqrt)
    ensures var c := Evaluate(ch, HashVector(Utf16(phrase), BrowserWords.Dimension), sqrt);
      c.similarity >= 0.0 && c.similarityPercent >= 0.0
  {
    BrowserWords.SimilarityNonNegative(Utf16(phrase), Utf16(ch.text), sqrt);
  }

  /** c carries the number, the text and the word count of ch, and no
      topic terms. */
  predicate Copies(c: ChunkScore, ch: Chunk)
  {
    c.index == ch.index && c.text == ch.text && c.wordCount == ch.wordCount && c.topicTermsFound == []
  }

  /** Every entry copies its chunk. */
  lemma EvaluatedCopies(scored: seq<ChunkScore>, chunks: seq<Chunk>, phrase: string, sqrt: real -> real)
    requires Evaluated(scored, chunks, phrase, sqrt)
    ensures |scored| == |chunks| && forall i :: 0 <= i < |chunks| ==> Copies(scored[i], chunks[i])
  {}

  /** Every entry has a non-negative similarity and percentage. */
  lemma EvaluatedNonNegative(scored: seq<ChunkScore>, chunks: seq<Chunk>, phrase: string, sqrt: real -> real)
    requires IsSqrt(sqrt)
    requires Evaluated(scored, chunks, phrase, sqrt)
    ensures forall c :: c in scored ==> c.similarity >= 0.0 && c.similarityPercent >= 0.0
  {
    forall c | c in scored ensures c.similarity >= 0.0 && c.similarityPercent >= 0.0 {
      var i :| 0 <= i < |scored| && scored[i] == c;
      EvaluateNonNegative(chunks[i], phrase, sqrt);
    }
  }

  /** The report holds each chunk once, with its number, text and word
      count, and no topic terms. */
  lemma ReportPermutes(r: Report, scored: seq<ChunkScore>, chunks: seq<Chunk>, phrase: string)
    requires |scored| == |chunks| && forall i :: 0 <= i < |chunks| ==> Copies(scored[i], chunks[i])
    requires Sorts(r, scored, phrase)
    ensures r.chunkCount == |r.chunks| == |chunks|
    ensures forall c :: c in r.chunks <==> c in scored
    ensures forall c :: c in r.chunks ==> exists ch :: ch in chunks && Copies(c, ch)
    ensures (set c | c in r.chunks :: c.index) == (set ch | ch in chunks :: ch.index)
  {
    PermutedCopies(r.chunks, scored, chunks);
  }

  /** A reordering of the entries of the chunks holds each of them once. */
  lemma PermutedCopies(sorted: seq<ChunkScore>, scored: seq<ChunkScore>, chunks: seq<Chunk>)
    requires |scored| == |chunks| && forall i :: 0 <= i < |chunks| ==> Copies(scored[i], chunks[i])
    requires multiset(sorted) == multiset(scored)
    ensures |sorted| == |chunks|
    ensures forall c :: c in sorted <==> c in scored
    ensures forall c :: c in sorted ==> exists ch :: ch in chunks && Copies(c, ch)
    ensures (set c | c in sorted :: c.index) == (set ch | ch in chunks :: ch.index)
  {
    assert |sorted| == |multiset(sorted)| == |scored|;
    assert forall c :: c in sorted <==> c in scored by {
      forall c ensures c in sorted <==> c in scored {
        assert c in sorted <==> c in multiset(sorted);
      }
    }
    assert forall c :: c in sorted ==> exists ch :: ch in chunks && Copies(c, ch) by {
      forall c | c in sorted ensures exists ch :: ch in chunks && Copies(c, ch) {
        var i :| 0 <= i < |scored| && scored[i] == c;
        assert chunks[i] in chunks;
      }
    }
    assert (set ch | ch in chunks :: ch.index) <= (set c | c in sorted :: c.index) by {
      forall ch | ch in chunks ensures ch.index in (set c | c in sorted :: c.index) {
        var i :| 0 <= i < |chunks| && chunks[i] == ch;
        assert scored[i] in sorted;
      }
    }
  }

  /** Without chunks, the average, the best and the worst are all 0. */
  lemma EmptyReport(phrase: string)
    ensures var r := Summary(phrase, []);
      r.chunkCount == 0 && r.averageSimilarity == 0.0 && r.averagePercent == 0.0 &&
      r.maxPercent == 0.0 && r.minPercent == 0.0
  {
    assert Column([], PercentKey) == [];
    assert JsRound(0.0) == 0.0;
  }

  /** Over entries with non-negative similarities, the best percentage
      is the largest one and bounds them all; the worst is the smallest
      one, except that a smallest percentage of 100 is reported as 0; the
      average percentage is non-negative. */
  lemma ReportExtremes(r: Report, scored: seq<ChunkScore>, phrase: string)
    requires Sorts(r, scored, phrase) && scored != []
    requires forall c :: c in scored ==> c.similarity >= 0.0 && c.similarityPercent >= 0.0
    ensures var ps := Column(r.chunks, PercentKey);
      && ps != []
      && r.maxPercent == MaxOf(ps)
      && (MinOf(ps) < 100.0 ==> r.minPercent == MinOf(ps))
      && (MinOf(ps) == 100.0 ==> r.minPercent == 0.0)
      && r.averagePercent >= 0.0
  {
    var ps := Column(r.chunks, PercentKey);
    var sims := Column(r.chunks, SimilarityKey);
    assert |r.chunks| == |scored| by {
      assert |r.chunks| == |multiset(r.chunks)|;
    }
    assert forall i :: 0 <= i < |r.chunks| ==> sims[i] >= 0.0 && ps[i] >= 0.0 by {
      forall i | 0 <= i < |r.chunks| ensures sims[i] >= 0.0 && ps[i] >= 0.0 {
        assert r.chunks[i] in multiset(scored);
      }
    }
    HighestIsMax(ps);
    LowestIsMin(ps);
    assert r.averagePercent >= 0.0 by {
      SumNonNegative(sims);
      DivMono(0.0, Sum(sims), |sims| as real);
      BrowserWords.PercentRange(Mean(sims));
    }
  }

  /** Over non-negative percentages the running maximum is the largest. */
  lemma HighestIsMax(ps: seq<real>)
    requires ps != [] && forall i :: 0 <= i < |ps| ==> ps[i] >= 0.0
    ensures Highest(ps) == MaxOf(ps)
  {
    HighestSpec(ps);
  }

  /** The running minimum is the smallest percentage, capped at 100. */
  lemma LowestIsMin(ps: seq<real>)
    requires ps != []
    ensures Lowest(ps) == Min(100.0, MinOf(ps))
  {
    LowestSpec(ps);
  }

  /** A single chunk that matches the phrase fully reports a best of 100
      and a worst of 0. */
  lemma FullMatchQuirk(phrase: string, c: ChunkScore)
    requires c.similarityPercent == 100.0
    ensures Summary(phrase, [c]).maxPercent == 100.0 && Summary(phrase, [c]).minPercent == 0.0
  {
    assert Column([c], PercentKey) == [100.0];
    assert [100.0][..0] == [];
  }
}

/** The scoring body of the server's chunk handler: each paragraph chunk is
    compared with the topic vector of the phrase, the single-word topic
    terms it contains are counted, and the chunks are sorted by similarity
    with their average, best and worst percentages. */
module ChunkReport {
  import opened Numeric
  import opened Collections
  import opened Tokenizer
  import opened TermVectors
  import opened Topic
  import opened Chunks

  datatype ChunkResult = ChunkResult(
    index: nat,
    text: string,
    wordCount: nat,
    similarity: real,
    similarityPercent: real,
    termsFound: seq<(string, nat)>)

  datatype Report = Report(
    phrase: string,
    chunks: seq<ChunkResult>,
    chunkCount: nat,
    averageSimilarity: real,
    averagePercent: real,
    maxPercent: real,
    minPercent: real)

  // ------------------------------------------------------ substring count

  /** n occurs in h at position i. */
  predicate OccursAt(h: string, n: string, i: nat)
  {
    i + |n| <= |h| && h[i..i + |n|] == n
  }

  /** The non-overlapping occurrences of n in h from position i on, found
      left to right. */
  function CountFrom(h: string, n: string, i: nat): nat
    requires |n| > 0
    decreases |h| - i
  {
    if i + |n| > |h| then 0
    else if h[i..i + |n|] == n then 1 + CountFrom(h, n, i + |n|)
    else CountFrom(h, n, i + 1)
  }

  /** mb_substr_count(h, n). */
  function SubstrCount(h: string, n: string): nat
    requires |n| > 0
  {
    CountFrom(h, n, 0)
  }

  /** The count from i is positive exactly when n occurs at or after i. */
  lemma {:induction false} CountFromPositive(h: string, n: string, i: nat)
    requires |n| > 0
    ensures CountFrom(h, n, i) > 0 <==> exists k: nat :: i <= k && OccursAt(h, n, k)
    decreases |h| - i
  {
    if i + |n| > |h| {
      forall k: nat | i <= k ensures !OccursAt(h, n, k) {}
    } else if h[i..i + |n|] == n {
      assert OccursAt(h, n, i);
    } else {
      CountFromPositive(h, n, i + 1);
      if exists k: nat :: i <= k && OccursAt(h, n, k) {
        var k: nat :| i <= k && OccursAt(h, n, k);
        assert k != i;
        assert i + 1 <= k;
      }
    }
  }

  /** mb_substr_count is positive exactly when the needle occurs. */
  lemma SubstrCountPositive(h: string, n: string)
    requires |n| > 0
    ensures SubstrCount(h, n) > 0 <==> exists k: nat :: OccursAt(h, n, k)
  {
    CountFromPositive(h, n, 0);
  }

  // ---------------------------------------------------------- topic terms

  /** The highlight list of one chunk: each space-free key, in key order,
      with its substring count in the lowercased chunk, when that count is
      positive. */
  function TermsFound(cl: string, keys: seq<string>): seq<(string, nat)>
    requires forall i :: 0 <= i < |keys| ==> keys[i] != ""
  {
    if keys == [] then []
    else
      var t := keys[|keys| - 1];
      var found := TermsFound(cl, keys[..|keys| - 1]);
      if ' ' in t then found
      else
        var cnt := SubstrCount(cl, t);
        if cnt > 0 then found + [(t, cnt)] else found
  }

  /** The highlight loop of the handler. */
  method FindTerms(cl: string, keys: seq<string>) returns (tf: seq<(string, nat)>)
    requires forall i :: 0 <= i < |keys| ==> keys[i] != ""
    ensures tf == TermsFound(cl, keys)
  {
    tf := [];
    for k := 0 to |keys|
      invariant tf == TermsFound(cl, keys[..k])
    {
      var term := keys[k];
      assert keys[..k + 1][..k] == keys[..k];
      if ' ' !in term {
        var cnt := SubstrCount(cl, term);
        if cnt > 0 {
          tf := tf + [(term, cnt)];
        }
      }
    }
    assert keys[..|keys|] == keys;
  }

  /** The highlight list holds exactly the space-free keys that occur in
      the chunk, each with its count. */
  lemma {:induction false} TermsFoundSpec(cl: string, keys: seq<string>)
    requires forall i :: 0 <= i < |keys| ==> keys[i] != ""
    ensures forall e :: e in TermsFound(cl, keys) ==>
      e.0 in keys && ' ' !in e.0 && e.1 == SubstrCount(cl, e.0) > 0
    ensures forall t :: t in keys && ' ' !in t && SubstrCount(cl, t) > 0 ==>
      (t, SubstrCount(cl, t)) in TermsFound(cl, keys)
  {
    if keys != [] {
      var init := keys[..|keys| - 1];
      TermsFoundSpec(cl, init);
      assert keys == init + [keys[|keys| - 1]];
    }
  }

  // ------------------------------------------------------------- scoring

  /** The result entry of one chunk. */
  ghost function Evaluate(ch: Chunk, topic: Vector, keys: seq<string>, stop: seq<string>, sqrt: real -> real): ChunkResult
    requires forall i :: 0 <= i < |keys| ==> keys[i] != ""
  {
    var sim := Cosine(topic, TfVector(ch.text, stop), sqrt);
    ChunkResult(ch.index, ch.text, ch.wordCount, sim, Percent(sim), TermsFound(Lower(ch.text), keys))
  }

  /** The per-chunk loop: one result per chunk, in order. */
  method ScoreChunks(chunks: seq<Chunk>, topic: Vector, keys: seq<string>, stop: seq<string>, sqrt: real -> real)
    returns (results: seq<ChunkResult>)
    requires forall i :: 0 <= i < |keys| ==> keys[i] != ""
    ensures |results| == |chunks|
    ensures forall i :: 0 <= i < |chunks| ==> results[i] == Evaluate(chunks[i], topic, keys, stop, sqrt)
  {
    results := [];
    for i := 0 to |chunks|
      invariant |results| == i
      invariant forall k :: 0 <= k < i ==> results[k] == Evaluate(chunks[k], topic, keys, stop, sqrt)
    {
      var res := EvaluateChunk(chunks[i], topic, keys, stop, sqrt);
      EvaluatedSnoc(results, res, chunks, i, topic, keys, stop, sqrt);
      results := results + [res];
    }
  }

  /** Appending the next chunk's result extends the evaluated prefix. */
  lemma EvaluatedSnoc(results: seq<ChunkResult>, res: ChunkResult, chunks: seq<Chunk>, i: nat,
                      topic: Vector, keys: seq<string>, stop: seq<string>, sqrt: real -> real)
    requires forall k :: 0 <= k < |keys| ==> keys[k] != ""
    requires |results| == i < |chunks|
    requires forall k :: 0 <= k < i ==> results[k] == Evaluate(chunks[k], topic, keys, stop, sqrt)
    requires res == Evaluate(chunks[i], topic, keys, stop, sqrt)
    ensures forall k :: 0 <= k < i + 1 ==> (results + [res])[k] == Evaluate(chunks[k], topic, keys, stop, sqrt)
  {}

  /** The loop body: similarity, percentage and highlight list of one chunk. */
  method EvaluateChunk(ch: Chunk, topic: Vector, keys: seq<string>, stop: seq<string>, sqrt: real -> real)
    returns (res: ChunkResult)
    requires forall i :: 0 <= i < |keys| ==> keys[i] != ""
    ensures res == Evaluate(ch, topic, keys, stop, sqrt)
  {
    var cv := BuildTfVector(ch.text, stop);
    var sim := CosineSimilarity(topic, cv, sqrt);
    var cl := Lower(ch.text);
    var tf := FindTerms(cl, keys);
    res := ChunkResult(ch.index, ch.text, ch.wordCount, sim, Percent(sim), tf);
  }

  function SimilarityKey(c: ChunkResult): real { c.similarity }

  function PercentKey(c: ChunkResult): real { c.similarityPercent }

  /** The mean similarity, 0 without chunks. */
  function Mean(sims: seq<real>): real
  {
    if |sims| > 0 then Sum(sims) / |sims| as real else 0.0
  }

  /** The report built from the sorted results. */
  function Summary(phrase: string, sorted: seq<ChunkResult>): Report
  {
    var avg := Mean(Column(sorted, SimilarityKey));
    var ps := Column(sorted, PercentKey);
    Report(phrase, sorted, |sorted|, PhpRound(avg, 4), Percent(avg),
           if |ps| > 0 then MaxOf(ps) else 0.0,
           if |ps| > 0 then MinOf(ps) else 0.0)
  }

  // ---------------------------------------------------------- the handler

  /** Every topic key is non-empty: tokens have at least three characters
      and bigrams contain a space. */
  lemma TopicKeysNonEmpty(phrase: string, stop: seq<string>)
    ensures forall i :: 0 <= i < |TopicKeys(phrase, stop)| ==> TopicKeys(phrase, stop)[i] != ""
  {
    var toks, bgs := Tokenize(phrase, stop), Bigrams(Pieces(Lower(phrase)));
    TokenShape(phrase, stop);
    forall i | 0 <= i < |TopicKeys(phrase, stop)| ensures TopicKeys(phrase, stop)[i] != "" {
      var t := TopicKeys(phrase, stop)[i];
      assert t in toks + bgs;
      if t in bgs {
        assert ' ' in t;
      }
    }
  }

  /** The server-mode body of the chunk handler, from the extracted chunks
      and the phrase on, with the plugin's stop list; scored lists the
      results in chunk order, before the sort. */
  method AnalyzeChunks(chunks: seq<Chunk>, phrase: string, sqrt: real -> real)
    returns (r: Report, ghost scored: seq<ChunkResult>)
    ensures Evaluated(scored, chunks, phrase, StopList, sqrt)
    ensures Sorts(r, scored, phrase)
  {
    r, scored := Analyze(chunks, phrase, StopList, sqrt);
  }

  /** scored holds the result of each chunk, in chunk order. */
  ghost predicate Evaluated(scored: seq<ChunkResult>, chunks: seq<Chunk>, phrase: string, stop: seq<string>,
                            sqrt: real -> real)
  {
    var keys := TopicKeys(phrase, stop);
    && (forall i :: 0 <= i < |keys| ==> keys[i] != "")
    && |scored| == |chunks|
    && forall i :: 0 <= i < |chunks| ==> scored[i] == Evaluate(chunks[i], TopicVector(phrase, stop), keys, stop, sqrt)
  }

  /** The report lists the results sorted by similarity and summarises them. */
  ghost predicate Sorts(r: Report, scored: seq<ChunkResult>, phrase: string)
  {
    && multiset(r.chunks) == multiset(scored)
    && SortedDesc(r.chunks, SimilarityKey)
    && r == Summary(phrase, r.chunks)
  }

  method Analyze(chunks: seq<Chunk>, phrase: string, stop: seq<string>, sqrt: real -> real)
    returns (r: Report, ghost scored: seq<ChunkResult>)
    ensures Evaluated(scored, chunks, phrase, stop, sqrt)
    ensures Sorts(r, scored, phrase)
  {
    var topic := BuildTopicVector(phrase, stop);
    var keys := TopicKeys(phrase, stop);
    TopicKeysNonEmpty(phrase, stop);
    var results := ScoreChunks(chunks, topic, keys, stop, sqrt);
    scored := results;
    results := SortDesc(results, SimilarityKey);
    r := Summary(phrase, results);
  }

  // ----------------------------------------------------------- lemmas

  /** The report holds each chunk once: as many results as chunks, and the
      same chunk numbers. */
  lemma ReportPermutes(r: Report, scored: seq<ChunkResult>, chunks: seq<Chunk>)
    requires |scored| == |chunks| && forall i :: 0 <= i < |chunks| ==> scored[i].index == chunks[i].index
    requires multiset(r.chunks) == multiset(scored) && r.chunkCount == |r.chunks|
    ensures r.chunkCount == |r.chunks| == |chunks|
    ensures forall c :: c in r.chunks <==> c in scored
    ensures (set c | c in r.chunks :: c.index) == (set ch | ch in chunks :: ch.index)
  {
    assert |r.chunks| == |multiset(r.chunks)| == |scored|;
    forall c ensures c in r.chunks <==> c in scored {
      assert c in r.chunks <==> c in multiset(r.chunks);
    }
    SameIndices(r.chunks, scored, chunks);
  }

  lemma SameIndices(sorted: seq<ChunkResult>, scored: seq<ChunkResult>, chunks: seq<Chunk>)
    requires |scored| == |chunks| && forall i :: 0 <= i < |chunks| ==> scored[i].index == chunks[i].index
    requires forall c :: c in sorted <==> c in scored
    ensures (set c | c in sorted :: c.index) == (set ch | ch in chunks :: ch.index)
  {
    forall c | c in sorted ensures c.index in (set ch | ch in chunks :: ch.index) {
      var i :| 0 <= i < |scored| && scored[i] == c;
      assert chunks[i] in chunks;
    }
    forall ch | ch in chunks ensures ch.index in (set c | c in sorted :: c.index) {
      var i :| 0 <= i < |chunks| && chunks[i] == ch;
      assert scored[i] in scored;
    }
  }

  /** Scoring keeps each chunk's number. */
  lemma EvaluatedIndices(scored: seq<ChunkResult>, chunks: seq<Chunk>, phrase: string, stop: seq<string>,
                         sqrt: real -> real)
    requires Evaluated(scored, chunks, phrase, stop, sqrt)
    ensures |scored| == |chunks| && forall i :: 0 <= i < |chunks| ==> scored[i].index == chunks[i].index
  {}

  /** A chunk's similarity and percentage are non-negative. */
  lemma SimilarityNonNegative(ch: Chunk, topic: Vector, keys: seq<string>, stop: seq<string>, sqrt: real -> real)
    requires IsSqrt(sqrt) && NonNegative(topic)
    requires forall i :: 0 <= i < |keys| ==> keys[i] != ""
    ensures var c := Evaluate(ch, topic, keys, stop, sqrt);
      c.similarity >= 0.0 && c.similarityPercent >= 0.0
  {
    var tf := TfVector(ch.text, stop);
    TfWeightRange(ch.text, stop);
    CosineNonNegative(topic, tf, sqrt);
    var sim := Cosine(topic, tf, sqrt);
    MulMono(0.0, sim, 100.0);
    PhpRoundMonotone(0.0, sim * 100.0, 1);
    PhpRoundZero(1);
  }

  /** Without chunks, the average, the best and the worst are all 0. */
  lemma EmptyReport(phrase: string)
    ensures var r := Summary(phrase, []);
      r.chunkCount == 0 && r.averageSimilarity == 0.0 && r.averagePercent == 0.0 &&
      r.maxPercent == 0.0 && r.minPercent == 0.0
  {
    PhpRoundZero(4);
    PhpRoundZero(1);
  }

  /** With chunks, the best and the worst percentages bound every chunk's
      percentage and are reached by some chunk. */
  lemma ExtremesBound(phrase: string, sorted: seq<ChunkResult>)
    requires sorted != []
    ensures var r := Summary(phrase, sorted);
      && (exists c :: c in sorted && c.similarityPercent == r.maxPercent)
      && (exists c :: c in sorted && c.similarityPercent == r.minPercent)
      && forall c :: c in sorted ==> r.minPercent <= c.similarityPercent <= r.maxPercent
  {
    var ps := Column(sorted, PercentKey);
    forall c | c in sorted ensures c.similarityPercent in ps {
      var i :| 0 <= i < |sorted| && sorted[i] == c;
      assert ps[i] == c.similarityPercent;
    }
    var hi, lo := MaxOf(ps), MinOf(ps);
    var i :| 0 <= i < |ps| && ps[i] == hi;
    assert sorted[i] in sorted;
    var j :| 0 <= j < |ps| && ps[j] == lo;
    assert sorted[j] in sorted;
  }
}

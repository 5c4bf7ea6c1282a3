/** The request side of the two analysis handlers and of the post summary:
    the guard on the post id and the phrase, the choice between returning a
    payload for the browser and scoring on the server, and the reading time. */
module Handlers {
  import opened Numeric
  import opened Chars
  import opened Collections
  import opened Tokenizer
  import opened Chunks
  import opened Settings
  import TermVectors
  import Topic
  import WordReport
  import ChunkReport

  /** A post as the handlers read it: its plain text and its paragraph
      texts, both already stripped of markup and decoded. */
  datatype Post = Post(plainText: string, paragraphs: seq<string>)

  datatype Option<T> = None | Some(value: T)

  type WordScore = WordReport.WordScore

  /** What a handler sends back. */
  datatype Response =
    | Failure(message: string)
    | BrowserText(phrase: string, text: string)
    | BrowserChunks(phrase: string, chunks: seq<Chunk>)
    | Words(wordReport: WordReport.Report)
    | ChunkList(chunkReport: ChunkReport.Report)

  /** The guard of both handlers: the post id is 0 or the phrase is empty
      to PHP. */
  predicate MissingData(pid: nat, phrase: string)
  {
    pid == 0 || PhpEmpty(phrase)
  }

  /** The word-relevance handler: the guard, the post lookup, then either
      the browser payload or the server report. */
  method HandleWords(pid: nat, phrase: string, post: Option<Post>, opts: Options, sqrt: real -> real)
    returns (resp: Response, ghost ranked: seq<WordScore>)
    ensures MissingData(pid, phrase) ==> resp == Failure("Missing data")
    ensures !MissingData(pid, phrase) && post.None? ==> resp == Failure("Not found")
    ensures !MissingData(pid, phrase) && post.Some? && opts.mode == "browser" ==>
      resp == BrowserText(phrase, post.value.plainText)
    ensures !MissingData(pid, phrase) && post.Some? && opts.mode != "browser" ==>
      && resp.Words?
      && WordReport.Summarises(resp.wordReport, ranked, phrase,
           TermVectors.Cosine(Topic.TopicVector(phrase, StopList), TermVectors.TfVector(post.value.plainText, StopList), sqrt))
      && WordReport.Ranks(ranked, Counts(Tokenize(post.value.plainText, StopList)), Topic.TopicVector(phrase, StopList),
           Pieces(Lower(post.value.plainText)), StopList, sqrt)
  {
    ranked := [];
    if pid == 0 || PhpEmpty(phrase) {
      resp := Failure("Missing data");
    } else if post.None? {
      resp := Failure("Not found");
    } else if opts.mode == "browser" {
      resp := BrowserText(phrase, post.value.plainText);
    } else {
      var r;
      r, ranked := WordReport.AnalyzeWords(post.value.plainText, phrase, sqrt);
      resp := Words(r);
    }
  }

  /** The chunk handler: the guard, the post lookup, then either the
      extracted chunks for the browser or the server report. */
  method HandleChunks(pid: nat, phrase: string, post: Option<Post>, opts: Options, sqrt: real -> real)
    returns (resp: Response, ghost chunks: seq<Chunk>, ghost scored: seq<ChunkReport.ChunkResult>)
    ensures MissingData(pid, phrase) ==> resp == Failure("Missing data")
    ensures !MissingData(pid, phrase) && post.None? ==> resp == Failure("Not found")
    ensures !MissingData(pid, phrase) && post.Some? ==> Extracted(chunks, post.value.paragraphs)
    ensures !MissingData(pid, phrase) && post.Some? && opts.mode == "browser" ==>
      resp == BrowserChunks(phrase, chunks)
    ensures !MissingData(pid, phrase) && post.Some? && opts.mode != "browser" ==>
      && resp.ChunkList?
      && ChunkReport.Evaluated(scored, chunks, phrase, StopList, sqrt)
      && ChunkReport.Sorts(resp.chunkReport, scored, phrase)
  {
    chunks, scored := [], [];
    if pid == 0 || PhpEmpty(phrase) {
      resp := Failure("Missing data");
    } else if post.None? {
      resp := Failure("Not found");
    } else {
      var cs := ExtractChunks(post.value.paragraphs);
      chunks := cs;
      if opts.mode == "browser" {
        resp := BrowserChunks(phrase, cs);
      } else {
        var r;
        r, scored := ChunkReport.AnalyzeChunks(cs, phrase, sqrt);
        resp := ChunkList(r);
      }
    }
  }

  /** chunks are the extracted chunks of the paragraphs. */
  ghost predicate Extracted(chunks: seq<Chunk>, paragraphs: seq<string>)
  {
    |chunks| == |Filter(paragraphs, Keeps)| &&
    forall i :: 0 <= i < |chunks| ==> chunks[i] == MakeChunk(i, Filter(paragraphs, Keeps)[i])
  }

  /** The guard lets "0" through neither as a phrase nor as a post id, and
      lets any other non-empty phrase through with a non-zero id. */
  lemma GuardExamples()
    ensures MissingData(7, "0") && MissingData(7, "") && MissingData(0, "seo")
    ensures !MissingData(7, "00") && !MissingData(7, "seo")
  {
    assert "00" != "0" && "seo" != "0";
  }

  // -------------------------------------------------------- reading time

  /** max(1, round(words / 200)): minutes at 200 words a minute, at least
      1; words is the number of whitespace-separated pieces of the plain
      text (WordCount). */
  function ReadingTime(words: nat): (minutes: real)
    ensures minutes >= 1.0
  {
    Max(1.0, PhpRound(words as real / 200.0, 0))
  }

  /** Longer texts never read faster. */
  lemma ReadingTimeMonotone(m: nat, n: nat)
    requires m <= n
    ensures ReadingTime(m) <= ReadingTime(n)
  {
    DivMono(m as real, n as real, 200.0);
    PhpRoundMonotone(m as real / 200.0, n as real / 200.0, 0);
  }

  /** Fewer than 300 words read in one minute; from 300 words on, the
      minutes are the rounded quotient. */
  lemma ReadingTimeValues(n: nat)
    ensures n < 300 ==> ReadingTime(n) == 1.0
    ensures n >= 300 ==> ReadingTime(n) == (HalfUp(n as real / 200.0)) as real
  {
    assert Pow10(0) == 1.0;
    var q := n as real / 200.0;
    assert PhpRound(q, 0) == HalfUp(q * 1.0) as real / 1.0;
    assert q * 1.0 == q;
    if n < 300 {
      DivMono(n as real, 299.0, 200.0);
      assert HalfUp(q) <= 1;
    } else {
      DivMono(300.0, n as real, 200.0);
      assert HalfUp(q) >= 2;
    }
  }
}

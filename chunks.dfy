/** The filter and numbering step of chunk extraction, from the paragraph
    texts already stripped of markup, trimmed and entity-decoded. */
module Chunks {
  import opened Collections
  import opened Chars

  /** A paragraph shorter than this many characters (or equal) is dropped. */
  const MinChunkLength: nat := 15

  datatype Chunk = Chunk(index: nat, text: string, wordCount: nat, charCount: nat)

  /** PHP's empty() on a string: true for "" and for "0". */
  predicate PhpEmpty(s: string)
  {
    s == "" || s == "0"
  }

  /** The paragraphs the extractor keeps. */
  predicate Keeps(t: string)
  {
    !PhpEmpty(t) && |t| > MinChunkLength
  }

  /** count(preg_split('/\s+/', t, -1, PREG_SPLIT_NO_EMPTY)). */
  function WordCount(t: string): nat
  {
    |Runs(t, (c: char) => !IsPcreSpace(c))|
  }

  function MakeChunk(index: nat, t: string): Chunk
  {
    Chunk(index, t, WordCount(t), |t|)
  }

  /** The extraction loop over the paragraph texts. */
  method ExtractChunks(paragraphs: seq<string>) returns (chunks: seq<Chunk>)
    ensures |chunks| == |Filter(paragraphs, Keeps)|
    ensures forall i :: 0 <= i < |chunks| ==> chunks[i] == MakeChunk(i, Filter(paragraphs, Keeps)[i])
  {
    chunks := [];
    var idx: nat := 0;
    for k := 0 to |paragraphs|
      invariant idx == |chunks| == |Filter(paragraphs[..k], Keeps)|
      invariant forall i :: 0 <= i < |chunks| ==> chunks[i] == MakeChunk(i, Filter(paragraphs[..k], Keeps)[i])
    {
      var t := paragraphs[k];
      ExtractStep(paragraphs, k, chunks);
      if !PhpEmpty(t) && |t| > MinChunkLength {
        chunks := chunks + [MakeChunk(idx, t)];
        idx := idx + 1;
      }
    }
    assert paragraphs[..|paragraphs|] == paragraphs;
  }

  /** One more paragraph adds its chunk, numbered next, exactly when it is
      kept. */
  lemma ExtractStep(paragraphs: seq<string>, k: nat, chunks: seq<Chunk>)
    requires k < |paragraphs|
    requires |chunks| == |Filter(paragraphs[..k], Keeps)|
    requires forall i :: 0 <= i < |chunks| ==> chunks[i] == MakeChunk(i, Filter(paragraphs[..k], Keeps)[i])
    ensures var t, next := paragraphs[k], Filter(paragraphs[..k + 1], Keeps);
      if Keeps(t) then
        |chunks + [MakeChunk(|chunks|, t)]| == |next| &&
        forall i :: 0 <= i < |chunks| + 1 ==> (chunks + [MakeChunk(|chunks|, t)])[i] == MakeChunk(i, next[i])
      else
        |chunks| == |next| && forall i :: 0 <= i < |chunks| ==> chunks[i] == MakeChunk(i, next[i])
  {
    var t := paragraphs[k];
    FilterSnoc(paragraphs[..k], t, Keeps);
    assert paragraphs[..k + 1] == paragraphs[..k] + [t];
  }

  // ----------------------------------------------------------- lemmas

  /** "0" is too short to be kept anyway: the extractor keeps exactly the
      paragraphs longer than MinChunkLength characters. */
  lemma KeepsByLength(t: string)
    ensures Keeps(t) <==> |t| > MinChunkLength
  {
    if |t| > MinChunkLength {
      assert t != "" && t != "0";
    }
  }

  /** A chunk has no more words than characters, and at least one word as
      soon as it holds a non-space character. */
  lemma WordCountBounds(t: string)
    ensures WordCount(t) <= |t|
    ensures (exists i :: 0 <= i < |t| && !IsPcreSpace(t[i])) ==> WordCount(t) >= 1
  {
    var inWord := (c: char) => !IsPcreSpace(c);
    var rs := Runs(t, inWord);
    RunsShape(t, inWord);
    RunsCover(t, inWord);
    RunsAtMostConcat(rs);
    if exists i :: 0 <= i < |t| && !IsPcreSpace(t[i]) {
      var i :| 0 <= i < |t| && !IsPcreSpace(t[i]);
      FilterKeeps(t, inWord, i);
    }
  }

  /** Every extracted chunk is numbered by its position, is longer than
      MinChunkLength characters, and reports its own length. */
  lemma ChunkFacts(paragraphs: seq<string>, chunks: seq<Chunk>)
    requires |chunks| == |Filter(paragraphs, Keeps)|
    requires forall i :: 0 <= i < |chunks| ==> chunks[i] == MakeChunk(i, Filter(paragraphs, Keeps)[i])
    ensures forall i :: 0 <= i < |chunks| ==>
      chunks[i].index == i && chunks[i].text in paragraphs &&
      chunks[i].charCount == |chunks[i].text| > MinChunkLength &&
      chunks[i].wordCount <= chunks[i].charCount
  {
    var kept := Filter(paragraphs, Keeps);
    forall i | 0 <= i < |chunks|
      ensures chunks[i].text in paragraphs && |chunks[i].text| > MinChunkLength
      ensures chunks[i].wordCount <= chunks[i].charCount
    {
      assert kept[i] in kept;
      WordCountBounds(kept[i]);
    }
  }
}

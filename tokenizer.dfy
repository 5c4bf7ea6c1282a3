/** The server-side tokenizer: lowercase, split on everything outside the
    token alphabet, trim hyphens from each piece, and keep the pieces of at
    least three characters that are not stop words. The TF builder, the
    entity list, the context window and the word-frequency map of the
    relevance report all apply this same filter. */
module Tokenizer {
  import opened Chars
  import opened Collections

  /** ca_get_stop_words: Polish and English stop words, as listed (the
      list repeats a few words, which makes no difference to membership). */
  const StopList: seq<string> := [
    "i", "w", "na", "z", "do", "nie", "się", "to", "jest", "że", "o", "jak", "ale", "za",
    "co", "od", "po", "tak", "jej", "jego", "te", "ten", "ta", "tym", "tego", "tej",
    "tych", "był", "była", "było", "były", "być", "może", "ich", "go", "mu", "mi", "ci",
    "nam", "was", "im", "ją", "je", "nas", "ze", "są", "by", "już", "tylko", "też", "ma",
    "czy", "więc", "dla", "gdy", "przed", "przez", "przy", "bez", "pod", "nad", "między",
    "ku", "lub", "albo", "oraz", "a", "u", "we", "tu", "tam", "raz", "no", "ani", "bo",
    "pan", "pani", "jako", "sobie", "który", "która", "które", "których", "którym",
    "którą", "czym", "gdzie", "kiedy", "bardzo", "będzie", "można", "mnie", "mają",
    "każdy", "inne", "innych", "jednak", "tego", "tym", "tę", "tą", "nimi", "nich",
    "niego", "niej", "nią", "nim", "jeszcze", "teraz", "tutaj", "wtedy", "zawsze", "nigdy",
    "często", "czasem", "potem", "ponieważ", "więcej", "mniej", "dużo", "mało", "każda",
    "każde", "the", "a", "an", "and", "or", "but", "in", "on", "at", "to", "for", "of",
    "with", "by", "from", "is", "are", "was", "were", "be", "been", "being", "have", "has",
    "had", "do", "does", "did", "will", "would", "shall", "should", "may", "might", "can",
    "could", "this", "that", "these", "those", "it", "its", "he", "she", "they", "we",
    "you", "me", "him", "her", "us", "them", "my", "your", "his", "our", "their", "not",
    "no", "so", "if", "then", "than", "too", "very", "just", "about", "up", "out", "all",
    "also"]

  predicate IsStopWord(w: string)
  {
    InList(w, StopList)
  }

  /** w occurs in ws (written recursively, so that the solver looks into
      the long list only when a proof needs it). */
  predicate InList(w: string, ws: seq<string>)
  {
    ws != [] && (ws[0] == w || InList(w, ws[1..]))
  }

  /** mb_strtolower. */
  function Lower(s: string): (r: string)
    ensures |r| == |s|
    ensures forall i :: 0 <= i < |s| ==> r[i] == ToLower(s[i])
  {
    seq(|s|, i requires 0 <= i < |s| => ToLower(s[i]))
  }

  /** preg_split('/[^\p{L}\p{N}\-]+/u', s, -1, PREG_SPLIT_NO_EMPTY). */
  function Pieces(s: string): seq<string>
  {
    Runs(s, IsWordChar)
  }

  /** trim($w, '-'): w without its leading and trailing hyphens; only
      hyphens are cut off, and only at the ends. */
  function TrimHyphens(w: string): (r: string)
    ensures r == [] || (r[0] != '-' && r[|r| - 1] != '-')
    ensures forall c :: c in r ==> c in w
  {
    Trim(w, '-')
  }

  /** trim($w, '-') cuts off hyphens only: it is a slice of w with nothing
      but hyphens before and after it. */
  lemma TrimHyphensSlice(w: string)
    ensures StrippedOf(w, '-', TrimHyphens(w))
  {
    TrimSlice(w, '-');
  }

  /** The filter: at least three characters and not a stop word. */
  predicate Keep(w: string, stop: seq<string>)
  {
    |w| >= 3 && !InList(w, stop)
  }

  /** The hyphen-trimmed pieces that pass the filter, in order. */
  function KeptTokens(pieces: seq<string>, stop: seq<string>): seq<string>
  {
    if pieces == [] then []
    else
      var w := TrimHyphens(pieces[|pieces| - 1]);
      KeptTokens(pieces[..|pieces| - 1], stop) + (if Keep(w, stop) then [w] else [])
  }

  /** The tokens of a text, in order of appearance. */
  function Tokenize(text: string, stop: seq<string>): seq<string>
  {
    KeptTokens(Pieces(Lower(text)), stop)
  }

  /** A token is exactly a trimmed piece that passes the filter. */
  lemma {:induction false} KeptTokensMembers(pieces: seq<string>, stop: seq<string>)
    ensures forall t :: t in KeptTokens(pieces, stop) <==>
      Keep(t, stop) && exists p :: p in pieces && t == TrimHyphens(p)
  {
    if pieces != [] {
      var prefix := pieces[..|pieces| - 1];
      KeptTokensMembers(prefix, stop);
      assert pieces == prefix + [pieces[|pieces| - 1]];
      forall t | Keep(t, stop) && exists p :: p in pieces && t == TrimHyphens(p)
        ensures t in KeptTokens(pieces, stop)
      {
        var p :| p in pieces && t == TrimHyphens(p);
        if p != pieces[|pieces| - 1] {
          assert p in prefix;
        }
      }
    }
  }

  /** Every token passes the filter, neither starts nor ends with '-', and
      consists of token-alphabet characters only (so it holds no space). */
  lemma TokenShape(text: string, stop: seq<string>)
    ensures forall t :: t in Tokenize(text, stop) ==>
      Keep(t, stop) && t[0] != '-' && t[|t| - 1] != '-' && ' ' !in t
      && forall c :: c in t ==> IsWordChar(c)
  {
    KeptTokensMembers(Pieces(Lower(text)), stop);
    TokenAlphabet(text, stop);
    assert !IsWordChar(' ');
  }

  lemma TokenAlphabet(text: string, stop: seq<string>)
    ensures forall t :: t in Tokenize(text, stop) ==> forall c :: c in t ==> IsWordChar(c)
  {
    var pieces := Pieces(Lower(text));
    KeptTokensMembers(pieces, stop);
    RunsShape(Lower(text), IsWordChar);
    forall t | t in Tokenize(text, stop)
      ensures forall c :: c in t ==> IsWordChar(c)
    {
      var p :| p in pieces && t == TrimHyphens(p);
      assert forall c :: c in p ==> IsWordChar(c);
    }
  }

  /** The counting loop shared by ca_build_tf_vector, ca_extract_entities
      and the relevance report: trims every piece, skips those the filter
      rejects, and counts the rest per word and in total. */
  method CountTokens(pieces: seq<string>, stop: seq<string>) returns (counts: map<string, nat>, total: nat)
    ensures counts == Counts(KeptTokens(pieces, stop))
    ensures total == |KeptTokens(pieces, stop)|
  {
    counts, total := map[], 0;
    for i := 0 to |pieces|
      invariant counts == Counts(KeptTokens(pieces[..i], stop))
      invariant total == |KeptTokens(pieces[..i], stop)|
    {
      KeptTokensSnoc(pieces, i, stop);
      var w := TrimHyphens(pieces[i]);
      if Keep(w, stop) {
        CountsSnoc(KeptTokens(pieces[..i], stop), w);
        counts := Inc(counts, w);
        total := total + 1;
      } else {
        assert KeptTokens(pieces[..i + 1], stop) == KeptTokens(pieces[..i], stop);
      }
    }
    assert pieces[..|pieces|] == pieces;
  }

  lemma KeptTokensSnoc(pieces: seq<string>, i: int, stop: seq<string>)
    requires 0 <= i < |pieces|
    ensures KeptTokens(pieces[..i + 1], stop) == KeptTokens(pieces[..i], stop) +
      (if Keep(TrimHyphens(pieces[i]), stop) then [TrimHyphens(pieces[i])] else [])
  {
    assert pieces[..i + 1][..i] == pieces[..i];
  }
}

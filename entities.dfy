/** The entity list: the most frequent filtered tokens of a text, after
    standalone digit runs are removed, each with its share of all kept
    tokens as a percentage. */
module Entities {
  import opened Numeric
  import opened Chars
  import opened Collections
  import opened Tokenizer
  import opened TermVectors

  /** At most this many entities are listed. */
  const MaxEntities: nat := 150

  datatype Entity = Entity(term: string, count: nat, frequency: real)

  // --------------------------------------------------- digit-run removal

  /** The end of the run of PCRE word characters that starts at i. */
  function WordEnd(s: string, i: nat): (j: nat)
    requires i <= |s|
    ensures i <= j <= |s| && (j == |s| || !IsPcreWord(s[j]))
    ensures forall k :: i <= k < j ==> IsPcreWord(s[k])
    decreases |s| - i
  {
    if i < |s| && IsPcreWord(s[i]) then WordEnd(s, i + 1) else i
  }

  predicate AllDigits(w: string)
  {
    forall k :: 0 <= k < |w| ==> IsAsciiDigit(w[k])
  }

  /** The text from position i on, a run start, with every maximal run of
      word characters made only of ASCII digits deleted. */
  function DropFrom(s: string, i: nat): string
    requires i <= |s|
    decreases |s| - i
  {
    if i == |s| then []
    else if IsPcreWord(s[i]) then
      var j := WordEnd(s, i);
      (if AllDigits(s[i..j]) then [] else s[i..j]) + DropFrom(s, j)
    else [s[i]] + DropFrom(s, i + 1)
  }

  /** preg_replace('/\b\d+\b/', '', s): outside UTF mode a word character
      is an ASCII letter, digit or '_', so a digit run is deleted exactly
      when it is a whole word. */
  function DropDigitRuns(s: string): string
  {
    DropFrom(s, 0)
  }

  /** Only digits are deleted: the characters that are not ASCII digits
      all survive, in order. */
  lemma {:induction false} DropFromKeepsNonDigits(s: string, i: nat)
    requires i <= |s|
    ensures Filter(DropFrom(s, i), NotDigit) == Filter(s[i..], NotDigit)
    decreases |s| - i
  {
    if i < |s| {
      if IsPcreWord(s[i]) {
        var j := WordEnd(s, i);
        DropFromKeepsNonDigits(s, j);
        var kept := if AllDigits(s[i..j]) then [] else s[i..j];
        assert DropFrom(s, i) == kept + DropFrom(s, j);
        assert s[i..] == s[i..j] + s[j..];
        assert Filter(kept, NotDigit) == Filter(s[i..j], NotDigit) by {
          if AllDigits(s[i..j]) {
            FilterNone(s[i..j], NotDigit);
          }
        }
        FilterConcat(s[i..j], s[j..], NotDigit);
        FilterConcat(kept, DropFrom(s, j), NotDigit);
      } else {
        DropFromKeepsNonDigits(s, i + 1);
        assert DropFrom(s, i) == [s[i]] + DropFrom(s, i + 1);
        assert s[i..] == [s[i]] + s[i + 1..];
        FilterConcat([s[i]], s[i + 1..], NotDigit);
        FilterConcat([s[i]], DropFrom(s, i + 1), NotDigit);
      }
    } else {
      assert s[i..] == [];
    }
  }

  predicate NotDigit(c: char) { !IsAsciiDigit(c) }

  /** Removing digit runs keeps every other character in order. */
  lemma DropKeepsNonDigits(s: string)
    ensures Filter(DropDigitRuns(s), NotDigit) == Filter(s, NotDigit)
  {
    DropFromKeepsNonDigits(s, 0);
    assert s[0..] == s;
  }

  /** A text without digits is left alone. */
  lemma {:induction false} DropFromNoDigits(s: string, i: nat)
    requires i <= |s| && forall k :: 0 <= k < |s| ==> !IsAsciiDigit(s[k])
    ensures DropFrom(s, i) == s[i..]
    decreases |s| - i
  {
    if i < |s| {
      if IsPcreWord(s[i]) {
        var j := WordEnd(s, i);
        DropFromNoDigits(s, j);
        assert !IsAsciiDigit(s[i]);
        assert s[i..] == s[i..j] + s[j..];
      } else {
        DropFromNoDigits(s, i + 1);
        assert s[i..] == [s[i]] + s[i + 1..];
      }
    }
  }

  /** A free-standing year is deleted. */
  lemma DropYear()
    ensures DropDigitRuns("in 2024 we") == "in  we"
  {
    var s := "in 2024 we";
    assert WordEnd(s, 8) == 10 && !IsAsciiDigit(s[8]);
    assert DropFrom(s, 8) == "we";
    assert DropFrom(s, 7) == " we";
    assert WordEnd(s, 3) == 7 && AllDigits(s[3..7]);
    assert DropFrom(s, 3) == " we";
    assert DropFrom(s, 2) == "  we";
    assert WordEnd(s, 0) == 2 && !IsAsciiDigit(s[0]);
  }

  /** A number inside a word is kept. */
  lemma DropKeepsWordNumber()
    ensures DropDigitRuns("route66") == "route66"
  {
    var t := "route66";
    assert WordEnd(t, 0) == 7 && !IsAsciiDigit(t[0]);
    assert DropFrom(t, 7) == [];
  }

  /** '_' is a word character to PCRE, so "_123_" is a word of its own and
      stays whole; the tokenizer, which splits on '_', later yields the
      digit-only token "123" from it. */
  lemma DropKeepsUnderscored()
    ensures DropDigitRuns("_123_") == "_123_"
  {
    var u := "_123_";
    assert WordEnd(u, 0) == 5 && !IsAsciiDigit(u[0]);
    assert DropFrom(u, 5) == [];
  }

  // ------------------------------------------------------------ the list

  /** The tokens the entity list counts. */
  function EntityTokens(text: string, stop: seq<string>): seq<string>
  {
    KeptTokens(Pieces(DropDigitRuns(Lower(text))), stop)
  }

  /** round($count / $valid * 100, 2), or 0 when nothing was kept. */
  function Frequency(count: nat, valid: nat): real
  {
    if valid > 0 then PhpRound(count as real / valid as real * 100.0, 2) else 0.0
  }

  /** ca_extract_entities, with the plugin's stop list. */
  method ExtractEntities(text: string) returns (ents: seq<Entity>)
    ensures Lists(ents, Counts(EntityTokens(text, StopList)), |EntityTokens(text, StopList)|)
  {
    ents := Extract(text, StopList);
  }

  /** ents lists, by non-increasing count, the (at most MaxEntities) most
      frequent tokens, each with its count and frequency; no token left
      out occurs more often than one listed. */
  ghost predicate Lists(ents: seq<Entity>, freq: map<string, nat>, valid: nat)
  {
    && |ents| == (if |freq| < MaxEntities then |freq| else MaxEntities)
    && (forall e :: e in ents ==> e.term in freq && e.count == freq[e.term] && e.frequency == Frequency(e.count, valid))
    && (forall i, j :: 0 <= i < j < |ents| ==> ents[i].term != ents[j].term)
    && (forall i, j :: 0 <= i < j < |ents| ==> ents[i].count >= ents[j].count)
    && (forall k :: k in freq && (forall e :: e in ents ==> e.term != k) ==>
          forall e :: e in ents ==> freq[k] <= e.count)
  }

  method Extract(text: string, stop: seq<string>) returns (ents: seq<Entity>)
    ensures Lists(ents, Counts(EntityTokens(text, stop)), |EntityTokens(text, stop)|)
  {
    var cleaned := DropDigitRuns(Lower(text));
    var freq, valid := CountTokens(Pieces(cleaned), stop);
    var top := SelectTop(freq, MaxEntities);
    ents := [];
    for i := 0 to |top|
      invariant |ents| == i
      invariant forall k :: 0 <= k < i ==> ents[k] == Entity(top[k].0, top[k].1, Frequency(top[k].1, valid))
    {
      var (term, count) := top[i];
      var e := Entity(term, count, Frequency(count, valid));
      ListedSnoc(ents, e, top, i, valid);
      ents := ents + [e];
    }
    ListedFromTop(top, ents, freq, valid);
  }

  /** Appending the next pair's entity extends the listed prefix. */
  lemma ListedSnoc(ents: seq<Entity>, e: Entity, top: seq<(string, nat)>, i: nat, valid: nat)
    requires |ents| == i < |top|
    requires forall k :: 0 <= k < i ==> ents[k] == Entity(top[k].0, top[k].1, Frequency(top[k].1, valid))
    requires e == Entity(top[i].0, top[i].1, Frequency(top[i].1, valid))
    ensures forall k :: 0 <= k < i + 1 ==> (ents + [e])[k] == Entity(top[k].0, top[k].1, Frequency(top[k].1, valid))
  {}

  lemma ListedFromTop(top: seq<(string, nat)>, ents: seq<Entity>, freq: map<string, nat>, valid: nat)
    requires |top| == (if |freq| < MaxEntities then |freq| else MaxEntities)
    requires forall e :: e in top ==> e.0 in freq && e.1 == freq[e.0]
    requires forall i, j :: 0 <= i < j < |top| ==> top[i].0 != top[j].0
    requires forall i, j :: 0 <= i < j < |top| ==> top[i].1 >= top[j].1
    requires forall k :: k in freq && (forall e :: e in top ==> e.0 != k) ==> forall e :: e in top ==> freq[k] <= e.1
    requires |ents| == |top|
    requires forall k :: 0 <= k < |top| ==> ents[k] == Entity(top[k].0, top[k].1, Frequency(top[k].1, valid))
    ensures Lists(ents, freq, valid)
  {
    forall e | e in ents ensures e.term in freq && e.count == freq[e.term] && e.frequency == Frequency(e.count, valid) {
      var i :| 0 <= i < |ents| && ents[i] == e;
      assert top[i] in top;
    }
    forall k | k in freq && (forall e :: e in ents ==> e.term != k)
      ensures forall e :: e in ents ==> freq[k] <= e.count
    {
      forall t | t in top ensures t.0 != k {
        var i :| 0 <= i < |top| && top[i] == t;
        assert ents[i] in ents;
      }
      forall e | e in ents ensures freq[k] <= e.count {
        var i :| 0 <= i < |ents| && ents[i] == e;
        assert top[i] in top;
      }
    }
  }

  /** Every listed frequency lies in (0, 100]: a listed token occurs at
      least once and at most as often as all kept tokens together. */
  lemma FrequencyRange(ents: seq<Entity>, text: string, stop: seq<string>)
    requires Lists(ents, Counts(EntityTokens(text, stop)), |EntityTokens(text, stop)|)
    ensures forall e :: e in ents ==> 0.0 <= e.frequency <= 100.0 && e.count > 0
  {
    var toks := EntityTokens(text, stop);
    CountsSpec(toks);
    CountsAtMostLength(toks);
    forall e | e in ents ensures 0.0 <= e.frequency <= 100.0 && e.count > 0 {
      ShareBound(e.count, |toks|);
    }
  }

  /** A count of at most valid is at most 100 percent of it. */
  lemma ShareBound(count: nat, valid: nat)
    requires 0 < count <= valid
    ensures 0.0 <= Frequency(count, valid) <= 100.0
  {
    var x, n := count as real, valid as real;
    DivMono(0.0, x, n);
    DivMono(x, n, n);
    assert n / n == 1.0;
    MulMono(0.0, x / n, 100.0);
    MulMono(x / n, 1.0, 100.0);
    PhpRoundMonotone(0.0, x / n * 100.0, 2);
    PhpRoundMonotone(x / n * 100.0, 100.0, 2);
    PhpRoundZero(2);
    assert Pow10(2) == 100.0;
    assert HalfUp(100.0 * 100.0) == 10000;
  }
}

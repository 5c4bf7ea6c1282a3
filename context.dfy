/** The context-window vector of ca_build_context_vector: for every
    occurrence of a target word, the filtered tokens at most five positions
    before or after it (never the occurrence itself), counted and rescaled
    into shares like a TF vector. */
module Context {
  import opened Collections
  import opened Tokenizer
  import opened TermVectors

  const WindowRadius: nat := 5

  // ------------------------------------------------------ PHP array keys

  const PhpIntMax: nat := 9223372036854775807

  predicate IsAsciiDigitString(s: string)
  {
    forall i :: 0 <= i < |s| ==> '0' <= s[i] <= '9'
  }

  function DecimalValue(s: string): nat
    requires IsAsciiDigitString(s)
  {
    if s == [] then 0
    else DecimalValue(s[..|s| - 1]) * 10 + (s[|s| - 1] as int - '0' as int)
  }

  /** PHP stores a string array key that is a canonical decimal integer in
      the range of its 64-bit int as that int. Such a key, handed back by
      foreach, never compares identical (===) to a string. */
  predicate IsIntegerKey(k: string)
  {
    k == "0"
    || (|k| >= 1 && '1' <= k[0] <= '9' && IsAsciiDigitString(k) && DecimalValue(k) <= PhpIntMax)
    || (|k| >= 2 && k[0] == '-' && '1' <= k[1] <= '9' && IsAsciiDigitString(k[1..])
        && DecimalValue(k[1..]) <= PhpIntMax + 1)
  }

  /** `trim($w,'-') === $target`, where the target is an array key: an
      integer key never equals the string piece. */
  predicate Occurs(piece: string, target: string)
  {
    !IsIntegerKey(target) && TrimHyphens(piece) == target
  }

  // ----------------------------------------------------------- the spec

  /** The positions of the target among the pieces, in increasing order. */
  function Positions(words: seq<string>, target: string): (ps: seq<nat>)
    ensures forall k :: 0 <= k < |ps| ==> ps[k] < |words|
  {
    if words == [] then []
    else
      var n := |words| - 1;
      Positions(words[..n], target) + (if Occurs(words[n], target) then [n] else [])
  }

  function Lo(p: nat): nat
  {
    if p >= WindowRadius then p - WindowRadius else 0
  }

  function Hi(n: nat, p: nat): nat
    requires p < n
  {
    if p + WindowRadius <= n - 1 then p + WindowRadius else n - 1
  }

  /** The token contributed by position j of the window around p. */
  function KeptAt(words: seq<string>, p: nat, j: nat, stop: seq<string>): (r: seq<string>)
    requires j < |words|
    ensures |r| <= 1 && (j == p ==> r == [])
    ensures forall t :: t in r <==> j != p && t == TrimHyphens(words[j]) && Keep(t, stop)
  {
    if j == p then []
    else
      var w := TrimHyphens(words[j]);
      if Keep(w, stop) then [w] else []
  }

  /** The tokens of the window around p at positions Lo(p) .. j - 1. */
  function WindowTokens(words: seq<string>, p: nat, j: nat, stop: seq<string>): seq<string>
    requires p < |words| && Lo(p) <= j <= Hi(|words|, p) + 1
    decreases j
  {
    if j == Lo(p) then []
    else WindowTokens(words, p, j - 1, stop) + KeptAt(words, p, j - 1, stop)
  }

  function Window(words: seq<string>, p: nat, stop: seq<string>): seq<string>
    requires p < |words|
  {
    WindowTokens(words, p, Hi(|words|, p) + 1, stop)
  }

  predicate InRange(words: seq<string>, ps: seq<nat>)
  {
    forall k :: 0 <= k < |ps| ==> ps[k] < |words|
  }

  /** The windows of the given occurrences, one after another. */
  function ContextOver(words: seq<string>, ps: seq<nat>, stop: seq<string>): seq<string>
    requires InRange(words, ps)
  {
    if ps == [] then []
    else ContextOver(words, ps[..|ps| - 1], stop) + Window(words, ps[|ps| - 1], stop)
  }

  function ContextTokens(words: seq<string>, target: string, stop: seq<string>): seq<string>
  {
    ContextOver(words, Positions(words, target), stop)
  }

  /** The value of ca_build_context_vector for the pieces of a text. */
  function ContextVector(words: seq<string>, target: string, stop: seq<string>): Vector
  {
    var ctx := ContextTokens(words, target, stop);
    Normalize(Counts(ctx), |ctx|)
  }

  // --------------------------------------------------------- the method

  /** ca_build_context_vector: collects the positions, walks every window
      counting the filtered tokens, then rescales the counts. */
  method BuildContextVector(words: seq<string>, target: string, stop: seq<string>) returns (ctx: Vector)
    ensures ctx == ContextVector(words, target, stop)
  {
    var pos := FindPositions(words, target);
    var counts: map<string, nat> := map[];
    var total: nat := 0;
    for k := 0 to |pos|
      invariant counts == Counts(ContextOver(words, pos[..k], stop))
      invariant total == |ContextOver(words, pos[..k], stop)|
    {
      ContextOverSnoc(words, pos, k, stop);
      counts, total := CountWindow(words, pos[k], stop, counts, total, ContextOver(words, pos[..k], stop));
    }
    assert pos[..|pos|] == pos;
    ctx := Rescale(counts, total);
  }

  /** The first loop of ca_build_context_vector: the indices of the pieces
      whose trimmed form is the target. */
  method FindPositions(words: seq<string>, target: string) returns (pos: seq<nat>)
    ensures pos == Positions(words, target)
  {
    pos := [];
    for i := 0 to |words|
      invariant pos == Positions(words[..i], target)
    {
      assert words[..i + 1][..i] == words[..i];
      if Occurs(words[i], target) {
        pos := pos + [i];
      }
    }
    assert words[..|words|] == words;
  }

  /** The inner loop of ca_build_context_vector: counts the filtered tokens
      of the window around p on top of the counts of the tokens before. */
  method CountWindow(words: seq<string>, p: nat, stop: seq<string>, counts0: map<string, nat>, total0: nat,
                     ghost before: seq<string>)
    returns (counts: map<string, nat>, total: nat)
    requires p < |words|
    requires counts0 == Counts(before) && total0 == |before|
    ensures counts == Counts(before + Window(words, p, stop))
    ensures total == |before + Window(words, p, stop)|
  {
    counts, total := counts0, total0;
    var j := Lo(p);
    ghost var seen := before;
    assert before + WindowTokens(words, p, j, stop) == before;
    while j <= Hi(|words|, p)
      invariant Lo(p) <= j <= Hi(|words|, p) + 1
      invariant seen == before + WindowTokens(words, p, j, stop)
      invariant Tallied(counts, total, seen)
      decreases Hi(|words|, p) + 1 - j
    {
      CountStep(seen, before, words, p, j, stop);
      counts, total, seen := CountSlot(words, p, j, stop, counts, total, seen);
      j := j + 1;
    }
  }

  /** The body of the inner loop: position j counts its trimmed word unless
      it is the occurrence itself, too short or a stop word. */
  method CountSlot(words: seq<string>, p: nat, j: nat, stop: seq<string>, counts0: map<string, nat>, total0: nat,
                   ghost seen0: seq<string>)
    returns (counts: map<string, nat>, total: nat, ghost seen: seq<string>)
    requires j < |words| && Tallied(counts0, total0, seen0)
    ensures seen == seen0 + KeptAt(words, p, j, stop)
    ensures Tallied(counts, total, seen)
  {
    counts, total, seen := counts0, total0, seen0;
    if j != p {
      var w := TrimHyphens(words[j]);
      if Keep(w, stop) {
        TallyStep(counts, total, seen, w);
        counts := Inc(counts, w);
        total := total + 1;
        seen := seen + [w];
      }
    }
  }

  /** counts and total are the counts and the number of the tokens seen. */
  ghost predicate Tallied(counts: map<string, nat>, total: nat, seen: seq<string>)
  {
    counts == Counts(seen) && total == |seen|
  }

  lemma TallyStep(counts: map<string, nat>, total: nat, seen: seq<string>, w: string)
    requires Tallied(counts, total, seen)
    ensures Tallied(Inc(counts, w), total + 1, seen + [w])
  {
    CountsSnoc(seen, w);
  }

  /** One more position of a window: the accumulated tokens grow by what
      that position contributes. */
  lemma CountStep(acc: seq<string>, before: seq<string>, words: seq<string>, p: nat, j: nat, stop: seq<string>)
    requires p < |words| && Lo(p) <= j <= Hi(|words|, p)
    requires acc == before + WindowTokens(words, p, j, stop)
    ensures before + WindowTokens(words, p, j + 1, stop) == acc + KeptAt(words, p, j, stop)
  {}

  lemma ContextOverSnoc(words: seq<string>, pos: seq<nat>, k: nat, stop: seq<string>)
    requires InRange(words, pos) && k < |pos|
    ensures InRange(words, pos[..k]) && InRange(words, pos[..k + 1])
    ensures ContextOver(words, pos[..k + 1], stop) == ContextOver(words, pos[..k], stop) + Window(words, pos[k], stop)
  {
    assert pos[..k + 1][..k] == pos[..k];
  }

  // ----------------------------------------------------------- lemmas

  /** Position i is listed exactly when the target occurs there. */
  lemma {:induction false} PositionsSpec(words: seq<string>, target: string)
    ensures forall i :: i in Positions(words, target) <==> 0 <= i < |words| && Occurs(words[i], target)
  {
    if words != [] {
      var n := |words| - 1;
      PositionsSpec(words[..n], target);
      var last := if Occurs(words[n], target) then [n] else [];
      assert Positions(words, target) == Positions(words[..n], target) + last;
      forall i | 0 <= i < n
        ensures i in Positions(words, target) <==> Occurs(words[i], target)
      {
        assert words[..n][i] == words[i];
      }
    }
  }

  /** Without an occurrence of the target, and in particular for a target
      that PHP keeps as an integer key, the context vector is empty. */
  lemma ContextEmptyWithoutTarget(words: seq<string>, target: string, stop: seq<string>)
    requires forall i :: 0 <= i < |words| ==> !Occurs(words[i], target)
    ensures ContextVector(words, target, stop) == map[]
  {
    NoPositions(words, target);
  }

  lemma {:induction false} NoPositions(words: seq<string>, target: string)
    requires forall i :: 0 <= i < |words| ==> !Occurs(words[i], target)
    ensures Positions(words, target) == []
  {
    if words != [] {
      var n := |words| - 1;
      assert forall i :: 0 <= i < n ==> words[..n][i] == words[i];
      NoPositions(words[..n], target);
    }
  }

  lemma IntegerKeyHasNoContext(words: seq<string>, target: string, stop: seq<string>)
    requires IsIntegerKey(target)
    ensures ContextVector(words, target, stop) == map[]
  {
    ContextEmptyWithoutTarget(words, target, stop);
  }

  /** Each window yields at most ten tokens. */
  lemma {:induction false} WindowTokensSize(words: seq<string>, p: nat, j: nat, stop: seq<string>)
    requires p < |words| && Lo(p) <= j <= Hi(|words|, p) + 1
    ensures |WindowTokens(words, p, j, stop)| <= j - Lo(p) - (if p < j then 1 else 0)
    decreases j
  {
    if j > Lo(p) {
      WindowTokensSize(words, p, j - 1, stop);
    }
  }

  lemma {:induction false} ContextOverSize(words: seq<string>, ps: seq<nat>, stop: seq<string>)
    requires InRange(words, ps)
    ensures |ContextOver(words, ps, stop)| <= 10 * |ps|
  {
    if ps != [] {
      var n := |ps| - 1;
      var p := ps[n];
      assert InRange(words, ps[..n]);
      ContextOverSize(words, ps[..n], stop);
      WindowTokensSize(words, p, Hi(|words|, p) + 1, stop);
      assert |Window(words, p, stop)| <= 10;
    }
  }

  /** The counted total never exceeds ten per occurrence. */
  lemma ContextTotalBound(words: seq<string>, target: string, stop: seq<string>)
    ensures |ContextTokens(words, target, stop)| <= 10 * |Positions(words, target)|
  {
    ContextOverSize(words, Positions(words, target), stop);
  }

  /** Position q of a window (not the centre) with a filtered token. */
  predicate Neighbour(words: seq<string>, p: nat, q: nat, t: string, stop: seq<string>)
  {
    p < |words| && Lo(p) <= q <= Hi(|words|, p) && q != p
    && t == TrimHyphens(words[q]) && Keep(t, stop)
  }

  /** A token of the window up to j comes from the window up to j - 1 or
      from position j - 1. */
  lemma WindowTokensLast(words: seq<string>, p: nat, j: nat, t: string, stop: seq<string>)
    requires p < |words| && Lo(p) < j <= Hi(|words|, p) + 1
    requires t in WindowTokens(words, p, j, stop)
    ensures t in WindowTokens(words, p, j - 1, stop) || t in KeptAt(words, p, j - 1, stop)
  {
    var w, k := WindowTokens(words, p, j - 1, stop), KeptAt(words, p, j - 1, stop);
    assert WindowTokens(words, p, j, stop) == w + k;
  }

  /** A token of the window is kept at some position q before j. */
  lemma {:induction false} WindowTokensSound(words: seq<string>, p: nat, j: nat, t: string, stop: seq<string>)
      returns (q: nat)
    requires p < |words| && Lo(p) <= j <= Hi(|words|, p) + 1
    requires t in WindowTokens(words, p, j, stop)
    ensures Lo(p) <= q < j && t in KeptAt(words, p, q, stop)
    decreases j
  {
    assert j > Lo(p);
    WindowTokensLast(words, p, j, t, stop);
    if t in KeptAt(words, p, j - 1, stop) {
      q := j - 1;
    } else {
      q := WindowTokensSound(words, p, j - 1, t, stop);
    }
  }

  /** The token kept at position i of the window around p is a neighbour. */
  lemma KeptNeighbour(words: seq<string>, p: nat, i: nat, t: string, stop: seq<string>)
    requires p < |words| && Lo(p) <= i <= Hi(|words|, p)
    requires t in KeptAt(words, p, i, stop)
    ensures Neighbour(words, p, i, t, stop)
  {
  }

  lemma {:induction false} WindowTokensComplete(words: seq<string>, p: nat, j: nat, q: nat, t: string, stop: seq<string>)
    requires p < |words| && Lo(p) <= j <= Hi(|words|, p) + 1
    requires q < j && Neighbour(words, p, q, t, stop)
    ensures t in WindowTokens(words, p, j, stop)
    decreases j
  {
    if q < j - 1 {
      WindowTokensComplete(words, p, j - 1, q, t, stop);
    } else {
      assert t in KeptAt(words, p, j - 1, stop);
    }
  }

  lemma {:induction false} ContextOverSound(words: seq<string>, ps: seq<nat>, t: string, stop: seq<string>)
    requires InRange(words, ps) && t in ContextOver(words, ps, stop)
    ensures exists k, q: nat :: 0 <= k < |ps| && Neighbour(words, ps[k], q, t, stop)
  {
    var n := |ps| - 1;
    assert InRange(words, ps[..n]);
    if t in ContextOver(words, ps[..n], stop) {
      ContextOverSound(words, ps[..n], t, stop);
      var k, q: nat :| 0 <= k < n && Neighbour(words, ps[..n][k], q, t, stop);
      assert Neighbour(words, ps[k], q, t, stop);
    } else {
      var q := WindowTokensSound(words, ps[n], Hi(|words|, ps[n]) + 1, t, stop);
      KeptNeighbour(words, ps[n], q, t, stop);
    }
  }

  lemma {:induction false} ContextOverComplete(words: seq<string>, ps: seq<nat>, k: nat, q: nat, t: string, stop: seq<string>)
    requires InRange(words, ps) && k < |ps| && Neighbour(words, ps[k], q, t, stop)
    ensures t in ContextOver(words, ps, stop)
  {
    var n := |ps| - 1;
    assert InRange(words, ps[..n]);
    if k < n {
      assert ps[..n][k] == ps[k];
      ContextOverComplete(words, ps[..n], k, q, t, stop);
    } else {
      WindowTokensComplete(words, ps[n], Hi(|words|, ps[n]) + 1, q, t, stop);
    }
  }

  /** A word is a key of the context vector exactly when it is a filtered
      token at most five positions away from an occurrence of the target,
      and not at that occurrence. */
  lemma ContextVectorKeys(words: seq<string>, target: string, t: string, stop: seq<string>)
    ensures t in ContextVector(words, target, stop) <==>
      exists p, q: nat :: 0 <= p < |words| && Occurs(words[p], target) && Neighbour(words, p, q, t, stop)
  {
    var ps := Positions(words, target);
    PositionsSpec(words, target);
    CountsSpec(ContextTokens(words, target, stop));
    if t in ContextVector(words, target, stop) {
      ContextOverSound(words, ps, t, stop);
      var k, q: nat :| 0 <= k < |ps| && Neighbour(words, ps[k], q, t, stop);
      assert ps[k] in ps;
    }
    if exists p, q: nat :: 0 <= p < |words| && Occurs(words[p], target) && Neighbour(words, p, q, t, stop) {
      var p, q: nat :| 0 <= p < |words| && Occurs(words[p], target) && Neighbour(words, p, q, t, stop);
      assert p in ps;
      var k :| 0 <= k < |ps| && ps[k] == p;
      ContextOverComplete(words, ps, k, q, t, stop);
    }
  }

  /** Context weights are shares: never negative. */
  lemma ContextVectorNonNegative(words: seq<string>, target: string, stop: seq<string>)
    ensures NonNegative(ContextVector(words, target, stop))
  {
    NormalizeNonNegative(Counts(ContextTokens(words, target, stop)), |ContextTokens(words, target, stop)|);
  }
}

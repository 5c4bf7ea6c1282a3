/** Strings on the browser side. JavaScript strings are sequences of UTF-16
    code units: length, charCodeAt, substr and the regular expressions
    without the u flag all count and match units, so the browser pipeline
    works on seq<Unit>. The text and the phrase reach the browser as the
    UTF-16 encoding of what the server sent. */
module JsText {
  import opened Chars
  import opened Collections

  type Unit = x: int | 0 <= x < 0x1_0000

  const Space: Unit := 0x20
  const Hyphen: Unit := 0x2D

  /** The UTF-16 encoding: one unit below U+10000, a surrogate pair above. */
  function Utf16(s: string): (us: seq<Unit>)
    ensures |us| >= |s|
  {
    if s == [] then []
    else
      var x := s[0] as int;
      (if x < 0x1_0000 then [x as Unit]
       else [(0xD800 + (x - 0x1_0000) / 0x400) as Unit, (0xDC00 + (x - 0x1_0000) % 0x400) as Unit])
      + Utf16(s[1..])
  }

  /** String.prototype.toLowerCase on units, with the table of Chars. */
  function LowerUnits(s: seq<Unit>): (r: seq<Unit>)
    ensures |r| == |s|
    ensures forall i :: 0 <= i < |s| ==> r[i] == LowerCode(s[i])
  {
    seq(|s|, i requires 0 <= i < |s| => LowerCode(s[i]) as Unit)
  }

  /** The class [0-9a-ząćęłńóśżź\-] under the i flag: ASCII digits and
      letters of both cases, '-', and the nine Polish letters in both
      cases. */
  predicate IsJsWordUnit(u: Unit)
  {
    (0x30 <= u <= 0x39) || (0x41 <= u <= 0x5A) || (0x61 <= u <= 0x7A) || u == Hyphen
    || u == 0x104 || u == 0x105   // Ą ą
    || u == 0x106 || u == 0x107   // Ć ć
    || u == 0x118 || u == 0x119   // Ę ę
    || u == 0x141 || u == 0x142   // Ł ł
    || u == 0x143 || u == 0x144   // Ń ń
    || u == 0xD3 || u == 0xF3     // Ó ó
    || u == 0x15A || u == 0x15B   // Ś ś
    || u == 0x179 || u == 0x17A   // Ź ź
    || u == 0x17B || u == 0x17C   // Ż ż
  }

  /** JavaScript white space: the units \s matches and trim removes. */
  predicate IsJsSpace(u: Unit)
  {
    (0x09 <= u <= 0x0D) || u == 0x20 || u == 0xA0 || u == 0x1680
    || (0x2000 <= u <= 0x200A) || u == 0x2028 || u == 0x2029 || u == 0x202F
    || u == 0x205F || u == 0x3000 || u == 0xFEFF
  }

  /** The trimmed pieces of at least three units, in order. */
  function LongPieces(pieces: seq<seq<Unit>>): seq<seq<Unit>>
  {
    if pieces == [] then []
    else
      var w := Trim(pieces[|pieces| - 1], Hyphen);
      LongPieces(pieces[..|pieces| - 1]) + (if |w| >= 3 then [w] else [])
  }

  /** caTok: lowercase, split on runs of units outside the class, trim
      leading and trailing hyphens, keep what has at least three units.
      The empty pieces split yields at either end are dropped by the
      length filter. */
  function JsTok(s: seq<Unit>): seq<seq<Unit>>
  {
    LongPieces(Runs(LowerUnits(s), IsJsWordUnit))
  }

  /** Every token is at least three class units long, does not start or
      end with a hyphen, and is lowercase. */
  lemma TokenShape(s: seq<Unit>)
    ensures forall t :: t in JsTok(s) ==>
      |t| >= 3 && t[0] != Hyphen && t[|t| - 1] != Hyphen &&
      forall k :: 0 <= k < |t| ==> IsJsWordUnit(t[k]) && LowerCode(t[k]) == t[k]
  {
    var low := LowerUnits(s);
    var pieces := Runs(low, IsJsWordUnit);
    RunsShape(low, IsJsWordUnit);
    RunsCover(low, IsJsWordUnit);
    LowerUnitsLower(s);
    forall r, u | r in pieces && u in r ensures IsJsWordUnit(u) && LowerCode(u) == u {
      InConcat(pieces, r, u);
      var i :| 0 <= i < |low| && low[i] == u;
    }
    LongPiecesFrom(pieces);
    LongPiecesShape(pieces);
  }

  /** A token is exactly a hyphen-trimmed split piece of at least three
      units. */
  lemma TokenMembers(s: seq<Unit>)
    ensures forall t :: t in JsTok(s) <==>
      |t| >= 3 && exists p :: p in Runs(LowerUnits(s), IsJsWordUnit) && t == Trim(p, Hyphen)
  {
    LongPiecesMembers(Runs(LowerUnits(s), IsJsWordUnit));
  }

  lemma {:induction false} LongPiecesMembers(pieces: seq<seq<Unit>>)
    ensures forall t :: t in LongPieces(pieces) <==>
      |t| >= 3 && exists p :: p in pieces && t == Trim(p, Hyphen)
  {
    if pieces != [] {
      var prefix := pieces[..|pieces| - 1];
      LongPiecesMembers(prefix);
      assert pieces == prefix + [pieces[|pieces| - 1]];
      forall t | |t| >= 3 && exists p :: p in pieces && t == Trim(p, Hyphen)
        ensures t in LongPieces(pieces)
      {
        var p :| p in pieces && t == Trim(p, Hyphen);
        if p != pieces[|pieces| - 1] {
          assert p in prefix;
        }
      }
    }
  }

  /** Every kept piece has at least three units and no hyphen at either
      end. */
  lemma {:induction false} LongPiecesShape(pieces: seq<seq<Unit>>)
    ensures forall t :: t in LongPieces(pieces) ==> |t| >= 3 && t[0] != Hyphen && t[|t| - 1] != Hyphen
  {
    if pieces != [] {
      LongPiecesShape(pieces[..|pieces| - 1]);
    }
  }

  lemma {:induction false} LongPiecesFrom(pieces: seq<seq<Unit>>)
    requires forall r, u :: r in pieces && u in r ==> IsJsWordUnit(u) && LowerCode(u) == u
    ensures forall t :: t in LongPieces(pieces) ==>
      forall k :: 0 <= k < |t| ==> IsJsWordUnit(t[k]) && LowerCode(t[k]) == t[k]
  {
    if pieces != [] {
      var last := pieces[|pieces| - 1];
      assert last in pieces;
      LongPiecesFrom(pieces[..|pieces| - 1]);
      var w := Trim(last, Hyphen);
      forall k | 0 <= k < |w| ensures IsJsWordUnit(w[k]) && LowerCode(w[k]) == w[k] {
        assert w[k] in w;
      }
    }
  }

  /** Every unit of a lowercased string is its own lowercase. */
  lemma LowerUnitsLower(s: seq<Unit>)
    ensures forall i :: 0 <= i < |s| ==> LowerCode(LowerUnits(s)[i]) == LowerUnits(s)[i]
  {
    forall i | 0 <= i < |s| ensures LowerCode(LowerUnits(s)[i]) == LowerUnits(s)[i] {
      LowerCodeIdempotent(s[i]);
    }
  }

  /** A text with no class unit has no token; neither has the empty text. */
  lemma NoWordNoToken(s: seq<Unit>)
    requires forall i :: 0 <= i < |s| ==> !IsJsWordUnit(LowerCode(s[i]))
    ensures JsTok(s) == []
  {
    var low := LowerUnits(s);
    FilterNone(low, IsJsWordUnit);
    RunsCover(low, IsJsWordUnit);
    RunsShape(low, IsJsWordUnit);
    var pieces := Runs(low, IsJsWordUnit);
    if pieces != [] {
      assert pieces[0] in pieces;
      RunsAtMostConcat(pieces);
    }
  }

  // ---------------------------------------------------------- the escaper

  const Amp: seq<Unit> := [0x26, 0x61, 0x6D, 0x70, 0x3B]    // &amp;
  const Lt: seq<Unit> := [0x26, 0x6C, 0x74, 0x3B]          // &lt;
  const Gt: seq<Unit> := [0x26, 0x67, 0x74, 0x3B]          // &gt;
  const Quot: seq<Unit> := [0x26, 0x71, 0x75, 0x6F, 0x74, 0x3B]  // &quot;
  const Apos: seq<Unit> := [0x26, 0x23, 0x30, 0x33, 0x39, 0x3B]  // &#039;

  /** The five characters E replaces: & < > " '. */
  predicate IsMarkup(u: Unit)
  {
    u == 0x26 || u == 0x3C || u == 0x3E || u == 0x22 || u == 0x27
  }

  /** The replacement of one unit. */
  function EscapeUnit(u: Unit): seq<Unit>
  {
    if u == 0x26 then Amp
    else if u == 0x3C then Lt
    else if u == 0x3E then Gt
    else if u == 0x22 then Quot
    else if u == 0x27 then Apos
    else [u]
  }

  /** E on a string: every markup character replaced by its entity. */
  function Escape(s: seq<Unit>): seq<Unit>
  {
    if s == [] then [] else EscapeUnit(s[0]) + Escape(s[1..])
  }

  /** The values the page hands to E: strings, numbers (counts, scores and
      indices), booleans, null and undefined. */
  datatype JsValue = JsStr(s: seq<Unit>) | JsNum(n: real) | JsBool(b: bool) | JsNull | JsUndefined

  /** The falsy values: "", 0, false, null and undefined. */
  predicate Falsy(v: JsValue)
  {
    match v
    case JsStr(s) => s == []
    case JsNum(n) => n == 0.0
    case JsBool(b) => !b
    case JsNull => true
    case JsUndefined => true
  }

  const TrueText: seq<Unit> := [0x74, 0x72, 0x75, 0x65]   // true

  /** String(t) of a truthy value; how a number is written out is the
      parameter numText. */
  function TruthyText(v: JsValue, numText: real -> seq<Unit>): seq<Unit>
    requires !Falsy(v)
  {
    match v
    case JsStr(s) => s
    case JsNum(n) => numText(n)
    case JsBool(_) => TrueText
  }

  /** E(t): String(t || '') with the markup characters escaped. Every falsy
      value, the number 0 among them, renders as the empty text; a truthy
      value renders as its escaped text. */
  function EscapeValue(v: JsValue, numText: real -> seq<Unit>): (r: seq<Unit>)
    ensures Falsy(v) ==> r == []
    ensures Unescape(r) == if Falsy(v) then [] else TruthyText(v, numText)
  {
    if Falsy(v) then []
    else
      var t := TruthyText(v, numText);
      EscapeRoundTrip(t);
      Escape(t)
  }

  /** A zero count or score renders as an empty cell, while the string "0"
      renders as "0", and null and undefined render as nothing. */
  lemma ZeroRendersBlank(numText: real -> seq<Unit>)
    ensures EscapeValue(JsNum(0.0), numText) == []
    ensures EscapeValue(JsStr([0x30]), numText) == [0x30]
    ensures EscapeValue(JsNull, numText) == [] && EscapeValue(JsUndefined, numText) == []
  {
    assert !IsMarkup(0x30);
    EscapePlain([0x30]);
  }

  /** Decoding of the five entities, the independent partner of Escape. */
  function Unescape(s: seq<Unit>): seq<Unit>
  {
    if s == [] then []
    else if Amp <= s then [0x26] + Unescape(s[|Amp|..])
    else if Lt <= s then [0x3C] + Unescape(s[|Lt|..])
    else if Gt <= s then [0x3E] + Unescape(s[|Gt|..])
    else if Quot <= s then [0x22] + Unescape(s[|Quot|..])
    else if Apos <= s then [0x27] + Unescape(s[|Apos|..])
    else [s[0]] + Unescape(s[1..])
  }

  /** Decoding the escaped text gives the text back: E loses nothing. */
  lemma {:induction false} EscapeRoundTrip(s: seq<Unit>)
    ensures Unescape(Escape(s)) == s
  {
    if s != [] {
      EscapeRoundTrip(s[1..]);
      UnescapeEscapeUnit(s[0], Escape(s[1..]));
    }
  }

  /** Decoding undoes the replacement of one unit in front of any text. */
  lemma UnescapeEscapeUnit(u: Unit, rest: seq<Unit>)
    ensures Unescape(EscapeUnit(u) + rest) == [u] + Unescape(rest)
  {
    if u == 0x26 {
      UnescapeAmp(rest);
    } else if u == 0x3C {
      UnescapeLt(rest);
    } else if u == 0x3E {
      UnescapeGt(rest);
    } else if u == 0x22 {
      UnescapeQuot(rest);
    } else if u == 0x27 {
      UnescapeApos(rest);
    } else {
      UnescapeOther(u, rest);
    }
  }

  lemma UnescapeAmp(rest: seq<Unit>)
    ensures Unescape(Amp + rest) == [0x26] + Unescape(rest)
  {
    assert Amp <= Amp + rest && (Amp + rest)[|Amp|..] == rest;
  }

  lemma UnescapeLt(rest: seq<Unit>)
    ensures Unescape(Lt + rest) == [0x3C] + Unescape(rest)
  {
    var e := Lt + rest;
    assert e[1] == 0x6C && !(Amp <= e);
    assert Lt <= e && e[|Lt|..] == rest;
  }

  lemma UnescapeGt(rest: seq<Unit>)
    ensures Unescape(Gt + rest) == [0x3E] + Unescape(rest)
  {
    var e := Gt + rest;
    assert e[1] == 0x67 && !(Amp <= e) && !(Lt <= e);
    assert Gt <= e && e[|Gt|..] == rest;
  }

  lemma UnescapeQuot(rest: seq<Unit>)
    ensures Unescape(Quot + rest) == [0x22] + Unescape(rest)
  {
    var e := Quot + rest;
    assert e[1] == 0x71 && !(Amp <= e) && !(Lt <= e) && !(Gt <= e);
    assert Quot <= e && e[|Quot|..] == rest;
  }

  lemma UnescapeApos(rest: seq<Unit>)
    ensures Unescape(Apos + rest) == [0x27] + Unescape(rest)
  {
    var e := Apos + rest;
    assert e[1] == 0x23 && !(Amp <= e) && !(Lt <= e) && !(Gt <= e) && !(Quot <= e);
    assert Apos <= e && e[|Apos|..] == rest;
  }

  lemma UnescapeOther(u: Unit, rest: seq<Unit>)
    requires !IsMarkup(u)
    ensures Unescape([u] + rest) == [u] + Unescape(rest)
  {
    var e := [u] + rest;
    assert e[0] == u && u != 0x26;
    assert !(Amp <= e) && !(Lt <= e) && !(Gt <= e) && !(Quot <= e) && !(Apos <= e);
    assert e[1..] == rest;
  }

  /** A unit the escaped text may hold: anything but <, >, " and '. */
  predicate SafeUnit(u: Unit)
  {
    u != 0x3C && u != 0x3E && u != 0x22 && u != 0x27
  }

  /** The escaped text holds no <, >, " or '. */
  lemma {:induction false} EscapeNoMarkup(s: seq<Unit>)
    ensures forall i :: 0 <= i < |Escape(s)| ==> SafeUnit(Escape(s)[i])
  {
    if s != [] {
      EscapeNoMarkup(s[1..]);
      var e, rest := EscapeUnit(s[0]), Escape(s[1..]);
      assert forall i :: 0 <= i < |e| ==> SafeUnit(e[i]);
      forall i | 0 <= i < |e + rest| ensures SafeUnit((e + rest)[i]) {
        if i >= |e| {
          assert (e + rest)[i] == rest[i - |e|];
        }
      }
    }
  }

  /** A text without markup characters is left as it is. */
  lemma {:induction false} EscapePlain(s: seq<Unit>)
    requires forall i :: 0 <= i < |s| ==> !IsMarkup(s[i])
    ensures Escape(s) == s
  {
    if s != [] {
      EscapePlain(s[1..]);
      assert s == [s[0]] + s[1..];
    }
  }
}

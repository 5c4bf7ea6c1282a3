/** Character tables shared by both pipelines. Characters are given by their
    Unicode number: PHP's mb_* functions work on code points and JavaScript
    strings on UTF-16 code units, and both lowercase with the same table.

    The tables cover ASCII, Latin-1, Latin Extended-A and -B and IPA;
    letters of other scripts and of the later Latin blocks are outside the
    model. */
module Chars {

  /** Lowercase mapping of one character number: ASCII, Latin-1 and Latin
      Extended-A. U+0130 (dotted capital I) lowercases to two characters in
      full case mapping and is left unchanged here. */
  function LowerCode(x: int): (r: int)
    ensures 0 <= x < 0x180 ==> 0 <= r < 0x180
    ensures !(0 <= x < 0x180) ==> r == x
    ensures r == x || r == x + 32 || r == x + 1 || (x == 0x178 && r == 0xFF)
  {
    if 0x41 <= x <= 0x5A then x + 32
    else if 0xC0 <= x <= 0xDE && x != 0xD7 then x + 32
    else if 0x100 <= x <= 0x137 && x % 2 == 0 && x != 0x130 then x + 1
    else if 0x139 <= x <= 0x148 && x % 2 == 1 then x + 1
    else if 0x14A <= x <= 0x177 && x % 2 == 0 then x + 1
    else if x == 0x178 then 0xFF
    else if 0x179 <= x <= 0x17E && x % 2 == 1 then x + 1
    else x
  }

  /** Lowercasing twice is lowercasing once. */
  lemma LowerCodeIdempotent(x: int)
    ensures LowerCode(LowerCode(x)) == LowerCode(x)
  {}

  function ToLower(c: char): (r: char)
    ensures (r as int) == LowerCode(c as int)
  {
    LowerCode(c as int) as char
  }

  /** The PHP token alphabet [\p{L}\p{N}\-]: letters and numbers of
      ASCII, Latin-1 (including the superscript digits and vulgar fractions,
      which are numbers), Latin Extended-A and -B and IPA, plus '-'. */
  predicate IsWordChar(c: char)
  {
    var x := c as int;
    ('0' <= c <= '9') || ('a' <= c <= 'z') || ('A' <= c <= 'Z') || c == '-'
    || x == 0xAA || x == 0xB2 || x == 0xB3 || x == 0xB5 || x == 0xB9 || x == 0xBA
    || (0xBC <= x <= 0xBE)
    || (0xC0 <= x <= 0x2AF && x != 0xD7 && x != 0xF7)
  }

  /** PCRE's \s outside UTF mode: tab, line feed, vertical tab, form feed,
      carriage return and space. */
  predicate IsPcreSpace(c: char)
  {
    (9 <= c as int <= 13) || c == ' '
  }

  /** PCRE's \w outside UTF mode: ASCII letters, digits and '_'. Every byte
      of a multi-byte UTF-8 character is a non-word byte, so on code points
      this is exactly the ASCII set. */
  predicate IsPcreWord(c: char)
  {
    ('0' <= c <= '9') || ('a' <= c <= 'z') || ('A' <= c <= 'Z') || c == '_'
  }

  predicate IsAsciiDigit(c: char)
  {
    '0' <= c <= '9'
  }
}

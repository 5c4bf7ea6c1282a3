/** caHash32: the 32-bit FNV-1a hash of a string's UTF-16 code units,
    written in JavaScript as XOR followed by a multiplication spelled out
    as shifts and adds on Numbers. The model keeps the JavaScript
    arithmetic (ToInt32 for ^ and <<, exact Number addition, >>> 0 as
    ToUint32) and proves it equal to the textbook recurrence. */
module JsHash {
  import opened JsText

  const Two32: int := 0x1_0000_0000
  const Two31: int := 0x8000_0000

  /** The FNV-1a 32-bit offset basis and prime. */
  const OffsetBasis: int := 0x811c9dc5
  const Prime: int := 16777619

  /** ToUint32: the value modulo 2^32, what >>> 0 returns. */
  function ToUint32(n: int): (r: int)
    ensures 0 <= r < Two32
  {
    n % Two32
  }

  /** ToInt32: the value modulo 2^32 read as a signed 32-bit integer. */
  function ToInt32(n: int): (r: int)
    ensures -Two31 <= r < Two31
  {
    var m := n % Two32;
    if m >= Two31 then m - Two32 else m
  }

  function Pow2(k: nat): (r: nat)
    ensures r >= 1
  {
    if k == 0 then 1 else 2 * Pow2(k - 1)
  }

  /** a << k for k below 32: the signed 32-bit value of a, shifted, read
      back as a signed 32-bit integer. */
  function ShiftLeft(a: int, k: nat): int
    requires k < 32
  {
    ToInt32(ToInt32(a) * Pow2(k))
  }

  /** The XOR of two 32-bit unsigned values. */
  function Xor32(a: int, b: int): (r: int)
    requires 0 <= a < Two32 && 0 <= b < Two32
    ensures 0 <= r < Two32
  {
    ((a as bv32) ^ (b as bv32)) as int
  }

  /** a ^ b: both operands taken to 32 bits, the result read as signed. */
  function JsXor(a: int, b: int): int
  {
    ToInt32(Xor32(ToUint32(a), ToUint32(b)))
  }

  /** Multiplication by the FNV prime modulo 2^32. */
  function TimesPrime(a: int): (r: int)
    ensures 0 <= r < Two32
  {
    (a * Prime) % Two32
  }

  /** FNV-1a over code units: h := (h xor u) * 16777619 mod 2^32 for each
      unit u, starting from the offset basis. */
  function Fnv1a(us: seq<Unit>): (h: int)
    ensures 0 <= h < Two32
  {
    if us == [] then OffsetBasis
    else TimesPrime(Xor32(Fnv1a(us[..|us| - 1]), us[|us| - 1]))
  }

  /** h + ((h<<1) + (h<<4) + (h<<7) + (h<<8) + (h<<24)) >>> 0. */
  function ShiftAdd(x: int): int
  {
    ToUint32(x + (ShiftLeft(x, 1) + ShiftLeft(x, 4) + ShiftLeft(x, 7) + ShiftLeft(x, 8) + ShiftLeft(x, 24)))
  }

  /** The loop of caHash32. */
  method Hash32(str: seq<Unit>) returns (h: int)
    ensures h == Fnv1a(str)
  {
    h := 0x811c9dc5;
    for i := 0 to |str|
      invariant h == Fnv1a(str[..i])
    {
      HashStep(h, str[i]);
      var x := JsXor(h, str[i]);
      h := ShiftAdd(x);
      assert str[..i + 1][..i] == str[..i];
    }
    assert str[..|str|] == str;
  }

  // ------------------------------------------------------------ arithmetic

  /** ToInt32 changes a value by a multiple of 2^32. */
  lemma Congruent(n: int)
    ensures (ToInt32(n) - n) % Two32 == 0
  {}

  lemma Int32Fixed(n: int)
    requires -Two31 <= n < Two31
    ensures ToInt32(n) == n
  {}

  /** One pass of the loop body is one FNV-1a step. */
  lemma HashStep(h: int, u: Unit)
    requires 0 <= h < Two32
    ensures ShiftAdd(JsXor(h, u)) == TimesPrime(Xor32(h, u))
  {
    var x := JsXor(h, u);
    XorStep(h, u);
    ShiftAddStep(x);
  }

  /** The unsigned reading of the signed XOR is the unsigned XOR. */
  lemma XorStep(h: int, u: Unit)
    requires 0 <= h < Two32
    ensures ToUint32(JsXor(h, u)) == Xor32(h, u)
  {
    UnsignedFixed(h);
    UnsignedFixed(u);
    SignedRoundTrip(Xor32(h, u));
  }

  lemma UnsignedFixed(n: int)
    requires 0 <= n < Two32
    ensures ToUint32(n) == n
  {}

  /** Reading an unsigned 32-bit value as signed and back loses nothing. */
  lemma SignedRoundTrip(n: int)
    requires 0 <= n < Two32
    ensures ToUint32(ToInt32(n)) == n
  {}

  /** a << k is congruent to a * 2^k modulo 2^32. */
  lemma ShiftCongruent(a: int, k: nat)
    requires k < 32 && -Two31 <= a < Two31
    ensures (ShiftLeft(a, k) - a * Pow2(k)) % Two32 == 0
  {
    Int32Fixed(a);
    Congruent(a * Pow2(k));
  }

  lemma Pow2Values()
    ensures Pow2(1) == 2 && Pow2(4) == 16 && Pow2(7) == 128 && Pow2(8) == 256 && Pow2(24) == 16777216
  {
    assert Pow2(8) == 256;
    assert Pow2(16) == 65536 by {
      assert Pow2(12) == 4096;
    }
    assert Pow2(20) == 1048576;
  }

  lemma SumOfMultiples(a: int, b: int, c: int, d: int, e: int, f: int, s: int)
    requires a % Two32 == 0 && b % Two32 == 0 && c % Two32 == 0 && d % Two32 == 0 && e % Two32 == 0
    requires f == s + a + b + c + d + e
    ensures f % Two32 == s % Two32
  {}

  lemma ModTimes(x: int, c: int)
    ensures ((x % Two32) * c) % Two32 == (x * c) % Two32
  {
    var q := x / Two32;
    assert x == q * Two32 + x % Two32;
    assert x * c == (x % Two32) * c + (q * c) * Two32;
  }

  /** The shift-and-add line multiplies by the FNV prime modulo 2^32:
      1 + 2 + 16 + 128 + 256 + 2^24 = 16777619. */
  lemma ShiftAddStep(x: int)
    requires -Two31 <= x < Two31
    ensures ShiftAdd(x) == TimesPrime(ToUint32(x))
  {
    Pow2Values();
    ShiftCongruent(x, 1);
    ShiftCongruent(x, 4);
    ShiftCongruent(x, 7);
    ShiftCongruent(x, 8);
    ShiftCongruent(x, 24);
    var s1, s4, s7, s8, s24 := ShiftLeft(x, 1), ShiftLeft(x, 4), ShiftLeft(x, 7), ShiftLeft(x, 8), ShiftLeft(x, 24);
    SumOfMultiples(s1 - x * 2, s4 - x * 16, s7 - x * 128, s8 - x * 256, s24 - x * 16777216,
                   x + (s1 + s4 + s7 + s8 + s24), x * Prime);
    ModTimes(x, Prime);
  }

  // --------------------------------------------------------- test vectors

  /** The published FNV-1a 32-bit values for "" and "a"; on units below 256
      the hash is the octet FNV-1a. */
  lemma KnownValues()
    ensures Fnv1a([]) == 0x811c9dc5
    ensures Fnv1a([0x61]) == 0xe40c292c
  {
    assert [0x61][..0] == [];
    assert Xor32(0x811c9dc5, 0x61) == 0x811c9da4;
  }
}

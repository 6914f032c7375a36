/** The FNV-1a fingerprint that both the cleanup reports and the input-method
    addon use, as defined in section 2 of draft-eastlake-fnv for 64 bits. */
module Fingerprint {
  import opened Base
  import Utf8

  const WORD := 0x1_0000_0000_0000_0000
  const OFFSET_BASIS := 0xcbf2_9ce4_8422_2325
  const PRIME := 0x0000_0100_0000_01b3

  /** The inverse of the prime modulo 2^64; it exists because the prime is odd. */
  const PRIME_INVERSE := 0xce965057aff6957b
  const PRIME_QUOTIENT := 0xce9650590f

  // ----- exclusive or on the low byte of a word

  function XorBit(a: nat, b: nat): nat {
    if a % 2 == b % 2 then 0 else 1
  }

  /** Bitwise exclusive or of two natural numbers. */
  function Xor(a: nat, b: nat): nat
    decreases a + b
  {
    if a == 0 && b == 0 then 0 else XorBit(a, b) + 2 * Xor(a / 2, b / 2)
  }

  lemma {:induction false} XorCancels(a: nat, b: nat)
    ensures Xor(Xor(a, b), b) == a
    ensures Xor(Xor(a, b), a) == b
    decreases a + b
  {
    if a != 0 || b != 0 {
      XorCancels(a / 2, b / 2);
      var high, low := Xor(a / 2, b / 2), XorBit(a, b);
      var x := low + 2 * high;
      assert Xor(a, b) == x && x / 2 == high && x % 2 == low;
      assert XorBit(x, b) == a % 2 && XorBit(x, a) == b % 2;
      hide XorBit;
      assert x != 0 || b != 0 ==> Xor(x, b) == a % 2 + 2 * (a / 2);
      assert x != 0 || a != 0 ==> Xor(x, a) == b % 2 + 2 * (b / 2);
    }
  }

  lemma {:induction false} XorBound(a: nat, b: nat, bits: nat)
    requires a < Pow2(bits) && b < Pow2(bits)
    ensures Xor(a, b) < Pow2(bits)
  {
    if bits > 0 {
      XorBound(a / 2, b / 2, bits - 1);
    }
  }

  /** `hash ^= u64::from(byte)`: only the low byte of the word changes. */
  function XorByte(hash: nat, b: byte): nat {
    hash / 0x100 * 0x100 + Xor(hash % 0x100, b)
  }

  lemma XorByteShape(hash: nat, b: byte)
    ensures XorByte(hash, b) / 0x100 == hash / 0x100
    ensures XorByte(hash, b) % 0x100 == Xor(hash % 0x100, b)
  {
    assert Pow2(8) == 0x100 by { assert Pow2(4) == 16; }
    XorBound(hash % 0x100, b, 8);
    hide Xor;
    SplitByte(hash / 0x100, Xor(hash % 0x100, b));
  }

  lemma SplitByte(high: nat, low: nat)
    requires low < 0x100
    ensures (high * 0x100 + low) / 0x100 == high && (high * 0x100 + low) % 0x100 == low
  {
  }

  // ----- the hash

  /** `hash.wrapping_mul(prime)` after the exclusive or. */
  function FnvStep(hash: nat, b: byte): (h: nat)
    ensures h < WORD
  {
    XorByte(hash, b) * PRIME % WORD
  }

  function FnvFrom(hash: nat, text: bytes): (h: nat)
    requires hash < WORD
    ensures h < WORD
    decreases |text|
  {
    if text == [] then hash else FnvFrom(FnvStep(hash, text[0]), text[1..])
  }

  function Fnv(text: bytes): nat {
    FnvFrom(OFFSET_BASIS, text)
  }

  /** The published values for the empty text and for "a". */
  lemma KnownHashes()
    ensures Fnv([]) == 0xcbf29ce484222325 && Fnv([0x61]) == 0xaf63dc4c8601ec8c
  {
    KnownXor();
    hide Xor;
    assert FnvStep(OFFSET_BASIS, 0x61) == 0xaf63dc4c8601ec8c;
    assert [0x61][1..] == [];
  }

  lemma KnownXor()
    ensures Xor(0x25, 0x61) == 0x44
  {
    assert Xor(0x1, 0x3) == 0x2;
    assert Xor(0x4, 0xC) == 0x8 by {
      assert Xor(0x2, 0x6) == 0x4;
    }
    assert Xor(0x9, 0x18) == 0x11;
    assert Xor(0x12, 0x30) == 0x22;
  }

  /** Multiplication by the prime is a bijection on 64-bit words. */
  lemma MultiplyInjective(x: nat, y: nat)
    requires x < WORD && y < WORD && x * PRIME % WORD == y * PRIME % WORD
    ensures x == y
  {
    assert PRIME * PRIME_INVERSE == 1 + PRIME_QUOTIENT * WORD;
    var k := x * PRIME / WORD - y * PRIME / WORD;
    assert (x - y) * PRIME == k * WORD;
    var wraps := k * PRIME_INVERSE - PRIME_QUOTIENT * (x - y);
    assert (x - y) * PRIME * PRIME_INVERSE == k * WORD * PRIME_INVERSE;
    assert x - y == WORD * wraps;
  }

  lemma XorByteInjective(h: nat, k: nat, b: byte, c: byte)
    requires XorByte(h, b) == XorByte(k, c) && (h == k || b == c)
    ensures h == k && b == c
  {
    XorByteShape(h, b);
    XorByteShape(k, c);
    XorCancels(h % 0x100, b);
    XorCancels(k % 0x100, c);
    hide Xor;
    hide XorByte;
    assert h / 0x100 == k / 0x100 && Xor(h % 0x100, b) == Xor(k % 0x100, c);
  }

  lemma XorByteStaysInWord(h: nat, b: byte)
    requires h < WORD
    ensures XorByte(h, b) < WORD
  {
    XorByteShape(h, b);
    hide XorByte;
    var x := XorByte(h, b);
    assert x == x / 0x100 * 0x100 + x % 0x100;
  }

  /** Each step is injective in the hash for a fixed byte, and in the byte for a fixed hash. */
  lemma FnvStepInjective(h: nat, k: nat, b: byte, c: byte)
    requires h < WORD && k < WORD && FnvStep(h, b) == FnvStep(k, c)
    requires h == k || b == c
    ensures h == k && b == c
  {
    hide XorByte;
    XorByteStaysInWord(h, b);
    XorByteStaysInWord(k, c);
    MultiplyInjective(XorByte(h, b), XorByte(k, c));
    XorByteInjective(h, k, b, c);
  }

  lemma {:induction false} FnvFromInjective(h: nat, k: nat, text: bytes)
    requires h < WORD && k < WORD && FnvFrom(h, text) == FnvFrom(k, text)
    ensures h == k
    decreases |text|
  {
    if text != [] {
      FnvFromInjective(FnvStep(h, text[0]), FnvStep(k, text[0]), text[1..]);
      FnvStepInjective(h, k, text[0], text[0]);
    }
  }

  lemma {:induction false} FnvFromConcat(h: nat, a: bytes, b: bytes)
    requires h < WORD
    ensures FnvFrom(h, a + b) == FnvFrom(FnvFrom(h, a), b)
    decreases |a|
  {
    if a == [] {
      assert a + b == b;
    } else {
      assert (a + b)[1..] == a[1..] + b;
      FnvFromConcat(FnvStep(h, a[0]), a[1..], b);
    }
  }

  /** Texts of one length that differ in exactly one byte have different fingerprints. */
  lemma OneByteChangesFnv(before: bytes, x: byte, y: byte, after: bytes)
    requires x != y
    ensures Fnv(before + [x] + after) != Fnv(before + [y] + after)
  {
    var h := Fnv(before);
    FnvFromConcat(OFFSET_BASIS, before + [x], after);
    FnvFromConcat(OFFSET_BASIS, before + [y], after);
    FnvFromConcat(OFFSET_BASIS, before, [x]);
    FnvFromConcat(OFFSET_BASIS, before, [y]);
    assert FnvFrom(h, [x]) == FnvStep(h, x) && FnvFrom(h, [y]) == FnvStep(h, y);
    if Fnv(before + [x] + after) == Fnv(before + [y] + after) {
      FnvFromInjective(FnvStep(h, x), FnvStep(h, y), after);
      FnvStepInjective(h, h, x, y);
    }
  }

  // ----- the two implementations

  function HexDigit(n: nat): char
    requires n < 16
  {
    "0123456789abcdef"[n]
  }

  /** The low `digits` hexadecimal digits, zero-padded. */
  function Hex(n: nat, digits: nat): (s: string)
    ensures |s| == digits
  {
    if digits == 0 then "" else Hex(n / 16, digits - 1) + [HexDigit(n % 16)]
  }

  function Pow16(n: nat): nat {
    if n == 0 then 1 else 16 * Pow16(n - 1)
  }

  lemma HexDigitInjective(a: nat, b: nat)
    requires a < 16 && b < 16 && HexDigit(a) == HexDigit(b)
    ensures a == b
  {
  }

  lemma {:induction false} HexInjective(a: nat, b: nat, digits: nat)
    requires a < Pow16(digits) && b < Pow16(digits) && Hex(a, digits) == Hex(b, digits)
    ensures a == b
  {
    if digits > 0 {
      var s, t := Hex(a, digits), Hex(b, digits);
      assert s[..digits - 1] == Hex(a / 16, digits - 1) && t[..digits - 1] == Hex(b / 16, digits - 1);
      assert s[digits - 1] == HexDigit(a % 16) && t[digits - 1] == HexDigit(b % 16);
      HexInjective(a / 16, b / 16, digits - 1);
      HexDigitInjective(a % 16, b % 16);
    }
  }

  function FingerprintText(text: bytes): string {
    "fnv1a64:" + Hex(Fnv(text), 16)
  }

  lemma FingerprintTextInjective(a: bytes, b: bytes)
    requires FingerprintText(a) == FingerprintText(b)
    ensures Fnv(a) == Fnv(b)
  {
    var h, k := Hex(Fnv(a), 16), Hex(Fnv(b), 16);
    assert h == FingerprintText(a)[8..] && k == FingerprintText(b)[8..];
    assert Pow16(16) == WORD by { assert Pow16(4) == 0x1_0000; assert Pow16(8) == 0x1_0000 * Pow16(4); }
    HexInjective(Fnv(a), Fnv(b), 16);
  }

  /** What hexadecimal digits stand for. */
  function DigitValue(c: char): int {
    if '0' <= c <= '9' then c as int - '0' as int else if 'a' <= c <= 'f' then c as int - 'a' as int + 10 else -1
  }

  function HexValue(s: string): int {
    if s == "" then 0 else 16 * HexValue(s[..|s| - 1]) + DigitValue(s[|s| - 1])
  }

  lemma {:induction false} HexReads(n: nat, digits: nat)
    requires n < Pow16(digits)
    ensures HexValue(Hex(n, digits)) == n && forall c :: c in Hex(n, digits) ==> DigitValue(c) >= 0
  {
    if digits > 0 {
      HexReads(n / 16, digits - 1);
      var s := Hex(n, digits);
      assert s[..digits - 1] == Hex(n / 16, digits - 1) && s[digits - 1] == HexDigit(n % 16);
      DigitReads(n % 16);
    }
  }

  lemma DigitReads(n: nat)
    requires n < 16
    ensures DigitValue(HexDigit(n)) == n
  {
  }

  /** The text of a fingerprint is its name and the hash in sixteen lower-case hexadecimal digits. */
  lemma FingerprintIsRead(text: bytes)
    ensures var s := FingerprintText(text);
            && |s| == 24 && s[..8] == "fnv1a64:" && HexValue(s[8..]) == Fnv(text)
            && forall c :: c in s[8..] ==> DigitValue(c) >= 0
  {
    assert Pow16(16) == WORD by { assert Pow16(4) == 0x1_0000; assert Pow16(8) == 0x1_0000 * Pow16(4); }
    HexReads(Fnv(text), 16);
    assert FingerprintText(text)[8..] == Hex(Fnv(text), 16);
    hide Hex;
    hide HexValue;
    hide FnvFrom;
  }

  /** The Rust loop over the bytes of a text. */
  method FingerprintOf(text: bytes) returns (s: string)
    ensures s == FingerprintText(text)
  {
    var hash := 0xcbf2_9ce4_8422_2325;
    for i := 0 to |text|
      invariant 0 <= hash < WORD && FnvFrom(hash, text[i..]) == Fnv(text)
    {
      hash := XorByte(hash, text[i]);
      hash := hash * 0x0000_0100_0000_01b3 % WORD;
      assert text[i..][1..] == text[i + 1..];
    }
    s := "fnv1a64:" + Hex(hash, 16);
  }

  /** The addon's loop, with the constants written in decimal. */
  method TextFingerprint(text: bytes) returns (value: nat)
    ensures value == Fnv(text)
  {
    value := 14695981039346656037;
    for i := 0 to |text|
      invariant value < WORD && FnvFrom(value, text[i..]) == Fnv(text)
    {
      value := XorByte(value, text[i]);
      value := value * 1099511628211 % WORD;
      assert text[i..][1..] == text[i + 1..];
    }
  }
}

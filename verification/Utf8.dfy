/** Text as Unicode scalar values together with its UTF-8 bytes.

    Rust's `&str` and the addon's `std::string_view` hold UTF-8; a Dafny
    `string` is the sequence of scalar values they encode. Byte offsets,
    character boundaries and slices are defined on the bytes and related to
    positions in the string here, once. */
module Utf8 {
  import opened Base

  function EncodeChar(c: char): (b: bytes)
    ensures 1 <= |b| <= 4
  {
    var n := c as int;
    if n < 0x80 then [n]
    else if n < 0x800 then [0xC0 + n / 0x40, 0x80 + n % 0x40]
    else if n < 0x1_0000 then [0xE0 + n / 0x1000, 0x80 + n / 0x40 % 0x40, 0x80 + n % 0x40]
    else [0xF0 + n / 0x4_0000, 0x80 + n / 0x1000 % 0x40, 0x80 + n / 0x40 % 0x40, 0x80 + n % 0x40]
  }

  function Width(c: char): (w: nat) {
    |EncodeChar(c)|
  }

  function Encode(s: string): bytes {
    if s == [] then [] else EncodeChar(s[0]) + Encode(s[1..])
  }

  /** A continuation byte: `(byte & 0xC0) == 0x80`. */
  predicate IsContinuation(b: byte) {
    b / 0x40 == 2
  }

  /** `str::is_char_boundary`, a test on one byte. */
  predicate IsCharBoundary(s: string, at: nat) {
    at == 0 || at == |Encode(s)| || (at < |Encode(s)| && !IsContinuation(Encode(s)[at]))
  }

  /** The byte position of character k. */
  function Offset(s: string, k: nat): nat
    requires k <= |s|
  {
    |Encode(s[..k])|
  }

  /** The character at byte position `at`, when one starts (or the text ends) there. */
  function CharIndex(s: string, at: nat): (k: Option<nat>)
    ensures k.Some? ==> k.value <= |s|
  {
    if at == 0 then Some(0)
    else if s == [] || at < Width(s[0]) then None
    else
      var rest := CharIndex(s[1..], at - Width(s[0]));
      if rest.Some? then Some(rest.value + 1) else None
  }

  lemma EncodeCharShape(c: char)
    ensures !IsContinuation(EncodeChar(c)[0])
    ensures forall i :: 0 < i < |EncodeChar(c)| ==> IsContinuation(EncodeChar(c)[i])
  {
  }

  lemma {:induction false} EncodeConcat(s: string, t: string)
    ensures Encode(s + t) == Encode(s) + Encode(t)
  {
    if s == [] {
      assert s + t == t;
    } else {
      assert (s + t)[1..] == s[1..] + t;
      EncodeConcat(s[1..], t);
    }
  }

  lemma {:induction false} EncodeLength(s: string)
    ensures |s| <= |Encode(s)| <= 4 * |s|
  {
    if s != [] {
      EncodeLength(s[1..]);
    }
  }

  lemma EncodeOne(c: char)
    ensures Encode([c]) == EncodeChar(c)
  {
    assert [c][1..] == [];
  }

  /** One character of each width. */
  lemma KnownCharacters()
    ensures EncodeChar('A') == [0x41] && EncodeChar('\U{00E9}') == [0xC3, 0xA9]
    ensures EncodeChar('\U{20AC}') == [0xE2, 0x82, 0xAC] && EncodeChar('\U{1F600}') == [0xF0, 0x9F, 0x98, 0x80]
  {
  }

  /** ASCII text is its own UTF-8. */
  lemma {:induction false} EncodeAscii(s: string)
    requires forall i :: 0 <= i < |s| ==> s[i] as int < 0x80
    ensures |Encode(s)| == |s| && forall i :: 0 <= i < |s| ==> Encode(s)[i] == s[i] as int
  {
    if s != [] {
      EncodeAscii(s[1..]);
      assert EncodeChar(s[0]) == [s[0] as int];
    }
  }

  lemma OffsetStep(s: string, k: nat)
    requires k < |s|
    ensures Offset(s, k + 1) == Offset(s, k) + Width(s[k])
  {
    assert s[..k + 1] == s[..k] + [s[k]];
    EncodeConcat(s[..k], [s[k]]);
    EncodeOne(s[k]);
  }

  /** Byte offsets are strictly increasing, so ranges compare alike in bytes and in characters. */
  lemma {:induction false} OffsetMonotone(s: string, i: nat, j: nat)
    requires i <= j <= |s|
    ensures Offset(s, i) + (j - i) <= Offset(s, j)
    decreases j - i
  {
    if i < j {
      OffsetMonotone(s, i, j - 1);
      OffsetStep(s, j - 1);
    }
  }

  lemma OffsetEnds(s: string)
    ensures Offset(s, 0) == 0 && Offset(s, |s|) == |Encode(s)|
  {
    assert s[..|s|] == s;
  }

  /** The bytes between two character positions encode the characters between them. */
  lemma EncodeSlice(s: string, i: nat, j: nat)
    requires i <= j <= |s|
    ensures Offset(s, i) <= Offset(s, j) <= |Encode(s)|
    ensures Encode(s)[Offset(s, i)..Offset(s, j)] == Encode(s[i..j])
  {
    var a, m, z := s[..i], s[i..j], s[j..];
    assert s[..j] == a + m;
    assert s == s[..j] + z;
    EncodeConcat(a, m);
    EncodeConcat(s[..j], z);
    assert Encode(s) == Encode(a) + Encode(m) + Encode(z);
  }

  lemma {:induction false} CharIndexOfOffset(s: string, k: nat)
    requires k <= |s|
    ensures CharIndex(s, Offset(s, k)) == Some(k)
  {
    if k > 0 {
      assert s[..k][1..] == s[1..][..k - 1];
      CharIndexOfOffset(s[1..], k - 1);
    }
  }

  lemma {:induction false} OffsetOfCharIndex(s: string, at: nat)
    requires CharIndex(s, at).Some?
    ensures Offset(s, CharIndex(s, at).value) == at
  {
    if at > 0 {
      var k := CharIndex(s, at).value;
      OffsetOfCharIndex(s[1..], at - Width(s[0]));
      assert s[..k][1..] == s[1..][..k - 1];
    }
  }

  /** The one-byte boundary test is right: it accepts exactly the positions where characters begin or the text ends. */
  lemma {:induction false} BoundaryIffCharIndex(s: string, at: nat)
    ensures IsCharBoundary(s, at) <==> CharIndex(s, at).Some?
  {
    if at != 0 && s != [] {
      var w := Width(s[0]);
      EncodeCharShape(s[0]);
      if at >= w {
        BoundaryIffCharIndex(s[1..], at - w);
        if at == w && s[1..] != [] {
          EncodeCharShape(s[1]);
        }
      } else {
        assert IsContinuation(Encode(s)[at]);
      }
    }
  }

  /** The number of bytes announced by a lead byte. */
  function LeadWidth(b: byte): nat {
    if b < 0xC0 then 1 else if b < 0xE0 then 2 else if b < 0xF0 then 3 else 4
  }

  /** The scalar value packed into one encoded character. */
  function Unpack(b: seq<int>): int
    requires 1 <= |b| <= 4
  {
    if |b| == 1 then b[0]
    else if |b| == 2 then (b[0] - 0xC0) * 0x40 + (b[1] - 0x80)
    else if |b| == 3 then (b[0] - 0xE0) * 0x1000 + (b[1] - 0x80) * 0x40 + (b[2] - 0x80)
    else (b[0] - 0xF0) * 0x4_0000 + (b[1] - 0x80) * 0x1000 + (b[2] - 0x80) * 0x40 + (b[3] - 0x80)
  }

  lemma UnpackEncodeChar(c: char)
    ensures LeadWidth(EncodeChar(c)[0]) == |EncodeChar(c)|
    ensures Unpack(EncodeChar(c)) == c as int
  {
    var n := c as int;
    assert n == n / 0x40 * 0x40 + n % 0x40;
    assert n / 0x40 == n / 0x1000 * 0x40 + n / 0x40 % 0x40;
    assert n / 0x1000 == n / 0x4_0000 * 0x40 + n / 0x1000 % 0x40;
  }

  lemma EncodeCharInjective(c: char, d: char, x: bytes, y: bytes)
    requires EncodeChar(c) + x == EncodeChar(d) + y
    ensures c == d && x == y
  {
    var e, f := EncodeChar(c), EncodeChar(d);
    UnpackEncodeChar(c);
    UnpackEncodeChar(d);
    assert e[0] == (e + x)[0] == (f + y)[0] == f[0];
    assert |e| == |f|;
    assert e == (e + x)[..|e|] == (f + y)[..|f|] == f;
    assert x == (e + x)[|e|..] == (f + y)[|f|..] == y;
    assert c as int == d as int;
  }

  /** Decoding is unambiguous: a byte string is the UTF-8 of at most one text. */
  lemma {:induction false} EncodeInjective(s: string, t: string)
    requires Encode(s) == Encode(t)
    ensures s == t
  {
    if s != [] && t != [] {
      EncodeCharInjective(s[0], t[0], Encode(s[1..]), Encode(t[1..]));
      EncodeInjective(s[1..], t[1..]);
      assert s == [s[0]] + s[1..] && t == [t[0]] + t[1..];
    }
  }

  predicate IsScalar(n: int) {
    0 <= n < 0xD800 || 0xE000 <= n < 0x11_0000
  }

  /** `String::from_utf8`: overlong forms, surrogates and stray bytes are refused by re-encoding the candidate. */
  function Decode(b: bytes): (s: Option<string>) {
    if b == [] then Some("")
    else
      var w := LeadWidth(b[0]);
      if w > |b| || !IsScalar(Unpack(b[..w])) then None
      else
        var c := Unpack(b[..w]) as char;
        if EncodeChar(c) != b[..w] then None
        else
          var rest := Decode(b[w..]);
          if rest.None? then None else Some([c] + rest.value)
  }

  lemma {:induction false} DecodeOfEncode(s: string)
    ensures Decode(Encode(s)) == Some(s)
  {
    if s != [] {
      var b, e := Encode(s), EncodeChar(s[0]);
      UnpackEncodeChar(s[0]);
      assert b[..|e|] == e && b[|e|..] == Encode(s[1..]);
      DecodeOfEncode(s[1..]);
      assert s == [s[0]] + s[1..];
    }
  }

  lemma DecodeStep(b: bytes)
    requires b != [] && Decode(b).Some?
    ensures var w := LeadWidth(b[0]);
            && w <= |b| && IsScalar(Unpack(b[..w])) && Decode(b[w..]).Some?
            && EncodeChar(Unpack(b[..w]) as char) == b[..w]
            && Decode(b).value == [Unpack(b[..w]) as char] + Decode(b[w..]).value
  {
    hide EncodeChar;
    hide Unpack;
  }

  lemma EncodeCons(c: char, rest: string)
    ensures Encode([c] + rest) == EncodeChar(c) + Encode(rest)
  {
    assert ([c] + rest)[1..] == rest;
  }

  lemma DecodeNothing()
    ensures Decode([]) == Some("") && Encode("") == []
  {
  }

  lemma Rejoined<T>(s: seq<T>, k: nat)
    requires k <= |s|
    ensures s[..k] + s[k..] == s
  {
  }

  lemma {:induction false} EncodeOfDecode(b: bytes)
    requires Decode(b).Some?
    ensures Encode(Decode(b).value) == b
  {
    hide Decode;
    hide Encode;
    hide EncodeChar;
    hide Unpack;
    hide LeadWidth;
    if b == [] {
      DecodeNothing();
    } else {
      DecodeStep(b);
      var w := LeadWidth(b[0]);
      EncodeOfDecode(b[w..]);
      EncodeCons(Unpack(b[..w]) as char, Decode(b[w..]).value);
      Rejoined(b, w);
    }
  }

  /** `char::is_whitespace`: the Unicode White_Space property. */
  predicate IsWhitespace(c: char) {
    var n := c as int;
    9 <= n <= 13 || n == 0x20 || n == 0x85 || n == 0xA0 || n == 0x1680 || 0x2000 <= n <= 0x200A
    || n == 0x2028 || n == 0x2029 || n == 0x202F || n == 0x205F || n == 0x3000
  }

  /** `text.trim().is_empty()` */
  predicate Blank(s: string) {
    forall i :: 0 <= i < |s| ==> IsWhitespace(s[i])
  }
}

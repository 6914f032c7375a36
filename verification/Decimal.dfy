/** Decimal text of unsigned integers, as written by `std::to_string` and read by `u64::from_str`. */
module Decimal {
  import opened Base

  predicate IsDigit(b: byte) {
    48 <= b <= 57
  }

  function ToDecimal(n: nat): (b: bytes)
    ensures b != [] && forall i :: 0 <= i < |b| ==> IsDigit(b[i])
  {
    if n < 10 then [48 + n] else ToDecimal(n / 10) + [48 + n % 10]
  }

  function DigitsValue(b: bytes): nat
    requires forall i :: 0 <= i < |b| ==> IsDigit(b[i])
  {
    if b == [] then 0
    else
      assert IsDigit(b[|b| - 1]);
      DigitsValue(b[..|b| - 1]) * 10 + (b[|b| - 1] - 48)
  }

  function ParseDigits(b: bytes): Option<nat> {
    if b == [] || (exists i :: 0 <= i < |b| && !IsDigit(b[i])) then None
    else if DigitsValue(b) > U64_MAX then None
    else Some(DigitsValue(b))
  }

  /** An optional plus sign, then digits, within 64 bits. */
  function ParseU64(b: bytes): Option<nat> {
    if b != [] && b[0] == 43 then ParseDigits(b[1..]) else ParseDigits(b)
  }

  lemma {:induction false} ValueOfToDecimal(n: nat)
    ensures DigitsValue(ToDecimal(n)) == n
  {
    if n >= 10 {
      ValueOfToDecimal(n / 10);
      var b := ToDecimal(n);
      assert b[..|b| - 1] == ToDecimal(n / 10);
    }
  }

  /** Reading inverts writing on every 64-bit value. */
  lemma ParseOfToDecimal(n: nat)
    requires n <= U64_MAX
    ensures ParseU64(ToDecimal(n)) == Some(n)
  {
    ValueOfToDecimal(n);
    assert IsDigit(ToDecimal(n)[0]);
  }

  function Power10(k: nat): nat {
    if k == 0 then 1 else 10 * Power10(k - 1)
  }

  lemma {:induction false} ToDecimalLength(n: nat, k: nat)
    requires 0 < k && n < Power10(k)
    ensures |ToDecimal(n)| <= k
  {
    if n >= 10 {
      assert k > 1 by { assert Power10(1) == 10 * Power10(0); }
      ToDecimalLength(n / 10, k - 1);
    }
  }

  /** Three hundred and five. */
  lemma KnownNumber()
    ensures ToDecimal(305) == [51, 48, 53] && ParseU64([43, 51, 48, 53]) == Some(305)
  {
    assert ToDecimal(3) == [51] && ToDecimal(30) == [51, 48];
    var digits: bytes := [51, 48, 53];
    assert digits == ToDecimal(305);
    ValueOfToDecimal(305);
    assert [43, 51, 48, 53][1..] == digits;
    assert forall i :: 0 <= i < |digits| ==> IsDigit(digits[i]);
  }
}

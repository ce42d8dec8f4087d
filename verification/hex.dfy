/**
 * Hexadecimal numerals as read by `parseInt(id, 16)`: digits 0-9, a-f and
 * A-F, most significant digit first, with an unbounded natural value.
 */
module Hex {

  predicate IsHexDigit(c: char) {
    ('0' <= c <= '9') || ('a' <= c <= 'f') || ('A' <= c <= 'F')
  }

  /** Every character is a hexadecimal digit (the empty string qualifies). */
  predicate AllHexDigits(s: string) {
    forall i :: 0 <= i < |s| ==> IsHexDigit(s[i])
  }

  /** A non-empty string of hexadecimal digits: an id the router accepts. */
  predicate IsHexString(s: string) {
    |s| > 0 && AllHexDigits(s)
  }

  function DigitValue(c: char): (v: nat)
    requires IsHexDigit(c)
    ensures v < 16
    ensures ('0' <= c <= '9') <==> v < 10
  {
    if '0' <= c <= '9' then c as int - '0' as int
    else if 'a' <= c <= 'f' then c as int - 'a' as int + 10
    else c as int - 'A' as int + 10
  }

  /**
   * Value of a hexadecimal numeral, read left to right (Horner's rule); a
   * numeral of k digits is below 16^k.
   */
  function HexValue(s: string): (v: nat)
    requires AllHexDigits(s)
    ensures v < Pow16(|s|)
  {
    if |s| == 0 then 0
    else HexValue(s[..|s| - 1]) * 16 + DigitValue(s[|s| - 1])
  }

  function Pow16(k: nat): (p: nat)
    ensures p >= 1
  {
    if k == 0 then 1 else 16 * Pow16(k - 1)
  }

  /** Reference reading: the sum of each digit times its positional weight. */
  function PositionalValue(s: string): (v: nat)
    requires AllHexDigits(s)
  {
    if |s| == 0 then 0
    else DigitValue(s[0]) * Pow16(|s| - 1) + PositionalValue(s[1..])
  }

  /** Prepending a digit adds that digit at the highest position. */
  lemma {:induction false} HexValuePrepend(c: char, s: string)
    requires IsHexDigit(c) && AllHexDigits(s)
    ensures AllHexDigits([c] + s)
    ensures HexValue([c] + s) == DigitValue(c) * Pow16(|s|) + HexValue(s)
  {
    var t := [c] + s;
    assert AllHexDigits(t) by {
      forall i | 0 <= i < |t| ensures IsHexDigit(t[i]) {
        if i > 0 { assert t[i] == s[i - 1]; }
      }
    }
    if |s| > 0 {
      var s' := s[..|s| - 1];
      var d := s[|s| - 1];
      assert AllHexDigits(s');
      assert t[..|t| - 1] == [c] + s';
      assert t[|t| - 1] == d;
      HexValuePrepend(c, s');
      assert HexValue(t) == HexValue([c] + s') * 16 + DigitValue(d);
      assert HexValue(s) == HexValue(s') * 16 + DigitValue(d);
      assert Pow16(|s|) == Pow16(|s'|) * 16;
      HornerShift(DigitValue(c), Pow16(|s'|), HexValue(s'), DigitValue(d));
    } else {
      assert t == [c];
      assert t[..0] == [];
    }
  }

  /** The arithmetic step of HexValuePrepend, on plain numbers. */
  lemma HornerShift(a: int, p: int, h: int, v: int)
    ensures (a * p + h) * 16 + v == a * (p * 16) + (h * 16 + v)
  {
    assert (a * p + h) * 16 == (a * p) * 16 + h * 16;
    assert (a * p) * 16 == a * (p * 16);
  }

  /** Horner's rule and the positional reading agree on every numeral. */
  lemma {:induction false} HexValueIsPositional(s: string)
    requires AllHexDigits(s)
    ensures HexValue(s) == PositionalValue(s)
  {
    if |s| > 0 {
      var rest := s[1..];
      assert AllHexDigits(rest);
      assert s == [s[0]] + rest;
      HexValuePrepend(s[0], rest);
      HexValueIsPositional(rest);
    }
  }

  /**
   * Ids of at most 13 hexadecimal digits have values below 2^52, so a double
   * holds them exactly and the unbounded value is the one `parseInt` returns.
   */
  lemma ShortIdsAreExact(s: string)
    requires AllHexDigits(s) && |s| <= 13
    ensures HexValue(s) < 0x10_0000_0000_0000
  {
    Pow16Monotonic(|s|, 13);
    assert Pow16(4) == 0x1_0000;
    assert Pow16(8) == 0x1_0000_0000;
    assert Pow16(12) == 0x1_0000_0000_0000;
    assert Pow16(13) == 0x10_0000_0000_0000;
  }

  lemma {:induction false} Pow16Monotonic(a: nat, b: nat)
    requires a <= b
    ensures Pow16(a) <= Pow16(b)
  {
    if a < b {
      Pow16Monotonic(a, b - 1);
    }
  }

  /** A leading zero does not change the value. */
  lemma LeadingZeroIgnored(s: string)
    requires AllHexDigits(s)
    ensures AllHexDigits("0" + s)
    ensures HexValue("0" + s) == HexValue(s)
  {
    HexValuePrepend('0', s);
  }

  /** Lower-case rendering of a hexadecimal digit. */
  function LowerDigit(c: char): (l: char)
    requires IsHexDigit(c)
    ensures IsHexDigit(l) && !('A' <= l <= 'F')
  {
    if 'A' <= c <= 'F' then (c as int - 'A' as int + 'a' as int) as char else c
  }

  function LowerHex(s: string): (l: string)
    requires AllHexDigits(s)
    ensures |l| == |s| && AllHexDigits(l)
    ensures forall i :: 0 <= i < |s| ==> l[i] == LowerDigit(s[i])
  {
    if |s| == 0 then [] else LowerHex(s[..|s| - 1]) + [LowerDigit(s[|s| - 1])]
  }

  /** Digits are read case-insensitively: "AB" and "ab" have one value. */
  lemma {:induction false} HexValueIgnoresCase(s: string)
    requires AllHexDigits(s)
    ensures HexValue(LowerHex(s)) == HexValue(s)
  {
    if |s| > 0 {
      var s' := s[..|s| - 1];
      var l := LowerHex(s);
      assert AllHexDigits(s');
      assert l[..|l| - 1] == LowerHex(s');
      HexValueIgnoresCase(s');
    }
  }
}

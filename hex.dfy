/**
 * Python's `"{0:#08x}".format(n)`: the prefix "0x" and the lower-case
 * hexadecimal digits of `n`, zero-padded after the prefix to a total width
 * of 8 characters (so to at least 6 digits). `ParseHex` is its inverse.
 */
module Hex {

  const DIGITS: string := "0123456789abcdef"

  predicate IsHexDigit(c: char) { '0' <= c <= '9' || 'a' <= c <= 'f' }

  predicate AllHexDigits(s: string) { forall i :: 0 <= i < |s| ==> IsHexDigit(s[i]) }

  function Pow16(k: nat): (r: nat)
    ensures r >= 1
  {
    if k == 0 then 1 else 16 * Pow16(k - 1)
  }

  function HexDigit(d: nat): (c: char)
    requires d < 16
    ensures IsHexDigit(c)
  {
    DIGITS[d]
  }

  function DigitValue(c: char): (d: nat)
    ensures d < 16
  {
    if '0' <= c <= '9' then c as int - '0' as int
    else if 'a' <= c <= 'f' then c as int - 'a' as int + 10
    else 0
  }

  /** The shortest lower-case hexadecimal spelling of `n` ("0" for zero). */
  function LowerHex(n: nat): (s: string)
    ensures |s| >= 1 && AllHexDigits(s)
    decreases n
  {
    if n < 16 then [HexDigit(n)] else LowerHex(n / 16) + [HexDigit(n % 16)]
  }

  /** `s` preceded by enough '0's to make it at least `width` characters long. */
  function ZeroPad(s: string, width: nat): (r: string)
    ensures |r| == if |s| >= width then |s| else width
    ensures r[|r| - |s|..] == s
    ensures forall i :: 0 <= i < |r| - |s| ==> r[i] == '0'
  {
    if |s| >= width then s else seq(width - |s|, _ => '0') + s
  }

  /** Python's `"{0:#08x}".format(n)`. */
  function FormatFlags(n: nat): (s: string)
  {
    "0x" + ZeroPad(LowerHex(n), 6)
  }

  /** The value of a string of hexadecimal digits, most significant first. */
  function ParseHex(s: string): (n: nat)
  {
    if s == [] then 0 else ParseHex(s[..|s| - 1]) * 16 + DigitValue(s[|s| - 1])
  }

  /** `DigitValue` undoes `HexDigit`. */
  lemma DigitRoundTrip(d: nat)
    requires d < 16
    ensures DigitValue(HexDigit(d)) == d
  {
    assert DIGITS[d] as int == if d < 10 then '0' as int + d else 'a' as int + d - 10;
  }

  lemma {:induction false} LowerHexRoundTrip(n: nat)
    ensures ParseHex(LowerHex(n)) == n
    decreases n
  {
    var d := HexDigit(n % 16);
    DigitRoundTrip(n % 16);
    if n >= 16 {
      var s := LowerHex(n / 16) + [d];
      assert s[..|s| - 1] == LowerHex(n / 16);
      LowerHexRoundTrip(n / 16);
    }
  }

  lemma {:induction false} LowerHexLength(n: nat, k: nat)
    requires k >= 1 && n < Pow16(k)
    ensures |LowerHex(n)| <= k
    decreases n
  {
    if n >= 16 {
      LowerHexLength(n / 16, k - 1);
    }
  }

  lemma {:induction false} ParseHexLeadingZeros(z: string, s: string)
    requires forall i :: 0 <= i < |z| ==> z[i] == '0'
    ensures ParseHex(z + s) == ParseHex(s)
    decreases |s|
  {
    if s == [] {
      assert z + s == z;
      ParseHexZeros(z);
    } else {
      var t := z + s;
      assert t[..|t| - 1] == z + s[..|s| - 1];
      ParseHexLeadingZeros(z, s[..|s| - 1]);
    }
  }

  lemma {:induction false} ParseHexZeros(z: string)
    requires forall i :: 0 <= i < |z| ==> z[i] == '0'
    ensures ParseHex(z) == 0
    decreases |z|
  {
    if z != [] {
      ParseHexZeros(z[..|z| - 1]);
    }
  }

  /**
   * For a 24-bit value the formatted flags are exactly "0x" and six
   * lower-case hexadecimal digits, and those digits spell the value.
   */
  lemma FlagsFormat(n: nat)
    requires n < 0x100_0000
    ensures var s := FormatFlags(n);
      |s| == 8 && s[..2] == "0x" && AllHexDigits(s[2..]) && ParseHex(s[2..]) == n
  {
    assert Pow16(6) == 0x100_0000;
    LowerHexLength(n, 6);
    LowerHexRoundTrip(n);
    var h := LowerHex(n);
    var p := ZeroPad(h, 6);
    assert p == p[..6 - |h|] + h;
    ParseHexLeadingZeros(p[..6 - |h|], h);
    var s := FormatFlags(n);
    assert s[2..] == p;
  }
}

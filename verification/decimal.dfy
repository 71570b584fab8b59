/**
 * Decimal text of natural numbers, as a JavaScript template literal
 * renders an integral Number, and the reading of such text back.
 */
module Decimal {

  import opened Options

  predicate IsDigit(c: char) {
    '0' <= c <= '9'
  }

  predicate AllDigits(s: string) {
    forall i :: 0 <= i < |s| ==> IsDigit(s[i])
  }

  function DigitChar(d: nat): (c: char)
    requires d < 10
    ensures IsDigit(c)
    ensures c as int - '0' as int == d
  {
    (d + '0' as int) as char
  }

  function DigitValue(c: char): nat
    requires IsDigit(c)
  {
    c as int - '0' as int
  }

  /** Digit text without a superfluous leading zero: "0", or digits starting with 1..9. */
  predicate Canonical(s: string) {
    |s| == 1 || (|s| > 1 && s[0] != '0')
  }

  /** The shortest decimal text of `n`: digits only, no leading zero unless `n` is 0. */
  function FromNat(n: nat): (s: string)
    ensures |s| >= 1
    ensures AllDigits(s)
    ensures Canonical(s)
    ensures s[0] == '0' ==> n == 0
    decreases n
  {
    if n < 10 then [DigitChar(n)] else FromNat(n / 10) + [DigitChar(n % 10)]
  }

  /** The value of a string of decimal digits, most significant first. */
  function ToNat(s: string): nat
    requires AllDigits(s)
    decreases |s|
  {
    if |s| == 0 then 0 else ToNat(s[..|s| - 1]) * 10 + DigitValue(s[|s| - 1])
  }

  /** Reading back the text of a number gives the number. */
  lemma {:induction false} ToNatFromNat(n: nat)
    ensures ToNat(FromNat(n)) == n
    decreases n
  {
    if n >= 10 {
      var s := FromNat(n);
      assert s[..|s| - 1] == FromNat(n / 10);
      ToNatFromNat(n / 10);
    }
  }

  /** The length of the longest prefix of `s` made of digits. */
  function DigitRun(s: string): (k: nat)
    ensures k <= |s|
    ensures AllDigits(s[..k])
    ensures k < |s| ==> !IsDigit(s[k])
    decreases |s|
  {
    if |s| == 0 || !IsDigit(s[0]) then 0
    else
      var k := 1 + DigitRun(s[1..]);
      assert s[..k] == [s[0]] + s[1..][..k - 1];
      k
  }

  /** Digits that do not start with a zero stand for a positive number. */
  lemma {:induction false} LeadingDigitPositive(s: string)
    requires |s| >= 1 && AllDigits(s) && s[0] != '0'
    ensures ToNat(s) >= 1
    decreases |s|
  {
    if |s| > 1 {
      LeadingDigitPositive(s[..|s| - 1]);
    }
  }

  /** Canonical digit text is the text of its own value. */
  lemma {:induction false} FromNatToNat(s: string)
    requires AllDigits(s) && Canonical(s)
    ensures FromNat(ToNat(s)) == s
    decreases |s|
  {
    if |s| > 1 {
      var init := s[..|s| - 1];
      LeadingDigitPositive(init);
      assert Canonical(init);
      FromNatToNat(init);
      var n := ToNat(s);
      assert n / 10 == ToNat(init) && n % 10 == DigitValue(s[|s| - 1]);
      assert s == init + [s[|s| - 1]];
    }
  }

  /**
   * Reads a leading number off `s`: its value and the text after it, or None
   * when `s` does not start with a digit or its digits have a superfluous leading zero.
   */
  function ReadNat(s: string): (r: Option<(nat, string)>)
    ensures r.Some? ==> |r.value.1| < |s|
  {
    var k := DigitRun(s);
    if k == 0 || !Canonical(s[..k]) then None else Some((ToNat(s[..k]), s[k..]))
  }

  /** Whatever is read is the text of the number read, followed by a rest that does not start with a digit. */
  lemma ReadNatShows(s: string)
    requires ReadNat(s).Some?
    ensures s == FromNat(ReadNat(s).value.0) + ReadNat(s).value.1
    ensures |ReadNat(s).value.1| == 0 || !IsDigit(ReadNat(s).value.1[0])
  {
    var k := DigitRun(s);
    FromNatToNat(s[..k]);
    assert s == s[..k] + s[k..];
  }

  /** A number's text followed by anything that does not start with a digit is read back as that number and that rest. */
  lemma ReadNatFromNat(n: nat, rest: string)
    requires |rest| == 0 || !IsDigit(rest[0])
    ensures ReadNat(FromNat(n) + rest) == Some((n, rest))
  {
    var s := FromNat(n) + rest;
    var k := DigitRun(s);
    assert forall i :: 0 <= i < |FromNat(n)| ==> s[i] == FromNat(n)[i];
    assert |rest| > 0 ==> s[|FromNat(n)|] == rest[0];
    assert k == |FromNat(n)|;
    assert s[..k] == FromNat(n);
    assert s[k..] == rest;
    ToNatFromNat(n);
  }
}

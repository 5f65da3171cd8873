/** Decimal text of unsigned integers, as .NET renders a `uint` or `ulong`
    inside `String.Format("{0}", n)`: the digits of n, most significant
    first, without sign, separators or leading zeros. */
module DecimalText {
  import opened Wrappers

  predicate IsDigit(c: char) {
    '0' <= c <= '9'
  }

  /** A non-empty run of decimal digits. */
  predicate IsDigits(s: string) {
    |s| > 0 && forall i :: 0 <= i < |s| ==> IsDigit(s[i])
  }

  /** Digits as .NET writes them: no leading zero unless the number is 0. */
  predicate IsCanonical(s: string) {
    IsDigits(s) && (s[0] == '0' ==> |s| == 1)
  }

  function DigitChar(d: nat): (c: char)
    requires d < 10
    ensures IsDigit(c) && DigitValue(c) == d
  {
    ('0' as int + d) as char
  }

  function DigitValue(c: char): (d: nat)
    requires IsDigit(c)
    ensures d < 10
  {
    c as int - '0' as int
  }

  /** The text of n. */
  function FromNat(n: nat): (s: string)
    ensures IsCanonical(s)
    ensures n < 10 <==> |s| == 1
    decreases n
  {
    if n < 10 then [DigitChar(n)] else FromNat(n / 10) + [DigitChar(n % 10)]
  }

  /** The number a run of digits denotes. */
  function ToNat(s: string): (n: nat)
    requires IsDigits(s)
    decreases |s|
  {
    if |s| == 1 then DigitValue(s[0])
    else 10 * ToNat(s[..|s| - 1]) + DigitValue(s[|s| - 1])
  }

  /** Reads back exactly the texts that FromNat writes. */
  function Parse(s: string): Option<nat> {
    if IsCanonical(s) then Some(ToNat(s)) else None
  }

  lemma {:induction false} ToNatFromNat(n: nat)
    ensures ToNat(FromNat(n)) == n
    decreases n
  {
    if n >= 10 {
      var s := FromNat(n);
      ToNatFromNat(n / 10);
      assert s[..|s| - 1] == FromNat(n / 10);
    }
  }

  /** A canonical run of more than one digit denotes at least 10. */
  lemma {:induction false} ToNatLowerBound(s: string)
    requires IsCanonical(s) && |s| > 1
    ensures ToNat(s) >= 10
    decreases |s|
  {
    var init := s[..|s| - 1];
    assert init[0] == s[0];
    if |init| > 1 {
      ToNatLowerBound(init);
    } else {
      assert ToNat(init) == DigitValue(s[0]) >= 1;
    }
  }

  lemma {:induction false} FromNatToNat(s: string)
    requires IsCanonical(s)
    ensures FromNat(ToNat(s)) == s
    decreases |s|
  {
    if |s| > 1 {
      var init := s[..|s| - 1];
      assert init[0] == s[0];
      ToNatLowerBound(s);
      FromNatToNat(init);
      assert s == init + [s[|s| - 1]];
    }
  }

  /** Parse inverts FromNat, and everything Parse accepts is FromNat's text. */
  lemma ParseFromNat(n: nat)
    ensures Parse(FromNat(n)) == Some(n)
  {
    ToNatFromNat(n);
  }

  lemma FromNatParse(s: string)
    ensures Parse(s).Some? ==> FromNat(Parse(s).value) == s
  {
    if IsCanonical(s) {
      FromNatToNat(s);
    }
  }
}

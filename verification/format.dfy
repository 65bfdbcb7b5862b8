/** Rust's decimal formatting of unsigned integers, as used by `format!("{:02}", n)`:
    the decimal digits of `n` with no sign and no leading zeros, left-padded with
    `'0'` up to a minimum width. `ParseDecimal` is the reference decoder that the
    round-trip lemmas check the rendering against. */
module Format {

  predicate IsDigit(c: char) {
    '0' <= c <= '9'
  }

  predicate AllDigits(s: string) {
    forall i :: 0 <= i < |s| ==> IsDigit(s[i])
  }

  function DigitValue(c: char): (d: nat)
    requires IsDigit(c)
    ensures d < 10
  {
    c as int - '0' as int
  }

  function DigitChar(d: nat): (c: char)
    requires d < 10
    ensures IsDigit(c) && DigitValue(c) == d
  {
    ('0' as int + d) as char
  }

  /** The decimal representation of `n` (Rust's `Display` for unsigned integers). */
  function Decimal(n: nat): (s: string)
    ensures 1 <= |s| && AllDigits(s)
    ensures s[0] == '0' ==> n == 0
    ensures |s| == 1 <==> n < 10
    ensures |s| <= 2 <==> n < 100
    decreases n
  {
    if n < 10 then [DigitChar(n)] else Decimal(n / 10) + [DigitChar(n % 10)]
  }

  /** The value of a string of decimal digits; the empty string reads as 0. */
  function ParseDecimal(s: string): nat
    requires AllDigits(s)
    decreases |s|
  {
    if |s| == 0 then 0 else 10 * ParseDecimal(s[..|s| - 1]) + DigitValue(s[|s| - 1])
  }

  function Zeros(k: nat): (s: string)
    ensures |s| == k && AllDigits(s)
  {
    seq(k, _ => '0')
  }

  /** Reading back the decimal rendering gives the number. */
  lemma {:induction false} DecimalRoundTrip(n: nat)
    ensures ParseDecimal(Decimal(n)) == n
    decreases n
  {
    if n >= 10 {
      var s := Decimal(n);
      assert s[..|s| - 1] == Decimal(n / 10);
      DecimalRoundTrip(n / 10);
    }
  }

  /** Leading zeros do not change the value read. */
  lemma {:induction false} LeadingZerosIgnored(k: nat, s: string)
    requires AllDigits(s)
    ensures ParseDecimal(Zeros(k) + s) == ParseDecimal(s)
    decreases |s|
  {
    var t := Zeros(k) + s;
    if |s| == 0 {
      assert t == Zeros(k);
      AllZerosReadZero(k);
    } else {
      assert t[..|t| - 1] == Zeros(k) + s[..|s| - 1];
      LeadingZerosIgnored(k, s[..|s| - 1]);
    }
  }

  lemma {:induction false} AllZerosReadZero(k: nat)
    ensures ParseDecimal(Zeros(k)) == 0
  {
    if k > 0 {
      assert Zeros(k)[..k - 1] == Zeros(k - 1);
      AllZerosReadZero(k - 1);
    }
  }

  /** `format!("{:0w}", n)`: the decimal digits of `n`, left-padded with `'0'`
      to at least `width` characters and never truncated. */
  function ZeroPad(n: nat, width: nat): (s: string)
    ensures AllDigits(s)
    ensures |s| == if |Decimal(n)| < width then width else |Decimal(n)|
    ensures ParseDecimal(s) == n
  {
    var d := Decimal(n);
    DecimalRoundTrip(n);
    if |d| >= width then d
    else
      LeadingZerosIgnored(width - |d|, d);
      Zeros(width - |d|) + d
  }
}

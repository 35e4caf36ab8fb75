/** Decimal numerals as the scripts and the C tools print and read them:
    `int(s)`, `"%d" % n` and `"%0<width>d" % n` on ASCII digits. */
module Decimals {

  predicate IsDigit(c: char) {
    '0' <= c <= '9'
  }

  predicate AllDigits(s: string) {
    forall i | 0 <= i < |s| :: IsDigit(s[i])
  }

  /** What the pattern `[0-9]+` matches. */
  predicate IsNumeral(s: string) {
    s != "" && AllDigits(s)
  }

  function DigitChar(d: nat): (c: char)
    requires d < 10
    ensures IsDigit(c)
  {
    '0' + d as char
  }

  function DigitValue(c: char): (d: nat)
    requires IsDigit(c)
    ensures d < 10 && DigitChar(d) == c
  {
    (c - '0') as nat
  }

  /** `int(s)` for a string of digits. */
  function ValueOf(s: string): nat
    requires AllDigits(s)
  {
    if s == "" then 0 else 10 * ValueOf(s[..|s| - 1]) + DigitValue(s[|s| - 1])
  }

  /** The number that a string of digits names; 0 for other strings. */
  function NumberIn(s: string): nat {
    if AllDigits(s) then ValueOf(s) else 0
  }

  /** `"%d" % n` */
  function Decimal(n: nat): (s: string)
    ensures IsNumeral(s)
  {
    if n < 10 then [DigitChar(n)] else Decimal(n / 10) + [DigitChar(n % 10)]
  }

  function Zeros(k: nat): (s: string)
    ensures |s| == k && AllDigits(s)
  {
    seq(k, _ => '0')
  }

  /** `("%0<width>d") % n` */
  function PadTo(width: nat, n: nat): (s: string)
    ensures IsNumeral(s)
    ensures |s| >= width
  {
    var d := Decimal(n);
    if |d| < width then Zeros(width - |d|) + d else d
  }

  lemma {:induction false} ValueOfDecimal(n: nat)
    ensures ValueOf(Decimal(n)) == n
  {
    if n >= 10 {
      ValueOfDecimal(n / 10);
      assert Decimal(n)[..|Decimal(n)| - 1] == Decimal(n / 10);
    }
  }

  lemma {:induction false} ValueOfLeadingZeros(k: nat, s: string)
    requires AllDigits(s)
    ensures ValueOf(Zeros(k) + s) == ValueOf(s)
  {
    if s == "" {
      assert Zeros(k) + s == Zeros(k);
      if k > 0 {
        assert Zeros(k)[..k - 1] == Zeros(k - 1) == Zeros(k - 1) + "";
        ValueOfLeadingZeros(k - 1, "");
      }
    } else {
      var t := s[..|s| - 1];
      ValueOfLeadingZeros(k, t);
      assert (Zeros(k) + s)[..|Zeros(k) + s| - 1] == Zeros(k) + t;
    }
  }

  /** Reading back a padded numeral gives the number, for every width. */
  lemma ValueOfPadTo(width: nat, n: nat)
    ensures ValueOf(PadTo(width, n)) == n
  {
    hide Decimal, ValueOf;
    ValueOfDecimal(n);
    var d := Decimal(n);
    if |d| < width {
      ValueOfLeadingZeros(width - |d|, d);
    }
  }

  lemma PadToStep(width: nat, v: nat, d: nat)
    requires width >= 1 && d < 10
    ensures PadTo(width + 1, 10 * v + d) == PadTo(width, v) + [DigitChar(d)]
  {
    var n := 10 * v + d;
    if n >= 10 {
      assert Decimal(n) == Decimal(v) + [DigitChar(d)];
    } else {
      assert Decimal(n) == [DigitChar(d)];
      assert Zeros(width) == Zeros(width - 1) + "0";
    }
  }

  /** Printing a numeral's value at the numeral's own width gives the numeral
      back, leading zeros included. */
  lemma {:induction false} PadToOwnWidth(s: string)
    requires IsNumeral(s)
    ensures PadTo(|s|, ValueOf(s)) == s
  {
    var t, c := s[..|s| - 1], s[|s| - 1];
    assert s == t + [c];
    if t != "" {
      PadToOwnWidth(t);
      PadToStep(|t|, ValueOf(t), DigitValue(c));
    }
  }

  lemma {:induction false} DecimalLengthMonotone(m: nat, n: nat)
    requires m <= n
    ensures |Decimal(m)| <= |Decimal(n)|
  {
    if m >= 10 {
      DecimalLengthMonotone(m / 10, n / 10);
    }
  }

  /** A merge may replace one padding width by another: once a numeral padded
      to `width` names `n`, its own length pads every later number alike. */
  lemma PadToWidthChange(width: nat, n: nat, h: nat)
    requires n <= h
    ensures PadTo(|PadTo(width, n)|, h) == PadTo(width, h)
  {
    DecimalLengthMonotone(n, h);
  }

  lemma PadToInjective(width: nat, m: nat, n: nat)
    requires PadTo(width, m) == PadTo(width, n)
    ensures m == n
  {
    ValueOfPadTo(width, m);
    ValueOfPadTo(width, n);
  }
}

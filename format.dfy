/** The `{x:6.2f}` field get_drives prints a drive temperature with
    (check_megaraid.py:382), on exact decimals: two digits after the point,
    rounded half away from zero (the magnitude is rounded half up and the
    sign put back), padded with blanks on the left to six characters. */
module Format {
  import opened Common
  import opened Text

  /** `n` blanks. */
  function Blanks(n: nat): (s: string)
    ensures |s| == n && forall i :: 0 <= i < n ==> s[i] == ' '
  {
    seq(n, i => ' ')
  }

  /** `s` right-aligned in a field of `width` characters. */
  function PadLeft(s: string, width: nat): (r: string)
    ensures |r| == if |s| < width then width else |s|
  {
    if |s| < width then Blanks(width - |s|) + s else s
  }

  /** The two digits of n % 100. */
  function Cents(n: nat): (s: string)
    ensures |s| == 2 && AllDigits(s)
  {
    [DigitChar(n % 100 / 10), DigitChar(n % 10)]
  }

  /** Hundredths of a non-negative value, rounded half up. */
  function RoundCents(m: real): nat
    requires m >= 0.0
  {
    var n := (m * 100.0 + 0.5).Floor;
    assert n >= 0;
    n as nat
  }

  /** Sign, whole part, point and two digits of `n` hundredths. */
  function Render(negative: bool, n: nat): (s: string)
    ensures |s| >= 4
  {
    (if negative then "-" else "") + NatToString(n / 100) + "." + Cents(n)
  }

  /** The field before padding; a negative number that rounds to zero keeps
      its sign, as Python's does. */
  function FixedBody(x: real): (s: string)
    ensures |s| >= 4
  {
    Render(x < 0.0, RoundCents(if x < 0.0 then -x else x))
  }

  function Fixed62(x: real): (s: string)
    ensures |s| >= 6
  {
    PadLeft(FixedBody(x), 6)
  }

  lemma CentsValue(n: nat)
    ensures DigitsValue(Cents(n)) == n % 100
  {
    var s := Cents(n);
    DigitsSnoc([s[0]], s[1]);
    DigitsSnoc([], s[0]);
    assert [s[0]] + [s[1]] == s && [] + [s[0]] == [s[0]];
  }

  /** float() strips the blanks the padding adds. */
  lemma StripPadded(s: string, n: nat)
    requires s != [] && !IsSpace(s[0]) && !IsSpace(s[|s| - 1])
    ensures Strip(Blanks(n) + s) == s
  {
    var p := Blanks(n) + s;
    SpaceRunIs(p, n);
    assert p[n..] == s;
    StripOfTrimmed(s);
  }

  /** Rounding a value with at most two decimals changes nothing. */
  lemma FixedBodyOfCents(cents: nat)
    ensures FixedBody(cents as real / 100.0) == Render(false, cents)
  {
    var x := cents as real / 100.0;
    assert x * 100.0 == cents as real;
    assert RoundCents(x) == cents;
  }

  /** The digits of the unpadded field spell the value. */
  lemma DecimalValueOfCents(cents: nat)
    ensures DecimalValue(NatToString(cents / 100), Cents(cents)) == cents as real / 100.0
  {
    var whole := NatToString(cents / 100);
    var frac := Cents(cents);
    DigitsOfNat(cents / 100);
    CentsValue(cents);
    assert Pow10(|frac|) == 100;
    assert DecimalValue(whole, frac) == (cents / 100) as real + (cents % 100) as real / 100.0;
    CentsSplit(cents);
  }

  lemma CentsSplit(cents: nat)
    ensures (cents / 100) as real + (cents % 100) as real / 100.0 == cents as real / 100.0
  {
    var q := cents / 100;
    var m := cents % 100;
    assert cents == q * 100 + m;
    assert cents as real == q as real * 100.0 + m as real;
  }

  /** float() does not see the padding. */
  lemma ParsePadLeft(s: string, width: nat)
    requires s != [] && !IsSpace(s[0]) && !IsSpace(s[|s| - 1])
    ensures ParseDecimal(PadLeft(s, width)) == ParseDecimal(s)
  {
    StripOfTrimmed(s);
    if |s| < width {
      StripPadded(s, width - |s|);
    }
    assert Strip(PadLeft(s, width)) == Strip(s);
  }

  /** The rendering of `n` hundredths reads back. */
  lemma RenderReadsBack(cents: nat)
    ensures var body := Render(false, cents);
      && body != [] && !IsSpace(body[0]) && !IsSpace(body[|body| - 1])
      && ParseDecimal(body) == Some(cents as real / 100.0)
  {
    var whole := NatToString(cents / 100);
    var frac := Cents(cents);
    var body := Render(false, cents);
    assert body == whole + "." + frac;
    DecimalOfDigits(whole, frac);
    DecimalValueOfCents(cents);
    assert body[0] == whole[0] && body[|body| - 1] == frac[1];
  }

  /** A temperature with at most two decimals is printed exactly: float()
      of the printed field gives it back. */
  lemma FixedReadsBack(cents: nat)
    ensures ParseDecimal(Fixed62(cents as real / 100.0)) == Some(cents as real / 100.0)
  {
    var body := Render(false, cents);
    FixedBodyOfCents(cents);
    RenderReadsBack(cents);
    ParsePadLeft(body, 6);
  }
}

/** The string operations the probe uses: Python's whitespace class, ASCII
    case folding, str.split with one separator character, str.strip,
    re.split(r'\s+', s.strip()), str(int), int() and float() of a text. */
module Text {
  import opened Common

  /** Characters matched by `\s` and removed by str.strip (the ASCII ones). */
  predicate IsSpace(c: char) {
    c == ' ' || c == '\t' || c == '\n' || c == '\r' || c == '\U{B}' || c == '\U{C}'
  }

  predicate IsDigit(c: char) {
    '0' <= c <= '9'
  }

  predicate NoSpace(s: string) {
    forall i :: 0 <= i < |s| ==> !IsSpace(s[i])
  }

  function Lower(c: char): char {
    if 'A' <= c <= 'Z' then (c as int + 32) as char else c
  }

  /** Lower-casing never creates or destroys a blank character. */
  lemma LowerKeepsSpace(c: char)
    ensures IsSpace(Lower(c)) <==> IsSpace(c)
  {
  }

  /** Equality under IGNORECASE (ASCII letters only). */
  predicate EqualsIgnoringCase(a: string, b: string) {
    |a| == |b| && forall i :: 0 <= i < |a| ==> Lower(a[i]) == Lower(b[i])
  }

  /** `s` begins with `p` under IGNORECASE. */
  predicate StartsWithIgnoringCase(s: string, p: string) {
    |p| <= |s| && EqualsIgnoringCase(s[..|p|], p)
  }

  /** Case-sensitive prefix test. */
  predicate StartsWith(s: string, p: string) {
    |p| <= |s| && s[..|p|] == p
  }

  /** Number of blank characters at the start of `s`. */
  function SpaceRun(s: string): (n: nat)
    ensures n <= |s|
    ensures forall i :: 0 <= i < n ==> IsSpace(s[i])
    ensures n < |s| ==> !IsSpace(s[n])
    decreases |s|
  {
    if s != [] && IsSpace(s[0]) then 1 + SpaceRun(s[1..]) else 0
  }

  /** Number of ASCII digits at the start of `s`. */
  function DigitRun(s: string): (n: nat)
    ensures n <= |s|
    ensures forall i :: 0 <= i < n ==> IsDigit(s[i])
    ensures n < |s| ==> !IsDigit(s[n])
    decreases |s|
  {
    if s != [] && IsDigit(s[0]) then 1 + DigitRun(s[1..]) else 0
  }

  /** Number of non-blank characters at the start of `s`. */
  function WordRun(s: string): (n: nat)
    ensures n <= |s|
    ensures forall i :: 0 <= i < n ==> !IsSpace(s[i])
    ensures n < |s| ==> IsSpace(s[n])
    decreases |s|
  {
    if s != [] && !IsSpace(s[0]) then 1 + WordRun(s[1..]) else 0
  }

  /** Number of blank characters at the end of `s`. */
  function TrailingSpace(s: string): (n: nat)
    ensures n <= |s|
    ensures forall i :: |s| - n <= i < |s| ==> IsSpace(s[i])
    ensures n < |s| ==> !IsSpace(s[|s| - n - 1])
    decreases |s|
  {
    if s != [] && IsSpace(s[|s| - 1]) then 1 + TrailingSpace(s[..|s| - 1]) else 0
  }

  lemma {:induction false} SpaceRunIs(s: string, n: nat)
    requires n <= |s| && (forall i :: 0 <= i < n ==> IsSpace(s[i])) && (n == |s| || !IsSpace(s[n]))
    ensures SpaceRun(s) == n
    decreases n
  {
    if n > 0 { SpaceRunIs(s[1..], n - 1); }
  }

  lemma {:induction false} DigitRunIs(s: string, n: nat)
    requires n <= |s| && (forall i :: 0 <= i < n ==> IsDigit(s[i])) && (n == |s| || !IsDigit(s[n]))
    ensures DigitRun(s) == n
    decreases n
  {
    if n > 0 { DigitRunIs(s[1..], n - 1); }
  }

  /** str.strip(): `s` without its leading and trailing blanks. */
  function Strip(s: string): (r: string)
    ensures r == "" || (!IsSpace(r[0]) && !IsSpace(r[|r| - 1]))
    ensures SpaceRun(s) + |r| <= |s| && r == s[SpaceRun(s)..SpaceRun(s) + |r|]
    ensures forall k :: SpaceRun(s) + |r| <= k < |s| ==> IsSpace(s[k])
  {
    var lead := SpaceRun(s);
    var t := s[lead..];
    var r := t[..|t| - TrailingSpace(t)];
    assert s[lead..lead + |r|] == r;
    r
  }

  /** A text with no blank at either end is its own strip(). */
  lemma StripOfTrimmed(s: string)
    requires s != [] && !IsSpace(s[0]) && !IsSpace(s[|s| - 1])
    ensures Strip(s) == s
  {
    SpaceRunIs(s, 0);
    assert TrailingSpace(s[0..]) == 0 by { assert s[0..] == s; }
  }

  /** Position of the first `c` in `s`, or |s| when there is none. */
  function IndexOf(s: string, c: char): (k: nat)
    ensures k <= |s|
    ensures k < |s| ==> s[k] == c
    ensures forall i :: 0 <= i < k ==> s[i] != c
    decreases |s|
  {
    if s == [] then 0 else if s[0] == c then 0 else 1 + IndexOf(s[1..], c)
  }

  /** str.split(c) for a single separator character. */
  function SplitOn(s: string, c: char): (parts: seq<string>)
    ensures |parts| >= 1
    ensures forall i :: 0 <= i < |parts| ==> c !in parts[i]
    decreases |s|
  {
    var k := IndexOf(s, c);
    if k == |s| then [s] else [s[..k]] + SplitOn(s[k + 1..], c)
  }

  /** c.join(parts), the inverse of SplitOn. */
  function Join(parts: seq<string>, c: char): string
    requires |parts| >= 1
    decreases |parts|
  {
    if |parts| == 1 then parts[0] else parts[0] + [c] + Join(parts[1..], c)
  }

  /** Splitting at a character and joining with it gives the text back. */
  lemma {:induction false} JoinSplit(s: string, c: char)
    ensures Join(SplitOn(s, c), c) == s
    decreases |s|
  {
    var k := IndexOf(s, c);
    if k < |s| {
      JoinSplit(s[k + 1..], c);
      assert s == s[..k] + [c] + s[k + 1..];
    }
  }

  /** The blank-separated words of `s`, in order. */
  function Words(s: string): (w: seq<string>)
    ensures forall i :: 0 <= i < |w| ==> w[i] != "" && NoSpace(w[i])
    decreases |s|
  {
    if s == [] then []
    else if IsSpace(s[0]) then Words(s[1..])
    else
      var n := WordRun(s);
      [s[..n]] + Words(s[n..])
  }

  /** re.split(r'\s+', s.strip()): the words of the line, or [''] for a blank
      line, so that index 0 always exists. */
  function Tokens(s: string): (t: seq<string>)
    ensures |t| >= 1
  {
    var stripped := Strip(s);
    if stripped == "" then [""] else
      var w := Words(stripped);
      assert w != [] by { assert !IsSpace(stripped[0]); }
      w
  }

  function DigitChar(d: nat): char
    requires d < 10
  {
    ('0' as int + d) as char
  }

  function DigitValue(c: char): nat
    requires IsDigit(c)
  {
    c as int - '0' as int
  }

  /** Decimal digits of a natural number, most significant first. */
  function NatToString(n: nat): (s: string)
    ensures |s| >= 1 && forall i :: 0 <= i < |s| ==> IsDigit(s[i])
    decreases n
  {
    if n < 10 then [DigitChar(n)] else NatToString(n / 10) + [DigitChar(n % 10)]
  }

  /** str(n) for a Python int. */
  function IntToString(n: int): string {
    if n < 0 then "-" + NatToString(-n) else NatToString(n)
  }

  predicate AllDigits(s: string) {
    forall i :: 0 <= i < |s| ==> IsDigit(s[i])
  }

  /** The value of a string of decimal digits. */
  function DigitsValue(s: string): nat
    requires AllDigits(s)
    decreases |s|
  {
    if s == [] then 0 else DigitsValue(s[..|s| - 1]) * 10 + DigitValue(s[|s| - 1])
  }

  /** Appending a digit multiplies the value by ten and adds the digit. */
  lemma DigitsSnoc(s: string, d: char)
    requires AllDigits(s) && IsDigit(d)
    ensures AllDigits(s + [d]) && DigitsValue(s + [d]) == DigitsValue(s) * 10 + DigitValue(d)
  {
    assert (s + [d])[..|s|] == s;
  }

  lemma {:induction false} DigitsOfNat(n: nat)
    ensures DigitsValue(NatToString(n)) == n
    decreases n
  {
    if n >= 10 {
      DigitsOfNat(n / 10);
      var s := NatToString(n);
      assert s[..|s| - 1] == NatToString(n / 10);
    }
  }

  /** int(s) for a Python str, without underscores and non-ASCII digits:
      optional blanks, an optional sign, at least one digit, optional blanks. */
  function ParseInt(s: string): Option<int> {
    var t := Strip(s);
    if t == "" then None
    else
      var neg := t[0] == '-';
      var body := if t[0] == '-' || t[0] == '+' then t[1..] else t;
      if body == "" || !AllDigits(body) then None
      else if neg then Some(-(DigitsValue(body) as int))
      else Some(DigitsValue(body) as int)
  }

  /** int(str(n)) == n. */
  lemma ParseIntOfString(n: int)
    ensures ParseInt(IntToString(n)) == Some(n)
  {
    var s := IntToString(n);
    var body := if n < 0 then NatToString(-n) else NatToString(n);
    DigitsOfNat(if n < 0 then -n else n);
    assert s != "" && !IsSpace(s[0]) && !IsSpace(s[|s| - 1]);
    assert Strip(s) == s by {
      assert SpaceRun(s) == 0;
      assert TrailingSpace(s) == 0;
    }
    if n < 0 {
      assert s[1..] == body;
    }
  }

  function Pow10(n: nat): (p: nat)
    ensures p >= 1
  {
    if n == 0 then 1 else 10 * Pow10(n - 1)
  }

  /** float(s) for the plain decimal notation: optional blanks, an optional
      sign, digits with at most one point and at least one digit. */
  function ParseDecimal(s: string): Option<real> {
    DecimalOfStripped(Strip(s))
  }

  /** float() of a text without surrounding blanks. */
  function DecimalOfStripped(t: string): Option<real> {
    if t == "" then None
    else
      var body := if t[0] == '-' || t[0] == '+' then t[1..] else t;
      match DecimalBody(body)
      case None => None
      case Some(m) => Some(if t[0] == '-' then -m else m)
  }

  /** The unsigned part: digits, at most one point, at least one digit. */
  function DecimalBody(body: string): Option<real> {
    var k := IndexOf(body, '.');
    var whole := body[..k];
    var frac := if k < |body| then body[k + 1..] else "";
    if whole + frac == "" || !AllDigits(whole) || !AllDigits(frac) then None
    else Some(DecimalValue(whole, frac))
  }

  function DecimalValue(whole: string, frac: string): real
    requires AllDigits(whole) && AllDigits(frac)
  {
    DigitsValue(whole) as real + (DigitsValue(frac) as real) / (Pow10(|frac|) as real)
  }

  /** float() of `whole.frac`: the whole part plus the fraction scaled by its
      number of digits. */
  lemma DecimalOfDigits(whole: string, frac: string)
    requires whole != "" && AllDigits(whole) && frac != "" && AllDigits(frac)
    ensures ParseDecimal(whole + "." + frac) == Some(DecimalValue(whole, frac))
  {
    var s := whole + "." + frac;
    assert s[0] == whole[0] && s[|s| - 1] == frac[|frac| - 1];
    StripOfTrimmed(s);
    assert s[0] != '-' && s[0] != '+';
    DecimalPoint(whole, frac);
    assert s[..|whole|] == whole && s[|whole| + 1..] == frac;
    assert DecimalBody(s) == Some(DecimalValue(whole, frac));
  }

  lemma DecimalPoint(whole: string, frac: string)
    requires AllDigits(whole)
    ensures IndexOf(whole + "." + frac, '.') == |whole|
  {
    var s := whole + "." + frac;
    assert s[|whole|] == '.';
    assert forall i :: 0 <= i < |whole| ==> s[i] == whole[i];
  }

  /** float() of a plain digit string is its value. */
  lemma DecimalOfWhole(whole: string)
    requires whole != "" && AllDigits(whole)
    ensures ParseDecimal(whole) == Some(DigitsValue(whole) as real)
  {
    assert IsDigit(whole[0]) && IsDigit(whole[|whole| - 1]);
    StripOfTrimmed(whole);
    assert DecimalOfStripped(whole) == DecimalBody(whole);
    BodyOfWhole(whole);
  }

  lemma BodyOfWhole(whole: string)
    requires whole != "" && AllDigits(whole)
    ensures DecimalBody(whole) == Some(DigitsValue(whole) as real)
  {
    IndexOfAbsent(whole, '.');
    assert whole[..|whole|] == whole;
    assert whole + "" == whole;
  }

  lemma {:induction false} IndexOfAbsent(s: string, c: char)
    requires forall i :: 0 <= i < |s| ==> s[i] != c
    ensures IndexOf(s, c) == |s|
    decreases |s|
  {
    if s != [] {
      IndexOfAbsent(s[1..], c);
    }
  }

  /** `w1\s+w2\s+...` under IGNORECASE at position p of s: the position just
      after the last word when the words are there, separated by runs of
      blanks. Every word of the probe's patterns starts with a non-blank, so
      each `\s+` takes the whole run. */
  function PhraseEnd(s: string, p: nat, words: seq<string>): (r: Option<nat>)
    requires p <= |s|
    ensures r.Some? ==> p <= r.value <= |s|
    decreases |words|
  {
    if words == [] then Some(p)
    else if !StartsWithIgnoringCase(s[p..], words[0]) then None
    else
      var q := p + |words[0]|;
      if |words| == 1 then Some(q)
      else
        var n := SpaceRun(s[q..]);
        if n == 0 then None else PhraseEnd(s, q + n, words[1..])
  }

  /** A `re.search` pattern made of words joined by `\s+`; `lead` and `trail`
      say whether it also begins or ends with `\s+`. */
  datatype Phrase = Phrase(lead: bool, words: seq<string>, trail: bool)

  predicate PhraseAt(s: string, p: nat, ph: Phrase) {
    && p <= |s|
    && (ph.lead ==> p >= 1 && IsSpace(s[p - 1]))
    && match PhraseEnd(s, p, ph.words)
       case None => false
       case Some(q) => ph.trail ==> q < |s| && IsSpace(s[q])
  }

  /** The scan `re.search` performs, from position p on. */
  function SearchFrom(s: string, ph: Phrase, p: nat): bool
    decreases |s| - p
  {
    if p > |s| then false else PhraseAt(s, p, ph) || SearchFrom(s, ph, p + 1)
  }

  function Search(s: string, ph: Phrase): bool {
    SearchFrom(s, ph, 0)
  }

  /** The scan finds the pattern exactly when it occurs somewhere. */
  lemma SearchFromIff(s: string, ph: Phrase, p: nat)
    ensures SearchFrom(s, ph, p) <==> exists i :: p <= i <= |s| && PhraseAt(s, i, ph)
  {
    if SearchFrom(s, ph, p) {
      var i := SearchWitness(s, ph, p);
    }
    if exists i :: p <= i <= |s| && PhraseAt(s, i, ph) {
      var i :| p <= i <= |s| && PhraseAt(s, i, ph);
      SearchFinds(s, ph, p, i);
    }
  }

  /** Where a successful scan stops. */
  lemma {:induction false} SearchWitness(s: string, ph: Phrase, p: nat) returns (i: nat)
    requires SearchFrom(s, ph, p)
    ensures p <= i <= |s| && PhraseAt(s, i, ph)
    decreases |s| - p
  {
    if PhraseAt(s, p, ph) {
      i := p;
    } else {
      i := SearchWitness(s, ph, p + 1);
    }
  }

  /** The scan reaches every occurrence at or after its start. */
  lemma {:induction false} SearchFinds(s: string, ph: Phrase, p: nat, i: nat)
    requires p <= i <= |s| && PhraseAt(s, i, ph)
    ensures SearchFrom(s, ph, p)
    decreases i - p
  {
    if p < i {
      SearchFinds(s, ph, p + 1, i);
    }
  }

  lemma SearchIff(s: string, ph: Phrase)
    ensures Search(s, ph) <==> exists i :: 0 <= i <= |s| && PhraseAt(s, i, ph)
  {
    SearchFromIff(s, ph, 0);
  }

  /** The last piece of str.split(c) is what follows the last `c`. */
  lemma {:induction false} LastPiece(s: string, c: char, k: nat)
    requires k < |s| && s[k] == c && forall i :: k < i < |s| ==> s[i] != c
    ensures SplitOn(s, c)[|SplitOn(s, c)| - 1] == s[k + 1..]
    decreases |s|
  {
    var j := IndexOf(s, c);
    assert j <= k;
    var rest := s[j + 1..];
    var tail := SplitOn(rest, c);
    assert SplitOn(s, c) == [s[..j]] + tail;
    assert SplitOn(s, c)[|SplitOn(s, c)| - 1] == tail[|tail| - 1];
    if j == k {
      IndexOfAbsent(rest, c);
      assert tail == [rest];
    } else {
      assert rest[k - j - 1] == c;
      LastPiece(rest, c, k - j - 1);
      assert rest[k - j..] == s[k + 1..];
    }
  }

  /** Blanks followed by a run of digits: int() reads the digits. */
  lemma ParseIntOfDigits(s: string, n: nat)
    requires n < |s| && (forall i :: 0 <= i < n ==> IsSpace(s[i])) && AllDigits(s[n..])
    ensures ParseInt(s) == Some(DigitsValue(s[n..]) as int)
  {
    var d := s[n..];
    assert d[0] == s[n];
    SpaceRunIs(s, n);
    assert TrailingSpace(d) == 0 by {
      assert d[|d| - 1] == s[|s| - 1];
    }
    assert Strip(s) == d by {
      assert s[SpaceRun(s)..] == d;
      assert d[..|d| - 0] == d;
    }
  }

  /** A phrase ends with its last word. */
  lemma {:induction false} PhraseEndsWithLast(s: string, p: nat, words: seq<string>)
    requires p <= |s| && words != [] && PhraseEnd(s, p, words).Some?
    ensures var w := words[|words| - 1]; var q := PhraseEnd(s, p, words).value;
      p + |w| <= q && StartsWithIgnoringCase(s[q - |w|..], w)
    decreases |words|
  {
    if |words| > 1 {
      var q := p + |words[0]|;
      PhraseEndsWithLast(s, q + SpaceRun(s[q..]), words[1..]);
      assert words[1..][|words[1..]| - 1] == words[|words| - 1];
    }
  }
}

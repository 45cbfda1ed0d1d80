/** get_drive_state and ds_get_value (check_megaraid.py:273-311): the eight
    attributes read from `storcli /cX/eY/sZ show all`, each taken from the
    first line that carries its key and coerced to its declared type. */
module DriveState {
  import opened Common
  import opened Text

  /** The keys of ds_attributes, in dict order. */
  datatype Attr =
    | Manufacturer | ModelNumber | SerialNumber | DriveTemperature
    | SmartAlert | MediaErrors | OtherErrors | PredictiveFailures

  const AttrOrder: seq<Attr> := [Manufacturer, ModelNumber, SerialNumber, DriveTemperature,
    SmartAlert, MediaErrors, OtherErrors, PredictiveFailures]

  lemma AttrOrderComplete(a: Attr)
    ensures a in AttrOrder
  {
    match a
    case Manufacturer => assert AttrOrder[0] == a;
    case ModelNumber => assert AttrOrder[1] == a;
    case SerialNumber => assert AttrOrder[2] == a;
    case DriveTemperature => assert AttrOrder[3] == a;
    case SmartAlert => assert AttrOrder[4] == a;
    case MediaErrors => assert AttrOrder[5] == a;
    case OtherErrors => assert AttrOrder[6] == a;
    case PredictiveFailures => assert AttrOrder[7] == a;
  }

  /** The words of each key pattern; `\s+` stands between them. */
  function KeyWords(a: Attr): (w: seq<string>)
    ensures |w| >= 1
  {
    match a
    case Manufacturer => ["Manufacturer", "Id"]
    case ModelNumber => ["Model", "Number"]
    case SerialNumber => ["SN"]
    case DriveTemperature => ["Drive", "Temperature"]
    case SmartAlert => ["S.M.A.R.T", "alert", "flagged", "by", "drive"]
    case MediaErrors => ["Media", "Error", "Count"]
    case OtherErrors => ["Other", "Error", "Count"]
    case PredictiveFailures => ["Predictive", "Failure", "Count"]
  }

  /** The constructor each attribute is passed through: str, float, bool or int. */
  datatype Kind = StrKind | FloatKind | BoolKind | IntKind

  function KindOf(a: Attr): Kind {
    match a
    case Manufacturer => StrKind
    case ModelNumber => StrKind
    case SerialNumber => StrKind
    case DriveTemperature => FloatKind
    case SmartAlert => BoolKind
    case MediaErrors => IntKind
    case OtherErrors => IntKind
    case PredictiveFailures => IntKind
  }

  /** `w1\s+w2 ... wn\s+=\s+` at the start of `s`, IGNORECASE. */
  predicate KeyFrom(s: string, words: seq<string>)
    decreases |words|
  {
    if words == [] then |s| >= 2 && s[0] == '=' && IsSpace(s[1])
    else
      && StartsWithIgnoringCase(s, words[0])
      && var t := s[|words[0]|..];
      && SpaceRun(t) > 0
      && KeyFrom(t[SpaceRun(t)..], words[1..])
  }

  /** `match(ds_attribute + r'\s+=\s+', ds_line, IGNORECASE)`. */
  predicate KeyMatch(line: string, a: Attr) {
    KeyFrom(line, KeyWords(a))
  }

  /** Two blank-free words that both begin `s` and are both followed by a
      blank are equal up to case. */
  lemma SameLeadingWord(s: string, w: string, v: string)
    requires NoSpace(w) && NoSpace(v)
    requires StartsWithIgnoringCase(s, w) && |w| < |s| && IsSpace(s[|w|])
    requires StartsWithIgnoringCase(s, v) && |v| < |s| && IsSpace(s[|v|])
    ensures EqualsIgnoringCase(w, v)
  {
    if |w| < |v| {
      assert Lower(s[..|v|][|w|]) == Lower(v[|w|]);
      LowerKeepsSpace(s[|w|]);
      LowerKeepsSpace(v[|w|]);
      assert false;
    } else if |v| < |w| {
      assert Lower(s[..|w|][|v|]) == Lower(w[|v|]);
      LowerKeepsSpace(s[|v|]);
      LowerKeepsSpace(w[|v|]);
      assert false;
    } else {
      forall i | 0 <= i < |w| ensures Lower(w[i]) == Lower(v[i]) {
        assert Lower(s[..|w|][i]) == Lower(w[i]);
        assert Lower(s[..|v|][i]) == Lower(v[i]);
      }
    }
  }

  lemma FirstWordNoSpace(a: Attr)
    ensures NoSpace(KeyWords(a)[0])
  {
  }

  /** The length and the first two folded letters of a first key word. */
  function Signature(a: Attr): (int, char, char) {
    match a
    case Manufacturer => (12, 'm', 'a')
    case ModelNumber => (5, 'm', 'o')
    case SerialNumber => (2, 's', 'n')
    case DriveTemperature => (5, 'd', 'r')
    case SmartAlert => (9, 's', '.')
    case MediaErrors => (5, 'm', 'e')
    case OtherErrors => (5, 'o', 't')
    case PredictiveFailures => (10, 'p', 'r')
  }

  lemma SignatureOfWord(a: Attr, w: string)
    requires EqualsIgnoringCase(w, KeyWords(a)[0])
    ensures |w| >= 2 && Signature(a) == (|w|, Lower(w[0]), Lower(w[1]))
  {
  }

  /** A first key word determines its attribute. */
  lemma WordDeterminesAttr(a: Attr, b: Attr, w: string)
    requires EqualsIgnoringCase(w, KeyWords(a)[0]) && EqualsIgnoringCase(w, KeyWords(b)[0])
    ensures a == b
  {
    SignatureOfWord(a, w);
    SignatureOfWord(b, w);
  }

  /** A line carries at most one key, so the inner `break` never hides a
      second attribute on the same line. */
  lemma KeysDisjoint(line: string, a: Attr, b: Attr)
    requires KeyMatch(line, a) && KeyMatch(line, b)
    ensures a == b
  {
    FirstWordNoSpace(a);
    FirstWordNoSpace(b);
    var w, v := KeyWords(a)[0], KeyWords(b)[0];
    assert IsSpace(line[|w|]) by { assert line[|w|..][0] == line[|w|]; }
    assert IsSpace(line[|v|]) by { assert line[|v|..][0] == line[|v|]; }
    SameLeadingWord(line, w, v);
    assert EqualsIgnoringCase(w, w);
    WordDeterminesAttr(a, b, w);
  }

  /** The leftmost match of `\s+=\s+` in `s` at or after `p`, as (start, end). */
  function FindSeparator(s: string, p: nat): (r: Option<(nat, nat)>)
    ensures r.Some? ==> p <= r.value.0 < r.value.1 <= |s|
    decreases |s| - p
  {
    if p >= |s| then None
    else if IsSpace(s[p]) then
      var j := p + SpaceRun(s[p..]);
      if j + 1 < |s| && s[j] == '=' && IsSpace(s[j + 1]) then Some((p, j + 1 + SpaceRun(s[j + 1..])))
      else FindSeparator(s, p + 1)
    else FindSeparator(s, p + 1)
  }

  /** `rsplit(r'\s+=\s+', line.strip())[1].strip()`: the text between the
      first and the second separator; None where Python raises IndexError. */
  function ValueText(line: string): Option<string> {
    var t := Strip(line);
    match FindSeparator(t, 0)
    case None => None
    case Some(first) =>
      var stop := match FindSeparator(t, first.1) case None => |t| case Some(second) => second.0;
      Some(Strip(t[first.1..stop]))
  }

  /** `\d+\s*C\s+\(?\d+[.,]\d+\s*F\)?` at the start of `v` (IGNORECASE). When it
      matches, the Celsius and Fahrenheit texts that the two `search` calls of
      ds_get_value capture: the leading digits, and the number before the F. */
  function TemperatureParts(v: string): Option<(string, string)> {
    PartsAfterDigits(v, DigitRun(v))
  }

  /** The rest of the match once the `d1` Celsius digits are counted. */
  function PartsAfterDigits(v: string, d1: nat): Option<(string, string)>
    requires d1 <= |v|
  {
    var p := d1 + SpaceRun(v[d1..]);
    if d1 == 0 || p >= |v| || Lower(v[p]) != 'c' then None
    else
      match FahrenheitPart(v, p + 1)
      case None => None
      case Some(f) => Some((v[..d1], f))
  }

  /** `\s+\(?\d+[.,]\d+\s*F` at position `start` of `v`, giving the number. */
  function FahrenheitPart(v: string, start: nat): Option<string>
    requires start <= |v|
  {
    var q := start + SpaceRun(v[start..]);
    if q == start then None
    else NumberBeforeF(v, if q < |v| && v[q] == '(' then q + 1 else q)
  }

  /** `\d+[.,]\d+\s*F` at position `r` of `v`, giving the number. */
  function NumberBeforeF(v: string, r: nat): Option<string>
    requires r <= |v|
  {
    NumberAfterDigits(v, r, DigitRun(v[r..]))
  }

  /** The rest of the match once the first `d2` digits are counted. */
  function NumberAfterDigits(v: string, r: nat, d2: nat): Option<string>
    requires r + d2 <= |v|
  {
    if d2 == 0 || r + d2 >= |v| || (v[r + d2] != '.' && v[r + d2] != ',') then None
    else FractionBeforeF(v, r, r + d2 + 1)
  }

  /** `\d+\s*F` at position `m` of `v`, giving the number begun at `r`. */
  function FractionBeforeF(v: string, r: nat, m: nat): Option<string>
    requires r < m <= |v|
  {
    var t := m + DigitRun(v[m..]);
    var u := t + SpaceRun(v[t..]);
    if t == m || u >= |v| || Lower(v[u]) != 'f' then None
    else Some(v[r..t])
  }

  /** What ds_get_value returns before the declared constructor is applied. */
  datatype Raw = RawText(text: string) | RawFlag(flag: bool) | RawNotAvailable

  /** ds_get_value (check_megaraid.py:287-301). */
  function DsGetValue(line: string, useFahrenheit: bool): Outcome<Raw> {
    match ValueText(line)
    case None => Raised
    case Some(v) =>
      match TemperatureParts(v)
      case Some(parts) => Returned(RawText(if useFahrenheit then parts.1 else parts.0))
      case None =>
        if EqualsIgnoringCase(v, "yes") then Returned(RawFlag(true))
        else if EqualsIgnoringCase(v, "no") then Returned(RawFlag(false))
        else if EqualsIgnoringCase(v, "N/A") then Returned(RawNotAvailable)
        else Returned(RawText(v))
  }

  datatype Value = StrValue(s: string) | FloatValue(r: real) | BoolValue(b: bool) | IntValue(i: int)

  predicate HasKind(v: Value, k: Kind) {
    match k
    case StrKind => v.StrValue?
    case FloatKind => v.FloatValue?
    case BoolKind => v.BoolValue?
    case IntKind => v.IntValue?
  }

  /** str(x), float(x), bool(x) or int(x) of what ds_get_value returned, where
      True, False and -99 are Python's bool and int values. */
  function Construct(k: Kind, raw: Raw): (r: Outcome<Value>)
    ensures r.Returned? ==> HasKind(r.value, k)
    ensures (k == StrKind || k == BoolKind) ==> r.Returned?
    ensures !raw.RawText? ==> r.Returned?
  {
    match k
    case StrKind =>
      Returned(StrValue(match raw
        case RawText(s) => s
        case RawFlag(b) => if b then "True" else "False"
        case RawNotAvailable => "-99"))
    case FloatKind =>
      (match raw
        case RawText(s) => (match ParseDecimal(s) case None => Raised case Some(x) => Returned(FloatValue(x)))
        case RawFlag(b) => Returned(FloatValue(if b then 1.0 else 0.0))
        case RawNotAvailable => Returned(FloatValue(-99.0)))
    case BoolKind =>
      Returned(BoolValue(match raw
        case RawText(s) => s != ""
        case RawFlag(b) => b
        case RawNotAvailable => true))
    case IntKind =>
      (match raw
        case RawText(s) => (match ParseInt(s) case None => Raised case Some(n) => Returned(IntValue(n)))
        case RawFlag(b) => Returned(IntValue(if b then 1 else 0))
        case RawNotAvailable => Returned(IntValue(-99)))
  }

  /** `ds_data[0](ds_get_value(ds_line))` for attribute `a`. */
  function Coerce(a: Attr, line: string, useFahrenheit: bool): (r: Outcome<Value>)
    ensures r.Returned? ==> HasKind(r.value, KindOf(a))
  {
    match DsGetValue(line, useFahrenheit)
    case Raised => Raised
    case Returned(raw) => Construct(KindOf(a), raw)
  }

  /** A key line whose value is empty (blanks at most after the `=`) leaves
      no separator once stripped, so `rsplit(...)[1]` raises IndexError. */
  lemma EmptyValueRaises(w: string, gap: string, useFahrenheit: bool)
    requires w != [] && !IsSpace(w[0]) && !IsSpace(w[|w| - 1]) && '=' !in w
    requires gap != [] && forall i :: 0 <= i < |gap| ==> IsSpace(gap[i])
    ensures DsGetValue(w + " =" + gap, useFahrenheit) == Raised
  {
    var line := w + " =" + gap;
    var n := |w| + 2;
    assert line[0] == w[0] && line[n - 1] == '=';
    SpaceRunIs(line, 0);
    var t := Strip(line);
    assert t == line[..|t|];
    assert forall k :: |t| <= k < |line| ==> IsSpace(line[k]);
    assert |t| >= n;
    assert t == line[..n] == w + " =";
    forall i | 0 <= i < |t| - 1 ensures t[i] != '=' {
      if i < |w| {
        assert t[i] == w[i];
      }
    }
    NoSeparator(t, 0);
  }

  /** A text whose only `=` can be its last character has no separator. */
  lemma {:induction false} NoSeparator(t: string, p: nat)
    requires forall i :: 0 <= i < |t| - 1 ==> t[i] != '='
    ensures FindSeparator(t, p) == None
    decreases |t| - p
  {
    if p < |t| {
      NoSeparator(t, p + 1);
    }
  }

  /** `N/A` reads as -99: bool() makes that True, so an unavailable S.M.A.R.T
      flag counts as raised, and int() makes an unavailable count -99. */
  lemma NotAvailableLine(w: string, a: Attr, useFahrenheit: bool)
    requires w != [] && !IsSpace(w[0]) && !IsSpace(w[|w| - 1]) && '=' !in w
    ensures DsGetValue(w + " = N/A", useFahrenheit) == Returned(RawNotAvailable)
    ensures Coerce(a, w + " = N/A", useFahrenheit) == Returned(
      match KindOf(a)
      case StrKind => StrValue("-99")
      case FloatKind => FloatValue(-99.0)
      case BoolKind => BoolValue(true)
      case IntKind => IntValue(-99))
  {
    KeyLineNotAvailable(w);
    NotAvailableValue(w + " = N/A", a, useFahrenheit);
  }

  lemma KeyLineNotAvailable(w: string)
    requires w != [] && !IsSpace(w[0]) && !IsSpace(w[|w| - 1]) && '=' !in w
    ensures ValueText(w + " = N/A") == Some("N/A")
  {
    assert w + " = N/A" == w + " = " + "N/A";
    ValueOfKeyLine(w, "N/A");
  }

  /** A value text of `N/A` is the unavailable reading. */
  lemma NotAvailableValue(line: string, a: Attr, useFahrenheit: bool)
    requires ValueText(line) == Some("N/A")
    ensures DsGetValue(line, useFahrenheit) == Returned(RawNotAvailable)
    ensures Coerce(a, line, useFahrenheit) == Returned(
      match KindOf(a)
      case StrKind => StrValue("-99")
      case FloatKind => FloatValue(-99.0)
      case BoolKind => BoolValue(true)
      case IntKind => IntValue(-99))
  {
    NotAvailableRaw(line, useFahrenheit);
  }

  lemma NotAvailableRaw(line: string, useFahrenheit: bool)
    requires ValueText(line) == Some("N/A")
    ensures DsGetValue(line, useFahrenheit) == Returned(RawNotAvailable)
  {
    assert TemperatureParts("N/A") == None by {
      assert DigitRun("N/A") == 0;
    }
    assert !EqualsIgnoringCase("N/A", "yes") && !EqualsIgnoringCase("N/A", "no") by {
      assert Lower("N/A"[0]) != Lower("yes"[0]) && |"N/A"| != |"no"|;
    }
    assert EqualsIgnoringCase("N/A", "N/A");
  }

  /** No separator starts in [p, q) when that stretch has no '=' and does not
      end in a blank. */
  lemma {:induction false} SeparatorSkips(s: string, p: nat, q: nat)
    requires p <= q <= |s|
    requires forall k :: p <= k < q ==> s[k] != '='
    requires p == q || !IsSpace(s[q - 1])
    ensures FindSeparator(s, p) == FindSeparator(s, q)
    decreases q - p
  {
    if p < q {
      if IsSpace(s[p]) {
        var j := p + SpaceRun(s[p..]);
        assert j < q;
        assert s[j] != '=';
      }
      SeparatorSkips(s, p + 1, q);
    }
  }

  /** In `w = v`, the first separator is the ` = ` after the key text. */
  lemma FirstSeparatorOfKeyLine(w: string, v: string)
    requires w != [] && !IsSpace(w[|w| - 1]) && '=' !in w
    requires v != [] && !IsSpace(v[0])
    ensures FindSeparator(w + " = " + v, 0) == Some((|w|, |w| + 3))
  {
    var s := w + " = " + v;
    var n := |w|;
    assert forall k :: 0 <= k < n ==> s[k] == w[k];
    SeparatorSkips(s, 0, n);
    assert s[n] == ' ' && s[n + 1] == '=' && s[n + 2] == ' ' && s[n + 3] == v[0];
    SeparatorAt(s, n);
  }

  /** ` = ` followed by a non-blank is a separator of exactly three characters. */
  lemma SeparatorAt(s: string, n: nat)
    requires n + 3 < |s| && s[n] == ' ' && s[n + 1] == '=' && s[n + 2] == ' ' && !IsSpace(s[n + 3])
    ensures FindSeparator(s, n) == Some((n, n + 3))
  {
    SpaceRunIs(s[n..], 1);
    SpaceRunIs(s[n + 2..], 1);
  }

  /** The value of a `key = value` line: for a key text and a value that
      have no '=' and no blank at either end, ds_get_value begins from the
      value itself. */
  lemma ValueOfKeyLine(w: string, v: string)
    requires w != [] && !IsSpace(w[0]) && !IsSpace(w[|w| - 1]) && '=' !in w
    requires v != [] && !IsSpace(v[0]) && !IsSpace(v[|v| - 1]) && '=' !in v
    ensures ValueText(w + " = " + v) == Some(v)
  {
    var s := w + " = " + v;
    assert s[0] == w[0] && s[|s| - 1] == v[|v| - 1];
    StripOfTrimmed(s);
    StripOfTrimmed(v);
    FirstSeparatorOfKeyLine(w, v);
    var n := |w|;
    SeparatorSkips(s, n + 3, |s|);
    assert s[n + 3..|s|] == v;
  }

  /** What may stand between the Fahrenheit number and its F: nothing or a blank. */
  predicate UnitGap(gap: string) {
    gap == "" || gap == " "
  }

  lemma NumberOfReading(v: string, r: nat, f1: string, f2: string, gap: string)
    requires f1 != "" && AllDigits(f1) && f2 != "" && AllDigits(f2) && UnitGap(gap)
    requires r <= |v| && v[r..] == f1 + "." + f2 + gap + "F)"
    ensures NumberBeforeF(v, r) == Some(f1 + "." + f2)
  {
    var t := r + |f1| + 1 + |f2|;
    NumberDigits(v, r, f1, f2, gap);
    UnitAfter(v[t..], gap);
    NumberAt(v, r, |f1|, t);
  }

  /** Digits, a point, digits, blanks and an F from position r on: the number
      is the text up to the last digit. */
  lemma NumberAt(v: string, r: nat, d2: nat, t: nat)
    requires r <= |v| && 0 < d2 && r + d2 + 1 < t <= |v| && DigitRun(v[r..]) == d2
    requires v[r + d2] == '.' && DigitRun(v[r + d2 + 1..]) == t - (r + d2 + 1)
    requires t + SpaceRun(v[t..]) < |v| && Lower(v[t + SpaceRun(v[t..])]) == 'f'
    ensures NumberBeforeF(v, r) == Some(v[r..t])
  {
    FractionAt(v, r, r + d2 + 1, t);
  }

  /** Digits, blanks and an F from position m on: the number ends at the
      last digit. */
  lemma FractionAt(v: string, r: nat, m: nat, t: nat)
    requires r < m < t <= |v| && DigitRun(v[m..]) == t - m
    requires t + SpaceRun(v[t..]) < |v| && Lower(v[t + SpaceRun(v[t..])]) == 'f'
    ensures FractionBeforeF(v, r, m) == Some(v[r..t])
  {
  }

  lemma NumberDigits(v: string, r: nat, f1: string, f2: string, gap: string)
    requires f1 != "" && AllDigits(f1) && f2 != "" && AllDigits(f2) && UnitGap(gap)
    requires r <= |v| && v[r..] == f1 + "." + f2 + gap + "F)"
    ensures r + |f1| + 1 + |f2| <= |v|
    ensures DigitRun(v[r..]) == |f1| && v[r + |f1|] == '.'
    ensures DigitRun(v[r + |f1| + 1..]) == |f2|
    ensures v[r + |f1| + 1 + |f2|..] == gap + "F)"
    ensures v[r..r + |f1| + 1 + |f2|] == f1 + "." + f2
  {
    DigitRunIs(v[r..], |f1|);
    var u := v[r + |f1| + 1..];
    assert u == f2 + gap + "F)";
    assert u[|f2|] == (gap + "F)")[0];
    assert !IsDigit((gap + "F)")[0]);
    DigitRunIs(u, |f2|);
  }

  lemma UnitAfter(tail: string, gap: string)
    requires UnitGap(gap) && tail == gap + "F)"
    ensures SpaceRun(tail) == |gap| && tail[|gap|] == 'F'
  {
    SpaceRunIs(tail, |gap|);
  }

  lemma FahrenheitOfReading(v: string, start: nat, f1: string, f2: string, gap: string)
    requires f1 != "" && AllDigits(f1) && f2 != "" && AllDigits(f2) && UnitGap(gap)
    requires start <= |v| && v[start..] == " (" + f1 + "." + f2 + gap + "F)"
    ensures FahrenheitPart(v, start) == Some(f1 + "." + f2)
  {
    var w := v[start..];
    assert w[0] == ' ' && w[1] == '(';
    SpaceRunIs(w, 1);
    assert v[start + 2..] == f1 + "." + f2 + gap + "F)";
    NumberOfReading(v, start + 2, f1, f2, gap);
  }

  /** storcli's temperature reading `<c>C (<f1>.<f2>F)`, with or without a
      blank before the F, yields the Celsius digits and the Fahrenheit number. */
  lemma TemperatureOfReading(c: string, f1: string, f2: string, gap: string)
    requires c != "" && AllDigits(c) && f1 != "" && AllDigits(f1) && f2 != "" && AllDigits(f2) && UnitGap(gap)
    ensures TemperatureParts(c + "C (" + f1 + "." + f2 + gap + "F)") == Some((c, f1 + "." + f2))
  {
    var v := c + "C (" + f1 + "." + f2 + gap + "F)";
    var rest := " (" + f1 + "." + f2 + gap + "F)";
    ReadingSplits(c, f1, f2, gap);
    CelsiusPrefix(v, c, rest);
    FahrenheitOfReading(v, |c| + 1, f1, f2, gap);
    PartsAt(v, |c|, f1 + "." + f2);
  }

  lemma ReadingSplits(c: string, f1: string, f2: string, gap: string)
    ensures c + "C (" + f1 + "." + f2 + gap + "F)" == c + "C" + (" (" + f1 + "." + f2 + gap + "F)")
  {
  }

  /** Digits, then a C: the digit run stops at the C. */
  lemma CelsiusPrefix(v: string, c: string, rest: string)
    requires c != "" && AllDigits(c) && v == c + "C" + rest
    ensures |c| < |v| && DigitRun(v) == |c| && v[..|c|] == c
    ensures SpaceRun(v[|c|..]) == 0 && Lower(v[|c|]) == 'c' && v[|c| + 1..] == rest
  {
    var n := |c|;
    assert v[..n] == c && v[n] == 'C';
    DigitRunIs(v, n);
    SpaceRunIs(v[n..], 0);
    assert v[n + 1..] == rest;
  }

  /** Digits up to a C, then the Fahrenheit part. */
  lemma PartsAt(v: string, n: nat, f: string)
    requires 0 < n < |v| && DigitRun(v) == n && SpaceRun(v[n..]) == 0 && Lower(v[n]) == 'c'
    requires FahrenheitPart(v, n + 1) == Some(f)
    ensures TemperatureParts(v) == Some((v[..n], f))
  {
    var p := n + SpaceRun(v[n..]);
    assert p == n;
    assert Lower(v[p]) == 'c';
    assert FahrenheitPart(v, p + 1) == Some(f);
  }

  /** The whole temperature line: the reading in the configured unit, which
      float() then turns into that number. */
  lemma TemperatureLine(w: string, c: string, f1: string, f2: string, gap: string, useFahrenheit: bool)
    requires w != [] && !IsSpace(w[0]) && !IsSpace(w[|w| - 1]) && '=' !in w
    requires c != "" && AllDigits(c) && f1 != "" && AllDigits(f1) && f2 != "" && AllDigits(f2) && UnitGap(gap)
    ensures DsGetValue(w + " = " + c + "C (" + f1 + "." + f2 + gap + "F)", useFahrenheit) ==
      Returned(RawText(if useFahrenheit then f1 + "." + f2 else c))
    ensures Construct(FloatKind, RawText(f1 + "." + f2)) == Returned(FloatValue(DecimalValue(f1, f2)))
  {
    var v := c + "C (" + f1 + "." + f2 + gap + "F)";
    ReadingIsValue(c, f1, f2, gap);
    assert w + " = " + c + "C (" + f1 + "." + f2 + gap + "F)" == w + " = " + v;
    ValueOfKeyLine(w, v);
    TemperatureOfReading(c, f1, f2, gap);
    TemperatureRaw(w + " = " + v, v, c, f1 + "." + f2, useFahrenheit);
    FloatOfReading(f1, f2);
  }

  /** The reading has no '=' and no blank at either end. */
  lemma ReadingIsValue(c: string, f1: string, f2: string, gap: string)
    requires c != "" && AllDigits(c) && f1 != "" && AllDigits(f1) && f2 != "" && AllDigits(f2) && UnitGap(gap)
    ensures var v := c + "C (" + f1 + "." + f2 + gap + "F)";
      v != [] && !IsSpace(v[0]) && !IsSpace(v[|v| - 1]) && '=' !in v
  {
    var v := c + "C (" + f1 + "." + f2 + gap + "F)";
    forall k | 0 <= k < |v| ensures v[k] != '=' {
      if k < |c| { assert v[k] == c[k]; }
      else if |c| + 3 <= k < |c| + 3 + |f1| { assert v[k] == f1[k - |c| - 3]; }
      else if |c| + 4 + |f1| <= k < |c| + 4 + |f1| + |f2| { assert v[k] == f2[k - |c| - 4 - |f1|]; }
    }
    assert v[0] == c[0];
  }

  /** A value text that is a temperature reading gives the number in the
      configured unit. */
  lemma TemperatureRaw(line: string, v: string, c: string, f: string, useFahrenheit: bool)
    requires ValueText(line) == Some(v) && TemperatureParts(v) == Some((c, f))
    ensures DsGetValue(line, useFahrenheit) == Returned(RawText(if useFahrenheit then f else c))
  {
  }

  /** float() of the Fahrenheit number. */
  lemma FloatOfReading(f1: string, f2: string)
    requires f1 != "" && AllDigits(f1) && f2 != "" && AllDigits(f2)
    ensures Construct(FloatKind, RawText(f1 + "." + f2)) == Returned(FloatValue(DecimalValue(f1, f2)))
  {
    DecimalOfDigits(f1, f2);
  }

  /** The documented reading `45C (113.00F)`: 45 in Celsius, 113.00 in
      Fahrenheit. */
  lemma DocumentedTemperature(line: string, useFahrenheit: bool)
    requires line == "Drive Temperature = 45C (113.00F)"
    ensures Coerce(DriveTemperature, line, useFahrenheit) ==
      Returned(FloatValue(if useFahrenheit then 113.0 else 45.0))
  {
    var c, f1, f2 := "45", "113", "00";
    DocumentedRaw(line, c, f1, f2, useFahrenheit);
    DocumentedDigits(c, f1, f2);
    assert KindOf(DriveTemperature) == FloatKind;
    if useFahrenheit {
      FloatOfReading(f1, f2);
    } else {
      FloatOfWhole(c);
    }
  }

  /** float() of the Celsius digits. */
  lemma FloatOfWhole(c: string)
    requires c != "" && AllDigits(c)
    ensures Construct(FloatKind, RawText(c)) == Returned(FloatValue(DigitsValue(c) as real))
  {
    DecimalOfWhole(c);
  }

  lemma DocumentedRaw(line: string, c: string, f1: string, f2: string, useFahrenheit: bool)
    requires line == "Drive Temperature = 45C (113.00F)"
    requires c == "45" && f1 == "113" && f2 == "00"
    ensures DsGetValue(line, useFahrenheit) == Returned(RawText(if useFahrenheit then f1 + "." + f2 else c))
  {
    var w := "Drive Temperature";
    assert line == w + " = " + c + "C (" + f1 + "." + f2 + "" + "F)";
    DocumentedDigits(c, f1, f2);
    TemperatureLine(w, c, f1, f2, "", useFahrenheit);
  }

  lemma DocumentedDigits(c: string, f1: string, f2: string)
    requires c == "45" && f1 == "113" && f2 == "00"
    ensures AllDigits(c) && AllDigits(f1) && AllDigits(f2)
    ensures DigitsValue(c) == 45 && DecimalValue(f1, f2) == 113.0
  {
    TwoDigits(c);
    ThreeDigits(f1);
    TwoDigits(f2);
    assert Pow10(|f2|) == 100;
  }

  lemma TwoDigits(s: string)
    requires |s| == 2 && IsDigit(s[0]) && IsDigit(s[1])
    ensures AllDigits(s) && DigitsValue(s) == DigitValue(s[0]) * 10 + DigitValue(s[1])
  {
    DigitsSnoc([s[0]], s[1]);
    DigitsSnoc([], s[0]);
    assert [s[0]] + [s[1]] == s && [] + [s[0]] == [s[0]];
  }

  lemma ThreeDigits(s: string)
    requires |s| == 3 && IsDigit(s[0]) && IsDigit(s[1]) && IsDigit(s[2])
    ensures AllDigits(s) && DigitsValue(s) == DigitValue(s[0]) * 100 + DigitValue(s[1]) * 10 + DigitValue(s[2])
  {
    TwoDigits(s[..2]);
    DigitsSnoc(s[..2], s[2]);
    assert s[..2] + [s[2]] == s;
  }

  /** A per-attribute reading of one line: what `ds_data[0](ds_get_value(line))`
      gives for each attribute. */
  type Coercion = (Attr, string) -> Outcome<Value>

  function CoercionFor(useFahrenheit: bool): Coercion {
    (a: Attr, line: string) => Coerce(a, line, useFahrenheit)
  }

  /** Index of the first line carrying the key of `a`. */
  function FirstKeyLine(lines: seq<string>, a: Attr): (r: Option<nat>)
    ensures r.Some? ==> r.value < |lines| && KeyMatch(lines[r.value], a)
    ensures r.Some? ==> forall j :: 0 <= j < r.value ==> !KeyMatch(lines[j], a)
    ensures r.None? ==> forall j :: 0 <= j < |lines| ==> !KeyMatch(lines[j], a)
  {
    FirstKeyLineFrom(lines, a, 0)
  }

  function FirstKeyLineFrom(lines: seq<string>, a: Attr, p: nat): (r: Option<nat>)
    requires p <= |lines|
    ensures r.Some? ==> p <= r.value < |lines| && KeyMatch(lines[r.value], a)
    ensures r.Some? ==> forall j :: p <= j < r.value ==> !KeyMatch(lines[j], a)
    ensures r.None? ==> forall j :: p <= j < |lines| ==> !KeyMatch(lines[j], a)
    decreases |lines| - p
  {
    if p == |lines| then None
    else if KeyMatch(lines[p], a) then Some(p)
    else FirstKeyLineFrom(lines, a, p + 1)
  }

  /** The key of `a` occurs on one of the first `i` lines. */
  predicate SeenBefore(lines: seq<string>, a: Attr, i: int) {
    match FirstKeyLine(lines, a)
    case None => false
    case Some(k) => k < i
  }

  /** What the scan finds for `a`: nothing, or the reading of its first line. */
  function Pick(lines: seq<string>, a: Attr, coerce: Coercion): Option<Outcome<Value>> {
    match FirstKeyLine(lines, a)
    case None => None
    case Some(k) => Some(coerce(a, lines[k]))
  }

  /** The readings of the first key line of every attribute present. */
  function Readings(lines: seq<string>, coerce: Coercion): map<Attr, Outcome<Value>> {
    map a | a in AttrOrder && Pick(lines, a, coerce).Some? :: Pick(lines, a, coerce).value
  }

  /** The reference reading of the scan: an attribute present in the report
      takes the reading of its first line, an absent one stays unset (None in
      the source), and the scan raises when one of those first lines cannot
      be read. */
  function ScanResult(lines: seq<string>, coerce: Coercion): Outcome<map<Attr, Value>> {
    var readings := Readings(lines, coerce);
    if exists a :: a in readings && readings[a].Raised? then Raised
    else Returned(map a | a in readings :: readings[a].value)
  }

  /** get_drive_state's result for the text of a `show all` report. */
  function DriveStateOf(text: string, useFahrenheit: bool): Outcome<map<Attr, Value>> {
    ScanResult(SplitOn(text, '\n'), CoercionFor(useFahrenheit))
  }

  /** A map that agrees with Pick on every attribute is the result. */
  lemma ScanResultFromPicks(lines: seq<string>, coerce: Coercion, filled: map<Attr, Value>)
    requires forall a :: a in filled <==> Pick(lines, a, coerce).Some?
    requires forall a :: a in filled ==> Pick(lines, a, coerce) == Some(Returned(filled[a]))
    ensures ScanResult(lines, coerce) == Returned(filled)
  {
    var readings := Readings(lines, coerce);
    forall a ensures a in readings <==> a in filled {
      AttrOrderComplete(a);
    }
    assert !exists a :: a in readings && readings[a].Raised?;
    var m := map a | a in readings :: readings[a].value;
    assert m == filled;
  }

  /** Raised exactly when the first key line of some attribute raises. */
  lemma ScanRaises(lines: seq<string>, coerce: Coercion)
    ensures ScanResult(lines, coerce).Raised? <==> exists a :: Pick(lines, a, coerce) == Some(Raised)
  {
    var readings := Readings(lines, coerce);
    if exists a :: Pick(lines, a, coerce) == Some(Raised) {
      var a :| Pick(lines, a, coerce) == Some(Raised);
      AttrOrderComplete(a);
      assert a in readings && readings[a].Raised?;
    }
  }

  lemma {:induction false} FirstKeyLineExtends(lines: seq<string>, extra: seq<string>, a: Attr, p: nat)
    requires p <= |lines| && FirstKeyLineFrom(lines, a, p).Some?
    ensures FirstKeyLineFrom(lines + extra, a, p) == FirstKeyLineFrom(lines, a, p)
    decreases |lines| - p
  {
    assert (lines + extra)[p] == lines[p];
    if !KeyMatch(lines[p], a) {
      FirstKeyLineExtends(lines, extra, a, p + 1);
    }
  }

  /** Lines after the point where every attribute has been seen do not change
      the result: the early `break` is unobservable. */
  lemma StopWhenComplete(lines: seq<string>, extra: seq<string>, coerce: Coercion)
    requires forall a :: FirstKeyLine(lines, a).Some?
    ensures ScanResult(lines + extra, coerce) == ScanResult(lines, coerce)
  {
    forall a ensures Pick(lines + extra, a, coerce) == Pick(lines, a, coerce) {
      assert FirstKeyLine(lines, a).Some?;
      FirstKeyLineExtends(lines, extra, a, 0);
      var k := FirstKeyLine(lines, a).value;
      assert (lines + extra)[k] == lines[k];
    }
    SamePicks(lines, lines + extra, coerce);
  }

  /** The result depends on the lines only through what Pick finds. */
  lemma SamePicks(lines: seq<string>, other: seq<string>, coerce: Coercion)
    requires forall a :: Pick(lines, a, coerce) == Pick(other, a, coerce)
    ensures ScanResult(other, coerce) == ScanResult(lines, coerce)
  {
    assert Readings(lines, coerce) == Readings(other, coerce);
  }

  /** Exactly the attributes whose key occurs in the report are stored, each
      with the reading of its first line. */
  lemma ScanContents(lines: seq<string>, coerce: Coercion, a: Attr)
    requires ScanResult(lines, coerce).Returned?
    ensures a in ScanResult(lines, coerce).value <==> exists j :: 0 <= j < |lines| && KeyMatch(lines[j], a)
    ensures a in ScanResult(lines, coerce).value ==>
      coerce(a, lines[FirstKeyLine(lines, a).value]) == Returned(ScanResult(lines, coerce).value[a])
  {
    AttrOrderComplete(a);
  }

  /** Every stored value has the type its constructor gives. */
  lemma DriveStateKinds(text: string, useFahrenheit: bool, a: Attr)
    requires DriveStateOf(text, useFahrenheit).Returned? && a in DriveStateOf(text, useFahrenheit).value
    ensures HasKind(DriveStateOf(text, useFahrenheit).value[a], KindOf(a))
  {
    var lines := SplitOn(text, '\n');
    ScanContents(lines, CoercionFor(useFahrenheit), a);
    var k := FirstKeyLine(lines, a).value;
    var c := Coerce(a, lines[k], useFahrenheit);
    assert CoercionFor(useFahrenheit)(a, lines[k]) == c;
  }

  /** The scan state after the first `i` lines: exactly the attributes seen
      so far are set, each to the reading of its first line. */
  predicate ScanInvariant(lines: seq<string>, coerce: Coercion, filled: map<Attr, Value>, i: int) {
    && (forall a :: a in filled <==> SeenBefore(lines, a, i))
    && (forall a :: a in filled ==> Pick(lines, a, coerce) == Some(Returned(filled[a])))
  }

  /** The inner loop of get_drive_state: line i against the attributes still
      unset, storing the first whose key matches; Raised when its reading
      raises. */
  method ScanLine(lines: seq<string>, coerce: Coercion, filled: map<Attr, Value>, i: nat)
    returns (r: Outcome<map<Attr, Value>>)
    requires i < |lines| && ScanInvariant(lines, coerce, filled, i)
    ensures r.Raised? ==> ScanResult(lines, coerce).Raised?
    ensures r.Returned? ==> ScanInvariant(lines, coerce, r.value, i + 1)
  {
    var line := lines[i];
    var k := 0;
    while k < |AttrOrder|
      invariant 0 <= k <= |AttrOrder|
      invariant forall j :: 0 <= j < k ==> AttrOrder[j] in filled || !KeyMatch(line, AttrOrder[j])
    {
      var a := AttrOrder[k];
      if a !in filled && KeyMatch(line, a) {
        var v := coerce(a, line);
        NewlyFilled(lines, i, filled, a, coerce);
        if v.Raised? {
          ScanRaises(lines, coerce);
          return Raised;
        }
        return Returned(filled[a := v.value]);
      }
      k := k + 1;
    }
    forall b ensures b in filled || !KeyMatch(line, b) {
      AttrOrderComplete(b);
    }
    NothingFilled(lines, i, filled);
    r := Returned(filled);
  }

  /** The outer loop of get_drive_state, over any per-line reading; it stops
      once every attribute is set. */
  method ScanAttributes(lines: seq<string>, coerce: Coercion) returns (r: Outcome<map<Attr, Value>>)
    ensures r == ScanResult(lines, coerce)
  {
    var filled: map<Attr, Value> := map[];
    var i := 0;
    while i < |lines|
      invariant 0 <= i <= |lines|
      invariant ScanInvariant(lines, coerce, filled, i)
    {
      var step := ScanLine(lines, coerce, filled, i);
      if step.Raised? {
        return Raised;
      }
      filled := step.value;
      i := i + 1;
      if forall j | 0 <= j < |AttrOrder| :: AttrOrder[j] in filled {
        forall a ensures a in filled { AttrOrderComplete(a); }
        break;
      }
    }
    forall a ensures a in filled <==> Pick(lines, a, coerce).Some? {
    }
    ScanResultFromPicks(lines, coerce, filled);
    r := Returned(filled);
  }

  /** get_drive_state (check_megaraid.py:303-311). */
  method GetDriveState(text: string, useFahrenheit: bool) returns (r: Outcome<map<Attr, Value>>)
    ensures r == DriveStateOf(text, useFahrenheit)
  {
    r := ScanAttributes(SplitOn(text, '\n'), CoercionFor(useFahrenheit));
  }

  /** Storing `a` from line i keeps the scan invariant: line i is the first
      with that key and carries no other key. */
  lemma NewlyFilled(lines: seq<string>, i: nat, before: map<Attr, Value>, a: Attr, coerce: Coercion)
    requires i < |lines|
    requires forall b :: b in before <==> SeenBefore(lines, b, i)
    requires a !in before && KeyMatch(lines[i], a)
    ensures Pick(lines, a, coerce) == Some(coerce(a, lines[i]))
    ensures forall b :: (b == a || b in before) <==> SeenBefore(lines, b, i + 1)
  {
    forall b ensures (b == a || b in before) <==> SeenBefore(lines, b, i + 1) {
      if FirstKeyLine(lines, b) == Some(i) {
        KeysDisjoint(lines[i], a, b);
      }
    }
  }

  /** A line that stores nothing carries no key of an attribute not yet seen. */
  lemma NothingFilled(lines: seq<string>, i: nat, before: map<Attr, Value>)
    requires i < |lines|
    requires forall b :: b in before <==> SeenBefore(lines, b, i)
    requires forall b :: b in before || !KeyMatch(lines[i], b)
    ensures forall b :: b in before <==> SeenBefore(lines, b, i + 1)
  {
    forall b ensures b in before <==> SeenBefore(lines, b, i + 1) {
      if FirstKeyLine(lines, b) == Some(i) {
        assert KeyMatch(lines[i], b);
      }
    }
  }
}

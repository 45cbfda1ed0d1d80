/** The checks the main block makes on the `--limits` and `--missingoklist`
    options (check_megaraid.py:558-575) before it runs storcli: a malformed
    value ends the probe UNKNOWN, well-formed limits replace the two
    temperature limits of the unit in use. */
module Arguments {
  import opened Common
  import opened Text
  import opened Severity

  /** The text a `re.match` pattern ending in `$` has to cover: without
      MULTILINE, `$` also matches just before one final newline. */
  function Covered(s: string): (r: string)
    ensures |r| <= |s| && r == s[..|r|]
  {
    if s != "" && s[|s| - 1] == '\n' then s[..|s| - 1] else s
  }

  /** `\d+` over all of `s`. */
  predicate Number(s: string) {
    s != "" && AllDigits(s)
  }

  /** `re.match(r'\d+:\d+$', s)`. */
  predicate LimitsFormat(s: string) {
    var parts := SplitOn(Covered(s), ':');
    |parts| == 2 && Number(parts[0]) && Number(parts[1])
  }

  /** `controller:enclosure:slot`, each a `\d+`. */
  predicate Triple(s: string) {
    var parts := SplitOn(s, ':');
    |parts| == 3 && Number(parts[0]) && Number(parts[1]) && Number(parts[2])
  }

  /** `re.match(r'\d+:\d+:\d+(,\d+:\d+:\d+)*$', s)`. */
  predicate MissingListFormat(s: string) {
    var items := SplitOn(Covered(s), ',');
    forall k :: 0 <= k < |items| ==> Triple(items[k])
  }

  /** `int(limits[0])` and `int(limits[1])` of a well-formed value; `int`
      ignores the newline `$` lets through. */
  function LimitsOf(s: string): (int, int)
    requires LimitsFormat(s)
  {
    var parts := SplitOn(Covered(s), ':');
    (DigitsValue(parts[0]), DigitsValue(parts[1]))
  }

  /** The limits of the unit in use replaced, the other unit's kept. */
  function WithLimits(cfg: Config, warn: int, crit: int): (r: Config)
    ensures WarnTempLimit(r) == warn && CritTempLimit(r) == crit
    ensures r.useFahrenheit == cfg.useFahrenheit
  {
    if cfg.useFahrenheit then cfg.(tempLimitFWa := warn, tempLimitFCr := crit)
    else cfg.(tempLimitCWa := warn, tempLimitCCr := crit)
  }

  const LimitsError: string := "limits argument accepts only this format \"\\d+:\\d+\""

  const MissingListError: string := "missingoklist argument accepts only this format \"\\d+:\\d+\\d+[,\\d+:\\d+\\d+]\""

  /** The settings the checks run with, or the UNKNOWN exit. */
  datatype Setup = Configured(cfg: Config) | Rejected(exit: Exit)

  /** The two option checks in source order: `--limits` first, then
      `--missingoklist`. The probe stops before any storcli call exactly when
      one of the two values is malformed, and then exits UNKNOWN; otherwise
      the limits in use are the ones given, or the old ones when none were
      given, and nothing but the limits changes. */
  function Configure(cfg: Config, limits: Option<string>, missingList: Option<string>): (r: Setup)
    ensures r.Rejected? <==>
      (limits.Some? && !LimitsFormat(limits.value)) || (missingList.Some? && !MissingListFormat(missingList.value))
    ensures r.Rejected? ==> r.exit.status == 3
    ensures r.Configured? ==>
      && r.cfg.(tempLimitCWa := 0, tempLimitCCr := 0, tempLimitFWa := 0, tempLimitFCr := 0)
         == cfg.(tempLimitCWa := 0, tempLimitCCr := 0, tempLimitFWa := 0, tempLimitFCr := 0)
      && (limits.None? ==> r.cfg == cfg)
      && (limits.Some? ==> (WarnTempLimit(r.cfg), CritTempLimit(r.cfg)) == LimitsOf(limits.value))
  {
    if limits.Some? && !LimitsFormat(limits.value) then Rejected(End(Unknown, LimitsError, ""))
    else
      var c := if limits.Some? then WithLimits(cfg, LimitsOf(limits.value).0, LimitsOf(limits.value).1) else cfg;
      if missingList.Some? && !MissingListFormat(missingList.value) then Rejected(End(Unknown, MissingListError, ""))
      else Configured(c)
  }

  /** Splitting `a:b` at the colon gives back `a` and `b`. */
  lemma SplitPair(a: string, b: string, c: char)
    requires c !in a && c !in b
    ensures SplitOn(a + [c] + b, c) == [a, b]
  {
    var s := a + [c] + b;
    IndexOfAbsent(a, c);
    assert s[..|a|] == a && s[|a| + 1..] == b;
    IndexOfInside(a, b, c);
    IndexOfAbsent(b, c);
  }

  lemma {:induction false} IndexOfInside(a: string, b: string, c: char)
    requires c !in a
    ensures IndexOf(a + [c] + b, c) == |a|
    decreases |a|
  {
    if a != [] {
      IndexOfInside(a[1..], b, c);
      assert (a + [c] + b)[1..] == a[1..] + [c] + b;
    }
  }

  lemma NoColon(n: nat)
    ensures ':' !in NatToString(n) && Number(NatToString(n))
  {
    var s := NatToString(n);
    assert forall i :: 0 <= i < |s| ==> s[i] != ':';
  }

  /** Any `warn:crit` pair written in decimal is accepted and read back. */
  lemma LimitsRoundTrip(warn: nat, crit: nat)
    ensures var s := NatToString(warn) + ":" + NatToString(crit);
      LimitsFormat(s) && LimitsOf(s) == (warn, crit)
  {
    var a := NatToString(warn);
    var b := NatToString(crit);
    var s := a + ":" + b;
    NoColon(warn);
    NoColon(crit);
    assert Covered(s) == s by {
      assert s[|s| - 1] == b[|b| - 1];
    }
    SplitPair(a, b, ':');
    assert a + [':'] + b == s;
    DigitsOfNat(warn);
    DigitsOfNat(crit);
  }

  /** A value without a colon is refused. */
  lemma NoColonRefused(s: string)
    requires ':' !in s
    ensures !LimitsFormat(s)
  {
    var t := Covered(s);
    IndexOfAbsent(t, ':');
  }
}

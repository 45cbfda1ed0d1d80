/** check_bbus and check_cvs (check_megaraid.py:177-237): the battery backup
    unit of every controller, and the cache vault of those whose BBU query
    says to ask for it instead. */
module Battery {
  import opened Common
  import opened Text
  import opened Severity

  /** `Failed\s+-\s+use\s+/cx/cv\s+255`: this controller has a cache vault. */
  const UseCacheVault: Phrase := Phrase(false, ["Failed", "-", "use", "/cx/cv", "255"], false)
  /** `\s+Optimal\s+`. */
  const OptimalWord: Phrase := Phrase(true, ["Optimal"], true)
  /** `Battery\s+is\s+absent!`. */
  const BatteryAbsent: Phrase := Phrase(false, ["Battery", "is", "absent!"], false)
  /** `Cachevault\s+is\s+absent!`. */
  const CachevaultAbsent: Phrase := Phrase(false, ["Cachevault", "is", "absent!"], false)

  /** Which branch of check_bbus a `/cX/bbu show` text takes. */
  datatype BbuReading = NeedsCacheVault | BbuOptimal | BbuAbsent | BbuOther

  /** Which branch of check_cvs a `/cX/cv show` text takes. */
  datatype CvReading = CvOptimal | CvAbsent | CvOther

  function ReadBbu(text: string): BbuReading {
    if Search(text, UseCacheVault) then NeedsCacheVault
    else if Search(text, OptimalWord) then BbuOptimal
    else if Search(text, BatteryAbsent) then BbuAbsent
    else BbuOther
  }

  function ReadCv(text: string): CvReading {
    if Search(text, OptimalWord) then CvOptimal
    else if Search(text, CachevaultAbsent) then CvAbsent
    else CvOther
  }

  function BbuText(run: Runner, c: string): string {
    run(["/c" + c + "/bbu", "show"])
  }

  function CvText(run: Runner, c: string): string {
    run(["/c" + c + "/cv", "show"])
  }

  /** The body of check_cvs' loop. */
  function CvStep(cfg: Config, acc: Tally, c: string, reading: CvReading): Tally {
    match reading
    case CvOptimal => acc.(long := acc.long + "OK: Battery on /c" + c + "\n")
    case CvAbsent =>
      if cfg.expectBattery then
        Tally(HandleNagiosCodes(acc.code, Critical), acc.cr + "/c" + c + ";", acc.wa,
              acc.long + "CR: Battery on controller /c" + c + " is missing.\n")
      else acc.(long := acc.long + "OK: Battery on controller /c" + c + " is missing, but this is expected.\n")
    case CvOther =>
      Tally(HandleNagiosCodes(acc.code, Critical), acc.cr + "/c" + c + ";", acc.wa,
            acc.long + "CR: Battery on controller /c" + c + "\n")
  }

  /** check_cvs over the controllers `cs`, from the accumulators `acc` on. */
  function CvFold(cfg: Config, run: Runner, acc: Tally, cs: seq<string>): Tally
    decreases |cs|
  {
    if cs == [] then acc
    else CvFold(cfg, run, CvStep(cfg, acc, cs[0], ReadCv(CvText(run, cs[0]))), cs[1..])
  }

  /** The body of check_bbus' loop: the accumulators and the controllers
      passed on to check_cvs. An unrecognised text is CRITICAL but is logged
      with `OK:` and without the final period (check_megaraid.py:231). */
  function BbuStep(cfg: Config, acc: Tally, cvs: seq<string>, c: string, reading: BbuReading): (Tally, seq<string>) {
    match reading
    case NeedsCacheVault => (acc, cvs + [c])
    case BbuOptimal => (acc.(long := acc.long + "OK: Battery on /c" + c + ".\n"), cvs)
    case BbuAbsent =>
      if cfg.expectBattery then
        (Tally(HandleNagiosCodes(acc.code, Critical), acc.cr + "/c" + c + ";", acc.wa,
               acc.long + "CR: Battery on controller /c" + c + " is missing.\n"), cvs)
      else (acc.(long := acc.long + "OK: Battery on controller /c" + c + " is missing, but this is expected.\n"), cvs)
    case BbuOther =>
      (Tally(HandleNagiosCodes(acc.code, Critical), acc.cr + "/c" + c + ";", acc.wa,
             acc.long + "OK: Battery on /c" + c + "\n"), cvs)
  }

  function BbuFold(cfg: Config, run: Runner, acc: Tally, cvs: seq<string>, cs: seq<string>): (Tally, seq<string>)
    decreases |cs|
  {
    if cs == [] then (acc, cvs)
    else
      var next := BbuStep(cfg, acc, cvs, cs[0], ReadBbu(BbuText(run, cs[0])));
      BbuFold(cfg, run, next.0, next.1, cs[1..])
  }

  /** check_bbus: the BBU loop, then check_cvs on the controllers it passed
      on; the id list is dropped when the combined state is OK. */
  function BatteryOf(cfg: Config, run: Runner, cs: seq<string>): Tally {
    var (bbu, cvs) := BbuFold(cfg, run, NoFindings, [], cs);
    var cv := CvFold(cfg, run, NoFindings, cvs);
    var code := HandleNagiosCodes(bbu.code, cv.code);
    Tally(code, if code == Ok then "" else bbu.cr + cv.cr, "", bbu.long + cv.long)
  }

  /** The verdict check_cvs gives one cache vault: a missing one is CRITICAL
      only when a battery is expected; any unrecognised answer is CRITICAL. */
  function CvSeverity(cfg: Config, reading: CvReading): (s: Severity)
    ensures s == Ok || s == Critical
    ensures s == Critical <==> reading == CvOther || (reading == CvAbsent && cfg.expectBattery)
  {
    match reading
    case CvOptimal => Ok
    case CvAbsent => if cfg.expectBattery then Critical else Ok
    case CvOther => Critical
  }

  /** The verdict check_bbus' own loop gives one BBU answer; a controller
      deferred to its cache vault is not judged here. */
  function BbuSeverity(cfg: Config, reading: BbuReading): (s: Severity)
    ensures s == Ok || s == Critical
    ensures s == Critical <==> reading == BbuOther || (reading == BbuAbsent && cfg.expectBattery)
  {
    match reading
    case NeedsCacheVault => Ok
    case BbuOptimal => Ok
    case BbuAbsent => if cfg.expectBattery then Critical else Ok
    case BbuOther => Critical
  }

  /** The verdict on one controller's battery, read directly: a controller
      the BBU query defers to its cache vault is judged by the cache vault
      alone, any other by its BBU answer. */
  function ControllerBattery(cfg: Config, run: Runner, c: string): Severity {
    var bbu := ReadBbu(BbuText(run, c));
    if bbu == NeedsCacheVault then CvSeverity(cfg, ReadCv(CvText(run, c))) else BbuSeverity(cfg, bbu)
  }

  predicate CvFails(cfg: Config, run: Runner, c: string) {
    CvSeverity(cfg, ReadCv(CvText(run, c))) == Critical
  }

  predicate BbuFails(cfg: Config, run: Runner, c: string) {
    BbuSeverity(cfg, ReadBbu(BbuText(run, c))) == Critical
  }

  /** The controllers check_bbus passes on to check_cvs, in order. */
  function Deferred(run: Runner, cs: seq<string>): (d: seq<string>)
    ensures forall x :: x in d <==> x in cs && ReadBbu(BbuText(run, x)) == NeedsCacheVault
    decreases |cs|
  {
    if cs == [] then []
    else (if ReadBbu(BbuText(run, cs[0])) == NeedsCacheVault then [cs[0]] else []) + Deferred(run, cs[1..])
  }

  /** The ids of the controllers in `cs` whose cache vault fails, in order. */
  function CvIds(cfg: Config, run: Runner, cs: seq<string>): string
    decreases |cs|
  {
    if cs == [] then "" else (if CvFails(cfg, run, cs[0]) then ControllerId(cs[0]) else "") + CvIds(cfg, run, cs[1..])
  }

  /** The ids of the controllers in `cs` whose own BBU answer fails, in order. */
  function BbuIds(cfg: Config, run: Runner, cs: seq<string>): string
    decreases |cs|
  {
    if cs == [] then "" else (if BbuFails(cfg, run, cs[0]) then ControllerId(cs[0]) else "") + BbuIds(cfg, run, cs[1..])
  }

  /** One cache vault combines its verdict into the state and appends its id
      exactly when it fails. */
  lemma CvStepEffect(cfg: Config, acc: Tally, c: string, reading: CvReading)
    ensures CvStep(cfg, acc, c, reading).code == HandleNagiosCodes(acc.code, CvSeverity(cfg, reading))
    ensures CvStep(cfg, acc, c, reading).cr == acc.cr + (if CvSeverity(cfg, reading) == Critical then ControllerId(c) else "")
    ensures CvStep(cfg, acc, c, reading).cr == "" <==> acc.cr == "" && CvSeverity(cfg, reading) == Ok
    ensures CvStep(cfg, acc, c, reading).wa == acc.wa
  {
    IdAppended(acc.cr, c);
  }

  /** One BBU answer combines its verdict into the state, appends its id
      exactly when it fails, and defers the controller exactly when told to. */
  lemma BbuStepEffect(cfg: Config, acc: Tally, cvs: seq<string>, c: string, reading: BbuReading)
    ensures BbuStep(cfg, acc, cvs, c, reading).0.code == HandleNagiosCodes(acc.code, BbuSeverity(cfg, reading))
    ensures BbuStep(cfg, acc, cvs, c, reading).0.cr == acc.cr + (if BbuSeverity(cfg, reading) == Critical then ControllerId(c) else "")
    ensures BbuStep(cfg, acc, cvs, c, reading).0.cr == "" <==> acc.cr == "" && BbuSeverity(cfg, reading) == Ok
    ensures BbuStep(cfg, acc, cvs, c, reading).1 == cvs + (if reading == NeedsCacheVault then [c] else [])
  {
    IdAppended(acc.cr, c);
  }

  /** Combining with a verdict that is OK or CRITICAL. */
  lemma CombineTwo(a: Severity, own: Severity, rest: Severity)
    requires own == Ok || own == Critical
    requires rest == Ok || rest == Critical
    ensures HandleNagiosCodes(HandleNagiosCodes(a, own), rest)
         == HandleNagiosCodes(a, if own == Critical || rest == Critical then Critical else Ok)
  {
    CriticalAbsorbs(a);
    OkIsIdentity(a);
  }

  /** check_cvs from `acc` on: CRITICAL is added exactly when some cache
      vault fails, and the ids of exactly the failing ones are appended in
      order. */
  lemma {:induction false} CvFoldEffect(cfg: Config, run: Runner, acc: Tally, cs: seq<string>)
    ensures var fails := exists c :: c in cs && CvFails(cfg, run, c);
      var r := CvFold(cfg, run, acc, cs);
      && r.code == HandleNagiosCodes(acc.code, if fails then Critical else Ok)
      && r.cr == acc.cr + CvIds(cfg, run, cs)
      && (r.cr == "" <==> acc.cr == "" && !fails)
      && r.wa == acc.wa
    decreases |cs|
  {
    if cs == [] {
      OkIsIdentity(acc.code);
    } else {
      var c := cs[0];
      var reading := ReadCv(CvText(run, c));
      var next := CvStep(cfg, acc, c, reading);
      CvStepEffect(cfg, acc, c, reading);
      CvFoldEffect(cfg, run, next, cs[1..]);
      var restFails := exists x :: x in cs[1..] && CvFails(cfg, run, x);
      var fails := exists x :: x in cs && CvFails(cfg, run, x);
      assert fails <==> CvFails(cfg, run, c) || restFails by {
        assert cs == [c] + cs[1..];
      }
      CombineTwo(acc.code, CvSeverity(cfg, reading), if restFails then Critical else Ok);
      AppendAssociates(acc.cr, if CvFails(cfg, run, c) then ControllerId(c) else "", CvIds(cfg, run, cs[1..]));
    }
  }

  /** check_bbus' loop from `acc` on: CRITICAL is added exactly when some
      controller's own BBU answer fails, the ids of exactly those controllers
      are appended in order, and so are the deferred controllers. */
  lemma {:induction false} BbuFoldEffect(cfg: Config, run: Runner, acc: Tally, cvs: seq<string>, cs: seq<string>)
    ensures var fails := exists c :: c in cs && BbuFails(cfg, run, c);
      var r := BbuFold(cfg, run, acc, cvs, cs);
      && r.0.code == HandleNagiosCodes(acc.code, if fails then Critical else Ok)
      && r.0.cr == acc.cr + BbuIds(cfg, run, cs)
      && (r.0.cr == "" <==> acc.cr == "" && !fails)
      && r.1 == cvs + Deferred(run, cs)
    decreases |cs|
  {
    BbuFoldIds(cfg, run, acc, cvs, cs);
    if cs == [] {
      OkIsIdentity(acc.code);
    } else {
      var c := cs[0];
      var reading := ReadBbu(BbuText(run, c));
      var next := BbuStep(cfg, acc, cvs, c, reading);
      BbuStepEffect(cfg, acc, cvs, c, reading);
      BbuFoldEffect(cfg, run, next.0, next.1, cs[1..]);
      var restFails := exists x :: x in cs[1..] && BbuFails(cfg, run, x);
      var fails := exists x :: x in cs && BbuFails(cfg, run, x);
      assert fails <==> BbuFails(cfg, run, c) || restFails by {
        assert cs == [c] + cs[1..];
      }
      CombineTwo(acc.code, BbuSeverity(cfg, reading), if restFails then Critical else Ok);
      AppendAssociates(cvs, if reading == NeedsCacheVault then [c] else [], Deferred(run, cs[1..]));
    }
  }

  /** The CR list check_bbus' loop leaves. */
  lemma {:induction false} BbuFoldIds(cfg: Config, run: Runner, acc: Tally, cvs: seq<string>, cs: seq<string>)
    ensures BbuFold(cfg, run, acc, cvs, cs).0.cr == acc.cr + BbuIds(cfg, run, cs)
    decreases |cs|
  {
    if cs != [] {
      var c := cs[0];
      var next := BbuStep(cfg, acc, cvs, c, ReadBbu(BbuText(run, c)));
      BbuStepEffect(cfg, acc, cvs, c, ReadBbu(BbuText(run, c)));
      BbuFoldIds(cfg, run, next.0, next.1, cs[1..]);
      AppendAssociates(acc.cr, if BbuFails(cfg, run, c) then ControllerId(c) else "", BbuIds(cfg, run, cs[1..]));
    }
  }

  /** The contract of check_bbus: the battery facet is CRITICAL exactly when
      some controller's battery verdict is CRITICAL, and OK otherwise; when
      CRITICAL its id list names the controllers whose own BBU answer failed,
      then those whose cache vault failed, each in controller order; the list
      is empty exactly when the facet is OK; it has no WARNING part. */
  lemma BatteryVerdict(cfg: Config, run: Runner, cs: seq<string>)
    ensures var t := BatteryOf(cfg, run, cs);
      && t.code == (if exists c :: c in cs && ControllerBattery(cfg, run, c) == Critical then Critical else Ok)
      && t.cr == (if t.code == Ok then "" else BbuIds(cfg, run, cs) + CvIds(cfg, run, Deferred(run, cs)))
      && (t.cr == "" <==> t.code == Ok)
      && t.wa == ""
  {
    var (bbu, cvs) := BbuFold(cfg, run, NoFindings, [], cs);
    BbuFoldEffect(cfg, run, NoFindings, [], cs);
    assert cvs == Deferred(run, cs);
    CvFoldEffect(cfg, run, NoFindings, cvs);
    var bi, ci := BbuIds(cfg, run, cs), CvIds(cfg, run, cvs);
    assert "" + bi == bi && "" + ci == ci;
    var fails := exists c :: c in cs && ControllerBattery(cfg, run, c) == Critical;
    if fails {
      var c :| c in cs && ControllerBattery(cfg, run, c) == Critical;
      if ReadBbu(BbuText(run, c)) == NeedsCacheVault {
        assert c in cvs && CvFails(cfg, run, c);
      } else {
        assert BbuFails(cfg, run, c);
      }
    } else {
      forall c | c in cs ensures !BbuFails(cfg, run, c) {
        assert ControllerBattery(cfg, run, c) != Critical;
      }
      forall c | c in cvs ensures !CvFails(cfg, run, c) {
        assert ControllerBattery(cfg, run, c) != Critical;
      }
    }
  }

  /** check_cvs: the accumulator loop over the deferred controllers. */
  method CheckCvs(cfg: Config, run: Runner, cs: seq<string>) returns (t: Tally)
    ensures t == CvFold(cfg, run, NoFindings, cs)
  {
    var code, out, long := Ok, "", "";
    var i := 0;
    while i < |cs|
      invariant 0 <= i <= |cs|
      invariant CvFold(cfg, run, NoFindings, cs) == CvFold(cfg, run, Tally(code, out, "", long), cs[i..])
    {
      var c := cs[i];
      ghost var acc := Tally(code, out, "", long);
      assert cs[i..][0] == c && cs[i..][1..] == cs[i + 1..];
      var info := CvText(run, c);
      if Search(info, OptimalWord) {
        long := long + "OK: Battery on /c" + c + "\n";
      } else if Search(info, CachevaultAbsent) {
        if cfg.expectBattery {
          code := HandleNagiosCodes(code, Critical);
          long := long + "CR: Battery on controller /c" + c + " is missing.\n";
          out := out + "/c" + c + ";";
        } else {
          long := long + "OK: Battery on controller /c" + c + " is missing, but this is expected.\n";
        }
      } else {
        code := HandleNagiosCodes(code, Critical);
        long := long + "CR: Battery on controller /c" + c + "\n";
        out := out + "/c" + c + ";";
      }
      assert CvStep(cfg, acc, c, ReadCv(info)) == Tally(code, out, "", long);
      i := i + 1;
    }
    t := Tally(code, out, "", long);
  }

  /** check_bbus: the BBU loop, check_cvs on the deferred controllers, and
      the combination. */
  method CheckBbus(cfg: Config, run: Runner, cs: seq<string>) returns (t: Tally)
    ensures t == BatteryOf(cfg, run, cs)
  {
    var cvsControllers: seq<string> := [];
    var batteryOk, out, long := Ok, "", "";
    var i := 0;
    while i < |cs|
      invariant 0 <= i <= |cs|
      invariant BbuFold(cfg, run, NoFindings, [], cs) == BbuFold(cfg, run, Tally(batteryOk, out, "", long), cvsControllers, cs[i..])
    {
      var c := cs[i];
      ghost var acc := Tally(batteryOk, out, "", long);
      ghost var before := cvsControllers;
      assert cs[i..][0] == c && cs[i..][1..] == cs[i + 1..];
      var bbu := BbuText(run, c);
      if Search(bbu, UseCacheVault) {
        cvsControllers := cvsControllers + [c];
      } else if Search(bbu, OptimalWord) {
        long := long + "OK: Battery on /c" + c + ".\n";
      } else if Search(bbu, BatteryAbsent) {
        if cfg.expectBattery {
          batteryOk := HandleNagiosCodes(batteryOk, Critical);
          long := long + "CR: Battery on controller /c" + c + " is missing.\n";
          out := out + "/c" + c + ";";
        } else {
          long := long + "OK: Battery on controller /c" + c + " is missing, but this is expected.\n";
        }
      } else {
        batteryOk := HandleNagiosCodes(batteryOk, Critical);
        long := long + "OK: Battery on /c" + c + "\n";
        out := out + "/c" + c + ";";
      }
      assert BbuStep(cfg, acc, before, c, ReadBbu(bbu)) == (Tally(batteryOk, out, "", long), cvsControllers);
      i := i + 1;
    }
    var cv := CheckCvs(cfg, run, cvsControllers);
    batteryOk := HandleNagiosCodes(batteryOk, cv.code);
    long := long + cv.long;
    out := if batteryOk == Ok then "" else out + cv.cr;
    t := Tally(batteryOk, out, "", long);
  }
}

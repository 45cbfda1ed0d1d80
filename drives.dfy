/** get_drives (check_megaraid.py:340-460): the physical drives of one
    enclosure, read from `storcli /cX/eY/sall show`, each judged by its
    temperature, error counters, SMART flag and role; then the slots left
    empty between them. */
module Drives {
  import opened Common
  import opened Text
  import opened Severity
  import opened Sections
  import opened DriveState
  import opened Format
  import opened Slots

  /** The role word in the State column, as get_drives tells them apart. */
  datatype Role =
    | GlobalHotspare | DedicatedHotspare(vd: string) | Online | Jbod
    | UnconfiguredGood | UnconfiguredShielded | CopyBack | Rebuild
    | OtherRole(word: string)

  /** One drive row, read: its slot, its description line (without the role
      tag), the state its temperature and counters give, and its role. */
  datatype Drive = Drive(slot: int, line: string, health: Severity, role: Role)

  /** The accumulators of get_drives' loop: the four texts and the state,
      the slots not seen yet, and whether a hotspare was seen. */
  datatype DriveAcc = DriveAcc(tally: Tally, empty: set<int>, hotspare: bool)

  /** The six values get_drives returns. */
  datatype DriveReport = DriveReport(tally: Tally, hotspare: bool, count: int)

  /** `set(range(SLOT_START, 2049))`. */
  function AllSlots(slotStart: int): (r: set<int>)
    ensures forall x :: x in r <==> slotStart <= x < SlotEnd
    decreases SlotEnd - slotStart
  {
    if slotStart >= SlotEnd then {} else {slotStart} + AllSlots(slotStart + 1)
  }

  function DriveId(c: string, e: string, slot: int): string {
    "/c" + c + "/e" + e + "/s" + IntToString(slot)
  }

  /** `int(word.split(':')[1])`; None where it raises. */
  function SlotOf(word: string): Option<int> {
    var parts := SplitOn(word, ':');
    if |parts| < 2 then None else ParseInt(parts[1])
  }

  /** An attribute as an f-string prints it; an unset one prints `None`. */
  function Shown(m: map<Attr, Value>, a: Attr): string {
    if a !in m then "None"
    else match m[a]
      case StrValue(s) => s
      case IntValue(i) => IntToString(i)
      case BoolValue(b) => if b then "True" else "False"
      case FloatValue(r) => Fixed62(r)
  }

  function IntOf(m: map<Attr, Value>, a: Attr): Option<int> {
    if a in m && m[a].IntValue? then Some(m[a].i) else None
  }

  function TemperatureOf(m: map<Attr, Value>): Option<real> {
    if DriveTemperature in m && m[DriveTemperature].FloatValue? then Some(m[DriveTemperature].r) else None
  }

  /** `if pd_smart_flag:`; an unset flag is falsy. */
  function SmartFlag(m: map<Attr, Value>): bool {
    SmartAlert in m && m[SmartAlert] == BoolValue(true)
  }

  /** The description line of a drive; formatting an unset temperature, or
      matching an unset manufacturer against `ATA$`, raises TypeError. */
  function Describe(cfg: Config, id: string, m: map<Attr, Value>): (r: Outcome<string>)
    ensures r.Returned? <==> Manufacturer in m && TemperatureOf(m).Some?
  {
    if Manufacturer !in m || TemperatureOf(m).None? then Raised
    else
      var maker := Shown(m, Manufacturer);
      Returned(id + " " + (if EqualsIgnoringCase(maker, "ATA") then "" else maker + "; ")
        + Shown(m, ModelNumber) + "; SN: " + Shown(m, SerialNumber)
        + "; Temperature: " + Fixed62(TemperatureOf(m).value) + "\U{02DA}" + TempUnit(cfg) + "; "
        + "Errors: SMART: " + (if SmartFlag(m) then "FAIL" else "OK")
        + ", Media: " + Shown(m, MediaErrors) + ", "
        + "Other: " + Shown(m, OtherErrors) + ", Predictive: " + Shown(m, PredictiveFailures) + "\n")
  }

  /** `counter >= limit` for a counter that is set. */
  predicate Reaches(counter: Option<int>, limit: int) {
    counter.Some? && counter.value >= limit
  }

  /** The two threshold tests of get_drives on one drive, in source order;
      comparing an unset counter with a limit raises TypeError, and `or`
      stops at the first true test. */
  function Health(cfg: Config, temp: real, media: Option<int>, predictive: Option<int>, other: Option<int>, smart: bool): (r: Outcome<Severity>)
    ensures r.Returned? ==> r.value == Ok || r.value == Warning || r.value == Critical
    ensures r.Raised? <==>
      || (temp < CritTempLimit(cfg) as real && (media.None? || (media.value < ErrorLimitC && predictive.None?)))
      || (!cfg.ignoreOthers && other.None?)
    ensures r.Returned? ==>
      var critical := temp >= CritTempLimit(cfg) as real || Reaches(media, ErrorLimitC) || Reaches(predictive, ErrorLimitC)
        || (!cfg.ignoreOthers && Reaches(other, ErrorLimitC));
      var warning := temp >= WarnTempLimit(cfg) as real || Reaches(media, ErrorLimitW) || Reaches(predictive, ErrorLimitW)
        || smart || (!cfg.ignoreOthers && Reaches(other, ErrorLimitW));
      && (r.value == Critical <==> critical)
      && (r.value == Warning <==> !critical && warning)
      && (r.value == Ok <==> !critical && !warning)
  {
    var first: Outcome<Severity> :=
      if temp >= CritTempLimit(cfg) as real then Returned(Critical)
      else if media.None? then Raised
      else if media.value >= ErrorLimitC then Returned(Critical)
      else if predictive.None? then Raised
      else if predictive.value >= ErrorLimitC then Returned(Critical)
      else if temp >= WarnTempLimit(cfg) as real || media.value >= ErrorLimitW || predictive.value >= ErrorLimitW || smart
      then Returned(Warning)
      else Returned(Ok);
    if first.Raised? || cfg.ignoreOthers then first
    else if other.None? then Raised
    else if other.value >= ErrorLimitC then Returned(HandleNagiosCodes(first.value, Critical))
    else if other.value >= ErrorLimitW then Returned(HandleNagiosCodes(first.value, Warning))
    else first
  }

  /** The role tests on `pd_line_split[2]`, in source order; `match(r'X$')`
      on a blank-free word is a case-insensitive equality. A missing third
      word, or a missing fourth one for DHS, raises IndexError. */
  function ReadRole(t: seq<string>): (r: Outcome<Role>)
    ensures r.Raised? <==> |t| < 3 || (!EqualsIgnoringCase(t[2], "GHS") && EqualsIgnoringCase(t[2], "DHS") && |t| < 4)
    ensures r.Returned? ==> (IsHotspare(r.value) <==> EqualsIgnoringCase(t[2], "GHS") || EqualsIgnoringCase(t[2], "DHS"))
    ensures r.Returned? ==> (r.value.OtherRole? <==> !exists w :: w in KnownRoles && EqualsIgnoringCase(t[2], w))
  {
    if |t| < 3 then Raised
    else
      var w := t[2];
      if EqualsIgnoringCase(w, "GHS") then Returned(GlobalHotspare)
      else if EqualsIgnoringCase(w, "DHS") then (if |t| < 4 then Raised else Returned(DedicatedHotspare(t[3])))
      else if EqualsIgnoringCase(w, "Onln") then Returned(Online)
      else if EqualsIgnoringCase(w, "JBOD") then Returned(Jbod)
      else if EqualsIgnoringCase(w, "UGood") then Returned(UnconfiguredGood)
      else if EqualsIgnoringCase(w, "UGShld") then Returned(UnconfiguredShielded)
      else if EqualsIgnoringCase(w, "Cpybck") then Returned(CopyBack)
      else if EqualsIgnoringCase(w, "Rbld") then Returned(Rebuild)
      else Returned(OtherRole(w))
  }

  /** The role words get_drives recognises. */
  const KnownRoles: seq<string> := ["GHS", "DHS", "Onln", "JBOD", "UGood", "UGShld", "Cpybck", "Rbld"]

  /** What a role adds to the drive's state. */
  function RoleSeverity(cfg: Config, role: Role): (s: Severity)
    ensures s == Ok || s == Warning || s == Critical
  {
    match role
    case UnconfiguredGood => if cfg.ignoreUgood then Ok else Warning
    case UnconfiguredShielded => if cfg.ignoreUgood then Ok else Warning
    case CopyBack => Warning
    case Rebuild => Warning
    case OtherRole(_) => Critical
    case _ => Ok
  }

  predicate IsHotspare(role: Role) {
    role.GlobalHotspare? || role.DedicatedHotspare?
  }

  /** What the state word of a drive row adds, read off the word itself:
      CRITICAL exactly for a word get_drives does not know, WARNING exactly
      for copy-back, rebuild and (unless ignored) unconfigured-good drives,
      OK for hot spares, online and JBOD drives. */
  lemma RoleRules(cfg: Config, t: seq<string>)
    requires ReadRole(t).Returned?
    ensures var s := RoleSeverity(cfg, ReadRole(t).value);
      && (s == Critical <==> !exists w :: w in KnownRoles && EqualsIgnoringCase(t[2], w))
      && (s == Warning <==>
            || (!cfg.ignoreUgood && (EqualsIgnoringCase(t[2], "UGood") || EqualsIgnoringCase(t[2], "UGShld")))
            || EqualsIgnoringCase(t[2], "Cpybck") || EqualsIgnoringCase(t[2], "Rbld"))
  {
    forall p, q | p in KnownRoles && q in KnownRoles && p != q
      ensures !(EqualsIgnoringCase(t[2], p) && EqualsIgnoringCase(t[2], q))
    {
      OneRoleWord(t[2], p, q);
    }
  }

  /** Two role words that differ in length or in their first letter cannot
      both match the same word. */
  lemma OneRoleWord(w: string, p: string, q: string)
    requires p != [] && q != [] && (|p| != |q| || Lower(p[0]) != Lower(q[0]))
    ensures !(EqualsIgnoringCase(w, p) && EqualsIgnoringCase(w, q))
  {
  }

  /** The tag put in front of the description line. */
  function RoleTag(role: Role): string {
    match role
    case GlobalHotspare => "PD (GHS) "
    case DedicatedHotspare(vd) => "PD (DHS VD" + vd + ") "
    case Online => "PD "
    case Jbod => "PD (JBOD) "
    case UnconfiguredGood => "PD (Unconfigured Good) "
    case UnconfiguredShielded => "PD (Unconfigured Good Shielded) "
    case CopyBack => "PD (CopyBack) "
    case Rebuild => "PD (Rebuild) "
    case OtherRole(w) => "PD (" + w + ") "
  }

  /** The drive a row and its `show all` attributes describe. Recording the
      SMART flag as performance data, `int(pd_smart_flag)`, raises TypeError
      when the flag is unset. */
  function Assess(cfg: Config, id: string, slot: int, t: seq<string>, m: map<Attr, Value>): (r: Outcome<Drive>)
    ensures r.Returned? ==> r.value.health != Unknown && r.value.slot == slot
    ensures SmartAlert !in m ==> r.Raised?
  {
    match Describe(cfg, id, m)
    case Raised => Raised
    case Returned(line) =>
      match ReadRole(t)
      case Raised => Raised
      case Returned(role) =>
        match Health(cfg, TemperatureOf(m).value, IntOf(m, MediaErrors), IntOf(m, PredictiveFailures),
                     IntOf(m, OtherErrors), SmartFlag(m))
        case Raised => Raised
        case Returned(h) => if SmartAlert !in m then Raised else Returned(Drive(slot, line, h, role))
  }

  /** One drive row read: the slot, `get_drive_state` of the drive, its line,
      its health and its role; whatever raises on the way. */
  function ReadDrive(cfg: Config, run: Runner, c: string, e: string, row: string): (r: Outcome<Drive>)
    ensures r.Returned? ==> r.value.health != Unknown && SlotOf(Tokens(row)[0]) == Some(r.value.slot)
  {
    var t := Tokens(row);
    match SlotOf(t[0])
    case None => Raised
    case Some(slot) =>
      var id := DriveId(c, e, slot);
      match DriveStateOf(run([id, "show", "all"]), cfg.useFahrenheit)
      case Raised => Raised
      case Returned(m) => Assess(cfg, id, slot, t, m)
  }

  /** A row whose drive's `show all` text has no S.M.A.R.T line cannot be
      read: the unset flag makes `int(pd_smart_flag)` raise TypeError. */
  lemma MissingSmartRaises(cfg: Config, run: Runner, c: string, e: string, row: string, slot: int)
    requires SlotOf(Tokens(row)[0]) == Some(slot)
    requires var st := DriveStateOf(run([DriveId(c, e, slot), "show", "all"]), cfg.useFahrenheit);
      st.Returned? && SmartAlert !in st.value
    ensures ReadDrive(cfg, run, c, e, row) == Raised
  {
  }

  function ReadDrives(cfg: Config, run: Runner, c: string, e: string, rows: seq<string>): (d: seq<Outcome<Drive>>)
    ensures |d| == |rows| && forall k :: 0 <= k < |rows| ==> d[k] == ReadDrive(cfg, run, c, e, rows[k])
  {
    seq(|rows|, k requires 0 <= k < |rows| => ReadDrive(cfg, run, c, e, rows[k]))
  }

  /** The state one drive ends with: its health, then its role. */
  function DriveSeverity(cfg: Config, d: Drive): (s: Severity)
    ensures d.health != Unknown ==> s == Ok || s == Warning || s == Critical
  {
    HandleNagiosCodes(d.health, RoleSeverity(cfg, d.role))
  }

  /** What one drive adds: removing its slot from the empty ones (KeyError
      when it is not there), its line under its state's prefix, its id under
      the CR or WA list. */
  function DriveStep(cfg: Config, c: string, e: string, acc: DriveAcc, d: Drive): Outcome<DriveAcc> {
    if d.slot !in acc.empty then Raised
    else
      var state := DriveSeverity(cfg, d);
      var id := DriveId(c, e, d.slot);
      var text := RoleTag(d.role) + d.line;
      var t := acc.tally;
      var t1 :=
        if state == Ok then t.(long := t.long + "OK: " + text)
        else if state == Warning then Tally(t.code, t.cr, t.wa + id + ";", t.long + "WA: " + text)
        else if state == Critical then Tally(t.code, t.cr + id + ";", t.wa, t.long + "CR: " + text)
        else t;
      Returned(DriveAcc(t1.(code := HandleNagiosCodes(t.code, state)), acc.empty - {d.slot},
                        acc.hotspare || IsHotspare(d.role)))
  }

  function DriveFold(cfg: Config, c: string, e: string, acc: DriveAcc, ds: seq<Outcome<Drive>>): Outcome<DriveAcc>
    decreases |ds|
  {
    if ds == [] then Returned(acc)
    else match ds[0]
      case Raised => Raised
      case Returned(d) =>
        match DriveStep(cfg, c, e, acc, d)
        case Raised => Raised
        case Returned(next) => DriveFold(cfg, c, e, next, ds[1..])
  }

  /** The ids of the drives in state `s`, each followed by `;`, in row
      order: what the loop appends to the CR list (for CRITICAL) or the WA
      list (for WARNING). */
  function StateIds(cfg: Config, c: string, e: string, ds: seq<Outcome<Drive>>, s: Severity): string
    decreases |ds|
  {
    if ds == [] then ""
    else (if DriveIs(cfg, ds[0], s) then DriveId(c, e, ds[0].value.slot) + ";" else "") + StateIds(cfg, c, e, ds[1..], s)
  }

  /** The ids of the reported empty slots, each followed by `;`, in order. */
  function MissingIds(c: string, e: string, slots: seq<int>): string
    decreases |slots|
  {
    if slots == [] then "" else DriveId(c, e, slots[0]) + ";" + MissingIds(c, e, slots[1..])
  }

  /** One slot detect_empty_slots reported: a WARNING with its id unless
      missing drives are accepted. */
  function MissingStep(cfg: Config, c: string, e: string, t: Tally, slot: int): Tally {
    var id := DriveId(c, e, slot);
    var missingState := if cfg.missingOk then "OK" else "WA";
    var flagged := if cfg.missingOk then t else t.(wa := t.wa + id + ";", code := HandleNagiosCodes(t.code, Warning));
    flagged.(long := flagged.long + missingState + ": PD (Missing) " + id + "\n")
  }

  function MissingFold(cfg: Config, c: string, e: string, t: Tally, slots: seq<int>): Tally
    decreases |slots|
  {
    if slots == [] then t
    else MissingFold(cfg, c, e, MissingStep(cfg, c, e, t, slots[0]), slots[1..])
  }

  /** get_drives on the text of `storcli /cX/eY/sall show`. */
  function DrivesOf(cfg: Config, run: Runner, c: string, e: string, text: string): Outcome<DriveReport> {
    var rows := Section(SplitOn(text, '\n'), DriveHeader);
    match DriveFold(cfg, c, e, DriveAcc(NoFindings, AllSlots(cfg.slotStart), false), ReadDrives(cfg, run, c, e, rows))
    case Raised => Raised
    case Returned(a) =>
      Returned(DriveReport(MissingFold(cfg, c, e, a.tally, EmptySlots(a.empty, cfg.slotStart)), a.hotspare, |rows|))
  }

  /** Every row read without raising. */
  predicate Readable(ds: seq<Outcome<Drive>>) {
    forall k :: 0 <= k < |ds| ==> ds[k].Returned?
  }

  /** Every drive read has a health of its own. */
  predicate Judged(ds: seq<Outcome<Drive>>) {
    forall k :: 0 <= k < |ds| ==> ds[k].Returned? ==> ds[k].value.health != Unknown
  }

  /** Every slot read lies in `avail`. */
  predicate Placed(ds: seq<Outcome<Drive>>, avail: set<int>) {
    forall k :: 0 <= k < |ds| && ds[k].Returned? ==> ds[k].value.slot in avail
  }

  /** No two rows read name the same slot. */
  predicate Distinct(ds: seq<Outcome<Drive>>) {
    forall j, k :: 0 <= j < k < |ds| && ds[j].Returned? && ds[k].Returned? ==> ds[j].value.slot != ds[k].value.slot
  }

  /** The slots of the rows read. */
  function SlotSet(ds: seq<Outcome<Drive>>): set<int> {
    set k | 0 <= k < |ds| && ds[k].Returned? :: ds[k].value.slot
  }

  predicate DriveIs(cfg: Config, o: Outcome<Drive>, s: Severity) {
    o.Returned? && DriveSeverity(cfg, o.value) == s
  }

  predicate HotspareAt(o: Outcome<Drive>) {
    o.Returned? && IsHotspare(o.value.role)
  }

  /** The state the drives deserve: CRITICAL if one of them is, WARNING if
      one of them is, OK otherwise. */
  function Expected(cfg: Config, ds: seq<Outcome<Drive>>): Severity {
    if exists k :: 0 <= k < |ds| && DriveIs(cfg, ds[k], Critical) then Critical
    else if exists k :: 0 <= k < |ds| && DriveIs(cfg, ds[k], Warning) then Warning
    else Ok
  }

  /** One drive: KeyError when its slot was already taken or is out of
      range; otherwise its state is combined in, its line is printed under
      the prefix of that state, its id goes to the CR or WA list exactly
      when the state is CRITICAL or WARNING, and its slot is no longer empty. */
  lemma StepEffect(cfg: Config, c: string, e: string, acc: DriveAcc, d: Drive)
    requires d.health != Unknown
    ensures DriveStep(cfg, c, e, acc, d).Raised? <==> d.slot !in acc.empty
    ensures DriveStep(cfg, c, e, acc, d).Returned? ==>
      var r := DriveStep(cfg, c, e, acc, d).value;
      var s := DriveSeverity(cfg, d);
      && r.tally.code == HandleNagiosCodes(acc.tally.code, s)
      && r.tally.cr == acc.tally.cr + (if s == Critical then DriveId(c, e, d.slot) + ";" else "")
      && r.tally.wa == acc.tally.wa + (if s == Warning then DriveId(c, e, d.slot) + ";" else "")
      && (r.tally.cr == "" <==> acc.tally.cr == "" && s != Critical)
      && (r.tally.wa == "" <==> acc.tally.wa == "" && s != Warning)
      && r.empty == acc.empty - {d.slot}
      && (r.hotspare <==> acc.hotspare || IsHotspare(d.role))
  {
  }

  /** The drive's line is printed under the prefix its state has in the
      final output. */
  lemma StepLine(cfg: Config, c: string, e: string, acc: DriveAcc, d: Drive)
    requires d.health != Unknown && d.slot in acc.empty
    ensures DriveStep(cfg, c, e, acc, d).value.tally.long
         == acc.tally.long + Prefix(DriveSeverity(cfg, d)) + ": " + RoleTag(d.role) + d.line
  {
    var s := DriveSeverity(cfg, d);
    var text := RoleTag(d.role) + d.line;
    var p := Prefix(s);
    assert p == "OK" || p == "WA" || p == "CR";
    AppendAssociates(acc.tally.long, p + ": ", text);
    AppendAssociates(acc.tally.long + p, ": ", text);
  }

  lemma ExpectedCons(cfg: Config, ds: seq<Outcome<Drive>>)
    requires ds != [] && ds[0].Returned? && ds[0].value.health != Unknown
    ensures Expected(cfg, ds) == HandleNagiosCodes(DriveSeverity(cfg, ds[0].value), Expected(cfg, ds[1..]))
  {
    SeverityExistsCons(cfg, ds, Critical);
    SeverityExistsCons(cfg, ds, Warning);
  }

  /** The slot conditions of a sequence, from those of its tail. */
  lemma SlotsCons(ds: seq<Outcome<Drive>>, avail: set<int>)
    requires ds != [] && ds[0].Returned? && ds[0].value.slot in avail
    ensures var tail := ds[1..]; var s := ds[0].value.slot;
      && (Readable(ds) <==> Readable(tail))
      && (Placed(ds, avail) && Distinct(ds) <==> Placed(tail, avail - {s}) && Distinct(tail))
      && SlotSet(ds) == {s} + SlotSet(tail)
  {
    var tail := ds[1..];
    var s := ds[0].value.slot;
    assert forall k :: 1 <= k < |ds| ==> ds[k] == tail[k - 1];
    if Placed(tail, avail - {s}) && Distinct(tail) {
      forall j, k | 0 <= j < k < |ds| && ds[j].Returned? && ds[k].Returned?
        ensures ds[j].value.slot != ds[k].value.slot
      {
        if j > 0 {
          assert tail[j - 1] == ds[j] && tail[k - 1] == ds[k];
        } else {
          assert tail[k - 1] == ds[k];
        }
      }
    }
    if Placed(ds, avail) && Distinct(ds) {
      forall k | 0 <= k < |tail| && tail[k].Returned? ensures tail[k].value.slot in avail - {s} {
        assert ds[k + 1] == tail[k];
      }
    }
    assert SlotSet(ds) == {s} + SlotSet(tail) by {
      forall x | x in SlotSet(ds) ensures x in {s} + SlotSet(tail) {
        var k :| 0 <= k < |ds| && ds[k].Returned? && ds[k].value.slot == x;
        if k > 0 { assert tail[k - 1] == ds[k]; }
      }
      forall x | x in SlotSet(tail) ensures x in SlotSet(ds) {
        var k :| 0 <= k < |tail| && tail[k].Returned? && tail[k].value.slot == x;
        assert ds[k + 1] == tail[k];
      }
    }
  }

  /** The loop raises exactly when a row cannot be read, or a slot is out of
      range or taken twice. */
  lemma {:induction false} FoldRaises(cfg: Config, c: string, e: string, acc: DriveAcc, ds: seq<Outcome<Drive>>)
    requires Judged(ds)
    ensures DriveFold(cfg, c, e, acc, ds).Raised? <==> !(Readable(ds) && Placed(ds, acc.empty) && Distinct(ds))
    decreases |ds|
  {
    if ds != [] && ds[0].Returned? {
      var d := ds[0].value;
      StepEffect(cfg, c, e, acc, d);
      if d.slot in acc.empty {
        var tail := ds[1..];
        assert Judged(tail) by {
          assert forall k :: 0 <= k < |tail| ==> tail[k] == ds[k + 1];
        }
        SlotsCons(ds, acc.empty);
        FoldRaises(cfg, c, e, DriveStep(cfg, c, e, acc, d).value, tail);
      }
    }
  }

  lemma RemoveTwice(a: set<int>, x: int, b: set<int>)
    ensures (a - {x}) - b == a - ({x} + b)
  {
  }

  /** The tail of a sequence of judged rows is judged. */
  lemma JudgedTail(ds: seq<Outcome<Drive>>)
    requires ds != [] && Judged(ds)
    ensures Judged(ds[1..]) && (ds[0].Returned? ==> ds[0].value.health != Unknown)
  {
    var tail := ds[1..];
    assert forall k :: 0 <= k < |tail| ==> tail[k] == ds[k + 1];
  }

  /** On the first row, "some drive has state `st`" splits into the head
      and the tail. */
  lemma SeverityExistsCons(cfg: Config, ds: seq<Outcome<Drive>>, st: Severity)
    requires ds != []
    ensures (exists k :: 0 <= k < |ds| && DriveIs(cfg, ds[k], st)) <==>
      DriveIs(cfg, ds[0], st) || exists k :: 0 <= k < |ds[1..]| && DriveIs(cfg, ds[1..][k], st)
  {
    var tail := ds[1..];
    if exists k :: 0 <= k < |ds| && DriveIs(cfg, ds[k], st) {
      var k :| 0 <= k < |ds| && DriveIs(cfg, ds[k], st);
      if k > 0 { assert tail[k - 1] == ds[k]; }
    }
    if exists k :: 0 <= k < |tail| && DriveIs(cfg, tail[k], st) {
      var k :| 0 <= k < |tail| && DriveIs(cfg, tail[k], st);
      assert tail[k] == ds[k + 1];
    }
  }

  /** The same for "some drive is a hotspare". */
  lemma HotspareExistsCons(ds: seq<Outcome<Drive>>)
    requires ds != []
    ensures (exists k :: 0 <= k < |ds| && HotspareAt(ds[k])) <==>
      HotspareAt(ds[0]) || exists k :: 0 <= k < |ds[1..]| && HotspareAt(ds[1..][k])
  {
    var tail := ds[1..];
    if exists k :: 0 <= k < |ds| && HotspareAt(ds[k]) {
      var k :| 0 <= k < |ds| && HotspareAt(ds[k]);
      if k > 0 { assert tail[k - 1] == ds[k]; }
    }
    if exists k :: 0 <= k < |tail| && HotspareAt(tail[k]) {
      var k :| 0 <= k < |tail| && HotspareAt(tail[k]);
      assert tail[k] == ds[k + 1];
    }
  }

  /** From `acc` on, the loop combines the state the drives deserve. */
  lemma {:induction false} FoldCode(cfg: Config, c: string, e: string, acc: DriveAcc, ds: seq<Outcome<Drive>>)
    requires Judged(ds)
    ensures DriveFold(cfg, c, e, acc, ds).Returned? ==>
      DriveFold(cfg, c, e, acc, ds).value.tally.code == HandleNagiosCodes(acc.tally.code, Expected(cfg, ds))
    decreases |ds|
  {
    if ds == [] {
      OkIsIdentity(acc.tally.code);
    } else if ds[0].Returned? && ds[0].value.slot in acc.empty {
      var d := ds[0].value;
      JudgedTail(ds);
      StepEffect(cfg, c, e, acc, d);
      FoldCode(cfg, c, e, DriveStep(cfg, c, e, acc, d).value, ds[1..]);
      ExpectedCons(cfg, ds);
      Associative(acc.tally.code, DriveSeverity(cfg, d), Expected(cfg, ds[1..]));
    }
  }

  /** From `acc` on, the loop appends to CR the ids of exactly the CRITICAL
      drives and to WA those of exactly the WARNING drives, in row order, and
      notes a hotspare exactly when one is seen. */
  lemma {:induction false} FoldLists(cfg: Config, c: string, e: string, acc: DriveAcc, ds: seq<Outcome<Drive>>)
    requires Judged(ds)
    ensures DriveFold(cfg, c, e, acc, ds).Returned? ==>
      var r := DriveFold(cfg, c, e, acc, ds).value;
      && r.tally.cr == acc.tally.cr + StateIds(cfg, c, e, ds, Critical)
      && r.tally.wa == acc.tally.wa + StateIds(cfg, c, e, ds, Warning)
      && (r.tally.cr == "" <==> acc.tally.cr == "" && !exists k :: 0 <= k < |ds| && DriveIs(cfg, ds[k], Critical))
      && (r.tally.wa == "" <==> acc.tally.wa == "" && !exists k :: 0 <= k < |ds| && DriveIs(cfg, ds[k], Warning))
      && (r.hotspare <==> acc.hotspare || exists k :: 0 <= k < |ds| && HotspareAt(ds[k]))
    decreases |ds|
  {
    if ds != [] && ds[0].Returned? && ds[0].value.slot in acc.empty {
      var d := ds[0].value;
      JudgedTail(ds);
      StepEffect(cfg, c, e, acc, d);
      var next := DriveStep(cfg, c, e, acc, d).value;
      FoldLists(cfg, c, e, next, ds[1..]);
      var id := DriveId(c, e, d.slot) + ";";
      AppendAssociates(acc.tally.cr, if DriveIs(cfg, ds[0], Critical) then id else "", StateIds(cfg, c, e, ds[1..], Critical));
      AppendAssociates(acc.tally.wa, if DriveIs(cfg, ds[0], Warning) then id else "", StateIds(cfg, c, e, ds[1..], Warning));
      SeverityExistsCons(cfg, ds, Critical);
      SeverityExistsCons(cfg, ds, Warning);
      HotspareExistsCons(ds);
    }
  }

  /** From `acc` on, the loop takes every drive's slot out of the empty ones. */
  lemma {:induction false} FoldSlots(cfg: Config, c: string, e: string, acc: DriveAcc, ds: seq<Outcome<Drive>>)
    requires Judged(ds)
    ensures DriveFold(cfg, c, e, acc, ds).Returned? ==>
      DriveFold(cfg, c, e, acc, ds).value.empty == acc.empty - SlotSet(ds)
    decreases |ds|
  {
    if ds == [] {
      assert SlotSet(ds) == {};
    } else if ds[0].Returned? && ds[0].value.slot in acc.empty {
      var d := ds[0].value;
      JudgedTail(ds);
      StepEffect(cfg, c, e, acc, d);
      FoldSlots(cfg, c, e, DriveStep(cfg, c, e, acc, d).value, ds[1..]);
      SlotsCons(ds, acc.empty);
      RemoveTwice(acc.empty, d.slot, SlotSet(ds[1..]));
    }
  }

  /** The missing-slot loop is a WARNING exactly when some slot is reported
      and missing drives are not accepted; it then appends the id of every
      reported slot to WA, in order, and adds no CR ids. */
  lemma {:induction false} MissingEffect(cfg: Config, c: string, e: string, t: Tally, slots: seq<int>)
    ensures var r := MissingFold(cfg, c, e, t, slots);
      && r.code == HandleNagiosCodes(t.code, if !cfg.missingOk && slots != [] then Warning else Ok)
      && r.cr == t.cr
      && r.wa == t.wa + (if cfg.missingOk then "" else MissingIds(c, e, slots))
      && (r.wa == "" <==> t.wa == "" && (cfg.missingOk || slots == []))
    decreases |slots|
  {
    MissingWa(cfg, c, e, t, slots);
    if slots == [] {
      OkIsIdentity(t.code);
    } else {
      var next := MissingStep(cfg, c, e, t, slots[0]);
      MissingEffect(cfg, c, e, next, slots[1..]);
      if !cfg.missingOk {
        Associative(t.code, Warning, if slots[1..] != [] then Warning else Ok);
        Idempotent(Warning);
        OkIsIdentity(Warning);
      }
    }
  }

  /** The WA list the missing-slot loop leaves. */
  lemma {:induction false} MissingWa(cfg: Config, c: string, e: string, t: Tally, slots: seq<int>)
    ensures MissingFold(cfg, c, e, t, slots).wa == t.wa + (if cfg.missingOk then "" else MissingIds(c, e, slots))
    decreases |slots|
  {
    if slots != [] {
      MissingWa(cfg, c, e, MissingStep(cfg, c, e, t, slots[0]), slots[1..]);
      if !cfg.missingOk {
        AppendAssociates(t.wa, DriveId(c, e, slots[0]) + ";", MissingIds(c, e, slots[1..]));
      }
    }
  }

  /** Removing the seen slots from range(SLOT_START, 2049) leaves exactly
      those slots observed by detect_empty_slots. */
  lemma ObservedSlots(ds: seq<Outcome<Drive>>, slotStart: int)
    requires Placed(ds, AllSlots(slotStart))
    ensures Observed(AllSlots(slotStart) - SlotSet(ds), slotStart) == SlotSet(ds)
  {
    forall x | x in SlotSet(ds) ensures slotStart <= x < SlotEnd {
      var k :| 0 <= k < |ds| && ds[k].Returned? && ds[k].value.slot == x;
    }
  }

  /** The contract of get_drives, stated on the table rows: it raises
      exactly when a row cannot be read or a slot is out of range or taken
      twice (a drive whose SMART flag is unset is a row that cannot be read);
      otherwise it counts the rows, combines the state the drives deserve
      with a WARNING for reported empty slots unless those are accepted,
      lists the ids of exactly the CRITICAL drives under CR and those of the
      WARNING drives, then of the reported slots unless accepted, under WA,
      notes a hotspare exactly when a GHS
      or DHS drive is seen, and the occupied slots it hands to
      detect_empty_slots are exactly the drives' slots. */
  lemma DrivesVerdict(cfg: Config, run: Runner, c: string, e: string, text: string)
    ensures var rows := Section(SplitOn(text, '\n'), DriveHeader);
      var ds := ReadDrives(cfg, run, c, e, rows);
      var r := DrivesOf(cfg, run, c, e, text);
      && (r.Raised? <==> !(Readable(ds) && Placed(ds, AllSlots(cfg.slotStart)) && Distinct(ds)))
      && (r.Returned? ==>
            var empty := AllSlots(cfg.slotStart) - SlotSet(ds);
            var missing := EmptySlots(empty, cfg.slotStart);
            && Observed(empty, cfg.slotStart) == SlotSet(ds)
            && r.value.count == |rows|
            && r.value.tally.code == HandleNagiosCodes(Expected(cfg, ds), if !cfg.missingOk && missing != [] then Warning else Ok)
            && r.value.tally.cr == StateIds(cfg, c, e, ds, Critical)
            && r.value.tally.wa == StateIds(cfg, c, e, ds, Warning) + (if cfg.missingOk then "" else MissingIds(c, e, missing))
            && (r.value.tally.cr == "" <==> !exists k :: 0 <= k < |ds| && DriveIs(cfg, ds[k], Critical))
            && (r.value.tally.wa == "" <==>
                  (!exists k :: 0 <= k < |ds| && DriveIs(cfg, ds[k], Warning)) && (cfg.missingOk || missing == []))
            && (r.value.hotspare <==> exists k :: 0 <= k < |ds| && HotspareAt(ds[k])))
  {
    var rows := Section(SplitOn(text, '\n'), DriveHeader);
    var ds := ReadDrives(cfg, run, c, e, rows);
    var init := DriveAcc(NoFindings, AllSlots(cfg.slotStart), false);
    FoldRaises(cfg, c, e, init, ds);
    FoldCode(cfg, c, e, init, ds);
    FoldLists(cfg, c, e, init, ds);
    FoldSlots(cfg, c, e, init, ds);
    var f := DriveFold(cfg, c, e, init, ds);
    if f.Returned? {
      var a := f.value;
      OkIsIdentity(Expected(cfg, ds));
      MissingEffect(cfg, c, e, a.tally, EmptySlots(a.empty, cfg.slotStart));
      ObservedSlots(ds, cfg.slotStart);
      assert "" + StateIds(cfg, c, e, ds, Critical) == StateIds(cfg, c, e, ds, Critical);
      assert "" + StateIds(cfg, c, e, ds, Warning) == StateIds(cfg, c, e, ds, Warning);
    }
  }

  /** The threshold tests of get_drives on one drive, as statements. */
  method AssessHealth(cfg: Config, temp: real, media: Option<int>, predictive: Option<int>, other: Option<int>, smart: bool)
    returns (r: Outcome<Severity>)
    ensures r == Health(cfg, temp, media, predictive, other, smart)
  {
    var state := Ok;
    if temp >= CritTempLimit(cfg) as real {
      state := HandleNagiosCodes(state, Critical);
    } else {
      if media.None? {
        return Raised;
      }
      if media.value >= ErrorLimitC {
        state := HandleNagiosCodes(state, Critical);
      } else {
        if predictive.None? {
          return Raised;
        }
        if predictive.value >= ErrorLimitC {
          state := HandleNagiosCodes(state, Critical);
        } else if temp >= WarnTempLimit(cfg) as real || media.value >= ErrorLimitW || predictive.value >= ErrorLimitW || smart {
          state := HandleNagiosCodes(state, Warning);
        }
      }
    }
    if !cfg.ignoreOthers {
      if other.None? {
        return Raised;
      }
      if other.value >= ErrorLimitC {
        state := HandleNagiosCodes(state, Critical);
      } else if other.value >= ErrorLimitW {
        state := HandleNagiosCodes(state, Warning);
      }
    }
    return Returned(state);
  }

  /** The body of get_drives' loop for one row. */
  method AddDrive(cfg: Config, run: Runner, c: string, e: string, acc: DriveAcc, row: string) returns (r: Outcome<DriveAcc>)
    ensures r == RecordRow(cfg, run, c, e, acc, row)
  {
    var t := Tokens(row);
    var slot := SlotOf(t[0]);
    if slot.None? || slot.value !in acc.empty {
      return Raised;
    }
    var empty := acc.empty - {slot.value};
    var id := DriveId(c, e, slot.value);
    var state := GetDriveState(run([id, "show", "all"]), cfg.useFahrenheit);
    if state.Raised? {
      return Raised;
    }
    var m := state.value;
    var line := Describe(cfg, id, m);
    if line.Raised? {
      return Raised;
    }
    var health := AssessHealth(cfg, TemperatureOf(m).value, IntOf(m, MediaErrors), IntOf(m, PredictiveFailures),
                               IntOf(m, OtherErrors), SmartFlag(m));
    if health.Raised? {
      return Raised;
    }
    var role := ReadRole(t);
    if role.Raised? {
      return Raised;
    }
    var pdState := HandleNagiosCodes(health.value, RoleSeverity(cfg, role.value));
    if SmartAlert !in m {
      return Raised;
    }
    var text := RoleTag(role.value) + line.value;
    var code, out, wa, long := acc.tally.code, acc.tally.cr, acc.tally.wa, acc.tally.long;
    if pdState == Ok {
      long := long + "OK: " + text;
    }
    if pdState == Warning {
      long := long + "WA: " + text;
      wa := wa + id + ";";
    }
    if pdState == Critical {
      long := long + "CR: " + text;
      out := out + id + ";";
    }
    code := HandleNagiosCodes(code, pdState);
    ghost var d := Drive(slot.value, line.value, health.value, role.value);
    assert ReadDrive(cfg, run, c, e, row) == Returned(d);
    return Returned(DriveAcc(Tally(code, out, wa, long), empty, acc.hotspare || IsHotspare(role.value)));
  }

  /** What one row does to the accumulators: the row read, then recorded. */
  function RecordRow(cfg: Config, run: Runner, c: string, e: string, acc: DriveAcc, row: string): Outcome<DriveAcc> {
    match ReadDrive(cfg, run, c, e, row)
    case Raised => Raised
    case Returned(d) => DriveStep(cfg, c, e, acc, d)
  }

  /** The loop over the rows, one row at a time. */
  lemma FoldRow(cfg: Config, run: Runner, c: string, e: string, acc: DriveAcc, rows: seq<string>)
    requires rows != []
    ensures DriveFold(cfg, c, e, acc, ReadDrives(cfg, run, c, e, rows))
         == match RecordRow(cfg, run, c, e, acc, rows[0])
            case Raised => Raised
            case Returned(a) => DriveFold(cfg, c, e, a, ReadDrives(cfg, run, c, e, rows[1..]))
  {
    var d := ReadDrives(cfg, run, c, e, rows);
    assert d[1..] == ReadDrives(cfg, run, c, e, rows[1..]);
  }

  /** The first loop of get_drives: every row of the table, recorded. */
  method RecordDrives(cfg: Config, run: Runner, c: string, e: string, rows: seq<string>) returns (r: Outcome<DriveAcc>)
    ensures r == DriveFold(cfg, c, e, DriveAcc(NoFindings, AllSlots(cfg.slotStart), false), ReadDrives(cfg, run, c, e, rows))
  {
    var acc := DriveAcc(NoFindings, AllSlots(cfg.slotStart), false);
    ghost var init := acc;
    var i := 0;
    while i < |rows|
      invariant 0 <= i <= |rows|
      invariant DriveFold(cfg, c, e, init, ReadDrives(cfg, run, c, e, rows))
             == DriveFold(cfg, c, e, acc, ReadDrives(cfg, run, c, e, rows[i..]))
    {
      FoldRow(cfg, run, c, e, acc, rows[i..]);
      assert rows[i..][0] == rows[i] && rows[i..][1..] == rows[i + 1..];
      var next := AddDrive(cfg, run, c, e, acc, rows[i]);
      if next.Raised? {
        return Raised;
      }
      acc := next.value;
      i := i + 1;
    }
    assert rows[i..] == [];
    return Returned(acc);
  }

  /** The second loop of get_drives: one line per slot nobody reported. */
  method ReportMissing(cfg: Config, c: string, e: string, init: Tally, missing: seq<int>) returns (t: Tally)
    ensures t == MissingFold(cfg, c, e, init, missing)
  {
    t := init;
    var j := 0;
    while j < |missing|
      invariant 0 <= j <= |missing|
      invariant MissingFold(cfg, c, e, init, missing) == MissingFold(cfg, c, e, t, missing[j..])
    {
      assert missing[j..][0] == missing[j] && missing[j..][1..] == missing[j + 1..];
      ghost var before := t;
      var id := DriveId(c, e, missing[j]);
      var missingState := "OK";
      if !cfg.missingOk {
        t := t.(wa := t.wa + id + ";", code := HandleNagiosCodes(t.code, Warning));
        missingState := "WA";
      }
      t := t.(long := t.long + missingState + ": PD (Missing) " + id + "\n");
      assert t == MissingStep(cfg, c, e, before, missing[j]);
      j := j + 1;
    }
  }

  /** get_drives: the rows, then the slots detect_empty_slots reports. */
  method GetDrives(cfg: Config, run: Runner, c: string, e: string) returns (r: Outcome<DriveReport>)
    ensures r == DrivesOf(cfg, run, c, e, run(["/c" + c + "/e" + e + "/sall", "show"]))
  {
    var rows := FindRelevantLines(run(["/c" + c + "/e" + e + "/sall", "show"]), DriveHeader);
    var acc := RecordDrives(cfg, run, c, e, rows);
    if acc.Raised? {
      return Raised;
    }
    var missing := DetectEmptySlots(acc.value.empty, cfg.slotStart);
    var t := ReportMissing(cfg, c, e, acc.value.tally, missing);
    return Returned(DriveReport(t, acc.value.hotspare, |rows|));
  }
}

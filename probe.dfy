/** The main block of check_megaraid.py (check_megaraid.py:584-666): the
    battery facet over all controllers, then per controller its virtual
    drives, its enclosures and their drives, its hot spares and its foreign
    configuration; then the summary line built by handle_final_state
    (check_megaraid.py:462-481) and the exit through `end`. */
module Probe {
  import opened Common
  import opened Text
  import opened Severity
  import opened Sections
  import opened Controllers
  import opened Battery
  import opened Vds
  import opened Enclosures
  import opened Drives
  import opened Arguments

  /** The per-class accumulators the main block keeps in its ALL_* variables.
      The hot-spare and foreign facets keep their ids in `wa`, the enclosure
      facet in `cr`, as handle_final_state receives them. */
  datatype Totals = Totals(foreign: Tally, disks: Tally, hotspares: Tally, vds: Tally, enclosures: Tally)

  const NoTotals: Totals := Totals(NoFindings, NoFindings, NoFindings, NoFindings, NoFindings)

  /** `re.search(r'Couldn\'t\s+find\s+any\s+foreign\s+Configuration', ..., IGNORECASE)`. */
  const NoForeignPhrase: Phrase := Phrase(false, ["Couldn't", "find", "any", "foreign", "Configuration"], false)

  function ForeignText(run: Runner, c: string): string {
    run(["/c" + c + "/fall", "show"])
  }

  /** A controller whose `/cX/fall show` does not say that no foreign
      configuration was found. */
  predicate HasForeign(run: Runner, c: string) {
    !Search(ForeignText(run, c), NoForeignPhrase)
  }

  /** The line the drive-count check appends. The source writes it without
      the `f` prefix, so the braces are printed as they stand, and without a
      newline. */
  const CountMismatchLine: string :=
    "WA: Enclosure /c{controller}/e{enclosure[0]} The disk count found does not correspond with the disk count reported"

  function DrivesText(run: Runner, c: string, eid: string): string {
    run(["/c" + c + "/e" + eid + "/sall", "show"])
  }

  /** One enclosure of the inner loop: its drives absorbed into the PD facet,
      its hot-spare flag or-ed in, then the drive-count comparison. */
  function EnclosureDrives(cfg: Config, run: Runner, c: string, disks: Tally, spare: bool, enc: Enclosure): Outcome<(Tally, bool)> {
    match DrivesOf(cfg, run, c, enc.eid, DrivesText(run, c, enc.eid))
    case Raised => Raised
    case Returned(rep) =>
      var d := Absorb(disks, rep.tally);
      var counted := if rep.count != enc.drives then
        Tally(HandleNagiosCodes(d.code, Warning), d.cr, d.wa + EnclosureId(c, enc.eid) + ";", d.long + CountMismatchLine)
        else d;
      Returned((counted, rep.hotspare || spare))
  }

  /** The loop over the enclosures of one controller. */
  function DisksFold(cfg: Config, run: Runner, c: string, disks: Tally, spare: bool, encs: seq<Enclosure>): Outcome<(Tally, bool)>
    decreases |encs|
  {
    if encs == [] then Returned((disks, spare))
    else match EnclosureDrives(cfg, run, c, disks, spare, encs[0])
      case Raised => Raised
      case Returned((d, s)) => DisksFold(cfg, run, c, d, s, encs[1..])
  }

  /** The hot-spare test at the end of one controller. */
  function HotspareStep(cfg: Config, c: string, hs: Tally, spare: bool): Tally {
    if spare then hs
    else if cfg.expectHotspare then
      Tally(HandleNagiosCodes(hs.code, Warning), hs.cr, hs.wa + "/c" + c + ";", hs.long + "WA: HS on /c" + c + " is missing\n")
    else hs.(long := hs.long + "OK: HS on /c" + c + " is missing, but this is expected\n")
  }

  /** The foreign-configuration test at the end of one controller. */
  function ForeignStep(run: Runner, c: string, fc: Tally): Tally {
    if HasForeign(run, c) then
      Tally(HandleNagiosCodes(fc.code, Warning), fc.cr, fc.wa + "/c" + c + ";",
            fc.long + "WA: Foreign configurtaion detected on /c" + c + "\n")
    else fc
  }

  /** One controller of the main loop, in source order: VDs, enclosures,
      their drives, hot spares, foreign configuration. */
  function ControllerStep(cfg: Config, run: Runner, t: Totals, c: string): Outcome<Totals> {
    match VdsOf(c, run(["/c" + c + "/vall", "show"]))
    case Raised => Raised
    case Returned(v) =>
      match EnclosuresOf(c, run(["/c" + c + "/eall", "show"]))
      case Raised => Raised
      case Returned(er) =>
        match DisksFold(cfg, run, c, t.disks, false, er.enclosures)
        case Raised => Raised
        case Returned((disks, spare)) =>
          Returned(Totals(ForeignStep(run, c, t.foreign), disks, HotspareStep(cfg, c, t.hotspares, spare),
                          Absorb(t.vds, v), Absorb(t.enclosures, Tally(er.code, er.out, "", er.long))))
  }

  function ControllersFold(cfg: Config, run: Runner, t: Totals, cs: seq<string>): Outcome<Totals>
    decreases |cs|
  {
    if cs == [] then Returned(t)
    else match ControllerStep(cfg, run, t, cs[0])
      case Raised => Raised
      case Returned(next) => ControllersFold(cfg, run, next, cs[1..])
  }

  /** One tuple of the `specific_state` loop. */
  datatype Facet = Facet(code: Severity, tag: string, cr: string, wa: string)

  /** The six tuples, in the order the summary line lists them. */
  function Facets(t: Totals, batt: Tally): (fs: seq<Facet>)
    ensures |fs| == 6
  {
    [Facet(t.foreign.code, "FC", "", t.foreign.wa),
     Facet(t.disks.code, "PDs", t.disks.cr, t.disks.wa),
     Facet(t.hotspares.code, "HS", "", t.hotspares.wa),
     Facet(t.vds.code, "VDs", t.vds.cr, t.vds.wa),
     Facet(t.enclosures.code, "Enc", t.enclosures.cr, ""),
     Facet(batt.code, "Batt", batt.cr, "")]
  }

  /** The tag, the colon and the id lists that open a facet's piece. */
  function Listed(f: Facet): string {
    var withCr := if f.cr != "" then f.tag + ":" + " CR-" + f.cr else f.tag + ":";
    if f.wa != "" then withCr + " WA-" + f.wa else withCr
  }

  /** The piece of the summary line handle_final_state builds for a facet:
      its listing followed by `OK; ` for a clean facet, or by a blank alone;
      a clean FC facet has no piece. */
  function Piece(f: Facet): string {
    if f.code == Ok then (if f.tag == "FC" then "" else Listed(f) + " OK; ") else Listed(f) + " "
  }

  /** handle_final_state: the combined state and one facet's piece of the
      summary line. */
  function HandleFinalState(ecode: Severity, f: Facet): (Severity, string) {
    (HandleNagiosCodes(ecode, f.code), Piece(f))
  }

  /** The `specific_state` loop from EXIT_CODE = NAGIOS_OK and EXIT_STATE = ''
      over the first |fs| tuples. */
  function FinalFold(fs: seq<Facet>): (Severity, string)
    decreases |fs|
  {
    if fs == [] then (Ok, "")
    else
      var (code, state) := FinalFold(fs[..|fs| - 1]);
      var (next, piece) := HandleFinalState(code, fs[|fs| - 1]);
      (next, state + piece)
  }

  /** The long output: the six long texts, then the separator of the
      performance data. */
  function LongOutput(t: Totals, batt: Tally): string {
    t.foreign.long + t.disks.long + t.hotspares.long + t.vds.long + t.enclosures.long + batt.long + "|"
  }

  /** The final `end` call. */
  function Report(t: Totals, batt: Tally): Exit {
    var (code, state) := FinalFold(Facets(t, batt));
    End(code, Strip(state), LongOutput(t, batt))
  }

  /** How a run of the probe ends: through `end`, or with an uncaught
      exception (the interpreter then exits with status 1). */
  datatype Run = Finished(exit: Exit) | Crashed

  /** The probe after argument parsing. */
  function ProbeOf(cfg: Config, run: Runner): Run {
    match ControllersOf(run(["show", "ctrlcount"]), run(["show"]))
    case Raised => Crashed
    case Returned(CountMismatch) => Finished(MismatchExit())
    case Returned(Listing(cs)) =>
      var batt := BatteryOf(cfg, run, cs);
      match ControllersFold(cfg, run, NoTotals, cs)
      case Raised => Crashed
      case Returned(t) => Finished(Report(t, batt))
  }

  /** The probe from the option values on. */
  function CheckMegaraid(cfg: Config, limits: Option<string>, missingList: Option<string>, run: Runner): Run {
    match Configure(cfg, limits, missingList)
    case Rejected(x) => Finished(x)
    case Configured(c) => ProbeOf(c, run)
  }

  // ---------------------------------------------------------------------
  // handle_final_state and the summary line

  function Codes(fs: seq<Facet>): (s: seq<Severity>)
    ensures |s| == |fs| && forall k :: 0 <= k < |fs| ==> s[k] == fs[k].code
  {
    seq(|fs|, k requires 0 <= k < |fs| => fs[k].code)
  }

  /** The listing starts with the tag and a colon, then the CR ids when there
      are any. */
  lemma ListedStart(f: Facet)
    ensures |Listed(f)| >= |f.tag| + 1 && Listed(f)[..|f.tag| + 1] == f.tag + ":"
    ensures f.cr != "" ==> |Listed(f)| >= |f.tag| + 5 + |f.cr| && Listed(f)[|f.tag| + 1..|f.tag| + 5 + |f.cr|] == " CR-" + f.cr
  {
    var withCr := if f.cr != "" then f.tag + ":" + " CR-" + f.cr else f.tag + ":";
    assert withCr[..|f.tag| + 1] == f.tag + ":";
    assert Listed(f)[..|withCr|] == withCr;
    if f.cr != "" {
      assert withCr[|f.tag| + 1..] == " CR-" + f.cr;
    }
  }

  /** A facet's piece is empty only for a clean FC facet; every other piece
      starts with the tag and a colon, shows the CR ids right after it when
      there are any, and ends with a blank. */
  lemma FinalStatePiece(ecode: Severity, f: Facet)
    ensures var piece := HandleFinalState(ecode, f).1;
      && (piece == "" <==> f.tag == "FC" && f.code == Ok)
      && (piece != "" ==>
            && |piece| >= |f.tag| + 2
            && piece[..|f.tag| + 1] == f.tag + ":"
            && piece[|piece| - 1] == ' '
            && (f.cr != "" ==> |piece| >= |f.tag| + 5 + |f.cr| && piece[|f.tag| + 1..|f.tag| + 5 + |f.cr|] == " CR-" + f.cr))
  {
    var l := Listed(f);
    ListedStart(f);
    var piece := Piece(f);
    if piece != "" {
      var rest := if f.code == Ok then " OK; " else " ";
      assert piece == l + rest;
      assert piece[..|l|] == l;
    }
  }

  /** The combined state of the loop is the worst facet state. */
  lemma {:induction false} FinalFoldCode(fs: seq<Facet>)
    ensures FinalFold(fs).0 == Worst(Codes(fs))
    decreases |fs|
  {
    if fs != [] {
      var init := fs[..|fs| - 1];
      FinalFoldCode(init);
      assert Codes(fs)[..|fs| - 1] == Codes(init);
    }
  }

  /** The summary line of a run where every facet is OK with no ids. */
  lemma AllClearSummary(t: Totals, batt: Tally)
    requires t.foreign == t.foreign.(code := Ok, wa := "")
    requires t.disks == t.disks.(code := Ok, cr := "", wa := "")
    requires t.hotspares == t.hotspares.(code := Ok, wa := "")
    requires t.vds == t.vds.(code := Ok, cr := "", wa := "")
    requires t.enclosures == t.enclosures.(code := Ok, cr := "")
    requires batt == batt.(code := Ok, cr := "")
    ensures Report(t, batt).status == 0
    ensures Report(t, batt).text == "OK: " + AllClearLine + "\n" + LongOutput(t, batt)
  {
    var fs := Facets(t, batt);
    CleanFold(fs);
    StripTrailing(AllClearLine);
  }

  /** The summary of a run where nothing was found. */
  const AllClearLine: string := "PDs: OK; HS: OK; VDs: OK; Enc: OK; Batt: OK;"

  lemma AllClearPieces()
    ensures "" + ("PDs" + ": OK; ") + ("HS" + ": OK; ") + ("VDs" + ": OK; ") + ("Enc" + ": OK; ") + ("Batt" + ": OK; ")
      == AllClearLine + " "
  {
  }

  /** The loop over six clean tuples with the tags of the summary line. */
  lemma CleanFold(fs: seq<Facet>)
    requires |fs| == 6
    requires forall k :: 0 <= k < 6 ==> fs[k].code == Ok && fs[k].cr == "" && fs[k].wa == ""
    requires fs[0].tag == "FC" && fs[1].tag == "PDs" && fs[2].tag == "HS"
    requires fs[3].tag == "VDs" && fs[4].tag == "Enc" && fs[5].tag == "Batt"
    ensures FinalFold(fs) == (Ok, AllClearLine + " ")
  {
    FoldOfSix(fs);
    CleanPiece(fs[0]);
    CleanPiece(fs[1]);
    CleanPiece(fs[2]);
    CleanPiece(fs[3]);
    CleanPiece(fs[4]);
    CleanPiece(fs[5]);
    AllClearPieces();
  }

  /** Six OK tuples: the state stays OK and the pieces are concatenated. */
  lemma FoldOfSix(fs: seq<Facet>)
    requires |fs| == 6 && forall k :: 0 <= k < 6 ==> fs[k].code == Ok
    ensures FinalFold(fs)
      == (Ok, Piece(fs[0]) + Piece(fs[1]) + Piece(fs[2]) + Piece(fs[3]) + Piece(fs[4]) + Piece(fs[5]))
  {
    assert fs[..0] == [];
    assert "" + Piece(fs[0]) == Piece(fs[0]);
    FinalFoldPrefix(fs, 0);
    FinalFoldPrefix(fs, 1);
    FinalFoldPrefix(fs, 2);
    FinalFoldPrefix(fs, 3);
    FinalFoldPrefix(fs, 4);
    FinalFoldPrefix(fs, 5);
    assert fs[..6] == fs;
  }

  /** The fold over the first k + 1 tuples is the fold over k tuples and one more. */
  lemma FinalFoldPrefix(fs: seq<Facet>, k: nat)
    requires k < |fs|
    ensures FinalFold(fs[..k + 1])
      == (HandleNagiosCodes(FinalFold(fs[..k]).0, fs[k].code), FinalFold(fs[..k]).1 + Piece(fs[k]))
  {
    assert fs[..k + 1][..k] == fs[..k];
  }

  /** One more tuple: its state combined in, its piece appended. */
  lemma FinalFoldAppend(fs: seq<Facet>, f: Facet)
    ensures FinalFold(fs + [f]) == (HandleNagiosCodes(FinalFold(fs).0, f.code), FinalFold(fs).1 + Piece(f))
  {
    assert (fs + [f])[..|fs|] == fs;
  }

  /** A clean facet shows `tag: OK; `, or nothing for FC. */
  lemma CleanPiece(f: Facet)
    requires f.code == Ok && f.cr == "" && f.wa == ""
    ensures Piece(f) == if f.tag == "FC" then "" else f.tag + ": OK; "
  {
  }

  /** strip() drops one trailing blank from a text with non-blank ends. */
  lemma StripTrailing(s: string)
    requires s != [] && !IsSpace(s[0]) && !IsSpace(s[|s| - 1])
    ensures Strip(s + " ") == s
  {
    var p := s + " ";
    var r := Strip(p);
    assert p[0] == s[0];
    assert SpaceRun(p) == 0;
    assert r == p[..|r|];
    if |r| < |s| {
      assert false;
    }
    if |r| == |p| {
      assert false;
    }
    assert r == p[..|s|];
    assert p[..|s|] == s;
  }

  /** The exit: its status is the worst facet's, its first two characters
      name that state, and it is OK exactly when every facet is OK. */
  lemma ReportVerdict(t: Totals, batt: Tally)
    ensures var x := Report(t, batt);
      var worst := Worst(Codes(Facets(t, batt)));
      && x.status == Code(worst)
      && StateOfText(x.text) == Some(worst)
      && (x.status == 0 <==> forall k :: 0 <= k < 6 ==> Facets(t, batt)[k].code == Ok)
  {
    var fs := Facets(t, batt);
    FinalFoldCode(fs);
    var (code, state) := FinalFold(fs);
    EndStatesState(code, Strip(state), LongOutput(t, batt));
    WorstIsOkIff(Codes(fs));
  }

  // ---------------------------------------------------------------------
  // The facets the main block itself decides: hot spares, foreign
  // configurations and the drive-count check

  /** The enclosures of one controller, when they can be read. */
  function EnclosuresAt(run: Runner, c: string): seq<Enclosure> {
    match EnclosuresOf(c, run(["/c" + c + "/eall", "show"]))
    case Raised => []
    case Returned(er) => er.enclosures
  }

  /** Some enclosure of the list has a drive whose role is a hot spare. */
  predicate SpareIn(cfg: Config, run: Runner, c: string, encs: seq<Enclosure>) {
    exists k :: 0 <= k < |encs| && SpareAt(cfg, run, c, encs[k])
  }

  predicate SpareAt(cfg: Config, run: Runner, c: string, enc: Enclosure) {
    var r := DrivesOf(cfg, run, c, enc.eid, DrivesText(run, c, enc.eid));
    r.Returned? && r.value.hotspare
  }

  /** Some enclosure's drive count differs from the one storcli reports. */
  predicate CountOff(cfg: Config, run: Runner, c: string, enc: Enclosure) {
    var r := DrivesOf(cfg, run, c, enc.eid, DrivesText(run, c, enc.eid));
    r.Returned? && r.value.count != enc.drives
  }

  /** Some enclosure of the list has a drive-count difference. */
  predicate CountOffIn(cfg: Config, run: Runner, c: string, encs: seq<Enclosure>) {
    exists k :: 0 <= k < |encs| && CountOff(cfg, run, c, encs[k])
  }

  lemma SpareInCons(cfg: Config, run: Runner, c: string, encs: seq<Enclosure>)
    requires encs != []
    ensures SpareIn(cfg, run, c, encs) <==> SpareAt(cfg, run, c, encs[0]) || SpareIn(cfg, run, c, encs[1..])
  {
    var tail := encs[1..];
    if SpareIn(cfg, run, c, tail) {
      var k :| 0 <= k < |tail| && SpareAt(cfg, run, c, tail[k]);
      assert encs[k + 1] == tail[k];
    }
    if SpareIn(cfg, run, c, encs) {
      var k :| 0 <= k < |encs| && SpareAt(cfg, run, c, encs[k]);
      if k > 0 { assert tail[k - 1] == encs[k]; }
    }
  }

  lemma CountOffCons(cfg: Config, run: Runner, c: string, encs: seq<Enclosure>)
    requires encs != []
    ensures CountOffIn(cfg, run, c, encs) <==> CountOff(cfg, run, c, encs[0]) || CountOffIn(cfg, run, c, encs[1..])
  {
    var tail := encs[1..];
    if CountOffIn(cfg, run, c, tail) {
      var k :| 0 <= k < |tail| && CountOff(cfg, run, c, tail[k]);
      assert encs[k + 1] == tail[k];
    }
    if CountOffIn(cfg, run, c, encs) {
      var k :| 0 <= k < |encs| && CountOff(cfg, run, c, encs[k]);
      if k > 0 { assert tail[k - 1] == encs[k]; }
    }
  }

  /** A controller none of whose enclosures holds a hot spare. */
  predicate LacksSpare(cfg: Config, run: Runner, c: string) {
    !SpareIn(cfg, run, c, EnclosuresAt(run, c))
  }

  /** The state one enclosure adds to the PD facet: the state get_drives
      gives its drives, made at least WARNING when the number of drive rows
      differs from the PD count storcli reports for it. */
  function EnclosureState(cfg: Config, run: Runner, c: string, enc: Enclosure): Severity {
    match DrivesOf(cfg, run, c, enc.eid, DrivesText(run, c, enc.eid))
    case Raised => Ok
    case Returned(rep) => HandleNagiosCodes(rep.tally.code, if rep.count != enc.drives then Warning else Ok)
  }

  /** The states of the enclosures of a list, combined. */
  function DisksState(cfg: Config, run: Runner, c: string, encs: seq<Enclosure>): Severity
    decreases |encs|
  {
    if encs == [] then Ok else HandleNagiosCodes(EnclosureState(cfg, run, c, encs[0]), DisksState(cfg, run, c, encs[1..]))
  }

  /** The CR ids one enclosure adds to the PD facet: those get_drives lists. */
  function EnclosureCr(cfg: Config, run: Runner, c: string, enc: Enclosure): string {
    match DrivesOf(cfg, run, c, enc.eid, DrivesText(run, c, enc.eid))
    case Raised => ""
    case Returned(rep) => rep.tally.cr
  }

  /** The WA ids one enclosure adds to the PD facet: those get_drives lists,
      then the enclosure's own id when its drive count differs. */
  function EnclosureWa(cfg: Config, run: Runner, c: string, enc: Enclosure): string {
    match DrivesOf(cfg, run, c, enc.eid, DrivesText(run, c, enc.eid))
    case Raised => ""
    case Returned(rep) => rep.tally.wa + (if rep.count != enc.drives then EnclosureId(c, enc.eid) + ";" else "")
  }

  /** The CR ids of the enclosures of a list, in order. */
  function DisksCr(cfg: Config, run: Runner, c: string, encs: seq<Enclosure>): string
    decreases |encs|
  {
    if encs == [] then "" else EnclosureCr(cfg, run, c, encs[0]) + DisksCr(cfg, run, c, encs[1..])
  }

  /** The WA ids of the enclosures of a list, in order. */
  function DisksWa(cfg: Config, run: Runner, c: string, encs: seq<Enclosure>): string
    decreases |encs|
  {
    if encs == [] then "" else EnclosureWa(cfg, run, c, encs[0]) + DisksWa(cfg, run, c, encs[1..])
  }

  /** The inner loop combines into the PD facet exactly the state its
      enclosures deserve, appends exactly their CR and WA ids in order,
      keeps the flag it started with or finds a spare drive, and a
      drive-count difference makes the PD facet at least WARNING with ids. */
  lemma {:induction false} DisksFoldEffect(cfg: Config, run: Runner, c: string, disks: Tally, spare: bool, encs: seq<Enclosure>)
    ensures var r := DisksFold(cfg, run, c, disks, spare, encs);
      r.Returned? ==>
        && r.value.0.code == HandleNagiosCodes(disks.code, DisksState(cfg, run, c, encs))
        && r.value.0.cr == disks.cr + DisksCr(cfg, run, c, encs)
        && r.value.0.wa == disks.wa + DisksWa(cfg, run, c, encs)
        && (r.value.1 <==> spare || SpareIn(cfg, run, c, encs))
        && Rank(r.value.0.code) <= Rank(disks.code)
        && (disks.wa != "" ==> r.value.0.wa != "")
        && (CountOffIn(cfg, run, c, encs) ==> Rank(r.value.0.code) <= Rank(Warning) && r.value.0.wa != "")
    decreases |encs|
  {
    if encs == [] {
      OkIsIdentity(disks.code);
    } else {
      var r0 := EnclosureDrives(cfg, run, c, disks, spare, encs[0]);
      if r0.Returned? {
        var (d, s) := r0.value;
        EnclosureDrivesEffect(cfg, run, c, disks, spare, encs[0]);
        DisksFoldEffect(cfg, run, c, d, s, encs[1..]);
        SpareInCons(cfg, run, c, encs);
        CountOffCons(cfg, run, c, encs);
        Associative(disks.code, EnclosureState(cfg, run, c, encs[0]), DisksState(cfg, run, c, encs[1..]));
        AppendAssociates(disks.cr, EnclosureCr(cfg, run, c, encs[0]), DisksCr(cfg, run, c, encs[1..]));
        AppendAssociates(disks.wa, EnclosureWa(cfg, run, c, encs[0]), DisksWa(cfg, run, c, encs[1..]));
      }
    }
  }

  /** One enclosure: the state, the id lists, the flag, the rank and the
      count check of DisksFoldEffect. */
  lemma EnclosureDrivesEffect(cfg: Config, run: Runner, c: string, disks: Tally, spare: bool, enc: Enclosure)
    ensures var r := EnclosureDrives(cfg, run, c, disks, spare, enc);
      r.Returned? ==>
        && r.value.0.code == HandleNagiosCodes(disks.code, EnclosureState(cfg, run, c, enc))
        && r.value.0.cr == disks.cr + EnclosureCr(cfg, run, c, enc)
        && r.value.0.wa == disks.wa + EnclosureWa(cfg, run, c, enc)
        && (r.value.1 <==> spare || SpareAt(cfg, run, c, enc))
        && Rank(r.value.0.code) <= Rank(disks.code)
        && (disks.wa != "" ==> r.value.0.wa != "")
        && (CountOff(cfg, run, c, enc) ==> Rank(r.value.0.code) <= Rank(Warning) && r.value.0.wa != "")
  {
    var r := DrivesOf(cfg, run, c, enc.eid, DrivesText(run, c, enc.eid));
    if r.Returned? {
      var w := if r.value.count != enc.drives then Warning else Ok;
      Associative(disks.code, r.value.tally.code, w);
      OkIsIdentity(HandleNagiosCodes(disks.code, r.value.tally.code));
      var id := EnclosureId(c, enc.eid);
      AppendAssociates(disks.wa, r.value.tally.wa, id + ";");
      AppendAssociates(disks.wa + r.value.tally.wa, id, ";");
    }
  }

  /** One controller's step changes the foreign facet by the foreign test
      alone and the hot-spare facet by the hot-spare test alone. */
  lemma StepFacets(cfg: Config, run: Runner, t: Totals, c: string)
    ensures var r := ControllerStep(cfg, run, t, c);
      r.Returned? ==>
        && r.value.foreign == ForeignStep(run, c, t.foreign)
        && r.value.hotspares == HotspareStep(cfg, c, t.hotspares, !LacksSpare(cfg, run, c))
  {
    var r := ControllerStep(cfg, run, t, c);
    if r.Returned? {
      var er := EnclosuresOf(c, run(["/c" + c + "/eall", "show"])).value;
      DisksFoldEffect(cfg, run, c, t.disks, false, er.enclosures);
    }
  }

  /** The foreign tests of the controllers, in order. */
  function ForeignFold(run: Runner, fc: Tally, cs: seq<string>): Tally
    decreases |cs|
  {
    if cs == [] then fc else ForeignFold(run, ForeignStep(run, cs[0], fc), cs[1..])
  }

  /** For each controller, whether some enclosure of it holds a hot spare. */
  function SpareFlags(cfg: Config, run: Runner, cs: seq<string>): (f: seq<bool>)
    ensures |f| == |cs|
    decreases |cs|
  {
    if cs == [] then [] else [!LacksSpare(cfg, run, cs[0])] + SpareFlags(cfg, run, cs[1..])
  }

  lemma {:induction false} SpareFlagsAt(cfg: Config, run: Runner, cs: seq<string>)
    ensures forall k :: 0 <= k < |cs| ==> SpareFlags(cfg, run, cs)[k] == !LacksSpare(cfg, run, cs[k])
    decreases |cs|
  {
    if cs != [] {
      SpareFlagsAt(cfg, run, cs[1..]);
      assert forall k :: 1 <= k < |cs| ==> cs[k] == cs[1..][k - 1];
    }
  }

  /** The hot-spare tests of the controllers, in order, given whether each
      has a spare. */
  function HotspareFold(cfg: Config, hs: Tally, cs: seq<string>, spares: seq<bool>): Tally
    requires |spares| == |cs|
    decreases |cs|
  {
    if cs == [] then hs else HotspareFold(cfg, HotspareStep(cfg, cs[0], hs, spares[0]), cs[1..], spares[1..])
  }

  /** Of a completed loop, the foreign and hot-spare facets are the folds of
      their own tests. */
  lemma {:induction false} FoldFacets(cfg: Config, run: Runner, t: Totals, cs: seq<string>)
    ensures var r := ControllersFold(cfg, run, t, cs);
      r.Returned? ==>
        && r.value.foreign == ForeignFold(run, t.foreign, cs)
        && r.value.hotspares == HotspareFold(cfg, t.hotspares, cs, SpareFlags(cfg, run, cs))
    decreases |cs|
  {
    if cs != [] {
      var step := ControllerStep(cfg, run, t, cs[0]);
      if step.Returned? {
        StepFacets(cfg, run, t, cs[0]);
        FoldFacets(cfg, run, step.value, cs[1..]);
      }
    }
  }

  /** The ids of the controllers that lack an expected hot spare, in order,
      given whether each has a spare. */
  function LackingIds(cfg: Config, cs: seq<string>, spares: seq<bool>): string
    requires |spares| == |cs|
    decreases |cs|
  {
    if cs == [] then ""
    else (if cfg.expectHotspare && !spares[0] then ControllerId(cs[0]) else "") + LackingIds(cfg, cs[1..], spares[1..])
  }

  /** The ids of the controllers that report a foreign configuration, in order. */
  function ForeignIds(run: Runner, cs: seq<string>): string
    decreases |cs|
  {
    if cs == [] then "" else (if HasForeign(run, cs[0]) then ControllerId(cs[0]) else "") + ForeignIds(run, cs[1..])
  }

  /** The hot-spare tests append the ids of the controllers lacking a spare. */
  lemma {:induction false} HotspareFoldIds(cfg: Config, hs: Tally, cs: seq<string>, spares: seq<bool>)
    requires |spares| == |cs|
    ensures HotspareFold(cfg, hs, cs, spares).wa == hs.wa + LackingIds(cfg, cs, spares)
    decreases |cs|
  {
    if cs != [] {
      HotspareFoldIds(cfg, HotspareStep(cfg, cs[0], hs, spares[0]), cs[1..], spares[1..]);
      IdAppended(hs.wa, cs[0]);
      AppendAssociates(hs.wa, if cfg.expectHotspare && !spares[0] then ControllerId(cs[0]) else "", LackingIds(cfg, cs[1..], spares[1..]));
    }
  }

  /** The foreign tests append the ids of the controllers that report one. */
  lemma {:induction false} ForeignFoldIds(run: Runner, fc: Tally, cs: seq<string>)
    ensures ForeignFold(run, fc, cs).wa == fc.wa + ForeignIds(run, cs)
    decreases |cs|
  {
    if cs != [] {
      ForeignFoldIds(run, ForeignStep(run, cs[0], fc), cs[1..]);
      IdAppended(fc.wa, cs[0]);
      AppendAssociates(fc.wa, if HasForeign(run, cs[0]) then ControllerId(cs[0]) else "", ForeignIds(run, cs[1..]));
    }
  }

  /** Two optional warnings in a row are one warning when either fires. */
  lemma CombineWarnings(a: Severity, here: bool, later: bool)
    requires a == Ok || a == Warning
    ensures HandleNagiosCodes(HandleNagiosCodes(a, if here then Warning else Ok), if later then Warning else Ok)
         == HandleNagiosCodes(a, if here || later then Warning else Ok)
  {
  }

  /** The hot-spare facet: WARNING with ids exactly when hot spares are
      expected and some controller has none, OK otherwise; the list grows by
      the ids of exactly those controllers, in order. */
  lemma {:induction false} HotspareFoldEffect(cfg: Config, hs: Tally, cs: seq<string>, spares: seq<bool>)
    requires |spares| == |cs|
    requires hs.code == Ok || hs.code == Warning
    requires hs.wa == "" <==> hs.code == Ok
    ensures var r := HotspareFold(cfg, hs, cs, spares);
      var lacking := cfg.expectHotspare && exists k :: 0 <= k < |spares| && !spares[k];
      && r.code == HandleNagiosCodes(hs.code, if lacking then Warning else Ok)
      && (r.wa == "" <==> r.code == Ok)
      && r.wa == hs.wa + LackingIds(cfg, cs, spares)
    decreases |cs|
  {
    HotspareFoldIds(cfg, hs, cs, spares);
    if cs == [] {
      OkIsIdentity(hs.code);
    } else {
      var tail := spares[1..];
      HotspareFoldEffect(cfg, HotspareStep(cfg, cs[0], hs, spares[0]), cs[1..], tail);
      var later := cfg.expectHotspare && exists k :: 0 <= k < |tail| && !tail[k];
      if later {
        var k :| 0 <= k < |tail| && !tail[k];
        assert spares[k + 1] == tail[k];
      }
      if cfg.expectHotspare && exists k :: 0 <= k < |spares| && !spares[k] {
        var k :| 0 <= k < |spares| && !spares[k];
        if k > 0 {
          assert tail[k - 1] == spares[k];
        }
      }
      CombineWarnings(hs.code, cfg.expectHotspare && !spares[0], later);
    }
  }

  /** The foreign facet: WARNING with ids exactly when some controller
      reports a foreign configuration, OK otherwise; the list grows by the
      ids of exactly those controllers, in order. */
  lemma {:induction false} ForeignFoldEffect(run: Runner, fc: Tally, cs: seq<string>)
    requires fc.code == Ok || fc.code == Warning
    requires fc.wa == "" <==> fc.code == Ok
    ensures var r := ForeignFold(run, fc, cs);
      var found := exists k :: 0 <= k < |cs| && HasForeign(run, cs[k]);
      && r.code == HandleNagiosCodes(fc.code, if found then Warning else Ok)
      && (r.wa == "" <==> r.code == Ok)
      && r.wa == fc.wa + ForeignIds(run, cs)
    decreases |cs|
  {
    ForeignFoldIds(run, fc, cs);
    if cs == [] {
      OkIsIdentity(fc.code);
    } else {
      var c := cs[0];
      var tail := cs[1..];
      ForeignFoldEffect(run, ForeignStep(run, c, fc), tail);
      var later := exists k :: 0 <= k < |tail| && HasForeign(run, tail[k]);
      if later {
        var k :| 0 <= k < |tail| && HasForeign(run, tail[k]);
        assert cs[k + 1] == tail[k];
      }
      if exists k :: 0 <= k < |cs| && HasForeign(run, cs[k]) {
        var k :| 0 <= k < |cs| && HasForeign(run, cs[k]);
        if k > 0 {
          assert tail[k - 1] == cs[k];
        }
      }
      CombineWarnings(fc.code, HasForeign(run, c), later);
    }
  }

  /** The PD state of the controllers, combined: for each, the state of the
      enclosures its `/cX/eall show` lists. */
  function PdsState(cfg: Config, run: Runner, cs: seq<string>): Severity
    decreases |cs|
  {
    if cs == [] then Ok else HandleNagiosCodes(DisksState(cfg, run, cs[0], EnclosuresAt(run, cs[0])), PdsState(cfg, run, cs[1..]))
  }

  /** The state get_vds gives one controller, when it returns. */
  function VdsAt(run: Runner, c: string): Severity {
    match VdsOf(c, run(["/c" + c + "/vall", "show"]))
    case Raised => Ok
    case Returned(v) => v.code
  }

  /** The state get_enclosures gives one controller, when it returns. */
  function EncAt(run: Runner, c: string): Severity {
    match EnclosuresOf(c, run(["/c" + c + "/eall", "show"]))
    case Raised => Ok
    case Returned(er) => er.code
  }

  /** The VD states of the controllers, combined. */
  function VdsState(run: Runner, cs: seq<string>): Severity
    decreases |cs|
  {
    if cs == [] then Ok else HandleNagiosCodes(VdsAt(run, cs[0]), VdsState(run, cs[1..]))
  }

  /** The enclosure states of the controllers, combined. */
  function EncState(run: Runner, cs: seq<string>): Severity
    decreases |cs|
  {
    if cs == [] then Ok else HandleNagiosCodes(EncAt(run, cs[0]), EncState(run, cs[1..]))
  }

  /** The PD CR ids of the controllers, in order. */
  function PdsCr(cfg: Config, run: Runner, cs: seq<string>): string
    decreases |cs|
  {
    if cs == [] then "" else DisksCr(cfg, run, cs[0], EnclosuresAt(run, cs[0])) + PdsCr(cfg, run, cs[1..])
  }

  /** The PD WA ids of the controllers, drive-count differences included, in order. */
  function PdsWa(cfg: Config, run: Runner, cs: seq<string>): string
    decreases |cs|
  {
    if cs == [] then "" else DisksWa(cfg, run, cs[0], EnclosuresAt(run, cs[0])) + PdsWa(cfg, run, cs[1..])
  }

  /** The VD CR and WA ids get_vds gives one controller, when it returns. */
  function VdsCrAt(run: Runner, c: string): string {
    match VdsOf(c, run(["/c" + c + "/vall", "show"]))
    case Raised => ""
    case Returned(v) => v.cr
  }

  function VdsWaAt(run: Runner, c: string): string {
    match VdsOf(c, run(["/c" + c + "/vall", "show"]))
    case Raised => ""
    case Returned(v) => v.wa
  }

  /** The enclosure ids get_enclosures gives one controller, when it returns. */
  function EncIdsAt(run: Runner, c: string): string {
    match EnclosuresOf(c, run(["/c" + c + "/eall", "show"]))
    case Raised => ""
    case Returned(er) => er.out
  }

  /** The VD CR ids of the controllers, in order. */
  function VdsCr(run: Runner, cs: seq<string>): string
    decreases |cs|
  {
    if cs == [] then "" else VdsCrAt(run, cs[0]) + VdsCr(run, cs[1..])
  }

  /** The VD WA ids of the controllers, in order. */
  function VdsWa(run: Runner, cs: seq<string>): string
    decreases |cs|
  {
    if cs == [] then "" else VdsWaAt(run, cs[0]) + VdsWa(run, cs[1..])
  }

  /** The enclosure ids of the controllers, in order. */
  function EncIds(run: Runner, cs: seq<string>): string
    decreases |cs|
  {
    if cs == [] then "" else EncIdsAt(run, cs[0]) + EncIds(run, cs[1..])
  }

  /** Of a completed loop, from `t` on, the PD, VD and enclosure facets
      append exactly the ids the controllers' checks list, in order. */
  lemma {:induction false} FoldIdLists(cfg: Config, run: Runner, t: Totals, cs: seq<string>)
    ensures var r := ControllersFold(cfg, run, t, cs);
      r.Returned? ==>
        && r.value.disks.cr == t.disks.cr + PdsCr(cfg, run, cs)
        && r.value.disks.wa == t.disks.wa + PdsWa(cfg, run, cs)
        && r.value.vds.cr == t.vds.cr + VdsCr(run, cs)
        && r.value.vds.wa == t.vds.wa + VdsWa(run, cs)
        && r.value.enclosures.cr == t.enclosures.cr + EncIds(run, cs)
    decreases |cs|
  {
    if cs != [] {
      var c := cs[0];
      var step := ControllerStep(cfg, run, t, c);
      if step.Returned? {
        var er := EnclosuresOf(c, run(["/c" + c + "/eall", "show"])).value;
        DisksFoldEffect(cfg, run, c, t.disks, false, er.enclosures);
        FoldIdLists(cfg, run, step.value, cs[1..]);
        AppendAssociates(t.disks.cr, DisksCr(cfg, run, c, EnclosuresAt(run, c)), PdsCr(cfg, run, cs[1..]));
        AppendAssociates(t.disks.wa, DisksWa(cfg, run, c, EnclosuresAt(run, c)), PdsWa(cfg, run, cs[1..]));
        AppendAssociates(t.vds.cr, VdsCrAt(run, c), VdsCr(run, cs[1..]));
        AppendAssociates(t.vds.wa, VdsWaAt(run, c), VdsWa(run, cs[1..]));
        AppendAssociates(t.enclosures.cr, EncIdsAt(run, c), EncIds(run, cs[1..]));
      }
    }
  }

  /** Of a completed loop, from `t` on, the PD, VD and enclosure facets
      combine exactly the states the controllers' drives, virtual drives and
      enclosures deserve. */
  lemma {:induction false} FoldCodes(cfg: Config, run: Runner, t: Totals, cs: seq<string>)
    ensures var r := ControllersFold(cfg, run, t, cs);
      r.Returned? ==>
        && r.value.disks.code == HandleNagiosCodes(t.disks.code, PdsState(cfg, run, cs))
        && r.value.vds.code == HandleNagiosCodes(t.vds.code, VdsState(run, cs))
        && r.value.enclosures.code == HandleNagiosCodes(t.enclosures.code, EncState(run, cs))
    decreases |cs|
  {
    if cs == [] {
      OkIsIdentity(t.disks.code);
      OkIsIdentity(t.vds.code);
      OkIsIdentity(t.enclosures.code);
    } else {
      var c := cs[0];
      var step := ControllerStep(cfg, run, t, c);
      if step.Returned? {
        var er := EnclosuresOf(c, run(["/c" + c + "/eall", "show"])).value;
        DisksFoldEffect(cfg, run, c, t.disks, false, er.enclosures);
        FoldCodes(cfg, run, step.value, cs[1..]);
        Associative(t.disks.code, DisksState(cfg, run, c, EnclosuresAt(run, c)), PdsState(cfg, run, cs[1..]));
        Associative(t.vds.code, VdsAt(run, c), VdsState(run, cs[1..]));
        Associative(t.enclosures.code, EncAt(run, c), EncState(run, cs[1..]));
      }
    }
  }

  /** Of a completed loop over the controllers: the hot-spare facet is
      WARNING exactly when spares are expected and some controller lacks
      one, the foreign facet is WARNING exactly when some controller reports
      a foreign configuration, and both are OK otherwise; the PD, VD and
      enclosure facets are the combined states of the controllers' drives
      (with the drive-count checks), virtual drives and enclosures; and every
      facet's lists hold exactly the ids of what it found, in order. */
  lemma TotalsVerdict(cfg: Config, run: Runner, cs: seq<string>, t: Totals)
    requires ControllersFold(cfg, run, NoTotals, cs) == Returned(t)
    ensures t.disks.code == PdsState(cfg, run, cs)
    ensures t.vds.code == VdsState(run, cs)
    ensures t.enclosures.code == EncState(run, cs)
    ensures t.hotspares.code == (if cfg.expectHotspare && exists k :: 0 <= k < |cs| && LacksSpare(cfg, run, cs[k]) then Warning else Ok)
    ensures t.hotspares.wa == "" <==> t.hotspares.code == Ok
    ensures t.foreign.code == (if exists k :: 0 <= k < |cs| && HasForeign(run, cs[k]) then Warning else Ok)
    ensures t.foreign.wa == "" <==> t.foreign.code == Ok
    ensures t.disks.cr == PdsCr(cfg, run, cs) && t.disks.wa == PdsWa(cfg, run, cs)
    ensures t.vds.cr == VdsCr(run, cs) && t.vds.wa == VdsWa(run, cs)
    ensures t.enclosures.cr == EncIds(run, cs)
    ensures t.hotspares.wa == LackingIds(cfg, cs, SpareFlags(cfg, run, cs))
    ensures t.foreign.wa == ForeignIds(run, cs)
  {
    TotalsIds(cfg, run, cs, t);
    FoldFacets(cfg, run, NoTotals, cs);
    FoldCodes(cfg, run, NoTotals, cs);
    OkIsIdentity(PdsState(cfg, run, cs));
    OkIsIdentity(VdsState(run, cs));
    OkIsIdentity(EncState(run, cs));
    var spares := SpareFlags(cfg, run, cs);
    HotspareFoldEffect(cfg, NoFindings, cs, spares);
    ForeignFoldEffect(run, NoFindings, cs);
    SpareFlagsAt(cfg, run, cs);
    var lacking := exists k :: 0 <= k < |cs| && LacksSpare(cfg, run, cs[k]);
    if exists k :: 0 <= k < |spares| && !spares[k] {
      var k :| 0 <= k < |spares| && !spares[k];
      assert LacksSpare(cfg, run, cs[k]);
    }
    if lacking {
      var k :| 0 <= k < |cs| && LacksSpare(cfg, run, cs[k]);
      assert !spares[k];
    }
    OkIsIdentity(if cfg.expectHotspare && lacking then Warning else Ok);
    OkIsIdentity(if exists k :: 0 <= k < |cs| && HasForeign(run, cs[k]) then Warning else Ok);
  }

  /** The id lists of the five facets after all controllers. */
  lemma TotalsIds(cfg: Config, run: Runner, cs: seq<string>, t: Totals)
    requires ControllersFold(cfg, run, NoTotals, cs) == Returned(t)
    ensures t.disks.cr == PdsCr(cfg, run, cs) && t.disks.wa == PdsWa(cfg, run, cs)
    ensures t.vds.cr == VdsCr(run, cs) && t.vds.wa == VdsWa(run, cs)
    ensures t.enclosures.cr == EncIds(run, cs)
    ensures t.hotspares.wa == LackingIds(cfg, cs, SpareFlags(cfg, run, cs))
    ensures t.foreign.wa == ForeignIds(run, cs)
  {
    FoldFacets(cfg, run, NoTotals, cs);
    FoldIdLists(cfg, run, NoTotals, cs);
    HotspareFoldIds(cfg, NoFindings, cs, SpareFlags(cfg, run, cs));
    ForeignFoldIds(run, NoFindings, cs);
  }

  /** How a run after argument parsing ends: it crashes when a command's
      output raises, exits UNKNOWN on a controller count mismatch, and
      otherwise reports the summary of the six facets. */
  lemma ProbeRuns(cfg: Config, run: Runner)
    ensures ProbeOf(cfg, run).Crashed? <==>
      match ControllersOf(run(["show", "ctrlcount"]), run(["show"]))
      case Raised => true
      case Returned(CountMismatch) => false
      case Returned(Listing(cs)) => ControllersFold(cfg, run, NoTotals, cs).Raised?
    ensures ControllersOf(run(["show", "ctrlcount"]), run(["show"])) == Returned(CountMismatch) ==>
      ProbeOf(cfg, run) == Finished(MismatchExit()) && MismatchExit().status == 3
  {
  }

  /** A run that reaches the summary: its status is the worst of the six
      facets and is OK exactly when all six are; each facet's state is the
      one its checker decides for the controllers. */
  lemma ProbeVerdict(cfg: Config, run: Runner, cs: seq<string>, t: Totals)
    requires ControllersOf(run(["show", "ctrlcount"]), run(["show"])) == Returned(Listing(cs))
    requires ControllersFold(cfg, run, NoTotals, cs) == Returned(t)
    ensures var batt := BatteryOf(cfg, run, cs);
      && ProbeOf(cfg, run) == Finished(Report(t, batt))
      && Report(t, batt).status == Code(Worst(Codes(Facets(t, batt))))
      && (Report(t, batt).status == 0 <==> forall k :: 0 <= k < 6 ==> Facets(t, batt)[k].code == Ok)
      && t.hotspares.code == (if cfg.expectHotspare && exists k :: 0 <= k < |cs| && LacksSpare(cfg, run, cs[k]) then Warning else Ok)
      && t.foreign.code == (if exists k :: 0 <= k < |cs| && HasForeign(run, cs[k]) then Warning else Ok)
      && t.disks.code == PdsState(cfg, run, cs)
      && t.vds.code == VdsState(run, cs)
      && t.enclosures.code == EncState(run, cs)
      && batt.code == (if exists c :: c in cs && ControllerBattery(cfg, run, c) == Critical then Critical else Ok)
  {
    var batt := BatteryOf(cfg, run, cs);
    ReportVerdict(t, batt);
    TotalsVerdict(cfg, run, cs, t);
    BatteryVerdict(cfg, run, cs);
  }

  // ---------------------------------------------------------------------
  // The main block as statements

  /** One enclosure of the inner loop, as statements. */
  method AddEnclosureDrives(cfg: Config, run: Runner, c: string, disks: Tally, spare: bool, enc: Enclosure)
    returns (r: Outcome<(Tally, bool)>)
    ensures r == EnclosureDrives(cfg, run, c, disks, spare, enc)
  {
    var drives := GetDrives(cfg, run, c, enc.eid);
    if drives.Raised? {
      return Raised;
    }
    var rep := drives.value;
    var code, out, wa, long := disks.code, disks.cr, disks.wa, disks.long;
    long := long + rep.tally.long;
    out := out + rep.tally.cr;
    wa := wa + rep.tally.wa;
    var hasHotspare := rep.hotspare || spare;
    code := HandleNagiosCodes(code, rep.tally.code);
    if rep.count != enc.drives {
      wa := wa + EnclosureId(c, enc.eid) + ";";
      long := long + CountMismatchLine;
      code := HandleNagiosCodes(code, Warning);
    }
    return Returned((Tally(code, out, wa, long), hasHotspare));
  }

  /** The inner loop over the enclosures of one controller. */
  method CheckEnclosures(cfg: Config, run: Runner, c: string, disks: Tally, encs: seq<Enclosure>)
    returns (r: Outcome<(Tally, bool)>)
    ensures r == DisksFold(cfg, run, c, disks, false, encs)
  {
    var acc, spare := disks, false;
    var i := 0;
    while i < |encs|
      invariant 0 <= i <= |encs|
      invariant DisksFold(cfg, run, c, disks, false, encs) == DisksFold(cfg, run, c, acc, spare, encs[i..])
    {
      assert encs[i..][0] == encs[i] && encs[i..][1..] == encs[i + 1..];
      var next := AddEnclosureDrives(cfg, run, c, acc, spare, encs[i]);
      if next.Raised? {
        return Raised;
      }
      acc, spare := next.value.0, next.value.1;
      i := i + 1;
    }
    return Returned((acc, spare));
  }

  /** One controller of the main loop, as statements. */
  method CheckController(cfg: Config, run: Runner, t: Totals, c: string) returns (r: Outcome<Totals>)
    ensures r == ControllerStep(cfg, run, t, c)
  {
    var vds := GetVds(c, run);
    if vds.Raised? {
      return Raised;
    }
    var enclosures := GetEnclosures(c, run);
    if enclosures.Raised? {
      return Raised;
    }
    var er := enclosures.value;
    var disks := CheckEnclosures(cfg, run, c, t.disks, er.enclosures);
    if disks.Raised? {
      return Raised;
    }
    var hasHotspare := disks.value.1;
    var hs := t.hotspares;
    if !hasHotspare {
      if cfg.expectHotspare {
        hs := Tally(HandleNagiosCodes(hs.code, Warning), hs.cr, hs.wa + "/c" + c + ";", hs.long + "WA: HS on /c" + c + " is missing\n");
      } else {
        hs := hs.(long := hs.long + "OK: HS on /c" + c + " is missing, but this is expected\n");
      }
    }
    var foreign := run(["/c" + c + "/fall", "show"]);
    var fc := t.foreign;
    if !Search(foreign, NoForeignPhrase) {
      fc := Tally(HandleNagiosCodes(fc.code, Warning), fc.cr, fc.wa + "/c" + c + ";",
                  fc.long + "WA: Foreign configurtaion detected on /c" + c + "\n");
    }
    return Returned(Totals(fc, disks.value.0, hs, Absorb(t.vds, vds.value),
                           Absorb(t.enclosures, Tally(er.code, er.out, "", er.long))));
  }

  /** The main loop over the controllers. */
  method CheckControllers(cfg: Config, run: Runner, cs: seq<string>) returns (r: Outcome<Totals>)
    ensures r == ControllersFold(cfg, run, NoTotals, cs)
  {
    var t := NoTotals;
    var i := 0;
    while i < |cs|
      invariant 0 <= i <= |cs|
      invariant ControllersFold(cfg, run, NoTotals, cs) == ControllersFold(cfg, run, t, cs[i..])
    {
      assert cs[i..][0] == cs[i] && cs[i..][1..] == cs[i + 1..];
      var next := CheckController(cfg, run, t, cs[i]);
      if next.Raised? {
        return Raised;
      }
      t := next.value;
      i := i + 1;
    }
    return Returned(t);
  }

  /** The `specific_state` loop. */
  method FinalStates(fs: seq<Facet>) returns (exitCode: Severity, exitState: string)
    ensures (exitCode, exitState) == FinalFold(fs)
  {
    exitCode, exitState := Ok, "";
    var i := 0;
    while i < |fs|
      invariant 0 <= i <= |fs|
      invariant (exitCode, exitState) == FinalFold(fs[..i])
    {
      FinalFoldAppend(fs[..i], fs[i]);
      assert fs[..i + 1] == fs[..i] + [fs[i]];
      var specific := HandleFinalState(exitCode, fs[i]);
      exitCode := specific.0;
      exitState := exitState + specific.1;
      i := i + 1;
    }
    assert fs[..i] == fs;
  }

  /** The summary over the six tuples and the final `end`. */
  method Summarize(t: Totals, batt: Tally) returns (x: Exit)
    ensures x == Report(t, batt)
  {
    var exitCode, exitState := FinalStates(Facets(t, batt));
    x := End(exitCode, Strip(exitState), LongOutput(t, batt));
  }

  /** The probe after argument parsing, as statements. */
  method RunProbe(cfg: Config, run: Runner) returns (r: Run)
    ensures r == ProbeOf(cfg, run)
  {
    var listing := GetControllers(run);
    if listing.Raised? {
      return Crashed;
    }
    if listing.value.CountMismatch? {
      return Finished(MismatchExit());
    }
    var cs := listing.value.ids;
    var batt := CheckBbus(cfg, run, cs);
    var totals := CheckControllers(cfg, run, cs);
    if totals.Raised? {
      return Crashed;
    }
    var x := Summarize(totals.value, batt);
    return Finished(x);
  }
}

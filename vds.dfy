/** get_vds (check_megaraid.py:239-271): the virtual drives of one
    controller, read from `storcli /cX/vall show`. A drive without scheduled
    consistency checks or partially degraded is a WARNING, a degraded one is
    CRITICAL. */
module Vds {
  import opened Common
  import opened Text
  import opened Severity
  import opened Sections

  /** What get_vds looks at in one row: the number after `/` in the DG/VD
      word, whether the consistency-check word does not start with `on`
      (IGNORECASE), and whether the state word starts with `pdgd` or `dgrd`
      (case-sensitive). */
  datatype VdRow = VdRow(vd: string, noCheck: bool, partial: bool, degraded: bool)

  /** A row with no `/` in its first word, or with fewer than eight words,
      raises IndexError. */
  function ReadVdRow(row: string): Outcome<VdRow> {
    var t := Tokens(row);
    var parts := SplitOn(t[0], '/');
    if |parts| < 2 || |t| < 8 then Raised
    else Returned(VdRow(parts[1], !StartsWithIgnoringCase(t[7], "on"), StartsWith(t[2], "pdgd"), StartsWith(t[2], "dgrd")))
  }

  function ReadVdRows(rows: seq<string>): (d: seq<Outcome<VdRow>>)
    ensures |d| == |rows| && forall k :: 0 <= k < |rows| ==> d[k] == ReadVdRow(rows[k])
  {
    seq(|rows|, k requires 0 <= k < |rows| => ReadVdRow(rows[k]))
  }

  function VdId(c: string, vd: string): string {
    "/c" + c + "/v" + vd
  }

  /** The three tests of one row in source order, then the OK line when none
      of them fired. */
  function VdStep(c: string, acc: Tally, row: VdRow): Tally {
    var id := VdId(c, row.vd);
    var a1 := if row.noCheck then
      Tally(HandleNagiosCodes(acc.code, Warning), acc.cr, acc.wa + id + ";",
            acc.long + "WA: VD " + id + " does not have scheduled CC\n")
      else acc;
    var a2 := if row.partial then
      Tally(HandleNagiosCodes(a1.code, Warning), a1.cr, a1.wa + id + ";",
            a1.long + "WA: VD " + id + " is partialy degraded\n")
      else a1;
    var a3 := if row.degraded then
      Tally(HandleNagiosCodes(a2.code, Critical), a2.cr + id + ";", a2.wa,
            a2.long + "CR: VD " + id + " is DEGRADED\n")
      else a2;
    if !row.noCheck && !row.partial && !row.degraded then a3.(long := a3.long + "OK: VD " + id + "\n") else a3
  }

  function VdFold(c: string, acc: Tally, rows: seq<Outcome<VdRow>>): Outcome<Tally>
    decreases |rows|
  {
    if rows == [] then Returned(acc)
    else match rows[0]
      case Raised => Raised
      case Returned(row) => VdFold(c, VdStep(c, acc, row), rows[1..])
  }

  /** get_vds on the text of `storcli /cX/vall show`. */
  function VdsOf(c: string, text: string): Outcome<Tally> {
    VdFold(c, NoFindings, ReadVdRows(Section(SplitOn(text, '\n'), VdHeader)))
  }

  /** The state one virtual drive deserves on its own. */
  function VdSeverity(row: VdRow): Severity {
    if row.degraded then Critical else if row.noCheck || row.partial then Warning else Ok
  }

  predicate Warned(row: Outcome<VdRow>) {
    row.Returned? && (row.value.noCheck || row.value.partial)
  }

  predicate Degraded(row: Outcome<VdRow>) {
    row.Returned? && row.value.degraded
  }

  /** The state a sequence of rows deserves: CRITICAL if some drive is
      degraded, WARNING if some other test fired, OK otherwise. */
  function Expected(rows: seq<Outcome<VdRow>>): Severity {
    if exists k :: 0 <= k < |rows| && Degraded(rows[k]) then Critical
    else if exists k :: 0 <= k < |rows| && Warned(rows[k]) then Warning
    else Ok
  }

  /** The ids a row puts on the CR list: its own, once, when degraded. */
  function RowCrIds(c: string, row: VdRow): string {
    if row.degraded then VdId(c, row.vd) + ";" else ""
  }

  /** The ids a row puts on the WA list: its own once for a missing
      consistency check and once more when partially degraded. */
  function RowWaIds(c: string, row: VdRow): string {
    (if row.noCheck then VdId(c, row.vd) + ";" else "") + (if row.partial then VdId(c, row.vd) + ";" else "")
  }

  /** The CR ids of a sequence of rows, in row order. */
  function CrIds(c: string, rows: seq<Outcome<VdRow>>): string
    decreases |rows|
  {
    if rows == [] then ""
    else (if rows[0].Returned? then RowCrIds(c, rows[0].value) else "") + CrIds(c, rows[1..])
  }

  /** The WA ids of a sequence of rows, in row order. */
  function WaIds(c: string, rows: seq<Outcome<VdRow>>): string
    decreases |rows|
  {
    if rows == [] then ""
    else (if rows[0].Returned? then RowWaIds(c, rows[0].value) else "") + WaIds(c, rows[1..])
  }

  /** One row changes the state as its own verdict says, appends its id to
      CR when degraded and to WA once per other test that fired, so that the
      lists are non-empty exactly when such a test fired. */
  lemma StepEffect(c: string, acc: Tally, row: VdRow)
    ensures VdStep(c, acc, row).code == HandleNagiosCodes(acc.code, VdSeverity(row))
    ensures VdStep(c, acc, row).cr == acc.cr + RowCrIds(c, row)
    ensures VdStep(c, acc, row).wa == acc.wa + RowWaIds(c, row)
    ensures VdStep(c, acc, row).cr == "" <==> acc.cr == "" && !row.degraded
    ensures VdStep(c, acc, row).wa == "" <==> acc.wa == "" && !row.noCheck && !row.partial
  {
    var id := VdId(c, row.vd) + ";";
    AppendAssociates(acc.cr, VdId(c, row.vd), ";");
    AppendAssociates(acc.wa, VdId(c, row.vd), ";");
    if row.noCheck {
      AppendAssociates(acc.wa + id, VdId(c, row.vd), ";");
      AppendAssociates(acc.wa, id, id);
    }
  }

  lemma ExpectedCons(rows: seq<Outcome<VdRow>>)
    requires rows != [] && rows[0].Returned?
    ensures Expected(rows) == HandleNagiosCodes(VdSeverity(rows[0].value), Expected(rows[1..]))
  {
    var tail := rows[1..];
    assert forall k :: 1 <= k < |rows| ==> rows[k] == tail[k - 1];
    if exists k :: 0 <= k < |tail| && Degraded(tail[k]) {
      var k :| 0 <= k < |tail| && Degraded(tail[k]);
      assert Degraded(rows[k + 1]);
    }
    if exists k :: 0 <= k < |tail| && Warned(tail[k]) {
      var k :| 0 <= k < |tail| && Warned(tail[k]);
      assert Warned(rows[k + 1]);
    }
  }

  /** The loop raises exactly when some row cannot be read. */
  lemma {:induction false} FoldRaises(c: string, acc: Tally, rows: seq<Outcome<VdRow>>)
    ensures VdFold(c, acc, rows).Raised? <==> exists k :: 0 <= k < |rows| && rows[k].Raised?
    decreases |rows|
  {
    if rows != [] && rows[0].Returned? {
      var tail := rows[1..];
      FoldRaises(c, VdStep(c, acc, rows[0].value), tail);
      assert forall k :: 1 <= k < |rows| ==> rows[k] == tail[k - 1];
    }
  }

  /** From `acc` on, the loop combines `acc` with what the rows deserve, and
      appends the CR ids of the degraded drives and the WA ids of the other
      findings, in row order. */
  lemma {:induction false} FoldEffect(c: string, acc: Tally, rows: seq<Outcome<VdRow>>)
    ensures VdFold(c, acc, rows).Returned? ==>
      var r := VdFold(c, acc, rows).value;
      && r.code == HandleNagiosCodes(acc.code, Expected(rows))
      && r.cr == acc.cr + CrIds(c, rows)
      && r.wa == acc.wa + WaIds(c, rows)
      && (r.cr == "" <==> acc.cr == "" && !exists k :: 0 <= k < |rows| && Degraded(rows[k]))
      && (r.wa == "" <==> acc.wa == "" && !exists k :: 0 <= k < |rows| && Warned(rows[k]))
    decreases |rows|
  {
    if rows != [] && rows[0].Returned? {
      var row := rows[0].value;
      var tail := rows[1..];
      var next := VdStep(c, acc, row);
      StepEffect(c, acc, row);
      FoldEffect(c, next, tail);
      ExpectedCons(rows);
      Associative(acc.code, VdSeverity(row), Expected(tail));
      AppendAssociates(acc.cr, RowCrIds(c, row), CrIds(c, tail));
      AppendAssociates(acc.wa, RowWaIds(c, row), WaIds(c, tail));
      assert forall k :: 1 <= k < |rows| ==> rows[k] == tail[k - 1];
      if exists k :: 0 <= k < |tail| && Degraded(tail[k]) {
        var k :| 0 <= k < |tail| && Degraded(tail[k]);
        assert Degraded(rows[k + 1]);
      }
      if exists k :: 0 <= k < |tail| && Warned(tail[k]) {
        var k :| 0 <= k < |tail| && Warned(tail[k]);
        assert Warned(rows[k + 1]);
      }
    } else if rows == [] {
      OkIsIdentity(acc.code);
    }
  }

  /** The contract of get_vds, stated on the table rows: it raises exactly on
      an unreadable row; otherwise it is CRITICAL when some drive is degraded,
      WARNING when some other finding exists, OK otherwise; its CR list holds
      the id of every degraded drive and its WA list the id of every drive
      once per other finding, in row order, so that each list is non-empty
      exactly when there is a finding of its kind. */
  lemma VdsVerdict(c: string, text: string, rows: seq<Outcome<VdRow>>)
    requires rows == ReadVdRows(Section(SplitOn(text, '\n'), VdHeader))
    ensures VdsOf(c, text).Raised? <==> exists k :: 0 <= k < |rows| && rows[k].Raised?
    ensures VdsOf(c, text).Returned? ==>
      var r := VdsOf(c, text).value;
      && r.code == Expected(rows)
      && r.cr == CrIds(c, rows)
      && r.wa == WaIds(c, rows)
      && (r.cr == "" <==> !exists k :: 0 <= k < |rows| && Degraded(rows[k]))
      && (r.wa == "" <==> !exists k :: 0 <= k < |rows| && Warned(rows[k]))
  {
    FoldRaises(c, NoFindings, rows);
    FoldEffect(c, NoFindings, rows);
    OkIsIdentity(Expected(rows));
    var cr, wa := CrIds(c, rows), WaIds(c, rows);
    assert "" + cr == cr && "" + wa == wa;
  }

  /** A row gets its `OK:` line exactly when none of the three tests fired. */
  lemma OkLineOnlyWhenClean(c: string, acc: Tally, row: VdRow)
    ensures var id := VdId(c, row.vd);
      (!row.noCheck && !row.partial && !row.degraded) <==>
      VdStep(c, acc, row).long == acc.long + "OK: VD " + id + "\n"
  {
    var id := VdId(c, row.vd);
    var s := VdStep(c, acc, row).long;
    if row.noCheck || row.partial || row.degraded {
      var n := |acc.long|;
      assert |s| > n && (s[n] == 'W' || s[n] == 'C');
      assert (acc.long + "OK: VD " + id + "\n")[n] == 'O';
    }
  }

  /** The body of get_vds' loop for one row. */
  method AddVdRow(c: string, acc: Tally, row: string) returns (r: Outcome<Tally>)
    ensures r == match ReadVdRow(row) case Raised => Raised case Returned(x) => Returned(VdStep(c, acc, x))
  {
    var code, out, wa, long := acc.code, acc.cr, acc.wa, acc.long;
    var ok := true;
    var t := Tokens(row);
    var parts := SplitOn(t[0], '/');
    if |parts| < 2 {
      return Raised;
    }
    var id := VdId(c, parts[1]);
    if |t| < 8 {
      return Raised;
    }
    if !StartsWithIgnoringCase(t[7], "on") {
      code := HandleNagiosCodes(code, Warning);
      wa := wa + id + ";";
      long := long + "WA: VD " + id + " does not have scheduled CC\n";
      ok := false;
    }
    if StartsWith(t[2], "pdgd") {
      code := HandleNagiosCodes(code, Warning);
      wa := wa + id + ";";
      long := long + "WA: VD " + id + " is partialy degraded\n";
      ok := false;
    }
    if StartsWith(t[2], "dgrd") {
      code := HandleNagiosCodes(code, Critical);
      out := out + id + ";";
      long := long + "CR: VD " + id + " is DEGRADED\n";
      ok := false;
    }
    if ok {
      long := long + "OK: VD " + id + "\n";
    }
    return Returned(Tally(code, out, wa, long));
  }

  /** The fold from position `i` on takes row `i`, then goes on. */
  lemma FoldAt(c: string, acc: Tally, d: seq<Outcome<VdRow>>, i: nat)
    requires i < |d|
    ensures VdFold(c, acc, d[i..])
         == match d[i] case Raised => Raised case Returned(x) => VdFold(c, VdStep(c, acc, x), d[i + 1..])
  {
    assert d[i..][0] == d[i] && d[i..][1..] == d[i + 1..];
  }

  /** get_vds: the accumulator loop over the rows of the table. */
  method GetVds(c: string, run: Runner) returns (r: Outcome<Tally>)
    ensures r == VdsOf(c, run(["/c" + c + "/vall", "show"]))
  {
    var rows := FindRelevantLines(run(["/c" + c + "/vall", "show"]), VdHeader);
    ghost var d := ReadVdRows(rows);
    assert VdsOf(c, run(["/c" + c + "/vall", "show"])) == VdFold(c, NoFindings, d);
    var acc := NoFindings;
    var i := 0;
    while i < |rows|
      invariant 0 <= i <= |rows|
      invariant VdFold(c, NoFindings, d) == VdFold(c, acc, d[i..])
    {
      FoldAt(c, acc, d, i);
      var next := AddVdRow(c, acc, rows[i]);
      if next.Raised? {
        return Raised;
      }
      acc := next.value;
      i := i + 1;
    }
    assert d[i..] == [];
    return Returned(acc);
  }
}

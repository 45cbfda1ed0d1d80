/** get_enclosures (check_megaraid.py:149-175): the enclosures of one
    controller, read from `storcli /cX/eall show`; an enclosure whose state is
    not OK makes the facet CRITICAL. */
module Enclosures {
  import opened Common
  import opened Text
  import opened Severity
  import opened Sections

  /** The tuple get_enclosures keeps: (EID, int(Slots), int(PD)). */
  datatype Enclosure = Enclosure(eid: string, slots: int, drives: int)

  /** The four values get_enclosures returns. */
  datatype EnclosureReport = EnclosureReport(code: Severity, enclosures: seq<Enclosure>, out: string, long: string)

  const NoEnclosures: EnclosureReport := EnclosureReport(Ok, [], "", "")

  /** One table row, read: whether its state word is exactly `OK`, and its tuple. */
  datatype Row = Row(ok: bool, enclosure: Enclosure)

  /** A row with fewer than four words raises IndexError, a Slots or PD word
      that is not an integer raises ValueError. */
  function ReadRow(row: string): Outcome<Row> {
    var t := Tokens(row);
    if |t| < 4 then Raised
    else match (ParseInt(t[2]), ParseInt(t[3]))
      case (Some(slots), Some(drives)) => Returned(Row(t[1] == "OK", Enclosure(t[0], slots, drives)))
      case _ => Raised
  }

  /** Every row of the table, read. */
  function ReadRows(rows: seq<string>): (d: seq<Outcome<Row>>)
    ensures |d| == |rows| && forall k :: 0 <= k < |rows| ==> d[k] == ReadRow(rows[k])
  {
    seq(|rows|, k requires 0 <= k < |rows| => ReadRow(rows[k]))
  }

  /** The printable id of an enclosure. */
  function EnclosureId(c: string, eid: string): string {
    "/c" + c + "/e" + eid
  }

  /** What one row adds to the accumulators. */
  function EnclosureStep(c: string, acc: EnclosureReport, row: Row): EnclosureReport {
    var id := EnclosureId(c, row.enclosure.eid);
    if row.ok then acc.(enclosures := acc.enclosures + [row.enclosure], long := acc.long + "OK: Enclosure " + id + "\n")
    else EnclosureReport(HandleNagiosCodes(acc.code, Critical), acc.enclosures + [row.enclosure],
                         acc.out + id + ";", acc.long + "CR: Enclosure " + id + "\n")
  }

  /** The loop over the rows; the first row that raises ends it. */
  function EnclosureFold(c: string, acc: EnclosureReport, rows: seq<Outcome<Row>>): Outcome<EnclosureReport>
    decreases |rows|
  {
    if rows == [] then Returned(acc)
    else match rows[0]
      case Raised => Raised
      case Returned(row) => EnclosureFold(c, EnclosureStep(c, acc, row), rows[1..])
  }

  /** get_enclosures on the text of `storcli /cX/eall show`. */
  function EnclosuresOf(c: string, text: string): Outcome<EnclosureReport> {
    EnclosureFold(c, NoEnclosures, ReadRows(Section(SplitOn(text, '\n'), EnclosureHeader)))
  }

  predicate Readable(rows: seq<Outcome<Row>>) {
    forall k :: 0 <= k < |rows| ==> rows[k].Returned?
  }

  /** A readable row whose state word is not OK. */
  predicate Failing(row: Outcome<Row>) {
    row.Returned? && !row.value.ok
  }

  /** The loop raises exactly when some row cannot be read. */
  lemma {:induction false} FoldRaises(c: string, acc: EnclosureReport, rows: seq<Outcome<Row>>)
    ensures EnclosureFold(c, acc, rows).Raised? <==> !Readable(rows)
    decreases |rows|
  {
    if rows != [] && rows[0].Returned? {
      var tail := rows[1..];
      FoldRaises(c, EnclosureStep(c, acc, rows[0].value), tail);
      assert forall k :: 1 <= k < |rows| ==> rows[k] == tail[k - 1];
    }
  }

  /** The ids of the enclosures whose state is not OK, each followed by `;`,
      in row order. */
  function FailIds(c: string, rows: seq<Outcome<Row>>): string
    decreases |rows|
  {
    if rows == [] then ""
    else (if Failing(rows[0]) then EnclosureId(c, rows[0].value.enclosure.eid) + ";" else "") + FailIds(c, rows[1..])
  }

  /** From `acc` on, the loop appends the ids of exactly the rows whose
      state is not OK, in order. */
  lemma {:induction false} FoldIds(c: string, acc: EnclosureReport, rows: seq<Outcome<Row>>)
    ensures EnclosureFold(c, acc, rows).Returned? ==>
      EnclosureFold(c, acc, rows).value.out == acc.out + FailIds(c, rows)
    decreases |rows|
  {
    if rows != [] && rows[0].Returned? {
      var tail := rows[1..];
      FoldIds(c, EnclosureStep(c, acc, rows[0].value), tail);
      var id := EnclosureId(c, rows[0].value.enclosure.eid);
      AppendAssociates(acc.out, id, ";");
      AppendAssociates(acc.out, if Failing(rows[0]) then id + ";" else "", FailIds(c, tail));
    }
  }

  /** From `acc` on, the loop is CRITICAL exactly when `acc` was or some row's
      state is not OK, and lists an id exactly when it is CRITICAL. */
  lemma {:induction false} FoldCode(c: string, acc: EnclosureReport, rows: seq<Outcome<Row>>)
    requires acc.code == Ok || acc.code == Critical
    requires acc.out == "" <==> acc.code == Ok
    ensures EnclosureFold(c, acc, rows).Returned? ==>
      var r := EnclosureFold(c, acc, rows).value;
      && (r.code == Ok || r.code == Critical)
      && (r.code == Critical <==> acc.code == Critical || exists k :: 0 <= k < |rows| && Failing(rows[k]))
      && (r.out == "" <==> r.code == Ok)
    decreases |rows|
  {
    if rows != [] && rows[0].Returned? {
      var tail := rows[1..];
      FoldCode(c, EnclosureStep(c, acc, rows[0].value), tail);
      assert forall k :: 1 <= k < |rows| ==> rows[k] == tail[k - 1];
      if exists k :: 0 <= k < |tail| && Failing(tail[k]) {
        var k :| 0 <= k < |tail| && Failing(tail[k]);
        assert Failing(rows[k + 1]);
      }
    }
  }

  /** The tuples of readable rows, in order. */
  function Tuples(rows: seq<Outcome<Row>>): (t: seq<Enclosure>)
    requires Readable(rows)
    ensures |t| == |rows|
    decreases |rows|
  {
    if rows == [] then [] else
      var rest := rows[1..];
      assert forall k :: 0 <= k < |rest| ==> rest[k].Returned? by {
        assert forall k :: 0 <= k < |rest| ==> rest[k] == rows[k + 1];
      }
      [rows[0].value.enclosure] + Tuples(rest)
  }

  lemma {:induction false} TuplesAt(rows: seq<Outcome<Row>>)
    requires Readable(rows)
    ensures forall k :: 0 <= k < |rows| ==> Tuples(rows)[k] == rows[k].value.enclosure
    decreases |rows|
  {
    if rows != [] {
      var rest := rows[1..];
      assert forall k :: 0 <= k < |rest| ==> rest[k] == rows[k + 1];
      TuplesAt(rest);
    }
  }

  /** From `acc` on, readable rows have their tuples appended, in order. */
  lemma {:induction false} FoldTuples(c: string, acc: EnclosureReport, rows: seq<Outcome<Row>>)
    requires Readable(rows)
    ensures EnclosureFold(c, acc, rows).Returned?
    ensures EnclosureFold(c, acc, rows).value.enclosures == acc.enclosures + Tuples(rows)
    decreases |rows|
  {
    if rows != [] {
      var next := EnclosureStep(c, acc, rows[0].value);
      var tail := rows[1..];
      assert forall k :: 0 <= k < |tail| ==> tail[k] == rows[k + 1];
      FoldTuples(c, next, tail);
      AppendAssociates(acc.enclosures, [rows[0].value.enclosure], Tuples(tail));
    }
  }

  /** The contract of get_enclosures, stated on the table rows: it raises
      exactly on an unreadable row; otherwise it returns one tuple per row,
      in order, and is CRITICAL exactly when some enclosure's state is not
      OK, listing the ids of exactly those enclosures in row order, and OK
      with no ids otherwise. */
  lemma EnclosuresVerdict(c: string, text: string, rows: seq<string>)
    requires rows == Section(SplitOn(text, '\n'), EnclosureHeader)
    ensures EnclosuresOf(c, text).Raised? <==> exists k :: 0 <= k < |rows| && ReadRow(rows[k]).Raised?
    ensures EnclosuresOf(c, text).Returned? ==>
      var r := EnclosuresOf(c, text).value;
      && r.code == (if exists k :: 0 <= k < |rows| && Failing(ReadRow(rows[k])) then Critical else Ok)
      && r.out == FailIds(c, ReadRows(rows))
      && (r.out == "" <==> r.code == Ok)
      && |r.enclosures| == |rows|
      && forall k :: 0 <= k < |rows| ==>
           r.enclosures[k] == ReadRow(rows[k]).value.enclosure && r.enclosures[k].eid == Tokens(rows[k])[0]
  {
    RowsVerdict(c, rows);
  }

  /** EnclosuresVerdict for the rows of the table, whatever text they came from. */
  lemma RowsVerdict(c: string, rows: seq<string>)
    ensures var f := EnclosureFold(c, NoEnclosures, ReadRows(rows));
      && (f.Raised? <==> exists k :: 0 <= k < |rows| && ReadRow(rows[k]).Raised?)
      && (f.Returned? ==>
            var r := f.value;
            && r.code == (if exists k :: 0 <= k < |rows| && Failing(ReadRow(rows[k])) then Critical else Ok)
            && r.out == FailIds(c, ReadRows(rows))
            && (r.out == "" <==> r.code == Ok)
            && |r.enclosures| == |rows|
            && forall k :: 0 <= k < |rows| ==>
                 r.enclosures[k] == ReadRow(rows[k]).value.enclosure && r.enclosures[k].eid == Tokens(rows[k])[0])
  {
    var d := ReadRows(rows);
    FoldVerdict(c, d);
    assert (exists k :: 0 <= k < |rows| && ReadRow(rows[k]).Raised?) <==> !Readable(d) by {
      assert forall k :: 0 <= k < |rows| ==> d[k] == ReadRow(rows[k]);
    }
    var f := EnclosureFold(c, NoEnclosures, d);
    if f.Returned? {
      var r := f.value;
      assert (exists k :: 0 <= k < |rows| && Failing(ReadRow(rows[k]))) <==> (exists k :: 0 <= k < |d| && Failing(d[k])) by {
        assert forall k :: 0 <= k < |rows| ==> d[k] == ReadRow(rows[k]);
      }
      TuplesAt(d);
      forall k | 0 <= k < |rows|
        ensures r.enclosures[k] == ReadRow(rows[k]).value.enclosure && r.enclosures[k].eid == Tokens(rows[k])[0]
      {
        assert d[k] == ReadRow(rows[k]) && d[k].Returned?;
      }
    }
  }

  /** The fold from no enclosures, stated on the rows read. */
  lemma FoldVerdict(c: string, d: seq<Outcome<Row>>)
    ensures EnclosureFold(c, NoEnclosures, d).Raised? <==> !Readable(d)
    ensures EnclosureFold(c, NoEnclosures, d).Returned? ==>
      var r := EnclosureFold(c, NoEnclosures, d).value;
      && Readable(d)
      && r.code == (if exists k :: 0 <= k < |d| && Failing(d[k]) then Critical else Ok)
      && r.out == FailIds(c, d)
      && (r.out == "" <==> r.code == Ok)
      && r.enclosures == Tuples(d)
  {
    FoldRaises(c, NoEnclosures, d);
    FoldCode(c, NoEnclosures, d);
    FoldIds(c, NoEnclosures, d);
    var ids := FailIds(c, d);
    assert "" + ids == ids;
    if Readable(d) {
      FoldTuples(c, NoEnclosures, d);
      assert [] + Tuples(d) == Tuples(d);
    }
  }

  /** The body of get_enclosures' loop: one row added to the accumulators,
      or the exception it raises. */
  method AddRow(c: string, acc: EnclosureReport, row: string) returns (r: Outcome<EnclosureReport>)
    ensures r == match ReadRow(row) case Raised => Raised case Returned(x) => Returned(EnclosureStep(c, acc, x))
  {
    var code, enclosures, out, long := acc.code, acc.enclosures, acc.out, acc.long;
    var t := Tokens(row);
    if |t| < 2 {
      return Raised;
    }
    var id := EnclosureId(c, t[0]);
    if "OK" != t[1] {
      code := HandleNagiosCodes(code, Critical);
      long := long + "CR: Enclosure " + id + "\n";
      out := out + id + ";";
    } else {
      long := long + "OK: Enclosure " + id + "\n";
    }
    if |t| < 4 {
      return Raised;
    }
    var slots := ParseInt(t[2]);
    var drives := ParseInt(t[3]);
    if slots.None? || drives.None? {
      return Raised;
    }
    enclosures := enclosures + [Enclosure(t[0], slots.value, drives.value)];
    return Returned(EnclosureReport(code, enclosures, out, long));
  }

  /** get_enclosures: the accumulator loop over the rows of the table. */
  method GetEnclosures(c: string, run: Runner) returns (r: Outcome<EnclosureReport>)
    ensures r == EnclosuresOf(c, run(["/c" + c + "/eall", "show"]))
  {
    var rows := FindRelevantLines(run(["/c" + c + "/eall", "show"]), EnclosureHeader);
    ghost var d := ReadRows(rows);
    var acc := NoEnclosures;
    var i := 0;
    while i < |rows|
      invariant 0 <= i <= |rows|
      invariant EnclosureFold(c, NoEnclosures, d) == EnclosureFold(c, acc, d[i..])
    {
      assert d[i..][0] == ReadRow(rows[i]) && d[i..][1..] == d[i + 1..];
      var next := AddRow(c, acc, rows[i]);
      if next.Raised? {
        return Raised;
      }
      acc := next.value;
      i := i + 1;
    }
    return Returned(acc);
  }
}

/** get_controllers (check_megaraid.py:131-147): the controller ids listed by
    `storcli show`, cross-checked against the count `storcli show ctrlcount`
    reports. */
module Controllers {
  import opened Common
  import opened Text
  import opened Severity
  import opened Sections

  /** The words of `Controller\s+Count\s+=`. */
  const CountWords: seq<string> := ["Controller", "Count", "="]

  /** `match(r'Controller\s+Count\s+=\s\d+$', line, IGNORECASE)`: the words,
      exactly one blank, then one or more digits up to the end of the line. */
  predicate IsCountLine(line: string) {
    match PhraseEnd(line, 0, CountWords)
    case None => false
    case Some(q) => q + 1 < |line| && IsSpace(line[q]) && AllDigits(line[q + 1..])
  }

  /** The digits an accepted count line ends with. */
  function CountDigits(line: string): (d: string)
    requires IsCountLine(line)
    ensures d != "" && AllDigits(d)
  {
    line[PhraseEnd(line, 0, CountWords).value + 1..]
  }

  /** `int(line.split('=')[-1].strip())`, which raises ValueError on a text
      that is not an integer. */
  function CountOf(line: string): Outcome<int> {
    var parts := SplitOn(line, '=');
    match ParseInt(parts[|parts| - 1])
    case None => Raised
    case Some(n) => Returned(n)
  }

  /** A phrase whose last word is `=` ends just after an `=`. */
  lemma EqualsEndsPhrase(s: string, p: nat, words: seq<string>)
    requires p <= |s| && words != [] && words[|words| - 1] == "=" && PhraseEnd(s, p, words).Some?
    ensures var q := PhraseEnd(s, p, words).value; 1 <= q && s[q - 1] == '='
  {
    var q := PhraseEnd(s, p, words).value;
    PhraseEndsWithLast(s, p, words);
    assert Lower(s[q - 1..][0]) == Lower('=');
  }

  /** A blank followed by digits holds no `=`. */
  lemma NoEqualsInDigits(line: string, q: nat)
    requires q < |line| && IsSpace(line[q]) && AllDigits(line[q + 1..])
    ensures forall i :: q <= i < |line| ==> line[i] != '='
  {
    forall i | q < i < |line| ensures line[i] != '=' {
      assert line[i] == line[q + 1..][i - q - 1];
    }
  }

  /** After a last `=`, a blank and digits: int() of the last piece reads the digits. */
  lemma CountValueAt(line: string, q: nat)
    requires 1 <= q && q + 1 < |line| && line[q - 1] == '=' && IsSpace(line[q]) && AllDigits(line[q + 1..])
    ensures CountOf(line) == Returned(DigitsValue(line[q + 1..]) as int)
  {
    NoEqualsInDigits(line, q);
    LastPiece(line, '=', q - 1);
    var parts := SplitOn(line, '=');
    var last := parts[|parts| - 1];
    assert last == line[q..];
    assert last[1..] == line[q + 1..];
    ParseIntOfDigits(last, 1);
    assert ParseInt(last) == Some(DigitsValue(line[q + 1..]) as int);
  }

  /** An accepted count line never makes int() raise: the count is the number
      its final digits spell. */
  lemma CountLineValue(line: string)
    requires IsCountLine(line)
    ensures CountOf(line) == Returned(DigitsValue(CountDigits(line)) as int)
  {
    var q := PhraseEnd(line, 0, CountWords).value;
    DigitsAfterEquals(line, CountWords, q);
  }

  /** A phrase ending in `=`, one blank and digits: int() reads the digits. */
  lemma DigitsAfterEquals(line: string, words: seq<string>, q: nat)
    requires words != [] && words[|words| - 1] == "=" && PhraseEnd(line, 0, words) == Some(q)
    requires q + 1 < |line| && IsSpace(line[q]) && AllDigits(line[q + 1..])
    ensures CountOf(line) == Returned(DigitsValue(line[q + 1..]) as int)
  {
    EqualsEndsPhrase(line, 0, words);
    CountValueAt(line, q);
  }

  /** The count the first accepted line reports, 0 when there is none; the
      scan stops at the first accepted line. */
  function ReportedCount(lines: seq<string>): Outcome<int>
    decreases |lines|
  {
    if lines == [] then Returned(0)
    else if IsCountLine(lines[0]) then CountOf(lines[0])
    else ReportedCount(lines[1..])
  }

  /** Index of the first true flag, if any. */
  function FirstTrue(flags: seq<bool>): (r: Option<nat>)
    ensures r.Some? ==> r.value < |flags| && flags[r.value]
    ensures r.Some? ==> forall j :: 0 <= j < r.value ==> !flags[j]
    ensures r.None? ==> forall j :: 0 <= j < |flags| ==> !flags[j]
    decreases |flags|
  {
    if flags == [] then None
    else if flags[0] then Some(0)
    else match FirstTrue(flags[1..])
      case None => None
      case Some(k) => Some(k + 1)
  }

  /** Which lines are count lines. */
  function CountFlags(lines: seq<string>): (flags: seq<bool>)
    ensures |flags| == |lines|
  {
    seq(|lines|, j requires 0 <= j < |lines| => IsCountLine(lines[j]))
  }

  /** Index of the first count line, if any. */
  function FirstCountLine(lines: seq<string>): (r: Option<nat>)
    ensures r.Some? ==> r.value < |lines| && IsCountLine(lines[r.value])
    ensures r.Some? ==> forall j :: 0 <= j < r.value ==> !IsCountLine(lines[j])
    ensures r.None? ==> forall j :: 0 <= j < |lines| ==> !IsCountLine(lines[j])
  {
    var flags := CountFlags(lines);
    assert forall j :: 0 <= j < |lines| ==> flags[j] == IsCountLine(lines[j]);
    FirstTrue(flags)
  }

  /** The reported count never raises: it is the value of the first count
      line, or 0 when no line reports a count. */
  lemma {:induction false} ReportedCountValue(lines: seq<string>)
    ensures ReportedCount(lines) == match FirstCountLine(lines)
      case None => Returned(0)
      case Some(k) => Returned(DigitsValue(CountDigits(lines[k])) as int)
    decreases |lines|
  {
    if lines != [] {
      if IsCountLine(lines[0]) {
        CountLineValue(lines[0]);
        assert CountFlags(lines)[0];
      } else {
        ReportedCountValue(lines[1..]);
        assert CountFlags(lines[1..]) == CountFlags(lines)[1..];
        match FirstCountLine(lines[1..])
        case None =>
        case Some(k) => assert lines[1..][k] == lines[k + 1];
      }
    }
  }

  /** f applied to every row, in order. */
  function MapRows(f: string -> string, rows: seq<string>): (r: seq<string>)
    ensures |r| == |rows|
    decreases |rows|
  {
    if rows == [] then [] else MapRows(f, rows[..|rows| - 1]) + [f(rows[|rows| - 1])]
  }

  lemma {:induction false} MapRowsAt(f: string -> string, rows: seq<string>)
    ensures forall k :: 0 <= k < |rows| ==> MapRows(f, rows)[k] == f(rows[k])
    decreases |rows|
  {
    if rows != [] {
      var init := rows[..|rows| - 1];
      MapRowsAt(f, init);
      assert forall k :: 0 <= k < |init| ==> rows[k] == init[k];
    }
  }

  /** `rsplit(r'\s+', line.strip())[0]` of one row. */
  function FirstToken(row: string): string {
    Tokens(row)[0]
  }

  /** The first word of every table row, in order. */
  function FirstTokens(rows: seq<string>): (ids: seq<string>)
    ensures |ids| == |rows|
  {
    MapRows(FirstToken, rows)
  }

  /** What get_controllers ends with: the ids, or the UNKNOWN exit. */
  datatype Listing = Listing(ids: seq<string>) | CountMismatch

  /** get_controllers on the two command outputs. */
  function ControllersOf(countText: string, showText: string): Outcome<Listing> {
    match ReportedCount(SplitOn(countText, '\n'))
    case Raised => Raised
    case Returned(count) =>
      var ids := FirstTokens(Section(SplitOn(showText, '\n'), ControllerHeader));
      Returned(if |ids| != count then CountMismatch else Listing(ids))
  }

  /** The exit get_controllers takes on a mismatch. */
  function MismatchExit(): (e: Exit)
    ensures e.status == 3
  {
    End(Unknown, "Detected controller count does not correspond with the reported count.", "")
  }

  /** The controllers are listed exactly when there are as many controller
      rows as the count says (no count line counting as 0), and then the ids
      are the first words of the rows, in order. */
  lemma ControllersOfIff(countText: string, showText: string)
    ensures ControllersOf(countText, showText).Returned?
    ensures var rows := Section(SplitOn(showText, '\n'), ControllerHeader);
      var reported := ReportedCount(SplitOn(countText, '\n')).value;
      && (ControllersOf(countText, showText).value.Listing? <==> |rows| == reported)
      && (ControllersOf(countText, showText).value.Listing? ==>
            var ids := ControllersOf(countText, showText).value.ids;
            |ids| == |rows| && forall k :: 0 <= k < |rows| ==> ids[k] == Tokens(rows[k])[0])
  {
    ReportedCountValue(SplitOn(countText, '\n'));
    MapRowsAt(FirstToken, Section(SplitOn(showText, '\n'), ControllerHeader));
  }

  /** The count scan of get_controllers, with its early break. */
  method ReadCount(lines: seq<string>) returns (r: Outcome<int>)
    ensures r == ReportedCount(lines)
  {
    var count := 0;
    var i := 0;
    while i < |lines|
      invariant 0 <= i <= |lines|
      invariant ReportedCount(lines) == ReportedCount(lines[i..])
    {
      assert lines[i..][1..] == lines[i + 1..];
      if IsCountLine(lines[i]) {
        var c := CountOf(lines[i]);
        if c.Raised? {
          return Raised;
        }
        count := c.value;
        break;
      }
      i := i + 1;
    }
    return Returned(count);
  }

  /** The first word of every controller row, appended in order. */
  method ReadIds(rows: seq<string>) returns (ids: seq<string>)
    ensures ids == FirstTokens(rows)
  {
    ids := [];
    var j := 0;
    while j < |rows|
      invariant 0 <= j <= |rows|
      invariant ids == FirstTokens(rows[..j])
    {
      assert rows[..j + 1][..j] == rows[..j];
      ids := ids + [Tokens(rows[j])[0]];
      j := j + 1;
    }
    assert rows[..|rows|] == rows;
  }

  /** get_controllers: the reported count, then the ids of the table rows. */
  method GetControllers(run: Runner) returns (r: Outcome<Listing>)
    ensures r == ControllersOf(run(["show", "ctrlcount"]), run(["show"]))
  {
    var count := ReadCount(SplitOn(run(["show", "ctrlcount"]), '\n'));
    if count.Raised? {
      return Raised;
    }
    var rows := FindRelevantLines(run(["show"]), ControllerHeader);
    var ids := ReadIds(rows);
    if |ids| != count.value {
      return Returned(CountMismatch);
    }
    return Returned(Listing(ids));
  }
}

/** find_relevant_lines (check_megaraid.py:111-129): the body of a table in
    storcli's output, found by its header line and delimited by dash rules. */
module Sections {
  import opened Common
  import opened Text

  /** `match('-----+$', line)`: five or more dashes and nothing else. */
  predicate IsRule(line: string) {
    |line| >= 5 && forall i :: 0 <= i < |line| ==> line[i] == '-'
  }

  /** A table header, matched word by word: the line's first words are `lead`
      and its last words are `tail` (IGNORECASE), with anything in between.
      `indented` says whether the pattern starts with `\s*`; otherwise the
      first word must start the line. */
  datatype Header = Header(indented: bool, lead: seq<string>, tail: seq<string>)

  /** `Ctl\s+Model\s+Ports\s+.*Hlth\s*$` (check_megaraid.py:142). */
  const ControllerHeader: Header := Header(false, ["Ctl", "Model", "Ports"], ["Hlth"])

  /** `EID\s+State\s+Slots\s+PD.*ProdID\s+VendorSpecific\s*$` (check_megaraid.py:159). */
  const EnclosureHeader: Header := Header(false, ["EID", "State", "Slots", "PD"], ["ProdID", "VendorSpecific"])

  /** `\s*DG/VD\s+TYPE\s+.*Size\s+Name\s*$` (check_megaraid.py:249). */
  const VdHeader: Header := Header(true, ["DG/VD", "TYPE"], ["Size", "Name"])

  /** `\s*EID:Slt\s+DID\s+State.*\s+Sp\s+Type\s*$` (check_megaraid.py:356). */
  const DriveHeader: Header := Header(true, ["EID:Slt", "DID", "State"], ["Sp", "Type"])

  predicate MatchesHeader(h: Header, line: string) {
    var w := Words(line);
    && (h.indented || line == "" || !IsSpace(line[0]))
    && |h.lead| + |h.tail| <= |w|
    && (forall i :: 0 <= i < |h.lead| ==> EqualsIgnoringCase(w[i], h.lead[i]))
    && (forall i :: 0 <= i < |h.tail| ==> EqualsIgnoringCase(w[|w| - |h.tail| + i], h.tail[i]))
  }

  /** Index of the first header line, if any. */
  function FirstHeader(lines: seq<string>, h: Header): (r: Option<nat>)
    ensures r.Some? ==> r.value < |lines| && MatchesHeader(h, lines[r.value])
    ensures r.Some? ==> forall j :: 0 <= j < r.value ==> !MatchesHeader(h, lines[j])
    ensures r.None? ==> forall j :: 0 <= j < |lines| ==> !MatchesHeader(h, lines[j])
    decreases |lines|
  {
    if lines == [] then None
    else if MatchesHeader(h, lines[0]) then Some(0)
    else match FirstHeader(lines[1..], h)
      case None => None
      case Some(k) => Some(k + 1)
  }

  /** What the loop collects from the lines after the header: every non-rule
      line, until the rule that follows an earlier rule (`inBody` says that
      one rule has already been passed). */
  function Body(rest: seq<string>, inBody: bool): seq<string>
    decreases |rest|
  {
    if rest == [] then []
    else if IsRule(rest[0]) then (if inBody then [] else Body(rest[1..], true))
    else [rest[0]] + Body(rest[1..], inBody)
  }

  /** The lines find_relevant_lines returns for already split text. */
  function Section(lines: seq<string>, h: Header): seq<string> {
    match FirstHeader(lines, h)
    case None => []
    case Some(k) => Body(lines[k + 1..], false)
  }

  /** The reference reading of a section: the lines that are not rules. */
  function NonRules(s: seq<string>): seq<string>
    decreases |s|
  {
    if s == [] then [] else (if IsRule(s[0]) then [] else [s[0]]) + NonRules(s[1..])
  }

  function RuleCount(s: seq<string>): nat
    decreases |s|
  {
    if s == [] then 0 else (if IsRule(s[0]) then 1 else 0) + RuleCount(s[1..])
  }

  /** With a second rule at k, the section is the non-rule lines before k. */
  lemma {:induction false} BodyStopsAtSecondRule(rest: seq<string>, inBody: bool, k: nat)
    requires k < |rest| && IsRule(rest[k])
    requires RuleCount(rest[..k]) + (if inBody then 1 else 0) == 1
    ensures Body(rest, inBody) == NonRules(rest[..k])
    decreases |rest|
  {
    if k == 0 {
      assert rest[..0] == [];
    } else {
      assert rest[..k][1..] == rest[1..][..k - 1];
      BodyStopsAtSecondRule(rest[1..], inBody || IsRule(rest[0]), k - 1);
    }
  }

  /** With fewer than two rules, the section is every non-rule line: the
      extractor returns the rest of the text rather than failing. */
  lemma {:induction false} BodyWithoutSecondRule(rest: seq<string>, inBody: bool)
    requires RuleCount(rest) + (if inBody then 1 else 0) <= 1
    ensures Body(rest, inBody) == NonRules(rest)
    decreases |rest|
  {
    if rest != [] {
      BodyWithoutSecondRule(rest[1..], inBody || IsRule(rest[0]));
    }
  }

  /** No rule line is ever returned. */
  lemma {:induction false} BodyHasNoRule(rest: seq<string>, inBody: bool)
    ensures forall i :: 0 <= i < |Body(rest, inBody)| ==> !IsRule(Body(rest, inBody)[i])
    decreases |rest|
  {
    if rest != [] {
      BodyHasNoRule(rest[1..], inBody || IsRule(rest[0]));
    }
  }

  /** Every returned line is a line of the input that follows the first header. */
  lemma {:induction false} BodyFromInput(rest: seq<string>, inBody: bool)
    ensures forall x :: x in Body(rest, inBody) ==> x in rest
    decreases |rest|
  {
    if rest != [] {
      BodyFromInput(rest[1..], inBody || IsRule(rest[0]));
    }
  }

  /** The contract of find_relevant_lines, stated on the split text: no
      header gives []; otherwise the non-rule lines after the first header up
      to the second rule, or to the end when there is no second rule. */
  lemma SectionShape(lines: seq<string>, h: Header)
    ensures FirstHeader(lines, h).None? ==> Section(lines, h) == []
    ensures forall k :: FirstHeader(lines, h) == Some(k) && RuleCount(lines[k + 1..]) <= 1 ==>
      Section(lines, h) == NonRules(lines[k + 1..])
    ensures forall k, j ::
      (FirstHeader(lines, h) == Some(k) && k + 1 <= j < |lines| && IsRule(lines[j]) && RuleCount(lines[k + 1..j]) == 1)
      ==> Section(lines, h) == NonRules(lines[k + 1..j])
    ensures forall x :: x in Section(lines, h) ==> !IsRule(x) && x in lines
  {
    match FirstHeader(lines, h)
    case None =>
    case Some(k) =>
      var rest := lines[k + 1..];
      if RuleCount(rest) <= 1 {
        BodyWithoutSecondRule(rest, false);
      }
      forall j | k + 1 <= j < |lines| && IsRule(lines[j]) && RuleCount(lines[k + 1..j]) == 1
        ensures Section(lines, h) == NonRules(lines[k + 1..j])
      {
        SectionStops(lines, h, k, j);
      }
      SectionLines(lines, h, k);
  }

  /** The second rule after the header at k ends the section. */
  lemma SectionStops(lines: seq<string>, h: Header, k: nat, j: nat)
    requires FirstHeader(lines, h) == Some(k)
    requires k + 1 <= j < |lines| && IsRule(lines[j]) && RuleCount(lines[k + 1..j]) == 1
    ensures Section(lines, h) == NonRules(lines[k + 1..j])
  {
    var rest := lines[k + 1..];
    assert rest[..j - (k + 1)] == lines[k + 1..j];
    BodyStopsAtSecondRule(rest, false, j - (k + 1));
  }

  /** The section after the header at k holds input lines that are not rules. */
  lemma SectionLines(lines: seq<string>, h: Header, k: nat)
    requires FirstHeader(lines, h) == Some(k)
    ensures forall x :: x in Section(lines, h) ==> !IsRule(x) && x in lines
  {
    var rest := lines[k + 1..];
    BodyHasNoRule(rest, false);
    BodyFromInput(rest, false);
    forall x | x in Section(lines, h) ensures !IsRule(x) && x in lines {
      var i :| 0 <= i < |Body(rest, false)| && Body(rest, false)[i] == x;
    }
  }

  /** The body from line i on, one line at a time. */
  lemma BodyAt(lines: seq<string>, i: nat, inBody: bool)
    requires i < |lines|
    ensures Body(lines[i..], inBody)
         == if IsRule(lines[i]) then (if inBody then [] else Body(lines[i + 1..], true))
            else [lines[i]] + Body(lines[i + 1..], inBody)
  {
    assert lines[i..][0] == lines[i] && lines[i..][1..] == lines[i + 1..];
  }

  /** One line of the loop after the header: a first rule opens the body, a
      second one ends it, any other line is collected. */
  lemma CollectStep(lines: seq<string>, k: nat, i: nat, relevant: seq<string>, inBody: bool)
    requires k < i < |lines| && relevant + Body(lines[i..], inBody) == Body(lines[k + 1..], false)
    ensures IsRule(lines[i]) && !inBody ==> relevant + Body(lines[i + 1..], true) == Body(lines[k + 1..], false)
    ensures IsRule(lines[i]) && inBody ==> relevant == Body(lines[k + 1..], false)
    ensures !IsRule(lines[i]) ==>
      (relevant + [lines[i]]) + Body(lines[i + 1..], inBody) == Body(lines[k + 1..], false)
  {
    BodyAt(lines, i, inBody);
    if !IsRule(lines[i]) {
      AppendAssociates(relevant, [lines[i]], Body(lines[i + 1..], inBody));
    }
  }

  /** The first line matching the header, found by a scan. */
  lemma FirstHeaderAt(lines: seq<string>, h: Header, i: nat)
    requires i < |lines| && MatchesHeader(h, lines[i])
    requires forall j :: 0 <= j < i ==> !MatchesHeader(h, lines[j])
    ensures FirstHeader(lines, h) == Some(i)
  {
  }

  /** find_relevant_lines, with the header regex replaced by a Header. */
  method FindRelevantLines(text: string, h: Header) returns (relevant: seq<string>)
    ensures relevant == Section(SplitOn(text, '\n'), h)
  {
    var lines := SplitOn(text, '\n');
    relevant := [];
    var startMatch := false;
    var startParse := false;
    ghost var k: nat := 0;
    var i := 0;
    while i < |lines|
      invariant 0 <= i <= |lines|
      invariant !startMatch ==> relevant == [] && !startParse
      invariant !startMatch ==> forall j :: 0 <= j < i ==> !MatchesHeader(h, lines[j])
      invariant startMatch ==> k < i && FirstHeader(lines, h) == Some(k)
      invariant startMatch ==> relevant + Body(lines[i..], startParse) == Body(lines[k + 1..], false)
    {
      var line := lines[i];
      if !startMatch && MatchesHeader(h, line) {
        startMatch := true;
        k := i;
        FirstHeaderAt(lines, h, i);
        assert relevant + Body(lines[i + 1..], startParse) == Body(lines[k + 1..], false);
      } else if startMatch {
        CollectStep(lines, k, i, relevant, startParse);
        if IsRule(line) {
          if !startParse {
            startParse := true;
          } else {
            break;
          }
        } else {
          relevant := relevant + [line];
        }
      }
      i := i + 1;
    }
    if startMatch {
      if i == |lines| {
        assert lines[i..] == [];
      }
      assert relevant == Body(lines[k + 1..], false);
    } else {
      assert FirstHeader(lines, h).None?;
    }
  }
}

/** The Nagios severity lattice: the four states, the "worst wins"
    combination handle_nagios_codes, the fold of that combination over a
    sequence, and the status prefix chosen by `end`. */
module Severity {
  import opened Common

  /** NAGIOS_OK, NAGIOS_WARNING, NAGIOS_CRITICAL, NAGIOS_UNKNOWN. */
  datatype Severity = Ok | Warning | Critical | Unknown

  /** The integer each state has in the source: it is also the exit status. */
  function Code(s: Severity): (n: int)
    ensures 0 <= n <= 3
  {
    match s
    case Ok => 0
    case Warning => 1
    case Critical => 2
    case Unknown => 3
  }

  /** NAGIOS_ORDER: most severe first. */
  const Order: seq<Severity> := [Critical, Warning, Unknown, Ok]

  /** Position of a state in Order; a smaller rank is more severe. */
  function Rank(s: Severity): (r: nat)
    ensures r < |Order| && Order[r] == s
  {
    match s
    case Critical => 0
    case Warning => 1
    case Unknown => 2
    case Ok => 3
  }

  /** The loop of handle_nagios_codes: the first state of `order` that is one
      of the two arguments, and Ok when there is none. */
  function FirstOf(order: seq<Severity>, a: Severity, b: Severity): (r: Severity)
    ensures (a in order || b in order) ==> (r == a || r == b)
    ensures r in order || r == Ok
    decreases |order|
  {
    if order == [] then Ok
    else if order[0] == a || order[0] == b then order[0]
    else FirstOf(order[1..], a, b)
  }

  /** FirstOf returns the candidate that comes earliest in the order. */
  lemma {:induction false} FirstOfEarliest(order: seq<Severity>, a: Severity, b: Severity, k: nat)
    requires k < |order| && (order[k] == a || order[k] == b)
    ensures exists j :: 0 <= j <= k && j < |order| && order[j] == FirstOf(order, a, b)
  {
    if order[0] == a || order[0] == b {
      assert order[0] == FirstOf(order, a, b);
    } else {
      FirstOfEarliest(order[1..], a, b, k - 1);
      var j :| 0 <= j <= k - 1 && j < |order[1..]| && order[1..][j] == FirstOf(order[1..], a, b);
      assert order[j + 1] == FirstOf(order, a, b);
    }
  }

  /** handle_nagios_codes (check_megaraid.py:51-61): whichever of the two
      states comes first in NAGIOS_ORDER. */
  function HandleNagiosCodes(original: Severity, latest: Severity): (r: Severity)
    ensures r == original || r == latest
    ensures Rank(r) <= Rank(original) && Rank(r) <= Rank(latest)
  {
    var r := FirstOf(Order, original, latest);
    FirstOfEarliest(Order, original, latest, Rank(original));
    FirstOfEarliest(Order, original, latest, Rank(latest));
    r
  }

  lemma Commutative(a: Severity, b: Severity)
    ensures HandleNagiosCodes(a, b) == HandleNagiosCodes(b, a)
  {
  }

  lemma Idempotent(a: Severity)
    ensures HandleNagiosCodes(a, a) == a
  {
  }

  lemma Associative(a: Severity, b: Severity, c: Severity)
    ensures HandleNagiosCodes(HandleNagiosCodes(a, b), c) == HandleNagiosCodes(a, HandleNagiosCodes(b, c))
  {
  }

  lemma OkIsIdentity(a: Severity)
    ensures HandleNagiosCodes(a, Ok) == a && HandleNagiosCodes(Ok, a) == a
  {
  }

  lemma CriticalAbsorbs(a: Severity)
    ensures HandleNagiosCodes(a, Critical) == Critical && HandleNagiosCodes(Critical, a) == Critical
  {
  }

  /** Repeated combination, starting from NAGIOS_OK, in sequence order: how the
      checkers fold their per-item states. */
  function Worst(s: seq<Severity>): Severity
    decreases |s|
  {
    if s == [] then Ok else HandleNagiosCodes(Worst(s[..|s| - 1]), s[|s| - 1])
  }

  /** The fold is at least as severe as every element, and is one of them
      (or Ok for the empty sequence). */
  lemma {:induction false} WorstBounds(s: seq<Severity>)
    ensures forall i :: 0 <= i < |s| ==> Rank(Worst(s)) <= Rank(s[i])
    ensures Worst(s) == Ok || Worst(s) in s
  {
    if s != [] {
      var init := s[..|s| - 1];
      WorstBounds(init);
      assert forall i :: 0 <= i < |init| ==> s[i] == init[i];
    }
  }

  /** The fold is Ok exactly when every element is Ok, and Critical exactly
      when some element is Critical. */
  lemma WorstIsOkIff(s: seq<Severity>)
    ensures Worst(s) == Ok <==> forall i :: 0 <= i < |s| ==> s[i] == Ok
    ensures Worst(s) == Critical <==> exists i :: 0 <= i < |s| && s[i] == Critical
  {
    WorstBounds(s);
  }

  /** The prefix `end` prints: prep[ecode] with prep = ('OK', 'WA', 'CR', 'UK'). */
  function Prefix(s: Severity): string {
    ["OK", "WA", "CR", "UK"][Code(s)]
  }

  /** What `end` prints and the status it exits with (check_megaraid.py:63-70). */
  datatype Exit = Exit(status: int, text: string)

  function End(code: Severity, output: string, longOutput: string): (e: Exit)
    ensures e.status == Code(code)
    ensures longOutput == "" ==> e.text == Prefix(code) + ": " + output
    ensures longOutput != "" ==> e.text == Prefix(code) + ": " + output + "\n" + longOutput
  {
    var separator := if longOutput == "" then "" else "\n";
    Exit(Code(code), Prefix(code) + ": " + output + separator + longOutput)
  }

  /** Recovers the state from the first two characters of a printed line, as a
      monitoring system reading the status prefix would. */
  function StateOfText(text: string): Option<Severity> {
    if |text| < 2 then None
    else if text[..2] == "OK" then Some(Ok)
    else if text[..2] == "WA" then Some(Warning)
    else if text[..2] == "CR" then Some(Critical)
    else if text[..2] == "UK" then Some(Unknown)
    else None
  }

  /** The printed prefix identifies the exit state: the four prefixes are
      distinct and each matches its status. */
  lemma EndStatesState(code: Severity, output: string, longOutput: string)
    ensures StateOfText(End(code, output, longOutput).text) == Some(code)
    ensures End(code, output, longOutput).status == Code(code)
  {
    var t := End(code, output, longOutput).text;
    assert t[..2] == Prefix(code);
  }

  /** The four accumulators every checker keeps: its folded state, the ids for
      the CR- and WA- parts of the summary line, and the long output. */
  datatype Tally = Tally(code: Severity, cr: string, wa: string, long: string)

  const NoFindings: Tally := Tally(Ok, "", "", "")

  /** Adds one checker's result to a running total, as the main block does
      with its ALL_* variables: codes combined, texts appended. */
  function Absorb(total: Tally, part: Tally): (r: Tally)
    ensures Rank(r.code) <= Rank(total.code) && Rank(r.code) <= Rank(part.code)
    ensures r.cr == "" <==> total.cr == "" && part.cr == ""
    ensures r.wa == "" <==> total.wa == "" && part.wa == ""
  {
    Tally(HandleNagiosCodes(total.code, part.code), total.cr + part.cr, total.wa + part.wa, total.long + part.long)
  }

  /** The id a controller adds to a facet's CR or WA list: `/cN;`. */
  function ControllerId(c: string): string {
    "/c" + c + ";"
  }

  /** Appending the pieces of an id one by one appends the id. */
  lemma IdAppended(a: string, c: string)
    ensures a + "/c" + c + ";" == a + ControllerId(c)
  {
    AppendAssociates(a, "/c", c);
    AppendAssociates(a, "/c" + c, ";");
  }
}

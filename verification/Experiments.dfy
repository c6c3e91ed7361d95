/** Experiment ids, route modes and probe names: what the server accepts, and why the names are unambiguous. */
module Experiments {
  import opened Wrappers
  import opened Decimal
  import opened Text

  const MAX_ID_LENGTH := 128

  predicate IsIdChar(c: char) {
    'A' <= c <= 'Z' || 'a' <= c <= 'z' || IsDigit(c) || c in "._:-"
  }

  predicate ValidExperimentId(id: string) {
    id != "" && |id| <= MAX_ID_LENGTH && forall i :: 0 <= i < |id| ==> IsIdChar(id[i])
  }

  const ROUTE_MODES := {"edge", "passthrough", "reencrypt", "service-http", "service-https"}

  const OPERATIONS := {"generate", "upload", "download", "handshake"}

  /** An empty mode is fine and means none; anything else must be on the list. */
  function ParseRouteMode(raw: string): Option<string> {
    var mode := TrimSpaces(raw);
    if mode == "" || mode in ROUTE_MODES then Some(mode) else None
  }

  predicate ValidRouteMode(mode: string) {
    mode == "" || mode in ROUTE_MODES
  }

  /** The ASCII codes of digits, letters, and the four marks. */
  predicate IdCode(n: int) {
    48 <= n <= 57 || 65 <= n <= 90 || 97 <= n <= 122 || n == 45 || n == 46 || n == 58 || n == 95
  }

  /** An experiment id is 1 to 128 letters, digits, dots, underscores, colons and dashes. */
  lemma ExperimentIdIff(id: string)
    ensures ValidExperimentId(id) <==> 1 <= |id| <= 128 && forall i :: 0 <= i < |id| ==> IdCode(id[i] as int)
  {
    assert forall c: char :: IsIdChar(c) <==> IdCode(c as int);
    hide IsIdChar, IdCode;
  }

  /** The five routes there are. */
  predicate Listed(mode: string) {
    || mode == "edge" || mode == "passthrough" || mode == "reencrypt" || mode == "service-http"
    || mode == "service-https"
  }

  /** The four operations there are. */
  lemma OperationIff(operation: string)
    ensures operation in OPERATIONS <==>
      operation == "generate" || operation == "upload" || operation == "download" || operation == "handshake"
  {
  }

  lemma ListedIsTrimmed(mode: string)
    requires Listed(mode)
    ensures EndsTrimmed(mode) && mode != ""
  {
  }

  /** A text is refused exactly if, trimmed, it is neither empty nor a listed mode; otherwise it stands for itself. */
  lemma ParseRouteModeIff(raw: string)
    ensures ParseRouteMode(raw) == None <==> TrimSpaces(raw) != "" && !Listed(TrimSpaces(raw))
    ensures ParseRouteMode(raw).Some? ==> ParseRouteMode(raw).value == TrimSpaces(raw)
  {
    hide TrimSpaces;
  }

  /** A listed mode with any white space around it is parsed to itself, and white space alone to no mode. */
  lemma ListedModeParses(mode: string, left: string, right: string)
    requires White(left) && White(right)
    ensures Listed(mode) ==> ParseRouteMode(left + mode + right) == Some(mode)
    ensures ParseRouteMode(left) == Some("")
  {
    ParseRouteModeIff(left + mode + right);
    ParseRouteModeIff(left);
    TrimWhite(left);
    if Listed(mode) {
      ListedIsTrimmed(mode);
      TrimPadded(left, mode, right);
    }
    hide ParseRouteMode, TrimSpaces, EndsTrimmed, Listed;
  }

  // ----- probe names

  function ProbeName(id: string, index: int): string {
    id + "-" + PrintInt(index)
  }

  /** Splits a name at its last dash; what follows must be digits. */
  function ParseProbeName(name: string): Option<(string, nat)> {
    var k := DashBefore(name);
    if k == 0 || k == |name| then None
    else
      assert AllDigits(name[k..]);
      Some((name[..k - 1], ParseNat(name[k..])))
  }

  /** The position just after the last dash, if only digits follow it; otherwise 0. */
  function DashBefore(name: string): (k: nat)
    ensures k <= |name|
    ensures k > 0 ==> name[k - 1] == '-' && AllDigits(name[k..])
  {
    if name == [] then 0
    else
      var last := |name| - 1;
      if name[last] == '-' then |name|
      else if !IsDigit(name[last]) then 0
      else
        var k := DashBefore(name[..last]);
        assert k > 0 ==> name[k..] == name[..last][k..] + [name[last]];
        k
  }

  lemma {:induction false} DashBeforeDigits(id: string, digits: string)
    requires AllDigits(digits)
    ensures DashBefore(id + "-" + digits) == |id| + 1
    decreases |digits|
  {
    var name := id + "-" + digits;
    if digits == [] {
      assert name == id + "-";
    } else {
      var init := digits[..|digits| - 1];
      DashBeforeDigits(id, init);
      assert name[..|name| - 1] == id + "-" + init;
    }
  }

  /** A probe name gives back its experiment id and index, whatever dashes and digits the id contains. */
  lemma ProbeNameRoundTrip(id: string, index: nat)
    ensures ParseProbeName(ProbeName(id, index)) == Some((id, index))
  {
    var digits := PrintNat(index);
    DashBeforeDigits(id, digits);
    var name := ProbeName(id, index);
    assert name == id + "-" + digits;
    assert name[..|id|] == id && name[|id| + 1..] == digits;
    ParsePrintNat(index);
  }

  /** The same name with a non-negative index: a minus sign is read as one more dash of the id. */
  function Unsigned(id: string, index: int): (string, nat) {
    if index < 0 then (id + "-", -index) else (id, index)
  }

  /**
   Two probe names are equal exactly when their ids and indices are, except that a negative index -n under id reads
   the same as n under id followed by a dash. On the indices the server accepts, names are therefore unique.
   */
  lemma ProbeNameEqualIff(id1: string, i1: int, id2: string, i2: int)
    ensures ProbeName(id1, i1) == ProbeName(id2, i2) <==> Unsigned(id1, i1) == Unsigned(id2, i2)
    ensures i1 >= 0 && i2 >= 0 ==>
              (ProbeName(id1, i1) == ProbeName(id2, i2) <==> id1 == id2 && i1 == i2)
  {
    ProbeNameUnsigned(id1, i1);
    ProbeNameUnsigned(id2, i2);
    var (a, m) := Unsigned(id1, i1);
    var (b, n) := Unsigned(id2, i2);
    ProbeNameRoundTrip(a, m);
    ProbeNameRoundTrip(b, n);
  }

  lemma ProbeNameUnsigned(id: string, index: int)
    ensures var (a, n) := Unsigned(id, index); ProbeName(id, index) == ProbeName(a, n)
  {
    if index < 0 {
      assert id + "-" + ("-" + PrintNat(-index)) == (id + "-") + "-" + PrintNat(-index);
    }
  }

  /** A negative index breaks uniqueness, for every id and every index. */
  lemma NegativeIndexCollides(id: string, index: int)
    requires index < 0
    ensures ProbeName(id, index) == ProbeName(id + "-", -index) && (id, index) != (id + "-", -index)
  {
    ProbeNameUnsigned(id, index);
  }

  // ----- keys joined with a bar

  predicate NoBar(s: string) {
    forall i :: 0 <= i < |s| ==> s[i] != '|'
  }

  lemma JoinedEqual(a: string, s: string, b: string, t: string)
    requires NoBar(a) && NoBar(b)
    requires a + "|" + s == b + "|" + t
    ensures a == b && s == t
  {
    var x, y := a + "|" + s, b + "|" + t;
    assert x[|a|] == '|' && y[|b|] == '|';
    assert forall i :: 0 <= i < |a| ==> x[i] == a[i];
    assert forall i :: 0 <= i < |b| ==> y[i] == b[i];
    assert a == x[..|a|] && b == y[..|b|];
    assert s == x[|a| + 1..] && t == y[|b| + 1..];
  }

  lemma ValidatedHaveNoBar(id: string, operation: string)
    requires id == "" || ValidExperimentId(id)
    requires operation in OPERATIONS
    ensures NoBar(id) && NoBar(operation)
  {
  }
}

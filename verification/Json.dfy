/**
 The validity scanner that runs before any JSON text is decoded (the grammar of RFC 8259, sections 2 to 7),
 as a push-down automaton, and the facts about one-line records that the results log rests on.
 */
module Json {
  import opened Decimal

  datatype Frame = Obj | Arr

  datatype Mode =
    | Value                // a value must start here
    | FirstItem            // just after '['
    | FirstKey             // just after '{'
    | NextKey              // just after ',' in an object
    | Text(key: bool)      // inside a string
    | Escape(key: bool)    // after a backslash
    | Hex(key: bool, left: nat)
    | Colon                // after an object key
    | After                // after a whole value
    | Minus | Zero | Digits | Point | Fraction | Exp | ExpSign | ExpDigits
    | Word(rest: string)   // inside true, false or null
    | Fail

  datatype State = State(mode: Mode, stack: seq<Frame>)

  const START := State(Value, [])
  const FAIL := State(Fail, [])

  predicate IsSpace(c: char) {
    c == ' ' || c == '\t' || c == '\r' || c == '\n'
  }

  predicate IsHex(c: char) {
    IsDigit(c) || 'a' <= c <= 'f' || 'A' <= c <= 'F'
  }

  function BeginValue(c: char, stack: seq<Frame>): State {
    if c == '{' then State(FirstKey, [Obj] + stack)
    else if c == '[' then State(FirstItem, [Arr] + stack)
    else if c == '"' then State(Text(false), stack)
    else if c == '-' then State(Minus, stack)
    else if c == '0' then State(Zero, stack)
    else if IsDigit(c) then State(Digits, stack)
    else if c == 't' then State(Word("rue"), stack)
    else if c == 'f' then State(Word("alse"), stack)
    else if c == 'n' then State(Word("ull"), stack)
    else FAIL
  }

  function AfterValue(c: char, stack: seq<Frame>): State {
    if IsSpace(c) then State(After, stack)
    else if stack == [] then FAIL
    else if stack[0] == Obj then
      if c == ',' then State(NextKey, stack)
      else if c == '}' then State(After, stack[1..])
      else FAIL
    else
      if c == ',' then State(Value, stack)
      else if c == ']' then State(After, stack[1..])
      else FAIL
  }

  function Exponent(c: char, stack: seq<Frame>): State {
    if c == 'e' || c == 'E' then State(Exp, stack) else AfterValue(c, stack)
  }

  /** One character of the scanner. */
  function Step(st: State, c: char): State {
    var stack := st.stack;
    match st.mode
    case Value => if IsSpace(c) then st else BeginValue(c, stack)
    case FirstItem =>
      if IsSpace(c) then st
      else if c == ']' && stack != [] then State(After, stack[1..])
      else BeginValue(c, stack)
    case FirstKey =>
      if IsSpace(c) then st
      else if c == '"' then State(Text(true), stack)
      else if c == '}' && stack != [] then State(After, stack[1..])
      else FAIL
    case NextKey =>
      if IsSpace(c) then st
      else if c == '"' then State(Text(true), stack)
      else FAIL
    case Text(key) =>
      if c == '"' then State(if key then Colon else After, stack)
      else if c == '\\' then State(Escape(key), stack)
      else if c < ' ' then FAIL
      else st
    case Escape(key) =>
      if c in "\"\\/bfnrt" then State(Text(key), stack)
      else if c == 'u' then State(Hex(key, 4), stack)
      else FAIL
    case Hex(key, left) =>
      if !IsHex(c) then FAIL
      else if left <= 1 then State(Text(key), stack)
      else State(Hex(key, left - 1), stack)
    case Colon =>
      if IsSpace(c) then st
      else if c == ':' then State(Value, stack)
      else FAIL
    case After => AfterValue(c, stack)
    case Minus =>
      if c == '0' then State(Zero, stack)
      else if IsDigit(c) then State(Digits, stack)
      else FAIL
    case Zero => if c == '.' then State(Point, stack) else Exponent(c, stack)
    case Digits =>
      if IsDigit(c) then st
      else if c == '.' then State(Point, stack)
      else Exponent(c, stack)
    case Point => if IsDigit(c) then State(Fraction, stack) else FAIL
    case Fraction => if IsDigit(c) then st else Exponent(c, stack)
    case Exp =>
      if c == '+' || c == '-' then State(ExpSign, stack)
      else if IsDigit(c) then State(ExpDigits, stack)
      else FAIL
    case ExpSign => if IsDigit(c) then State(ExpDigits, stack) else FAIL
    case ExpDigits => if IsDigit(c) then st else AfterValue(c, stack)
    case Word(rest) =>
      if rest == "" || c != rest[0] then FAIL
      else if |rest| == 1 then State(After, stack)
      else State(Word(rest[1..]), stack)
    case Fail => FAIL
  }

  function Run(st: State, s: string): State
    decreases s
  {
    if s == [] then st else Run(Step(st, s[0]), s[1..])
  }

  predicate Accepts(st: State) {
    st.stack == [] && st.mode in {After, Zero, Digits, Fraction, ExpDigits}
  }

  /** The text is one complete JSON value. */
  predicate Valid(s: string) {
    Accepts(Run(START, s))
  }

  predicate Blank(s: string) {
    forall i :: 0 <= i < |s| ==> IsSpace(s[i])
  }

  // ----- runs of the scanner

  lemma {:induction false} RunConcat(st: State, a: string, b: string)
    ensures Run(st, a + b) == Run(Run(st, a), b)
    decreases a
  {
    if a == [] {
      assert a + b == b;
    } else {
      assert (a + b)[1..] == a[1..] + b;
      RunConcat(Step(st, a[0]), a[1..], b);
    }
  }

  lemma RunCons(st: State, c: char, s: string)
    ensures Run(st, [c] + s) == Run(Step(st, c), s)
  {
    assert ([c] + s)[1..] == s;
  }

  lemma RunSnoc(st: State, s: string, c: char)
    ensures Run(st, s + [c]) == Step(Run(st, s), c)
  {
    RunConcat(st, s, [c]);
    RunCons(Run(st, s), c, []);
    assert [c] + [] == [c];
  }

  lemma {:induction false} RunFail(st: State, s: string)
    requires st.mode == Fail
    ensures Run(st, s).mode == Fail
    decreases s
  {
    if s != [] {
      RunFail(FAIL, s[1..]);
    }
  }

  lemma {:induction false} RunBlank(s: string)
    requires Blank(s)
    ensures Run(START, s) == START
  {
    if s != [] {
      RunBlank(s[1..]);
    }
  }

  predicate Lowercase(s: string) {
    forall i :: 0 <= i < |s| ==> 'a' <= s[i] <= 'z'
  }

  /** What every reachable state keeps: the modes that only occur inside a bracket do occur inside one. */
  predicate Nested(st: State) {
    match st.mode
    case FirstItem | FirstKey | NextKey | Colon => st.stack != []
    case Text(key) => key ==> st.stack != []
    case Escape(key) => key ==> st.stack != []
    case Hex(key, _) => key ==> st.stack != []
    case Word(rest) => Lowercase(rest)
    case _ => true
  }

  lemma StepBegun(st: State, c: char)
    requires Nested(st)
    ensures Nested(Step(st, c))
    ensures st != START || !IsSpace(c) ==> Step(st, c) != START
  {
  }

  /** The scanner is back at its start only when everything read so far was white space. */
  lemma {:induction false} RunBegun(st: State, s: string)
    requires Nested(st)
    ensures Nested(Run(st, s))
    ensures st != START ==> Run(st, s) != START
    ensures st == START && !Blank(s) ==> Run(st, s) != START
    decreases s
  {
    if s != [] {
      StepBegun(st, s[0]);
      RunBegun(Step(st, s[0]), s[1..]);
    }
  }

  // ----- records that stand alone

  /**
   The text opens an object whose first key starts with a letter, and the scanner reads it as one value
   wherever a value may start.
   */
  ghost predicate SelfContained(line: string) {
    && |line| >= 3 && line[0] == '{' && line[1] == '"' && 'a' <= line[2] <= 'z'
    && line[|line| - 1] == '}'
    && forall stack: seq<Frame> :: Run(State(Value, stack), line) == State(After, stack)
  }

  lemma SelfContainedIsValid(line: string)
    requires SelfContained(line)
    ensures Valid(line)
  {
  }

  lemma RunThree(st: State, s: string)
    requires |s| >= 3
    ensures Run(st, s) == Run(Step(Step(Step(st, s[0]), s[1]), s[2]), s[3..])
  {
    assert s[1..][1..] == s[2..];
    assert s[2..][1..] == s[3..];
    assert Run(Step(st, s[0]), s[1..]) == Run(Step(Step(st, s[0]), s[1]), s[2..]);
  }

  /** Outside a place where a value may start, `{"` and a letter are never read in a row. */
  lemma OpeningFails(st: State, letter: char)
    requires 'a' <= letter <= 'z'
    requires Nested(st) && st.mode != Value && st.mode != FirstItem
    ensures Step(Step(Step(st, '{'), '"'), letter).mode == Fail
  {
    var one := Step(st, '{');
    match st.mode {
      case Text(key) =>
        assert one == st;
        assert Step(one, '"') == State(if key then Colon else After, st.stack);
      case Escape(key) =>
        assert '{' !in "\"\\/bfnrt";
      case _ =>
    }
  }

  /** From any state but the untouched start, reading a whole record cannot complete a document. */
  lemma StuckAfterStart(st: State, line: string)
    requires SelfContained(line) && Nested(st) && st != START
    ensures !Accepts(Run(st, line))
  {
    RunThree(st, line);
    if st.mode == Value {
      assert Run(st, line) == State(After, st.stack);
    } else if st.mode == FirstItem {
      RunThree(State(Value, st.stack), line);
      assert Run(State(Value, st.stack), line) == State(After, st.stack);
    } else {
      OpeningFails(st, line[2]);
      RunFail(Step(Step(Step(st, line[0]), line[1]), line[2]), line[3..]);
    }
  }

  /**
   A record written straight after other text on the same line is still a valid line exactly when that text
   is white space. In particular two records on one line, or a record after a torn one, are not.
   */
  lemma JoinedLineValidIff(tail: string, line: string)
    requires SelfContained(line)
    ensures Valid(tail + line) <==> Blank(tail)
  {
    RunConcat(START, tail, line);
    if Blank(tail) {
      RunBlank(tail);
      SelfContainedIsValid(line);
    } else {
      RunBegun(START, tail);
      StuckAfterStart(Run(START, tail), line);
    }
  }

  /** No proper prefix of a record is a valid line. */
  lemma ProperPrefixInvalid(line: string, k: nat)
    requires SelfContained(line) && k < |line|
    ensures !Valid(line[..k])
  {
    var p, q := line[..k], line[k..];
    assert line == p + q;
    RunConcat(START, p, q);
    SelfContainedIsValid(line);
    if Valid(p) {
      RunEndsInSpaceOrFails(Run(START, p), q);
    }
  }

  /** A text whose last character closes an object cannot extend a finished document. */
  lemma {:induction false} RunEndsInSpaceOrFails(st: State, q: string)
    requires Accepts(st) && q != [] && q[|q| - 1] == '}'
    ensures !Accepts(Run(st, q))
    decreases q
  {
    var next := Step(st, q[0]);
    if |q| == 1 {
      assert q[0] == '}';
      assert Run(next, q[1..]) == next;
    } else if Accepts(next) {
      RunEndsInSpaceOrFails(next, q[1..]);
    } else {
      RunTopLevelNumber(next, q[1..]);
    }
  }

  /** From a state reached after a finished document, '}' never completes one. */
  lemma {:induction false} RunTopLevelNumber(st: State, q: string)
    requires st.stack == [] && st.mode in {Point, Exp, ExpSign, Fail} && q != [] && q[|q| - 1] == '}'
    ensures !Accepts(Run(st, q))
    decreases q
  {
    var next := Step(st, q[0]);
    if |q| == 1 {
      assert Run(next, q[1..]) == next;
    } else if Accepts(next) {
      RunEndsInSpaceOrFails(next, q[1..]);
    } else {
      RunTopLevelNumber(next, q[1..]);
    }
  }

  // ----- a torn record after other text

  function Lift(st: State, below: seq<Frame>): State {
    State(st.mode, st.stack + below)
  }

  /** Reading on with more open brackets underneath changes nothing until the value is finished. */
  lemma StepLift(st: State, below: seq<Frame>, c: char)
    requires Nested(st) && !Accepts(st) && st.mode != Fail
    requires Step(st, c).mode != Fail
    ensures Step(Lift(st, below), c) == Lift(Step(st, c), below)
  {
    if st.stack != [] {
      assert (st.stack + below)[0] == st.stack[0];
      assert (st.stack + below)[1..] == st.stack[1..] + below;
    }
    assert [Obj] + (st.stack + below) == ([Obj] + st.stack) + below;
    assert [Arr] + (st.stack + below) == ([Arr] + st.stack) + below;
  }

  lemma {:induction false} RunLift(below: seq<Frame>, line: string, k: nat)
    requires SelfContained(line) && k < |line|
    ensures Nested(Run(START, line[..k])) && Run(START, line[..k]).mode != Fail
    ensures Run(Lift(START, below), line[..k]) == Lift(Run(START, line[..k]), below)
  {
    SelfContainedIsValid(line);
    RunBegun(START, line[..k]);
    PrefixAlive(line, k);
    if k > 0 {
      RunLift(below, line, k - 1);
      ProperPrefixInvalid(line, k - 1);
      assert line[..k] == line[..k - 1] + [line[k - 1]];
      RunSnoc(START, line[..k - 1], line[k - 1]);
      RunSnoc(Lift(START, below), line[..k - 1], line[k - 1]);
      StepLift(Run(START, line[..k - 1]), below, line[k - 1]);
    }
  }

  lemma PrefixAlive(line: string, k: nat)
    requires Valid(line) && k <= |line|
    ensures Run(START, line[..k]).mode != Fail
  {
    assert line == line[..k] + line[k..];
    RunConcat(START, line[..k], line[k..]);
    if Run(START, line[..k]).mode == Fail {
      RunFail(Run(START, line[..k]), line[k..]);
    }
  }

  /** Part of a record cannot complete a document either: not by itself, and not after other text. */
  lemma JoinedTornInvalid(tail: string, line: string, k: nat)
    requires SelfContained(line) && k < |line|
    requires tail == "" || (tail[0] == '{' && k > 0)
    ensures !Valid(tail + line[..k])
  {
    if tail == "" {
      ProperPrefixInvalid(line, k);
      assert tail + line[..k] == line[..k];
    } else {
      RunOpened(Step(START, '{'), tail[1..]);
      RunConcat(START, tail, line[..k]);
      TornAfterStart(Run(START, tail), line, k);
    }
  }

  /** Some bracket is still open, or the document is over. */
  predicate Opened(st: State) {
    st.stack != [] || st.mode == After || st.mode == Fail
  }

  lemma {:induction false} RunOpened(st: State, s: string)
    requires Opened(st) && Nested(st)
    ensures Opened(Run(st, s)) && Nested(Run(st, s))
    decreases s
  {
    if s != [] {
      RunOpened(Step(st, s[0]), s[1..]);
    }
  }

  lemma TornAfterStart(st: State, line: string, k: nat)
    requires SelfContained(line) && 0 < k < |line| && Nested(st) && Opened(st)
    ensures !Accepts(Run(st, line[..k]))
  {
    if st.mode == Value || st.mode == FirstItem {
      var value := State(Value, st.stack);
      assert Step(st, '{') == Step(value, '{');
      assert Run(st, line[..k]) == Run(value, line[..k]) by {
        assert line[..k][0] == '{';
      }
      RunLift(st.stack, line, k);
      assert Lift(START, st.stack) == value;
    } else if k >= 3 {
      RunThree(st, line[..k]);
      OpeningFails(st, line[2]);
      RunFail(Step(Step(Step(st, line[0]), line[1]), line[2]), line[..k][3..]);
    } else {
      OpeningUnfinished(st);
      RunSnoc(st, [], '{');
      RunSnoc(st, ['{'], '"');
      assert line[..k] == if k == 1 then [] + ['{'] else ['{'] + ['"'];
    }
  }

  lemma OpeningUnfinished(st: State)
    requires Opened(st) && st.mode != Value && st.mode != FirstItem
    ensures !Accepts(Step(st, '{'))
    ensures !Accepts(Step(Step(st, '{'), '"'))
  {
  }
}

/** The text of a row: string escaping, the printed object, its parser, and why a line stands alone. */
module Codec {
  import opened Wrappers
  import opened Decimal
  import opened Json
  import opened Rows
  import opened Wire

  // ----- strings

  function HexDigit(d: nat): (c: char)
    requires d < 16
    ensures IsHex(c)
  {
    if d < 10 then '0' + d as char else 'a' + (d - 10) as char
  }

  function HexValue(c: char): (d: nat)
    requires IsHex(c)
    ensures d < 16
  {
    if IsDigit(c) then (c - '0') as nat
    else if c >= 'a' then (c - 'a') as nat + 10
    else (c - 'A') as nat + 10
  }

  /** One character inside a printed string: control characters and the characters HTML treats specially are escaped. */
  function EscapeChar(c: char): (s: string)
    ensures s != []
  {
    if c == '"' || c == '\\' then ['\\', c]
    else if c == '\n' then "\\n"
    else if c == '\r' then "\\r"
    else if c == '\t' then "\\t"
    else if c == 8 as char then "\\b"
    else if c == 12 as char then "\\f"
    else if c < ' ' || c == '<' || c == '>' || c == '&' then
      "\\u00" + [HexDigit(c as int / 16), HexDigit(c as int % 16)]
    else [c]
  }

  function EscapeText(t: string): string {
    if t == [] then [] else EscapeChar(t[0]) + EscapeText(t[1..])
  }

  function Quote(t: string): string {
    ['"'] + EscapeText(t) + ['"']
  }

  /** The character that a backslash and c stand for. */
  function Unescape(c: char): Option<char> {
    if c == '"' || c == '\\' || c == '/' then Some(c)
    else if c == 'n' then Some('\n')
    else if c == 'r' then Some('\r')
    else if c == 't' then Some('\t')
    else if c == 'b' then Some(8 as char)
    else if c == 'f' then Some(12 as char)
    else None
  }

  function Hex4(s: string): Option<char>
    requires |s| == 4
  {
    if !(IsHex(s[0]) && IsHex(s[1]) && IsHex(s[2]) && IsHex(s[3])) then None
    else
      var v := ((HexValue(s[0]) * 16 + HexValue(s[1])) * 16 + HexValue(s[2])) * 16 + HexValue(s[3]);
      if 0xD800 <= v < 0xE000 then None else Some(v as char)
  }

  /** One character of a string's content, and what is left. */
  function ReadChar(s: string): (r: Option<(char, string)>)
    ensures r.Some? ==> |r.value.1| < |s|
  {
    if s == [] || s[0] < ' ' || s[0] == '"' then None
    else if s[0] != '\\' then Some((s[0], s[1..]))
    else if |s| < 2 then None
    else if s[1] == 'u' then
      if |s| < 6 then None
      else match Hex4(s[2..6]) case Some(c) => Some((c, s[6..])) case None => None
    else
      match Unescape(s[1]) case Some(c) => Some((c, s[2..])) case None => None
  }

  /** The rest of a string whose opening quote has been read, and what follows its closing quote. */
  function ReadText(s: string): (r: Option<(string, string)>)
    ensures r.Some? ==> |r.value.1| < |s|
    decreases |s|
  {
    if s != [] && s[0] == '"' then Some(("", s[1..]))
    else
      match ReadChar(s)
      case None => None
      case Some((c, rest)) =>
        match ReadText(rest)
        case None => None
        case Some((t, end)) => Some(([c] + t, end))
  }

  lemma ReadEscapedChar(c: char, rest: string)
    ensures ReadChar(EscapeChar(c) + rest) == Some((c, rest))
    ensures (EscapeChar(c) + rest)[0] != '"'
  {
    var s := EscapeChar(c) + rest;
    assert s[|EscapeChar(c)|..] == rest;
    if |EscapeChar(c)| == 6 {
      assert s[2..6] == ['0', '0', HexDigit(c as int / 16), HexDigit(c as int % 16)];
    }
  }

  lemma {:induction false} ReadQuoted(t: string, rest: string)
    ensures ReadText(EscapeText(t) + ['"'] + rest) == Some((t, rest))
    decreases t
  {
    var s := EscapeText(t) + ['"'] + rest;
    if t == [] {
      assert s == ['"'] + rest;
    } else {
      var more := EscapeText(t[1..]) + ['"'] + rest;
      assert s == EscapeChar(t[0]) + more;
      ReadEscapedChar(t[0], more);
      ReadQuoted(t[1..], rest);
      assert [t[0]] + t[1..] == t;
    }
  }

  // ----- items and members

  function PrintItem(v: Item): (s: string) {
    match v
    case Str(t) => Quote(t)
    case Int(i) => PrintInt(i)
    case Flag(b) => if b then "true" else "false"
    case Ratio(n, d) => "[" + PrintInt(n) + "," + PrintInt(d) + "]"
  }

  function ReadRatio(s: string): Option<(Item, string)> {
    match ReadInt(s)
    case None => None
    case Some((n, r1)) =>
      if r1 == [] || r1[0] != ',' then None
      else
        match ReadInt(r1[1..])
        case None => None
        case Some((d, r2)) => if r2 == [] || r2[0] != ']' then None else Some((Ratio(n, d), r2[1..]))
  }

  function ReadItem(s: string): Option<(Item, string)> {
    if s == [] then None
    else if s[0] == '"' then
      match ReadText(s[1..]) case Some((t, rest)) => Some((Str(t), rest)) case None => None
    else if s[0] == '[' then ReadRatio(s[1..])
    else if "true" <= s then Some((Flag(true), s[4..]))
    else if "false" <= s then Some((Flag(false), s[5..]))
    else match ReadInt(s) case Some((i, rest)) => Some((Int(i), rest)) case None => None
  }

  function PrintMember(m: Member): string {
    Quote(m.0) + ":" + PrintItem(m.1)
  }

  function ReadMember(s: string): Option<(Member, string)> {
    if s == [] || s[0] != '"' then None
    else
      match ReadText(s[1..])
      case None => None
      case Some((key, rest)) =>
        if rest == [] || rest[0] != ':' then None
        else
          match ReadItem(rest[1..])
          case None => None
          case Some((v, end)) => Some(((key, v), end))
  }

  function PrintMembers(ms: seq<Member>): string {
    if ms == [] then ""
    else if |ms| == 1 then PrintMember(ms[0])
    else PrintMember(ms[0]) + "," + PrintMembers(ms[1..])
  }

  /** The members up to the closing brace, which must end the text. */
  function ReadMembers(s: string): Option<seq<Member>>
    decreases |s|
  {
    match ReadMember(s)
    case None => None
    case Some((m, rest)) =>
      if rest == "}" then Some([m])
      else if rest == [] || rest[0] != ',' || |rest| > |s| then None
      else
        match ReadMembers(rest[1..])
        case None => None
        case Some(ms) => Some([m] + ms)
  }

  lemma ReadPrintRatio(n: int, d: int, rest: string)
    ensures ReadRatio(PrintInt(n) + ("," + (PrintInt(d) + ("]" + rest)))) == Some((Ratio(n, d), rest))
  {
    hide ReadInt, PrintInt;
    var r2 := "]" + rest;
    var r1 := "," + (PrintInt(d) + r2);
    ReadPrintInt(n, r1);
    assert r1[1..] == PrintInt(d) + r2;
    ReadPrintInt(d, r2);
    assert r2[1..] == rest;
  }

  /** Concatenation regrouped to the right, as a parser meets it. */
  lemma Regroup(a: string, b: string, c: string, d: string, e: string, f: string)
    ensures a + b + c + d + e + f == a + (b + (c + (d + (e + f))))
  {
    assert a + b + c + d + e + f == a + b + c + d + (e + f);
    assert a + b + c + d + (e + f) == a + b + c + (d + (e + f));
    assert a + b + c + (d + (e + f)) == a + b + (c + (d + (e + f)));
    assert a + b + (c + (d + (e + f))) == a + (b + (c + (d + (e + f))));
  }

  lemma ReadPrintRatioItem(n: int, d: int, rest: string)
    ensures ReadItem(PrintItem(Ratio(n, d)) + rest) == Some((Ratio(n, d), rest))
  {
    hide ReadRatio, PrintInt;
    var body := PrintInt(n) + ("," + (PrintInt(d) + ("]" + rest)));
    ReadPrintRatio(n, d, rest);
    Regroup("[", PrintInt(n), ",", PrintInt(d), "]", rest);
    assert ("[" + body)[1..] == body;
  }

  lemma ReadPrintStr(t: string, rest: string)
    ensures ReadItem(Quote(t) + rest) == Some((Str(t), rest))
  {
    hide ReadText, EscapeText;
    var body := EscapeText(t) + ['"'] + rest;
    ReadQuoted(t, rest);
    assert Quote(t) + rest == ['"'] + body;
    assert (['"'] + body)[1..] == body;
  }

  lemma ReadPrintWord(b: bool, rest: string)
    ensures ReadItem((if b then "true" else "false") + rest) == Some((Flag(b), rest))
  {
    if b {
      var s := "true" + rest;
      assert s[..4] == "true" && s[4..] == rest;
      assert s[0] == 't';
    } else {
      var s := "false" + rest;
      assert s[..5] == "false" && s[5..] == rest;
      assert s[0] == 'f' && !("true" <= s);
    }
  }

  lemma ReadPrintIntItem(i: int, rest: string)
    requires NumberEnds(rest)
    ensures ReadItem(PrintInt(i) + rest) == Some((Int(i), rest))
  {
    var s := PrintInt(i) + rest;
    ReadPrintInt(i, rest);
    assert s[0] == '-' || IsDigit(s[0]);
  }

  lemma ReadPrintItem(v: Item, rest: string)
    requires NumberEnds(rest)
    ensures ReadItem(PrintItem(v) + rest) == Some((v, rest))
  {
    match v {
      case Str(t) => ReadPrintStr(t, rest);
      case Int(i) => ReadPrintIntItem(i, rest);
      case Flag(b) => ReadPrintWord(b, rest);
      case Ratio(n, d) => ReadPrintRatioItem(n, d, rest);
    }
  }

  lemma ReadPrintMember(m: Member, rest: string)
    requires NumberEnds(rest)
    ensures ReadMember(PrintMember(m) + rest) == Some((m, rest))
  {
    hide ReadItem, PrintItem, ReadText, EscapeText;
    var more := ":" + (PrintItem(m.1) + rest);
    var body := EscapeText(m.0) + ['"'] + more;
    Regroup(['"'], EscapeText(m.0), ['"'], ":", PrintItem(m.1), rest);
    assert ['"'] + (EscapeText(m.0) + (['"'] + more)) == ['"'] + body;
    assert (['"'] + body)[1..] == body;
    ReadQuoted(m.0, more);
    assert more[1..] == PrintItem(m.1) + rest;
    ReadPrintItem(m.1, rest);
  }

  lemma {:induction false} ReadPrintMembers(ms: seq<Member>)
    requires ms != []
    ensures ReadMembers(PrintMembers(ms) + "}") == Some(ms)
    decreases ms
  {
    hide ReadMember, PrintMember;
    if |ms| == 1 {
      ReadPrintMember(ms[0], "}");
      assert [ms[0]] == ms;
    } else {
      ReadPrintMembers(ms[1..]);
      ReadPrintMore(ms[0], PrintMembers(ms[1..]) + "}", ms[1..]);
      assert PrintMembers(ms) + "}" == PrintMember(ms[0]) + "," + (PrintMembers(ms[1..]) + "}");
      assert [ms[0]] + ms[1..] == ms;
    }
  }

  lemma ReadPrintMore(m: Member, more: string, ms: seq<Member>)
    requires ReadMembers(more) == Some(ms)
    ensures ReadMembers(PrintMember(m) + "," + more) == Some([m] + ms)
  {
    hide ReadMember, PrintMember;
    var rest := "," + more;
    assert PrintMember(m) + "," + more == PrintMember(m) + rest;
    ReadPrintMember(m, rest);
    assert rest[1..] == more;
  }

  // ----- rows

  function PrintObject(ms: seq<Member>): string {
    "{" + PrintMembers(ms) + "}"
  }

  function SkipSpace(s: string): string {
    if s != [] && IsSpace(s[0]) then SkipSpace(s[1..]) else s
  }

  /** The members of a line, which must be one valid JSON object and nothing else. */
  function ReadObject(line: string): Option<seq<Member>> {
    var s := SkipSpace(line);
    if !Valid(line) || s == [] || s[0] != '{' then None
    else if s == "{}" then Some([])
    else ReadMembers(s[1..])
  }

  /** The line written for a row, without its newline. */
  function Encode(run: Run): string {
    PrintObject(RunMembers(run))
  }

  /** What reading a line yields: nothing unless the whole line is valid JSON and an object of known types. */
  function Decode(line: string): Option<Run> {
    match ReadObject(line)
    case None => None
    case Some(ms) => RunFromMembers(ms)
  }

  // ----- the scanner on printed text

  lemma {:induction false} ScanText(key: bool, stack: seq<Frame>, t: string)
    ensures Json.Run(State(Text(key), stack), EscapeText(t)) == State(Text(key), stack)
    decreases t
  {
    if t != [] {
      ScanChar(key, stack, t[0]);
      RunConcat(State(Text(key), stack), EscapeChar(t[0]), EscapeText(t[1..]));
      ScanText(key, stack, t[1..]);
    }
  }

  lemma ScanUnicode(key: bool, stack: seq<Frame>, s: string)
    requires |s| == 6 && s[..4] == "\\u00" && IsHex(s[4]) && IsHex(s[5])
    ensures Json.Run(State(Text(key), stack), s) == State(Text(key), stack)
  {
    hide Json.Run;
    assert s[0] == '\\' && s[1] == 'u' && s[2] == '0' && s[3] == '0';
    RunAt(State(Text(key), stack), s, 0);
    RunAt(State(Escape(key), stack), s, 1);
    RunAt(State(Hex(key, 4), stack), s, 2);
    RunAt(State(Hex(key, 3), stack), s, 3);
    RunAt(State(Hex(key, 2), stack), s, 4);
    RunAt(State(Hex(key, 1), stack), s, 5);
  }

  lemma RunAt(st: State, s: string, k: nat)
    requires k < |s|
    ensures Json.Run(st, s[k..]) == Json.Run(Step(st, s[k]), s[k + 1..])
    ensures k == 0 ==> s[k..] == s
    ensures k + 1 == |s| ==> Json.Run(st, s[k..]) == Step(st, s[k])
  {
    assert s[k..][1..] == s[k + 1..];
  }

  lemma ScanEscape(key: bool, stack: seq<Frame>, c: char)
    requires c in "\"\\/bfnrt"
    ensures Json.Run(State(Text(key), stack), ['\\', c]) == State(Text(key), stack)
  {
    RunCons(State(Text(key), stack), '\\', [c]);
    RunSnoc(State(Escape(key), stack), [], c);
    assert ['\\', c] == ['\\'] + [c] && [] + [c] == [c];
  }

  lemma ScanChar(key: bool, stack: seq<Frame>, c: char)
    ensures Json.Run(State(Text(key), stack), EscapeChar(c)) == State(Text(key), stack)
  {
    var e := EscapeChar(c);
    if |e| == 1 {
      RunSnoc(State(Text(key), stack), [], c);
      assert [] + [c] == e;
    } else if |e| == 2 {
      assert e == ['\\', e[1]];
      ScanEscape(key, stack, e[1]);
    } else {
      ScanUnicode(key, stack, e);
    }
  }

  lemma CloseQuote(key: bool, stack: seq<Frame>)
    ensures Step(State(Text(key), stack), '"') == State(if key then Colon else After, stack)
  {
  }

  lemma ScanDelimited(key: bool, st: State, e: string)
    requires Step(st, '"') == State(Text(key), st.stack)
    requires Json.Run(State(Text(key), st.stack), e) == State(Text(key), st.stack)
    ensures Json.Run(st, ['"'] + e + ['"']) == State(if key then Colon else After, st.stack)
  {
    hide Json.Run, Step;
    RunSnoc(st, ['"'] + e, '"');
    RunCons(st, '"', e);
    CloseQuote(key, st.stack);
  }

  lemma ScanQuote(key: bool, st: State, t: string)
    requires Step(st, '"') == State(Text(key), st.stack)
    ensures Json.Run(st, Quote(t)) == State(if key then Colon else After, st.stack)
  {
    hide Json.Run, EscapeText;
    ScanText(key, st.stack, t);
    ScanDelimited(key, st, EscapeText(t));
  }

  /** A value has just been read: possibly a number, which the next character will end. */
  predicate ValueRead(st: State, stack: seq<Frame>) {
    st.stack == stack && st.mode in {After, Zero, Digits}
  }

  lemma {:induction false} ScanNat(stack: seq<Frame>, n: nat)
    ensures Json.Run(State(Value, stack), PrintNat(n)) == State(if n == 0 then Zero else Digits, stack)
    ensures Json.Run(State(Minus, stack), PrintNat(n)) == State(if n == 0 then Zero else Digits, stack)
  {
    if n < 10 {
      RunSnoc(State(Value, stack), [], Digit(n));
      RunSnoc(State(Minus, stack), [], Digit(n));
      assert [] + [Digit(n)] == PrintNat(n);
    } else {
      ScanNat(stack, n / 10);
      RunSnoc(State(Value, stack), PrintNat(n / 10), Digit(n % 10));
      RunSnoc(State(Minus, stack), PrintNat(n / 10), Digit(n % 10));
    }
  }

  lemma ScanInt(stack: seq<Frame>, i: int)
    ensures ValueRead(Json.Run(State(Value, stack), PrintInt(i)), stack)
  {
    if i < 0 {
      RunCons(State(Value, stack), '-', PrintNat(-i));
      ScanNat(stack, -i);
    } else {
      ScanNat(stack, i);
    }
  }

  lemma {:induction false} ScanLetters(stack: seq<Frame>, rest: string)
    requires rest != []
    ensures Json.Run(State(Word(rest), stack), rest) == State(After, stack)
    decreases rest
  {
    if |rest| == 1 {
      RunSnoc(State(Word(rest), stack), [], rest[0]);
      assert [] + [rest[0]] == rest;
    } else {
      ScanLetters(stack, rest[1..]);
    }
  }

  lemma ScanWord(stack: seq<Frame>, b: bool)
    ensures Json.Run(State(Value, stack), if b then "true" else "false") == State(After, stack)
  {
    var word := if b then "true" else "false";
    assert Step(State(Value, stack), word[0]) == State(Word(word[1..]), stack);
    ScanLetters(stack, word[1..]);
  }

  lemma ScanRatio(stack: seq<Frame>, n: int, d: int)
    ensures Json.Run(State(Value, stack), PrintItem(Ratio(n, d))) == State(After, stack)
  {
    hide Json.Run, PrintInt;
    var inner := [Arr] + stack;
    var a, b := PrintInt(n), PrintInt(d);
    var st := State(FirstItem, inner);
    assert PrintItem(Ratio(n, d)) == ['['] + (((a + [',']) + b) + [']']);
    RunCons(State(Value, stack), '[', ((a + [',']) + b) + [']']);
    ScanFirstItem(inner, n);
    RunSnoc(st, a, ',');
    RunConcat(st, a + [','], b);
    ScanInt(inner, d);
    RunSnoc(st, (a + [',']) + b, ']');
    assert inner[1..] == stack;
  }

  lemma ScanItem(stack: seq<Frame>, v: Item)
    ensures ValueRead(Json.Run(State(Value, stack), PrintItem(v)), stack)
  {
    match v {
      case Str(t) => ScanQuote(false, State(Value, stack), t);
      case Int(i) => ScanInt(stack, i);
      case Flag(b) => ScanWord(stack, b);
      case Ratio(n, d) => ScanRatio(stack, n, d);
    }
  }

  lemma ScanFirstItem(stack: seq<Frame>, i: int)
    ensures ValueRead(Json.Run(State(FirstItem, stack), PrintInt(i)), stack)
  {
    ScanInt(stack, i);
    var s := PrintInt(i);
    assert s[0] == '-' || IsDigit(s[0]);
    assert Step(State(FirstItem, stack), s[0]) == Step(State(Value, stack), s[0]);
  }

  lemma ScanMember(st: State, m: Member)
    requires st.mode == FirstKey || st.mode == NextKey
    ensures ValueRead(Json.Run(st, PrintMember(m)), st.stack)
  {
    RunConcat(st, Quote(m.0) + ":", PrintItem(m.1));
    RunSnoc(st, Quote(m.0), ':');
    ScanQuote(true, st, m.0);
    ScanItem(st.stack, m.1);
  }

  lemma {:induction false} ScanMembers(st: State, ms: seq<Member>)
    requires ms != [] && st.stack != [] && st.stack[0] == Obj
    requires st.mode == FirstKey || st.mode == NextKey
    ensures ValueRead(Json.Run(st, PrintMembers(ms)), st.stack)
    decreases ms
  {
    hide Json.Run, PrintMember;
    ScanMember(st, ms[0]);
    if |ms| > 1 {
      RunConcat(st, PrintMember(ms[0]) + ",", PrintMembers(ms[1..]));
      RunSnoc(st, PrintMember(ms[0]), ',');
      ScanMembers(State(NextKey, st.stack), ms[1..]);
    }
  }

  lemma ScanObject(stack: seq<Frame>, ms: seq<Member>)
    requires ms != []
    ensures Json.Run(State(Value, stack), PrintObject(ms)) == State(After, stack)
  {
    hide Json.Run, PrintMembers;
    var inner := State(FirstKey, [Obj] + stack);
    var body := PrintMembers(ms);
    assert PrintObject(ms) == ['{'] + (body + ['}']);
    RunCons(State(Value, stack), '{', body + ['}']);
    RunSnoc(inner, body, '}');
    ScanMembers(inner, ms);
    assert inner.stack[1..] == stack;
  }

  // ----- the facts the log rests on

  lemma RunMembersFirst(run: Run)
    ensures RunMembers(run) != [] && RunMembers(run)[0].0 == "timestamp"
  {
  }

  lemma PrintMembersOpens(ms: seq<Member>)
    requires ms != [] && ms[0].0 == "timestamp"
    ensures var s := PrintMembers(ms); |s| >= 2 && s[0] == '"' && s[1] == 't'
  {
    var key := ms[0].0;
    assert EscapeText(key) == EscapeChar('t') + EscapeText(key[1..]);
  }

  lemma ObjectSelfContained(ms: seq<Member>)
    requires ms != [] && ms[0].0 == "timestamp"
    ensures SelfContained(PrintObject(ms))
  {
    PrintMembersOpens(ms);
    forall stack: seq<Frame>
      ensures Json.Run(State(Value, stack), PrintObject(ms)) == State(After, stack)
    {
      ScanObject(stack, ms);
    }
  }

  lemma {:induction false} SkipBlank(blank: string, s: string)
    requires Blank(blank) && s != [] && !IsSpace(s[0])
    ensures SkipSpace(blank + s) == s
    decreases blank
  {
    if blank == [] {
      assert blank + s == s;
    } else {
      assert (blank + s)[1..] == blank[1..] + s;
      SkipBlank(blank[1..], s);
    }
  }

  /** An object is read back, even after white space, but not after anything else. */
  lemma ReadPrintObject(tail: string, ms: seq<Member>)
    requires ms != [] && ms[0].0 == "timestamp"
    ensures ReadObject(tail + PrintObject(ms)) == if Blank(tail) then Some(ms) else None
  {
    hide Valid, PrintMembers, ReadMembers;
    var s := PrintObject(ms);
    ObjectSelfContained(ms);
    JoinedLineValidIff(tail, s);
    if Blank(tail) {
      SkipBlank(tail, s);
      ReadPrintMembers(ms);
      PrintMembersOpens(ms);
      assert s[1..] == PrintMembers(ms) + "}";
    }
  }

  /** Every encoded row stands alone on its line. */
  lemma EncodeSelfContained(run: Run)
    ensures SelfContained(Encode(run))
  {
    RunMembersFirst(run);
    ObjectSelfContained(RunMembers(run));
  }

  /**
   A row written after other text on the same line is read back exactly when that text is white space;
   otherwise nothing is read from the line.
   */
  lemma DecodeJoined(tail: string, run: Run)
    ensures Decode(tail + Encode(run)) == if Blank(tail) then Some(run) else None
  {
    hide ReadObject, PrintObject, RunFromMembers;
    RunMembersFirst(run);
    ReadPrintObject(tail, RunMembers(run));
    RunMembersRoundTrip(run);
  }

  /** Reading back what was written gives the row, for every row. */
  lemma DecodeEncode(run: Run)
    ensures Decode(Encode(run)) == Some(run)
  {
    DecodeJoined("", run);
    assert "" + Encode(run) == Encode(run);
  }

  /** Nothing is read from a line that holds some but not all of a row, whatever stands before it. */
  lemma DecodeTorn(tail: string, run: Run, k: nat)
    requires k < |Encode(run)|
    requires tail == "" || (tail[0] == '{' && k > 0)
    ensures Decode(tail + Encode(run)[..k]) == None
  {
    EncodeSelfContained(run);
    JoinedTornInvalid(tail, Encode(run), k);
  }

  // ----- no control characters

  predicate Printable(s: string) {
    forall i :: 0 <= i < |s| ==> s[i] >= ' '
  }

  lemma {:induction false} EscapePrintable(t: string)
    ensures Printable(EscapeText(t))
  {
    if t != [] {
      EscapePrintable(t[1..]);
    }
  }

  lemma PrintIntPrintable(i: int)
    ensures Printable(PrintInt(i))
  {
  }

  lemma PrintItemPrintable(v: Item)
    ensures Printable(PrintItem(v))
  {
    hide PrintInt, EscapeText;
    match v {
      case Str(t) => EscapePrintable(t);
      case Int(i) => PrintIntPrintable(i);
      case Flag(_) =>
      case Ratio(n, d) => PrintIntPrintable(n); PrintIntPrintable(d);
    }
  }

  lemma PrintMemberPrintable(m: Member)
    ensures Printable(PrintMember(m))
  {
    hide PrintItem, EscapeText;
    EscapePrintable(m.0);
    PrintItemPrintable(m.1);
  }

  lemma {:induction false} PrintMembersPrintable(ms: seq<Member>)
    ensures Printable(PrintMembers(ms))
  {
    if ms != [] {
      PrintMemberPrintable(ms[0]);
      PrintMembersPrintable(ms[1..]);
    }
  }

  lemma ObjectPrintable(ms: seq<Member>)
    ensures Printable(PrintObject(ms))
  {
    PrintMembersPrintable(ms);
  }

  /** An encoded row holds no control character, so in particular no newline and no carriage return. */
  lemma EncodePrintable(run: Run)
    ensures Printable(Encode(run))
  {
    ObjectPrintable(RunMembers(run));
  }
}

/** The log file: newline-framed rows, what the line scanner reads from it, and what a cut-short write leaves behind. */
module Framing {
  import opened Wrappers
  import opened Json
  import opened Rows
  import opened Codec

  /** The scanner refuses a line that does not fit its buffer together with its newline. */
  const MAX_TOKEN := 1024 * 1024

  datatype LogError = TooLong

  /** The finished lines of a file, without their newlines. */
  function Lines(f: string): seq<string> {
    if f == [] then []
    else
      var init := f[..|f| - 1];
      if f[|f| - 1] == '\n' then Lines(init) + [Tail(init)] else Lines(init)
  }

  /** What follows the last newline. */
  function Tail(f: string): string {
    if f == [] || f[|f| - 1] == '\n' then "" else Tail(f[..|f| - 1]) + [f[|f| - 1]]
  }

  /** The lines the scanner hands out, the unfinished last one included. */
  function Tokens(f: string): seq<string> {
    if Tail(f) == "" then Lines(f) else Lines(f) + [Tail(f)]
  }

  predicate AllFit(tokens: seq<string>) {
    forall i :: 0 <= i < |tokens| ==> |tokens[i]| < MAX_TOKEN
  }

  /** Every row is short enough to be read back. */
  predicate RowsFit(runs: seq<Run>) {
    forall i :: 0 <= i < |runs| ==> |Encode(runs[i])| < MAX_TOKEN
  }

  /** The scanner drops one carriage return at the end of a line. */
  function DropCR(t: string): string {
    if t != [] && t[|t| - 1] == '\r' then t[..|t| - 1] else t
  }

  /** What one line contributes: empty and undecodable lines are skipped. */
  function RowsOf(token: string): (rs: seq<Run>)
    ensures |rs| <= 1
  {
    if DropCR(token) == "" then []
    else match Decode(DropCR(token)) case Some(run) => [run] case None => []
  }

  function AllRows(tokens: seq<string>): seq<Run> {
    if tokens == [] then [] else AllRows(tokens[..|tokens| - 1]) + RowsOf(tokens[|tokens| - 1])
  }

  /** What reading the whole file yields. */
  function ReadAll(f: string): Result<seq<Run>, LogError> {
    if AllFit(Tokens(f)) then Ok(AllRows(Tokens(f))) else Err(TooLong)
  }

  function LogLine(run: Run): string {
    Encode(run) + "\n"
  }

  /** The file that holds exactly the given rows. */
  function Frame(runs: seq<Run>): string {
    if runs == [] then "" else Frame(runs[..|runs| - 1]) + LogLine(runs[|runs| - 1])
  }

  // ----- splitting

  predicate NoBreak(s: string) {
    forall i :: 0 <= i < |s| ==> s[i] != '\n'
  }

  lemma SplitNothing()
    ensures Lines("") == [] && Tail("") == "" && AllRows([]) == []
  {
  }

  lemma SplitSnoc(f: string, c: char)
    ensures Lines(f + [c]) == if c == '\n' then Lines(f) + [Tail(f)] else Lines(f)
    ensures Tail(f + [c]) == if c == '\n' then "" else Tail(f) + [c]
  {
    assert (f + [c])[..|f + [c]| - 1] == f;
  }

  lemma {:induction false} SplitText(f: string, s: string)
    requires NoBreak(s)
    ensures Lines(f + s) == Lines(f)
    ensures Tail(f + s) == Tail(f) + s
    decreases |s|
  {
    hide Lines, Tail, NoBreak;
    if s == [] {
      assert f + s == f;
    } else {
      var init, last := s[..|s| - 1], s[|s| - 1];
      NoBreakInit(s);
      SplitText(f, init);
      SplitNext(f, init, last);
      assert s == init + [last];
    }
  }

  lemma NoBreakInit(s: string)
    requires NoBreak(s) && s != []
    ensures NoBreak(s[..|s| - 1]) && s[|s| - 1] != '\n'
  {
  }

  lemma SplitNext(f: string, s: string, c: char)
    requires Lines(f + s) == Lines(f) && Tail(f + s) == Tail(f) + s && c != '\n'
    ensures Lines(f + (s + [c])) == Lines(f) && Tail(f + (s + [c])) == Tail(f) + (s + [c])
  {
    hide Lines, Tail;
    SplitSnoc(f + s, c);
    assert f + s + [c] == f + (s + [c]);
    assert Tail(f) + s + [c] == Tail(f) + (s + [c]);
  }

  lemma SplitLine(f: string, s: string)
    requires NoBreak(s)
    ensures Lines(f + s + "\n") == Lines(f) + [Tail(f) + s]
    ensures Tail(f + s + "\n") == ""
  {
    SplitText(f, s);
    SplitSnoc(f + s, '\n');
  }

  lemma AllRowsSnoc(tokens: seq<string>, t: string)
    ensures AllRows(tokens + [t]) == AllRows(tokens) + RowsOf(t)
  {
    assert (tokens + [t])[..|tokens + [t]| - 1] == tokens;
  }

  lemma EncodeHasNoBreak(run: Run)
    ensures NoBreak(Encode(run))
    ensures forall k :: 0 <= k <= |Encode(run)| ==> NoBreak(Encode(run)[..k])
  {
    EncodePrintable(run);
    hide Encode;
    forall k | 0 <= k <= |Encode(run)|
      ensures NoBreak(Encode(run)[..k])
    {
    }
  }

  // ----- the framing round trip

  /** A file of framed rows ends in a newline (or is empty) and reads back as exactly those rows, in order. */
  lemma {:induction false} FrameRoundTrip(runs: seq<Run>)
    ensures Tail(Frame(runs)) == "" && AllRows(Lines(Frame(runs))) == runs
    decreases |runs|
  {
    hide Encode, RowsOf;
    if runs != [] {
      var k := |runs| - 1;
      FrameRoundTrip(runs[..k]);
      FrameSnoc(runs[..k], runs[k]);
      AllRowsSnoc(Lines(Frame(runs[..k])), Encode(runs[k]));
      RowsOfEncoded(runs[k]);
      assert runs[..k] + [runs[k]] == runs;
    }
  }

  lemma FrameSnoc(runs: seq<Run>, run: Run)
    requires Tail(Frame(runs)) == ""
    ensures Frame(runs + [run]) == Frame(runs) + LogLine(run)
    ensures Lines(Frame(runs + [run])) == Lines(Frame(runs)) + [Encode(run)]
    ensures Tail(Frame(runs + [run])) == ""
  {
    hide Encode;
    assert (runs + [run])[..|runs|] == runs;
    assert Frame(runs) + LogLine(run) == Frame(runs) + Encode(run) + "\n";
    EncodeHasNoBreak(run);
    SplitLine(Frame(runs), Encode(run));
    assert "" + Encode(run) == Encode(run);
  }

  lemma AllFitSnoc(tokens: seq<string>, t: string)
    ensures AllFit(tokens + [t]) <==> AllFit(tokens) && |t| < MAX_TOKEN
  {
    assert (tokens + [t])[|tokens|] == t;
    assert forall i :: 0 <= i < |tokens| ==> (tokens + [t])[i] == tokens[i];
  }

  /** Such a file is readable when every row fits the scanner. */
  lemma FrameFits(runs: seq<Run>)
    requires RowsFit(runs)
    ensures ReadAll(Frame(runs)) == Ok(runs)
  {
    hide Encode, RowsOf, AllRows, Lines, Tail, Frame;
    FrameReadableIff(runs);
    FrameRoundTrip(runs);
  }

  /** A line may end in a carriage return. */
  lemma CarriageReturnDropped(run: Run)
    ensures RowsOf(Encode(run) + "\r") == [run]
  {
    hide Encode, Decode;
    EncodeSelfContained(run);
    DecodeEncode(run);
    assert DropCR(Encode(run) + "\r") == Encode(run);
  }

  lemma RowsOfEncoded(run: Run)
    ensures RowsOf(Encode(run)) == [run]
  {
    hide Encode, Decode;
    EncodeSelfContained(run);
    DecodeEncode(run);
  }

  // ----- what a file says, and what one write does to it

  /** What the unfinished last line amounts to. */
  datatype Ending = Clean | Whole(run: Run) | Junk

  /** A file as the log sees it: the rows on finished lines, and the state of the last line. */
  datatype View = View(rows: seq<Run>, ending: Ending) {
    function Readable(): seq<Run> {
      if ending.Whole? then rows + [ending.run] else rows
    }
  }

  function EndingOf(tail: string): Ending {
    if tail == "" then Clean
    else if RowsOf(tail) == [] then Junk
    else Whole(RowsOf(tail)[0])
  }

  function ViewOf(f: string): View {
    View(AllRows(Lines(f)), EndingOf(Tail(f)))
  }

  lemma ReadAllView(f: string)
    requires AllFit(Tokens(f))
    ensures ReadAll(f) == Ok(ViewOf(f).Readable())
  {
    hide RowsOf, Lines, Tail;
    AllRowsSnoc(Lines(f), Tail(f));
    var rs := RowsOf(Tail(f));
    assert rs == [] || rs == [rs[0]];
    assert AllRows(Lines(f)) + [] == AllRows(Lines(f));
  }

  /** The only unfinished lines the log ever ends in: none, or one that opens a row. */
  predicate TailOpens(f: string) {
    Tail(f) == "" || Tail(f)[0] == '{'
  }

  /** What a file says after k of the n + 1 characters of a row's line have been written behind it. */
  function Appended(v: View, run: Run, k: nat, n: nat): View {
    if k == 0 then v
    else if k > n then View(if v.ending.Clean? then v.rows + [run] else v.rows, Clean)
    else if k == n && v.ending.Clean? then View(v.rows, Whole(run))
    else View(v.rows, Junk)
  }

  /**
   The effect of every possible partial write of a row on every file that can occur. Writing behind a torn line
   loses that line and the row, and nothing else; the finished lines are never touched.
   */
  lemma AppendView(f: string, run: Run, k: nat)
    requires TailOpens(f) && k <= |LogLine(run)|
    ensures var g := f + LogLine(run)[..k];
      && ViewOf(g) == Appended(ViewOf(f), run, k, |Encode(run)|)
      && TailOpens(g)
  {
    hide Encode, Decode, RowsOf, Lines, Tail, AllRows;
    if k == 0 {
      assert f + LogLine(run)[..0] == f;
    } else if k > |Encode(run)| {
      AppendTokens(f, run, k);
      AllRowsSnoc(Lines(f), Tail(f) + Encode(run));
      WholeJoined(Tail(f), run);
      assert AllRows(Lines(f)) + [] == AllRows(Lines(f));
    } else {
      AppendTokens(f, run, k);
      EncodeSelfContained(run);
      assert (Tail(f) + Encode(run)[..k])[0] == '{';
      TailJoined(Tail(f), run, k);
    }
  }

  lemma TailJoined(tail: string, run: Run, k: nat)
    requires 0 < k <= |Encode(run)|
    requires tail == "" || tail[0] == '{'
    ensures EndingOf(tail + Encode(run)[..k]) == if k == |Encode(run)| && tail == "" then Whole(run) else Junk
  {
    hide Encode, RowsOf;
    if k == |Encode(run)| {
      assert Encode(run)[..k] == Encode(run);
      WholeJoined(tail, run);
    } else {
      TornJoined(tail, run, k);
    }
  }

  lemma AppendTokens(f: string, run: Run, k: nat)
    requires k <= |LogLine(run)|
    ensures var g := f + LogLine(run)[..k];
      && Lines(g) == (if k > |Encode(run)| then Lines(f) + [Tail(f) + Encode(run)] else Lines(f))
      && Tail(g) == if k > |Encode(run)| then "" else Tail(f) + Encode(run)[..k]
  {
    hide Encode, Decode;
    var line := Encode(run);
    EncodeHasNoBreak(run);
    if k > |line| {
      assert LogLine(run)[..k] == line + "\n";
      assert f + LogLine(run)[..k] == f + line + "\n";
      SplitLine(f, line);
    } else {
      assert LogLine(run)[..k] == line[..k];
      SplitText(f, line[..k]);
    }
  }

  lemma WholeJoined(tail: string, run: Run)
    requires tail == "" || tail[0] == '{'
    ensures RowsOf(tail + Encode(run)) == if tail == "" then [run] else []
  {
    hide Encode, Decode;
    var t := tail + Encode(run);
    EncodeSelfContained(run);
    DecodeJoined(tail, run);
    assert t[|t| - 1] == '}';
    assert tail != "" ==> !Blank(tail);
  }

  lemma TornJoined(tail: string, run: Run, k: nat)
    requires 0 < k < |Encode(run)|
    requires tail == "" || tail[0] == '{'
    ensures RowsOf(tail + Encode(run)[..k]) == []
  {
    hide Encode, Decode;
    var t := tail + Encode(run)[..k];
    EncodePrintable(run);
    DecodeTorn(tail, run, k);
    assert t[|t| - 1] == Encode(run)[k - 1];
  }

  /**
   From a newline-terminated file, a write cut short at any character leaves either the rows from before or those
   rows and the new one, never anything else; and it is the latter exactly when only the newline may be missing.
   */
  lemma CutShortAppend(f: string, run: Run, k: nat)
    requires Tail(f) == "" && k <= |LogLine(run)|
    requires AllFit(Lines(f)) && |Encode(run)| < MAX_TOKEN
    ensures ReadAll(f).Ok?
    ensures ReadAll(f + LogLine(run)[..k])
         == Ok(if k >= |Encode(run)| then ReadAll(f).value + [run] else ReadAll(f).value)
  {
    hide Encode, RowsOf, AllRows, Lines, Tail;
    EncodeSelfContained(run);
    AppendView(f, run, k);
    AppendFits(f, run, k);
    ReadAllView(f);
    ReadAllView(f + LogLine(run)[..k]);
  }

  lemma AppendFits(f: string, run: Run, k: nat)
    requires k <= |LogLine(run)| && AllFit(Lines(f)) && |Tail(f)| + |Encode(run)| < MAX_TOKEN
    ensures AllFit(Tokens(f + LogLine(run)[..k]))
  {
    hide Encode;
    AppendTokens(f, run, k);
  }

  /**
   An append, complete or cut short after k characters, leaves a readable file exactly when what it has written of the
   line, together with what stood there before, is short enough for the scanner.
   */
  lemma AppendReadableIff(f: string, run: Run, k: nat)
    requires AllFit(Lines(f)) && k <= |LogLine(run)|
    ensures ReadAll(f + LogLine(run)[..k]).Ok?
       <==> |Tail(f)| + (if k < |Encode(run)| then k else |Encode(run)|) < MAX_TOKEN
  {
    hide Encode, Decode, Lines, Tail;
    AppendTokens(f, run, k);
    if k > |Encode(run)| {
      AllFitSnoc(Lines(f), Tail(f) + Encode(run));
    } else {
      AllFitSnoc(Lines(f), Tail(f) + Encode(run)[..k]);
    }
  }

  /** A file of framed rows is readable exactly when every row fits. */
  lemma FrameReadableIff(runs: seq<Run>)
    ensures ReadAll(Frame(runs)).Ok? <==> RowsFit(runs)
  {
    hide Encode, RowsOf, AllRows, Lines, Tail, Frame;
    FrameRoundTrip(runs);
    FrameLines(runs);
  }

  lemma {:induction false} FrameLines(runs: seq<Run>)
    ensures AllFit(Lines(Frame(runs))) <==> RowsFit(runs)
    decreases |runs|
  {
    hide Encode, Lines, Frame, RowsFit, AllFit;
    if runs == [] {
      FrameNothing();
    } else {
      var init, last := runs[..|runs| - 1], runs[|runs| - 1];
      assert init + [last] == runs;
      FrameLines(init);
      FrameLinesSnoc(init, last);
      RowsFitSnoc(init, last);
    }
  }

  lemma FrameLinesSnoc(runs: seq<Run>, run: Run)
    ensures AllFit(Lines(Frame(runs + [run]))) <==> AllFit(Lines(Frame(runs))) && |Encode(run)| < MAX_TOKEN
  {
    hide Encode, Lines, Frame, Tail, AllFit;
    FrameRoundTrip(runs);
    FrameSnoc(runs, run);
    AllFitSnoc(Lines(Frame(runs)), Encode(run));
  }

  lemma FrameNothing()
    ensures AllFit(Lines(Frame([]))) && RowsFit([])
  {
  }

  lemma RowsFitSnoc(runs: seq<Run>, run: Run)
    ensures RowsFit(runs + [run]) <==> RowsFit(runs) && |Encode(run)| < MAX_TOKEN
  {
    hide Encode;
    var all := runs + [run];
    assert all[|runs|] == run && forall i :: 0 <= i < |runs| ==> all[i] == runs[i];
  }

  /** A line that is too long stays so, whatever is written behind it. */
  lemma {:induction false} TooLongForGood(f: string, g: string)
    requires ReadAll(f).Err?
    ensures ReadAll(f + g).Err?
    decreases |g|
  {
    hide Lines, Tail;
    if g == [] {
      assert f + g == f;
    } else {
      var init, last := g[..|g| - 1], g[|g| - 1];
      TooLongForGood(f, init);
      assert f + g == f + init + [last];
      TooLongNext(f + init, last);
    }
  }

  lemma TooLongNext(f: string, c: char)
    requires !AllFit(Tokens(f))
    ensures !AllFit(Tokens(f + [c]))
  {
    hide Lines, Tail;
    SplitSnoc(f, c);
    var t, u := Tokens(f), Tokens(f + [c]);
    var i :| 0 <= i < |t| && |t[i]| >= MAX_TOKEN;
    assert |u[i]| >= MAX_TOKEN;
  }
}

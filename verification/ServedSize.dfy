/**
 When a served log can be read. One row never comes near the scanner's limit, so only torn appends that pile up on one
 line can make the log unreadable; and that many of them do.
 */
module ServedSize {
  import opened Wrappers
  import opened Decimal
  import opened Rows
  import opened Codec
  import opened Framing
  import opened Merge
  import opened Experiments
  import opened App
  import opened CrashLog
  import opened RowSize
  import opened ServedLog
  import opened BlobNames
  import opened TlsListen
  import ResultsLog

  // ----- every served row is small

  /** The numbers a client posts fit 64 bits. */
  predicate MeasuredRequest(q: Request) {
    SmallPhases(q.phases) && Int64(q.meta.sampleIndex)
  }

  ghost predicate MeasuredStep(s: Sys, t: Sys) {
    && (forall run :: BeginAppend(s, t, run) ==> Measured(run))
    && (forall q :: BeginMerge(s, t, q) ==> MeasuredRequest(q))
  }

  /** A run of the server in which numbers fit 64 bits and connections describe themselves in short ASCII texts. */
  ghost predicate MeasuredTrace(ss: seq<Sys>) {
    ServedTrace(ss) && forall i :: 0 <= i < |ss| - 1 ==> MeasuredStep(ss[i], ss[i + 1])
  }

  lemma OperationSmall(s: string)
    requires s in OPERATIONS
    ensures SmallText(s)
  {
  }

  lemma RouteSmall(s: string)
    requires ValidRouteMode(s)
    ensures SmallText(s)
  {
  }

  lemma IdSmall(id: string)
    requires ValidExperimentId(id)
    ensures SmallText(id) && |id| <= 128
  {
  }

  lemma ValidRowSmallNames(run: Run)
    requires ValidRow(run) && SmallText(run.name)
    ensures SmallNames(run)
  {
    OperationSmall(run.operation);
    RouteSmall(run.routeMode);
    if run.experimentId != "" {
      IdSmall(run.experimentId);
    }
    hide SmallText, ValidExperimentId, ValidRouteMode;
    assert run.experimentId == "" ==> SmallText(run.experimentId) by { EmptySmall(); }
  }

  lemma EmptySmall()
    ensures SmallText("")
  {
  }

  lemma ThroughputSmall(run: Run)
    requires Int64(run.bytes) && Int64(run.totalUs) && SmallPhases(PhasesShown(run))
    ensures Int64(Throughput(run).bytes) && Int64(Throughput(run).micros)
  {
  }

  /** A built row has a short name and no client phases yet. */
  lemma BuiltSmall(run: Run)
    requires Built(run)
    ensures SmallText(run.name) && SmallPhases(PhasesShown(run))
  {
    if id, index, mode :| ProbeRun(id, index, mode) == Some(run) {
      IdSmall(id);
      var i := Atoi(index).value;
      PrintIntShort(i);
      hide ValidExperimentId, PrintInt, ParseRouteMode;
    } else {
      assert ValidName(run.name);
    }
  }

  lemma RecordedKeepsPhases(run: Run, info: Info, h: Headers, c: Consumed, now: int)
    ensures PhasesShown(ResultsLog.Stamped(Recorded(run, info, h, c), now)) == PhasesShown(run)
  {
    RecordedPhases(run, info, h, c);
    hide Recorded, Throughput;
  }

  lemma HandlerRowSmall(run: Run)
    requires FromHandler(run) && Measured(run)
    ensures Small(run)
  {
    FromHandlerValid(run);
    var built, info, h, c, now :| Built(built) && run == ResultsLog.Stamped(Recorded(built, info, h, c), now);
    BuiltSmall(built);
    RecordedShows(built, info, h, c, now);
    RecordedKeepsPhases(built, info, h, c, now);
    hide Built, Recorded, SmallText, Throughput, ResultsLog.Stamped, ValidExperimentId, ValidRouteMode;
    ValidRowSmallNames(run);
    ThroughputSmall(run);
  }

  lemma MergedSmall(run: Run, q: Request)
    requires Small(run) && MeasuredRequest(q) && SmallText(q.meta.routeMode) && SmallText(q.meta.experimentId)
    ensures Small(Merged(run, q))
  {
    MergedShowsPhases(run, q);
    MergedShowsMeta(run, q);
    MergedServerSide(run, q);
    hide Merged, Throughput, SmallText, Int64, Matches;
    MergedSampleSmall(run, q);
    MergedPhasesSmall(run, q);
    ThroughputSmall(Merged(run, q));
  }

  lemma MergedSampleSmall(run: Run, q: Request)
    requires Int64(run.sampleIndex) && Int64(q.meta.sampleIndex)
    ensures Int64(Merged(run, q).sampleIndex)
  {
    hide Throughput;
  }

  lemma MergedPhasesSmall(run: Run, q: Request)
    requires SmallPhases(PhasesShown(run)) && SmallPhases(q.phases)
    ensures SmallPhases(PhasesShown(Merged(run, q)))
  {
    MergedShowsPhases(run, q);
    hide Merged, Int64;
  }

  ghost predicate AllSmall(rows: seq<Run>) {
    forall i :: 0 <= i < |rows| ==> Small(rows[i])
  }

  lemma AttemptSmall(rows: seq<Run>, q: Request)
    requires AllSmall(rows) && MeasuredRequest(q) && FromBody(q)
    ensures AllSmall(Attempt(rows, q))
  {
    var body :| MergeRequest(body) == Ok(q);
    RequestValid(body);
    RouteSmall(q.meta.routeMode);
    EmptySmall();
    if q.meta.experimentId != "" {
      IdSmall(q.meta.experimentId);
    }
    hide Small, SmallText, Merged, Matches, MergeRequest, ValidExperimentId, ValidRouteMode, MeasuredRequest;
    forall i | 0 <= i < |rows|
      ensures Small(Merged(rows[i], q))
    {
      MergedSmall(rows[i], q);
    }
  }

  ghost predicate SmallState(s: Sys) {
    && AllSmall(s.view.rows)
    && (s.view.ending.Whole? ==> Small(s.view.ending.run))
    && (s.job.Appending? ==> Small(s.job.run))
    && (s.job.Rewriting? ==> AllSmall(s.job.after))
  }

  lemma MergeStepSmall(s: Sys, t: Sys, q: Request)
    requires Inv(s) && SmallState(s) && BeginMerge(s, t, q) && FromBody(q) && MeasuredRequest(q)
    ensures AllSmall(t.job.after)
  {
    hide Small, Attempt, ViewOf, ReadAll, Tail, Encode, MergeRequest, MeasuredRequest, FromBody;
    BeginMergeInv(s, t, q);
    AttemptSmall(s.view.Readable(), q);
    AttemptIs(s.view.Readable(), q);
  }

  lemma StepSmall(s: Sys, t: Sys)
    requires Inv(s) && SmallState(s) && Step(s, t) && Served(s, t) && MeasuredStep(s, t)
    ensures SmallState(t)
  {
    hide Inv, Small, ViewOf, ReadAll, Tail, Encode, Frame, LogLine, MergeRuns, FromHandler, FromBody, Measured;
    hide MeasuredRequest;
    if run :| BeginAppend(s, t, run) {
      HandlerRowSmall(run);
    } else if q :| BeginMerge(s, t, q) {
      MergeStepSmall(s, t, q);
    }
  }

  lemma {:induction false} TraceSmall(ss: seq<Sys>, i: nat)
    requires MeasuredTrace(ss) && i < |ss|
    ensures SmallState(ss[i])
  {
    hide Step, Served, MeasuredStep, SmallState, Inv;
    if i == 0 {
      EmptyValid(ss[0]);
      EmptySmallState(ss[0]);
    } else {
      TraceSmall(ss, i - 1);
      TraceInv(ss, i - 1);
      assert Step(ss[i - 1], ss[i - 1 + 1]) && Served(ss[i - 1], ss[i - 1 + 1]);
      assert MeasuredStep(ss[i - 1], ss[i - 1 + 1]);
      StepSmall(ss[i - 1], ss[i]);
    }
  }

  lemma EmptySmallState(s: Sys)
    requires s.view == View([], Clean) && s.job == Job.Idle
    ensures SmallState(s)
  {
  }

  // ----- torn appends pile up on the last line

  /** The log as the last finished operation left it. */
  function Settled(s: Sys): string {
    if s.job.Appending? then s.job.before else s.disk.log
  }

  /** How many torn appends the unfinished last line is made of, at most. */
  function TornBehind(ss: seq<Sys>, i: nat): nat
    requires i < |ss|
  {
    if i == 0 || Tail(Settled(ss[i])) == "" then 0
    else TornBehind(ss, i - 1) + if ss[i].torn > ss[i - 1].torn then 1 else 0
  }

  lemma StepTail(s: Sys, t: Sys)
    requires Inv(s) && SmallState(s) && Step(s, t)
    ensures |Tail(Settled(t))| <= |Tail(Settled(s))| + if t.torn > s.torn then MAX_ROW else 0
  {
    hide Small, ViewOf, ReadAll, Tail, Encode, Frame, MergeRuns, LogLine;
    if StopAppend(s, t) {
      StoppedTail(s, t);
    } else if EndAppend(s, t) {
      EndedTail(s, t);
    } else if Rename(s, t) {
      RenameInv(s, t);
      FrameRoundTrip(s.job.after);
    }
  }

  lemma StoppedTail(s: Sys, t: Sys)
    requires Inv(s) && SmallState(s) && StopAppend(s, t)
    ensures |Tail(Settled(t))| <= |Tail(Settled(s))| + if t.torn > s.torn then MAX_ROW else 0
  {
    hide Small, ViewOf, ReadAll, Tail, Encode, Lines;
    var before, run, n := s.job.before, s.job.run, s.job.written;
    EncodeShort(run);
    AppendTokens(before, run, n);
    if n == 0 {
      assert before + LogLine(run)[..0] == before;
    }
  }

  lemma EndedTail(s: Sys, t: Sys)
    requires Inv(s) && EndAppend(s, t)
    ensures Tail(Settled(t)) == ""
  {
    hide ViewOf, ReadAll, Tail, Encode, Lines;
    AppendTokens(s.job.before, s.job.run, s.job.written);
  }

  lemma {:induction false} TailBounded(ss: seq<Sys>, i: nat)
    requires MeasuredTrace(ss) && i < |ss|
    ensures |Tail(Settled(ss[i]))| <= TornBehind(ss, i) * MAX_ROW
  {
    hide Step, Served, MeasuredStep, SmallState, Inv, Tail;
    if i == 0 {
      assert ss[0].job == Job.Idle;
    } else {
      TailBounded(ss, i - 1);
      TraceSmall(ss, i - 1);
      TraceInv(ss, i - 1);
      assert Step(ss[i - 1], ss[i - 1 + 1]);
      StepTail(ss[i - 1], ss[i]);
    }
  }

  /** So many torn appends in a row can never hurt, whatever is in the rows. */
  const MAX_TORN := MAX_TOKEN / MAX_ROW - 1

  lemma MaxTornFits()
    ensures (MAX_TORN + 1) * MAX_ROW < MAX_TOKEN && MAX_TORN == 20
  {
  }

  lemma SmallFits(rows: seq<Run>)
    requires AllSmall(rows)
    ensures RowsFit(rows)
  {
    hide Small, Encode;
    MaxTornFits();
    forall i | 0 <= i < |rows|
      ensures |Encode(rows[i])| < MAX_TOKEN
    {
      EncodeShort(rows[i]);
    }
  }

  lemma TailStaysShort(ss: seq<Sys>, i: nat)
    requires MeasuredTrace(ss) && i < |ss| && TornBehind(ss, i) <= MAX_TORN
    ensures |Tail(Settled(ss[i]))| + MAX_ROW < MAX_TOKEN
  {
    TailBounded(ss, i);
    hide *;
    TornFits(TornBehind(ss, i), |Tail(Settled(ss[i]))|);
  }

  lemma TornFits(torn: nat, length: nat)
    requires torn <= MAX_TORN && length <= torn * MAX_ROW
    ensures length + MAX_ROW < MAX_TOKEN
  {
  }

  lemma AppendFitsBehind(s: Sys, t: Sys)
    requires SmallState(t) && (t.job.Appending? ==> |Tail(t.job.before)| + MAX_ROW < MAX_TOKEN)
    requires s.job.Rewriting? ==> AllSmall(s.job.after)
    ensures StepFits(s, t)
  {
    hide Small, Encode, Tail, Rename, RowsFit;
    if t.job.Appending? {
      EncodeShort(t.job.run);
    }
    if s.job.Rewriting? {
      SmallFits(s.job.after);
    }
  }

  lemma StepStaysReadable(ss: seq<Sys>, i: nat)
    requires MeasuredTrace(ss) && i + 1 < |ss| && TornBehind(ss, i + 1) <= MAX_TORN
    ensures StepFits(ss[i], ss[i + 1])
  {
    TraceSmall(ss, i);
    TraceSmall(ss, i + 1);
    TailStaysShort(ss, i + 1);
    hide MeasuredTrace, AllSmall, Tail, StepFits, TornBehind;
    AppendFitsBehind(ss[i], ss[i + 1]);
  }

  lemma LineAscii(run: Run, k: nat, n: nat)
    requires Small(run) && k <= n <= |LogLine(run)|
    ensures Ascii(LogLine(run)[k..n])
  {
    hide Small, Encode;
    EncodeShort(run);
  }

  lemma {:induction false} FrameAscii(rows: seq<Run>)
    requires AllSmall(rows)
    ensures Ascii(Frame(rows))
    decreases |rows|
  {
    hide Small, LogLine;
    if rows != [] {
      var init, last := rows[..|rows| - 1], rows[|rows| - 1];
      FrameAscii(init);
      LineAscii(last, 0, |LogLine(last)|);
      assert LogLine(last)[0..|LogLine(last)|] == LogLine(last);
    }
  }

  lemma StepAscii(s: Sys, t: Sys)
    requires Inv(s) && SmallState(s) && Step(s, t) && Ascii(s.disk.log)
    ensures Ascii(t.disk.log)
  {
    hide Small, ViewOf, ReadAll, Tail, Encode, Frame, MergeRuns, LogLine, AllSmall;
    if Rename(s, t) {
      RenameInv(s, t);
      FrameAscii(s.job.after);
    } else if n: nat :| WriteSome(s, t, n) {
      LineAscii(s.job.run, s.job.written, n);
    }
  }

  /** A served log is ASCII, torn lines included: its characters are its bytes, for the scanner as for a crash. */
  lemma {:induction false} ServedLogAscii(ss: seq<Sys>, i: nat)
    requires MeasuredTrace(ss) && i < |ss|
    ensures Ascii(ss[i].disk.log)
  {
    hide Step, Served, MeasuredStep, SmallState, Inv, Init;
    if i > 0 {
      ServedLogAscii(ss, i - 1);
      TraceSmall(ss, i - 1);
      TraceInv(ss, i - 1);
      assert Step(ss[i - 1], ss[i - 1 + 1]);
      StepAscii(ss[i - 1], ss[i]);
    }
  }

  /** A served log can be read at every moment before which no more than 20 appends in a row have been torn. */
  lemma {:induction false} ServedLogReadable(ss: seq<Sys>, i: nat)
    requires MeasuredTrace(ss) && i < |ss| && forall k :: 0 <= k <= i ==> TornBehind(ss, k) <= MAX_TORN
    ensures ReadAll(ss[i].disk.log).Ok?
  {
    hide Step, Served, MeasuredStep, TornBehind, StepFits, Inv;
    EmptyReadable();
    forall k | 0 <= k < i
      ensures StepFits(ss[k], ss[k + 1])
    {
      StepStaysReadable(ss, k);
    }
    ReadableIff(ss, i);
  }

  lemma EmptyReadable()
    ensures ReadAll("").Ok?
  {
  }

  // ----- enough of them make the log unreadable

  const SOME_ROW := ResultsLog.Stamped(
    Recorded(BlobRun("upload", "x", 0, 0, 0, 0), Info(false, "", "", "", "", "", 0, ""), Headers("", "", ""),
             Consumed(0, false)), 1)

  lemma SomeRowServed()
    ensures FromHandler(SOME_ROW) && Measured(SOME_ROW)
  {
    var base := BlobRun("upload", "x", 0, 0, 0, 0);
    assert ValidName("x") && "x" != DOT;
    assert Built(base);
    hide Built, Recorded, ResultsLog.Stamped;
  }

  function Braces(n: nat): string {
    seq(n, i => '{')
  }

  /** The state after n appends, each stopped after its first character. */
  ghost predicate TornState(s: Sys, n: nat) {
    s.job == Job.Idle && s.disk.log == Braces(n)
  }

  /** One more append of the row, stopped after its first character, in three steps. */
  lemma OneMoreTorn(s: Sys, n: nat) returns (more: seq<Sys>)
    requires TornState(s, n)
    ensures |more| == 3 && TornState(more[2], n + 1)
    ensures Step(s, more[0]) && Step(more[0], more[1]) && Step(more[1], more[2])
    ensures Served(s, more[0]) && Served(more[0], more[1]) && Served(more[1], more[2])
    ensures MeasuredStep(s, more[0]) && MeasuredStep(more[0], more[1]) && MeasuredStep(more[1], more[2])
  {
    SomeRowServed();
    EncodeSelfContained(SOME_ROW);
    hide Measured, MeasuredRequest, Encode, FromHandler, FromBody, ReadAll, ViewOf, MergeRuns, Recorded;
    hide ResultsLog.Stamped, Frame;
    var run := SOME_ROW;
    var begun := s.(job := Appending(s.disk.log, run, 0));
    assert LogLine(run)[0..1] == "{";
    var written := begun.(disk := s.disk.(log := s.disk.log + LogLine(run)[0..1]),
                          job := Appending(s.disk.log, run, 1));
    var stopped := written.(job := Job.Idle, view := Outcome(written), torn := s.torn + 1);
    assert BeginAppend(s, begun, run);
    assert WriteSome(begun, written, 1);
    assert StopAppend(written, stopped);
    assert Braces(n) + "{" == Braces(n + 1);
    more := [begun, written, stopped];
  }

  lemma {:induction false} TornRun(n: nat) returns (ss: seq<Sys>)
    ensures MeasuredTrace(ss) && TornState(ss[|ss| - 1], n)
  {
    if n == 0 {
      var s := Sys(Disk("", None), Job.Idle, View([], Clean), 0, 0);
      ss := [s];
      InitialState(s);
    } else {
      var before := TornRun(n - 1);
      var more := OneMoreTorn(before[|before| - 1], n - 1);
      ss := before + more;
      hide Step, Served, MeasuredStep, Init, TornState;
      ThreeMoreSteps(before, more);
    }
  }

  lemma InitialState(s: Sys)
    requires s == Sys(Disk("", None), Job.Idle, View([], Clean), 0, 0)
    ensures Init(s) && TornState(s, 0)
  {
    assert Braces(0) == "";
  }

  lemma ThreeMoreSteps(ss: seq<Sys>, more: seq<Sys>)
    requires MeasuredTrace(ss) && |more| == 3
    requires var s := ss[|ss| - 1]; Step(s, more[0]) && Step(more[0], more[1]) && Step(more[1], more[2])
    requires var s := ss[|ss| - 1]; Served(s, more[0]) && Served(more[0], more[1]) && Served(more[1], more[2])
    requires var s := ss[|ss| - 1];
      MeasuredStep(s, more[0]) && MeasuredStep(more[0], more[1]) && MeasuredStep(more[1], more[2])
    ensures MeasuredTrace(ss + more)
  {
    hide Step, Served, MeasuredStep, Init;
    var all, n := ss + more, |ss|;
    assert all[n] == more[0] && all[n + 1] == more[1] && all[n + 2] == more[2] && all[n - 1] == ss[n - 1];
    forall i | 0 <= i < |all| - 1
      ensures Step(all[i], all[i + 1]) && Served(all[i], all[i + 1]) && MeasuredStep(all[i], all[i + 1])
    {
      if i < n - 1 {
        assert all[i] == ss[i] && all[i + 1] == ss[i + 1];
      }
    }
  }

  lemma BracesAre(n: nat)
    ensures |Braces(n)| == n && NoBreak(Braces(n))
  {
  }

  lemma BracesTooLong(n: nat)
    requires n >= MAX_TOKEN
    ensures ReadAll(Braces(n)).Err?
  {
    BracesAre(n);
    hide Lines, Tail, Braces, NoBreak;
    SplitText("", Braces(n));
    SplitNothing();
    assert "" + Braces(n) == Braces(n);
    assert Tokens(Braces(n)) == [Braces(n)];
  }

  /**
   The log can become unreadable for good by nothing but torn appends: a run of the server exists at whose end the log
   cannot be read, though every row in it was short.
   */
  lemma ServedLogCanBecomeUnreadable()
    ensures exists ss: seq<Sys> :: MeasuredTrace(ss) && ReadAll(ss[|ss| - 1].disk.log).Err?
  {
    hide MeasuredTrace, ReadAll, Braces;
    var n: nat :| n == MAX_TOKEN;
    var ss := TornRun(n);
    BracesTooLong(n);
  }
}

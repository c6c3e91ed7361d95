/**
 The log as the running server writes it: crashes and torn writes as in CrashLog, rows only from the handlers, merges
 only from posted bodies. What the handlers promise of one row or one request is carried to every reachable log.
 */
module ServedLog {
  import opened Wrappers
  import opened Rows
  import opened Codec
  import opened Framing
  import opened Merge
  import opened App
  import opened CrashLog
  import opened TlsListen
  import opened Grouping
  import opened BlobNames
  import Curl
  import Experiments
  import Pages
  import Protocol
  import ResultsLog

  /** A row as some handler builds it. */
  ghost predicate Built(run: Run) {
    || (exists id, index, mode :: ProbeRun(id, index, mode) == Some(run))
    || (exists operation, name, bytes, writeUs, readUs, totalUs ::
          operation in {"generate", "upload", "download"} && ValidName(name) && name != DOT
          && run == BlobRun(operation, name, bytes, writeUs, readUs, totalUs))
  }

  /** A row as record hands it to the log, whatever the headers, the connection and the clock say. */
  ghost predicate FromHandler(run: Run) {
    exists built, info, h, c, now :: Built(built) && run == ResultsLog.Stamped(Recorded(built, info, h, c), now)
  }

  ghost predicate FromBody(q: Request) {
    exists body :: MergeRequest(body) == Ok(q)
  }

  ghost predicate Served(s: Sys, t: Sys) {
    && (forall run :: BeginAppend(s, t, run) ==> FromHandler(run))
    && (forall q :: BeginMerge(s, t, q) ==> FromBody(q))
  }

  /** A run of the server from an empty log. */
  ghost predicate ServedTrace(ss: seq<Sys>) {
    && Trace(ss) && ss[0].disk.log == ""
    && forall i :: 0 <= i < |ss| - 1 ==> Served(ss[i], ss[i + 1])
  }

  // ----- every stored row is valid

  ghost predicate AllValid(s: Sys) {
    && ValidRows(s.view.rows)
    && (s.view.ending.Whole? ==> ValidRow(s.view.ending.run))
    && (s.job.Appending? ==> ValidRow(s.job.run))
    && (s.job.Rewriting? ==> ValidRows(s.job.after))
  }

  lemma BuiltValid(run: Run)
    requires Built(run)
    ensures ValidKey(run)
  {
    if id, index, mode :| ProbeRun(id, index, mode) == Some(run) {
      hide Experiments.ValidExperimentId, Experiments.ProbeName;
    }
  }

  lemma FromHandlerValid(run: Run)
    requires FromHandler(run)
    ensures ValidRow(run)
  {
    var built, info, h, c, now :| Built(built) && run == ResultsLog.Stamped(Recorded(built, info, h, c), now);
    hide Recorded, ValidRow, ResultsLog.Stamped, Built;
    BuiltValid(built);
    RecordedValid(built, info, h, c, now);
  }

  lemma ReadableValid(v: View)
    requires ValidRows(v.rows) && (v.ending.Whole? ==> ValidRow(v.ending.run))
    ensures ValidRows(v.Readable())
  {
    hide ValidRow;
  }

  lemma MergeStepValid(s: Sys, t: Sys, q: Request)
    requires Inv(s) && AllValid(s) && BeginMerge(s, t, q) && FromBody(q)
    ensures ValidRows(t.job.after)
  {
    hide ValidRow, Merge.Attempt, ViewOf, ReadAll, Tail, Encode, MergeRequest;
    BeginMergeInv(s, t, q);
    ReadableValid(s.view);
    var body :| MergeRequest(body) == Ok(q);
    AttachValid(s.view.Readable(), body);
    AttemptIs(s.view.Readable(), q);
  }

  lemma AttemptIs(rows: seq<Run>, q: Request)
    requires MergeRuns(rows, q).Ok?
    ensures Attempt(rows, q) == MergeRuns(rows, q).value
  {
  }

  lemma StepValid(s: Sys, t: Sys)
    requires Inv(s) && AllValid(s) && Step(s, t) && Served(s, t)
    ensures AllValid(t)
  {
    hide Inv, ValidRow, ViewOf, ReadAll, Tail, Encode, Frame, LogLine, MergeRuns, FromHandler, FromBody;
    if run :| BeginAppend(s, t, run) {
      FromHandlerValid(run);
    } else if q :| BeginMerge(s, t, q) {
      MergeStepValid(s, t, q);
    }
  }

  lemma {:induction false} TraceValid(ss: seq<Sys>, i: nat)
    requires ServedTrace(ss) && i < |ss|
    ensures AllValid(ss[i])
  {
    hide Step, Served, AllValid, Inv;
    if i == 0 {
      EmptyValid(ss[0]);
    } else {
      TraceValid(ss, i - 1);
      TraceInv(ss, i - 1);
      assert Step(ss[i - 1], ss[i - 1 + 1]) && Served(ss[i - 1], ss[i - 1 + 1]);
      StepValid(ss[i - 1], ss[i]);
    }
  }

  lemma EmptyValid(s: Sys)
    requires Init(s) && s.disk.log == ""
    ensures AllValid(s) && s.view == View([], Clean)
  {
  }

  /**
   In every log the server can reach, through torn writes, crashes and merges, every row that reading returns has valid
   key columns and the throughput that its other columns give.
   */
  lemma StoredRowsValid(ss: seq<Sys>, i: nat)
    requires ServedTrace(ss) && i < |ss| && ReadAll(ss[i].disk.log).Ok?
    ensures ValidRows(ReadAll(ss[i].disk.log).value)
  {
    TraceValid(ss, i);
    ReadableThroughout(ss, i);
    hide ReadAll, ValidRow, ServedTrace, Trace, Encode, Tokens;
    var s := ss[i];
    assert ValidRows(Outcome(s).rows);
    ReadableValid(Outcome(s));
  }

  /** So the dashboard's groups over any page of any such log each show one experiment, operation and route. */
  lemma ServedGroupIsHomogeneous(ss: seq<Sys>, k: nat, limit: int, key: string, i: nat, j: nat)
    requires ServedTrace(ss) && k < |ss| && ReadAll(ss[k].disk.log).Ok? && key != ""
    requires i < |GroupOf(Pages.NewestPage(ReadAll(ss[k].disk.log).value, limit), key)|
    requires j < |GroupOf(Pages.NewestPage(ReadAll(ss[k].disk.log).value, limit), key)|
    ensures var g := GroupOf(Pages.NewestPage(ReadAll(ss[k].disk.log).value, limit), key);
      (g[i].experimentId, g[i].operation, g[i].routeMode) == (g[j].experimentId, g[j].operation, g[j].routeMode)
  {
    StoredRowsValid(ss, k);
    hide ServedTrace, ReadAll, GroupOf, ValidRow;
    var rows := ReadAll(ss[k].disk.log).value;
    PageValid(rows, limit);
    GroupIsHomogeneous(Pages.NewestPage(rows, limit), key, i, j);
  }

  lemma PageValid(rows: seq<Run>, limit: int)
    requires ValidRows(rows)
    ensures ValidRows(Pages.NewestPage(rows, limit))
  {
    hide ValidRow;
  }

  // ----- whose row a client's timings find

  /** No row of the log, and none on its way there, has the key. */
  ghost predicate KeyUnused(s: Sys, key: Protocol.Key) {
    && Protocol.NoRow(s.view.rows, key)
    && (s.view.ending.Whole? ==> !Protocol.HasKey(s.view.ending.run, key))
    && (s.job.Appending? ==> !Protocol.HasKey(s.job.run, key))
    && (s.job.Rewriting? ==> Protocol.NoRow(s.job.after, key))
  }

  /** Exactly the row at p has the key, and none on its way to the log. */
  ghost predicate KeyAt(s: Sys, key: Protocol.Key, p: nat) {
    && Protocol.OwnRow(s.view.rows, key, p)
    && (s.view.ending.Whole? ==> !Protocol.HasKey(s.view.ending.run, key))
    && (s.job.Appending? ==> !Protocol.HasKey(s.job.run, key))
    && (s.job.Rewriting? ==> Protocol.OwnRow(s.job.after, key, p))
  }

  /** The step begins no append of the key, and no merge that could rewrite keys. */
  ghost predicate LeavesKey(s: Sys, t: Sys, key: Protocol.Key) {
    && (forall run :: BeginAppend(s, t, run) ==> !Protocol.HasKey(run, key))
    && (forall q :: BeginMerge(s, t, q) ==> KeepsKeys(q))
  }

  lemma MergeKeepsRows(rows: seq<Run>, q: Request, key: Protocol.Key, p: nat)
    requires KeepsKeys(q) && MergeRuns(rows, q).Ok?
    ensures Protocol.NoRow(rows, key) ==> Protocol.NoRow(MergeRuns(rows, q).value, key)
    ensures Protocol.OwnRow(rows, key, p) ==> Protocol.OwnRow(MergeRuns(rows, q).value, key, p)
  {
    hide MergeRuns, Attempt;
    AttemptIs(rows, q);
    Protocol.AttemptSameKeys(rows, q);
  }

  lemma ReadableKey(v: View, key: Protocol.Key, p: nat)
    requires v.ending.Whole? ==> !Protocol.HasKey(v.ending.run, key)
    ensures Protocol.NoRow(v.rows, key) ==> Protocol.NoRow(v.Readable(), key)
    ensures Protocol.OwnRow(v.rows, key, p) ==> Protocol.OwnRow(v.Readable(), key, p)
  {
    hide Protocol.HasKey;
  }

  lemma StepKeepsUnused(s: Sys, t: Sys, key: Protocol.Key)
    requires Inv(s) && Step(s, t) && LeavesKey(s, t, key) && KeyUnused(s, key)
    ensures KeyUnused(t, key)
  {
    hide Inv, Protocol.HasKey, ViewOf, ReadAll, Tail, Encode, Frame, LogLine, MergeRuns, KeepsKeys;
    if q :| BeginMerge(s, t, q) {
      BeginMergeInv(s, t, q);
      MergeBegun(t);
      ReadableKey(s.view, key, 0);
      MergeKeepsRows(s.view.Readable(), q, key, 0);
    }
  }

  lemma StepKeepsKeyAt(s: Sys, t: Sys, key: Protocol.Key, p: nat)
    requires Inv(s) && Step(s, t) && LeavesKey(s, t, key) && KeyAt(s, key, p)
    ensures KeyAt(t, key, p)
  {
    hide Inv, Protocol.HasKey, ViewOf, ReadAll, Tail, Encode, Frame, LogLine, MergeRuns, KeepsKeys;
    if q :| BeginMerge(s, t, q) {
      BeginMergeInv(s, t, q);
      MergeBegun(t);
      ReadableKey(s.view, key, p);
      MergeKeepsRows(s.view.Readable(), q, key, p);
    }
  }

  lemma MergeBegun(s: Sys)
    requires Inv(s) && s.job.Rewriting?
    ensures MergeRuns(s.view.Readable(), s.job.q) == Ok(s.job.after)
  {
  }

  /** The key's append begins at one step only, and no merge of the run could rewrite keys. */
  ghost predicate KeyedOnce(ss: seq<Sys>, b: nat, key: Protocol.Key) {
    && Trace(ss) && ss[0].disk.log == "" && b + 1 < |ss|
    && (forall i :: 0 <= i < |ss| - 1 && i != b ==> LeavesKey(ss[i], ss[i + 1], key))
    && exists run :: BeginAppend(ss[b], ss[b + 1], run) && Protocol.HasKey(run, key)
  }

  lemma {:induction false} UnusedBefore(ss: seq<Sys>, b: nat, i: nat, key: Protocol.Key)
    requires KeyedOnce(ss, b, key) && i <= b
    ensures KeyUnused(ss[i], key)
  {
    hide Step, LeavesKey, KeyUnused, Inv, BeginAppend;
    if i == 0 {
      EmptyValid(ss[0]);
      EmptyUnused(ss[0], key);
    } else {
      UnusedBefore(ss, b, i - 1, key);
      TraceInv(ss, i - 1);
      assert Step(ss[i - 1], ss[i - 1 + 1]) && LeavesKey(ss[i - 1], ss[i - 1 + 1], key);
      StepKeepsUnused(ss[i - 1], ss[i], key);
    }
  }

  lemma EmptyUnused(s: Sys, key: Protocol.Key)
    requires s.view == View([], Clean) && s.job == Job.Idle
    ensures KeyUnused(s, key)
  {
  }

  /** The key's append is under way. */
  ghost predicate KeyAppending(s: Sys, key: Protocol.Key, p: nat) {
    && s.job.Appending? && Protocol.HasKey(s.job.run, key)
    && |s.view.rows| == p && Protocol.NoRow(s.view.rows, key)
    && (s.view.ending.Whole? ==> !Protocol.HasKey(s.view.ending.run, key))
  }

  /** The key's row stands on the unfinished last line: it lacks only its newline. */
  ghost predicate KeyInEnding(s: Sys, key: Protocol.Key, p: nat) {
    && |s.view.rows| == p && Protocol.NoRow(s.view.rows, key)
    && s.view.ending.Whole? && Protocol.HasKey(s.view.ending.run, key)
    && (s.job.Appending? ==> !Protocol.HasKey(s.job.run, key))
    && (s.job.Rewriting? ==> Protocol.OwnRow(s.job.after, key, p))
  }

  ghost predicate KeySomewhere(s: Sys, key: Protocol.Key, p: nat) {
    KeyUnused(s, key) || KeyAt(s, key, p) || KeyAppending(s, key, p) || KeyInEnding(s, key, p)
  }

  lemma AppendingEnds(s: Sys, t: Sys, key: Protocol.Key, p: nat)
    requires EndAppend(s, t) && KeyAppending(s, key, p)
    ensures if s.view.ending.Clean? then KeyAt(t, key, p) else KeyUnused(t, key)
  {
    hide Protocol.HasKey, Encode;
  }

  lemma AppendingStops(s: Sys, t: Sys, key: Protocol.Key, p: nat)
    requires StopAppend(s, t) && KeyAppending(s, key, p)
    ensures KeySomewhere(t, key, p)
  {
    hide Protocol.HasKey, Encode;
  }

  lemma AppendingStep(s: Sys, t: Sys, key: Protocol.Key, p: nat)
    requires Inv(s) && Step(s, t) && KeyAppending(s, key, p)
    ensures KeySomewhere(t, key, p)
  {
    hide Inv, Protocol.HasKey, ViewOf, ReadAll, Tail, Encode, Frame, MergeRuns, KeyAt, KeyUnused, KeyInEnding;
    if EndAppend(s, t) {
      AppendingEnds(s, t, key, p);
    } else if StopAppend(s, t) {
      AppendingStops(s, t, key, p);
    }
  }

  lemma EndingStep(s: Sys, t: Sys, key: Protocol.Key, p: nat)
    requires Inv(s) && Step(s, t) && LeavesKey(s, t, key) && KeyInEnding(s, key, p)
    ensures KeySomewhere(t, key, p)
  {
    hide Inv, Protocol.HasKey, ViewOf, ReadAll, Tail, Encode, Frame, LogLine, MergeRuns, KeepsKeys;
    if q :| BeginMerge(s, t, q) {
      BeginMergeInv(s, t, q);
      MergeBegun(t);
      MergeKeepsRows(s.view.Readable(), q, key, p);
    }
  }

  lemma StepSomewhere(s: Sys, t: Sys, key: Protocol.Key, p: nat)
    requires Inv(s) && Step(s, t) && LeavesKey(s, t, key) && KeySomewhere(s, key, p)
    ensures KeySomewhere(t, key, p)
  {
    hide Inv, Step, LeavesKey, KeyUnused, KeyAt, KeyAppending, KeyInEnding;
    if KeyUnused(s, key) {
      StepKeepsUnused(s, t, key);
    } else if KeyAt(s, key, p) {
      StepKeepsKeyAt(s, t, key, p);
    } else if KeyAppending(s, key, p) {
      AppendingStep(s, t, key, p);
    } else {
      EndingStep(s, t, key, p);
    }
  }

  lemma {:induction false} SomewhereAfter(ss: seq<Sys>, b: nat, i: nat, key: Protocol.Key)
    requires KeyedOnce(ss, b, key) && i < |ss|
    ensures KeySomewhere(ss[i], key, |ss[b].view.rows|)
    ensures i <= b ==> KeyUnused(ss[i], key)
  {
    hide Step, LeavesKey, KeyAt, KeyAppending, KeyInEnding, KeyUnused, Inv, BeginAppend;
    if i <= b {
      UnusedBefore(ss, b, i, key);
    } else if i == b + 1 {
      UnusedBefore(ss, b, b, key);
      KeyBegins(ss, b, key);
    } else {
      SomewhereAfter(ss, b, i - 1, key);
      TraceInv(ss, i - 1);
      assert Step(ss[i - 1], ss[i - 1 + 1]) && LeavesKey(ss[i - 1], ss[i - 1 + 1], key);
      StepSomewhere(ss[i - 1], ss[i], key, |ss[b].view.rows|);
    }
  }

  lemma KeyBegins(ss: seq<Sys>, b: nat, key: Protocol.Key)
    requires KeyedOnce(ss, b, key) && KeyUnused(ss[b], key)
    ensures KeyAppending(ss[b + 1], key, |ss[b].view.rows|)
  {
    hide Trace, LeavesKey, Protocol.HasKey, Encode;
  }

  lemma SomewhereReadable(s: Sys, key: Protocol.Key, p: nat)
    requires KeySomewhere(s, key, p)
    ensures Protocol.NoRow(Outcome(s).Readable(), key) || Protocol.OwnRow(Outcome(s).Readable(), key, p)
    ensures KeyUnused(s, key) ==> Protocol.NoRow(Outcome(s).Readable(), key)
    ensures KeyAt(s, key, p) ==> Protocol.OwnRow(Outcome(s).Readable(), key, p)
  {
    hide Protocol.HasKey, Encode;
  }

  /** The merge that the client script posts for a sample. */
  function Posted(key: Protocol.Key, mode: string, times: Curl.Times): Request
    requires Protocol.ValidSample(key) && Experiments.ParseRouteMode(mode).Some?
  {
    Protocol.BodyForKey(key, mode, times);
    MergeRequest(Protocol.BodyFor(key, mode, times)).value
  }

  lemma PostedFinds(rows: seq<Run>, key: Protocol.Key, mode: string, times: Curl.Times, p: nat)
    requires Protocol.ValidSample(key) && Experiments.ParseRouteMode(mode).Some?
    ensures Protocol.OwnRow(rows, key, p) ==> FindMergeIndex(rows, Posted(key, mode, times)) == Ok(p)
    ensures Protocol.NoRow(rows, key) ==> FindMergeIndex(rows, Posted(key, mode, times)) == Err(NoMatchingRun)
  {
    hide Protocol.ValidSample, Experiments.ParseRouteMode, MergeRequest, Protocol.HasKey;
    Protocol.BodyForKey(key, mode, times);
    var q := Posted(key, mode, times);
    FindMergeIndexMeaning(rows, q);
    if Protocol.OwnRow(rows, key, p) {
      assert OnlyMatch(rows, q, p);
    }
  }

  /**
   Protocol safety on the bytes: in every run of a crashing log in which a sample's row begins to be appended once,
   timings posted for the sample find, in every readable log, the place its row was meant for or no row at all; never
   another row, and never an ambiguous one.
   */
  lemma TimingsFindOwnRowOrNone(
    ss: seq<Sys>, b: nat, j: nat, key: Protocol.Key, mode: string, times: Curl.Times)
    requires KeyedOnce(ss, b, key) && j < |ss| && ReadAll(ss[j].disk.log).Ok?
    requires Protocol.ValidSample(key) && Experiments.ParseRouteMode(mode).Some?
    ensures FindMergeIndex(ReadAll(ss[j].disk.log).value, Posted(key, mode, times))
            in {Ok(|ss[b].view.rows|), Err(NoMatchingRun)}
  {
    SomewhereAfter(ss, b, j, key);
    ReadableThroughout(ss, j);
    hide ReadAll, KeyedOnce, KeySomewhere, Posted, Tokens, Encode;
    SomewhereReadable(ss[j], key, |ss[b].view.rows|);
    PostedFinds(Outcome(ss[j]).Readable(), key, mode, times, |ss[b].view.rows|);
  }

  lemma {:induction false} SettledAfter(ss: seq<Sys>, b: nat, i: nat, j: nat, key: Protocol.Key, p: nat)
    requires KeyedOnce(ss, b, key) && b < i <= j < |ss|
    ensures KeyAt(ss[i], key, p) ==> KeyAt(ss[j], key, p)
    ensures KeyUnused(ss[i], key) ==> KeyUnused(ss[j], key)
    decreases j
  {
    hide Step, LeavesKey, KeyAt, KeyUnused, Inv, BeginAppend;
    if i < j {
      SettledAfter(ss, b, i, j - 1, key, p);
      TraceInv(ss, j - 1);
      assert Step(ss[j - 1], ss[j - 1 + 1]) && LeavesKey(ss[j - 1], ss[j - 1 + 1], key);
      if KeyAt(ss[j - 1], key, p) {
        StepKeepsKeyAt(ss[j - 1], ss[j], key, p);
      }
      if KeyUnused(ss[j - 1], key) {
        StepKeepsUnused(ss[j - 1], ss[j], key);
      }
    }
  }

  /**
   And once its append has been acknowledged, the sample's timings find exactly its own row in every later readable
   log, through any crashes, if and only if the log ended cleanly when the append began; otherwise they find no row.
   */
  lemma AcknowledgedTimingsFindOwnRow(
    ss: seq<Sys>, b: nat, i: nat, j: nat, key: Protocol.Key, mode: string, times: Curl.Times)
    requires KeyedOnce(ss, b, key) && i < j < |ss| && ReadAll(ss[j].disk.log).Ok?
    requires EndAppend(ss[i], ss[i + 1]) && Protocol.HasKey(ss[i].job.run, key)
    requires Protocol.ValidSample(key) && Experiments.ParseRouteMode(mode).Some?
    ensures FindMergeIndex(ReadAll(ss[j].disk.log).value, Posted(key, mode, times))
         == if ss[i].view.ending.Clean? then Ok(|ss[i].view.rows|) else Err(NoMatchingRun)
  {
    var p := |ss[b].view.rows|;
    LandedOrLost(ss, b, i, j, key);
    ReadableThroughout(ss, j);
    hide ReadAll, KeyedOnce, KeyUnused, KeyAt, Posted, Tokens, Encode, EndAppend, Protocol.HasKey;
    SomewhereReadable(ss[j], key, p);
    PostedFinds(Outcome(ss[j]).Readable(), key, mode, times, p);
  }

  lemma LandedOrLost(ss: seq<Sys>, b: nat, i: nat, j: nat, key: Protocol.Key)
    requires KeyedOnce(ss, b, key) && i < j < |ss|
    requires EndAppend(ss[i], ss[i + 1]) && Protocol.HasKey(ss[i].job.run, key)
    ensures |ss[i].view.rows| == |ss[b].view.rows|
    ensures if ss[i].view.ending.Clean? then KeyAt(ss[j], key, |ss[b].view.rows|) else KeyUnused(ss[j], key)
  {
    var p := |ss[b].view.rows|;
    SomewhereAfter(ss, b, i, key);
    assert i > b && KeyAppending(ss[i], key, p);
    hide KeyedOnce, KeyUnused, KeyAt, Protocol.HasKey, Encode;
    AppendingEnds(ss[i], ss[i + 1], key, p);
    SettledAfter(ss, b, i + 1, j, key, p);
  }
}

/**
 The measurement protocol: a client has a sample recorded, then posts its curl timings for the same (operation,
 experiment, sample index). Any number of samples, of any number of clients, run interleaved with each other and with
 unrelated traffic.
 */
module Protocol {
  import opened Wrappers
  import opened Decimal
  import opened Rows
  import opened Merge
  import opened Experiments
  import opened TlsListen
  import opened App
  import Curl
  import ResultsLog

  /** What identifies a sample. Clients use different experiment ids; within one, indices and operations differ. */
  datatype Key = Key(operation: string, experimentId: string, sampleIndex: int)

  predicate ValidSample(key: Key) {
    && key.operation in {"handshake", "upload", "download"}
    && ValidExperimentId(key.experimentId)
    && 0 < key.sampleIndex < 0x8000_0000_0000_0000
  }

  predicate HasKey(run: Run, key: Key) {
    run.operation == key.operation && run.experimentId == key.experimentId && run.sampleIndex == key.sampleIndex
  }

  // ----- what the client sends and what the server makes of it

  /** The script's headers: a probe carries its key in the query string, a blob transfer in headers. */
  function HeadersFor(key: Key, mode: string): Headers {
    if key.operation == "handshake" then Headers("", "", "")
    else Headers(mode, key.experimentId, PrintInt(key.sampleIndex))
  }

  /** The row the handler starts from; a probe's parameters are in its URL. */
  function HandlerRow(key: Key, mode: string, measured: Run): Run {
    if key.operation == "handshake" then
      match ProbeRun(key.experimentId, PrintInt(key.sampleIndex), mode) case Some(run) => run case None => ZERO_RUN
    else
      BlobRun(key.operation, measured.name, measured.bytes, measured.writeUs, measured.readUs, measured.totalUs)
  }

  function RowFor(key: Key, mode: string, measured: Run, info: Info, c: Consumed, now: int): Run {
    ResultsLog.Stamped(Recorded(HandlerRow(key, mode, measured), info, HeadersFor(key, mode), c), now)
  }

  /** The body that submit_timings posts. */
  function BodyFor(key: Key, mode: string, times: Curl.Times): Body {
    Timings(key.operation, ProbeName(key.experimentId, key.sampleIndex), mode, key.experimentId, key.sampleIndex,
            times)
  }

  /** The recorded row carries the sample's key, by whichever way the key travelled. */
  lemma RowForKey(key: Key, mode: string, measured: Run, info: Info, c: Consumed, now: int)
    requires ValidSample(key) && ParseRouteMode(mode).Some?
    ensures HasKey(RowFor(key, mode, measured, info, c, now), key)
  {
    hide Throughput, ValidExperimentId, ParseRouteMode, Atoi, PrintInt, ProbeName;
    AtoiPrintInt(key.sampleIndex);
    assert Atoi("") == None by { EmptyIsNoNumber(); }
  }

  lemma EmptyIsNoNumber()
    ensures Atoi("") == None
  {
  }

  /** The posted body is accepted whatever its times are, and asks to merge into rows with the sample's key. */
  lemma BodyForKey(key: Key, mode: string, times: Curl.Times)
    requires ValidSample(key) && ParseRouteMode(mode).Some?
    ensures var r := MergeRequest(BodyFor(key, mode, times));
      && r.Ok? && r.value.phases == Curl.StoredPhases(times) && KeepsKeys(r.value)
      && forall run :: Matches(run, r.value) <==> HasKey(run, key)
  {
    hide ValidExperimentId, ParseRouteMode, PrintInt;
    assert ProbeName(key.experimentId, key.sampleIndex) != "";
    ValidIdNotEmpty(key.experimentId);
  }

  lemma ValidIdNotEmpty(id: string)
    requires ValidExperimentId(id)
    ensures id != ""
  {
  }

  // ----- the machine

  /**
   A sample under way. recorded: where its row stands in the log. answered: the client has its response. outcome: what
   the timings request returned, as the matched position or the error. failed: its append has failed and left no row.
   */
  datatype Sample = Sample(
    recorded: Option<nat>, answered: bool, outcome: Option<Result<nat, MergeError>>, failed: bool := false)

  datatype Sys = Sys(log: seq<Run>, samples: map<Key, Sample>)

  ghost predicate Begin(s: Sys, t: Sys, key: Key) {
    && key !in s.samples && ValidSample(key)
    && (forall i :: 0 <= i < |s.log| ==> !HasKey(s.log[i], key))
    && t == s.(samples := s.samples[key := Sample(None, false, None)])
  }

  /** Probe and upload record before they reply; a download may record on either side of the client's last byte. */
  ghost predicate RecordRow(s: Sys, t: Sys, key: Key, row: Run) {
    && key in s.samples && s.samples[key].recorded == None && !s.samples[key].failed
    && (key.operation != "download" ==> !s.samples[key].answered)
    && (exists mode, measured, info, c, now ::
          ParseRouteMode(mode).Some? && row == RowFor(key, mode, measured, info, c, now))
    && t == Sys(s.log + [row], s.samples[key := s.samples[key].(recorded := Some(|s.log|))])
  }

  /** The server only notes a failed append; the request goes on. */
  ghost predicate RecordFails(s: Sys, t: Sys, key: Key) {
    && key in s.samples && s.samples[key].recorded == None
    && (key.operation != "download" ==> !s.samples[key].answered)
    && t == s.(samples := s.samples[key := s.samples[key].(failed := true)])
  }

  ghost predicate Answer(s: Sys, t: Sys, key: Key) {
    && key in s.samples && !s.samples[key].answered
    && (key.operation != "download" ==> s.samples[key].recorded.Some? || s.samples[key].failed)
    && t == s.(samples := s.samples[key := s.samples[key].(answered := true)])
  }

  ghost predicate Post(s: Sys, t: Sys, key: Key, mode: string, times: Curl.Times) {
    && key in s.samples && s.samples[key].answered && s.samples[key].outcome == None
    && ParseRouteMode(mode).Some? && ValidSample(key)
    && MergeRequest(BodyFor(key, mode, times)).Ok?
    && var q := MergeRequest(BodyFor(key, mode, times)).value;
    && t == Sys(Attempt(s.log, q),
                s.samples[key := s.samples[key].(outcome := Some(FindMergeIndex(s.log, q)))])
  }

  /** Rows of other experiments, and rows without one. */
  ghost predicate OtherRow(s: Sys, t: Sys, row: Run) {
    && (forall key :: key in s.samples ==> !HasKey(row, key))
    && t == s.(log := s.log + [row])
  }

  /** Merges posted by anyone else, as long as they cannot rewrite a key. */
  ghost predicate OtherMerge(s: Sys, t: Sys, q: Request) {
    KeepsKeys(q) && t == s.(log := Attempt(s.log, q))
  }

  ghost predicate Step(s: Sys, t: Sys) {
    || t == s
    || (exists key :: Begin(s, t, key))
    || (exists key, row :: RecordRow(s, t, key, row))
    || (exists key :: RecordFails(s, t, key))
    || (exists key :: Answer(s, t, key))
    || (exists key, mode, times :: Post(s, t, key, mode, times))
    || (exists row :: OtherRow(s, t, row))
    || (exists q :: OtherMerge(s, t, q))
  }

  // ----- the invariant

  /** Row p, and no other, carries the key. */
  predicate OwnRow(log: seq<Run>, key: Key, p: nat) {
    p < |log| && forall i :: 0 <= i < |log| ==> (HasKey(log[i], key) <==> i == p)
  }

  predicate NoRow(log: seq<Run>, key: Key) {
    forall i :: 0 <= i < |log| ==> !HasKey(log[i], key)
  }

  ghost predicate SampleInv(log: seq<Run>, key: Key, x: Sample) {
    && ValidSample(key)
    && match x.recorded { case None => NoRow(log, key) case Some(p) => OwnRow(log, key, p) }
    && (x.failed ==> x.recorded == None)
    && (key.operation != "download" && x.answered ==> x.recorded.Some? || x.failed)
    && match x.outcome
       case None => true
       case Some(r) =>
         && x.answered
         && (|| (x.recorded.Some? && r == Ok(x.recorded.value))
             || ((key.operation == "download" || x.failed) && r == Err(NoMatchingRun)))
  }

  ghost predicate Inv(s: Sys) {
    forall key :: key in s.samples ==> SampleInv(s.log, key, s.samples[key])
  }

  predicate SameKeys(a: seq<Run>, b: seq<Run>) {
    |a| == |b| && forall i :: 0 <= i < |a| ==>
      a[i].operation == b[i].operation && a[i].experimentId == b[i].experimentId && a[i].sampleIndex == b[i].sampleIndex
  }

  lemma AttemptSameKeys(log: seq<Run>, q: Request)
    requires KeepsKeys(q)
    ensures SameKeys(Attempt(log, q), log)
  {
    hide Throughput;
    FindMergeIndexMeaning(log, q);
    if FindMergeIndex(log, q).Ok? {
      assert OnlyMatch(log, q, FindMergeIndex(log, q).value);
    }
  }

  lemma SameKeysInv(a: seq<Run>, b: seq<Run>, key: Key, x: Sample)
    requires SameKeys(b, a) && SampleInv(a, key, x)
    ensures SampleInv(b, key, x)
  {
    assert forall i :: 0 <= i < |a| ==> (HasKey(b[i], key) <==> HasKey(a[i], key));
  }

  lemma GrowInv(log: seq<Run>, row: Run, key: Key, x: Sample)
    requires SampleInv(log, key, x) && !HasKey(row, key)
    ensures SampleInv(log + [row], key, x)
  {
    hide ValidSample;
  }

  lemma RecordRowInv(s: Sys, t: Sys, key: Key, row: Run)
    requires Inv(s) && RecordRow(s, t, key, row)
    ensures Inv(t)
  {
    hide ValidSample, RowFor;
    var mode, measured, info, c, now :|
      ParseRouteMode(mode).Some? && row == RowFor(key, mode, measured, info, c, now);
    assert SampleInv(s.log, key, s.samples[key]);
    RowForKey(key, mode, measured, info, c, now);
    forall k | k in t.samples
      ensures SampleInv(t.log, k, t.samples[k])
    {
      assert SampleInv(s.log, k, s.samples[k]);
      if k != key {
        GrowInv(s.log, row, k, s.samples[k]);
      }
    }
  }

  /**
   What a timings request finds: its own row when that has been recorded, and no row before; never anything ambiguous.
   The sample's key may be that of any operation.
   */
  lemma PostFinds(log: seq<Run>, key: Key, x: Sample, mode: string, times: Curl.Times)
    requires SampleInv(log, key, x) && ParseRouteMode(mode).Some?
    ensures MergeRequest(BodyFor(key, mode, times)).Ok?
    ensures var q := MergeRequest(BodyFor(key, mode, times)).value;
      && FindMergeIndex(log, q) == (match x.recorded case Some(p) => Ok(p) case None => Err(NoMatchingRun))
      && KeepsKeys(q)
      && (x.recorded.Some? ==> Attempt(log, q) == log[x.recorded.value := Merged(log[x.recorded.value], q)])
  {
    hide ValidSample, MergeRequest, ParseRouteMode;
    BodyForKey(key, mode, times);
    var q := MergeRequest(BodyFor(key, mode, times)).value;
    FindMergeIndexMeaning(log, q);
    match x.recorded {
      case Some(p) => assert OnlyMatch(log, q, p);
      case None => assert NoMatch(log, q);
    }
  }

  lemma PostInv(s: Sys, t: Sys, key: Key, mode: string, times: Curl.Times)
    requires Inv(s) && Post(s, t, key, mode, times)
    ensures Inv(t)
  {
    hide ValidSample, MergeRequest, ParseRouteMode, Attempt, SampleInv;
    var q := MergeRequest(BodyFor(key, mode, times)).value;
    assert SampleInv(s.log, key, s.samples[key]);
    PostFinds(s.log, key, s.samples[key], mode, times);
    AttemptSameKeys(s.log, q);
    OutcomeInv(s.log, key, s.samples[key], FindMergeIndex(s.log, q));
    forall k | k in t.samples
      ensures SampleInv(t.log, k, t.samples[k])
    {
      assert SampleInv(s.log, k, t.samples[k]);
      SameKeysInv(s.log, t.log, k, t.samples[k]);
    }
  }

  lemma OutcomeInv(log: seq<Run>, key: Key, x: Sample, r: Result<nat, MergeError>)
    requires SampleInv(log, key, x) && x.answered
    requires r == match x.recorded case Some(p) => Ok(p) case None => Err(NoMatchingRun)
    ensures SampleInv(log, key, x.(outcome := Some(r)))
  {
    hide ValidSample, HasKey;
  }

  lemma OtherInv(s: Sys, t: Sys)
    requires Inv(s)
    requires (exists row :: OtherRow(s, t, row)) || (exists q :: OtherMerge(s, t, q))
    ensures Inv(t)
  {
    hide ValidSample, Attempt, SampleInv, HasKey;
    forall k | k in t.samples
      ensures SampleInv(t.log, k, t.samples[k])
    {
      assert SampleInv(s.log, k, s.samples[k]);
      if row :| OtherRow(s, t, row) {
        GrowInv(s.log, row, k, s.samples[k]);
      } else {
        var q :| OtherMerge(s, t, q);
        AttemptSameKeys(s.log, q);
        SameKeysInv(s.log, t.log, k, s.samples[k]);
      }
    }
  }

  lemma BeginAnswerInv(s: Sys, t: Sys, key: Key)
    requires Inv(s) && (Begin(s, t, key) || RecordFails(s, t, key) || Answer(s, t, key))
    ensures Inv(t)
  {
    hide ValidSample, HasKey;
    forall k | k in t.samples
      ensures SampleInv(t.log, k, t.samples[k])
    {
      if k in s.samples {
        assert SampleInv(s.log, k, s.samples[k]);
      }
    }
  }

  lemma StepInv(s: Sys, t: Sys)
    requires Inv(s) && Step(s, t)
    ensures Inv(t)
  {
    hide Inv;
    if key :| Begin(s, t, key) {
      BeginAnswerInv(s, t, key);
    } else if key, row :| RecordRow(s, t, key, row) {
      RecordRowInv(s, t, key, row);
    } else if key :| RecordFails(s, t, key) {
      BeginAnswerInv(s, t, key);
    } else if key :| Answer(s, t, key) {
      BeginAnswerInv(s, t, key);
    } else if key, mode, times :| Post(s, t, key, mode, times) {
      PostInv(s, t, key, mode, times);
    } else if t != s {
      OtherInv(s, t);
    }
  }

  // ----- whole runs

  ghost predicate Trace(ss: seq<Sys>) {
    && ss != [] && ss[0].samples == map[]
    && forall i :: 0 <= i < |ss| - 1 ==> Step(ss[i], ss[i + 1])
  }

  lemma {:induction false} TraceInv(ss: seq<Sys>, i: nat)
    requires Trace(ss) && i < |ss|
    ensures Inv(ss[i])
  {
    hide Step;
    if i > 0 {
      hide Inv;
      TraceInv(ss, i - 1);
      assert Step(ss[i - 1], ss[i - 1 + 1]);
      StepInv(ss[i - 1], ss[i]);
    }
  }

  /**
   Over every interleaving, the timings of every probe and every upload reach exactly that sample's own row, and are
   never found ambiguous; they are refused for want of a row if and only if the append of that very row has failed.
   */
  lemma OwnRowAlways(ss: seq<Sys>, i: nat, key: Key)
    requires Trace(ss) && i < |ss| && key in ss[i].samples && key.operation != "download"
    requires ss[i].samples[key].outcome.Some?
    ensures var x := ss[i].samples[key];
      && (x.failed <==> x.outcome == Some(Err(NoMatchingRun)))
      && (!x.failed ==>
            x.recorded.Some? && x.outcome == Some(Ok(x.recorded.value)) && OwnRow(ss[i].log, key, x.recorded.value))
  {
    TraceInv(ss, i);
    assert SampleInv(ss[i].log, key, ss[i].samples[key]);
  }

  /**
   For any operation, timings posted in a reachable state succeed exactly when the sample's row has been recorded by
   then, and then that row shows all the client's phases. For a download that is an assumption about timing, not a fact.
   */
  lemma PostSucceedsIff(ss: seq<Sys>, i: nat, key: Key, mode: string, times: Curl.Times)
    requires Trace(ss) && i + 1 < |ss| && Post(ss[i], ss[i + 1], key, mode, times)
    ensures var x, y := ss[i].samples[key], ss[i + 1].samples[key];
      && (y.outcome == Some(Err(NoMatchingRun)) <==> x.recorded == None)
      && (x.recorded.Some? ==>
            && y.outcome == Some(Ok(x.recorded.value)) && x.recorded.value < |ss[i + 1].log|
            && var before, after := ss[i].log[x.recorded.value], ss[i + 1].log[x.recorded.value];
            && var posted := Curl.StoredPhases(times);
            && PhasesShown(after)
               == posted.(handshakeUs := if posted.handshakeUs > 0 then posted.handshakeUs else before.handshakeUs))
  {
    hide ValidSample, MergeRequest, ParseRouteMode, Throughput, Attempt;
    TraceInv(ss, i);
    assert SampleInv(ss[i].log, key, ss[i].samples[key]);
    PostFinds(ss[i].log, key, ss[i].samples[key], mode, times);
    BodyForKey(key, mode, times);
    if ss[i].samples[key].recorded.Some? {
      MergedShowsPhases(ss[i].log[ss[i].samples[key].recorded.value], MergeRequest(BodyFor(key, mode, times)).value);
    }
  }

  /**
   From curl's clock to the stored row: a posted timeline ends up in the sample's own row as phases that add up, in
   whole microseconds, to the client's total, less the wait between set-up and the start of the transfer.
   */
  lemma PostedTimelineAddsUp(ss: seq<Sys>, i: nat, key: Key, mode: string, times: Curl.Times)
    requires Trace(ss) && i + 1 < |ss| && Post(ss[i], ss[i + 1], key, mode, times)
    requires Curl.Timeline(times) && ss[i].samples[key].recorded.Some?
    ensures ss[i].samples[key].recorded.value < |ss[i + 1].log|
    ensures var row := ss[i + 1].log[ss[i].samples[key].recorded.value];
            var handshakeUs := Curl.StoredPhases(times).handshakeUs;
      && (handshakeUs > 0 ==> row.handshakeUs == handshakeUs)
      && row.dnsUs + row.tcpUs + handshakeUs + row.ttfbUs + row.transferUs
         == row.clientTotalUs - (Curl.Micros(times.pretransfer) - Curl.Micros(Curl.SetUp(times)))
  {
    PostSucceedsIff(ss, i, key, mode, times);
    Curl.StoredPhasesConserveTotal(times);
    hide Post, Trace, Curl.StoredPhases, Curl.Timeline;
  }

  const NO_TIMES := Curl.Times(0.0, 0.0, 0.0, 0.0, 0.0, 0.0, 0.0)

  const LOST: Option<Result<nat, MergeError>> := Some(Err(NoMatchingRun))

  /** A download's client can be faster than the server's record: its timings are refused and its row stays bare. */
  lemma DownloadCanLoseTimings(key: Key)
    requires ValidSample(key) && key.operation == "download"
    ensures exists ss: seq<Sys> ::
              && Trace(ss) && |ss| == 5 && key in ss[4].samples
              && ss[4].samples[key].outcome == LOST && ss[4].samples[key].recorded == Some(0)
  {
    hide Step, Trace;
    var row := RowFor(key, "", ZERO_RUN, Info(false, "", "", "", "", "", 0, ""), Consumed(0, false), 1);
    LostRecord(key, row);
    LostTrace(key, row);
  }

  function LostStates(key: Key, row: Run): seq<Sys> {
    [Sys([], map[]),
     Sys([], map[key := Sample(None, false, None)]),
     Sys([], map[key := Sample(None, true, None)]),
     Sys([], map[key := Sample(None, true, LOST)]),
     Sys([row], map[key := Sample(Some(0), true, LOST)])]
  }

  lemma LostTrace(key: Key, row: Run)
    requires ValidSample(key) && key.operation == "download"
    requires Step(LostStates(key, row)[3], LostStates(key, row)[4])
    ensures Trace(LostStates(key, row))
  {
    hide Step, ValidSample;
    LostBegin(key);
    LostAnswer(key);
    LostPost(key);
  }

  lemma LostBegin(key: Key)
    requires ValidSample(key)
    ensures Step(Sys([], map[]), Sys([], map[key := Sample(None, false, None)]))
  {
    hide ValidSample;
    assert Begin(Sys([], map[]), Sys([], map[key := Sample(None, false, None)]), key);
  }

  lemma LostAnswer(key: Key)
    requires key.operation == "download"
    ensures Step(Sys([], map[key := Sample(None, false, None)]), Sys([], map[key := Sample(None, true, None)]))
  {
    var s := Sys([], map[key := Sample(None, false, None)]);
    assert s.samples[key := Sample(None, true, None)] == map[key := Sample(None, true, None)];
    assert Answer(s, Sys([], map[key := Sample(None, true, None)]), key);
  }

  lemma LostPost(key: Key)
    requires ValidSample(key)
    ensures Step(Sys([], map[key := Sample(None, true, None)]), Sys([], map[key := Sample(None, true, LOST)]))
  {
    hide ValidSample, Post;
    EarlyPost(Sys([], map[key := Sample(None, true, None)]), Sys([], map[key := Sample(None, true, LOST)]), key);
  }

  lemma LostRecord(key: Key, row: Run)
    requires key.operation == "download"
    requires exists mode, measured, info, c, now ::
               ParseRouteMode(mode).Some? && row == RowFor(key, mode, measured, info, c, now)
    ensures Step(Sys([], map[key := Sample(None, true, LOST)]), Sys([row], map[key := Sample(Some(0), true, LOST)]))
  {
    hide RowFor;
    var s := Sys([], map[key := Sample(None, true, LOST)]);
    assert s.samples[key := Sample(Some(0), true, LOST)] == map[key := Sample(Some(0), true, LOST)];
    assert [] + [row] == [row];
    assert RecordRow(s, Sys([row], map[key := Sample(Some(0), true, LOST)]), key, row);
  }

  lemma EarlyPost(s: Sys, t: Sys, key: Key)
    requires s == Sys([], map[key := Sample(None, true, None)]) && ValidSample(key)
    requires t == Sys([], map[key := Sample(None, true, LOST)])
    ensures Post(s, t, key, "", NO_TIMES)
  {
    hide ValidSample, MergeRequest, ParseRouteMode;
    EmptyModeParses();
    BodyForKey(key, "", NO_TIMES);
  }

  lemma EmptyModeParses()
    ensures ParseRouteMode("") == Some("")
  {
  }
}

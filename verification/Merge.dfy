/** Attaching a client's curl phases to the one row they belong to. */
module Merge {
  import opened Wrappers
  import opened Rows

  datatype MergeError = NoMatchingRun | AmbiguousRun

  datatype Meta = Meta(routeMode: string, experimentId: string, sampleIndex: int)

  /** A merge request as the logger receives it. */
  datatype Request = Request(name: string, operation: string, phases: Phases, meta: Meta)

  predicate Matches(run: Run, q: Request) {
    && run.operation == q.operation
    && (if q.meta.experimentId != ""
        then run.experimentId == q.meta.experimentId && run.sampleIndex == q.meta.sampleIndex
        else run.name == q.name)
  }

  /** The only matching position, or why there is none. */
  function FindMergeIndex(runs: seq<Run>, q: Request): (r: Result<nat, MergeError>)
    ensures r.Ok? ==> r.value < |runs|
  {
    if runs == [] then Err(NoMatchingRun)
    else
      var last := |runs| - 1;
      var before := FindMergeIndex(runs[..last], q);
      if !Matches(runs[last], q) then before
      else if before == Err(NoMatchingRun) then Ok(last)
      else Err(AmbiguousRun)
  }

  function ApplyPhases(run: Run, p: Phases): Run {
    var r := run.(dnsUs := p.dnsUs, tcpUs := p.tcpUs, redirectUs := p.redirectUs, ttfbUs := p.ttfbUs,
                  transferUs := p.transferUs, clientTotalUs := p.clientTotalUs);
    if p.handshakeUs > 0 then r.(handshakeUs := p.handshakeUs) else r
  }

  function ApplyMeta(run: Run, meta: Meta): Run {
    var r1 := if meta.routeMode != "" then run.(routeMode := meta.routeMode) else run;
    var r2 := if meta.experimentId != "" then r1.(experimentId := meta.experimentId) else r1;
    if meta.sampleIndex > 0 then r2.(sampleIndex := meta.sampleIndex) else r2
  }

  function Merged(run: Run, q: Request): Run {
    var r := ApplyMeta(ApplyPhases(run, q.phases), q.meta);
    r.(throughput := Throughput(r))
  }

  /** The rows after a merge. */
  function MergeRuns(runs: seq<Run>, q: Request): (r: Result<seq<Run>, MergeError>)
    ensures r.Ok? ==> |r.value| == |runs|
  {
    match FindMergeIndex(runs, q)
    case Ok(i) => Ok(runs[i := Merged(runs[i], q)])
    case Err(e) => Err(e)
  }

  /** The rows after an attempted merge: a refused merge changes nothing. */
  function Attempt(runs: seq<Run>, q: Request): (rs: seq<Run>)
    ensures |rs| == |runs|
  {
    match MergeRuns(runs, q) case Ok(rs) => rs case Err(_) => runs
  }

  // ----- exactly one match

  predicate OnlyMatch(runs: seq<Run>, q: Request, i: nat) {
    i < |runs| && Matches(runs[i], q) && forall j :: 0 <= j < |runs| && j != i ==> !Matches(runs[j], q)
  }

  predicate NoMatch(runs: seq<Run>, q: Request) {
    forall i :: 0 <= i < |runs| ==> !Matches(runs[i], q)
  }

  predicate TwoMatches(runs: seq<Run>, q: Request) {
    exists i, j :: 0 <= i < j < |runs| && Matches(runs[i], q) && Matches(runs[j], q)
  }

  lemma {:induction false} FindMergeIndexMeaning(runs: seq<Run>, q: Request)
    ensures forall i: nat :: FindMergeIndex(runs, q) == Ok(i) <==> OnlyMatch(runs, q, i)
    ensures FindMergeIndex(runs, q) == Err(NoMatchingRun) <==> NoMatch(runs, q)
    ensures FindMergeIndex(runs, q) == Err(AmbiguousRun) <==> TwoMatches(runs, q)
    decreases |runs|
  {
    hide Matches;
    if runs != [] {
      var last := |runs| - 1;
      var init := runs[..last];
      FindMergeIndexMeaning(init, q);
      assert forall i :: 0 <= i < last ==> init[i] == runs[i];
      match FindMergeIndex(init, q) {
        case Ok(k) =>
          assert OnlyMatch(init, q, k);
          if Matches(runs[last], q) {
            assert k < last && Matches(runs[k], q);
          }
        case Err(NoMatchingRun) =>
          assert NoMatch(init, q);
        case Err(AmbiguousRun) =>
          var i, j :| 0 <= i < j < |init| && Matches(init[i], q) && Matches(init[j], q);
          assert Matches(runs[i], q) && Matches(runs[j], q);
      }
    }
  }

  // ----- what a merge keeps

  /** The columns the server measured itself, and what names the row. */
  predicate SameServerSide(a: Run, b: Run) {
    && a.timestamp == b.timestamp && a.operation == b.operation && a.name == b.name && a.bytes == b.bytes
    && a.tls == b.tls && a.clientAddr == b.clientAddr && a.writeUs == b.writeUs && a.readUs == b.readUs
    && a.totalUs == b.totalUs && a.tlsVersion == b.tlsVersion && a.cipher == b.cipher
    && a.keyAlgorithm == b.keyAlgorithm && a.keySize == b.keySize && a.keyCurve == b.keyCurve
    && a.serverHandshakeUs == b.serverHandshakeUs && a.reused == b.reused && a.alpn == b.alpn
  }

  lemma PhasesServerSide(run: Run, p: Phases)
    ensures SameServerSide(ApplyPhases(run, p), run)
  {
  }

  lemma MetaServerSide(run: Run, meta: Meta)
    ensures SameServerSide(ApplyMeta(run, meta), run)
  {
    var r1 := if meta.routeMode != "" then run.(routeMode := meta.routeMode) else run;
    var r2 := if meta.experimentId != "" then r1.(experimentId := meta.experimentId) else r1;
    assert SameServerSide(r1, run);
    assert SameServerSide(r2, r1);
    assert SameServerSide(ApplyMeta(run, meta), r2);
  }

  lemma MergedServerSide(run: Run, q: Request)
    ensures SameServerSide(Merged(run, q), run)
  {
    hide Throughput, ApplyPhases, ApplyMeta;
    PhasesServerSide(run, q.phases);
    MetaServerSide(ApplyPhases(run, q.phases), q.meta);
  }

  /** A merge succeeds exactly when one row matches; then only that row changes, and only on the client's side. */
  lemma MergeExact(runs: seq<Run>, q: Request)
    ensures MergeRuns(runs, q).Ok? <==> exists i: nat :: OnlyMatch(runs, q, i)
    ensures MergeRuns(runs, q).Ok? ==>
              forall i :: 0 <= i < |runs| ==>
                && SameServerSide(MergeRuns(runs, q).value[i], runs[i])
                && (!Matches(runs[i], q) ==> MergeRuns(runs, q).value[i] == runs[i])
    ensures MergeRuns(runs, q).Err? ==> Attempt(runs, q) == runs
  {
    hide Matches, Merged, FindMergeIndex;
    FindMergeIndexMeaning(runs, q);
    if FindMergeIndex(runs, q).Ok? {
      var k := FindMergeIndex(runs, q).value;
      assert OnlyMatch(runs, q, k);
      MergedServerSide(runs[k], q);
    }
  }

  /** The client's phases are what the row then shows; a handshake of 0 leaves the earlier one in place. */
  lemma MergedShowsPhases(run: Run, q: Request)
    ensures var r := Merged(run, q);
      && PhasesShown(r)
         == q.phases.(handshakeUs := if q.phases.handshakeUs > 0 then q.phases.handshakeUs else run.handshakeUs)
      && r.throughput == Throughput(r)
  {
  }

  /** The request's route, experiment and sample replace the row's where they say anything; nothing else changes. */
  lemma MergedShowsMeta(run: Run, q: Request)
    ensures var r, m := Merged(run, q), q.meta;
      && r.routeMode == (if m.routeMode == "" then run.routeMode else m.routeMode)
      && r.experimentId == (if m.experimentId == "" then run.experimentId else m.experimentId)
      && r.sampleIndex == (if m.sampleIndex <= 0 then run.sampleIndex else m.sampleIndex)
      && (m.experimentId != "" && Matches(run, q) ==>
            (r.experimentId, r.sampleIndex) == (run.experimentId, run.sampleIndex))
  {
    hide Throughput;
  }

  // ----- repeating a merge

  lemma PhasesPresent(r: Run, p: Phases)
    requires r.dnsUs == p.dnsUs && r.tcpUs == p.tcpUs && r.redirectUs == p.redirectUs && r.ttfbUs == p.ttfbUs
    requires r.transferUs == p.transferUs && r.clientTotalUs == p.clientTotalUs
    requires p.handshakeUs > 0 ==> r.handshakeUs == p.handshakeUs
    ensures ApplyPhases(r, p) == r
  {
  }

  lemma PhasesAgain(run: Run, q: Request)
    ensures ApplyPhases(Merged(run, q), q.phases) == Merged(run, q)
  {
    hide Throughput, ApplyPhases;
    MergedShowsPhases(run, q);
    PhasesPresent(Merged(run, q), q.phases);
  }

  lemma MetaAgain(run: Run, q: Request)
    ensures ApplyMeta(Merged(run, q), q.meta) == Merged(run, q)
  {
    hide Throughput, ApplyPhases;
    MetaTwice(ApplyPhases(run, q.phases), q.meta, Throughput(ApplyMeta(ApplyPhases(run, q.phases), q.meta)));
  }

  lemma MetaTwice(run: Run, meta: Meta, rate: Rate)
    ensures var r := ApplyMeta(run, meta).(throughput := rate); ApplyMeta(r, meta) == r
  {
  }

  lemma ThroughputIgnoresItself(run: Run, rate: Rate)
    ensures Throughput(run.(throughput := rate)) == Throughput(run)
  {
  }

  lemma MergedTwice(run: Run, q: Request)
    ensures Merged(Merged(run, q), q) == Merged(run, q)
  {
    hide Throughput, ApplyPhases, ApplyMeta;
    var r := ApplyMeta(ApplyPhases(run, q.phases), q.meta);
    PhasesAgain(run, q);
    MetaAgain(run, q);
    ThroughputIgnoresItself(r, Throughput(r));
  }

  lemma MergedStillMatches(run: Run, q: Request)
    requires Matches(run, q)
    ensures Matches(Merged(run, q), q)
  {
  }

  /** Repeating a merge leaves the same log, for every log and every request. */
  lemma MergeIdempotent(runs: seq<Run>, q: Request)
    requires MergeRuns(runs, q).Ok?
    ensures MergeRuns(MergeRuns(runs, q).value, q) == MergeRuns(runs, q)
  {
    hide Matches, Merged, FindMergeIndex;
    var after := MergeRuns(runs, q).value;
    var i := FindMergeIndex(runs, q).value;
    FindMergeIndexMeaning(runs, q);
    assert OnlyMatch(runs, q, i);
    MergedStillMatches(runs[i], q);
    FindMergeIndexMeaning(after, q);
    assert OnlyMatch(after, q, i);
    assert FindMergeIndex(after, q) == Ok(i);
    MergedTwice(runs[i], q);
    assert after[i := after[i]] == after;
  }

  // ----- independent merges

  /** The merge cannot change any row's key: it names an experiment, or carries no sample index. */
  predicate KeepsKeys(q: Request) {
    q.meta.experimentId != "" || q.meta.sampleIndex <= 0
  }

  lemma MergedKeepsMatches(run: Run, q: Request, other: Request)
    requires KeepsKeys(q) && Matches(run, q)
    ensures Matches(Merged(run, q), other) <==> Matches(run, other)
  {
  }

  /** No row of the log is a match for both requests. */
  predicate Apart(runs: seq<Run>, q1: Request, q2: Request) {
    forall i :: 0 <= i < |runs| ==> !(Matches(runs[i], q1) && Matches(runs[i], q2))
  }

  lemma AttemptKeepsMatches(runs: seq<Run>, q: Request, other: Request)
    requires KeepsKeys(q)
    ensures forall i :: 0 <= i < |runs| ==> (Matches(Attempt(runs, q)[i], other) <==> Matches(runs[i], other))
    ensures FindMergeIndex(Attempt(runs, q), other) == FindMergeIndex(runs, other)
  {
    FindMergeIndexMeaning(runs, q);
    var after := Attempt(runs, q);
    var r := FindMergeIndex(runs, q);
    if r.Ok? {
      assert OnlyMatch(runs, q, r.value);
      MergedKeepsMatches(runs[r.value], q, other);
    }
    SameMatchesSameIndex(runs, after, other);
  }

  lemma {:induction false} SameMatchesSameIndex(a: seq<Run>, b: seq<Run>, q: Request)
    requires |a| == |b| && forall i :: 0 <= i < |a| ==> (Matches(a[i], q) <==> Matches(b[i], q))
    ensures FindMergeIndex(a, q) == FindMergeIndex(b, q)
    decreases |a|
  {
    if a != [] {
      SameMatchesSameIndex(a[..|a| - 1], b[..|b| - 1], q);
    }
  }

  /** Merges that keep keys and target different rows give the same log in either order. */
  lemma MergesCommute(runs: seq<Run>, q1: Request, q2: Request)
    requires KeepsKeys(q1) && KeepsKeys(q2) && Apart(runs, q1, q2)
    ensures Attempt(Attempt(runs, q1), q2) == Attempt(Attempt(runs, q2), q1)
  {
    AttemptKeepsMatches(runs, q1, q2);
    AttemptKeepsMatches(runs, q2, q1);
    FindMergeIndexMeaning(runs, q1);
    FindMergeIndexMeaning(runs, q2);
    var r1, r2 := FindMergeIndex(runs, q1), FindMergeIndex(runs, q2);
    if r1.Ok? {
      assert OnlyMatch(runs, q1, r1.value);
    }
    if r2.Ok? {
      assert OnlyMatch(runs, q2, r2.value);
    }
  }

  /** In particular, merges for different (operation, experiment, sample) keys commute on every log. */
  lemma DifferentKeysCommute(runs: seq<Run>, q1: Request, q2: Request)
    requires q1.meta.experimentId != "" && q2.meta.experimentId != ""
    requires (q1.operation, q1.meta.experimentId, q1.meta.sampleIndex)
          != (q2.operation, q2.meta.experimentId, q2.meta.sampleIndex)
    ensures Attempt(Attempt(runs, q1), q2) == Attempt(Attempt(runs, q2), q1)
  {
    MergesCommute(runs, q1, q2);
  }

  /** q commutes, on every log, with every merge that keeps keys and has no matching row in common with it. */
  ghost predicate CommutesWithAll(q: Request) {
    forall runs: seq<Run>, other: Request :: KeepsKeys(other) && Apart(runs, other, q) ==>
      Attempt(Attempt(runs, other), q) == Attempt(Attempt(runs, q), other)
  }

  /** Keeping keys is not only enough but also needed. */
  lemma CommutesIffKeepsKeys(q: Request)
    ensures CommutesWithAll(q) <==> KeepsKeys(q)
  {
    hide Matches, Attempt, Apart;
    if KeepsKeys(q) {
      forall runs: seq<Run>, other: Request | KeepsKeys(other) && Apart(runs, other, q)
        ensures Attempt(Attempt(runs, other), q) == Attempt(Attempt(runs, q), other)
      {
        MergesCommute(runs, other, q);
      }
    } else {
      NameKeyedMergeDoesNotCommute(q);
    }
  }

  /** Every merge by name that carries a sample index rewrites some row's key, and then the order matters. */
  lemma NameKeyedMergeDoesNotCommute(q: Request)
    requires !KeepsKeys(q)
    ensures exists runs: seq<Run>, other: Request ::
              && KeepsKeys(other) && Apart(runs, other, q)
              && Attempt(Attempt(runs, other), q) != Attempt(Attempt(runs, q), other)
  {
    var index := q.meta.sampleIndex;
    var row := ZERO_RUN.(operation := q.operation, name := q.name, experimentId := "e", sampleIndex := index + 1);
    var p := q.phases.(clientTotalUs := q.phases.clientTotalUs + 1);
    var other := Request(q.name, q.operation, p, Meta("", "e", index));
    assert !Matches(row, other) && Matches(row, q) && KeepsKeys(other);
    assert Matches(Merged(row, q), other);
    hide Matches;
    FindInOne(row, other);
    FindInOne(row, q);
    FindInOne(Merged(row, q), other);
    var runs := [row];
    assert Attempt(runs, other) == runs && Attempt(runs, q) == [Merged(row, q)];
    assert Attempt([Merged(row, q)], other) == [Merged(Merged(row, q), other)];
    MergedShowsPhases(Merged(row, q), other);
    MergedShowsPhases(row, q);
    assert Apart(runs, other, q);
  }

  lemma FindInOne(row: Run, q: Request)
    ensures FindMergeIndex([row], q) == if Matches(row, q) then Ok(0) else Err(NoMatchingRun)
  {
    hide Matches;
    assert [row][..0] == [];
  }

  // ----- the derived column

  /** Every row's throughput is the one its other columns give. */
  predicate Derived(runs: seq<Run>) {
    forall i :: 0 <= i < |runs| ==> runs[i].throughput == Throughput(runs[i])
  }

  lemma AttemptDerived(runs: seq<Run>, q: Request)
    requires Derived(runs)
    ensures Derived(Attempt(runs, q))
  {
    hide Throughput, FindMergeIndex;
    forall i | 0 <= i < |runs|
      ensures Attempt(runs, q)[i].throughput == Throughput(Attempt(runs, q)[i])
    {
      MergedShowsPhases(runs[i], q);
    }
  }

  // ----- the loop

  /** The scan over the rows: it remembers the last match and counts them all. */
  method FindIndex(runs: seq<Run>, q: Request) returns (r: Result<nat, MergeError>)
    ensures r == FindMergeIndex(runs, q)
    ensures r.Ok? ==> OnlyMatch(runs, q, r.value)
  {
    var idx, matches, i := -1, 0, 0;
    while i < |runs|
      invariant 0 <= i <= |runs| && 0 <= matches
      invariant matches == 0 <==> FindMergeIndex(runs[..i], q) == Err(NoMatchingRun)
      invariant matches == 1 <==> FindMergeIndex(runs[..i], q).Ok?
      invariant matches == 1 ==> 0 <= idx < i && FindMergeIndex(runs[..i], q) == Ok(idx)
    {
      var run := runs[i];
      assert runs[..i + 1][..i] == runs[..i];
      if Matches(run, q) {
        idx := i;
        matches := matches + 1;
      }
      i := i + 1;
    }
    assert runs[..i] == runs;
    FindMergeIndexMeaning(runs, q);
    ghost var whole := FindMergeIndex(runs, q);
    assert whole.Ok? || whole == Err(NoMatchingRun) || whole == Err(AmbiguousRun) by {
      match whole { case Ok(_) => case Err(e) => match e { case NoMatchingRun => case AmbiguousRun => } }
    }
    if matches == 0 {
      r := Err(NoMatchingRun);
    } else if matches == 1 {
      r := Ok(idx);
    } else {
      r := Err(AmbiguousRun);
    }
  }
}

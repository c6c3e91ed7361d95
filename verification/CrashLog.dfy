/**
 The log under crashes. Every write goes out in pieces of any size; the process may stop (or the write fail) after any
 of them; what is already in the files stays, and a rename takes effect in one step.
 */
module CrashLog {
  import opened Wrappers
  import opened Rows
  import opened Codec
  import opened Framing
  import opened Merge

  datatype Disk = Disk(log: string, temp: Option<string>)

  /** What the process is in the middle of. `before` is the log when the append began. */
  datatype Job =
    | Idle
    | Appending(before: string, run: Run, written: nat)
    | Rewriting(after: seq<Run>, q: Request, written: nat)

  /**
   view: what the log said when no job was running last. acked: appends that returned without an error.
   torn: appends that were stopped with part of their line in the file.
   */
  datatype Sys = Sys(disk: Disk, job: Job, view: View, acked: nat, torn: nat)

  ghost predicate Init(s: Sys) {
    && Tail(s.disk.log) == ""
    && s.job == Idle && s.view == ViewOf(s.disk.log) && s.acked == 0 && s.torn == 0
  }

  // ----- the steps

  ghost predicate BeginAppend(s: Sys, t: Sys, run: Run) {
    && s.job == Idle
    && t == s.(job := Appending(s.disk.log, run, 0))
  }

  ghost predicate WriteSome(s: Sys, t: Sys, n: nat) {
    && s.job.Appending? && s.job.written < n <= |LogLine(s.job.run)|
    && t == s.(disk := s.disk.(log := s.disk.log + LogLine(s.job.run)[s.job.written..n]),
               job := Appending(s.job.before, s.job.run, n))
  }

  /** What the log will be said to hold once the running append is over. */
  function Outcome(s: Sys): View {
    if s.job.Appending? then Appended(s.view, s.job.run, s.job.written, |Encode(s.job.run)|) else s.view
  }

  ghost predicate EndAppend(s: Sys, t: Sys) {
    && s.job.Appending? && s.job.written == |LogLine(s.job.run)|
    && t == s.(job := Idle, view := Outcome(s), acked := s.acked + 1)
  }

  ghost predicate StopAppend(s: Sys, t: Sys) {
    && s.job.Appending?
    && t == s.(job := Idle, view := Outcome(s),
               torn := s.torn + if 0 < s.job.written < |LogLine(s.job.run)| then 1 else 0)
  }

  ghost predicate BeginMerge(s: Sys, t: Sys, q: Request) {
    && s.job == Idle
    && ReadAll(s.disk.log).Ok?
    && MergeRuns(ReadAll(s.disk.log).value, q).Ok?
    && t == s.(disk := s.disk.(temp := Some("")),
               job := Rewriting(MergeRuns(ReadAll(s.disk.log).value, q).value, q, 0))
  }

  ghost predicate WriteTemp(s: Sys, t: Sys, n: nat) {
    && s.job.Rewriting? && s.job.written < n <= |Frame(s.job.after)| && s.disk.temp.Some?
    && t == s.(disk := s.disk.(temp := Some(s.disk.temp.value + Frame(s.job.after)[s.job.written..n])),
               job := Rewriting(s.job.after, s.job.q, n))
  }

  ghost predicate Rename(s: Sys, t: Sys) {
    && s.job.Rewriting? && s.job.written == |Frame(s.job.after)| && s.disk.temp.Some?
    && t == s.(disk := Disk(s.disk.temp.value, None), job := Idle, view := View(s.job.after, Clean))
  }

  /** A crash leaves the temporary file behind; a failed write removes it. */
  ghost predicate StopMerge(s: Sys, t: Sys) {
    && s.job.Rewriting?
    && exists temp :: temp in {s.disk.temp, None} && t == s.(disk := s.disk.(temp := temp), job := Idle)
  }

  /** Reads, refused merges and merges of an unreadable log change nothing. */
  ghost predicate Step(s: Sys, t: Sys) {
    || t == s
    || (exists run :: BeginAppend(s, t, run))
    || (exists n :: WriteSome(s, t, n))
    || EndAppend(s, t)
    || StopAppend(s, t)
    || (exists q :: BeginMerge(s, t, q))
    || (exists n :: WriteTemp(s, t, n))
    || Rename(s, t)
    || StopMerge(s, t)
  }

  // ----- the invariant

  ghost predicate Inv(s: Sys) {
    && TailOpens(s.disk.log)
    && ViewOf(s.disk.log) == Outcome(s)
    && match s.job
       case Idle => true
       case Appending(before, run, written) =>
         && TailOpens(before) && ViewOf(before) == s.view
         && written <= |LogLine(run)| && s.disk.log == before + LogLine(run)[..written]
       case Rewriting(after, q, written) =>
         && written <= |Frame(after)| && s.disk.temp == Some(Frame(after)[..written])
         && ReadAll(s.disk.log).Ok? && MergeRuns(s.view.Readable(), q) == Ok(after)
  }

  lemma InitInv(s: Sys)
    requires Init(s)
    ensures Inv(s)
  {
  }

  lemma WriteSomeInv(s: Sys, t: Sys, n: nat)
    requires Inv(s) && WriteSome(s, t, n)
    ensures Inv(t)
  {
    hide TailOpens, ViewOf, LogLine, Encode;
    var line, before := LogLine(s.job.run), s.job.before;
    assert line[..n] == line[..s.job.written] + line[s.job.written..n];
    assert t.disk.log == before + line[..n];
    AppendView(before, s.job.run, n);
  }

  lemma BeginAppendInv(s: Sys, t: Sys, run: Run)
    requires Inv(s) && BeginAppend(s, t, run)
    ensures Inv(t)
  {
    hide TailOpens, ViewOf, Encode;
    assert s.disk.log + LogLine(run)[..0] == s.disk.log;
  }

  lemma BeginMergeInv(s: Sys, t: Sys, q: Request)
    requires Inv(s) && BeginMerge(s, t, q)
    ensures Inv(t)
  {
    ReadAllView(s.disk.log);
    hide ViewOf, Encode, Lines, Tail, AllRows, RowsOf, Frame, ReadAll, MergeRuns;
    var after := t.job.after;
    assert Frame(after)[..0] == "";
  }

  lemma WriteTempInv(s: Sys, t: Sys, n: nat)
    requires Inv(s) && WriteTemp(s, t, n)
    ensures Inv(t)
  {
    hide TailOpens, ViewOf, Encode, Frame, ReadAll, MergeRuns;
    var text := Frame(s.job.after);
    assert text[..n] == text[..s.job.written] + text[s.job.written..n];
  }

  lemma RenameInv(s: Sys, t: Sys)
    requires Inv(s) && Rename(s, t)
    ensures Inv(t) && t.disk.log == Frame(s.job.after)
  {
    hide Encode, Frame, Lines, Tail, AllRows, RowsOf, ReadAll, MergeRuns;
    var after := s.job.after;
    assert Frame(after)[..|Frame(after)|] == Frame(after);
    FrameRoundTrip(after);
  }

  lemma StepInv(s: Sys, t: Sys)
    requires Inv(s) && Step(s, t)
    ensures Inv(t)
  {
    hide TailOpens, ViewOf, Encode, LogLine, Frame, MergeRuns, ReadAll, Tail;
    if run :| BeginAppend(s, t, run) {
      BeginAppendInv(s, t, run);
    } else if n :| WriteSome(s, t, n) {
      WriteSomeInv(s, t, n);
    } else if q :| BeginMerge(s, t, q) {
      BeginMergeInv(s, t, q);
    } else if n :| WriteTemp(s, t, n) {
      WriteTempInv(s, t, n);
    } else if Rename(s, t) {
      RenameInv(s, t);
    }
  }

  // ----- whole runs

  ghost predicate Trace(ss: seq<Sys>) {
    && ss != [] && Init(ss[0])
    && forall i :: 0 <= i < |ss| - 1 ==> Step(ss[i], ss[i + 1])
  }

  lemma {:induction false} TraceInv(ss: seq<Sys>, i: nat)
    requires Trace(ss) && i < |ss|
    ensures Inv(ss[i])
  {
    hide Inv, Init, Step;
    if i == 0 {
      InitInv(ss[0]);
    } else {
      TraceInv(ss, i - 1);
      assert Step(ss[i - 1], ss[i - 1 + 1]);
      StepInv(ss[i - 1], ss[i]);
    }
  }

  /**
   At every moment of every run, what the log yields is decided by the last finished operation and how far the running
   one has got: during an append to a log that ends cleanly, the old rows or the old rows and the new one; during a
   rewrite, the old rows. Only a line too long for the scanner can keep it from being read.
   */
  lemma ReadableThroughout(ss: seq<Sys>, i: nat)
    requires Trace(ss) && i < |ss|
    ensures var s := ss[i];
      && ReadAll(s.disk.log) == (if AllFit(Tokens(s.disk.log)) then Ok(Outcome(s).Readable()) else Err(TooLong))
      && (s.job.Appending? && s.view.ending.Clean? ==>
            Outcome(s).Readable()
            == if s.job.written >= |Encode(s.job.run)| then s.view.rows + [s.job.run] else s.view.rows)
      && (!s.job.Appending? ==> Outcome(s) == s.view)
  {
    TraceInv(ss, i);
    hide Encode, Lines, Tail, RowsOf, AllRows, Trace;
    if AllFit(Tokens(ss[i].disk.log)) {
      ReadAllView(ss[i].disk.log);
    }
    if ss[i].job.Appending? {
      EncodeSelfContained(ss[i].job.run);
    }
  }

  // ----- when the log can be read

  /**
   The step keeps every line below the scanner's limit: what an append has written of its line, together with what it
   stands behind, and each row of a rewritten file.
   */
  ghost predicate StepFits(s: Sys, t: Sys) {
    && (t.job.Appending? ==>
          var n := |Encode(t.job.run)|;
          |Tail(t.job.before)| + (if t.job.written < n then t.job.written else n) < MAX_TOKEN)
    && (s.job.Rewriting? && Rename(s, t) ==> RowsFit(s.job.after))
  }

  lemma WrittenReadableIff(s: Sys)
    requires Inv(s) && s.job.Appending? && AllFit(Lines(s.job.before))
    ensures var n := |Encode(s.job.run)|;
      ReadAll(s.disk.log).Ok? <==> |Tail(s.job.before)| + (if s.job.written < n then s.job.written else n) < MAX_TOKEN
  {
    hide Encode, Lines, Tail, RowsOf, AllRows, ReadAll, ViewOf;
    AppendReadableIff(s.job.before, s.job.run, s.job.written);
  }

  /** While the log is readable, so were the finished lines that the running append began behind. */
  lemma BeforeFits(s: Sys)
    requires Inv(s) && s.job.Appending? && ReadAll(s.disk.log).Ok?
    ensures AllFit(Lines(s.job.before))
  {
    hide Encode, Lines, Tail, RowsOf, AllRows, ViewOf, LogLine;
    if ReadAll(s.job.before).Err? {
      TooLongForGood(s.job.before, LogLine(s.job.run)[..s.job.written]);
    }
    FinishedFit(s.job.before);
  }

  lemma FinishedFit(f: string)
    requires AllFit(Tokens(f))
    ensures AllFit(Lines(f))
  {
    hide Lines, Tail;
    if Tail(f) != "" {
      AllFitSnoc(Lines(f), Tail(f));
    }
  }

  lemma StepReadableIff(s: Sys, t: Sys)
    requires Inv(s) && Step(s, t) && ReadAll(s.disk.log).Ok?
    ensures ReadAll(t.disk.log).Ok? <==> StepFits(s, t)
  {
    hide TailOpens, ViewOf, Encode, LogLine, Frame, MergeRuns, ReadAll, Tail, Inv, AllFit, RowsFit;
    if Rename(s, t) {
      RenameInv(s, t);
      FrameReadableIff(s.job.after);
    } else if t.job.Appending? {
      StepInv(s, t);
      BeforeStaysFit(s, t);
      WrittenReadableIff(t);
    } else {
      assert t.disk.log == s.disk.log;
    }
  }

  lemma BeforeStaysFit(s: Sys, t: Sys)
    requires Inv(s) && Step(s, t) && t.job.Appending? && ReadAll(s.disk.log).Ok?
    ensures AllFit(Lines(t.job.before))
  {
    hide TailOpens, ViewOf, Encode, LogLine, Frame, MergeRuns, Tail, Inv, AllFit, RowsFit, Lines, Tokens, AllRows;
    if s.job.Appending? {
      BeforeFits(s);
    } else {
      assert t.job.before == s.disk.log;
      FinishedFit(s.disk.log);
    }
  }

  /** A log that cannot be read any more stays so: merges, which could heal it, have to read it first. */
  lemma StepUnreadable(s: Sys, t: Sys)
    requires Inv(s) && Step(s, t) && ReadAll(s.disk.log).Err?
    ensures ReadAll(t.disk.log).Err?
  {
    hide TailOpens, ViewOf, Encode, LogLine, Frame, MergeRuns, ReadAll, Tail;
    if n: nat :| WriteSome(s, t, n) {
      TooLongForGood(s.disk.log, LogLine(s.job.run)[s.job.written..n]);
    }
  }

  /**
   Over every run: the log can be read at a moment if and only if it could be read at first and every step so far has
   kept its lines below the scanner's limit. One line over the limit makes it unreadable for good.
   */
  lemma {:induction false} ReadableIff(ss: seq<Sys>, i: nat)
    requires Trace(ss) && i < |ss|
    ensures ReadAll(ss[i].disk.log).Ok?
       <==> ReadAll(ss[0].disk.log).Ok? && forall k :: 0 <= k < i ==> StepFits(ss[k], ss[k + 1])
  {
    hide Inv, Init, Step, ReadAll, StepFits;
    if i > 0 {
      ReadableIff(ss, i - 1);
      TraceInv(ss, i - 1);
      assert Step(ss[i - 1], ss[i - 1 + 1]);
      if ReadAll(ss[i - 1].disk.log).Ok? {
        StepReadableIff(ss[i - 1], ss[i]);
        assert StepFits(ss[i - 1], ss[i - 1 + 1]) <==> ReadAll(ss[i].disk.log).Ok?;
      } else {
        StepUnreadable(ss[i - 1], ss[i]);
      }
    }
  }

  /** A finished rewrite leaves exactly the merged rows, framed, whatever stood in the file before. */
  lemma RewriteHeals(ss: seq<Sys>, i: nat)
    requires Trace(ss) && i + 1 < |ss| && Rename(ss[i], ss[i + 1])
    ensures var before, after := ss[i].view.Readable(), ss[i + 1].view.rows;
      && MergeRuns(before, ss[i].job.q) == Ok(after)
      && ss[i + 1].disk.log == Frame(after) && ss[i + 1].view.ending == Clean
      && ReadAll(ss[i + 1].disk.log) == (if RowsFit(after) then Ok(after) else Err(TooLong))
  {
    hide Encode, Lines, Tail, RowsOf, AllRows, ReadAll, Frame, Trace, RowsFit;
    TraceInv(ss, i);
    RenameInv(ss[i], ss[i + 1]);
    FrameReadableIff(ss[i + 1].view.rows);
    if RowsFit(ss[i + 1].view.rows) {
      FrameFits(ss[i + 1].view.rows);
    } else {
      assert ReadAll(ss[i + 1].disk.log).error == TooLong;
    }
  }

  // ----- nothing on a finished line is ever lost

  predicate Extends(old': seq<Run>, new': seq<Run>) {
    |old'| <= |new'| && forall k :: 0 <= k < |old'| ==> SameServerSide(new'[k], old'[k])
  }

  lemma StepExtends(s: Sys, t: Sys)
    requires Inv(s) && Step(s, t)
    ensures Extends(s.view.rows, t.view.rows)
  {
    hide TailOpens, ViewOf, Encode, LogLine, Frame, ReadAll, Tail, MergeRuns;
    if Rename(s, t) {
      MergeExact(s.view.Readable(), s.job.q);
      assert MergeRuns(s.view.Readable(), s.job.q) == Ok(t.view.rows);
    }
  }

  /**
   Over every run, with any number of crashes: a row that has once been on a finished line stays at its place, and
   its server-measured columns never change.
   */
  lemma {:induction false} FinishedRowsStay(ss: seq<Sys>, i: nat, j: nat)
    requires Trace(ss) && i <= j < |ss|
    ensures Extends(ss[i].view.rows, ss[j].view.rows)
    decreases j - i
  {
    hide Inv, Init, Step;
    if i < j {
      FinishedRowsStay(ss, i, j - 1);
      TraceInv(ss, j - 1);
      assert Step(ss[j - 1], ss[j - 1 + 1]);
      StepExtends(ss[j - 1], ss[j]);
    }
  }

  /** An append acknowledged while the log ended cleanly puts its row behind all the others, for good. */
  lemma AcknowledgedRowStays(ss: seq<Sys>, i: nat, j: nat)
    requires Trace(ss) && i < j < |ss|
    requires EndAppend(ss[i], ss[i + 1]) && ss[i].view.ending.Clean?
    ensures var k := |ss[i].view.rows|;
      k < |ss[j].view.rows| && SameServerSide(ss[j].view.rows[k], ss[i].job.run)
  {
    hide Inv, Init, Step, Encode;
    FinishedRowsStay(ss, i + 1, j);
    assert ss[i + 1].view.rows == ss[i].view.rows + [ss[i].job.run];
  }

  // ----- how many acknowledged rows can be missing

  function Dirty(v: View): nat {
    if v.ending.Clean? then 0 else 1
  }

  lemma StepLoss(s: Sys, t: Sys)
    requires Inv(s) && Step(s, t)
    ensures |t.view.rows| + t.torn - Dirty(t.view) - t.acked >= |s.view.rows| + s.torn - Dirty(s.view) - s.acked
  {
    hide TailOpens, ViewOf, Encode, Frame, ReadAll, Tail, MergeRuns;
    if s.job.Appending? {
      EncodeSelfContained(s.job.run);
    }
    if Rename(s, t) {
      MergeExact(s.view.Readable(), s.job.q);
      assert MergeRuns(s.view.Readable(), s.job.q) == Ok(t.view.rows);
    }
  }

  /**
   The damage is bounded: over every run, the rows on finished lines number at least the initial ones plus the
   acknowledged appends, less one for each append that was cut short.
   */
  lemma {:induction false} LossBounded(ss: seq<Sys>, i: nat)
    requires Trace(ss) && i < |ss|
    ensures |ss[i].view.rows| + ss[i].torn >= |ss[0].view.rows| + ss[i].acked + Dirty(ss[i].view)
  {
    hide Inv, Step;
    if i > 0 {
      LossBounded(ss, i - 1);
      TraceInv(ss, i - 1);
      assert Step(ss[i - 1], ss[i - 1 + 1]);
      StepLoss(ss[i - 1], ss[i]);
    }
  }

  /** Without a torn append, every acknowledged row is there. */
  lemma NothingTornNothingLost(ss: seq<Sys>, i: nat)
    requires Trace(ss) && i < |ss| && ss[i].torn == 0
    ensures ReadAll(ss[i].disk.log).Ok? <==> AllFit(Tokens(ss[i].disk.log))
    ensures ReadAll(ss[i].disk.log).Ok? ==>
      |ReadAll(ss[i].disk.log).value| >= |ss[0].view.rows| + ss[i].acked
  {
    hide Trace, Encode, ReadAll;
    ReadableThroughout(ss, i);
    LossBounded(ss, i);
    OutcomeGrows(ss[i]);
  }

  lemma OutcomeGrows(s: Sys)
    ensures |Outcome(s).Readable()| >= |s.view.rows|
  {
    hide Encode;
  }

  // ----- the bound is met: a missing newline costs two rows

  /**
   When only the newline of a line is missing its row can be read, but it is not safe: the next append makes both
   that row and its own unreadable, although it is acknowledged.
   */
  lemma MissingNewlineLosesTwo(f: string, first: Run, second: Run)
    requires Tail(f) == "" && AllFit(Lines(f)) && |Encode(first)| + |Encode(second)| < MAX_TOKEN
    ensures ReadAll(f).Ok?
    ensures ReadAll(f + Encode(first)) == Ok(ReadAll(f).value + [first])
    ensures ReadAll(f + Encode(first) + LogLine(second)) == ReadAll(f)
  {
    hide Encode, Lines, Tail, RowsOf, AllRows, ReadAll;
    var n, k := |Encode(first)|, |LogLine(second)|;
    assert LogLine(first)[..n] == Encode(first) && LogLine(second)[..k] == LogLine(second);
    CutShortAppend(f, first, n);
    AppendTokens(f, first, n);
    AppendView(f, first, n);
    var g := f + Encode(first);
    EncodeSelfContained(first);
    AppendView(g, second, k);
    AppendFits(g, second, k);
    ReadAllView(g + LogLine(second));
    assert Tokens(f) == Lines(f);
    ReadAllView(f);
  }
}

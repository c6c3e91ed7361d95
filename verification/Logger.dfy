/** The logger's operations on its two files, when no step of them fails. */
module ResultsLog {
  import opened Wrappers
  import opened Rows
  import opened Codec
  import opened Framing
  import opened Merge
  import Pages

  /** Why a merge request gets no row back. */
  datatype Failure = Unreadable(log: LogError) | NotMerged(merge: MergeError) | NotRewritten

  /** How far a write gets: all the way, not even to an open file, or to an error after some characters. */
  datatype Progress = Through | Unopened | Stopped(written: nat)

  /** The log after an append that got so far. */
  function Extended(file: Option<string>, line: string, progress: Progress): Option<string> {
    var text := match file case Some(t) => t case None => "";
    match progress
    case Through => Some(text + line)
    case Unopened => file
    case Stopped(n) => Some(text + line[..if n < |line| then n else |line|])
  }

  /** A row as it is stored: stamped with the current time unless it has one, its throughput derived. */
  function Stamped(run: Run, now: int): Run {
    run.(timestamp := if run.timestamp == 0 then now else run.timestamp, throughput := Throughput(run))
  }

  /** What a merge request does to the text of the log. */
  function MergeText(text: string, q: Request): Result<string, Failure> {
    match ReadAll(text)
    case Err(e) => Err(Unreadable(e))
    case Ok(runs) =>
      match MergeRuns(runs, q)
      case Err(e) => Err(NotMerged(e))
      case Ok(after) => Ok(Frame(after))
  }

  /** However far an append gets, what stood in the log stays, and some beginning of the line follows. */
  lemma ExtendedBy(file: Option<string>, line: string, progress: Progress)
    ensures var before := match file case Some(t) => t case None => "";
      && (Extended(file, line, progress) == file
          || exists k :: 0 <= k <= |line| && Extended(file, line, progress) == Some(before + line[..k]))
      && (progress == Through ==> Extended(file, line, progress) == Some(before + line))
      && (forall k: nat :: progress == Stopped(k) && k <= |line| ==>
            Extended(file, line, progress) == Some(before + line[..k]))
  {
    assert line[..|line|] == line;
  }

  class Logger {
    var file: Option<string>  // the log; None while it does not exist
    var temp: Option<string>  // the file a rewrite goes through

    constructor ()
      ensures file == None && temp == None
    {
      file, temp := None, None;
    }

    function Text(): string
      reads this
    {
      match file case Some(text) => text case None => ""
    }

    /** An error after the whole line, from the final flush, leaves the line in the file all the same. */
    method Append(run: Run, now: int, progress: Progress) returns (ok: bool)
      modifies this`file
      ensures file == Extended(old(file), LogLine(Stamped(run, now)), progress)
      ensures ok <==> progress == Through
    {
      var stored := run;
      if stored.timestamp == 0 {
        stored := stored.(timestamp := now);
      }
      stored := stored.(throughput := Throughput(run));
      var line := Encode(stored) + "\n";
      if progress == Unopened {
        return false;
      }
      if progress.Stopped? {
        file := Some(Text() + line[..if progress.written < |line| then progress.written else |line|]);
        return false;
      }
      file := Some(Text() + line);
      ok := true;
    }

    /** The scanner's loop over the bytes and the decoding loop over its lines, in one. */
    method ReadAllUnlocked() returns (r: Result<seq<Run>, LogError>)
      ensures r == ReadAll(Text())
    {
      var text := Text();
      var runs: seq<Run>, line, tooLong := [], "", false;
      var i := 0;
      SplitNothing();
      assert text[..0] == "";
      hide RowsOf, AllRows, Lines, Tail;
      while i < |text|
        invariant 0 <= i <= |text|
        invariant runs == AllRows(Lines(text[..i])) && line == Tail(text[..i])
        invariant tooLong <==> !AllFit(Lines(text[..i]))
      {
        assert text[..i + 1] == text[..i] + [text[i]];
        SplitSnoc(text[..i], text[i]);
        if text[i] == '\n' {
          AllRowsSnoc(Lines(text[..i]), line);
          AllFitSnoc(Lines(text[..i]), line);
          tooLong := tooLong || |line| >= MAX_TOKEN;
          runs := runs + RowsOf(line);
          line := "";
        } else {
          line := line + [text[i]];
        }
        i := i + 1;
      }
      assert text[..i] == text;
      if line != "" {
        AllRowsSnoc(Lines(text), line);
        AllFitSnoc(Lines(text), line);
        tooLong := tooLong || |line| >= MAX_TOKEN;
        runs := runs + RowsOf(line);
      }
      r := if tooLong then Err(TooLong) else Ok(runs);
    }

    /** Whatever fails before the rename, the log is untouched, and the temporary file, if opened, is removed again. */
    method RewriteUnlocked(runs: seq<Run>, progress: Progress) returns (ok: bool)
      modifies this
      ensures ok <==> progress == Through
      ensures ok ==> file == Some(Frame(runs)) && temp == None
      ensures !ok ==> file == old(file) && temp == if progress == Unopened then old(temp) else None
    {
      hide Encode;
      if progress == Unopened {
        return false;
      }
      temp := Some("");
      var i := 0;
      while i < |runs|
        invariant 0 <= i <= |runs|
        invariant temp == Some(Frame(runs[..i])) && file == old(file)
      {
        assert runs[..i + 1][..i] == runs[..i];
        var text := temp.value + LogLine(runs[i]);
        if progress.Stopped? && progress.written < |text| {
          temp := None;
          return false;
        }
        temp := Some(text);
        i := i + 1;
      }
      assert runs[..i] == runs;
      if progress.Stopped? {
        temp := None;
        return false;
      }
      file, temp := temp, None;
      ok := true;
    }

    method MergeClientTimings(q: Request, progress: Progress) returns (r: Result<Run, Failure>)
      modifies this
      ensures match MergeText(old(Text()), q)
        case Err(e) => r == Err(e) && file == old(file) && temp == old(temp)
        case Ok(text) =>
          if progress == Through then r.Ok? && file == Some(text) && temp == None
          else r == Err(NotRewritten) && file == old(file)
      ensures r.Ok? ==>
                var before := ReadAll(old(Text())).value;
                && FindMergeIndex(before, q).Ok?
                && r.value == Merged(before[FindMergeIndex(before, q).value], q)
    {
      hide ReadAll;
      var read := ReadAllUnlocked();
      if read.Err? {
        return Err(Unreadable(read.error));
      }
      var runs := read.value;
      var found := FindIndex(runs, q);
      if found.Err? {
        return Err(NotMerged(found.error));
      }
      var idx := found.value;
      runs := runs[idx := ApplyPhases(runs[idx], q.phases)];
      runs := runs[idx := ApplyMeta(runs[idx], q.meta)];
      runs := runs[idx := runs[idx].(throughput := Throughput(runs[idx]))];
      assert runs == read.value[idx := Merged(read.value[idx], q)];
      var ok := RewriteUnlocked(runs, progress);
      r := if ok then Ok(runs[idx]) else Err(NotRewritten);
    }

    method ReadNewestPage(limit: int) returns (r: Result<(seq<Run>, nat), LogError>)
      ensures match ReadAll(Text())
        case Err(e) => r == Err(e)
        case Ok(runs) => r == Ok((Pages.NewestPage(runs, limit), |runs|))
    {
      hide ReadAll;
      var read := ReadAllUnlocked();
      if read.Err? {
        return Err(read.error);
      }
      var a := new Run[|read.value|](i requires 0 <= i < |read.value| => read.value[i]);
      assert a[..] == read.value;
      Pages.ReverseInPlace(a);
      var page := if limit > 0 && a.Length > limit then a[..limit] else a[..];
      assert a.Length > limit > 0 ==> a[..limit] == a[..][..limit];
      r := Ok((page, a.Length));
    }
  }

  /** Whatever rows a log holds, appending to it and reading it back gives those rows and the new one, in order. */
  method AppendThenRead(log: Logger, run: Run, now: int) returns (r: Result<seq<Run>, LogError>)
    requires Tail(log.Text()) == "" && ReadAll(log.Text()).Ok? && |Encode(Stamped(run, now))| < MAX_TOKEN
    modifies log
    ensures r == Ok(old(ReadAll(log.Text()).value) + [Stamped(run, now)])
    ensures Tail(log.Text()) == ""
  {
    hide Encode, ReadAll;
    ghost var stored := Stamped(run, now);
    ghost var text := log.Text();
    var ok := log.Append(run, now, Through);
    AppendWhole(text, stored);
    r := log.ReadAllUnlocked();
  }

  lemma AppendWhole(text: string, run: Run)
    requires Tail(text) == "" && ReadAll(text).Ok? && |Encode(run)| < MAX_TOKEN
    ensures ReadAll(text + LogLine(run)) == Ok(ReadAll(text).value + [run])
    ensures Tail(text + LogLine(run)) == ""
  {
    hide Encode, AllRows, Lines, Tail, RowsOf;
    var k := |LogLine(run)|;
    assert LogLine(run)[..k] == LogLine(run);
    CutShortAppend(text, run, k);
    AppendTokens(text, run, k);
  }

  /** Rewriting in place of appending: a merge on any readable text leaves a framed file that holds the merged rows. */
  lemma MergeTextFramed(text: string, q: Request)
    requires MergeText(text, q).Ok?
    ensures ReadAll(text).Ok? && MergeRuns(ReadAll(text).value, q).Ok?
    ensures var after := MergeRuns(ReadAll(text).value, q).value;
      && Tail(MergeText(text, q).value) == ""
      && ViewOf(MergeText(text, q).value) == View(after, Clean)
      && (RowsFit(after) ==> ReadAll(MergeText(text, q).value) == Ok(after))
  {
    hide Encode, ReadAll, AllRows, RowsOf, Lines, Tail;
    var after := MergeRuns(ReadAll(text).value, q).value;
    FrameRoundTrip(after);
    if RowsFit(after) {
      FrameFits(after);
    }
  }
}

/** The handlers that write rows, and the one that merges client timings into them. */
module App {
  import opened Wrappers
  import opened Decimal
  import opened Text
  import opened Rows
  import opened Merge
  import opened Framing
  import opened Experiments
  import opened TlsListen
  import Curl
  import Pages
  import ResultsLog

  /** What the server knows about a request's connection. */
  datatype Info = Info(
    tls: bool, clientAddr: string, tlsVersion: string, cipher: string, alpn: string,
    keyAlgorithm: string, keySize: int, keyCurve: string)

  /** The benchmark headers; an absent header is the empty string. */
  datatype Headers = Headers(routeMode: string, experimentId: string, sampleIndex: string)

  function ApplyBenchHeaders(run: Run, h: Headers): Run {
    WithSample(WithExperiment(WithRoute(run, h.routeMode), h.experimentId), h.sampleIndex)
  }

  function WithRoute(run: Run, raw: string): Run {
    match ParseRouteMode(raw)
    case Some(mode) => if raw != "" && mode != "" then run.(routeMode := mode) else run
    case None => run
  }

  function WithExperiment(run: Run, raw: string): Run {
    if raw != "" && ValidExperimentId(raw) then run.(experimentId := raw) else run
  }

  function WithSample(run: Run, raw: string): Run {
    match Atoi(raw)
    case Some(i) => if i > 0 then run.(sampleIndex := i) else run
    case None => run
  }

  function WithInfo(run: Run, info: Info): Run {
    run.(tls := info.tls, clientAddr := info.clientAddr, tlsVersion := info.tlsVersion, cipher := info.cipher,
         alpn := info.alpn)
  }

  function WithCertificate(run: Run, info: Info): Run {
    if info.tls
    then run.(keyAlgorithm := info.keyAlgorithm, keySize := info.keySize, keyCurve := info.keyCurve)
    else run
  }

  function WithHandshake(run: Run, c: Consumed): Run {
    var r := if c.handshakeUs > 0 || c.reused then run.(reused := c.reused) else run;
    if c.handshakeUs > 0 then r.(serverHandshakeUs := c.handshakeUs) else r
  }

  /** The row that record hands to the log. */
  function Recorded(run: Run, info: Info, h: Headers, c: Consumed): Run {
    WithHandshake(WithCertificate(ApplyBenchHeaders(WithInfo(run, info), h), info), c)
  }

  /** The row a probe request gives rise to, unless one of its parameters is refused. */
  function ProbeRun(id: string, index: string, mode: string): Option<Run> {
    if !ValidExperimentId(id) then None
    else match Atoi(index)
      case None => None
      case Some(i) =>
        if i <= 0 then None
        else match ParseRouteMode(mode)
          case None => None
          case Some(m) =>
            Some(ZERO_RUN.(operation := "handshake", name := ProbeName(id, i), experimentId := id, sampleIndex := i,
                           routeMode := m))
  }

  /** The row that a generation, an upload or a download gives rise to. */
  function BlobRun(operation: string, name: string, bytes: int, writeUs: int, readUs: int, totalUs: int): Run {
    ZERO_RUN.(operation := operation, name := name, bytes := bytes, writeUs := writeUs, readUs := readUs,
              totalUs := totalUs)
  }

  // ----- the timings endpoint

  /** The request body after decoding. */
  datatype Body =
    | Oversized
    | Malformed
    | Timings(operation: string, name: string, routeMode: string, experimentId: string, sampleIndex: int,
              times: Curl.Times)

  datatype Status = Ok200 | BadRequest400 | NotFound404 | Conflict409 | TooLarge413 | Internal500

  /** The merge a body asks for, or the status that refuses it. */
  function MergeRequest(body: Body): Result<Request, Status> {
    match body
    case Oversized => Err(TooLarge413)
    case Malformed => Err(BadRequest400)
    case Timings(operation, name, routeMode, experimentId, sampleIndex, times) =>
      if operation !in OPERATIONS then Err(BadRequest400)
      else if experimentId != "" && !ValidExperimentId(experimentId) then Err(BadRequest400)
      else
        match ParseRouteMode(routeMode)
        case None => Err(BadRequest400)
        case Some(mode) =>
          var key := if experimentId != "" && sampleIndex > 0 then ProbeName(experimentId, sampleIndex) else name;
          if key == "" then Err(BadRequest400)
          else Ok(Request(key, operation, Curl.StoredPhases(times), Meta(mode, experimentId, sampleIndex)))
  }

  function StatusOf(f: ResultsLog.Failure): Status {
    match f
    case NotMerged(NoMatchingRun) => NotFound404
    case NotMerged(AmbiguousRun) => Conflict409
    case Unreadable(_) => Internal500
    case NotRewritten => Internal500
  }

  class Server {
    const log: ResultsLog.Logger

    constructor (log: ResultsLog.Logger)
      ensures this.log == log
    {
      this.log := log;
    }

    /**
     Fills in what the connection and the headers say, charges the handshake, and appends the row. That an append fails
     is not reported.
     */
    method Record(
      run: Run, info: Info, h: Headers, meta: TlsListen.Meta?, now: int, progress: ResultsLog.Progress)
      modifies log`file, meta
      ensures meta != null ==> meta.requests == Increment(old(meta.requests))
      ensures var c := if meta == null then Consumed(0, false) else Answer(meta.requests, meta.handshakeUs);
        log.file == ResultsLog.Extended(old(log.file), LogLine(ResultsLog.Stamped(Recorded(run, info, h, c), now)),
                                        progress)
    {
      hide LogLine;
      var r := WithInfo(run, info);
      r := ApplyBenchHeaders(r, h);
      r := WithCertificate(r, info);
      var c := Consume(meta);
      if c.handshakeUs > 0 || c.reused {
        r := r.(reused := c.reused);
        if c.handshakeUs > 0 {
          r := r.(serverHandshakeUs := c.handshakeUs);
        }
      }
      var ok := log.Append(r, now, progress);
    }

    /** A probe is validated, recorded, and only then answered; the answer is the same if recording has failed. */
    method BenchProbe(
      id: string, index: string, mode: string, info: Info, h: Headers, meta: TlsListen.Meta?, now: int,
      progress: ResultsLog.Progress)
      returns (status: Status)
      modifies log`file, meta
      ensures match ProbeRun(id, index, mode)
        case None => status == BadRequest400 && log.file == old(log.file)
        case Some(run) =>
          var c := if meta == null then Consumed(0, false) else Answer(meta.requests, meta.handshakeUs);
          && status == Ok200
          && log.file == ResultsLog.Extended(old(log.file),
                                             LogLine(ResultsLog.Stamped(Recorded(run, info, h, c), now)), progress)
      ensures meta != null && ProbeRun(id, index, mode).None? ==> meta.requests == old(meta.requests)
    {
      hide LogLine, Recorded, ParseRouteMode, ValidExperimentId, Atoi;
      if !ValidExperimentId(id) {
        return BadRequest400;
      }
      var parsed := Atoi(index);
      if parsed.None? || parsed.value <= 0 {
        return BadRequest400;
      }
      var route := ParseRouteMode(mode);
      if route.None? {
        return BadRequest400;
      }
      var run := ZERO_RUN.(operation := "handshake", name := ProbeName(id, parsed.value), experimentId := id,
                           sampleIndex := parsed.value, routeMode := route.value);
      Record(run, info, h, meta, now, progress);
      status := Ok200;
    }

    method AttachClientTimings(body: Body, progress: ResultsLog.Progress) returns (status: Status, row: Option<Run>)
      modifies log
      ensures match MergeRequest(body)
        case Err(s) => status == s && row == None && log.file == old(log.file)
        case Ok(q) =>
          match ResultsLog.MergeText(old(log.Text()), q)
          case Err(f) => status == StatusOf(f) && row == None && log.file == old(log.file)
          case Ok(text) =>
            if progress != ResultsLog.Through then status == Internal500 && row == None && log.file == old(log.file)
            else
            var before := ReadAll(old(log.Text())).value;
            && status == Ok200 && log.file == Some(text)
            && FindMergeIndex(before, q).Ok?
            && row == Some(Merged(before[FindMergeIndex(before, q).value], q))
    {
      hide ResultsLog.MergeText;
      var request := MergeRequest(body);
      if request.Err? {
        return request.error, None;
      }
      var merged := log.MergeClientTimings(request.value, progress);
      if merged.Err? {
        return StatusOf(merged.error), None;
      }
      status, row := Ok200, Some(merged.value);
    }

    method Results(raw: string) returns (status: Status, page: Pages.Reply<Run>)
      ensures match ReadAll(log.Text())
        case Ok(rows) =>
          page == Pages.Results(rows, raw) && status == if Pages.LimitOf(raw).Some? then Ok200 else BadRequest400
        case Err(_) => status == if Pages.LimitOf(raw).Some? then Internal500 else BadRequest400
    {
      hide ReadAll;
      page := Pages.BadRequest;
      var limit := Pages.ResultsLimit(raw);
      if limit.None? {
        return BadRequest400, page;
      }
      var read := log.ReadNewestPage(limit.value);
      if read.Err? {
        return Internal500, page;
      }
      var (runs, total) := read.value;
      status, page := Ok200, Pages.Page(runs, total, limit.value, total > |runs|);
    }
  }

  // ----- what the answers mean

  /** The status tells how many rows of a readable log match an acceptable request. */
  lemma StatusMeaning(text: string, q: Request)
    requires ReadAll(text).Ok?
    ensures var rows := ReadAll(text).value;
            var r := ResultsLog.MergeText(text, q);
      && (r.Ok? <==> exists i: nat :: OnlyMatch(rows, q, i))
      && (r.Err? && StatusOf(r.error) == NotFound404 <==> NoMatch(rows, q))
      && (r.Err? && StatusOf(r.error) == Conflict409 <==> TwoMatches(rows, q))
  {
    hide ReadAll, Matches, Frame, Merged;
    var rows := ReadAll(text).value;
    FindMergeIndexMeaning(rows, q);
    MergeExact(rows, q);
  }

  /** A log that cannot be read, or not be rewritten, is the server's own fault. */
  lemma ServerFaults(text: string, q: Request)
    requires ReadAll(text).Err?
    ensures ResultsLog.MergeText(text, q).Err? && StatusOf(ResultsLog.MergeText(text, q).error) == Internal500
    ensures StatusOf(ResultsLog.NotRewritten) == Internal500
  {
    hide ReadAll;
  }

  // ----- which row posted timings reach, column by column

  ghost predicate OnlyAt(rows: seq<Run>, has: Run -> bool, i: nat) {
    i < |rows| && has(rows[i]) && forall j :: 0 <= j < |rows| && j != i ==> !has(rows[j])
  }

  /** The row shows what was posted, and everything else as before. */
  ghost predicate ShowsPosted(after: Run, before: Run, body: Body)
    requires body.Timings?
  {
    var posted := Curl.StoredPhases(body.times);
    && SameServerSide(after, before)
    && PhasesShown(after)
       == posted.(handshakeUs := if posted.handshakeUs > 0 then posted.handshakeUs else before.handshakeUs)
    && after.routeMode == (if TrimSpaces(body.routeMode) == "" then before.routeMode else TrimSpaces(body.routeMode))
    && after.experimentId == (if body.experimentId == "" then before.experimentId else body.experimentId)
    && after.sampleIndex == (if body.sampleIndex <= 0 then before.sampleIndex else body.sampleIndex)
    && after.throughput == Throughput(after)
  }

  /**
   The body's timings reach a row exactly if it is the only one with the property: 200 and only that row rewritten; 404
   if no row has it; 409 if two have.
   */
  ghost predicate Reaches(rows: seq<Run>, body: Body, r: Result<string, ResultsLog.Failure>, has: Run -> bool)
    requires body.Timings?
  {
    && (r.Ok? <==> exists i: nat :: OnlyAt(rows, has, i))
    && (r.Err? && StatusOf(r.error) == NotFound404 <==> forall i :: 0 <= i < |rows| ==> !has(rows[i]))
    && (r.Err? && StatusOf(r.error) == Conflict409
        <==> exists i, j :: 0 <= i < j < |rows| && has(rows[i]) && has(rows[j]))
    && forall i: nat :: OnlyAt(rows, has, i) ==>
         r.Ok? && exists after :: ShowsPosted(after, rows[i], body) && r.value == Frame(rows[i := after])
  }

  lemma MatchesReach(text: string, body: Body, has: Run -> bool)
    requires ReadAll(text).Ok? && MergeRequest(body).Ok? && body.Timings?
    requires forall row :: Matches(row, MergeRequest(body).value) <==> has(row)
    ensures Reaches(ReadAll(text).value, body, ResultsLog.MergeText(text, MergeRequest(body).value), has)
  {
    var rows, q := ReadAll(text).value, MergeRequest(body).value;
    StatusMeaning(text, q);
    SameProperty(rows, q, has);
    forall i: nat | OnlyAt(rows, has, i)
      ensures exists after ::
                ShowsPosted(after, rows[i], body) && ResultsLog.MergeText(text, q) == Ok(Frame(rows[i := after]))
    {
      OnlyRowMerged(text, body, i);
    }
    hide *;
    ReachesFrom(rows, body, ResultsLog.MergeText(text, q), q, has);
  }

  lemma ReachesFrom(
    rows: seq<Run>, body: Body, r: Result<string, ResultsLog.Failure>, q: Request, has: Run -> bool)
    requires body.Timings?
    requires r.Ok? <==> exists i: nat :: OnlyMatch(rows, q, i)
    requires r.Err? && StatusOf(r.error) == NotFound404 <==> NoMatch(rows, q)
    requires r.Err? && StatusOf(r.error) == Conflict409 <==> TwoMatches(rows, q)
    requires forall i: nat :: OnlyAt(rows, has, i) <==> OnlyMatch(rows, q, i)
    requires NoMatch(rows, q) <==> forall i :: 0 <= i < |rows| ==> !has(rows[i])
    requires TwoMatches(rows, q) <==> exists i, j :: 0 <= i < j < |rows| && has(rows[i]) && has(rows[j])
    requires forall i: nat :: OnlyAt(rows, has, i) ==>
               i < |rows| && exists after :: ShowsPosted(after, rows[i], body) && r == Ok(Frame(rows[i := after]))
    ensures Reaches(rows, body, r, has)
  {
    hide ShowsPosted, StatusOf, OnlyMatch, NoMatch, TwoMatches, Frame;
  }

  lemma SameProperty(rows: seq<Run>, q: Request, has: Run -> bool)
    requires forall row :: Matches(row, q) <==> has(row)
    ensures forall i: nat :: OnlyAt(rows, has, i) <==> OnlyMatch(rows, q, i)
    ensures NoMatch(rows, q) <==> forall i :: 0 <= i < |rows| ==> !has(rows[i])
    ensures TwoMatches(rows, q) <==> exists i, j :: 0 <= i < j < |rows| && has(rows[i]) && has(rows[j])
  {
    hide Matches;
  }

  lemma OnlyRowMerged(text: string, body: Body, i: nat)
    requires ReadAll(text).Ok? && MergeRequest(body).Ok? && body.Timings?
    requires OnlyMatch(ReadAll(text).value, MergeRequest(body).value, i)
    ensures exists after :: ShowsPosted(after, ReadAll(text).value[i], body)
              && ResultsLog.MergeText(text, MergeRequest(body).value) == Ok(Frame(ReadAll(text).value[i := after]))
  {
    var rows, q := ReadAll(text).value, MergeRequest(body).value;
    FindMergeIndexMeaning(rows, q);
    MergedShowsBody(rows[i], body);
    hide ReadAll, Matches, Frame, Merged, MergeRequest, ShowsPosted, FindMergeIndex;
    assert FindMergeIndex(rows, q) == Ok(i);
    assert ShowsPosted(Merged(rows[i], q), rows[i], body);
  }

  lemma MergedShowsBody(row: Run, body: Body)
    requires MergeRequest(body).Ok? && body.Timings?
    ensures ShowsPosted(Merged(row, MergeRequest(body).value), row, body)
  {
    var q := MergeRequest(body).value;
    ParseRouteModeIff(body.routeMode);
    assert q.phases == Curl.StoredPhases(body.times) && q.meta.experimentId == body.experimentId;
    assert q.meta.sampleIndex == body.sampleIndex && q.meta.routeMode == TrimSpaces(body.routeMode);
    hide MergeRequest, ParseRouteMode, TrimSpaces, Curl.StoredPhases;
    MergedShowsPhases(row, q);
    MergedShowsMeta(row, q);
    MergedServerSide(row, q);
    hide Merged, Throughput, Matches;
  }

  /** Without an experiment id timings reach the one row of that operation and that name. */
  lemma TimingsByName(text: string, body: Body)
    requires ReadAll(text).Ok? && MergeRequest(body).Ok? && body.Timings? && body.experimentId == ""
    ensures Reaches(ReadAll(text).value, body, ResultsLog.MergeText(text, MergeRequest(body).value),
                    (row: Run) => row.operation == body.operation && row.name == body.name)
  {
    hide ReadAll, Reaches, ResultsLog.MergeText, ParseRouteMode;
    MatchesReach(text, body, (row: Run) => row.operation == body.operation && row.name == body.name);
  }

  /** With one they reach the one row of that operation, experiment and sample, whatever its name. */
  lemma TimingsByExperiment(text: string, body: Body)
    requires ReadAll(text).Ok? && MergeRequest(body).Ok? && body.Timings? && body.experimentId != ""
    ensures Reaches(ReadAll(text).value, body, ResultsLog.MergeText(text, MergeRequest(body).value),
                    (row: Run) => row.operation == body.operation && row.experimentId == body.experimentId
                           && row.sampleIndex == body.sampleIndex)
  {
    hide ReadAll, Reaches, ResultsLog.MergeText, ParseRouteMode;
    MatchesReach(text, body, (row: Run) => row.operation == body.operation && row.experimentId == body.experimentId
                                    && row.sampleIndex == body.sampleIndex);
  }

  /** Once an experiment id is given the name decides nothing: only the id and the sample index do. */
  lemma NameIrrelevant(rows: seq<Run>, q: Request, name: string)
    requires q.meta.experimentId != ""
    ensures MergeRuns(rows, q.(name := name)) == MergeRuns(rows, q)
  {
    SameRequestSameIndex(rows, q, q.(name := name));
  }

  lemma {:induction false} SameRequestSameIndex(rows: seq<Run>, q1: Request, q2: Request)
    requires forall run :: Matches(run, q1) <==> Matches(run, q2)
    ensures FindMergeIndex(rows, q1) == FindMergeIndex(rows, q2)
    decreases |rows|
  {
    if rows != [] {
      SameRequestSameIndex(rows[..|rows| - 1], q1, q2);
    }
  }

  // ----- what a recorded row shows

  /** Experiment and route headers decide their columns exactly when they are acceptable. */
  lemma HeadersDecide(run: Run, h: Headers)
    ensures var r := ApplyBenchHeaders(run, h);
      && (r.experimentId == if ValidExperimentId(h.experimentId) then h.experimentId else run.experimentId)
      && (r.routeMode == match ParseRouteMode(h.routeMode)
                         case Some(mode) => (if mode == "" then run.routeMode else mode)
                         case None => run.routeMode)
  {
    BlankMode();
    assert ValidExperimentId(h.experimentId) ==> h.experimentId != "";
    hide Atoi, ParseRouteMode, ValidExperimentId;
  }

  /** A positive sample index is read back as it was printed; a negative one, zero or none at all is ignored. */
  lemma SampleHeaderDecides(run: Run, h: Headers, index: int)
    requires -0x8000_0000_0000_0000 <= index < 0x8000_0000_0000_0000
    ensures h.sampleIndex == PrintInt(index) ==>
              ApplyBenchHeaders(run, h).sampleIndex == if index > 0 then index else run.sampleIndex
    ensures h.sampleIndex == "" ==> ApplyBenchHeaders(run, h).sampleIndex == run.sampleIndex
  {
    AtoiPrintInt(index);
    NothingIsNoNumber();
    hide Atoi, PrintInt, ParseRouteMode, ValidExperimentId;
  }

  lemma BlankMode()
    ensures ParseRouteMode("") == Some("")
  {
  }

  lemma NothingIsNoNumber()
    ensures Atoi("") == None
  {
  }

  /**
   A stored row shows what the connection says about itself, and the handler's own measurements untouched; the key
   columns of the certificate only on TLS, and the handshake only when it is charged.
   */
  lemma RecordedShows(run: Run, info: Info, h: Headers, c: Consumed, now: int)
    ensures var r := ResultsLog.Stamped(Recorded(run, info, h, c), now);
      && (r.tls, r.clientAddr, r.tlsVersion, r.cipher, r.alpn)
         == (info.tls, info.clientAddr, info.tlsVersion, info.cipher, info.alpn)
      && (r.keyAlgorithm, r.keySize, r.keyCurve)
         == (if info.tls then (info.keyAlgorithm, info.keySize, info.keyCurve)
             else (run.keyAlgorithm, run.keySize, run.keyCurve))
      && (r.operation, r.name, r.bytes, r.writeUs, r.readUs, r.totalUs)
         == (run.operation, run.name, run.bytes, run.writeUs, run.readUs, run.totalUs)
      && (c.reused ==> r.reused)
      && (c.handshakeUs > 0 ==> r.reused == c.reused && r.serverHandshakeUs == c.handshakeUs)
      && (c.handshakeUs <= 0 ==> r.serverHandshakeUs == run.serverHandshakeUs)
      && (run.timestamp != 0 ==> r.timestamp == run.timestamp) && (run.timestamp == 0 ==> r.timestamp == now)
  {
    hide ParseRouteMode, ValidExperimentId, Atoi, Throughput, ApplyBenchHeaders;
    HeadersFrame(WithInfo(run, info), h);
  }

  /**
   The stored row of a generation, an upload or a download shows its name, its size and its three durations, and the
   throughput of its total.
   */
  lemma BlobRowShows(
    operation: string, name: string, bytes: int, writeUs: int, readUs: int, totalUs: int,
    info: Info, h: Headers, c: Consumed, now: int)
    ensures var r := ResultsLog.Stamped(
                       Recorded(BlobRun(operation, name, bytes, writeUs, readUs, totalUs), info, h, c), now);
      && (r.operation, r.name, r.bytes, r.writeUs, r.readUs, r.totalUs)
         == (operation, name, bytes, writeUs, readUs, totalUs)
      && (bytes > 0 && totalUs > 0 ==> IsRate(r.throughput.MiBs(), bytes, totalUs))
  {
    var run := BlobRun(operation, name, bytes, writeUs, readUs, totalUs);
    var recorded := Recorded(run, info, h, c);
    RecordedShows(run, info, h, c, now);
    RecordedPhases(run, info, h, c);
    if bytes > 0 && totalUs > 0 {
      ThroughputInterval(recorded);
    }
    hide Recorded, Throughput;
  }

  /** Recording leaves the client's columns, and what it is computed from, alone. */
  lemma RecordedPhases(run: Run, info: Info, h: Headers, c: Consumed)
    ensures var r := Recorded(run, info, h, c);
      && PhasesShown(r) == PhasesShown(run)
      && (r.operation, r.bytes, r.totalUs) == (run.operation, run.bytes, run.totalUs)
  {
    hide ApplyBenchHeaders;
    HeadersFrame(WithInfo(run, info), h);
  }

  /** The headers touch only the three key columns. */
  lemma HeadersFrame(run: Run, h: Headers)
    ensures var r := ApplyBenchHeaders(run, h);
      r == run.(experimentId := r.experimentId, routeMode := r.routeMode, sampleIndex := r.sampleIndex)
  {
    hide ParseRouteMode, ValidExperimentId, Atoi;
    var r1 := WithRoute(run, h.routeMode);
    var r2 := WithExperiment(r1, h.experimentId);
    assert r1 == run.(routeMode := r1.routeMode);
    assert r2 == r1.(experimentId := r2.experimentId);
    hide WithRoute, WithExperiment;
    assert ApplyBenchHeaders(run, h) == r2.(sampleIndex := ApplyBenchHeaders(run, h).sampleIndex);
  }

  /** Which bodies are accepted, and the status of the others. */
  lemma RequestAcceptedIff(body: Body)
    ensures MergeRequest(body).Ok? <==>
              && body.Timings?
              && (body.operation == "generate" || body.operation == "upload" || body.operation == "download"
                  || body.operation == "handshake")
              && (body.experimentId == "" || ValidExperimentId(body.experimentId))
              && (TrimSpaces(body.routeMode) == "" || Listed(TrimSpaces(body.routeMode)))
              && (body.name != "" || (body.experimentId != "" && body.sampleIndex > 0))
    ensures MergeRequest(body) == Err(TooLarge413) <==> body.Oversized?
    ensures MergeRequest(body).Err? ==> MergeRequest(body).error in {TooLarge413, BadRequest400}
    ensures MergeRequest(body).Ok? ==> MergeRequest(body).value.name != ""
  {
    if body.Timings? {
      OperationIff(body.operation);
      ParseRouteModeIff(body.routeMode);
    }
    hide ParseRouteMode, TrimSpaces, Listed, ValidExperimentId, PrintInt;
  }

  // ----- which route a row shows

  /** A probe is accepted exactly with a valid id, a positive index and an empty or listed mode, and its row says so. */
  lemma ProbeRunMeans(id: string, index: string, mode: string)
    ensures ProbeRun(id, index, mode).Some? <==>
              && ValidExperimentId(id) && Atoi(index).Some? && Atoi(index).value > 0
              && (TrimSpaces(mode) == "" || Listed(TrimSpaces(mode)))
    ensures ProbeRun(id, index, mode).Some? ==>
              var run := ProbeRun(id, index, mode).value;
              && (run.operation, run.experimentId, run.routeMode) == ("handshake", id, TrimSpaces(mode))
              && Atoi(index) == Some(run.sampleIndex)
              && ParseProbeName(run.name) == Some((id, run.sampleIndex))
  {
    ParseRouteModeIff(mode);
    hide ValidExperimentId, ParseRouteMode, TrimSpaces, Listed, Atoi, ParseProbeName, ProbeName;
    if ProbeRun(id, index, mode).Some? {
      ProbeNameRoundTrip(id, Atoi(index).value);
    }
  }

  /** A listed mode in a probe's parameter, with any white space around it, is the mode of its row. */
  lemma ProbeKeepsRoute(id: string, index: string, mode: string, left: string, right: string)
    requires Listed(mode) && White(left) && White(right) && ProbeRun(id, index, left + mode + right).Some?
    ensures ProbeRun(id, index, left + mode + right).value.routeMode == mode
  {
    ListedModeParses(mode, left, right);
    hide ValidExperimentId, ParseRouteMode, Atoi, ProbeName;
  }

  /** A listed mode in a header is the stored row's mode; without one, or with an unlisted one, the handler's stays. */
  lemma HeaderKeepsRoute(
    run: Run, info: Info, h: Headers, c: Consumed, now: int, mode: string, left: string, right: string)
    requires White(left) && White(right)
    ensures var stored := ResultsLog.Stamped(Recorded(run, info, h, c), now);
      && (Listed(mode) && h.routeMode == left + mode + right ==> stored.routeMode == mode)
      && (h.routeMode == left ==> stored.routeMode == run.routeMode)
      && (TrimSpaces(h.routeMode) != "" && !Listed(TrimSpaces(h.routeMode)) ==> stored.routeMode == run.routeMode)
  {
    ListedModeParses(mode, left, right);
    ParseRouteModeIff(h.routeMode);
    HeadersDecide(WithInfo(run, info), h);
    assert Listed(mode) ==> mode != "" by { if Listed(mode) { ListedIsTrimmed(mode); } }
    hide ParseRouteMode, TrimSpaces, Listed, ApplyBenchHeaders, Throughput, White;
  }

  /** A listed mode in a posted body becomes the row's mode; an empty one keeps it. */
  lemma BodyKeepsRoute(row: Run, body: Body, mode: string, left: string, right: string)
    requires MergeRequest(body).Ok? && body.Timings? && White(left) && White(right)
    ensures Listed(mode) && body.routeMode == left + mode + right ==>
              Merged(row, MergeRequest(body).value).routeMode == mode
    ensures body.routeMode == left ==> Merged(row, MergeRequest(body).value).routeMode == row.routeMode
  {
    MergedShowsBody(row, body);
    TrimWhite(left);
    if Listed(mode) {
      ListedIsTrimmed(mode);
      TrimPadded(left, mode, right);
    }
    hide MergeRequest, Merged, TrimSpaces, Listed, White, SameServerSide, Curl.StoredPhases, Throughput;
  }

  // ----- validated rows

  /** The key columns of a row come from the accepted alphabets. */
  predicate ValidKey(run: Run) {
    && run.operation in OPERATIONS
    && (run.experimentId == "" || ValidExperimentId(run.experimentId))
    && ValidRouteMode(run.routeMode)
    && run.sampleIndex >= 0
  }

  /** What every row the server writes satisfies. */
  predicate ValidRow(run: Run) {
    ValidKey(run) && run.throughput == Throughput(run)
  }

  predicate ValidRows(rows: seq<Run>) {
    forall i :: 0 <= i < |rows| ==> ValidRow(rows[i])
  }

  lemma HeadersKeepValid(run: Run, h: Headers)
    requires ValidKey(run)
    ensures ValidKey(ApplyBenchHeaders(run, h))
  {
    RouteKeepsValid(run, h.routeMode);
    hide TrimSpaces, ValidExperimentId, ValidRouteMode, Atoi, WithRoute;
    assert ValidKey(WithExperiment(WithRoute(run, h.routeMode), h.experimentId));
    hide WithExperiment;
  }

  lemma RouteKeepsValid(run: Run, raw: string)
    requires ValidKey(run)
    ensures ValidKey(WithRoute(run, raw))
  {
    hide TrimSpaces, ValidExperimentId;
  }

  /** Whatever the headers hold, a recorded row has valid key columns and its own throughput. */
  lemma RecordedValid(run: Run, info: Info, h: Headers, c: Consumed, now: int)
    requires ValidKey(run)
    ensures ValidRow(ResultsLog.Stamped(Recorded(run, info, h, c), now))
  {
    hide ApplyBenchHeaders, ValidExperimentId, ValidRouteMode;
    HeadersKeepValid(WithInfo(run, info), h);
    StampedDerived(Recorded(run, info, h, c), now);
  }

  lemma StampedDerived(run: Run, now: int)
    ensures ResultsLog.Stamped(run, now).throughput == Throughput(ResultsLog.Stamped(run, now))
  {
  }

  /** An accepted merge keeps every row valid: the body's key columns were checked before. */
  lemma AttachValid(rows: seq<Run>, body: Body)
    requires ValidRows(rows) && MergeRequest(body).Ok?
    ensures ValidRows(Attempt(rows, MergeRequest(body).value))
  {
    hide Throughput, ValidExperimentId, FindMergeIndex, ParseRouteMode;
    var q := MergeRequest(body).value;
    RequestValid(body);
    forall i | 0 <= i < |rows|
      ensures ValidRow(Merged(rows[i], q))
    {
      MergedShowsPhases(rows[i], q);
    }
  }

  lemma RequestValid(body: Body)
    requires MergeRequest(body).Ok?
    ensures var meta := MergeRequest(body).value.meta;
      && ValidRouteMode(meta.routeMode)
      && (meta.experimentId == "" || ValidExperimentId(meta.experimentId))
    ensures MergeRequest(body).value.operation in OPERATIONS
  {
    hide TrimSpaces, ValidExperimentId, ProbeName;
  }
}

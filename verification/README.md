# Verification model of the TLS benchmark target

The server stores blobs, answers probes, writes one row per measured operation to an append-only results log, and lets
clients attach their own curl timings to their rows afterwards. This project models that state and its arithmetic in
Dafny, in the form the program has it: objects with fields are classes whose methods are proved against functions, the
concurrent and crashing parts are state machines over their steps, and the claims are about all inputs and all runs.

- `Decimal`, `Json`, `Rows`, `Wire`, `Codec`: a stored row and its JSON line. `Json` is a one-character-at-a-time
  validator for RFC 8259; `Codec` writes and reads rows. Nothing about the text format is assumed: no raw newline, exact
  round trip, no proper prefix decodes, and two rows on one line do not decode are all proved.
- `Framing`, `ResultsLog` (Logger.dfy), `CrashLog`: the log file, the logger's operations on it, and the same operations
  under crashes between any two characters written. `ServedLog` joins the handlers and the protocol to that log, and
  `RowSize` and `ServedSize` say how long its rows are and when it can be read.
- `Merge`, `Pages`: attaching timings to the one matching row, and the newest page.
- `App`, `Experiments`, `TlsListen`, `Handshakes`, `Protocol`: the handlers, and the interleaved steps of many
  connections, streams and clients.
- `BlobNames`, `Blobs`, `BlobRace`: the blob directory one operation at a time, and step by step under concurrency. In
  the second a directory entry links to the file a writer has open, as an inode does. In both the directory itself can
  be removed.
- `Curl`, `Sorting`, `Stats`, `Grouping`: phases, percentiles, and the dashboard's groups.

## What the model shows about the code

- "First request" in the comments of internal/tlslisten/listen.go:26-27 is the first *recorded* request: only `record`
  consumes the counter. A wrapped 64-bit counter would charge two rows in a row (`TlsListen.ChargedIff`).
- A line whose newline alone is missing can still be read, and yet the next, acknowledged append destroys both rows
  (`CrashLog.MissingNewlineLosesTwo`). A later merge heals the file, but not those two rows.
- Every download's timings can be refused for want of a row, because a download records after its body is sent
  (`Protocol.DownloadCanLoseTimings`); probes and uploads are safe.
- Independent merges commute, except merges by name that carry a sample index: each of these rewrites a key that some
  other request uses (`Merge.CommutesIffKeepsKeys`).
- The log can become unreadable for good: a merge, which would heal it, has to read it first (`CrashLog.ReadableIff`).
  No single row gets there; torn appends that pile up on one line do (`ServedSize.ServedLogCanBecomeUnreadable`), but 20
  of them in a row never (`ServedSize.ServedLogReadable`).
- A failed append goes unnoticed by the client, whose timings are then refused (`Protocol.OwnRowAlways`).
- A negative sample index, which the timings endpoint does not refuse, makes probe names collide
  (`Experiments.NegativeIndexCollides`); the endpoint itself only builds names from positive ones.
- With a size limit of 2^63 - 1 the addition of one wraps around and an accepted upload of unknown length is stored
  empty (`Blobs.PutStoresBodyIff`, `Blobs.LargestLimitStoresEmpty`). The re-check of the size after the copy is
  unreachable (`Blobs.Store.Put`).
- An upload that returns an error may have published its body all the same: exactly when only the sidecar failed, and
  then even a body that is not of the announced length stays (`Blobs.FaultDecision`).
- A sidecar's name is a valid blob name (`BlobNames.SidecarIsValidNameIff`); an upload under it spoils the sidecar unless
  it is the very same text (`Blobs.PutOverSidecarIff`, `Blobs.SidecarAgreesIff`).
- A temporary file's name can pass the filter of a listing (`BlobNames.TempIsValidNameIff`), and what is uploaded under
  it can end up under another blob's name (`BlobRace.TempUploadBreaksPublication`).
- The name `.` passes validation and stands for the blob directory: nothing can be stored under it, and deleting it
  removes the directory if that is empty, after which every upload fails (`Blobs.DotIsTheDirectory`).
- Two overlapping uploads of one name can leave a sidecar of the wrong body for good (`BlobRace.SidecarCanBeWrong`), and
  one upload alone can, if writing the sidecar fails after it has been opened (`BlobRace.TornSidecarFitsIff`). The exact
  condition over whole runs is `BlobRace.SidecarsAgreeIff`.
- Publication is atomic exactly as long as nothing else is linked to a temporary name that may still be renamed
  (`BlobRace.PublicationAtomic`, `BlobRace.TempsDecideAtomicity`). The file system gives out only free names, but the
  deferred removal can free a name that a second writer is using (`BlobRace.ReuseBreaksPublication`).
- The dashboard and the server disagree about the interval of an upload with no time to first byte
  (`Rows.DashboardAgrees`).

## Model

| member | source | states |
|---|---|---|
| CrashLog.ReadableThroughout | internal/results/log.go:138-231 | At every moment of every run, with stops at any character of a write or between steps of a rewrite, the log reads as the state before the running operation or after it, never a mixture, unless a line is too long for the scanner |
| CrashLog.ReadableIff | internal/results/log.go:175-192 | The log can be read at a moment iff it could at first and every step since kept its lines below the scanner's 1 MiB; one longer line makes it unreadable for good |
| CrashLog.FinishedRowsStay | internal/results/log.go:83-113 | Over every run with any number of crashes, a row once on a finished line keeps its place and its server-measured columns |
| CrashLog.AcknowledgedRowStays | internal/results/log.go:138-159 | An append acknowledged on a cleanly ending log puts its row behind all others, for good |
| CrashLog.LossBounded | internal/results/log.go:152-158 | Acknowledged rows missing from finished lines never outnumber the appends that were cut short |
| CrashLog.NothingTornNothingLost | internal/results/log.go:138-159 | Without a torn append a readable log has at least as many rows as there were at first plus those acknowledged |
| CrashLog.RewriteHeals | internal/results/log.go:196-231 | A finished rewrite leaves a well-framed file of exactly the decodable rows, merged, in order, whatever stood in the file, readable iff every row fits the scanner |
| CrashLog.MissingNewlineLosesTwo | internal/results/log.go:152-154 | A missing newline alone costs its row and the next appended one, and both were readable or acknowledged |
| ServedLog.StoredRowsValid | internal/results/log.go:83-113 | In every log the server can reach from an empty one, through torn writes, crashes and merges, every row read has valid key columns and its derived throughput |
| ServedLog.ServedGroupIsHomogeneous | web/static/app.js:362-385 | On any page of any such log, all rows of a dashboard group share one experiment, operation and route |
| ServedLog.TimingsFindOwnRowOrNone | internal/results/log.go:269-294 | On the crashing log, timings posted for a sample recorded once find the place its row was meant for or no row; never another row, never several |
| ServedLog.AcknowledgedTimingsFindOwnRow | internal/server/timings.go:48-61 | Once the sample's append is acknowledged, its timings find exactly its row in every later readable log iff the log ended cleanly when the append began; otherwise none |
| ServedSize.ServedLogReadable | internal/results/log.go:175-192 | A served log, with 64-bit numbers and short ASCII texts about connections, can be read as long as at most 20 appends in a row have been torn |
| ServedSize.ServedLogCanBecomeUnreadable | internal/results/log.go:152-192 | There is a run of the server, with 64-bit numbers and short texts, at whose end the log cannot be read |
| ServedSize.ServedLogAscii | internal/results/log.go:138-159 | Every such log is ASCII, torn lines included, so the scanner's limit in bytes is one in characters |
| RowSize.EncodeShort | internal/results/log.go:31-61 | A row of short texts and 64-bit numbers encodes to fewer than 48 KiB of ASCII |
| Framing.FrameRoundTrip | internal/results/log.go:212-220 | A file of framed rows ends in a newline and splits and decodes into exactly those rows in order |
| Framing.FrameFits | internal/results/log.go:161-194 | Such a file is read without error when each row fits the scanner's buffer |
| Framing.AppendView | internal/results/log.go:138-159 | The readable contents after every possible partial write of a row behind every ending the log can have |
| Framing.CutShortAppend | internal/results/log.go:152-154 | After a row is cut at any character, a cleanly ending log reads as before, or with the row if only the newline is missing |
| Framing.AppendReadableIff | internal/results/log.go:175-192 | The exact condition on lengths under which a log remains readable after an append, complete or cut short at any character |
| Framing.FrameReadableIff | internal/results/log.go:212-220 | A file of framed rows is readable iff every row fits the scanner |
| Framing.CarriageReturnDropped | internal/results/log.go:176-187 | A row whose line ends in a carriage return is read all the same |
| Codec.DecodeEncode | internal/results/log.go:31-61 | Every row survives encoding and decoding, for all texts and numbers, omitted zero fields included |
| Codec.EncodePrintable | internal/results/log.go:139-152 | An encoded row has no control character, so no newline, whatever its texts contain |
| Codec.DecodeJoined | internal/results/log.go:178-189 | A row written behind other text on the same line is decodable exactly if that text is blank |
| Codec.DecodeTorn | internal/results/log.go:184-187 | No proper prefix of a row decodes, alone or behind another opening |
| Json.JoinedLineValidIff | internal/results/log.go:184-187 | A self-contained object after any text is valid JSON exactly if that text is blank |
| Json.ProperPrefixInvalid | internal/results/log.go:184-187 | No proper prefix of an encoded object is valid JSON |
| Json.JoinedTornInvalid | internal/results/log.go:184-187 | An object cut short is not valid JSON either behind another opened object |
| Wire.RunMembersRoundTrip | internal/results/log.go:31-61 | The field table with its omitted zero values determines the row |
| Wire.MembersWritten | internal/results/log.go:32-61 | Eight members are always written, any other iff it is not zero |
| ResultsLog.Logger.Append | internal/results/log.go:83-91 | The file grows by exactly the line of the stamped row with its derived throughput, or by the part of it that a failing write got to |
| ResultsLog.ExtendedBy | internal/results/log.go:152-158 | However far an append gets, the old log stays and a beginning of the line follows, all of it if nothing fails |
| ResultsLog.Logger.ReadAllUnlocked | internal/results/log.go:161-194 | The scan returns the decodable rows of all lines, the unfinished last one included, or fails if a line is too long |
| ResultsLog.Logger.RewriteUnlocked | internal/results/log.go:196-231 | The log becomes the framed rows and the temporary file is gone; on any failure the log is untouched and the temporary file removed |
| ResultsLog.Logger.MergeClientTimings | internal/results/log.go:94-113 | On success the file is the framed merged rows and the merged row is returned; on any refusal or failure the log is unchanged |
| ResultsLog.Logger.ReadNewestPage | internal/results/log.go:122-136 | The newest page of whatever the log holds, and the true total |
| ResultsLog.AppendThenRead | internal/results/log.go:83-91 | Appending to a cleanly ending log and reading gives the old rows and the new one last |
| ResultsLog.MergeTextFramed | internal/results/log.go:94-113 | A merge leaves a clean file that reads back as the merged rows |
| Merge.FindIndex | internal/results/log.go:269-294 | The scan with its counter finds the one matching row, or reports none or several |
| Merge.FindMergeIndexMeaning | internal/results/log.go:269-294 | A position is returned iff exactly that row matches; no-match iff none does; ambiguous iff two do |
| Merge.MergeExact | internal/results/log.go:94-113 | A merge succeeds iff exactly one row matches, changes only that row, keeps length, order and all server-measured columns; refused, it changes nothing |
| Merge.MergeIdempotent | internal/results/log.go:94-113 | Repeating any merge leaves the same rows and succeeds again |
| Merge.MergesCommute | internal/results/log.go:269-318 | Merges that cannot rewrite keys and share no matching row give the same rows in either order |
| Merge.DifferentKeysCommute | internal/results/log.go:269-318 | Merges for different (operation, experiment, sample) keys commute on every log |
| Merge.CommutesIffKeepsKeys | internal/results/log.go:269-318 | A merge commutes, on every log, with every key-keeping merge of other rows iff it keeps keys itself: it names an experiment or carries no sample index |
| Merge.NameKeyedMergeDoesNotCommute | internal/results/log.go:308-318 | For every merge by name with a sample index there is a log and an independent merge for which the order matters |
| Merge.AttemptDerived | internal/results/log.go:106-108 | A merge keeps each row's throughput the one its other columns give; over whole runs, see ServedLog.StoredRowsValid |
| Rows.ThroughputMeaning | internal/results/log.go:233-267 | Throughput is non-negative, positive iff bytes and interval are, and times the interval gives the bytes back |
| Rows.ThroughputInterval | internal/results/log.go:245-267 | Before its timings a row's throughput is that of the server's total; after them of the first byte for an upload, of the transfer for anything else, or else of the client's total |
| Rows.DashboardAgrees | web/static/app.js:167-171 | When the dashboard shows an interval it is the server's, except for an upload with no time to first byte, with the exact condition |
| Pages.ReverseInPlace | internal/results/log.go:320-324 | The in-place swaps reverse the array |
| Pages.NewestPageIsLastRows | internal/results/log.go:130-134 | The page is the last min(limit, total) rows in reverse |
| Pages.SmallerPageIsPrefix | internal/results/log.go:132-134 | A smaller page is a prefix of a larger one |
| Pages.ResultsLimit | internal/server/server.go:188-200 | The limit parameter is defaulted, parsed, refused or capped as specified by the function of the raw text |
| Pages.ResultsPage | internal/server/server.go:201-211 | The reply holds the newest rows up to the limit asked for, names that limit and the total, and truncated is true iff some stored row is missing |
| Pages.ResultsPrinted | internal/server/server.go:188-211 | For every printed i > 0 the reply holds exactly the last min(i, 10000, total) rows, newest first, with that limit and the total; others are refused; no limit means 2000 |
| Pages.LimitRefused | internal/server/server.go:190-195 | A limit with any other character in it is refused |
| Pages.LimitOfPrinted | internal/server/server.go:188-200 | Asking for any printed 64-bit number, with any white space around it, yields it, capped to the maximum, or is refused if not positive; white space alone means the default |
| App.Server.Record | internal/server/server.go:305-328 | The counter advances once and one row is appended, filled from connection, headers and handshake; a failing append is not reported |
| App.Server.BenchProbe | internal/server/probe.go:10-35 | A probe with a bad parameter changes nothing and consumes no handshake; any other is recorded before it is answered, and answered also if that fails |
| App.Server.AttachClientTimings | internal/server/timings.go:22-75 | Every body leads to the right status, to a rewritten log only when a merge took place and the rewrite went through, and then to the merged row |
| App.Server.Results | internal/server/server.go:188-212 | Status and page for every raw limit and every log, unreadable ones included |
| App.StatusMeaning | internal/server/timings.go:61-74 | 404 iff no row matches, 409 iff several do, success iff exactly one |
| App.TimingsByName | internal/server/timings.go:53-74 | Without an experiment id, timings are attached iff exactly one row has the body's operation and name, and change only that row to show what was posted; 404 iff no row has them, 409 iff two do |
| App.TimingsByExperiment | internal/results/log.go:276-282 | With one, the same for the rows of that operation, experiment and sample index, whatever their names |
| App.RequestAcceptedIff | internal/server/timings.go:22-60 | Which bodies are accepted, operation by operation and mode by mode, and the status of each refusal |
| App.ServerFaults | internal/server/timings.go:71-72 | A log that cannot be read or rewritten is answered with 500 |
| App.ProbeRunMeans | internal/server/probe.go:10-32 | A probe is accepted iff its id is valid, its index positive and its mode empty or listed; its row shows all three, and its name can be taken apart again |
| App.ProbeKeepsRoute | internal/server/probe.go:21-31 | A listed mode in a probe, with any white space around it, is the mode of its row |
| App.HeaderKeepsRoute | internal/server/server.go:331-335 | A listed mode in a header is the stored row's mode; without one, or with an unlisted one, the handler's stays |
| App.BodyKeepsRoute | internal/server/timings.go:42-50 | A listed mode in a posted body becomes the row's mode; an empty one keeps it |
| App.BlobRowShows | internal/server/server.go:246-295 | The stored row of a generation, upload or download shows name, size and durations, and the throughput of its total |
| App.NameIrrelevant | internal/results/log.go:276-282 | With an experiment id the name decides nothing |
| App.SampleHeaderDecides | internal/server/server.go:339-343 | Any printed positive 64-bit index is read back; other numbers and an absent header are ignored |
| Experiments.ProbeNameRoundTrip | internal/server/probe.go:37-39 | Experiment id and index can be read back from a probe name, whatever dashes and digits the id contains |
| Experiments.ProbeNameEqualIff | internal/server/probe.go:37-39 | Probe names are equal iff ids and indices are, up to a minus sign read as a dash |
| Experiments.NegativeIndexCollides | internal/server/probe.go:37-39 | Every negative index collides with a positive one under another id |
| Experiments.ParseRouteModeIff | internal/server/validate.go:28-37 | A text is refused iff, trimmed, it is neither empty nor one of the five modes; otherwise it stands for itself |
| Experiments.ListedModeParses | internal/server/validate.go:28-37 | Each of the five modes, with any white space around it, is parsed to itself |
| Experiments.ExperimentIdIff | internal/server/validate.go:21-26 | An id is 1 to 128 characters of the stated ASCII codes |
| Decimal.AtoiRefuses | internal/server/probe.go:16-20 | Anything but digits behind at most one sign is no number |
| Decimal.AtoiPrintAny | internal/server/probe.go:16-20 | A printed number is read back iff it fits 64 bits |
| Decimal.AtoiAccepts | internal/server/server.go:340-341 | A plus sign and leading zeros make no difference |
| Decimal.PrintNatDigits | internal/server/probe.go:37-39 | A printed number is its last digit behind the number without it |
| Text.WhiteOrNot | internal/server/validate.go:29-29 | Blanks, tabs and line ends are white space, visible ASCII characters are not |
| TlsListen.Meta.ConsumeHandshake | internal/tlslisten/listen.go:28-37 | The counter advances by one in 64 bits and the answer depends on the new count |
| TlsListen.ChargedIff | internal/tlslisten/listen.go:28-37 | The k-th recorded request of a connection is charged iff k modulo 2^64 is 0 or 1; below 2^64 iff it is the first |
| TlsListen.Tracker.Accept | internal/tlslisten/listen.go:97-121 | Failed handshakes leave no trace; the first established connection is stored with a fresh counter, a listener error ends the loop |
| TlsListen.Tracker.SetConnState | internal/tlslisten/listen.go:63-70 | Closing or hijacking removes exactly that connection |
| TlsListen.Tracker.ConnContext | internal/tlslisten/listen.go:48-61 | Metadata is found iff the connection is tracked |
| TlsListen.Replay | internal/tlslisten/listen.go:63-121 | After any history of accepts and state changes the tracker holds exactly the connections established and since neither closed nor hijacked |
| Handshakes.ChargedAtMostOnce | internal/tlslisten/listen.go:28-69 | Over every interleaving of accepts, state changes, streams, appends and merges the tracker's keys are the connections established and since neither closed nor hijacked, every served one carries metadata, at most one row of a connection is not reused, and reused rows have server handshake 0 |
| Handshakes.ChargedExactlyOnce | internal/server/server.go:318-327 | When all of a connection's n >= 1 requests have their rows, exactly one is not reused and it carries the handshake time |
| Protocol.RowForKey | internal/server/server.go:330-344 | The row recorded for a sample matches that sample's key and no other |
| Protocol.BodyForKey | scripts/vm-bench.sh:222-237 | The body the client script posts becomes a merge for that sample's key |
| Protocol.PostFinds | internal/results/log.go:269-294 | In every reachable log a sample's merge finds its own row if recorded, and otherwise none; never several |
| Protocol.OwnRowAlways | internal/server/probe.go:26-34 | Over every interleaving of samples with distinct keys, the timings of every probe and upload reach exactly their own row, or no row iff the append of that row failed |
| Protocol.PostSucceedsIff | internal/server/timings.go:48-74 | For any operation, timings succeed iff the sample's row is recorded by then, and the row then shows all seven phases |
| Protocol.PostedTimelineAddsUp | internal/timing/phases.go:30-46 | A timeline that curl measured and posted ends up in the sample's own row as phases that add up to the client's total, less the wait between set-up and transfer |
| Protocol.DownloadCanLoseTimings | internal/server/server.go:268-295 | For every download key there is a run whose timings are refused although its row is recorded later |
| Blobs.CopyLimited | internal/blobs/store.go:229-237 | For every way the reader cuts its bytes, the copy loop ends, takes at most the limit and yields the same prefix |
| Blobs.Source.Next | internal/blobs/store.go:229-230 | A read delivers a prefix of what is left, and fails or ends only when nothing is |
| Blobs.Store.WriteFrom | internal/blobs/store.go:206-275 | An error and an unchanged directory, or the blob and its sidecar in place, or, if only the sidecar failed, an error and the blob with the old or a torn sidecar; never a temporary file |
| Blobs.Store.Put | internal/blobs/store.go:93-122 | The directory and result of every upload, a missing directory and failing writes included, and a bound on what is read from the body |
| Blobs.Store.Generate | internal/blobs/store.go:75-90 | The directory and result of every generation, refusals, a missing directory and failing writes included |
| Blobs.Store.Delete | internal/blobs/store.go:178-195 | Two removals: blob and sidecar, or the directory itself if it is named and empty; the result is that of the first |
| Blobs.Store.Open | internal/blobs/store.go:125-148 | Content, size and trimmed sidecar of an existing blob, a handle on the directory itself, or the right refusal |
| Blobs.Store.List | internal/blobs/store.go:151-175 | Exactly the valid non-sidecar files in directory order, or an error when the directory is gone |
| Blobs.PutDecision | internal/blobs/store.go:93-122 | Below 2^63-1, Put accepts iff the name is valid and not ".", the body is within the limit and of the announced length, and stores exactly it; a wrong length leaves the name absent, every other refusal leaves the directory unchanged |
| Blobs.PutStoresBodyIff | internal/blobs/store.go:105-106 | What an accepted Put stored is the body, except for an unannounced non-empty body under the largest 64-bit limit |
| Blobs.LargestLimitStoresEmpty | internal/blobs/store.go:105-106 | At that limit every body of unknown length is accepted and an empty blob stored |
| Blobs.GenerateDecision | internal/blobs/store.go:75-90 | Generation succeeds iff the name is valid and not ".", the size is acceptable and the source holds as many bytes; it stores exactly those and returns name, size and hash of them; otherwise the directory is unchanged |
| Blobs.FaultDecision | internal/blobs/store.go:241-253 | A refused rename undoes the upload; a failed sidecar returns an error but leaves the body in place, of whatever length, and a torn sidecar is never the right one |
| Blobs.DotIsTheDirectory | internal/blobs/store.go:178-195 | The name "." passes validation but stores nothing; deleting it removes the directory iff it is empty, and then every upload and generation fails |
| Blobs.DeleteAnswers | internal/blobs/store.go:178-195 | For any other valid name Delete answers success iff there was a blob to open, and otherwise not found |
| Blobs.DeleteTwice | internal/blobs/store.go:178-195 | After an accepted upload a first deletion succeeds and a second finds nothing |
| Blobs.OpenAfterPut | internal/blobs/store.go:125-148 | What is stored under a valid name other than "." is opened with its size and hash, and not found once deleted |
| Blobs.FailedReadChangesNothing | internal/blobs/store.go:231-236 | A failing reader publishes nothing |
| Blobs.LateFailureUnnoticed | internal/blobs/store.go:105-106 | A reader that would fail only behind the limit is treated as one that ends cleanly |
| Blobs.SequentialAgreement | internal/blobs/store.go:206-275 | After any sequence of non-overlapping, fault-free operations that change nothing under .sha256 names, the directory is exactly the blobs of an abstract store and one correct sidecar each, unless "." was deleted while no blob was stored, and then it is gone |
| Blobs.SidecarAgreesIff | internal/blobs/store.go:246-253 | After any operations on any names, a blob and its sidecar agree iff nothing happened under the sidecar's name since the blob last changed, or what happened there last fits |
| Blobs.OthersKeepSidecar | internal/blobs/store.go:246-253 | Operations on other names, sidecars of other blobs included, never spoil a blob's sidecar |
| Blobs.PutOverSidecarIff | internal/blobs/store.go:284-295 | An upload under a stored blob's sidecar name keeps agreement iff it is the very text of the sidecar |
| Blobs.ListedMeans | internal/blobs/store.go:151-175 | What any listing contains, both directions |
| Blobs.ListedInOrder | internal/blobs/store.go:156-173 | Files are listed in the order of the directory, each at most once |
| Blobs.ListShowsBlobs | internal/blobs/store.go:151-175 | A listing of such a directory shows exactly the blobs with their sizes and hashes |
| BlobNames.SidecarIsValidNameIff | internal/blobs/store.go:284-295 | When a sidecar's name is itself an acceptable blob name |
| BlobNames.TempIsValidNameIff | internal/blobs/store.go:208-208 | When a temporary file's name passes the listing's filter |
| BlobNames.HashNameIsPlainOfNone | internal/blobs/store.go:280-282 | A sidecar's name is never temp-shaped and never one of the names the guarantees are about |
| BlobNames.ValidNameIff | internal/blobs/store.go:284-295 | A blob name is 1 to 128 characters of the stated ASCII codes without two dots in a row, so it holds no slash |
| BlobRace.PublicationAtomic | internal/blobs/store.go:206-253 | Over every interleaving of writers, deletions and clean-ups under any valid names that links nothing else to a temporary name which may still be renamed, the file under any name that is not temporary is the whole of what one writer copied under it, within the limit, or a sidecar the store wrote |
| BlobRace.TempsDecideAtomicity | internal/blobs/store.go:206-248 | That condition is exact: a further step respects it iff every careful continuation leaves only completely filled files of their own writers under final names |
| BlobRace.OpenedFileIsFrozen | internal/blobs/store.go:125-148 | A reader that opened a published file reads the same bytes ever after |
| BlobRace.ReuseBreaksPublication | internal/blobs/store.go:214-223 | Such a reuse can come about: the deferred removal of one writer frees the temporary name of another, and an unfinished file is published |
| BlobRace.TempUploadBreaksPublication | internal/blobs/store.go:284-295 | For any two bodies there is a run in which an upload under a temporary name is renamed over that temporary file's blob |
| BlobRace.SidecarCanBeWrong | internal/blobs/store.go:250-257 | For any two bodies with different hashes there is a run of two writers that ends with the wrong sidecar |
| BlobRace.SidecarsAgreeIff | internal/blobs/store.go:246-253 | Over whole runs: whenever no writer of a blob has still to write its sidecar, the sidecar beside it is its hash, iff each last sidecar of overlapping writers, and each upload under the sidecar's name, fitted the bytes in place; a torn write never does |
| BlobRace.SidecarsAgreeInTurn | internal/blobs/store.go:246-253 | In particular if each writer writes its sidecar while its own file is in place, and nothing is uploaded under the sidecar's name |
| BlobRace.TornSidecarFitsIff | internal/blobs/store.go:251-253 | One writer is enough: when its last sidecar write fails after the opening, blob and sidecar agree iff the blob has been removed meanwhile |
| Curl.StoredPhasesExact | internal/timing/phases.go:30-46 | Every phase is a whole, non-negative number of microseconds |
| Curl.PhasesConserveTotal | internal/timing/phases.go:30-68 | For every timeline the phases add up to the client's total less the wait between set-up and transfer, exactly |
| Curl.PhasesAccurate | internal/timing/phases.go:30-68 | On a timeline every phase, the redirect included, is within 0.001 ms of the unrounded one |
| Curl.PhasesAccurateAlways | internal/timing/phases.go:48-68 | The same for all times whatever, where a negative time or difference counts as none |
| Curl.HalvesRoundUp | internal/timing/phases.go:63-68 | Halves of a microsecond are rounded up |
| Sorting.SortInPlace | internal/timing/stats.go:30-30 | The array ends as the stable sort of its old contents |
| Sorting.SortBySorts | internal/timing/stats.go:30-30 | The result is ordered and a permutation |
| Sorting.SortByStable | web/static/app.js:382-384 | Elements of equal rank keep their order |
| Stats.Summarize | internal/timing/stats.go:17-40 | The loop, sort and percentiles compute the summary of the positive samples |
| Stats.PercentilesAgree | web/static/app.js:340-348 | The server's percentile equals the dashboard's, written out separately, and that of scripts/vm-bench.sh:187-194, on all lists and percentages |
| Stats.PercentileAt | internal/timing/stats.go:42-57 | The percentile at position k + w is the sample at k plus the share w of the step to the next |
| Stats.FirstLastMedian | internal/timing/stats.go:42-57 | The 0th and 100th percentiles are the first and last sample, the 50th is the median |
| Stats.SummaryFigures | internal/timing/stats.go:31-39 | Count, extremes and the three percentiles, read off the ascending list of the positive samples |
| Stats.MeanTimesCount | internal/timing/stats.go:18-35 | The count is that of the positive samples, and the mean times it is their sum |
| Stats.PercentileBetweenNeighbours | internal/timing/stats.go:42-57 | A percentile lies between its two neighbouring samples |
| Stats.PercentileMonotone | internal/timing/stats.go:42-57 | A higher percentile is never smaller |
| Stats.SummaryOrdered | internal/timing/stats.go:31-39 | Min <= P50 <= P90 <= P99 <= Max and Min <= Mean <= Max for every input |
| Stats.SummaryMonotone | internal/timing/stats.go:17-57 | Pointwise smaller positive samples give a smaller or equal summary in every figure |
| Stats.SummaryInvariant | internal/timing/stats.go:17-30 | The summary depends only on the multiset of positive samples |
| Stats.SummaryIgnoresNonPositive | internal/timing/stats.go:20-23 | A non-positive sample inserted anywhere changes nothing |
| Stats.DashboardSummaryAgrees | web/static/app.js:350-360 | The dashboard's figures are the server's |
| Grouping.GroupRuns | web/static/app.js:367-385 | One pass and one sort produce exactly the groups and the single rows |
| Grouping.GroupsPartition | web/static/app.js:370-381 | Each row is found in its own group as often as it occurs, and in no other |
| Grouping.GroupsDescendStably | web/static/app.js:382-384 | Within a group the sample index never increases and ties keep their order |
| Grouping.KeysSeparate | web/static/app.js:362-365 | On rows the server writes, keys are equal iff experiment, operation and route are |

`App.HeadersDecide`, `App.RecordedShows` and `Merge.MergedShowsMeta` describe, column by
column, what the handlers' functions do with headers, connections and bodies.

## Left out

- Floating point: milliseconds are whole microseconds and written as such, throughput is an exact fraction written as
  its two numbers, statistics are over the reals; IEEE rounding, NaN and the printing of floats are not modelled.
- Timestamps are an integer instant (0 for the zero time), not RFC 3339 text. Append stamps before it takes the lock, so
  no order of timestamps is claimed.
- Text: strings are sequences of characters; replacement of invalid UTF-8, the escaping of U+2028 and U+2029, and
  surrogate pairs are not modelled.
- Codec.DecodeEncode: durations are written as whole microseconds and a throughput as two numbers; the decoder accepts
  flat objects of the known kinds of values; null, unknown nested values, case-insensitive keys and overflow of 64-bit
  numbers are not modelled, since no line the server wrote contains them.
- CrashLog.ReadableThroughout: a crash stops the process, a rename is atomic and written bytes remain: loss of power is
  not modelled.
- Protocol.OwnRowAlways: a failed append leaves no row and no torn line in that machine;
  ServedLog.AcknowledgedTimingsFindOwnRow says what becomes of a sample when torn lines are possible. Sample keys are
  distinct, and merges from outside are those that cannot rewrite a key.
- ServedSize.ServedLogReadable: the bound on a row is generous, since it counts six characters for each of a text; the
  exact number of torn appends that hurt depends on the rows.
- Handshakes.ChargedAtMostOnce: fewer than 2^64 requests per connection; TlsListen.ChargedIff says what happens beyond.
- Blobs.Store.Open: modification times, the size reported for the directory itself and errors other than a missing file
  are not modelled.
- Blobs.SequentialAgreement: changes under names ending in .sha256 are excluded; what they do to each blob is
  Blobs.SidecarAgreesIff. Faults are excluded there too; what one does is Blobs.FaultDecision.
- BlobRace.SidecarsAgreeIff: a hash is one line of text. A sidecar written over an upload under its name is a new file,
  where the system would empty the uploaded one; two writes of one sidecar do not mix.
- SHA-256 is any function from texts to texts; the free name CreateTemp finds is a parameter; errors of chmod, sync, stat
  and close, modification times, write and read durations and messages to the standard log are left out.
- Library sorting is modelled by an in-place insertion sort. The rounding to three decimals and the printed form of the
  benchmark script's summary are left out.
- Certificates, TLS configuration, reading the environment, routing, response headers, bearer tokens, start-up and
  shutdown, rendering of the dashboard, containers and manifests: no state or arithmetic of the above depends on them.

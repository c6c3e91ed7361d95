/**
 One row of the results log and the arithmetic derived from it.

 Every duration of the server and of its clients is a whole number of microseconds, so times are kept as integers
 counting microseconds; a throughput is kept as the exact fraction it is computed from.
 */
module Rows {
  /** bytes moved in micros microseconds; (0, 0) stands for no throughput at all. */
  datatype Rate = Rate(bytes: int, micros: int) {
    /** The value in MiB per second. */
    function MiBs(): real {
      if micros == 0 then 0.0
      else bytes as real / 1048576.0 / (micros as real / 1000000.0)
    }
  }

  datatype Run = Run(
    timestamp: int,  // an instant; 0 is Go's zero time
    operation: string,
    name: string,
    bytes: int,
    tls: bool,
    clientAddr: string,
    writeUs: int,
    readUs: int,
    totalUs: int,
    throughput: Rate,
    tlsVersion: string,
    cipher: string,
    keyAlgorithm: string,
    keySize: int,
    keyCurve: string,
    dnsUs: int,
    tcpUs: int,
    handshakeUs: int,        // measured by the client
    serverHandshakeUs: int,  // measured by the server
    reused: bool,
    redirectUs: int,
    ttfbUs: int,
    transferUs: int,
    clientTotalUs: int,
    alpn: string,
    routeMode: string,
    experimentId: string,
    sampleIndex: int)

  const ZERO_RUN := Run(
    0, "", "", 0, false, "", 0, 0, 0, Rate(0, 0), "", "", "", 0, "", 0, 0, 0, 0, false, 0, 0, 0, 0, "", "", "", 0)

  /** The client's phase breakdown, in microseconds. */
  datatype Phases = Phases(
    dnsUs: int, tcpUs: int, handshakeUs: int, redirectUs: int, ttfbUs: int, transferUs: int, clientTotalUs: int)

  /** The phase columns of a row. */
  function PhasesShown(run: Run): Phases {
    Phases(run.dnsUs, run.tcpUs, run.handshakeUs, run.redirectUs, run.ttfbUs, run.transferUs, run.clientTotalUs)
  }

  /** The client interval that moved the blob's bytes. */
  function BulkMicros(run: Run): int {
    if run.operation == "upload" && run.ttfbUs > 0 then run.ttfbUs
    else if run.operation != "upload" && run.transferUs > 0 then run.transferUs
    else if run.clientTotalUs > 0 then run.clientTotalUs
    else run.totalUs
  }

  function Throughput(run: Run): Rate {
    if run.bytes <= 0 || BulkMicros(run) <= 0 then Rate(0, 0)
    else Rate(run.bytes, BulkMicros(run))
  }

  /** Throughput is never negative, and multiplied by the bulk interval it gives the byte count back. */
  lemma ThroughputMeaning(run: Run)
    ensures Throughput(run).MiBs() >= 0.0
    ensures Throughput(run).MiBs() > 0.0 <==> run.bytes > 0 && BulkMicros(run) > 0
    ensures run.bytes > 0 && BulkMicros(run) > 0 ==>
              Throughput(run).MiBs() * (BulkMicros(run) as real / 1000000.0) * 1048576.0 == run.bytes as real
  {
    if run.bytes > 0 && BulkMicros(run) > 0 {
      var b := run.bytes as real / 1048576.0;
      var seconds := BulkMicros(run) as real / 1000000.0;
      assert b > 0.0 && seconds > 0.0;
      QuotientTimes(b, seconds);
    }
  }

  /** The rate at which so many bytes move in so many microseconds. */
  ghost predicate IsRate(rate: real, bytes: int, micros: int) {
    rate * (micros as real / 1000000.0) * 1048576.0 == bytes as real
  }

  /**
   Before its timings arrive a row's throughput is that of the server's own total. After that it is that of the time to
   first byte for an upload and of the transfer for anything else, and where that is missing of the client's total.
   */
  lemma ThroughputInterval(run: Run)
    requires run.bytes > 0
    ensures run.ttfbUs == 0 && run.transferUs == 0 && run.clientTotalUs == 0 && run.totalUs > 0 ==>
              IsRate(Throughput(run).MiBs(), run.bytes, run.totalUs)
    ensures run.operation == "upload" && run.ttfbUs > 0 ==> IsRate(Throughput(run).MiBs(), run.bytes, run.ttfbUs)
    ensures run.operation != "upload" && run.transferUs > 0 ==>
              IsRate(Throughput(run).MiBs(), run.bytes, run.transferUs)
    ensures (if run.operation == "upload" then run.ttfbUs else run.transferUs) <= 0 && run.clientTotalUs > 0 ==>
              IsRate(Throughput(run).MiBs(), run.bytes, run.clientTotalUs)
  {
    ThroughputMeaning(run);
    hide Throughput;
  }

  lemma QuotientTimes(a: real, b: real)
    requires a > 0.0 && b > 0.0
    ensures a / b > 0.0 && a / b * b == a
  {
  }

  /** The interval the dashboard shows for a row. */
  function DashboardBulkMicros(run: Run): int {
    if run.operation == "upload" && run.ttfbUs > 0 then run.ttfbUs
    else if run.transferUs > 0 then run.transferUs
    else 0
  }

  /**
   The dashboard shows the interval behind the stored throughput exactly when it shows anything at all and the row
   is not an upload that lacks a time to first byte, or when both are that same transfer time.
   */
  lemma DashboardAgrees(run: Run)
    requires DashboardBulkMicros(run) > 0
    ensures DashboardBulkMicros(run) == BulkMicros(run)
       <==> (run.operation == "upload" && run.ttfbUs <= 0 ==>
              run.transferUs == if run.clientTotalUs > 0 then run.clientTotalUs else run.totalUs)
  {
  }
}

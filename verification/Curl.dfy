/** Turning curl's cumulative seconds into non-overlapping phases, over the reals. */
module Curl {
  import Rows

  datatype Times = Times(
    namelookup: real, connect: real, appconnect: real, pretransfer: real, starttransfer: real, redirect: real,
    total: real)

  /** Phases in milliseconds. */
  datatype PhasesMs = PhasesMs(
    dns: real, tcp: real, tls: real, redirect: real, ttfb: real, transfer: real, clientTotal: real)

  /** To the nearest integer, halves away from zero. */
  function Round(x: real): int {
    if x >= 0.0 then (x + 0.5).Floor else -(-x + 0.5).Floor
  }

  function SecondsToMs(seconds: real): real {
    if seconds <= 0.0 then 0.0 else Round(seconds * 1000.0 * 1000.0) as real / 1000.0
  }

  function Delta(end: real, start: real): real {
    if end - start < 0.0 then 0.0 else Round((end - start) * 1000.0) as real / 1000.0
  }

  function TlsDelta(appconnect: real, connect: real): real {
    if appconnect <= 0.0 then 0.0 else Delta(appconnect, connect)
  }

  function PhasesFromCurl(t: Times): PhasesMs {
    var namelookup := SecondsToMs(t.namelookup);
    var connect := SecondsToMs(t.connect);
    var appconnect := SecondsToMs(t.appconnect);
    var pretransfer := SecondsToMs(t.pretransfer);
    var starttransfer := SecondsToMs(t.starttransfer);
    var total := SecondsToMs(t.total);
    PhasesMs(namelookup, Delta(connect, namelookup), TlsDelta(appconnect, connect), SecondsToMs(t.redirect),
             Delta(starttransfer, pretransfer), Delta(total, starttransfer), total)
  }

  // ----- the microsecond lattice

  /** The whole microseconds nearest to a positive number of seconds. */
  function Micros(seconds: real): (m: int)
    ensures m >= 0
  {
    if seconds <= 0.0 then 0 else Round(seconds * 1000000.0)
  }

  function Ms(micros: int): real {
    micros as real / 1000.0
  }

  lemma SecondsToMsOnLattice(seconds: real)
    ensures SecondsToMs(seconds) == Ms(Micros(seconds))
  {
    assert seconds * 1000.0 * 1000.0 == seconds * 1000000.0;
  }

  /** Rounding a whole number of microseconds changes nothing. */
  lemma DeltaOnLattice(a: int, b: int)
    ensures Delta(Ms(a), Ms(b)) == if a < b then 0.0 else Ms(a - b)
  {
    hide Round;
    assert (Ms(a) - Ms(b)) * 1000.0 == (a - b) as real;
    RoundWhole(a - b);
  }

  lemma RoundWhole(n: int)
    ensures Round(n as real) == n
  {
  }

  lemma RoundMonotone(x: real, y: real)
    requires x <= y
    ensures Round(x) <= Round(y)
  {
  }

  lemma RoundNear(x: real)
    ensures -0.5 <= Round(x) as real - x <= 0.5
  {
  }

  lemma MicrosMonotone(x: real, y: real)
    requires x <= y
    ensures Micros(x) <= Micros(y)
  {
    if x > 0.0 {
      RoundMonotone(x * 1000000.0, y * 1000000.0);
    }
  }

  lemma MicrosNear(x: real)
    requires x >= 0.0
    ensures -0.5 <= Micros(x) as real - x * 1000000.0 <= 0.5
  {
    RoundNear(x * 1000000.0);
  }

  // ----- what the phases mean

  /** curl's time stamps in the order things happen; a plain HTTP transfer has no appconnect. */
  predicate Timeline(t: Times) {
    && 0.0 <= t.namelookup <= t.connect <= t.pretransfer <= t.starttransfer <= t.total
    && (t.appconnect == 0.0 || t.connect <= t.appconnect <= t.pretransfer)
    && t.redirect >= 0.0
  }

  /** The end of the connection set-up. */
  function SetUp(t: Times): real {
    if t.appconnect > t.connect then t.appconnect else t.connect
  }

  /** Every phase is a whole number of microseconds: what the log stores of it is exact. */
  function StoredPhases(t: Times): Rows.Phases {
    var n, c, a := Micros(t.namelookup), Micros(t.connect), Micros(t.appconnect);
    var p, s, e := Micros(t.pretransfer), Micros(t.starttransfer), Micros(t.total);
    Rows.Phases(n, Gap(c, n), if a == 0 then 0 else Gap(a, c), Micros(t.redirect), Gap(s, p), Gap(e, s), e)
  }

  function Gap(end: int, start: int): (g: int)
    ensures g >= 0
  {
    if end < start then 0 else end - start
  }

  lemma StoredPhasesExact(t: Times)
    ensures var p, s := PhasesFromCurl(t), StoredPhases(t);
      && p == PhasesMs(Ms(s.dnsUs), Ms(s.tcpUs), Ms(s.handshakeUs), Ms(s.redirectUs), Ms(s.ttfbUs), Ms(s.transferUs),
                       Ms(s.clientTotalUs))
      && s.dnsUs >= 0 && s.tcpUs >= 0 && s.handshakeUs >= 0 && s.redirectUs >= 0 && s.ttfbUs >= 0
      && s.transferUs >= 0 && s.clientTotalUs >= 0
  {
    hide SecondsToMs, Delta, Micros;
    SecondsToMsOnLattice(t.namelookup);
    SecondsToMsOnLattice(t.connect);
    SecondsToMsOnLattice(t.appconnect);
    SecondsToMsOnLattice(t.pretransfer);
    SecondsToMsOnLattice(t.starttransfer);
    SecondsToMsOnLattice(t.total);
    SecondsToMsOnLattice(t.redirect);
    DeltaOnLattice(Micros(t.connect), Micros(t.namelookup));
    DeltaOnLattice(Micros(t.appconnect), Micros(t.connect));
    DeltaOnLattice(Micros(t.starttransfer), Micros(t.pretransfer));
    DeltaOnLattice(Micros(t.total), Micros(t.starttransfer));
  }

  lemma StoredPhasesConserveTotal(t: Times)
    requires Timeline(t)
    ensures var s := StoredPhases(t);
      s.dnsUs + s.tcpUs + s.handshakeUs + s.ttfbUs + s.transferUs
      == s.clientTotalUs - (Micros(t.pretransfer) - Micros(SetUp(t)))
  {
    hide Micros;
    MicrosMonotone(t.namelookup, t.connect);
    MicrosMonotone(t.pretransfer, t.starttransfer);
    MicrosMonotone(t.starttransfer, t.total);
    MicrosOfZero();
    if t.appconnect != 0.0 {
      MicrosMonotone(t.connect, t.appconnect);
    }
  }

  /**
   The phases add up: together they are the client's total, less the wait between set-up and the start of the
   transfer, exactly and on the rounded values.
   */
  lemma PhasesConserveTotal(t: Times)
    requires Timeline(t)
    ensures var p := PhasesFromCurl(t);
      p.dns + p.tcp + p.tls + p.ttfb + p.transfer
      == p.clientTotal - (SecondsToMs(t.pretransfer) - SecondsToMs(SetUp(t)))
  {
    StoredPhasesExact(t);
    StoredPhasesConserveTotal(t);
    SecondsToMsOnLattice(t.pretransfer);
    SecondsToMsOnLattice(SetUp(t));
    hide SecondsToMs, PhasesFromCurl, Micros, StoredPhases;
  }

  lemma MicrosOfZero()
    ensures Micros(0.0) == 0
  {
  }

  predicate Within(x: real, y: real) {
    -0.001 <= x - y <= 0.001
  }

  /** Nothing before time zero, and nothing that ends before it starts. */
  function Clamp(x: real): real {
    if x < 0.0 then 0.0 else x
  }

  /**
   For all times whatever, every phase is within a microsecond of the unrounded difference of the time stamps, where a
   negative time or difference counts as none.
   */
  lemma PhasesAccurateAlways(t: Times)
    ensures var p := PhasesFromCurl(t);
      && Within(p.dns, Clamp(t.namelookup) * 1000.0)
      && Within(p.tcp, Clamp(Clamp(t.connect) - Clamp(t.namelookup)) * 1000.0)
      && Within(p.tls, Clamp(Clamp(t.appconnect) - Clamp(t.connect)) * 1000.0)
      && Within(p.redirect, Clamp(t.redirect) * 1000.0)
      && Within(p.ttfb, Clamp(Clamp(t.starttransfer) - Clamp(t.pretransfer)) * 1000.0)
      && Within(p.transfer, Clamp(Clamp(t.total) - Clamp(t.starttransfer)) * 1000.0)
      && Within(p.clientTotal, Clamp(t.total) * 1000.0)
  {
    StoredPhasesExact(t);
    hide PhasesFromCurl, Micros;
    MicrosNearClamped(t.namelookup);
    MicrosNearClamped(t.redirect);
    MicrosNearClamped(t.total);
    GapNear(t.connect, t.namelookup);
    GapNear(t.appconnect, t.connect);
    GapNear(t.starttransfer, t.pretransfer);
    GapNear(t.total, t.starttransfer);
  }

  lemma MicrosNearClamped(x: real)
    ensures -0.5 <= Micros(x) as real - Clamp(x) * 1000000.0 <= 0.5
  {
    MicrosOfZero();
    if x > 0.0 {
      MicrosNear(x);
    }
  }

  lemma GapNear(end: real, start: real)
    ensures -1.0 <= Gap(Micros(end), Micros(start)) as real - Clamp(Clamp(end) - Clamp(start)) * 1000000.0 <= 1.0
    ensures Micros(end) == 0 ==> Gap(Micros(end), Micros(start)) == 0
  {
    MicrosNearClamped(end);
    MicrosNearClamped(start);
    hide Micros;
  }

  /** On a timeline the differences are those of the time stamps themselves. */
  lemma PhasesAccurate(t: Times)
    requires Timeline(t)
    ensures var p := PhasesFromCurl(t);
      && Within(p.dns, t.namelookup * 1000.0)
      && Within(p.tcp, (t.connect - t.namelookup) * 1000.0)
      && Within(p.tls, (SetUp(t) - t.connect) * 1000.0)
      && Within(p.redirect, t.redirect * 1000.0)
      && Within(p.ttfb, (t.starttransfer - t.pretransfer) * 1000.0)
      && Within(p.transfer, (t.total - t.starttransfer) * 1000.0)
      && Within(p.clientTotal, t.total * 1000.0)
  {
    PhasesAccurateAlways(t);
    hide PhasesFromCurl;
  }

  /** Halves of a microsecond are rounded up. */
  lemma HalvesRoundUp(n: nat)
    ensures Micros((n as real + 0.5) / 1000000.0) == n + 1
  {
    assert (n as real + 0.5) / 1000000.0 * 1000000.0 == n as real + 0.5;
  }
}

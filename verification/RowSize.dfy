/**
 How long an encoded row can be, and that it is ASCII: then characters are bytes, and the scanner's limit means the same
 in both.
 */
module RowSize {
  import opened Decimal
  import opened Rows
  import opened Wire
  import opened Codec

  const MAX_TEXT := 256
  const MAX_KEY := 32
  const MAX_FIELDS := 28

  /** A bound on the characters of one member of the object: each character of a text takes at most six. */
  const MAX_MEMBER := (6 * MAX_KEY + 2) + 1 + (6 * MAX_TEXT + 2)

  /** A bound on an encoded row. */
  const MAX_ROW := 2 + MAX_FIELDS * (MAX_MEMBER + 1)

  predicate Ascii(s: string) {
    forall i :: 0 <= i < |s| ==> s[i] < 128 as char
  }

  predicate Int64(i: int) {
    -0x8000_0000_0000_0000 <= i < 0x8000_0000_0000_0000
  }

  predicate SmallText(s: string) {
    |s| <= MAX_TEXT && Ascii(s)
  }

  predicate SmallItem(v: Item) {
    match v
    case Str(t) => SmallText(t)
    case Int(i) => Int64(i)
    case Flag(_) => true
    case Ratio(n, d) => Int64(n) && Int64(d)
  }

  /** The numbers that were measured fit 64 bits, and what the connection says about itself is short. */
  predicate Measured(run: Run) {
    && Int64(run.timestamp) && Int64(run.bytes) && Int64(run.writeUs) && Int64(run.readUs) && Int64(run.totalUs)
    && Int64(run.keySize) && Int64(run.serverHandshakeUs) && Int64(run.sampleIndex)
    && SmallText(run.clientAddr) && SmallText(run.tlsVersion) && SmallText(run.cipher) && SmallText(run.keyAlgorithm)
    && SmallText(run.keyCurve) && SmallText(run.alpn)
  }

  predicate SmallPhases(p: Phases) {
    && Int64(p.dnsUs) && Int64(p.tcpUs) && Int64(p.handshakeUs) && Int64(p.redirectUs) && Int64(p.ttfbUs)
    && Int64(p.transferUs) && Int64(p.clientTotalUs)
  }

  predicate SmallNames(run: Run) {
    SmallText(run.operation) && SmallText(run.name) && SmallText(run.routeMode) && SmallText(run.experimentId)
  }

  predicate Small(run: Run) {
    && Measured(run) && SmallPhases(PhasesShown(run)) && SmallNames(run)
    && Int64(run.throughput.bytes) && Int64(run.throughput.micros)
  }

  // ----- numbers

  function Pow10(k: nat): nat {
    if k == 0 then 1 else 10 * Pow10(k - 1)
  }

  lemma {:induction false} PrintNatShort(n: nat, k: nat)
    requires k > 0 && n < Pow10(k)
    ensures |PrintNat(n)| <= k
  {
    if n >= 10 {
      PrintNatShort(n / 10, k - 1);
    }
  }

  lemma ThreeMore(k: nat)
    ensures Pow10(k + 3) == 1000 * Pow10(k)
  {
    assert Pow10(k + 3) == 10 * Pow10(k + 2) && Pow10(k + 2) == 10 * Pow10(k + 1);
  }

  lemma PowerOfNineteen()
    ensures Pow10(19) == 10_000_000_000_000_000_000
  {
    assert Pow10(1) == 10;
    hide Pow10;
    ThreeMore(1);
    ThreeMore(4);
    ThreeMore(7);
    ThreeMore(10);
    ThreeMore(13);
    ThreeMore(16);
  }

  lemma PrintIntShort(i: int)
    requires Int64(i)
    ensures |PrintInt(i)| <= 20 && Ascii(PrintInt(i))
  {
    PowerOfNineteen();
    hide Pow10;
    PrintNatShort(if i < 0 then -i else i, 19);
  }

  // ----- texts

  lemma EscapeCharShort(c: char)
    ensures |EscapeChar(c)| <= 6
    ensures c < 128 as char ==> Ascii(EscapeChar(c))
  {
  }

  lemma {:induction false} EscapeShort(t: string)
    requires Ascii(t)
    ensures |EscapeText(t)| <= 6 * |t| && Ascii(EscapeText(t))
  {
    hide EscapeChar;
    if t != [] {
      EscapeCharShort(t[0]);
      EscapeShort(t[1..]);
    }
  }

  lemma QuoteShort(t: string)
    requires Ascii(t)
    ensures |Quote(t)| <= 6 * |t| + 2 && Ascii(Quote(t))
  {
    hide EscapeText;
    EscapeShort(t);
  }

  // ----- items, members, objects

  lemma ItemShort(v: Item)
    requires SmallItem(v)
    ensures |PrintItem(v)| <= 6 * MAX_TEXT + 2 && Ascii(PrintItem(v))
  {
    hide Quote, PrintInt;
    match v {
      case Str(t) => QuoteShort(t);
      case Int(i) => PrintIntShort(i);
      case Flag(_) =>
      case Ratio(n, d) =>
        PrintIntShort(n);
        PrintIntShort(d);
    }
  }

  predicate SmallMember(m: Member) {
    |m.0| <= MAX_KEY && Ascii(m.0) && SmallItem(m.1)
  }

  lemma MemberShort(m: Member)
    requires SmallMember(m)
    ensures |PrintMember(m)| <= MAX_MEMBER && Ascii(PrintMember(m))
  {
    hide Quote, PrintItem;
    QuoteShort(m.0);
    ItemShort(m.1);
  }

  lemma {:induction false} MembersShort(ms: seq<Member>)
    requires forall i :: 0 <= i < |ms| ==> SmallMember(ms[i])
    ensures |PrintMembers(ms)| <= |ms| * (MAX_MEMBER + 1) && Ascii(PrintMembers(ms))
  {
    hide PrintMember, SmallMember;
    if ms != [] {
      MemberShort(ms[0]);
      MembersShort(ms[1..]);
    }
  }

  // ----- rows

  lemma KeyShort(f: Field)
    ensures |Key(f)| <= MAX_KEY && Ascii(Key(f))
  {
    KeyMark(f);
    hide Key, Ascii;
    if f in {Timestamp, Operation, Name, Bytes, Tls, ClientAddr, WriteMs} {
      RequestKeysAscii(f);
    } else if f in {ReadMs, TotalMs, ThroughputMiBs, TlsVersion, Cipher, KeyAlgorithm, KeySize} {
      ServerKeysAscii(f);
    } else if f in {KeyCurve, DnsMs, TcpConnectMs, HandshakeMs, ServerHandshakeMs, Reused, RedirectMs} {
      ClientKeysAscii(f);
    } else {
      SampleKeysAscii(f);
    }
  }

  lemma RequestKeysAscii(f: Field)
    requires f in {Timestamp, Operation, Name, Bytes, Tls, ClientAddr, WriteMs}
    ensures Ascii(Key(f))
  {
  }

  lemma ServerKeysAscii(f: Field)
    requires f in {ReadMs, TotalMs, ThroughputMiBs, TlsVersion, Cipher, KeyAlgorithm, KeySize}
    ensures Ascii(Key(f))
  {
  }

  lemma ClientKeysAscii(f: Field)
    requires f in {KeyCurve, DnsMs, TcpConnectMs, HandshakeMs, ServerHandshakeMs, Reused, RedirectMs}
    ensures Ascii(Key(f))
  {
  }

  lemma SampleKeysAscii(f: Field)
    requires f in {TtfbMs, TransferMs, ClientTotalMs, Alpn, RouteMode, ExperimentId, SampleIndex}
    ensures Ascii(Key(f))
  {
  }

  lemma GetSmall(run: Run, f: Field)
    requires Small(run)
    ensures SmallItem(Get(run, f))
  {
    hide SmallText, Int64;
  }

  lemma {:induction false} MembersSmall(run: Run, zero: Values, fs: seq<Field>)
    requires Small(run)
    ensures var ms := Members(ValuesOf(run), zero, fs);
      |ms| <= |fs| && forall i :: 0 <= i < |ms| ==> SmallMember(ms[i])
  {
    hide Small, SmallItem, Ascii, Key;
    if fs != [] {
      KeyShort(fs[0]);
      GetSmall(run, fs[0]);
      assert SmallMember((Key(fs[0]), ValuesOf(run)(fs[0])));
      MembersSmall(run, zero, fs[1..]);
    }
  }

  /** The line of a small row is short, and ASCII. */
  lemma EncodeShort(run: Run)
    requires Small(run)
    ensures |Encode(run)| <= MAX_ROW && Ascii(Encode(run))
  {
    MembersSmall(run, ValuesOf(ZERO_RUN), FIELDS[..|FIELDS|]);
    MembersShort(RunMembers(run));
    assert |RunMembers(run)| <= MAX_FIELDS;
    hide RunMembers, PrintMembers, Small;
    assert |RunMembers(run)| * (MAX_MEMBER + 1) <= MAX_FIELDS * (MAX_MEMBER + 1);
  }
}

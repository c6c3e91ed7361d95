/** How a row is written as one line of JSON, and read back. */
module Wire {
  import opened Wrappers
  import opened Rows

  datatype Item = Str(s: string) | Int(i: int) | Flag(b: bool) | Ratio(n: int, d: int)

  datatype Field =
    | Timestamp | Operation | Name | Bytes | Tls | ClientAddr | WriteMs | ReadMs | TotalMs | ThroughputMiBs
    | TlsVersion | Cipher | KeyAlgorithm | KeySize | KeyCurve | DnsMs | TcpConnectMs | HandshakeMs
    | ServerHandshakeMs | Reused | RedirectMs | TtfbMs | TransferMs | ClientTotalMs | Alpn | RouteMode
    | ExperimentId | SampleIndex

  const FIELDS: seq<Field> := [
    Timestamp, Operation, Name, Bytes, Tls, ClientAddr, WriteMs, ReadMs, TotalMs, ThroughputMiBs,
    TlsVersion, Cipher, KeyAlgorithm, KeySize, KeyCurve, DnsMs, TcpConnectMs, HandshakeMs,
    ServerHandshakeMs, Reused, RedirectMs, TtfbMs, TransferMs, ClientTotalMs, Alpn, RouteMode,
    ExperimentId, SampleIndex]

  function Key(f: Field): string {
    match f
    case Timestamp => "timestamp"
    case Operation => "operation"
    case Name => "name"
    case Bytes => "bytes"
    case Tls => "tls"
    case ClientAddr => "client_addr"
    case WriteMs => "write_ms"
    case ReadMs => "read_ms"
    case TotalMs => "total_ms"
    case ThroughputMiBs => "throughput_mib_s"
    case TlsVersion => "tls_version"
    case Cipher => "cipher"
    case KeyAlgorithm => "tls_key_algorithm"
    case KeySize => "tls_key_size"
    case KeyCurve => "tls_key_curve"
    case DnsMs => "dns_ms"
    case TcpConnectMs => "tcp_connect_ms"
    case HandshakeMs => "tls_handshake_ms"
    case ServerHandshakeMs => "tls_handshake_server_ms"
    case Reused => "tls_reused"
    case RedirectMs => "redirect_ms"
    case TtfbMs => "ttfb_ms"
    case TransferMs => "transfer_ms"
    case ClientTotalMs => "client_total_ms"
    case Alpn => "alpn"
    case RouteMode => "route_mode"
    case ExperimentId => "experiment_id"
    case SampleIndex => "sample_index"
  }

  /** The length of a key and its third character, which together tell all keys apart. */
  function Mark(f: Field): (nat, char) {
    match f
    case Timestamp => (9, 'm')
    case Operation => (9, 'e')
    case Name => (4, 'm')
    case Bytes => (5, 't')
    case Tls => (3, 's')
    case ClientAddr => (11, 'i')
    case WriteMs => (8, 'i')
    case ReadMs => (7, 'a')
    case TotalMs => (8, 't')
    case ThroughputMiBs => (16, 'r')
    case TlsVersion => (11, 's')
    case Cipher => (6, 'p')
    case KeyAlgorithm => (17, 's')
    case KeySize => (12, 's')
    case KeyCurve => (13, 's')
    case DnsMs => (6, 's')
    case TcpConnectMs => (14, 'p')
    case HandshakeMs => (16, 's')
    case ServerHandshakeMs => (23, 's')
    case Reused => (10, 's')
    case RedirectMs => (11, 'd')
    case TtfbMs => (7, 'f')
    case TransferMs => (11, 'a')
    case ClientTotalMs => (15, 'i')
    case Alpn => (4, 'p')
    case RouteMode => (10, 'u')
    case ExperimentId => (13, 'p')
    case SampleIndex => (12, 'm')
  }

  lemma KeyMark(f: Field)
    ensures (|Key(f)|, Key(f)[2]) == Mark(f)
  {
  }

  lemma KeyInjective(f: Field, g: Field)
    requires Key(f) == Key(g)
    ensures f == g
  {
    KeyMark(f);
    KeyMark(g);
    hide Key;
  }

  predicate Optional(f: Field) {
    f !in {Timestamp, Operation, Name, Bytes, Tls, ClientAddr, TotalMs, ThroughputMiBs}
  }

  function Get(run: Run, f: Field): Item {
    match f
    case Timestamp => Int(run.timestamp)
    case Operation => Str(run.operation)
    case Name => Str(run.name)
    case Bytes => Int(run.bytes)
    case Tls => Flag(run.tls)
    case ClientAddr => Str(run.clientAddr)
    case WriteMs => Int(run.writeUs)
    case ReadMs => Int(run.readUs)
    case TotalMs => Int(run.totalUs)
    case ThroughputMiBs => Ratio(run.throughput.bytes, run.throughput.micros)
    case TlsVersion => Str(run.tlsVersion)
    case Cipher => Str(run.cipher)
    case KeyAlgorithm => Str(run.keyAlgorithm)
    case KeySize => Int(run.keySize)
    case KeyCurve => Str(run.keyCurve)
    case DnsMs => Int(run.dnsUs)
    case TcpConnectMs => Int(run.tcpUs)
    case HandshakeMs => Int(run.handshakeUs)
    case ServerHandshakeMs => Int(run.serverHandshakeUs)
    case Reused => Flag(run.reused)
    case RedirectMs => Int(run.redirectUs)
    case TtfbMs => Int(run.ttfbUs)
    case TransferMs => Int(run.transferUs)
    case ClientTotalMs => Int(run.clientTotalUs)
    case Alpn => Str(run.alpn)
    case RouteMode => Str(run.routeMode)
    case ExperimentId => Str(run.experimentId)
    case SampleIndex => Int(run.sampleIndex)
  }

  predicate SameKind(a: Item, b: Item) {
    a.Str? == b.Str? && a.Int? == b.Int? && a.Flag? == b.Flag? && a.Ratio? == b.Ratio?
  }

  // ----- rows as lists of members

  type Member = (string, Item)

  /** The value of each field. */
  type Values = Field -> Item

  function ValuesOf(run: Run): Values {
    f => Get(run, f)
  }

  /** The members written for the given fields: an optional field is left out when it holds its zero value. */
  function Members(vals: Values, zero: Values, fs: seq<Field>): seq<Member> {
    if fs == [] then []
    else
      var rest := Members(vals, zero, fs[1..]);
      if Optional(fs[0]) && vals(fs[0]) == zero(fs[0]) then rest
      else [(Key(fs[0]), vals(fs[0]))] + rest
  }

  function FieldNamed(key: string, fs: seq<Field>): (r: Option<Field>)
    ensures r.Some? ==> r.value in fs && Key(r.value) == key
    ensures r.None? ==> forall f :: f in fs ==> Key(f) != key
  {
    if fs == [] then None
    else if Key(fs[0]) == key then Some(fs[0])
    else FieldNamed(key, fs[1..])
  }

  /** The values found, by field: a later member wins, an unknown one is ignored, a wrong type is an error. */
  function Collect(ms: seq<Member>, zero: Values, found: map<Field, Item>): Option<map<Field, Item>>
    decreases |ms|
  {
    if ms == [] then Some(found)
    else
      match FieldNamed(ms[0].0, FIELDS)
      case None => Collect(ms[1..], zero, found)
      case Some(f) =>
        if !SameKind(ms[0].1, zero(f)) then None
        else Collect(ms[1..], zero, found[f := ms[0].1])
  }

  function At(found: map<Field, Item>, f: Field): Item {
    if f in found then found[f] else Get(ZERO_RUN, f)
  }

  function StrOf(v: Item): string {
    match v case Str(s) => s case _ => ""
  }

  function IntOf(v: Item): int {
    match v case Int(i) => i case _ => 0
  }

  function FlagOf(v: Item): bool {
    match v case Flag(b) => b case _ => false
  }

  function RateOf(v: Item): Rate {
    match v case Ratio(n, d) => Rate(n, d) case _ => Rate(0, 0)
  }

  function Build(v: Values): Run {
    Run(
      IntOf(v(Timestamp)), StrOf(v(Operation)), StrOf(v(Name)), IntOf(v(Bytes)), FlagOf(v(Tls)),
      StrOf(v(ClientAddr)), IntOf(v(WriteMs)), IntOf(v(ReadMs)), IntOf(v(TotalMs)), RateOf(v(ThroughputMiBs)),
      StrOf(v(TlsVersion)), StrOf(v(Cipher)), StrOf(v(KeyAlgorithm)), IntOf(v(KeySize)), StrOf(v(KeyCurve)),
      IntOf(v(DnsMs)), IntOf(v(TcpConnectMs)), IntOf(v(HandshakeMs)), IntOf(v(ServerHandshakeMs)),
      FlagOf(v(Reused)), IntOf(v(RedirectMs)), IntOf(v(TtfbMs)), IntOf(v(TransferMs)), IntOf(v(ClientTotalMs)),
      StrOf(v(Alpn)), StrOf(v(RouteMode)), StrOf(v(ExperimentId)), IntOf(v(SampleIndex)))
  }

  lemma FieldsComplete(f: Field)
    ensures f in FIELDS
  {
    var i := match f
      case Timestamp => 0 case Operation => 1 case Name => 2 case Bytes => 3 case Tls => 4 case ClientAddr => 5
      case WriteMs => 6 case ReadMs => 7 case TotalMs => 8 case ThroughputMiBs => 9 case TlsVersion => 10
      case Cipher => 11 case KeyAlgorithm => 12 case KeySize => 13 case KeyCurve => 14 case DnsMs => 15
      case TcpConnectMs => 16 case HandshakeMs => 17 case ServerHandshakeMs => 18 case Reused => 19
      case RedirectMs => 20 case TtfbMs => 21 case TransferMs => 22 case ClientTotalMs => 23 case Alpn => 24
      case RouteMode => 25 case ExperimentId => 26 case SampleIndex => 27;
    assert FIELDS[i] == f;
  }

  lemma FieldNamedKey(f: Field)
    ensures FieldNamed(Key(f), FIELDS) == Some(f)
  {
    FieldsComplete(f);
    var r := FieldNamed(Key(f), FIELDS);
    if r.Some? {
      KeyInjective(r.value, f);
    }
  }

  lemma {:induction false} CollectMembers(vals: Values, zero: Values, fs: seq<Field>, found: map<Field, Item>)
    requires forall f :: SameKind(vals(f), zero(f))
    requires forall f :: f in found ==> found[f] == vals(f)
    ensures var r := Collect(Members(vals, zero, fs), zero, found);
      && r.Some?
      && found.Keys <= r.value.Keys
      && (forall f :: f in r.value ==> r.value[f] == vals(f))
      && (forall f :: f in fs && f !in r.value ==> vals(f) == zero(f))
    decreases fs
  {
    if fs != [] {
      var f := fs[0];
      if Optional(f) && vals(f) == zero(f) {
        CollectMembers(vals, zero, fs[1..], found);
      } else {
        FieldNamedKey(f);
        var ms := Members(vals, zero, fs);
        assert ms[0] == (Key(f), vals(f)) && ms[1..] == Members(vals, zero, fs[1..]);
        CollectMembers(vals, zero, fs[1..], found[f := vals(f)]);
      }
    }
  }

  lemma BuildAgrees(v: Values, w: Values)
    requires forall f :: v(f) == w(f)
    ensures Build(v) == Build(w)
  {
  }

  // the fields in three groups, so that each group is checked by itself

  predicate RequestFields(v: Values, run: Run) {
    && v(Timestamp) == Int(run.timestamp) && v(Operation) == Str(run.operation) && v(Name) == Str(run.name)
    && v(Bytes) == Int(run.bytes) && v(Tls) == Flag(run.tls) && v(ClientAddr) == Str(run.clientAddr)
    && v(WriteMs) == Int(run.writeUs) && v(ReadMs) == Int(run.readUs) && v(TotalMs) == Int(run.totalUs)
    && v(ThroughputMiBs) == Ratio(run.throughput.bytes, run.throughput.micros)
  }

  predicate TlsFields(v: Values, run: Run) {
    && v(TlsVersion) == Str(run.tlsVersion) && v(Cipher) == Str(run.cipher) && v(Alpn) == Str(run.alpn)
    && v(KeyAlgorithm) == Str(run.keyAlgorithm) && v(KeySize) == Int(run.keySize)
    && v(KeyCurve) == Str(run.keyCurve) && v(ServerHandshakeMs) == Int(run.serverHandshakeUs)
    && v(HandshakeMs) == Int(run.handshakeUs) && v(Reused) == Flag(run.reused)
  }

  predicate ClientFields(v: Values, run: Run) {
    && v(DnsMs) == Int(run.dnsUs) && v(TcpConnectMs) == Int(run.tcpUs) && v(RedirectMs) == Int(run.redirectUs)
    && v(TtfbMs) == Int(run.ttfbUs) && v(TransferMs) == Int(run.transferUs)
    && v(ClientTotalMs) == Int(run.clientTotalUs) && v(RouteMode) == Str(run.routeMode)
    && v(ExperimentId) == Str(run.experimentId) && v(SampleIndex) == Int(run.sampleIndex)
  }

  lemma RequestFieldsOf(run: Run)
    ensures RequestFields(ValuesOf(run), run)
  {
  }

  lemma TlsFieldsOf(run: Run)
    ensures TlsFields(ValuesOf(run), run)
  {
  }

  lemma ClientFieldsOf(run: Run)
    ensures ClientFields(ValuesOf(run), run)
  {
  }

  lemma BuildFrom(v: Values, run: Run)
    requires RequestFields(v, run) && TlsFields(v, run) && ClientFields(v, run)
    ensures Build(v) == run
  {
  }

  /** All fields. (The slice keeps the verifier from unfolding the whole table wherever a row is encoded.) */
  function RunMembers(run: Run): seq<Member> {
    Members(ValuesOf(run), ValuesOf(ZERO_RUN), FIELDS[..|FIELDS|])
  }

  function RunFromMembers(ms: seq<Member>): Option<Run> {
    match Collect(ms, ValuesOf(ZERO_RUN), map[])
    case None => None
    case Some(found) => Some(Build(f => At(found, f)))
  }

  /** Eight members are always written; any other one is written exactly if its value is not the zero one. */
  lemma MembersWritten(run: Run, f: Field, v: Item)
    ensures (Key(f), v) in RunMembers(run) <==>
      && v == Get(run, f)
      && (f in {Timestamp, Operation, Name, Bytes, Tls, ClientAddr, TotalMs, ThroughputMiBs} || v != Get(ZERO_RUN, f))
  {
    assert FIELDS[..|FIELDS|] == FIELDS;
    FieldsComplete(f);
    MembersOf(run, FIELDS, f, v);
    hide Key, Get;
  }

  lemma {:induction false} MembersOf(run: Run, fs: seq<Field>, f: Field, v: Item)
    ensures (Key(f), v) in Members(ValuesOf(run), ValuesOf(ZERO_RUN), fs) <==>
              f in fs && v == Get(run, f) && !(Optional(f) && v == Get(ZERO_RUN, f))
  {
    hide Key, Get, Optional;
    if fs != [] {
      MembersOf(run, fs[1..], f, v);
      if Key(fs[0]) == Key(f) {
        KeyInjective(fs[0], f);
      }
    }
  }

  lemma KindsAgree(a: Run, b: Run, f: Field)
    ensures SameKind(Get(a, f), Get(b, f))
  {
  }

  /** A row is recovered from its members, whatever optional fields were left out. */
  lemma RunMembersRoundTrip(run: Run)
    ensures RunFromMembers(RunMembers(run)) == Some(run)
  {
    var vals, zero := ValuesOf(run), ValuesOf(ZERO_RUN);
    forall f: Field
      ensures SameKind(vals(f), zero(f))
    {
      KindsAgree(run, ZERO_RUN, f);
    }
    assert FIELDS[..|FIELDS|] == FIELDS;
    CollectMembers(vals, zero, FIELDS, map[]);
    var m := Collect(RunMembers(run), zero, map[]).value;
    var v: Values := f => At(m, f);
    forall f: Field
      ensures v(f) == vals(f)
    {
      FieldsComplete(f);
      assert zero(f) == Get(ZERO_RUN, f);
    }
    BuildAgrees(v, vals);
    RequestFieldsOf(run);
    TlsFieldsOf(run);
    ClientFieldsOf(run);
    BuildFrom(vals, run);
  }
}

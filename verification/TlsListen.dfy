/** Handshake metadata per connection, and the tracker that keeps it while the connection is open. */
module TlsListen {
  import opened Wrappers

  const TWO_TO_THE_64 := 0x1_0000_0000_0000_0000

  /** What one recorded request is told about its connection's handshake. */
  datatype Consumed = Consumed(handshakeUs: int, reused: bool)

  /** An atomic 64-bit add of one. */
  function Increment(requests: nat): (n: nat)
    ensures n < TWO_TO_THE_64
  {
    (requests + 1) % TWO_TO_THE_64
  }

  /** The answer to the request that brought the counter to n. */
  function Answer(n: nat, handshakeUs: int): Consumed {
    if n > 1 then Consumed(0, true) else Consumed(handshakeUs, false)
  }

  class Meta {
    const handshakeUs: int
    var requests: nat

    constructor (handshakeUs: int)
      ensures this.handshakeUs == handshakeUs && requests == 0
    {
      this.handshakeUs := handshakeUs;
      requests := 0;
    }

    method ConsumeHandshake() returns (c: Consumed)
      modifies this
      ensures requests == Increment(old(requests))
      ensures c == Answer(requests, handshakeUs)
    {
      requests := (requests + 1) % TWO_TO_THE_64;
      if requests > 1 {
        return Consumed(0, true);
      }
      c := Consumed(handshakeUs, false);
    }
  }

  /** A request that carries no metadata (plain HTTP) consumes nothing. */
  method Consume(meta: Meta?) returns (c: Consumed)
    modifies meta
    ensures meta == null ==> c == Consumed(0, false)
    ensures meta != null ==>
              meta.requests == Increment(old(meta.requests)) && c == Answer(meta.requests, meta.handshakeUs)
  {
    if meta == null {
      return Consumed(0, false);
    }
    c := meta.ConsumeHandshake();
  }

  /** The counter after k requests on a fresh connection, and what the k-th of them was told. */
  function CounterAfter(k: nat): nat {
    if k == 0 then 0 else Increment(CounterAfter(k - 1))
  }

  lemma NextRemainder(k: nat)
    ensures (k + 1) % TWO_TO_THE_64 == (k % TWO_TO_THE_64 + 1) % TWO_TO_THE_64
  {
  }

  lemma {:induction false} CounterAfterIs(k: nat)
    ensures CounterAfter(k) == k % TWO_TO_THE_64
  {
    if k > 0 {
      CounterAfterIs(k - 1);
      NextRemainder(k - 1);
    }
  }

  /**
   The k-th recorded request of a connection is charged the handshake exactly when the 64-bit counter stands at 0 or 1:
   only the first one, as long as a connection carries fewer than 2^64 requests, and two in a row after a wrap-around.
   */
  lemma ChargedIff(k: nat, handshakeUs: int)
    requires k > 0
    ensures !Answer(CounterAfter(k), handshakeUs).reused <==> k % TWO_TO_THE_64 <= 1
    ensures k < TWO_TO_THE_64 ==> (!Answer(CounterAfter(k), handshakeUs).reused <==> k == 1)
  {
    hide CounterAfter;
    CounterAfterIs(k);
    if k < TWO_TO_THE_64 {
      assert k % TWO_TO_THE_64 == k;
    }
  }

  // ----- the listener and the tracker

  type Conn = nat

  /** What the TCP listener and the handshake make of the next incoming connection. */
  datatype Incoming = ListenerError | HandshakeFailed | Established(conn: Conn, handshakeUs: int)

  datatype ConnState = New | Active | Idle | Hijacked | Closed

  datatype Accepted = Waiting | Refused | Connection(conn: Conn)

  /** The first incoming connection that is not a failed handshake. */
  function FirstUsable(incoming: seq<Incoming>): (k: nat)
    ensures k <= |incoming|
    ensures k < |incoming| ==> !incoming[k].HandshakeFailed?
    ensures forall i :: 0 <= i < k ==> incoming[i].HandshakeFailed?
  {
    if incoming == [] || !incoming[0].HandshakeFailed? then 0 else 1 + FirstUsable(incoming[1..])
  }

  class Tracker {
    var byConn: map<Conn, Meta>

    constructor ()
      ensures byConn == map[]
    {
      byConn := map[];
    }

    /** Metadata of an accepted connection that has not been closed. */
    method ConnContext(conn: Conn) returns (meta: Meta?)
      ensures meta != null <==> conn in byConn
      ensures meta != null ==> meta == byConn[conn]
    {
      meta := if conn in byConn then byConn[conn] else null;
    }

    method SetConnState(conn: Conn, state: ConnState)
      modifies this
      ensures byConn == if state == Closed || state == Hijacked then old(byConn) - {conn} else old(byConn)
    {
      if state == Closed || state == Hijacked {
        byConn := byConn - {conn};
      }
    }

    /**
     Accept loops over failed handshakes, which leave no trace, until a connection is established or the listener
     fails; only an established connection is stored, with its own fresh counter.
     */
    method Accept(incoming: seq<Incoming>) returns (r: Accepted)
      modifies this
      ensures var k := FirstUsable(incoming);
        if k == |incoming| then r == Waiting && byConn == old(byConn)
        else if incoming[k].ListenerError? then r == Refused && byConn == old(byConn)
        else
          && r == Connection(incoming[k].conn)
          && byConn.Keys == old(byConn).Keys + {incoming[k].conn}
          && byConn[incoming[k].conn].handshakeUs == incoming[k].handshakeUs
          && byConn[incoming[k].conn].requests == 0
          && fresh(byConn[incoming[k].conn])
          && forall c :: c in old(byConn) && c != incoming[k].conn ==> byConn[c] == old(byConn)[c]
    {
      var i := 0;
      while i < |incoming|
        invariant 0 <= i <= |incoming| && byConn == old(byConn)
        invariant FirstUsable(incoming) == i + FirstUsable(incoming[i..])
      {
        match incoming[i] {
          case ListenerError =>
            return Refused;
          case HandshakeFailed =>
            assert incoming[i..][1..] == incoming[i + 1..];
            i := i + 1;
          case Established(conn, handshakeUs) =>
            var meta := new Meta(handshakeUs);
            byConn := byConn[conn := meta];
            return Connection(conn);
        }
      }
      r := Waiting;
    }
  }

  // ----- whole histories

  /** What happens to a tracker: an accept over some incoming connections, or a change of a connection's state. */
  datatype Event = Accepts(incoming: seq<Incoming>) | Changes(conn: Conn, state: ConnState)

  /** The connection that an accept ends with, if it does not fail or wait. */
  function NewConn(incoming: seq<Incoming>): Option<Conn> {
    var k := FirstUsable(incoming);
    if k < |incoming| && incoming[k].Established? then Some(incoming[k].conn) else None
  }

  predicate Establishes(e: Event, conn: Conn) {
    e.Accepts? && NewConn(e.incoming) == Some(conn)
  }

  predicate Ends(e: Event, conn: Conn) {
    e.Changes? && e.conn == conn && (e.state == Closed || e.state == Hijacked)
  }

  /** The connection was established and has been neither closed nor hijacked since. */
  ghost predicate OpenAfter(events: seq<Event>, conn: Conn) {
    exists i :: 0 <= i < |events| && Establishes(events[i], conn) && !EndsBetween(events, i, conn)
  }

  ghost predicate EndsBetween(events: seq<Event>, i: nat, conn: Conn) {
    exists j :: i < j < |events| && Ends(events[j], conn)
  }

  lemma OpenAfterSnoc(events: seq<Event>, e: Event, conn: Conn)
    ensures OpenAfter(events + [e], conn) <==> Establishes(e, conn) || (OpenAfter(events, conn) && !Ends(e, conn))
  {
    hide Establishes, Ends;
    var all, n := events + [e], |events|;
    assert all[n] == e && forall i :: 0 <= i < n ==> all[i] == events[i];
    assert !EndsBetween(all, n, conn);
    assert Establishes(e, conn) ==> !Ends(e, conn) by { NeverBoth(e, conn); }
    forall i | 0 <= i < n
      ensures EndsBetween(all, i, conn) <==> EndsBetween(events, i, conn) || Ends(e, conn)
    {
      if Ends(e, conn) {
        assert Ends(all[n], conn);
      }
      if j :| i < j < n && Ends(events[j], conn) {
        assert Ends(all[j], conn);
      }
    }
    if OpenAfter(events, conn) && !Ends(e, conn) {
      var i :| 0 <= i < n && Establishes(events[i], conn) && !EndsBetween(events, i, conn);
      assert Establishes(all[i], conn);
    }
    if Establishes(e, conn) {
      assert Establishes(all[n], conn);
    }
  }

  lemma NeverBoth(e: Event, conn: Conn)
    ensures !(Establishes(e, conn) && Ends(e, conn))
  {
  }

  /**
   After any history of accepts and state changes a new tracker holds exactly the connections that were established and
   have been neither closed nor hijacked since; failed handshakes, listener errors and other states leave no trace.
   */
  method Replay(events: seq<Event>) returns (t: Tracker)
    ensures forall conn :: conn in t.byConn <==> OpenAfter(events, conn)
  {
    hide OpenAfter;
    t := new Tracker();
    NothingOpen();
    var n := 0;
    assert events[..0] == [];
    while n < |events|
      invariant 0 <= n <= |events|
      invariant forall conn :: conn in t.byConn <==> OpenAfter(events[..n], conn)
    {
      forall conn
        ensures OpenAfter(events[..n + 1], conn)
           <==> Establishes(events[n], conn) || (OpenAfter(events[..n], conn) && !Ends(events[n], conn))
      {
        assert events[..n + 1] == events[..n] + [events[n]];
        OpenAfterSnoc(events[..n], events[n], conn);
      }
      match events[n] {
        case Accepts(incoming) =>
          var accepted := t.Accept(incoming);
        case Changes(conn, state) =>
          t.SetConnState(conn, state);
      }
      n := n + 1;
    }
    assert events[..n] == events;
  }

  lemma NothingOpen()
    ensures forall conn :: !OpenAfter([], conn)
  {
  }
}

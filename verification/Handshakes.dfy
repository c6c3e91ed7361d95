/**
 Which row pays for a handshake, when many streams of many connections run at once: connections come and go, streams
 consume the connection's counter and append their row later, in any order, and clients merge timings in between.
 */
module Handshakes {
  import opened Wrappers
  import opened Rows
  import opened Merge
  import opened TlsListen
  import opened App
  import ResultsLog

  /** A connection that has been accepted: its handshake time, its counter, how many requests consumed it. */
  datatype Link = Link(handshakeUs: int, requests: nat, consumed: nat)

  /** A request that has consumed its connection's counter, and where in the log its row went once appended. */
  datatype Stream = Stream(conn: Option<Conn>, row: Run, at: Option<nat>)

  /**
   links: every connection ever established. history: what has happened to the tracker. tracked: the tracker's keys.
   contexts: for each connection being served, whether its requests carry metadata. owner: the stream that appended
   each row.
   */
  datatype Sys = Sys(
    links: map<Conn, Link>,
    history: seq<Event>,
    tracked: set<Conn>,
    contexts: map<Conn, bool>,
    streams: seq<Stream>,
    log: seq<Run>,
    owner: seq<nat>)

  ghost predicate Init(s: Sys) {
    s == Sys(map[], [], {}, map[], [], [], [])
  }

  /** The row a handler builds before record: nothing is said about TLS yet. */
  predicate Fresh(run: Run) {
    !run.reused && run.serverHandshakeUs == 0
  }

  // ----- the steps

  /** An accept goes through any number of failed handshakes and ends with a new connection, or with none. */
  ghost predicate Accept(s: Sys, t: Sys, incoming: seq<Incoming>, us: int) {
    var t' := s.(history := s.history + [Accepts(incoming)]);
    match NewConn(incoming)
    case None => t == t'
    case Some(c) =>
      c !in s.links && us >= 0 && t == t'.(links := s.links[c := Link(us, 0, 0)], tracked := s.tracked + {c})
  }

  /** A connection goes into any state. */
  ghost predicate Change(s: Sys, t: Sys, c: Conn, state: ConnState) {
    && c in s.links
    && t == s.(history := s.history + [Changes(c, state)],
               tracked := if Ends(Changes(c, state), c) then s.tracked - {c} else s.tracked)
  }

  ghost predicate Unreported(history: seq<Event>, c: Conn) {
    forall i :: 0 <= i < |history| ==> !(history[i].Changes? && history[i].conn == c)
  }

  /** The server derives an accepted connection's context before it reports any state of it. */
  ghost predicate Serve(s: Sys, t: Sys, c: Conn) {
    && c in s.links && c !in s.contexts && Unreported(s.history, c)
    && t == s.(contexts := s.contexts[c := c in s.tracked])
  }

  /** A stream of a served connection, which may already be closing, gets its share of the handshake. */
  ghost predicate Consume(s: Sys, t: Sys, c: Conn, run: Run) {
    && c in s.contexts && s.contexts[c] && c in s.links && Fresh(run)
    && var link := s.links[c];
    && var n := Increment(link.requests);
    && link.consumed + 1 < TWO_TO_THE_64
    && t == s.(links := s.links[c := Link(link.handshakeUs, n, link.consumed + 1)],
               streams := s.streams + [Stream(Some(c), WithHandshake(run, Answer(n, link.handshakeUs)), None)])
  }

  /** A request without metadata. */
  ghost predicate ConsumePlain(s: Sys, t: Sys, run: Run) {
    && Fresh(run)
    && t == s.(streams := s.streams + [Stream(None, WithHandshake(run, Consumed(0, false)), None)])
  }

  ghost predicate Append(s: Sys, t: Sys, i: nat, now: int) {
    && i < |s.streams| && s.streams[i].at == None
    && t == s.(streams := s.streams[i := s.streams[i].(at := Some(|s.log|))],
               log := s.log + [ResultsLog.Stamped(s.streams[i].row, now)],
               owner := s.owner + [i])
  }

  ghost predicate MergeStep(s: Sys, t: Sys, q: Request) {
    t == s.(log := Attempt(s.log, q))
  }

  ghost predicate Step(s: Sys, t: Sys) {
    || t == s
    || (exists incoming, us :: Accept(s, t, incoming, us))
    || (exists c, state :: Change(s, t, c, state))
    || (exists c :: Serve(s, t, c))
    || (exists c, run :: Consume(s, t, c, run))
    || (exists run :: ConsumePlain(s, t, run))
    || (exists i, now :: Append(s, t, i, now))
    || (exists q :: MergeStep(s, t, q))
  }

  // ----- the invariant

  /** How many of the first k streams belong to connection c. */
  function CountOf(streams: seq<Stream>, c: Conn): nat {
    if streams == [] then 0
    else CountOf(streams[..|streams| - 1], c) + if streams[|streams| - 1].conn == Some(c) then 1 else 0
  }

  predicate FirstOf(streams: seq<Stream>, i: nat)
    requires i < |streams|
  {
    streams[i].conn.Some? && forall j :: 0 <= j < i ==> streams[j].conn != streams[i].conn
  }

  /** A stream of a connection pays in full when it is the connection's first, and otherwise not at all. */
  ghost predicate Charged(s: Sys, i: nat)
    requires i < |s.streams|
  {
    match s.streams[i].conn
    case None => Fresh(s.streams[i].row)
    case Some(c) =>
      && c in s.links
      && (s.streams[i].row.reused <==> !FirstOf(s.streams, i))
      && s.streams[i].row.serverHandshakeUs == (if FirstOf(s.streams, i) then s.links[c].handshakeUs else 0)
  }

  ghost predicate Placed(s: Sys) {
    && |s.owner| == |s.log|
    && (forall p :: 0 <= p < |s.log| ==>
          && s.owner[p] < |s.streams|
          && s.streams[s.owner[p]].at == Some(p)
          && s.log[p].reused == s.streams[s.owner[p]].row.reused
          && s.log[p].serverHandshakeUs == s.streams[s.owner[p]].row.serverHandshakeUs)
    && (forall i :: 0 <= i < |s.streams| && s.streams[i].at.Some? ==>
          s.streams[i].at.value < |s.log| && s.owner[s.streams[i].at.value] == i)
  }

  /** The tracker's keys are the open connections, and every served connection carries metadata. */
  ghost predicate Tracking(s: Sys) {
    && (forall c :: c in s.tracked <==> OpenAfter(s.history, c))
    && (forall c :: c in s.links ==> OpenAfter(s.history, c) || !Unreported(s.history, c))
    && (forall c :: c in s.contexts ==> s.contexts[c] && c in s.links)
  }

  /** Each connection's counter is the number of its streams. */
  ghost predicate Counted(s: Sys) {
    forall c :: c in s.links ==>
      && s.links[c].handshakeUs >= 0
      && s.links[c].requests == s.links[c].consumed == CountOf(s.streams, c) < TWO_TO_THE_64
  }

  ghost predicate Inv(s: Sys) {
    && Tracking(s) && Counted(s)
    && (forall i :: 0 <= i < |s.streams| ==> Charged(s, i))
    && Placed(s)
  }

  lemma {:induction false} CountZeroIff(streams: seq<Stream>, c: Conn)
    ensures CountOf(streams, c) == 0 <==> forall j :: 0 <= j < |streams| ==> streams[j].conn != Some(c)
    decreases |streams|
  {
    if streams != [] {
      CountZeroIff(streams[..|streams| - 1], c);
    }
  }

  lemma CountSnoc(streams: seq<Stream>, x: Stream, c: Conn)
    ensures CountOf(streams + [x], c) == CountOf(streams, c) + if x.conn == Some(c) then 1 else 0
  {
    assert (streams + [x])[..|streams|] == streams;
  }

  lemma {:induction false} CountUpdate(streams: seq<Stream>, i: nat, x: Stream, c: Conn)
    requires i < |streams| && x.conn == streams[i].conn
    ensures CountOf(streams[i := x], c) == CountOf(streams, c)
    decreases |streams|
  {
    var last := |streams| - 1;
    if i < last {
      assert streams[i := x][..last] == streams[..last][i := x];
      CountUpdate(streams[..last], i, x, c);
    } else {
      assert streams[i := x][..last] == streams[..last];
    }
  }

  lemma FirstSame(a: seq<Stream>, b: seq<Stream>, i: nat)
    requires i < |a| && i < |b| && forall j :: 0 <= j <= i ==> a[j].conn == b[j].conn
    ensures FirstOf(a, i) <==> FirstOf(b, i)
  {
    assert forall j :: 0 <= j <= i ==> a[j].conn == b[j].conn && b[j].conn == a[j].conn;
  }

  lemma UnreportedSnoc(history: seq<Event>, e: Event, c: Conn)
    ensures Unreported(history + [e], c) <==> Unreported(history, c) && !(e.Changes? && e.conn == c)
  {
    assert (history + [e])[|history|] == e;
    assert forall i :: 0 <= i < |history| ==> (history + [e])[i] == history[i];
  }

  lemma HistoryGrows(s: Sys, t: Sys, e: Event)
    requires Tracking(s) && t.history == s.history + [e] && t.contexts == s.contexts
    requires forall c :: c in t.tracked <==> Establishes(e, c) || (c in s.tracked && !Ends(e, c))
    requires forall c :: c in t.links <==> c in s.links || Establishes(e, c)
    ensures Tracking(t)
  {
    hide OpenAfter, Unreported, Establishes;
    forall c: Conn
      ensures OpenAfter(t.history, c) <==> Establishes(e, c) || (OpenAfter(s.history, c) && !Ends(e, c))
      ensures Unreported(t.history, c) <==> Unreported(s.history, c) && !(e.Changes? && e.conn == c)
    {
      OpenAfterSnoc(s.history, e, c);
      UnreportedSnoc(s.history, e, c);
    }
  }

  lemma AcceptInv(s: Sys, t: Sys, incoming: seq<Incoming>, us: int)
    requires Inv(s) && Accept(s, t, incoming, us)
    ensures Inv(t)
  {
    hide Tracking, NewConn;
    AcceptTracking(s, t, incoming, us);
    forall c | NewConn(incoming) == Some(c)
      ensures CountOf(s.streams, c) == 0
    {
      forall i | 0 <= i < |s.streams|
        ensures s.streams[i].conn != Some(c)
      {
        assert Charged(s, i);
      }
      CountZeroIff(s.streams, c);
    }
    forall i | 0 <= i < |s.streams|
      ensures Charged(t, i)
    {
      assert Charged(s, i);
    }
  }

  lemma AcceptTracking(s: Sys, t: Sys, incoming: seq<Incoming>, us: int)
    requires Tracking(s) && Accept(s, t, incoming, us)
    ensures Tracking(t)
  {
    hide Tracking, NewConn;
    HistoryGrows(s, t, Accepts(incoming));
  }

  lemma HandshakeSaid(run: Run, c: Consumed)
    requires Fresh(run) && c.handshakeUs >= 0
    ensures WithHandshake(run, c).reused == c.reused && WithHandshake(run, c).serverHandshakeUs == c.handshakeUs
  {
  }

  lemma CountsAfter(streams: seq<Stream>, x: Stream)
    ensures forall d: Conn :: CountOf(streams + [x], d) == CountOf(streams, d) + if x.conn == Some(d) then 1 else 0
  {
    forall d: Conn
      ensures CountOf(streams + [x], d) == CountOf(streams, d) + if x.conn == Some(d) then 1 else 0
    {
      CountSnoc(streams, x, d);
    }
  }

  /** The new stream is charged exactly if it is the connection's first; the others are as before. */
  lemma ConsumeCharges(s: Sys, t: Sys, c: Conn, run: Run, i: nat)
    requires Inv(s) && Consume(s, t, c, run) && i < |t.streams|
    ensures Charged(t, i)
  {
    hide WithHandshake, Fresh, CountOf, OpenAfter, Unreported, Placed;
    var link, k := s.links[c], |s.streams|;
    if i < k {
      assert Charged(s, i);
      FirstSame(s.streams, t.streams, i);
    } else {
      CountZeroIff(s.streams, c);
      HandshakeSaid(run, Answer(Increment(link.requests), link.handshakeUs));
      assert forall j :: 0 <= j < k ==> t.streams[j] == s.streams[j];
      assert FirstOf(t.streams, k) <==> link.consumed == 0;
    }
  }

  lemma ConsumeCounted(s: Sys, t: Sys, c: Conn, run: Run)
    requires Counted(s) && Consume(s, t, c, run)
    ensures Counted(t)
  {
    hide WithHandshake, Fresh, CountOf;
    CountsAfter(s.streams, t.streams[|s.streams|]);
    assert Increment(s.links[c].requests) == s.links[c].consumed + 1;
  }

  lemma ConsumePlaced(s: Sys, t: Sys, c: Conn, run: Run)
    requires Placed(s) && Tracking(s) && Consume(s, t, c, run)
    ensures Placed(t) && Tracking(t)
  {
    hide WithHandshake, Fresh, OpenAfter, Unreported, Answer, Increment;
  }

  lemma ConsumeInv(s: Sys, t: Sys, c: Conn, run: Run)
    requires Inv(s) && Consume(s, t, c, run)
    ensures Inv(t)
  {
    hide Consume, Charged, Counted, Placed, Tracking;
    forall i | 0 <= i < |t.streams|
      ensures Charged(t, i)
    {
      ConsumeCharges(s, t, c, run, i);
    }
    ConsumeCounted(s, t, c, run);
    ConsumePlaced(s, t, c, run);
  }

  lemma ConsumePlainInv(s: Sys, t: Sys, run: Run)
    requires Inv(s) && ConsumePlain(s, t, run)
    ensures Inv(t)
  {
    hide OpenAfter, Unreported;
    var k := |s.streams|;
    forall d | d in t.links
      ensures CountOf(t.streams, d) == CountOf(s.streams, d)
    {
      CountSnoc(s.streams, t.streams[k], d);
    }
    forall i | 0 <= i < |t.streams|
      ensures Charged(t, i)
    {
      if i < k {
        assert Charged(s, i);
        FirstSame(s.streams, t.streams, i);
      }
    }
  }

  lemma AppendInv(s: Sys, t: Sys, i: nat, now: int)
    requires Inv(s) && Append(s, t, i, now)
    ensures Inv(t)
  {
    hide OpenAfter, Unreported;
    forall d | d in t.links
      ensures CountOf(t.streams, d) == CountOf(s.streams, d)
    {
      CountUpdate(s.streams, i, t.streams[i], d);
    }
    forall j | 0 <= j < |t.streams|
      ensures Charged(t, j)
    {
      assert Charged(s, j);
      FirstSame(s.streams, t.streams, j);
    }
  }

  lemma MergeInv(s: Sys, t: Sys, q: Request)
    requires Inv(s) && MergeStep(s, t, q)
    ensures Inv(t)
  {
    hide Matches, Merged, FindMergeIndex, OpenAfter, Unreported;
    MergeExact(s.log, q);
    forall i | 0 <= i < |t.streams|
      ensures Charged(t, i)
    {
      assert Charged(s, i);
    }
  }

  lemma ServeInv(s: Sys, t: Sys, c: Conn)
    requires Inv(s) && Serve(s, t, c)
    ensures Inv(t)
  {
    hide OpenAfter, Unreported;
    forall i | 0 <= i < |t.streams|
      ensures Charged(t, i)
    {
      assert Charged(s, i);
    }
  }

  lemma ChangeInv(s: Sys, t: Sys, c: Conn, state: ConnState)
    requires Inv(s) && Change(s, t, c, state)
    ensures Inv(t)
  {
    hide Tracking;
    HistoryGrows(s, t, Changes(c, state));
    forall i | 0 <= i < |t.streams|
      ensures Charged(t, i)
    {
      assert Charged(s, i);
    }
  }

  lemma StepInv(s: Sys, t: Sys)
    requires Inv(s) && Step(s, t)
    ensures Inv(t)
  {
    hide Inv;
    if incoming, us :| Accept(s, t, incoming, us) {
      AcceptInv(s, t, incoming, us);
    } else if c, state :| Change(s, t, c, state) {
      ChangeInv(s, t, c, state);
    } else if c :| Serve(s, t, c) {
      ServeInv(s, t, c);
    } else if c, run :| Consume(s, t, c, run) {
      ConsumeInv(s, t, c, run);
    } else if run :| ConsumePlain(s, t, run) {
      ConsumePlainInv(s, t, run);
    } else if i, now :| Append(s, t, i, now) {
      AppendInv(s, t, i, now);
    } else if q :| MergeStep(s, t, q) {
      MergeInv(s, t, q);
    }
  }

  // ----- whole runs

  ghost predicate Trace(ss: seq<Sys>) {
    && ss != [] && Init(ss[0])
    && forall i :: 0 <= i < |ss| - 1 ==> Step(ss[i], ss[i + 1])
  }

  lemma {:induction false} TraceInv(ss: seq<Sys>, i: nat)
    requires Trace(ss) && i < |ss|
    ensures Inv(ss[i])
  {
    hide Inv, Step;
    if i == 0 {
      assert Inv(ss[0]) by { EmptyInv(ss[0]); }
    } else {
      TraceInv(ss, i - 1);
      assert Step(ss[i - 1], ss[i - 1 + 1]);
      StepInv(ss[i - 1], ss[i]);
    }
  }

  lemma EmptyInv(s: Sys)
    requires Init(s)
    ensures Inv(s)
  {
  }

  /** The connection whose request wrote row p. */
  function ConnOf(s: Sys, p: nat): Option<Conn>
    requires p < |s.log| && |s.owner| == |s.log| && s.owner[p] < |s.streams|
  {
    s.streams[s.owner[p]].conn
  }

  /**
   In every reachable state the tracker knows exactly the connections that were established and have been neither closed
   nor hijacked since, and every served connection carries metadata. Of the rows written on one connection at most one
   is not marked reused, and every reused row has no server handshake time. Merges in between change none of this.
   */
  lemma ChargedAtMostOnce(ss: seq<Sys>, k: nat, p: nat, r: nat)
    requires Trace(ss) && k < |ss|
    ensures forall c :: c in ss[k].tracked <==> OpenAfter(ss[k].history, c)
    ensures forall c :: c in ss[k].contexts ==> ss[k].contexts[c]
    ensures Placed(ss[k])
    ensures p < |ss[k].log| && ss[k].log[p].reused ==> ss[k].log[p].serverHandshakeUs == 0
    ensures && p < |ss[k].log| && r < |ss[k].log| && p != r
            && ConnOf(ss[k], p) == ConnOf(ss[k], r) && ConnOf(ss[k], p).Some?
            ==> ss[k].log[p].reused || ss[k].log[r].reused
  {
    TraceInv(ss, k);
    var s := ss[k];
    if p < |s.log| {
      assert Charged(s, s.owner[p]);
      if r < |s.log| && p != r && ConnOf(s, p) == ConnOf(s, r) {
        assert Charged(s, s.owner[r]);
        assert s.owner[p] != s.owner[r];
      }
    }
  }

  /**
   Once every request of a connection has written its row, exactly one of its n >= 1 rows is not marked reused, and
   that row carries the connection's handshake time.
   */
  lemma ChargedExactlyOnce(ss: seq<Sys>, k: nat, c: Conn)
    requires Trace(ss) && k < |ss|
    requires c in ss[k].links && ss[k].links[c].consumed > 0
    requires forall i :: 0 <= i < |ss[k].streams| && ss[k].streams[i].conn == Some(c) ==> ss[k].streams[i].at.Some?
    ensures Placed(ss[k])
    ensures exists p :: 0 <= p < |ss[k].log| && ConnOf(ss[k], p) == Some(c)
              && !ss[k].log[p].reused && ss[k].log[p].serverHandshakeUs == ss[k].links[c].handshakeUs
              && forall r :: 0 <= r < |ss[k].log| && ConnOf(ss[k], r) == Some(c) && r != p ==> ss[k].log[r].reused
  {
    TraceInv(ss, k);
    var s := ss[k];
    CountZeroIff(s.streams, c);
    var i := FirstStream(s.streams, c);
    assert Charged(s, i);
    var p := s.streams[i].at.value;
    forall r | 0 <= r < |s.log| && ConnOf(s, r) == Some(c) && r != p
      ensures s.log[r].reused
    {
      ChargedAtMostOnce(ss, k, p, r);
    }
  }

  lemma {:induction false} FirstStream(streams: seq<Stream>, c: Conn) returns (i: nat)
    requires exists j :: 0 <= j < |streams| && streams[j].conn == Some(c)
    ensures i < |streams| && streams[i].conn == Some(c) && FirstOf(streams, i)
    decreases |streams|
  {
    var init := streams[..|streams| - 1];
    if j :| 0 <= j < |init| && init[j].conn == Some(c) {
      i := FirstStream(init, c);
      assert FirstOf(init, i);
    } else {
      i := |streams| - 1;
    }
  }
}

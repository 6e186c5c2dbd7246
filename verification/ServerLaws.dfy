/** The state of an HTTP/2 server connection as a value (net/http2/server.go), what each step of the serve
    loop makes of it, and the laws that every step keeps: the stream table, the limit on streams, and both
    directions of flow control.  Streams are records under their identifiers, which are never reused: `all`
    holds every stream ever opened, `streams` the keys of the source's table. */
module ServerLaws {
  import opened Utf8
  import opened Flow
  import opened Machine

  // The initial window, and the size of a request body's buffer.
  const INITIAL_WINDOW := 65535

  datatype StreamState = Idle | Open | HalfClosedLocal | HalfClosedRemote | Closed

  /** What a turn of the serve loop came to; Panic says that the source fails there. */
  datatype Outcome = Done | Ignored | StreamError(id: nat) | ConnError | Panic

  /** What decoding a header block came to: an error in what has come, an error at its end, a field that is not
      allowed, or a request as it should be; one without a Content-Length has the length -1. */
  datatype Block = BadCompression | Truncated | Malformed | Request(contentLength: int)

  datatype StreamRec = StreamRec(
    state: StreamState,
    flow: int,
    inflow: int,
    // the request body: made at all, closed for writing, closed as one that has come whole, unread bytes
    hasBody: bool,
    bodyErr: bool,
    complete: bool,
    body: seq<Byte>,
    bodyBytes: nat,
    declBodyBytes: int,
    gotTrailer: bool,
    sentReset: bool,
    gotReset: bool,
    // what has happened to the stream: increments accepted, DATA bytes released by the scheduler,
    // body bytes read by the handler but not yet noted, bytes that found the body closed
    granted: nat,
    taken: nat,
    unnoted: nat,
    refused: nat)
  {
    function Outstanding(): nat { |body| + unnoted + refused }

    function Available(connFlow: int): int { if connFlow < flow then connFlow else flow }

    function InAvailable(connInflow: int): int { if connInflow < inflow then connInflow else inflow }
  }

  type Records = map<nat, StreamRec>

  /** A connection.  pending is the stream whose request headers are unfinished, or 0; granted counts the
      increments accepted for the connection; failed says that a SETTINGS change was refused half-way. */
  datatype Conn = Conn(
    all: Records,
    streams: set<nat>,
    cur: nat,
    max: nat,
    adv: nat,
    pending: nat,
    init: int,
    flow: int,
    inflow: int,
    granted: nat,
    failed: bool)

  // ---------------------------------------------------------------- sums over streams

  ghost function Sum(all: Records, f: StreamRec -> nat): nat
    decreases |all|
  {
    if all == map[] then 0 else
    var id :| id in all;
    f(all[id]) + Sum(all - {id}, f)
  }

  /** Any stream may be summed first. */
  lemma {:induction false} SumPick(all: Records, f: StreamRec -> nat, x: nat)
    requires x in all
    ensures Sum(all, f) == f(all[x]) + Sum(all - {x}, f)
    decreases |all|
  {
    var id :| id in all && Sum(all, f) == f(all[id]) + Sum(all - {id}, f);
    if id != x {
      SumPick(all - {id}, f, x);
      SumPick(all - {x}, f, id);
      assert all - {id} - {x} == all - {x} - {id};
    }
  }

  /** A new or changed record changes the sum by its own share. */
  lemma SumUpdate(all: Records, f: StreamRec -> nat, x: nat, r: StreamRec)
    ensures Sum(all[x := r], f) == Sum(all, f) - (if x in all then f(all[x]) else 0) + f(r)
  {
    SumPick(all[x := r], f, x);
    assert all[x := r] - {x} == all - {x};
    if x in all { SumPick(all, f, x); } else { assert all - {x} == all; }
  }

  lemma {:induction false} SumSame(all: Records, all': Records, f: StreamRec -> nat)
    requires all.Keys == all'.Keys
    requires forall id :: id in all ==> f(all[id]) == f(all'[id])
    ensures Sum(all, f) == Sum(all', f)
    decreases |all|
  {
    if all != map[] {
      var x :| x in all;
      SumPick(all, f, x);
      SumPick(all', f, x);
      SumSame(all - {x}, all' - {x}, f);
    }
  }

  lemma {:induction false} SumAtLeast(all: Records, f: StreamRec -> nat, x: nat)
    requires x in all
    ensures f(all[x]) <= Sum(all, f)
  {
    SumPick(all, f, x);
  }

  // ---------------------------------------------------------------- the laws

  /** Sections 5.1 and 5.1.1 of RFC 7540: the table holds exactly the streams that are neither idle
      nor closed, under odd identifiers up to the largest seen. */
  ghost predicate Table(c: Conn) {
    && c.cur == |c.streams|
    && c.streams <= c.all.Keys
    && forall id :: id in c.all ==>
      && id % 2 == 1 && id <= c.max
      && c.all[id].state != Idle && c.all[id].state != HalfClosedLocal
      && (id in c.streams <==> c.all[id].state != Closed)
  }

  /** Section 5.1.2 of RFC 7540: no more streams than were allowed have a request; an open stream has a
      body, exactly if it is not the one whose headers are unfinished. */
  ghost predicate HeadLaw(c: Conn) {
    && |c.streams - {c.pending}| <= c.adv
    && (c.pending in c.all ==> !c.all[c.pending].hasBody)
    && forall id :: id in c.all && c.all[id].state == Open && id != c.pending ==> c.all[id].hasBody
  }

  function TakenOf(): StreamRec -> nat { (r: StreamRec) => r.taken }

  function OutstandingOf(): StreamRec -> nat { (r: StreamRec) => r.Outstanding() }

  ghost predicate WindowLaw(r: StreamRec, init: int) {
    r.flow == init + r.granted - r.taken && r.taken <= r.granted + MAX_WINDOW
  }

  /** A record's part in the law of outbound flow control. */
  ghost predicate SendLawOf(r: StreamRec, init: int, failed: bool) {
    IsInt32(r.flow) && (!failed && r.state != Closed ==> WindowLaw(r, init))
  }

  /** Section 6.9 of RFC 7540, outbound: a window is what was granted less what was released. */
  ghost predicate SendLaw(c: Conn) {
    && 0 <= c.init <= MAX_WINDOW && IsInt32(c.flow)
    && c.flow == INITIAL_WINDOW + c.granted - Sum(c.all, TakenOf())
    && forall id :: id in c.all ==> SendLawOf(c.all[id], c.init, c.failed)
  }

  /** As much of a body has come as was declared, if anything was. */
  predicate Whole(r: StreamRec) { r.declBodyBytes == -1 || r.bodyBytes == r.declBodyBytes }

  /** A stream without a body has got no bytes, one with a declared length no more than that, and exactly that if its
      body is held to be whole; while the peer may send, its window and the bytes that are owed to it make up the
      initial window. */
  ghost predicate BodyLaw(r: StreamRec) {
    && 0 <= r.inflow <= MAX_WINDOW && (!r.hasBody ==> r.body == [] && r.bodyBytes == 0)
    && (r.declBodyBytes != -1 && r.bodyBytes > 0 ==> r.bodyBytes <= r.declBodyBytes)
    && (r.complete ==> r.hasBody && r.bodyErr && r.state != Open && Whole(r))
    && (r.state == Open ==> r.inflow + r.Outstanding() == INITIAL_WINDOW)
  }

  /** Section 6.9 of RFC 7540, inbound: what the peer may still send, what is buffered, and what is
      read but not noted make up the initial window; for the connection, together with what found
      its body closed. */
  ghost predicate RecvLaw(c: Conn) {
    && 0 <= c.inflow
    && c.inflow + Sum(c.all, OutstandingOf()) == INITIAL_WINDOW
    && forall id :: id in c.all ==> BodyLaw(c.all[id])
  }

  ghost predicate Laws(c: Conn) { Table(c) && HeadLaw(c) && SendLaw(c) && RecvLaw(c) }

  /** Between turns of the loop, only closed streams have refused DATA; so for an open stream the
      window, the unread and the unnoted bytes alone make up the initial window. */
  ghost predicate NoneRefused(all: Records) {
    forall id :: id in all && all[id].state != Closed ==> all[id].refused == 0
  }

  /** A closed stream stays closed, a half-closed one is never open again, a body is not taken away, and a closed body
      stays closed, as whole as it was; what has come or gone has. */
  predicate LaterRec(r: StreamRec, r': StreamRec) {
    && (r.state == Closed ==> r'.state == Closed) && (r.state != Open ==> r'.state != Open)
    && (r.hasBody ==> r'.hasBody && r'.declBodyBytes == r.declBodyBytes)
    && (r.bodyErr ==> r'.bodyErr && r'.complete == r.complete) && (r.gotTrailer ==> r'.gotTrailer)
    && (r.sentReset ==> r'.sentReset) && (r.gotReset ==> r'.gotReset)
  }

  /** What a later state keeps of an earlier one: identifiers only grow and stay known. */
  ghost predicate Later(c: Conn, c': Conn) {
    c.max <= c'.max && forall id :: id in c.all ==> id in c'.all && LaterRec(c.all[id], c'.all[id])
  }

  /** A step: later, and open streams still have refused nothing. */
  ghost predicate Goes(c: Conn, c': Conn) {
    Later(c, c') && (NoneRefused(c.all) ==> NoneRefused(c'.all))
  }

  lemma GoesOn(c: Conn, c': Conn, c'': Conn)
    requires Goes(c, c') && Goes(c', c'')
    ensures Goes(c, c'')
  {
  }

  lemma LaterOn(c: Conn, c': Conn, c'': Conn)
    requires Later(c, c') && Later(c', c'')
    ensures Later(c, c'')
  {
  }

  lemma GoesNowhere(c: Conn)
    ensures Goes(c, c) && Later(c, c)
  {
  }

  lemma GoesFrom(c: Conn, c': Conn, c'': Conn)
    requires Goes(c, c'') && c'.all == c.all && c'.max == c.max
    ensures Goes(c', c'')
  {
  }

  /** What the laws say of one stream. */
  lemma LawsOf(c: Conn, id: nat)
    requires Laws(c)
    ensures IsInt32(c.flow) && 0 <= c.inflow && 0 <= c.init <= MAX_WINDOW && 0 !in c.all && c.streams <= c.all.Keys
    ensures id in c.streams ==> id in c.all && c.cur > 0
    ensures id in c.all ==>
      && id <= c.max && SendLawOf(c.all[id], c.init, c.failed) && BodyLaw(c.all[id])
      && c.all[id].state != Idle && c.all[id].state != HalfClosedLocal
      && (id in c.streams <==> c.all[id].state != Closed)
      && c.inflow + c.all[id].Outstanding() <= INITIAL_WINDOW
      && (c.all[id].state == Open ==> (c.all[id].hasBody <==> id != c.pending))
  {
    InTable(c, id);
    if id in c.all { SumAtLeast(c.all, OutstandingOf(), id); }
  }

  // ---------------------------------------------------------------- one record changes

  /** The connection with one record replaced or added. */
  function With(c: Conn, id: nat, r: StreamRec): Conn { c.(all := c.all[id := r]) }

  lemma WithGoes(c: Conn, id: nat, r: StreamRec, max': nat)
    requires c.max <= max' && (id in c.all ==> LaterRec(c.all[id], r))
    ensures Later(c, With(c, id, r).(max := max'))
    ensures (r.state == Closed || r.refused == 0
             || (id in c.all && c.all[id].state != Closed && r.refused == c.all[id].refused))
      ==> Goes(c, With(c, id, r).(max := max'))
  {
  }

  function TakenBefore(all: Records, id: nat): nat { if id in all then all[id].taken else 0 }

  function OutstandingBefore(all: Records, id: nat): nat { if id in all then all[id].Outstanding() else 0 }

  lemma SendKeeps(c: Conn, id: nat, r: StreamRec, flow': int)
    requires SendLaw(c) && SendLawOf(r, c.init, c.failed) && IsInt32(flow')
    requires flow' + r.taken == c.flow + TakenBefore(c.all, id)
    ensures SendLaw(With(c, id, r).(flow := flow'))
  {
    SumUpdate(c.all, TakenOf(), id, r);
  }

  lemma RecvKeeps(c: Conn, id: nat, r: StreamRec, inflow': int)
    requires RecvLaw(c) && BodyLaw(r) && 0 <= inflow'
    requires inflow' + r.Outstanding() == c.inflow + OutstandingBefore(c.all, id)
    ensures RecvLaw(With(c, id, r).(inflow := inflow'))
  {
    SumUpdate(c.all, OutstandingOf(), id, r);
  }

  // The laws speak of some fields only.

  lemma TableFrame(c: Conn, c': Conn)
    requires Table(c) && c'.all == c.all && c'.streams == c.streams && c'.cur == c.cur && c'.max == c.max
    ensures Table(c')
  {
  }

  lemma HeadLawFrame(c: Conn, c': Conn)
    requires HeadLaw(c) && c'.all == c.all && c'.streams == c.streams && c'.adv == c.adv && c'.pending == c.pending
    ensures HeadLaw(c')
  {
  }

  lemma GoesFrame(c: Conn, c': Conn, c'': Conn)
    requires Goes(c, c') && c''.all == c'.all && c''.max == c'.max
    ensures Goes(c, c'')
  {
  }

  lemma SendLawFrame(c: Conn, c': Conn)
    requires SendLaw(c) && c'.all == c.all && c'.init == c.init && c'.flow == c.flow && c'.granted == c.granted
    requires c'.failed == c.failed
    ensures SendLaw(c')
  {
  }

  lemma RecvLawFrame(c: Conn, c': Conn)
    requires RecvLaw(c) && c'.all == c.all && c'.inflow == c.inflow
    ensures RecvLaw(c')
  {
  }

  /** One record of the table or of a closed stream changes, and with it the connection's counters. */
  function Change(c: Conn, id: nat, r: StreamRec, flow': int, inflow': int): Conn {
    With(c, id, r).(flow := flow', inflow := inflow')
  }

  lemma TableKeeps(c: Conn, id: nat, r: StreamRec)
    requires Table(c) && id in c.all
    requires r.state == c.all[id].state || (r.state == HalfClosedRemote && c.all[id].state == Open)
    ensures Table(With(c, id, r))
  {
  }

  lemma HeadKeeps(c: Conn, id: nat, r: StreamRec)
    requires HeadLaw(c) && id in c.all && r.hasBody == c.all[id].hasBody
    requires r.state == c.all[id].state || r.state != Open
    ensures HeadLaw(With(c, id, r))
  {
    hide Table;
    forall x | x in With(c, id, r).all && With(c, id, r).all[x].state == Open && x != c.pending
      ensures With(c, id, r).all[x].hasBody
    {
      assert x in c.all && c.all[x].state == Open;
    }
  }

  /** What a changed record must satisfy for the laws. */
  ghost predicate MayChange(c: Conn, id: nat, r: StreamRec, flow': int, inflow': int) {
    && id in c.all && r.hasBody == c.all[id].hasBody && LaterRec(c.all[id], r)
    && (r.state == c.all[id].state || (r.state == HalfClosedRemote && c.all[id].state == Open))
    && SendLawOf(r, c.init, c.failed) && IsInt32(flow') && flow' + r.taken == c.flow + c.all[id].taken
    && BodyLaw(r) && 0 <= inflow' && inflow' + r.Outstanding() == c.inflow + c.all[id].Outstanding()
  }

  lemma ChangeKeeps(c: Conn, id: nat, r: StreamRec, flow': int, inflow': int)
    requires Laws(c) && MayChange(c, id, r, flow', inflow')
    ensures Laws(Change(c, id, r, flow', inflow')) && Later(c, Change(c, id, r, flow', inflow'))
    ensures r.refused == c.all[id].refused ==> Goes(c, Change(c, id, r, flow', inflow'))
  {
    hide Table, HeadLaw, SendLaw, RecvLaw, SendLawOf, BodyLaw, Later, NoneRefused, StreamRec.Outstanding;
    var c' := Change(c, id, r, flow', inflow');
    TableKeeps(c, id, r);
    TableFrame(With(c, id, r), c');
    HeadKeeps(c, id, r);
    HeadLawFrame(With(c, id, r), c');
    SendKeeps(c, id, r, flow');
    SendLawFrame(With(c, id, r).(flow := flow'), c');
    RecvKeeps(c, id, r, inflow');
    RecvLawFrame(With(c, id, r).(inflow := inflow'), c');
    WithGoes(c, id, r, c.max);
    if r.refused == c.all[id].refused { ChangeGoes(c, id, r, c'); }
    LaterFrame(c, With(c, id, r).(max := c.max), c');
  }

  lemma ChangeGoes(c: Conn, id: nat, r: StreamRec, c': Conn)
    requires id in c.all && r.refused == c.all[id].refused && LaterRec(c.all[id], r)
    requires r.state == c.all[id].state || (r.state == HalfClosedRemote && c.all[id].state == Open)
    requires c'.all == c.all[id := r] && c'.max == c.max
    ensures Goes(c, c')
  {
  }

  lemma LaterFrame(c: Conn, c': Conn, c'': Conn)
    requires Later(c, c') && c''.all == c'.all && c''.max == c'.max
    ensures Later(c, c'')
  {
  }

  // ---------------------------------------------------------------- opening and closing

  /** A stream as it is when opened: its body is made when its headers are complete. */
  function Opened(ended: bool, init: int): StreamRec {
    StreamRec(if ended then HalfClosedRemote else Open, init, INITIAL_WINDOW,
              false, false, false, [], 0, 0, false, false, false, 0, 0, 0, 0)
  }

  /** A new stream, whose headers are unfinished. */
  function AfterOpen(c: Conn, id: nat, ended: bool): Conn {
    With(c, id, Opened(ended, c.init)).(streams := c.streams + {id}, cur := c.cur + 1, max := id, pending := id)
  }

  lemma TableOpens(c: Conn, id: nat, ended: bool)
    requires Table(c) && id > c.max && id % 2 == 1
    ensures id !in c.all && 0 !in c.all && 0 !in c.streams && Table(AfterOpen(c, id, ended))
  {
    assert id !in c.streams;
    assert |c.streams + {id}| == |c.streams| + 1;
  }

  lemma HeadOpens(c: Conn, id: nat, ended: bool)
    requires HeadLaw(c) && c.pending == 0 && 0 !in c.all && c.streams <= c.all.Keys && id !in c.all
    ensures HeadLaw(AfterOpen(c, id, ended))
  {
    assert c.streams - {0} == c.streams;
    assert (c.streams + {id}) - {id} == c.streams;
  }

  lemma OpenKeeps(c: Conn, id: nat, ended: bool)
    requires Laws(c) && c.pending == 0 && id > c.max && id % 2 == 1
    ensures id !in c.all && Laws(AfterOpen(c, id, ended)) && Goes(c, AfterOpen(c, id, ended))
  {
    var st, c' := Opened(ended, c.init), AfterOpen(c, id, ended);
    TableOpens(c, id, ended);
    HeadOpens(c, id, ended);
    hide Table, HeadLaw, SendLaw, RecvLaw, Later, NoneRefused;
    SendKeeps(c, id, st, c.flow);
    SendLawFrame(With(c, id, st), c');
    RecvKeeps(c, id, st, c.inflow);
    RecvLawFrame(With(c, id, st), c');
    WithGoes(c, id, st, id);
    GoesFrame(c, With(c, id, st).(max := id), c');
  }

  /** A closed stream leaves the table, and its body is closed. */
  function AfterClose(c: Conn, id: nat, sentReset: bool, gotReset: bool): Conn
    requires id in c.all && c.cur > 0
  {
    var st := c.all[id];
    var st' := st.(state := Closed, bodyErr := true,
                   sentReset := st.sentReset || sentReset, gotReset := st.gotReset || gotReset);
    With(c, id, st').(streams := c.streams - {id}, cur := c.cur - 1)
  }

  lemma InTable(c: Conn, id: nat)
    requires Table(c)
    ensures id in c.streams ==> id in c.all && c.cur > 0 && c.all[id].state != Idle && c.all[id].state != Closed
    ensures id in c.all ==>
      c.all[id].state != Idle && c.all[id].state != HalfClosedLocal && (id in c.streams <==> c.all[id].state != Closed)
  {
    if id in c.streams { assert c.streams == (c.streams - {id}) + {id}; }
  }

  /** The stream whose headers are unfinished, if it is not this one. */
  function Without(pending: nat, id: nat): nat { if pending == id then 0 else pending }

  lemma TableCloses(c: Conn, id: nat, sentReset: bool, gotReset: bool)
    requires Table(c) && id in c.streams
    ensures id in c.all && c.cur > 0 && 0 !in c.all && 0 !in c.streams && Table(AfterClose(c, id, sentReset, gotReset))
  {
    InTable(c, id);
    assert |c.streams - {id}| == |c.streams| - 1;
  }

  lemma HeadCloses(c: Conn, c': Conn, id: nat)
    requires HeadLaw(c) && id in c.all && 0 !in c.all && 0 !in c.streams && c'.adv == c.adv
    requires c'.pending == c.pending || (c.pending == id && c'.pending == 0)
    requires c'.streams == c.streams - {id} && c'.all.Keys == c.all.Keys
    requires c'.all[id].state == Closed && c'.all[id].hasBody == c.all[id].hasBody
    requires forall x :: x in c.all && x != id ==> c'.all[x] == c.all[x]
    ensures HeadLaw(c')
  {
    Smaller(c'.streams - {c'.pending}, c.streams - {c.pending});
  }

  lemma Smaller(a: set<nat>, b: set<nat>)
    requires a <= b
    ensures |a| <= |b|
  {
    assert b == a + (b - a);
  }

  lemma CloseKeeps(c: Conn, id: nat, sentReset: bool, gotReset: bool)
    requires Laws(c) && id in c.streams
    ensures id in c.all && c.cur > 0
    ensures var c' := AfterClose(c, id, sentReset, gotReset);
      Laws(c') && Goes(c, c') && Laws(c'.(pending := Without(c.pending, id)))
  {
    hide Table, HeadLaw, SendLaw, RecvLaw, Later, NoneRefused, SendLawOf, BodyLaw;
    TableCloses(c, id, sentReset, gotReset);
    var c' := AfterClose(c, id, sentReset, gotReset);
    var c'' := c'.(pending := Without(c.pending, id));
    var st := c'.all[id];
    ClosedRecord(c, id, st);
    HeadCloses(c, c', id);
    HeadCloses(c, c'', id);
    TableFrame(c', c'');
    SendKeeps(c, id, st, c.flow);
    SendLawFrame(With(c, id, st), c');
    SendLawFrame(c', c'');
    RecvKeeps(c, id, st, c.inflow);
    RecvLawFrame(With(c, id, st), c');
    RecvLawFrame(c', c'');
    WithGoes(c, id, st, c.max);
    GoesFrame(c, With(c, id, st).(max := c.max), c');
  }

  lemma ClosedRecord(c: Conn, id: nat, st: StreamRec)
    requires SendLaw(c) && RecvLaw(c) && id in c.all
    requires st == c.all[id].(state := Closed, bodyErr := true, sentReset := st.sentReset, gotReset := st.gotReset)
    ensures SendLawOf(st, c.init, c.failed) && BodyLaw(st) && IsInt32(c.flow) && 0 <= c.inflow
  {
    assert SendLawOf(c.all[id], c.init, c.failed) && BodyLaw(c.all[id]);
  }

  /** One stream changes and is then closed. */
  lemma ChangedThenClosed(c: Conn, c': Conn, id: nat, sentReset: bool, gotReset: bool)
    requires id in c.all && id in c'.all && c'.all == c.all[id := c'.all[id]] && c'.max == c.max && c'.cur > 0
    requires LaterRec(c.all[id], c'.all[id])
    ensures Goes(c, AfterClose(c', id, sentReset, gotReset))
  {
  }

  // ---------------------------------------------------------------- request headers

  /** The end of a stream's request headers: the stream gets its body, and is not pending any more. */
  function AfterRequest(c: Conn, id: nat, contentLength: int): Conn
    requires id in c.all
  {
    var st := c.all[id];
    var st' := st.(hasBody := st.state == Open, declBodyBytes := if st.state == Open then contentLength else 0);
    With(c, id, st').(pending := 0)
  }

  lemma RequestKeeps(c: Conn, id: nat, contentLength: int)
    requires Laws(c) && id in c.streams && c.pending == id && c.cur <= c.adv
    ensures id in c.all && Laws(AfterRequest(c, id, contentLength)) && Goes(c, AfterRequest(c, id, contentLength))
  {
    assert id in c.all;
    var c' := AfterRequest(c, id, contentLength);
    var st := c'.all[id];
    assert SendLawOf(c.all[id], c.init, c.failed) && BodyLaw(c.all[id]);
    HeadRequests(c, c', id);
    hide HeadLaw, SendLaw, RecvLaw, Later, NoneRefused;
    TableKeeps(c, id, st);
    TableFrame(With(c, id, st), c');
    SendKeeps(c, id, st, c.flow);
    SendLawFrame(With(c, id, st), c');
    RecvKeeps(c, id, st, c.inflow);
    RecvLawFrame(With(c, id, st), c');
    ChangeGoes(c, id, st, c');
  }

  lemma HeadRequests(c: Conn, c': Conn, id: nat)
    requires Table(c) && HeadLaw(c) && c.pending == id && c.cur <= c.adv && id in c.all
    requires c'.streams == c.streams && c'.adv == c.adv && c'.pending == 0
    requires c'.all.Keys == c.all.Keys && (c'.all[id].state == Open ==> c'.all[id].hasBody)
    requires forall x :: x in c.all && x != id ==> c'.all[x] == c.all[x]
    ensures HeadLaw(c')
  {
    Smaller(c.streams - {0}, c.streams);
  }

  /** processHeaderBlockFragment, up to the start of the handler. */
  function AfterBlock(c: Conn, id: nat, endHeaders: bool, block: Block): (Conn, Outcome)
    requires id in c.all
  {
    if block == BadCompression then (c, ConnError)
    else if !endHeaders then (c, Done)
    else if block == Truncated then (c, ConnError)
    else if c.cur > c.adv || block == Malformed then (c.(pending := 0), StreamError(id))
    else (AfterRequest(c, id, block.contentLength), Done)
  }

  /** A stream error leaves the stream to be reset; until then it counts as pending. */
  lemma BlockKeeps(c: Conn, id: nat, endHeaders: bool, block: Block)
    requires Laws(c) && id in c.streams && c.pending == id
    ensures id in c.all
    ensures var (c', out) := AfterBlock(c, id, endHeaders, block);
      Laws(if out.StreamError? then c'.(pending := id) else c') && Goes(c, c')
  {
    hide Laws, Goes, AfterRequest;
    LawsOf(c, id);
    GoesNowhere(c);
    if block == BadCompression || block == Truncated || !endHeaders {
    } else if c.cur > c.adv || block == Malformed {
      GoesFrame(c, c, c.(pending := 0));
      assert c.(pending := 0).(pending := id) == c;
    } else {
      RequestKeeps(c, id, block.contentLength);
    }
  }

  /** Trailers have begun. */
  function AfterTrailer(c: Conn, id: nat): Conn
    requires id in c.all
  {
    With(c, id, c.all[id].(gotTrailer := true))
  }

  /** processTrailerHeaderBlockFragment: the end of trailers ends the stream.  The source fails if a field is not
      allowed, because no request is pending any more, and if the stream has no body to close. */
  function AfterTrailerBlock(c: Conn, id: nat, endHeaders: bool, block: Block): (Conn, Outcome)
    requires id in c.all
  {
    if block == BadCompression then (c, ConnError)
    else if !endHeaders then (c, Done)
    else if block == Malformed || !c.all[id].hasBody then (c, Panic)
    else (With(c, id, EndStream(c.all[id])), if block == Truncated then ConnError else Done)
  }

  predicate TrailersPanic(st: StreamRec, endHeaders: bool, block: Block) {
    endHeaders && (block == Malformed || (block != BadCompression && !st.hasBody))
  }

  lemma TrailerBlockPanics(c: Conn, id: nat, endHeaders: bool, block: Block)
    requires id in c.all
    ensures var (c', out) := AfterTrailerBlock(c, id, endHeaders, block);
      && (out == Panic <==> TrailersPanic(c.all[id], endHeaders, block))
      && !out.StreamError? && c'.pending == c.pending && c'.streams == c.streams
  {
  }

  lemma TrailerBlockKeeps(c: Conn, id: nat, endHeaders: bool, block: Block)
    requires Laws(c) && id in c.streams
    ensures id in c.all
    ensures var c' := AfterTrailerBlock(c, id, endHeaders, block).0; Laws(c') && Goes(c, c')
  {
    hide Laws, Goes;
    LawsOf(c, id);
    GoesNowhere(c);
    if c.all[id].hasBody {
      var r := EndStream(c.all[id]);
      ChangeKeeps(c, id, r, c.flow, c.inflow);
      assert With(c, id, r) == Change(c, id, r, c.flow, c.inflow);
    }
  }

  /** processHeaders: what is not a new stream's or an open stream's is ignored or refused. */
  function AfterHeaders(c: Conn, id: nat, ended: bool, endHeaders: bool, block: Block, inGoAway: bool): (Conn, Outcome)
    requires c.streams <= c.all.Keys
  {
    if inGoAway then (c, Ignored)
    else if id % 2 != 1 then (c, ConnError)
    else if id in c.streams then
      if c.all[id].gotTrailer then (c, ConnError)
      else if !ended then (AfterTrailer(c, id), StreamError(id))
      else AfterTrailerBlock(AfterTrailer(c, id), id, endHeaders, block)
    else if id <= c.max || c.pending != 0 then (c, ConnError)
    else AfterBlock(AfterOpen(c, id, ended), id, endHeaders, block)
  }

  /** A stream is left pending only by headers that have not ended, or by a connection error. */
  lemma HeadersPending(c: Conn, id: nat, ended: bool, endHeaders: bool, block: Block)
    requires c.streams <= c.all.Keys && c.pending == 0
    ensures var (c', out) := AfterHeaders(c, id, ended, endHeaders, block, false);
      out != ConnError ==> c'.pending == 0 || (c'.pending == id && !endHeaders)
  {
  }

  lemma HeadersPanic(c: Conn, id: nat, ended: bool, endHeaders: bool, block: Block, inGoAway: bool)
    requires c.streams <= c.all.Keys
    ensures AfterHeaders(c, id, ended, endHeaders, block, inGoAway).1 == Panic <==>
      && !inGoAway && id % 2 == 1 && id in c.streams && !c.all[id].gotTrailer && ended
      && TrailersPanic(c.all[id], endHeaders, block)
  {
  }

  /** A request whose headers come in one frame is accepted if and only if the connection is not being shut down, its
      stream is odd and above all that came before, no other headers are unfinished, the request is as it should be,
      and there is room for another stream.  It then has its windows and, unless the peer is done, its body. */
  lemma RequestAccepted(c: Conn, id: nat, ended: bool, block: Block, inGoAway: bool)
    requires Table(c) && id !in c.streams && c.streams <= c.all.Keys
    ensures var (c', out) := AfterHeaders(c, id, ended, true, block, inGoAway);
      var fits := !inGoAway && id % 2 == 1 && id > c.max && c.pending == 0;
      && (out == Done <==> fits && block.Request? && |c.streams| < c.adv)
      && (out == StreamError(id) <==> fits && (block == Malformed || (block.Request? && |c.streams| >= c.adv)))
      && (out == Ignored <==> inGoAway)
      && (out == Done ==>
        && c'.streams == c.streams + {id} && id in c'.all && c'.max == id && c'.pending == 0
        && c'.all[id].flow == c.init && c'.all[id].inflow == 65535 && c'.all[id].body == []
        && (c'.all[id].hasBody <==> !ended) && (!ended ==> c'.all[id].declBodyBytes == block.contentLength)
        && c'.all[id].state == (if ended then HalfClosedRemote else Open))
  {
    assert c.cur == |c.streams| && (id in c.all ==> id <= c.max);
    hide Table, AfterTrailerBlock;
  }

  lemma TrailerKeeps(c: Conn, id: nat)
    requires Laws(c) && id in c.all
    ensures Laws(AfterTrailer(c, id)) && Goes(c, AfterTrailer(c, id))
  {
    hide Laws, Goes;
    LawsOf(c, id);
    var r := c.all[id].(gotTrailer := true);
    ChangeKeeps(c, id, r, c.flow, c.inflow);
    assert AfterTrailer(c, id) == Change(c, id, r, c.flow, c.inflow);
  }

  // ---------------------------------------------------------------- DATA

  datatype Verdict = NotOpen | NoBody | TooLong | NoWindow | BodyClosed | BodyFull | Stored

  /** What becomes of DATA for a stream. */
  function Judge(st: StreamRec, data: seq<Byte>, connInflow: int): Verdict {
    if st.state != Open || st.gotTrailer then NotOpen
    else if !st.hasBody then NoBody
    else if st.declBodyBytes != -1 && st.bodyBytes + |data| > st.declBodyBytes then TooLong
    else if data == [] then Stored
    else if st.InAvailable(connInflow) < |data| then NoWindow
    else if st.bodyErr then BodyClosed
    else if |st.body| + |data| > INITIAL_WINDOW then BodyFull
    else Stored
  }

  /** The bytes of data that a body with so many unread bytes takes. */
  function Room(unread: nat, data: seq<Byte>): seq<Byte> {
    if unread + |data| <= INITIAL_WINDOW then data
    else if unread >= INITIAL_WINDOW then []
    else data[..INITIAL_WINDOW - unread]
  }

  function AfterData(st: StreamRec, v: Verdict, data: seq<Byte>, ended: bool): StreamRec {
    match v
    case NotOpen => st
    case NoBody => st
    case TooLong => st.(bodyErr := true)
    case NoWindow => st
    case BodyClosed => st.(inflow := st.inflow - |data|, refused := st.refused + |data|)
    case BodyFull => st.(inflow := st.inflow - |data|, body := st.body + Room(|st.body|, data))
    case Stored =>
      var st' := st.(inflow := st.inflow - |data|, body := st.body + data, bodyBytes := st.bodyBytes + |data|);
      if ended then EndStream(st') else st'
  }

  /** endStream: the body is closed, as a whole one if it is as long as was declared, and the stream half-closed by the
      peer.  If the body is closed already, that stays as it is. */
  function EndStream(st: StreamRec): StreamRec {
    st.(state := HalfClosedRemote, bodyErr := true, complete := if st.bodyErr then st.complete else Whole(st))
  }

  function Consumed(v: Verdict, data: seq<Byte>): nat {
    if v == Stored || v == BodyClosed || v == BodyFull then |data| else 0
  }

  /** The source's processData on one stream. */
  method ReceiveData(st: StreamRec, data: seq<Byte>, ended: bool, connInflow: int) returns (v: Verdict, st': StreamRec)
    ensures v == Judge(st, data, connInflow)
    ensures st' == AfterData(st, v, data, ended)
  {
    hide EndStream;
    if st.state != Open || st.gotTrailer { return NotOpen, st; }
    if !st.hasBody { return NoBody, st; }
    if st.declBodyBytes != -1 && st.bodyBytes + |data| > st.declBodyBytes {
      return TooLong, st.(bodyErr := true);
    }
    if |data| > 0 {
      if st.InAvailable(connInflow) < |data| { return NoWindow, st; }
      if st.bodyErr { return BodyClosed, st.(inflow := st.inflow - |data|, refused := st.refused + |data|); }
      var wrote := Room(|st.body|, data);
      if |wrote| < |data| { return BodyFull, st.(inflow := st.inflow - |data|, body := st.body + wrote); }
    }
    st' := st.(inflow := st.inflow - |data|, body := st.body + data, bodyBytes := st.bodyBytes + |data|);
    if ended { st' := EndStream(st'); }
    v := Stored;
  }

  /** Which DATA is stored: that of an open stream with a body and without trailers, within the declared length; and if
      there are any bytes, within both windows and before the body is closed. */
  lemma DataAccepted(st: StreamRec, data: seq<Byte>, connInflow: int)
    requires BodyLaw(st)
    ensures Judge(st, data, connInflow) == Stored <==>
      && st.state == Open && !st.gotTrailer && st.hasBody
      && (st.declBodyBytes == -1 || st.bodyBytes + |data| <= st.declBodyBytes)
      && (data == [] || (|data| <= st.inflow && |data| <= connInflow && !st.bodyErr))
  {
  }

  /** Received DATA keeps the body's law; what is stored fits the body's buffer, which is never full. */
  lemma DataKeeps(st: StreamRec, data: seq<Byte>, ended: bool, connInflow: int)
    requires BodyLaw(st) && 0 <= connInflow
    ensures var v := Judge(st, data, connInflow);
      var st' := AfterData(st, v, data, ended);
      && v != BodyFull && BodyLaw(st') && Consumed(v, data) <= connInflow
      && st'.Outstanding() == st.Outstanding() + Consumed(v, data)
      && (v == Stored && data != [] ==> |st'.body| <= INITIAL_WINDOW)
  {
  }

  /** The source's check that a stream has a body is reached, and fails, exactly for the stream whose headers are
      unfinished. */
  lemma JudgedNoBody(c: Conn, id: nat, data: seq<Byte>, ended: bool)
    requires Laws(c) && id in c.streams && id in c.all
    ensures var st := c.all[id];
      Judge(st, data, c.inflow) == NoBody <==> st.state == Open && !st.gotTrailer && id == c.pending
    ensures Change(c, id, AfterData(c.all[id], NoBody, data, ended), c.flow, c.inflow - Consumed(NoBody, data)) == c
  {
    hide Laws;
    LawsOf(c, id);
    assert c.all[id := c.all[id]] == c.all;
  }

  lemma DataMayChange(c: Conn, id: nat, data: seq<Byte>, ended: bool)
    requires Laws(c) && id in c.streams
    ensures id in c.all
    ensures var v := Judge(c.all[id], data, c.inflow);
      MayChange(c, id, AfterData(c.all[id], v, data, ended), c.flow, c.inflow - Consumed(v, data))
  {
    hide Laws;
    LawsOf(c, id);
    DataKeeps(c.all[id], data, ended, c.inflow);
  }

  // ---------------------------------------------------------------- what handlers read

  /** A record after n bytes read by the handler are noted. */
  function Noted(st: StreamRec, n: nat): StreamRec
    requires n <= st.unnoted
  {
    st.(unnoted := st.unnoted - n,
        inflow := if st.state == HalfClosedRemote || st.state == Closed then st.inflow else st.inflow + n)
  }

  lemma NotedKeeps(st: StreamRec, n: nat)
    requires BodyLaw(st) && n <= st.unnoted && (st.state == Open || st.state == HalfClosedRemote || st.state == Closed)
    ensures BodyLaw(Noted(st, n)) && Noted(st, n).Outstanding() == st.Outstanding() - n
    ensures st.state == Open ==> Added(st.inflow, n) == (st.inflow + n, true)
  {
    if st.state == Open { AddKeepsPromiseIff(st.inflow, n); }
  }

  lemma NotedMayChange(c: Conn, id: nat, n: nat)
    requires Laws(c) && id in c.all && n <= c.all[id].unnoted
    ensures MayChange(c, id, Noted(c.all[id], n), c.flow, c.inflow + n) && c.inflow + n <= INITIAL_WINDOW
    ensures c.all[id].state == Open ==> Added(c.all[id].inflow, n) == (c.all[id].inflow + n, true)
  {
    hide Laws, LaterRec, SendLawOf, BodyLaw, Noted, Sum, StreamRec.Outstanding;
    LawsOf(c, id);
    NotedKeeps(c.all[id], n);
    NotedRest(c.all[id], n, c.init, c.failed);
  }

  /** Nothing else is changed. */
  lemma NotedRest(st: StreamRec, n: nat, init: int, failed: bool)
    requires n <= st.unnoted
    ensures var r := Noted(st, n);
      && LaterRec(st, r) && (SendLawOf(st, init, failed) ==> SendLawOf(r, init, failed)) && r.hasBody == st.hasBody
      && r.state == st.state && r.taken == st.taken && n <= st.Outstanding() && 0 <= st.Outstanding()
  {
  }

  /** A record after its handler has read n bytes. */
  function HandedOut(st: StreamRec, n: nat): StreamRec
    requires n <= |st.body|
  {
    st.(body := st.body[n..], unnoted := st.unnoted + n)
  }

  /** A record after its handler has closed the body, if there is one. */
  function HandlerClosed(st: StreamRec): StreamRec { if st.hasBody then st.(bodyErr := true) else st }

  // ---------------------------------------------------------------- outbound windows

  /** WINDOW_UPDATE asks for a window that a window of n can become. */
  predicate Acceptable(n: int, inc: int) { 0 <= n && n + inc <= MAX_WINDOW }

  /** An increment that a peer can ask for is accepted, and then exact, if and only if the window is not
      negative and the sum is not above the largest window. */
  lemma AcceptedIff(n: int, inc: int)
    requires IsInt32(n) && 0 <= inc <= MAX_WINDOW
    ensures Added(n, inc) == if 0 <= n && n + inc <= 0x7fff_ffff then (n + inc, true) else (n, false)
  {
    AddKeepsPromiseIff(n, inc);
  }

  function WithGrant(st: StreamRec, inc: nat): StreamRec { st.(flow := st.flow + inc, granted := st.granted + inc) }

  lemma GrantKeeps(c: Conn, id: nat, inc: nat)
    requires Laws(c) && id in c.all && Acceptable(c.all[id].flow, inc)
    ensures MayChange(c, id, WithGrant(c.all[id], inc), c.flow, c.inflow)
  {
    hide Laws;
    LawsOf(c, id);
  }

  lemma GrantAllKeeps(c: Conn, inc: nat)
    requires Laws(c) && Acceptable(c.flow, inc)
    ensures Laws(c.(flow := c.flow + inc, granted := c.granted + inc))
    ensures Goes(c, c.(flow := c.flow + inc, granted := c.granted + inc))
  {
    var c' := c.(flow := c.flow + inc, granted := c.granted + inc);
    assert SendLaw(c');
    hide Table, HeadLaw, SendLaw, RecvLaw, Later, NoneRefused;
    TableFrame(c, c');
    HeadLawFrame(c, c');
    RecvLawFrame(c, c');
    GoesNowhere(c);
    GoesFrame(c, c, c');
  }

  /** A record after the scheduler has released n bytes of its DATA. */
  function WithRelease(st: StreamRec, n: nat): StreamRec { st.(flow := st.flow - n, taken := st.taken + n) }

  lemma ReleaseKeeps(c: Conn, id: nat, n: nat)
    requires Laws(c) && id in c.all && n <= c.all[id].Available(c.flow)
    ensures MayChange(c, id, WithRelease(c.all[id], n), c.flow - n, c.inflow)
  {
    hide Laws;
    LawsOf(c, id);
  }

  /** processWindowUpdate, for a stream or (id 0) for the connection. */
  function AfterWindowUpdate(c: Conn, id: nat, inc: nat): (Conn, Outcome)
    requires c.streams <= c.all.Keys
  {
    if id == 0 then
      if Acceptable(c.flow, inc) then (c.(flow := c.flow + inc, granted := c.granted + inc), Done) else (c, ConnError)
    else if id !in c.streams then (c, Ignored)
    else if Acceptable(c.all[id].flow, inc) then (With(c, id, WithGrant(c.all[id], inc)), Done)
    else (c, StreamError(id))
  }

  // ---------------------------------------------------------------- SETTINGS_INITIAL_WINDOW_SIZE

  /** The windows after a SETTINGS change by growth has reached the streams in done. */
  ghost predicate Shifted(before: Records, after: Records, done: set<nat>, growth: int) {
    && IsInt32(growth)
    && after.Keys == before.Keys
    && (forall id :: id in before ==> IsInt32(before[id].flow))
    && (forall id :: id in before && id in done ==> Added(before[id].flow, growth).1)
    && (forall id :: id in before ==>
      after[id] == if id in done then before[id].(flow := Added(before[id].flow, growth).0) else before[id])
  }

  lemma ShiftOne(before: Records, after: Records, done: set<nat>, growth: int, id: nat)
    requires Shifted(before, after, done, growth) && id in before && id !in done && Added(before[id].flow, growth).1
    ensures Shifted(before, after[id := after[id].(flow := Added(before[id].flow, growth).0)], done + {id}, growth)
  {
  }

  /** The source's loop over the table, in any order, up to the first window that refuses. */
  method ShiftAll(all: Records, streams: set<nat>, growth: int) returns (all': Records, done: set<nat>, ok: bool)
    requires streams <= all.Keys && IsInt32(growth) && forall id :: id in all ==> IsInt32(all[id].flow)
    ensures Shifted(all, all', done, growth) && done <= streams
    ensures ok ==> done == streams
    ensures !ok ==> exists id :: id in streams && !Added(all[id].flow, growth).1
  {
    all' := all;
    var todo := streams;
    done := {};
    while todo != {}
      invariant todo !! done && todo + done == streams
      invariant Shifted(all, all', done, growth)
      decreases todo
    {
      var id :| id in todo;
      var (n, more) := Added(all'[id].flow, growth);
      if !more { return all', done, false; }
      ShiftOne(all, all', done, growth, id);
      all' := all'[id := all'[id].(flow := n)];
      todo, done := todo - {id}, done + {id};
    }
    assert done == streams;
    ok := true;
  }

  lemma {:induction false} ShiftSums(before: Records, after: Records, done: set<nat>, growth: int)
    requires Shifted(before, after, done, growth)
    ensures Sum(before, TakenOf()) == Sum(after, TakenOf())
    ensures Sum(before, OutstandingOf()) == Sum(after, OutstandingOf())
  {
    SumSame(before, after, TakenOf());
    SumSame(before, after, OutstandingOf());
  }

  /** An accepted increment is exact, unless the sum is out of range below. */
  lemma AddExact(n: int, d: int)
    requires IsInt32(n) && IsInt32(d) && Added(n, d).1 && MIN_INT32 <= n + d
    ensures Added(n, d).0 == n + d
  {
    AddKeepsPromiseIff(n, d);
  }

  lemma ShiftedRecord(r: StreamRec, r': StreamRec, init: int, val: int, failed: bool, failed': bool, done: bool)
    requires SendLawOf(r, init, failed) && 0 <= init <= MAX_WINDOW && 0 <= val <= MAX_WINDOW && (failed ==> failed')
    requires done ==> Added(r.flow, val - init).1
    requires r' == if done then r.(flow := Added(r.flow, val - init).0) else r
    requires done || failed' || r.state == Closed
    ensures SendLawOf(r', val, failed')
  {
    if !failed' && r.state != Closed { AddExact(r.flow, val - init); }
  }

  /** A SETTINGS change that reached every stream in the table keeps the law under the new value;
      one cut short keeps it for the connection. */
  lemma ShiftSend(c: Conn, after: Records, done: set<nat>, val: int, failed': bool)
    requires Table(c) && SendLaw(c) && 0 <= val <= MAX_WINDOW && Shifted(c.all, after, done, val - c.init)
    requires (c.failed ==> failed') && (!failed' ==> done == c.streams)
    ensures SendLaw(c.(all := after, init := val, failed := failed'))
  {
    hide Table, SendLawOf, Sum;
    ShiftSums(c.all, after, done, val - c.init);
    forall id | id in after ensures SendLawOf(after[id], val, failed') {
      assert id in c.all && SendLawOf(c.all[id], c.init, c.failed);
      ShiftSendAt(c, after, done, val, failed', id);
    }
  }

  lemma ShiftSendAt(c: Conn, after: Records, done: set<nat>, val: int, failed': bool, id: nat)
    requires Table(c) && 0 <= c.init <= MAX_WINDOW && 0 <= val <= MAX_WINDOW
    requires Shifted(c.all, after, done, val - c.init)
    requires (c.failed ==> failed') && (!failed' ==> done == c.streams)
    requires id in c.all && id in after && SendLawOf(c.all[id], c.init, c.failed)
    ensures SendLawOf(after[id], val, failed')
  {
    InTable(c, id);
    hide Table, SendLawOf;
    ShiftedRecord(c.all[id], after[id], c.init, val, c.failed, failed', id in done);
  }

  lemma ShiftTable(c: Conn, after: Records, done: set<nat>, growth: int)
    requires Shifted(c.all, after, done, growth) && Table(c)
    ensures Table(c.(all := after))
  {
    forall id | id in after ensures after[id].state == c.all[id].state { assert id in c.all; }
  }

  lemma ShiftHead(c: Conn, after: Records, done: set<nat>, growth: int)
    requires Shifted(c.all, after, done, growth) && HeadLaw(c)
    ensures HeadLaw(c.(all := after))
  {
  }

  lemma ShiftRecv(c: Conn, after: Records, done: set<nat>, growth: int)
    requires Shifted(c.all, after, done, growth) && RecvLaw(c)
    ensures RecvLaw(c.(all := after))
  {
    ShiftSums(c.all, after, done, growth);
  }

  lemma ShiftGoes(c: Conn, after: Records, done: set<nat>, growth: int)
    requires Shifted(c.all, after, done, growth)
    ensures Goes(c, c.(all := after))
  {
  }

  lemma ShiftKeeps(c: Conn, after: Records, done: set<nat>, val: int, failed': bool)
    requires Laws(c) && 0 <= val <= MAX_WINDOW && Shifted(c.all, after, done, val - c.init)
    requires (c.failed ==> failed') && (!failed' ==> done == c.streams)
    ensures var c' := c.(all := after, init := val, failed := failed'); Laws(c') && Goes(c, c')
  {
    var c' := c.(all := after, init := val, failed := failed');
    hide Table, HeadLaw, SendLaw, RecvLaw, Later, NoneRefused, Shifted;
    ShiftSend(c, after, done, val, failed');
    ShiftTable(c, after, done, val - c.init);
    TableFrame(c.(all := after), c');
    ShiftHead(c, after, done, val - c.init);
    HeadLawFrame(c.(all := after), c');
    ShiftRecv(c, after, done, val - c.init);
    RecvLawFrame(c.(all := after), c');
    ShiftGoes(c, after, done, val - c.init);
    GoesFrame(c, c.(all := after), c');
  }

  /** A window that is negative, or would become too large. */
  predicate Refuses(st: StreamRec, growth: int) { st.flow < 0 || st.flow + growth > MAX_WINDOW }

  lemma ShiftReady(c: Conn)
    requires Laws(c)
    ensures 0 <= c.init <= MAX_WINDOW && c.streams <= c.all.Keys && forall id :: id in c.all ==> IsInt32(c.all[id].flow)
  {
    forall id | id in c.all ensures IsInt32(c.all[id].flow) { LawsOf(c, id); }
  }

  /** While no change has failed, a window refuses a change of the initial value exactly if it is negative
      or would become too large. */
  lemma ShiftRefusedIff(c: Conn, id: nat, val: int)
    requires Laws(c) && !c.failed && id in c.streams && 0 <= val <= MAX_WINDOW
    ensures id in c.all && (Added(c.all[id].flow, val - c.init).1 <==> !Refuses(c.all[id], val - c.init))
  {
    InTable(c, id);
    assert WindowLaw(c.all[id], c.init);
    AddKeepsPromiseIff(c.all[id].flow, val - c.init);
  }

  lemma SettingRefusedIff(c: Conn, after: Records, done: set<nat>, val: int, ok: bool)
    requires Laws(c) && 0 <= val <= MAX_WINDOW && Shifted(c.all, after, done, val - c.init) && c.streams <= c.all.Keys
    requires ok ==> done == c.streams
    requires !ok ==> exists id :: id in c.streams && !Added(c.all[id].flow, val - c.init).1
    ensures !c.failed ==> (!ok <==> exists id :: id in c.streams && Refuses(c.all[id], val - c.init))
  {
    if !c.failed {
      forall id | id in c.streams
        ensures Added(c.all[id].flow, val - c.init).1 <==> !Refuses(c.all[id], val - c.init)
      {
        ShiftRefusedIff(c, id, val);
      }
    }
  }
}

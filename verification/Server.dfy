/** The HTTP/2 server's serve loop (net/http2/server.go): each method is one source function or one turn of the
    loop, proved against what ServerLaws says it makes of the connection. */
module Server {
  import opened Utf8
  import opened Flow
  import opened Machine
  import opened ServerLaws
  import opened Ledger
  import opened Lives

  /** What the frame reader, the scheduler and the handlers' side guarantee of an event.  unfinished is the
      stream whose header block the frame reader has not seen the end of, or 0; until then it lets only
      CONTINUATION frames of that stream through. */
  predicate Legal(e: Event, all: Records, streams: set<nat>, flow: int, pending: nat, unfinished: nat) {
    match e
    case Headers(_, _, _, _) => unfinished == 0
    case Continuation(id, _, _) =>
      unfinished == id && (id in streams && id in all ==> pending == if all[id].gotTrailer then 0 else id)
    case Data(_, _, _) => unfinished == 0
    case WindowUpdate(_, inc) => unfinished == 0 && 1 <= inc <= MAX_WINDOW
    case InitialWindow(val) => unfinished == 0 && val <= MAX_WINDOW
    case Rst(_) => unfinished == 0
    case BadFrame(error) => error.StreamError? || error == ConnError
    case Released(id, n) => id in all && n <= all[id].Available(flow)
    case Wrote(id, _) => id in all
    case BodyRead(id, _) => id in all
    case BodyClose(id) => id in all
    case NoteRead(id, n) => id in all && 0 < n <= all[id].unnoted
  }

  /** Which frames may come: any, with the numbers that fit their fields, while no header block is unfinished; and while
      one is, CONTINUATION frames of its stream alone. */
  lemma LegalFrames(e: Event, all: Records, streams: set<nat>, flow: int, pending: nat, unfinished: nat)
    ensures (e.Headers? || e.Data? || e.Rst?) && unfinished == 0 ==> Legal(e, all, streams, flow, pending, unfinished)
    ensures e.WindowUpdate? && unfinished == 0 && 1 <= e.inc <= 0x7fff_ffff ==>
      Legal(e, all, streams, flow, pending, unfinished)
    ensures e.InitialWindow? && unfinished == 0 && e.val <= 0x7fff_ffff ==>
      Legal(e, all, streams, flow, pending, unfinished)
    ensures (e.Headers? || e.Data? || e.Rst? || e.WindowUpdate? || e.InitialWindow?) && unfinished > 0 ==>
      !Legal(e, all, streams, flow, pending, unfinished)
    ensures e.Continuation? && e.id != unfinished ==> !Legal(e, all, streams, flow, pending, unfinished)
  {
  }

  /** The events at which the source fails: DATA for the open stream whose request headers never came to a good
      end, CONTINUATION for a stream that is not in the table, and the end of trailers with a field that is not
      allowed or for a stream without a body. */
  ghost predicate Panics(e: Event, c: Conn, inGoAway: bool)
    requires c.streams <= c.all.Keys
  {
    match e
    case Data(id, _, _) => id in c.streams && c.all[id].state == Open && !c.all[id].gotTrailer && id == c.pending
    case Continuation(id, endHeaders, block) =>
      id !in c.streams || (c.all[id].gotTrailer && TrailersPanic(c.all[id], endHeaders, block))
    case Headers(id, ended, endHeaders, block) =>
      && !inGoAway && id % 2 == 1 && id in c.streams && !c.all[id].gotTrailer && ended
      && TrailersPanic(c.all[id], endHeaders, block)
    case _ => false
  }

  /** The events that are about neither windows nor the bytes of bodies. */
  predicate Aside(e: Event) {
    e.Headers? || e.Continuation? || e.Rst? || e.BadFrame? || e.Wrote? || e.BodyClose? || e.NoteRead?
  }

  /** The stream that an event is about, or 0. */
  function About(e: Event): nat {
    if e.InitialWindow? then 0
    else if e.BadFrame? then if e.error.StreamError? then e.error.id else 0
    else e.id
  }

  class ServerConn {
    const advMaxStreams: nat
    var all: Records
    var streams: set<nat>
    var curOpenStreams: nat
    var maxStreamID: nat
    // the stream of sc.req, or 0
    var pending: nat
    var initialWindowSize: int
    var flow: int
    var inflow: int
    var inGoAway: bool
    // the frame reader's lastHeaderStream
    var unfinished: nat
    ghost var granted: nat
    ghost var settingsFailed: bool
    ghost var log: seq<Entry>

    ghost function View(): Conn
      reads this
    {
      Conn(all, streams, curOpenStreams, maxStreamID, advMaxStreams, pending, initialWindowSize, flow, inflow, granted,
           settingsFailed)
    }

    ghost predicate Valid()
      reads this
    {
      Laws(View())
    }

    /** The laws hold if the stream p counts as pending: p is to be reset. */
    ghost predicate ValidBut(p: nat)
      reads this
    {
      Laws(View().(pending := p))
    }

    /** A request's headers are pending only while the frame reader has not seen their end. */
    ghost predicate InOrder()
      reads this
    {
      pending != 0 && !inGoAway ==> unfinished == pending
    }

    twostate predicate Onward()
      reads this
    {
      Goes(old(View()), View())
    }

    constructor (advMaxStreams: nat)
      ensures Valid() && InOrder() && Balanced(log, View()) && Lived(log, View()) && NoneRefused(all)
      ensures View() ==
        Conn(map[], {}, 0, 0, advMaxStreams, 0, INITIAL_WINDOW, INITIAL_WINDOW, INITIAL_WINDOW, 0, false)
      ensures log == [] && !inGoAway && unfinished == 0
    {
      this.advMaxStreams := advMaxStreams;
      all, streams, curOpenStreams, maxStreamID, pending := map[], {}, 0, 0, 0;
      initialWindowSize, flow, inflow := INITIAL_WINDOW, INITIAL_WINDOW, INITIAL_WINDOW;
      inGoAway, unfinished, granted, settingsFailed, log := false, 0, 0, false, [];
    }

    /** The source's state(): section 5.1 of RFC 7540, from the table and the largest identifier. */
    function State(id: nat): (st: StreamState)
      requires Valid()
      reads this
      ensures st == Idle <==> id > maxStreamID
      ensures id in streams <==> (st != Idle && st != Closed)
    {
      if id in streams then all[id].state
      else if id <= maxStreamID then Closed
      else Idle
    }

    /** closeStream.  The panic on an idle or closed stream is not reachable.  If p was to count as pending it
        still may, and need not if it is the one that is closed. */
    method CloseStream(id: nat, sentReset: bool, gotReset: bool, ghost p: nat)
      requires ValidBut(p) && id in streams
      modifies `all, `streams, `curOpenStreams
      ensures id in old(all) && old(curOpenStreams) > 0 && View() == AfterClose(old(View()), id, sentReset, gotReset)
      ensures ValidBut(p) && ValidBut(Without(p, id)) && Onward()
    {
      hide SendLawOf, BodyLaw, LaterRec, Laws, Goes;
      ghost var c := View();
      LawsOf(c.(pending := p), id);
      CloseKeeps(c.(pending := p), id, sentReset, gotReset);
      var st := all[id];
      st := st.(state := Closed, bodyErr := true,
                sentReset := st.sentReset || sentReset, gotReset := st.gotReset || gotReset);
      all := all[id := st];
      curOpenStreams := curOpenStreams - 1;
      streams := streams - {id};
      GoesFrame(c.(pending := p), View().(pending := p), View());
      GoesFrom(c.(pending := p), c, View());
    }

    /** Sends RST_STREAM and, if the stream is in the table, closes it. */
    method ResetStream(id: nat, ghost p: nat)
      requires ValidBut(p)
      modifies `all, `streams, `curOpenStreams
      ensures old(id in streams ==> id in all && curOpenStreams > 0)
      ensures View() == if id in old(streams) then AfterClose(old(View()), id, true, false) else old(View())
      ensures ValidBut(p) && (p == id && id in old(streams) ==> ValidBut(0)) && Onward()
    {
      hide Laws, Goes;
      GoesNowhere(View());
      if id in streams { CloseStream(id, true, false, p); }
    }

    /** RST_STREAM from the peer: on an idle stream a connection error. */
    method ProcessResetStream(id: nat) returns (out: Outcome)
      requires Valid()
      modifies `all, `streams, `curOpenStreams
      ensures old(id in streams ==> id in all && curOpenStreams > 0)
      ensures View() == if id in old(streams) then AfterClose(old(View()), id, false, true) else old(View())
      ensures Valid() && Onward() && out == if id > maxStreamID then ConnError else Done
    {
      var state := State(id);
      hide Laws, Goes;
      GoesNowhere(View());
      assert View().(pending := pending) == View();
      if state == Idle { return ConnError; }
      if id in streams { CloseStream(id, false, true, pending); }
      out := Done;
    }

    method OpenStream(id: nat, ended: bool)
      requires Valid() && pending == 0 && id > maxStreamID && id % 2 == 1
      modifies `all, `streams, `curOpenStreams, `maxStreamID, `pending
      ensures View() == AfterOpen(old(View()), id, ended) && id !in old(all)
      ensures Valid() && Onward()
    {
      hide Laws, Goes;
      OpenKeeps(View(), id, ended);
      maxStreamID := id;
      var st := Opened(ended, initialWindowSize);
      all := all[id := st];
      streams := streams + {id};
      curOpenStreams := curOpenStreams + 1;
      pending := id;
    }

    /** processHeaderBlockFragment: a stream beyond the limit, or a malformed request, is to be reset. */
    method ProcessBlock(id: nat, endHeaders: bool, block: Block) returns (out: Outcome)
      requires Valid() && id in streams && pending == id
      modifies `all, `pending
      ensures id in old(all) && (View(), out) == AfterBlock(old(View()), id, endHeaders, block)
      ensures Onward() && if out.StreamError? then out.id == id && ValidBut(id) else Valid()
    {
      hide Laws, Goes;
      LawsOf(View(), id);
      BlockKeeps(View(), id, endHeaders, block);
      if block == BadCompression { return ConnError; }
      if !endHeaders { return Done; }
      if block == Truncated { return ConnError; }
      pending := 0;
      if curOpenStreams > advMaxStreams { return StreamError(id); }
      if block == Malformed { return StreamError(id); }
      var st := all[id];
      var bodyOpen := st.state == Open;
      all := all[id := st.(hasBody := bodyOpen, declBodyBytes := if bodyOpen then block.contentLength else 0)];
      out := Done;
    }

    /** HEADERS: a new stream, or the trailers of one in the table. */
    method ProcessHeaders(id: nat, ended: bool, endHeaders: bool, block: Block) returns (out: Outcome)
      requires Valid() && (id in streams && !inGoAway ==> pending == 0)
      modifies `all, `streams, `curOpenStreams, `maxStreamID, `pending
      ensures old(streams) <= old(all).Keys
      ensures (View(), out) == AfterHeaders(old(View()), id, ended, endHeaders, block, inGoAway)
      ensures Onward() && (out.StreamError? ==> out.id == id)
      ensures Valid() || (out.StreamError? && id in streams && ValidBut(id) && pending == 0)
    {
      hide Laws, Goes, AfterTrailerBlock;
      LawsOf(View(), id);
      GoesNowhere(View());
      if inGoAway { return Ignored; }
      if id % 2 != 1 { return ConnError; }
      if id in streams {
        TrailerBlockPanics(AfterTrailer(View(), id), id, endHeaders, block);
        out := ProcessTrailer(id, ended, endHeaders, block);
        return;
      }
      if id <= maxStreamID || pending != 0 { return ConnError; }
      ghost var c := View();
      OpenStream(id, ended);
      ghost var c' := View();
      out := ProcessBlock(id, endHeaders, block);
      GoesOn(c, c', View());
    }

    /** processTrailerHeaders. */
    method ProcessTrailer(id: nat, ended: bool, endHeaders: bool, block: Block) returns (out: Outcome)
      requires Valid() && id in streams && pending == 0
      modifies `all, `pending
      ensures id in old(all)
      ensures (View(), out) == if old(all[id].gotTrailer) then (old(View()), ConnError)
                               else if !ended then (AfterTrailer(old(View()), id), StreamError(id))
                               else AfterTrailerBlock(AfterTrailer(old(View()), id), id, endHeaders, block)
      ensures Valid() && Onward()
    {
      hide Laws, Goes, AfterTrailerBlock;
      LawsOf(View(), id);
      GoesNowhere(View());
      if all[id].gotTrailer { return ConnError; }
      ghost var c := View();
      TrailerKeeps(c, id);
      all := all[id := all[id].(gotTrailer := true)];
      if !ended { return StreamError(id); }
      pending := 0;
      ghost var c' := View();
      out := ProcessTrailerBlock(id, endHeaders, block);
      GoesOn(c, c', View());
    }

    /** processTrailerHeaderBlockFragment. */
    method ProcessTrailerBlock(id: nat, endHeaders: bool, block: Block) returns (out: Outcome)
      requires Valid() && id in streams && pending == 0
      modifies `all
      ensures id in old(all) && (View(), out) == AfterTrailerBlock(old(View()), id, endHeaders, block)
      ensures Valid() && Onward()
    {
      hide Laws, Goes;
      LawsOf(View(), id);
      TrailerBlockKeeps(View(), id, endHeaders, block);
      if block == BadCompression { return ConnError; }
      if !endHeaders { return Done; }
      if block == Malformed { return Panic; }
      if !all[id].hasBody { return Panic; }
      all := all[id := EndStream(all[id])];
      out := if block == Truncated then ConnError else Done;
    }

    /** CONTINUATION: more of a request's headers, or of trailers; for a stream that is not in the table the
        source fails. */
    method ProcessContinuation(id: nat, endHeaders: bool, block: Block) returns (out: Outcome)
      requires Valid() && (id in streams && id in all ==> pending == if all[id].gotTrailer then 0 else id)
      modifies `all, `pending
      ensures old(streams) <= old(all).Keys
      ensures (View(), out) == if id !in old(streams) then (old(View()), Panic)
                               else if old(all)[id].gotTrailer
                               then AfterTrailerBlock(old(View()), id, endHeaders, block)
                               else AfterBlock(old(View()), id, endHeaders, block)
      ensures Onward() && if out.StreamError? then out.id == id && pending == 0 && ValidBut(id) else Valid()
    {
      hide Laws, Goes, AfterTrailerBlock;
      LawsOf(View(), id);
      GoesNowhere(View());
      if id !in streams { return Panic; }
      if all[id].gotTrailer {
        TrailerBlockPanics(View(), id, endHeaders, block);
        out := ProcessTrailerBlock(id, endHeaders, block);
      } else {
        out := ProcessBlock(id, endHeaders, block);
      }
    }

    /** Changes a record together with the connection's counters, as the laws demand. */
    method Account(id: nat, r: StreamRec, flow': int, inflow': int)
      requires Valid() && MayChange(View(), id, r, flow', inflow')
      modifies `all, `flow, `inflow
      ensures id in old(all) && View() == Change(old(View()), id, r, flow', inflow')
      ensures Valid() && Later(old(View()), View()) && (r.refused == old(all[id].refused) ==> Onward())
    {
      hide Laws, Goes, Later;
      ChangeKeeps(View(), id, r, flow', inflow');
      all := all[id := r];
      flow, inflow := flow', inflow';
    }

    /** WINDOW_UPDATE, for a stream or (id 0) for the connection.  It is accepted exactly if the window is not
        negative and the sum not too large. */
    method ProcessWindowUpdate(id: nat, inc: nat) returns (out: Outcome)
      requires Valid() && 1 <= inc <= MAX_WINDOW
      modifies `all, `flow, `inflow, `granted
      ensures old(streams) <= old(all).Keys && (View(), out) == AfterWindowUpdate(old(View()), id, inc)
      ensures Valid() && Onward()
    {
      hide Laws, Goes;
      LawsOf(View(), id);
      GoesNowhere(View());
      if id == 0 {
        AcceptedIff(flow, inc);
        var (n, ok) := Added(flow, inc);
        if !ok { return ConnError; }
        GrantAllKeeps(View(), inc);
        flow, granted := n, granted + inc;
      } else {
        if id !in streams { return Ignored; }
        AcceptedIff(all[id].flow, inc);
        var (n, ok) := Added(all[id].flow, inc);
        if !ok { return StreamError(id); }
        GrantKeeps(View(), id, inc);
        Account(id, all[id].(flow := n, granted := all[id].granted + inc), flow, inflow);
      }
      out := Done;
    }

    /** SETTINGS_INITIAL_WINDOW_SIZE: adjusts the window of every stream in the table by the
        difference; the first window that refuses it is a connection error. */
    method ProcessSettingInitialWindowSize(val: nat) returns (out: Outcome, done: set<nat>)
      requires Valid() && val <= MAX_WINDOW
      modifies `all, `initialWindowSize, `settingsFailed
      ensures Valid() && Onward()
      ensures View() == old(View()).(all := all, init := val, failed := old(settingsFailed) || out == ConnError)
      ensures Shifted(old(all), all, done, val - old(initialWindowSize)) && done <= streams
      ensures out == Done ==> done == streams
      ensures out == Done || out == ConnError
      ensures streams <= old(all).Keys
      ensures !old(settingsFailed) ==>
        (out == ConnError <==> exists id :: id in streams && Refuses(old(all)[id], val - old(initialWindowSize)))
    {
      hide Laws, Goes, Shifted, Refuses;
      ghost var c := View();
      ShiftReady(c);
      var growth := val - initialWindowSize;
      var all', ok;
      all', done, ok := ShiftAll(all, streams, growth);
      ghost var failed := settingsFailed || !ok;
      SettingRefusedIff(c, all', done, val, ok);
      ShiftKeeps(c, all', done, val, failed);
      all, initialWindowSize, settingsFailed := all', val, failed;
      out := if ok then Done else ConnError;
    }

    /** The scheduler releases n bytes of a stream's DATA, within both windows. */
    method TakeData(id: nat, n: nat)
      requires Valid() && id in all && n <= all[id].Available(flow)
      modifies `all, `flow, `inflow
      ensures View() == Change(old(View()), id, WithRelease(old(all[id]), n), old(flow) - n, old(inflow))
      ensures Valid() && Onward()
      ensures n > 0 ==> 0 <= flow && 0 <= all[id].flow
    {
      hide Laws, Goes;
      ReleaseKeeps(View(), id, n);
      var st := all[id];
      Account(id, st.(flow := st.flow - n, taken := st.taken + n), flow - n, inflow);
    }

    /** DATA from the peer: anything but storing it is a stream error. */
    method ProcessData(id: nat, data: seq<Byte>, ended: bool) returns (out: Outcome)
      requires Valid()
      modifies `all, `flow, `inflow
      ensures old(streams) <= old(all).Keys
      ensures id !in streams ==> View() == old(View()) && out == StreamError(id)
      ensures id in streams ==>
        var v := Judge(old(all)[id], data, old(inflow));
        var st := AfterData(old(all)[id], v, data, ended);
        && View() == Change(old(View()), id, st, old(flow), old(inflow) - Consumed(v, data))
        && out == if v == Stored then Done else if v == NoBody then Panic else StreamError(id)
      ensures Valid() && Later(old(View()), View()) && (out == Done ==> Onward())
    {
      hide Laws, Goes, Later;
      LawsOf(View(), id);
      GoesNowhere(View());
      if id !in streams { return StreamError(id); }
      DataKeeps(all[id], data, ended, inflow);
      DataMayChange(View(), id, data, ended);
      var v, st := ReceiveData(all[id], data, ended, inflow);
      Account(id, st, flow, inflow - Consumed(v, data));
      out := if v == Stored then Done else if v == NoBody then Panic else StreamError(id);
    }

    /** The handler reads at most max bytes of a body. */
    method HandlerRead(id: nat, max: nat) returns (data: seq<Byte>)
      requires Valid() && id in all
      modifies `all, `flow, `inflow
      ensures |data| == (if max < |old(all[id].body)| then max else |old(all[id].body)|)
      ensures data == old(all[id].body)[..|data|]
      ensures View() == With(old(View()), id, HandedOut(old(all[id]), |data|))
      ensures Valid() && Onward()
    {
      hide Laws, Goes;
      LawsOf(View(), id);
      var st := all[id];
      var n := if max < |st.body| then max else |st.body|;
      data := st.body[..n];
      Account(id, st.(body := st.body[n..], unnoted := st.unnoted + n), flow, inflow);
    }

    /** The handler closes its body, if it has one: DATA that comes later is refused. */
    method HandlerClose(id: nat)
      requires Valid() && id in all
      modifies `all, `flow, `inflow
      ensures View() == With(old(View()), id, HandlerClosed(old(all[id])))
      ensures Valid() && Onward()
    {
      hide Laws, Goes;
      LawsOf(View(), id);
      Account(id, if all[id].hasBody then all[id].(bodyErr := true) else all[id], flow, inflow);
    }

    /** noteBodyRead: returns the bytes to the connection's window and, unless the peer is done, to
        the stream's; the panic on a refused increment is not reachable. */
    method NoteBodyRead(id: nat, n: nat)
      requires Valid() && id in all && 0 < n <= all[id].unnoted
      modifies `all, `flow, `inflow
      ensures View() == Change(old(View()), id, Noted(old(all[id]), n), old(flow), old(inflow) + n)
      ensures Valid() && Onward() && inflow <= INITIAL_WINDOW
    {
      hide Laws, Goes, BodyLaw, SendLawOf, LaterRec, Added;
      LawsOf(View(), id);
      var st := all[id];
      NotedMayChange(View(), id, n);
      var (conn, ok) := Added(inflow, n);
      assert ok && conn == inflow + n by { AddKeepsPromiseIff(inflow, n); }
      if st.state != HalfClosedRemote && st.state != Closed {
        var (own, ok') := Added(st.inflow, n);
        assert ok';
        st := st.(inflow := own);
      }
      st := st.(unnoted := st.unnoted - n);
      assert st == Noted(all[id], n);
      Account(id, st, flow, conn);
    }

    /** wroteFrame for a frame of stream id: one that ends an open stream cancels the rest of its
        request, one that ends a half-closed stream completes it. */
    method WroteFrame(id: nat, endsStream: bool)
      requires Valid() && id in all
      modifies `all, `streams, `curOpenStreams
      ensures old(id in streams ==> curOpenStreams > 0)
      ensures View() == if endsStream && id in old(streams)
                        then AfterClose(old(View()), id, old(all[id].state) == Open, false)
                        else old(View())
      ensures Valid() && Onward()
    {
      hide Laws, Goes;
      LawsOf(View(), id);
      GoesNowhere(View());
      assert View().(pending := pending) == View();
      if !endsStream { return; }
      match all[id].state
      case Open => ResetStream(id, pending);
      case HalfClosedRemote => CloseStream(id, false, false, pending);
      case _ =>
    }

    // ---------------------------------------------------------------- turns of the serve loop

    /** What a turn of the loop keeps. */
    ghost predicate Between()
      reads this
    {
      Valid() && InOrder() && Balanced(log, View()) && Lived(log, View())
    }

    /** The end of a turn that changed no books, with an error on the connection starting its shutdown. */
    method Conclude(e: Event, out: Outcome, ghost c: Conn)
      requires Valid() && (InOrder() || out == ConnError) && Balanced(log, c) && SameBut(c, View(), 0)
      requires granted == c.granted
      requires forall k :: !Touches(Entry(e, out, []), k)
      requires Lived(log, c) && Moves(c, Entry(e, out, []), View()) && Goes(c, View())
      modifies `inGoAway, `log
      ensures Between() && log == old(log) + [Entry(e, out, [])]
    {
      hide Laws, Goes, Balanced, Lived, Moves, SameBut, Kept, Touches;
      BalancedStill(log, c, Entry(e, out, []), View());
      LivedOn(log, c, Entry(e, out, []), View());
      log := log + [Entry(e, out, [])];
      if out == ConnError { inGoAway := true; }
    }

    method ServeHeaders(e: Event) returns (out: Outcome)
      requires Between() && (e.Headers? || e.Continuation?) && Legal(e, all, streams, flow, pending, unfinished)
      modifies this
      ensures Between() && Onward() && log == old(log) + [Entry(e, out, [])]
      ensures old(streams) <= old(all).Keys && (out == Panic <==> Panics(e, old(View()), old(inGoAway)))
      ensures Kept(old(View()), View(), e.id)
      ensures Moves(old(View()), Entry(e, out, []), View())
    {
      hide Laws, Goes, Balanced, Lived, Moves, SameBut, Kept, AfterHeaders, AfterBlock, Panics;
      ghost var c := View();
      LawsOf(c, e.id);
      if e.Headers? {
        out := DispatchHeaders(e);
      } else {
        out := DispatchContinuation(e);
      }
      ghost var c' := View();
      if out.StreamError? { ResetAfter(e.id, c); }
      HeadersLived(c, c', e, out);
      Conclude(e, out, c);
    }

    /** What came of headers, and of the reset behind them, is what the entry says. */
    lemma HeadersLived(c: Conn, c': Conn, e: Event, out: Outcome)
      requires (e.Headers? || e.Continuation?) && Kept(c, View(), e.id) && (out.StreamError? ==> out.id == e.id)
      requires e.id in c'.all ==> Accounts(Before(c, e.id), Entry(e, out, []), e.id, c'.all[e.id])
      requires e.id in c'.all && !out.StreamError? ==> Obeys(Before(c, e.id), Entry(e, out, []), e.id, c'.all[e.id])
      requires out == Done && SaysEnd(Entry(e, out, []), e.id) ==> e.id in c'.all
      requires if out.StreamError? then WasReset(c', View(), e.id) && e.id in c'.streams else View() == c'
      ensures Moves(c, Entry(e, out, []), View())
    {
      hide Accounts, Obeys;
      if out.StreamError? && e.id in all {
        ResetMoves(Before(c, e.id), Entry(e, out, []), e.id, c'.all[e.id], all[e.id]);
      }
      MovesOne(c, Entry(e, out, []), View(), e.id);
    }

    method DispatchHeaders(e: Event) returns (out: Outcome)
      requires Valid() && InOrder() && e.Headers? && unfinished == 0
      modifies `all, `streams, `curOpenStreams, `maxStreamID, `pending, `unfinished
      ensures out.StreamError? ==> out.id == e.id
      ensures Valid() || (out.StreamError? && e.id in streams && ValidBut(e.id) && pending == 0)
      ensures InOrder() || out == ConnError
      ensures Onward() && Steady(old(View()), View(), e.id)
      ensures old(streams) <= old(all).Keys && (out == Panic <==> Panics(e, old(View()), inGoAway))
      ensures e.id in all ==> Accounts(Before(old(View()), e.id), Entry(e, out, []), e.id, all[e.id])
      ensures e.id in all && !out.StreamError? ==> Obeys(Before(old(View()), e.id), Entry(e, out, []), e.id, all[e.id])
      ensures (out == Done && SaysEnd(Entry(e, out, []), e.id) ==> e.id in all)
      ensures (out.StreamError? ==> e.id in streams)
    {
      hide Laws, Goes, Steady, AfterHeaders, SendLawOf, BodyLaw;
      ghost var c := View();
      LawsOf(c, e.id);
      if !inGoAway { HeadersPending(c, e.id, e.ended, e.endHeaders, e.block); }
      out := ProcessHeaders(e.id, e.ended, e.endHeaders, e.block);
      if out != Panic { unfinished := if e.endHeaders then 0 else e.id; }
      HeadersPanic(c, e.id, e.ended, e.endHeaders, e.block, inGoAway);
      HeadersMove(c, e.id, e.ended, e.endHeaders, e.block, inGoAway);
      HeadersBooks(c, e.id, e.ended, e.endHeaders, e.block, inGoAway);
    }

    method DispatchContinuation(e: Event) returns (out: Outcome)
      requires Valid() && InOrder() && e.Continuation? && Legal(e, all, streams, flow, pending, unfinished)
      modifies `all, `pending, `unfinished
      ensures out.StreamError? ==> out.id == e.id
      ensures Valid() || (out.StreamError? && e.id in streams && ValidBut(e.id) && pending == 0)
      ensures InOrder() || out == ConnError
      ensures Onward() && Steady(old(View()), View(), e.id)
      ensures old(streams) <= old(all).Keys && (out == Panic <==> Panics(e, old(View()), inGoAway))
      ensures e.id in all ==> Accounts(Before(old(View()), e.id), Entry(e, out, []), e.id, all[e.id])
      ensures e.id in all && !out.StreamError? ==> Obeys(Before(old(View()), e.id), Entry(e, out, []), e.id, all[e.id])
      ensures (out == Done && SaysEnd(Entry(e, out, []), e.id) ==> e.id in all)
      ensures (out.StreamError? ==> e.id in streams)
    {
      hide Laws, Goes, Steady, AfterTrailerBlock;
      ghost var c := View();
      LawsOf(c, e.id);
      SteadyNowhere(c, e.id);
      out := ProcessContinuation(e.id, e.endHeaders, e.block);
      if out != Panic { unfinished := if e.endHeaders then 0 else e.id; }
      if e.id in c.streams {
        TrailerBlockPanics(c, e.id, e.endHeaders, e.block);
        TrailerBlockBooks(c, e.id, e.endHeaders, e.block);
        BlockBooks(c, e.id, e.endHeaders, e.block);
        ContinuationMoves(c, e.id, e.endHeaders, e.block);
      }
    }

    /** Resets a stream whose headers were refused. */
    method ResetAfter(id: nat, ghost c: Conn)
      requires Valid() || (id in streams && ValidBut(id) && pending == 0)
      requires Goes(c, View()) && Steady(c, View(), id)
      modifies `all, `streams, `curOpenStreams
      ensures Valid() && Goes(c, View()) && Steady(c, View(), id) && pending == old(pending)
      ensures WasReset(old(View()), View(), id)
    {
      hide Laws, Goes, Steady;
      ghost var c' := View();
      ghost var p := if Laws(c') then pending else id;
      LawsOf(c'.(pending := p), id);
      assert c'.(pending := pending) == c';
      ResetStream(id, p);
      if id in c'.streams {
        CloseBooks(c', id, true, false);
        SteadyTwice(c, c', View(), id);
      }
      GoesOn(c, c', View());
      assert View().(pending := pending) == View();
    }

    method ServeData(e: Event) returns (out: Outcome)
      requires Between() && e.Data?
      modifies this
      ensures Between() && Onward() && log == old(log) + [Entry(e, out, [])]
      ensures old(streams) <= old(all).Keys && (out == Panic <==> Panics(e, old(View()), old(inGoAway)))
      ensures out != Done ==> Kept(old(View()), View(), e.id)
      ensures out == Done ==> e.id in old(streams) && Judge(old(all)[e.id], e.data, old(inflow)) == Stored
      ensures out == Done ==>
        var st := AfterData(old(all)[e.id], Stored, e.data, e.ended);
        View() == Change(old(View()), e.id, st, old(flow), old(inflow) - |e.data|)
      ensures Moves(old(View()), Entry(e, out, []), View())
    {
      hide SendLawOf, BodyLaw, LaterRec, Laws, Goes, Balanced, Lived, Moves, SameBut, Kept, Told, Judge, AfterData;
      ghost var c := View();
      LawsOf(c, e.id);
      if e.id in c.streams { JudgedNoBody(c, e.id, e.data, e.ended); }
      out := ProcessData(e.id, e.data, e.ended);
      if out == Done {
        TellStored(c, e);
        LiveStored(c, e);
        log := log + [Entry(e, out, [])];
      } else if out == Panic {
        FailData(e);
      } else {
        RefuseData(c, e);
      }
    }

    /** The end of a turn at which DATA makes the loop fail. */
    method FailData(e: Event)
      requires Between() && e.Data? && e.id in all && all[e.id].state == Open && !all[e.id].gotTrailer
      modifies `inGoAway, `log
      ensures Between() && log == old(log) + [Entry(e, Panic, [])] && Kept(View(), View(), e.id)
      ensures Moves(View(), Entry(e, Panic, []), View()) && Goes(View(), View())
    {
      hide Laws, Goes, Balanced, Lived, Moves, SameBut, Kept;
      ghost var c := View();
      LawsOf(c, e.id);
      SteadyNowhere(c, e.id);
      GoesNowhere(c);
      FailedMoves(c, e.id, e.data, e.ended);
      Conclude(e, Panic, c);
    }

    /** The end of a turn at which DATA is refused. */
    method RefuseData(ghost c: Conn, e: Event)
      requires Valid() && InOrder() && Balanced(log, c) && Lived(log, c) && Laws(c) && e.Data?
      requires e.id !in c.streams ==> View() == c
      requires e.id in c.streams ==> e.id in c.all && Judge(c.all[e.id], e.data, c.inflow) != Stored
      requires e.id in c.streams ==>
        var v := Judge(c.all[e.id], e.data, c.inflow);
        var st := AfterData(c.all[e.id], v, e.data, e.ended);
        View() == Change(c, e.id, st, c.flow, c.inflow - Consumed(v, e.data))
      modifies `all, `streams, `curOpenStreams, `inGoAway, `log
      ensures Between() && log == old(log) + [Entry(e, StreamError(e.id), [])]
      ensures Goes(c, View()) && Kept(c, View(), e.id) && Moves(c, Entry(e, StreamError(e.id), []), View())
    {
      hide Laws, Goes, Balanced, Lived, Moves, SameBut, Kept, Judge, AfterData;
      ResetAfterData(c, e);
      Conclude(e, StreamError(e.id), c);
    }

    /** DATA that was not stored resets its stream. */
    method ResetAfterData(ghost c: Conn, e: Event)
      requires Valid() && e.Data? && Laws(c)
      requires e.id !in c.streams ==> View() == c
      requires e.id in c.streams ==> e.id in c.all && Judge(c.all[e.id], e.data, c.inflow) != Stored
      requires e.id in c.streams ==>
        var v := Judge(c.all[e.id], e.data, c.inflow);
        var st := AfterData(c.all[e.id], v, e.data, e.ended);
        View() == Change(c, e.id, st, c.flow, c.inflow - Consumed(v, e.data))
      modifies `all, `streams, `curOpenStreams
      ensures Valid() && Goes(c, View()) && Steady(c, View(), e.id) && pending == old(pending)
      ensures Moves(c, Entry(e, StreamError(e.id), []), View())
    {
      hide Laws, Goes, Steady, Judge, AfterData, Moves;
      ghost var c' := View();
      LawsOf(c, e.id);
      LawsOf(c', e.id);
      assert c'.(pending := pending) == c';
      ResetStream(e.id, pending);
      assert View().(pending := pending) == View();
      if e.id in c.streams {
        DataKeeps(c.all[e.id], e.data, e.ended, c.inflow);
        RefusedBooks(c.all[e.id], Judge(c.all[e.id], e.data, c.inflow), e.data, e.ended);
        SteadyOne(c, c', e.id);
        CloseBooks(c', e.id, true, false);
        SteadyTwice(c, c', View(), e.id);
        ChangedThenClosed(c, c', e.id, true, false);
        RefusedMoves(c, e.id, e.data, e.ended, Judge(c.all[e.id], e.data, c.inflow), c', View());
      } else {
        SteadyNowhere(c, e.id);
        GoesNowhere(c);
        ErrorMoves(c, Entry(e, StreamError(e.id), []), View(), e.id);
      }
    }

    /** The books after DATA was stored. */
    lemma TellStored(c: Conn, e: Event)
      requires Balanced(log, c) && e.Data? && e.id in c.all && granted == c.granted
      requires all == c.all[e.id := AfterData(c.all[e.id], Stored, e.data, e.ended)]
      ensures Balanced(log + [Entry(e, Done, [])], View())
    {
      ToldStored(BooksOf(log, e.id), c.all[e.id], e.data, e.ended);
      SameButOne(c, View(), e.id);
      BalancedOn(log, c, Entry(e, Done, []), e.id, View());
    }

    /** Its stream's life. */
    lemma LiveStored(c: Conn, e: Event)
      requires Lived(log, c) && e.Data? && e.id in c.all && Judge(c.all[e.id], e.data, c.inflow) == Stored
      requires all == c.all[e.id := AfterData(c.all[e.id], Stored, e.data, e.ended)] && Goes(c, View()) && Valid()
      ensures Lived(log + [Entry(e, Done, [])], View()) && Moves(c, Entry(e, Done, []), View())
    {
      hide Laws, Goes, Lived, Moves, Judge, AfterData;
      StoredLived(c, e.id, e.data, e.ended, View());
      LivedOn(log, c, Entry(e, Done, []), View());
    }

    method ServeWindowUpdate(e: Event) returns (out: Outcome)
      requires Between() && e.WindowUpdate? && 1 <= e.inc <= MAX_WINDOW
      modifies this
      ensures Between() && Onward() && log == old(log) + [Entry(e, out, [])] && out != Panic
      ensures old(streams) <= old(all).Keys
      ensures if out == Done then (View(), Done) == AfterWindowUpdate(old(View()), e.id, e.inc)
              else Kept(old(View()), View(), e.id)
      ensures Moves(old(View()), Entry(e, out, []), View())
    {
      hide Laws, Goes, Balanced, Lived, Moves, SameBut, Kept, Told;
      ghost var c := View();
      LawsOf(c, e.id);
      out := ProcessWindowUpdate(e.id, e.inc);
      if out == Done {
        TellGrant(c, e);
        GrantMoves(c, e.id, e.inc, View());
        LivedOn(log, c, Entry(e, out, []), View());
        log := log + [Entry(e, out, [])];
      } else {
        SteadyNowhere(c, e.id);
        GoesNowhere(c);
        if out.StreamError? { ResetAfter(e.id, c); }
        ErrorMoves(c, Entry(e, out, []), View(), e.id);
        Conclude(e, out, c);
      }
    }

    /** The books after an increment was accepted. */
    lemma TellGrant(c: Conn, e: Event)
      requires Balanced(log, c) && e.WindowUpdate? && c.streams <= c.all.Keys
      requires (View(), Done) == AfterWindowUpdate(c, e.id, e.inc)
      ensures Balanced(log + [Entry(e, Done, [])], View())
    {
      if e.id == 0 {
        BalancedConn(log, c, Entry(e, Done, []), View());
      } else {
        ToldGrant(BooksOf(log, e.id), c.all[e.id], e.inc);
        SameButOne(c, View(), e.id);
        BalancedOn(log, c, Entry(e, Done, []), e.id, View());
      }
    }

    method ServeSetting(e: Event) returns (out: Outcome, done: set<nat>)
      requires Between() && e.InitialWindow? && e.val <= MAX_WINDOW
      modifies this
      ensures Between() && Onward() && log == old(log) + [Entry(e, out, [])] && out != Panic
      ensures Shifted(old(all), all, done, e.val - old(initialWindowSize)) && done <= old(all).Keys
      ensures initialWindowSize == e.val && flow == old(flow)
      ensures Moves(old(View()), Entry(e, out, []), View())
    {
      hide Laws, Goes, Balanced, Lived, Moves, SameBut, Kept, Told, Shifted;
      ghost var c := View();
      LawsOf(c, 0);
      out, done := ProcessSettingInitialWindowSize(e.val);
      SameButShifted(c, View(), done, e.val - c.init);
      ShiftedMoves(c, Entry(e, out, []), View(), done, e.val - c.init);
      Conclude(e, out, c);
    }

    method ServeRst(e: Event) returns (out: Outcome)
      requires Between() && e.Rst?
      modifies this
      ensures Between() && Onward() && log == old(log) + [Entry(e, out, [])] && out != Panic
      ensures Kept(old(View()), View(), e.id)
      ensures Moves(old(View()), Entry(e, out, []), View())
    {
      hide Laws, Goes, Balanced, Lived, Moves, SameBut, Kept, Told;
      ghost var c := View();
      LawsOf(c, e.id);
      out := ProcessResetStream(e.id);
      if e.id in c.streams { CloseBooks(c, e.id, false, true); } else { SteadyNowhere(c, e.id); }
      RstMoves(c, e.id, out, View());
      Conclude(e, out, c);
    }

    /** What the frame reader could not read: a stream error resets the stream, any other ends the connection. */
    method ServeBadFrame(e: Event) returns (out: Outcome)
      requires Between() && e.BadFrame? && Legal(e, all, streams, flow, pending, unfinished)
      modifies this
      ensures Between() && Onward() && log == old(log) + [Entry(e, out, [])] && out == e.error
      ensures Kept(old(View()), View(), About(e))
      ensures Moves(old(View()), Entry(e, out, []), View())
    {
      hide Laws, Goes, Balanced, Lived, Moves, SameBut, Kept, Told;
      ghost var c := View();
      LawsOf(c, About(e));
      SteadyNowhere(c, About(e));
      GoesNowhere(c);
      out := e.error;
      if out.StreamError? { ResetAfter(out.id, c); }
      ErrorMoves(c, Entry(e, out, []), View(), About(e));
      Conclude(e, out, c);
    }

    method ServeReleased(e: Event)
      requires Between() && e.Released? && Legal(e, all, streams, flow, pending, unfinished)
      modifies this
      ensures Between() && Onward() && log == old(log) + [Entry(e, Done, [])]
      ensures all == old(all)[e.id := WithRelease(old(all[e.id]), e.n)] && flow == old(flow) - e.n
      ensures Moves(old(View()), Entry(e, Done, []), View())
    {
      hide Laws, Goes, Balanced, Lived, Moves, SameBut, Kept, Told;
      ghost var c := View();
      LawsOf(c, e.id);
      TakeData(e.id, e.n);
      TellOne(c, e, [], WithRelease(c.all[e.id], e.n));
      QuietMoves(c, Entry(e, Done, []), View(), e.id);
      LivedOn(log, c, Entry(e, Done, []), View());
      log := log + [Entry(e, Done, [])];
    }

    /** The books after bytes were released, read or noted. */
    lemma TellOne(c: Conn, e: Event, data: seq<Byte>, r: StreamRec)
      requires Balanced(log, c) && (e.Released? || e.BodyRead? || e.NoteRead?) && e.id in c.all
      requires OneStep(c.all[e.id], e, data, r)
      requires all == c.all[e.id := r] && granted == c.granted
      ensures Balanced(log + [Entry(e, Done, data)], View())
    {
      BooksTell(log, c, e.id);
      hide Told, Balanced, Post, BooksOf, SameBut;
      PostTold(BooksOf(log, e.id), c.all[e.id], e, data, r);
      assert forall k :: k != e.id ==> !Touches(Entry(e, Done, data), k);
      SameButOne(c, View(), e.id);
      BalancedOn(log, c, Entry(e, Done, data), e.id, View());
    }

    method ServeWrote(e: Event)
      requires Between() && e.Wrote? && e.id in all
      modifies this
      ensures Between() && Onward() && log == old(log) + [Entry(e, Done, [])]
      ensures Kept(old(View()), View(), e.id)
      ensures Moves(old(View()), Entry(e, Done, []), View())
    {
      hide Laws, Goes, Balanced, Lived, Moves, SameBut, Kept, Told;
      ghost var c := View();
      LawsOf(c, e.id);
      WroteFrame(e.id, e.endsStream);
      SteadyNowhere(c, e.id);
      if e.endsStream && e.id in c.streams { CloseBooks(c, e.id, c.all[e.id].state == Open, false); }
      WroteMoves(c, e.id, e.endsStream, View());
      Conclude(e, Done, c);
    }

    method ServeRead(e: Event) returns (data: seq<Byte>)
      requires Between() && e.BodyRead? && e.id in all
      modifies this
      ensures Between() && Onward() && log == old(log) + [Entry(e, Done, data)]
      ensures |data| == (if e.max < |old(all[e.id].body)| then e.max else |old(all[e.id].body)|)
      ensures data == old(all[e.id].body)[..|data|]
      ensures View() == With(old(View()), e.id, HandedOut(old(all[e.id]), |data|))
      ensures Moves(old(View()), Entry(e, Done, data), View())
    {
      hide Laws, Goes, Balanced, Lived, Moves, SameBut, Kept, Told;
      ghost var c := View();
      LawsOf(c, e.id);
      data := HandlerRead(e.id, e.max);
      TellOne(c, e, data, HandedOut(c.all[e.id], |data|));
      QuietMoves(c, Entry(e, Done, data), View(), e.id);
      LivedOn(log, c, Entry(e, Done, data), View());
      log := log + [Entry(e, Done, data)];
    }

    method ServeClose(e: Event)
      requires Between() && e.BodyClose? && e.id in all
      modifies this
      ensures Between() && Onward() && log == old(log) + [Entry(e, Done, [])]
      ensures Kept(old(View()), View(), e.id)
      ensures Moves(old(View()), Entry(e, Done, []), View())
    {
      hide Laws, Goes, Balanced, Lived, Moves, SameBut, Kept, Told;
      ghost var c := View();
      LawsOf(c, e.id);
      HandlerClose(e.id);
      SameButOne(c, View(), e.id);
      KeptOne(c, View(), e.id);
      QuietMoves(c, Entry(e, Done, []), View(), e.id);
      Conclude(e, Done, c);
    }

    method ServeNote(e: Event)
      requires Between() && e.NoteRead? && Legal(e, all, streams, flow, pending, unfinished)
      modifies this
      ensures Between() && Onward() && log == old(log) + [Entry(e, Done, [])]
      ensures Kept(old(View()), View(), e.id)
      ensures Moves(old(View()), Entry(e, Done, []), View())
    {
      hide Laws, Goes, Balanced, Lived, Moves, SameBut, Kept, Told;
      ghost var c := View();
      LawsOf(c, e.id);
      NoteBodyRead(e.id, e.n);
      KeptOne(c, View(), e.id);
      TellOne(c, e, [], Noted(c.all[e.id], e.n));
      QuietMoves(c, Entry(e, Done, []), View(), e.id);
      LivedOn(log, c, Entry(e, Done, []), View());
      log := log + [Entry(e, Done, [])];
    }

    /** A turn that is about neither windows nor the bytes of bodies. */
    method ServeAside(e: Event) returns (out: Outcome)
      requires Between() && Legal(e, all, streams, flow, pending, unfinished) && Aside(e)
      modifies this
      ensures Between() && Onward() && log == old(log) + [Entry(e, out, [])] && Kept(old(View()), View(), About(e))
      ensures old(streams) <= old(all).Keys && (out == Panic <==> Panics(e, old(View()), old(inGoAway)))
      ensures Moves(old(View()), Entry(e, out, []), View())
    {
      hide Laws, Goes, Balanced, Lived, Moves, Kept, Panics, Legal;
      LawsOf(View(), 0);
      if e.Headers? || e.Continuation? {
        out := ServeHeaders(e);
      } else {
        MinorIsSafe(e, View(), inGoAway);
        out := ServeMinor(e);
      }
    }

    lemma MinorIsSafe(e: Event, c: Conn, inGoAway: bool)
      requires c.streams <= c.all.Keys && Aside(e) && !e.Headers? && !e.Continuation?
      ensures !Panics(e, c, inGoAway)
    {
    }

    method ServeMinor(e: Event) returns (out: Outcome)
      requires Between() && Legal(e, all, streams, flow, pending, unfinished) && Aside(e) && !e.Headers?
      requires !e.Continuation?
      modifies this
      ensures Between() && Onward() && log == old(log) + [Entry(e, out, [])] && Kept(old(View()), View(), About(e))
      ensures out != Panic
      ensures Moves(old(View()), Entry(e, out, []), View())
    {
      hide Laws, Goes, Balanced, Lived, Moves, Kept;
      out := Done;
      match e
      case Rst(_) => out := ServeRst(e);
      case BadFrame(_) => out := ServeBadFrame(e);
      case Wrote(_, _) => ServeWrote(e);
      case BodyClose(_) => ServeClose(e);
      case NoteRead(_, _) => ServeNote(e);
    }

    /** One turn of the serve loop, or one act of a handler.  It fails exactly at the events that Panics names, and
        at DATA only once the connection is being shut down. */
    method Serve(e: Event) returns (out: Outcome, data: seq<Byte>)
      requires Between() && Legal(e, all, streams, flow, pending, unfinished)
      modifies this
      ensures Between() && Onward() && log == old(log) + [Entry(e, out, data)]
      ensures old(streams) <= old(all).Keys && (out == Panic <==> Panics(e, old(View()), old(inGoAway)))
      ensures out == Panic && e.Data? ==> old(inGoAway)
      ensures Moves(old(View()), Entry(e, out, data), View())
    {
      LawsOf(View(), 0);
      hide Laws, Goes, Balanced, Lived, Moves, Kept, Shifted;
      out, data := Done, [];
      if Aside(e) {
        out := ServeAside(e);
        return;
      }
      match e
      case Data(_, _, _) => out := ServeData(e);
      case WindowUpdate(_, _) => out := ServeWindowUpdate(e);
      case InitialWindow(_) =>
        var done;
        out, done := ServeSetting(e);
      case Released(_, _) => ServeReleased(e);
      case BodyRead(_, _) => data := ServeRead(e);
    }

    /** Over every run, up to the event at which the loop fails if there is one: the laws hold, no closed stream is
        ever open again, and the history explains every counter, so that what handlers have read is what peers
        have sent, in order. */
    method Run(es: seq<Event>) returns (failed: bool)
      requires Between() && NoneRefused(all)
      modifies this
      ensures Between() && NoneRefused(all) && Later(old(View()), View())
      ensures old(log) <= log
      ensures forall i :: |old(log)| <= i < |log| ==> (log[i].out == Panic <==> failed && i == |log| - 1)
    {
      hide Laws, Balanced, Lived, Moves;
      GoesNowhere(View());
      failed := false;
      for i := 0 to |es|
        invariant Between() && NoneRefused(all) && Later(old(View()), View()) && !failed
        invariant old(log) <= log && forall i :: |old(log)| <= i < |log| ==> log[i].out != Panic
      {
        ghost var c := View();
        if Legal(es[i], all, streams, flow, pending, unfinished) {
          var out, data := Serve(es[i]);
          LaterOn(old(View()), c, View());
          if out == Panic { return true; }
        }
      }
    }
  }

  // ---------------------------------------------------------------- DATA without a body

  /** A connection whose first request's headers did not decode. */
  ghost predicate NoRequest(c: Conn) {
    c.streams == {1} && 1 in c.all && c.all[1] == Opened(false, INITIAL_WINDOW) && c.pending == 1
  }

  lemma FirstUndecoded(c: Conn)
    requires c == Conn(map[], {}, 0, 0, 1, 0, INITIAL_WINDOW, INITIAL_WINDOW, INITIAL_WINDOW, 0, false)
    ensures var (c', out) := AfterHeaders(c, 1, false, true, BadCompression, false); NoRequest(c') && out == ConnError
  {
  }

  /** The code's check that a stream DATA comes for has a body does fail: after a header block that does not decode
      the connection is shut down, but frames are still taken up, and the stream stays open. */
  method DataWithoutBody(data: seq<Byte>, ended: bool) returns (first: Outcome, out: Outcome)
    ensures first == ConnError && out == Panic
  {
    hide Laws, Goes, Later, AfterHeaders;
    var sc := new ServerConn(1);
    FirstUndecoded(sc.View());
    first := sc.ProcessHeaders(1, false, true, BadCompression);
    out := sc.ProcessData(1, data, ended);
  }

  // ---------------------------------------------------------------- a window that is not given back

  /** A connection on which one request has come, and n bytes of the answer have gone out. */
  ghost predicate OneAnswer(c: Conn, n: nat) {
    && c.streams == {1} && c.streams <= c.all.Keys && !c.failed
    && c.flow == INITIAL_WINDOW - n && c.init == INITIAL_WINDOW && c.all[1].flow == INITIAL_WINDOW - n
  }

  lemma FirstRequest(c: Conn)
    requires c == Conn(map[], {}, 0, 0, 1, 0, INITIAL_WINDOW, INITIAL_WINDOW, INITIAL_WINDOW, 0, false)
    ensures var (c', out) := AfterHeaders(c, 1, true, true, Request(-1), false); OneAnswer(c', 0) && out == Done
  {
  }

  lemma FirstBytes(c: Conn, n: nat)
    requires OneAnswer(c, 0)
    ensures OneAnswer(Change(c, 1, WithRelease(c.all[1], n), c.flow - n, c.inflow), n)
  {
  }

  lemma ShrunkWindow(c: Conn, c': Conn, done: set<nat>, n: nat)
    requires OneAnswer(c, n) && 0 < n <= INITIAL_WINDOW && Shifted(c.all, c'.all, done, -INITIAL_WINDOW)
    requires done == c.streams == c'.streams
    ensures c'.streams <= c'.all.Keys
    ensures forall inc: nat :: 1 <= inc <= MAX_WINDOW ==> AfterWindowUpdate(c', 1, inc) == (c', StreamError(1))
  {
    AddKeepsPromiseIff(c.all[1].flow, -INITIAL_WINDOW);
    assert c'.all[1].flow + n == 0;
  }

  /** The code does not do what section 6.9.1 of RFC 7540 asks for: 100 bytes are released, a SETTINGS change makes
      the window -100, and the WINDOW_UPDATE that should make it 0 again is refused. */
  method NegativeWindowRefused() returns (out: Outcome)
    ensures out == StreamError(1)
  {
    hide Laws, Goes, AfterHeaders, Change, AfterWindowUpdate, Shifted;
    var sc := new ServerConn(1);
    FirstRequest(sc.View());
    var first := sc.ProcessHeaders(1, true, true, Request(-1));
    FirstBytes(sc.View(), 100);
    sc.TakeData(1, 100);
    ghost var c := sc.View();
    var shrunk, done := sc.ProcessSettingInitialWindowSize(0);
    ShrunkWindow(c, sc.View(), done, 100);
    out := sc.ProcessWindowUpdate(1, 100);
  }
}

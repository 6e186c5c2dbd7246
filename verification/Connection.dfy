/** A whole server connection: the serve loop, the scheduler, the windows and the request bodies, over every run.
    The loop's records, the windows and pipes that the source has in their place, the scheduler's history and the
    loop's history tell one story. */
module Connection {
  import opened Utf8
  import opened Flow
  import opened Machine
  import opened Streams
  import opened ServerLaws
  import opened Ledger
  import opened Wiring
  import Body
  import WriteSched
  import Server
  import Lives

  // ---------------------------------------------------------------- two histories

  /** The DATA bytes of a stream in a step of the scheduler, and in its history. */
  function SentBy(x: WriteSched.Event, id: nat): nat {
    if x.Taken? && WriteSched.KeyOf(x.m) == WriteSched.OfStream(id) then WriteSched.Cost(x.m) else 0
  }

  function Sent(log: seq<WriteSched.Event>, id: nat): nat {
    if log == [] then 0 else Sent(log[..|log| - 1], id) + SentBy(log[|log| - 1], id)
  }

  lemma {:induction false} SentOne(log: seq<WriteSched.Event>, x: WriteSched.Event, id: nat)
    ensures Sent(log + [x], id) == Sent(log, id) + SentBy(x, id)
  {
    assert (log + [x])[..|log|] == log;
  }

  /** What the scheduler has handed out is what the serve loop has released. */
  ghost predicate Agree(taken: seq<WriteSched.Event>, log: seq<Entry>) {
    forall id: nat :: Sent(taken, id) == BooksOf(log, id).debit
  }

  lemma {:induction false} AgreeQueued(taken: seq<WriteSched.Event>, x: WriteSched.Event, log: seq<Entry>)
    requires Agree(taken, log) && !x.Taken?
    ensures Agree(taken + [x], log)
  {
    forall id: nat ensures Sent(taken + [x], id) == BooksOf(log, id).debit {
      SentOne(taken, x, id);
      assert Sent(taken, id) == BooksOf(log, id).debit;
    }
  }

  lemma {:induction false} AgreeHeard(taken: seq<WriteSched.Event>, log: seq<Entry>, x: Entry)
    requires Agree(taken, log) && !x.e.Released?
    ensures Agree(taken, log + [x])
  {
    forall id: nat ensures Sent(taken, id) == BooksOf(log + [x], id).debit {
      Posted(log, x, id);
      assert Sent(taken, id) == BooksOf(log, id).debit;
    }
  }

  lemma {:induction false} AgreeSent(taken: seq<WriteSched.Event>, m: Msg, part: bool, log: seq<Entry>)
    requires Agree(taken, log)
    ensures var n := if m.stream != null then WriteSched.Cost(m) else 0;
      var log' := if n == 0 then log else log + [Entry(Released(m.stream.id, n), Done, [])];
      Agree(taken + [WriteSched.Taken(m, part)], log')
  {
    var n := if m.stream != null then WriteSched.Cost(m) else 0;
    forall id: nat
      ensures Sent(taken + [WriteSched.Taken(m, part)], id) ==
        BooksOf(if n == 0 then log else log + [Entry(Released(m.stream.id, n), Done, [])], id).debit
    {
      SentOne(taken, WriteSched.Taken(m, part), id);
      if n != 0 { Posted(log, Entry(Released(m.stream.id, n), Done, []), id); }
      assert Sent(taken, id) == BooksOf(log, id).debit;
    }
  }

  // ---------------------------------------------------------------- windows

  /** Windows are told by one field of the records. */
  lemma MirrorsFrame(objs: map<nat, Stream>, conn: Window, all: Records, all': Records, flow: int)
    requires Mirrors(objs, conn, all, flow) && all'.Keys == all.Keys
    requires forall id :: id in all ==> all'[id].flow == all[id].flow
    ensures Mirrors(objs, conn, all', flow)
  {
  }

  /** The window that a stream gets when it is opened. */
  method AddStream(objs: map<nat, Stream>, conn: Window, ghost all: Records, ghost r: StreamRec, ghost flow: int,
                   id: nat, init: int)
      returns (st: Stream)
    requires Mirrors(objs, conn, all, flow) && IsInt32(flow) && id !in objs && r.flow == init && 0 <= init <= MAX_WINDOW
    ensures fresh(st.flow) && Mirrors(objs[id := st], conn, all[id := r], flow)
  {
    st := new Stream(id, conn);
    var ok := st.flow.Add(init);
    AddKeepsPromiseIff(0, init);
  }

  lemma WindowsMore(objs: map<nat, Stream>, conn: Window, id: nat, st: Stream)
    ensures Windows(objs[id := st], conn) <= Windows(objs, conn) + {st.flow}
  {
  }

  lemma MirrorsKeys(objs: map<nat, Stream>, conn: Window, all: Records, flow: int)
    requires Mirrors(objs, conn, all, flow)
    ensures objs.Keys == all.Keys
  {
  }

  /** Other events leave all windows alone. */
  method MakeStream(objs: map<nat, Stream>, conn: Window, ghost c: Conn, ghost c': Conn, id: nat, known: bool,
                    init: int)
      returns (objs': map<nat, Stream>, ghost made: set<object>)
    requires Mirrors(objs, conn, c.all, c.flow) && Kept(c, c', id) && IsInt32(c.flow)
    requires known == (id in c'.all) && init == c'.init && 0 <= init <= MAX_WINDOW
    ensures Mirrors(objs', conn, c'.all, c'.flow) && forall k :: k in objs ==> k in objs' && objs'[k] == objs[k]
    ensures fresh(made) && Windows(objs', conn) <= Windows(objs, conn) + made
  {
    hide Mirrors, Windows;
    MirrorsKeys(objs, conn, c.all, c.flow);
    if id in objs || !known {
      MirrorsFrame(objs, conn, c.all, c'.all, c.flow);
      return objs, {};
    }
    var st := AddStream(objs, conn, c.all, c'.all[id], c.flow, id, init);
    WindowsMore(objs, conn, id, st);
    objs', made := objs[id := st], {st.flow};
    assert c'.all == c.all[id := c'.all[id]];
  }

  /** An increment that the loop has accepted is accepted by the window. */
  method GrantWindow(objs: map<nat, Stream>, conn: Window, ghost c: Conn, id: nat, inc: nat)
    requires Mirrors(objs, conn, c.all, c.flow) && c.streams <= c.all.Keys && AfterWindowUpdate(c, id, inc).1 == Done
    requires IsInt32(c.flow) && (id in c.all ==> IsInt32(c.all[id].flow)) && inc <= MAX_WINDOW
    modifies Windows(objs, conn)`n
    ensures var c' := AfterWindowUpdate(c, id, inc).0; Mirrors(objs, conn, c'.all, c'.flow)
  {
    var w := if id == 0 then conn else objs[id].flow;
    AcceptedIff(w.n, inc);
    var ok := w.Add(inc);
  }

  lemma WindowIn(objs: map<nat, Stream>, conn: Window, id: nat)
    requires id in objs
    ensures objs[id].flow in Windows(objs, conn)
  {
  }

  method ShiftWindow(objs: map<nat, Stream>, conn: Window, id: nat, growth: int)
    requires Wired(objs, conn) && id in objs && objs[id].flow.Valid() && IsInt32(growth)
    modifies objs[id].flow`n
    ensures objs[id].flow.n == Added(old(objs[id].flow.n), growth).0 && conn.n == old(conn.n)
    ensures forall k :: k in objs && k != id ==> objs[k].flow.n == old(objs[k].flow.n)
  {
    var ok := objs[id].flow.Add(growth);
  }

  lemma ShiftedAt(all: Records, all': Records, done: set<nat>, growth: int, id: nat)
    requires Shifted(all, all', done, growth) && id in all && id in done
    ensures id in all' && IsInt32(growth) && IsInt32(all[id].flow) && all'[id].flow == Added(all[id].flow, growth).0
  {
  }

  lemma NotShifted(all: Records, all': Records, done: set<nat>, growth: int)
    requires Shifted(all, all', done, growth)
    ensures all'.Keys == all.Keys && forall id :: id in all && id !in done ==> all'[id].flow == all[id].flow
  {
  }

  /** A change of the initial window reaches the windows that it has reached in the records. */
  method ShiftWindows(objs: map<nat, Stream>, conn: Window, ghost all: Records, ghost all': Records, ghost flow: int,
                      done: set<nat>, growth: int)
    requires Mirrors(objs, conn, all, flow) && Shifted(all, all', done, growth) && done <= all.Keys && IsInt32(flow)
    modifies Windows(objs, conn)`n
    ensures Mirrors(objs, conn, all', flow)
  {
    hide Shifted, Added, Windows;
    NotShifted(all, all', done, growth);
    var todo := done;
    while todo != {}
      invariant todo <= done && conn.n == flow
      invariant forall id :: id in objs ==> objs[id].flow.n == if id in todo then all[id].flow else all'[id].flow
      decreases todo
    {
      var id :| id in todo;
      ShiftedAt(all, all', done, growth, id);
      WindowIn(objs, conn, id);
      ShiftWindow(objs, conn, id, growth);
      todo := todo - {id};
    }
  }

  // ---------------------------------------------------------------- bodies

  ghost function Parts(pipes: map<nat, Body.Pipe>): set<object> {
    (set id | id in pipes :: pipes[id])
    + (set id | id in pipes :: pipes[id].b) + (set id | id in pipes :: pipes[id].b.buf)
  }

  lemma PartsOf(pipes: map<nat, Body.Pipe>, id: nat)
    requires id in pipes
    ensures {pipes[id], pipes[id].b, pipes[id].b.buf} <= Parts(pipes)
  {
  }

  lemma PartsMore(pipes: map<nat, Body.Pipe>, id: nat, p: Body.Pipe)
    ensures Parts(pipes[id := p]) <= Parts(pipes) + {p, p.b, p.b.buf}
  {
  }

  /** No two bodies share anything. */
  ghost predicate Apart(pipes: map<nat, Body.Pipe>) {
    forall i, j :: i in pipes && j in pipes && i != j ==>
      pipes[i] != pipes[j] && pipes[i].b != pipes[j].b && pipes[i].b.buf != pipes[j].b.buf
  }

  /** Each stream with a body has a pipe that holds what its record says. */
  ghost predicate Bodies(pipes: map<nat, Body.Pipe>, all: Records)
    reads Parts(pipes)
  {
    && Apart(pipes)
    && (forall id :: id in pipes <==> id in all && all[id].hasBody)
    && (forall id :: id in pipes ==> Holds(pipes[id], all[id]))
  }

  /** Only the record of id has changed, and what its body holds has not. */
  ghost predicate SameBodies(all: Records, all': Records, id: nat) {
    && (forall k :: k != id ==> (k in all <==> k in all') && (k in all ==> all'[k] == all[k]))
    && (id in all && all[id].hasBody ==>
      id in all' && all'[id].hasBody && all'[id].body == all[id].body
      && (all[id].bodyErr ==> all'[id].bodyErr && all'[id].complete == all[id].complete))
    && (id in all && all[id].complete ==> all[id].bodyErr) && (id in all' && all'[id].complete ==> all'[id].bodyErr)
    && (id in all' && all'[id].hasBody && !(id in all && all[id].hasBody) ==> all'[id].body == [])
  }

  lemma KeptBodies(c: Conn, c': Conn, id: nat)
    requires Kept(c, c', id) && Goes(c, c') && Laws(c) && Laws(c')
    ensures SameBodies(c.all, c'.all, id)
  {
  }

  /** The pipe that a stream gets with its request. */
  method AddBody(pipes: map<nat, Body.Pipe>, ghost all: Records, ghost all': Records, id: nat, ghost st: StreamRec)
      returns (pipes': map<nat, Body.Pipe>)
    requires Bodies(pipes, all) && SameBodies(all, all', id) && id !in pipes && id in all' && all'[id].hasBody
    requires st == all'[id].(bodyErr := false, complete := false)
    ensures Bodies(pipes', all'[id := st])
    ensures id in pipes' && pipes' == pipes[id := pipes'[id]]
    ensures fresh(pipes'[id]) && fresh(pipes'[id].b) && fresh(pipes'[id].b.buf)
  {
    hide Contains;
    var p := NewBody(st);
    pipes' := pipes[id := p];
  }

  method CloseBody(pipes: map<nat, Body.Pipe>, ghost all: Records, id: nat, whole: bool)
    requires Bodies(pipes, all) && id in pipes
    modifies pipes[id]
    ensures id in all && Bodies(pipes, all[id := Shutting(all[id], whole)])
  {
    hide Contains;
    CloseOnPipe(pipes[id], if whole then Body.Eof else Body.Why(0), all[id]);
  }

  /** Bodies are told by four fields of the records. */
  lemma BodiesFrame(pipes: map<nat, Body.Pipe>, all: Records, all': Records)
    requires Bodies(pipes, all)
    requires forall id :: (id in all && all[id].hasBody) <==> (id in all' && all'[id].hasBody)
    requires forall id :: id in all && all[id].hasBody ==>
      && all'[id].body == all[id].body && all'[id].bodyErr == all[id].bodyErr && all'[id].complete == all[id].complete
    ensures Bodies(pipes, all')
  {
    hide Contains;
  }

  lemma BodiesAt(pipes: map<nat, Body.Pipe>, all: Records, id: nat, r: StreamRec)
    requires Bodies(pipes, all) && id in all
    requires r.hasBody == all[id].hasBody && r.body == all[id].body && r.bodyErr == all[id].bodyErr
    requires r.complete == all[id].complete
    ensures Bodies(pipes, all[id := r])
  {
    hide Bodies;
    BodiesFrame(pipes, all, all[id := r]);
  }

  lemma HasBody(pipes: map<nat, Body.Pipe>, all: Records, id: nat)
    requires Bodies(pipes, all)
    ensures id in pipes <==> id in all && all[id].hasBody
  {
  }

  /** Closes the pipe of the stream whose record has changed, if the record says so. */
  method FollowBody(pipes: map<nat, Body.Pipe>, ghost all: Records, all': Records, id: nat)
    requires Bodies(pipes, all) && SameBodies(all, all', id) && id in pipes && id in all'
    modifies pipes[id]
    ensures Bodies(pipes, all')
  {
    hide Bodies;
    HasBody(pipes, all, id);
    ghost var now := all;
    if all'[id].bodyErr {
      CloseBody(pipes, all, id, all'[id].complete);
      now := all[id := Shutting(all[id], all'[id].complete)];
    }
    BodiesFrame(pipes, now, all');
  }

  lemma NoBodyChanged(all: Records, all': Records, id: nat)
    requires SameBodies(all, all', id) && !(id in all' && all'[id].hasBody)
    ensures forall k :: (k in all && all[k].hasBody) <==> (k in all' && all'[k].hasBody)
    ensures forall k :: k in all && all[k].hasBody ==>
      && all'[k].body == all[k].body && all'[k].bodyErr == all[k].bodyErr && all'[k].complete == all[k].complete
  {
  }

  lemma OpenIsNotWhole(all: Records, all': Records, id: nat)
    requires SameBodies(all, all', id) && id in all' && !all'[id].bodyErr
    ensures !all'[id].complete
  {
  }

  /** Makes and closes the pipe of the stream whose record has changed, as the record says. */
  method MakeBody(pipes: map<nat, Body.Pipe>, ghost all: Records, all': Records, id: nat)
      returns (pipes': map<nat, Body.Pipe>, ghost made: set<object>)
    requires Bodies(pipes, all) && SameBodies(all, all', id)
    modifies if id in pipes then {pipes[id]} else {}
    ensures Bodies(pipes', all') && fresh(made) && Parts(pipes') <= Parts(pipes) + made
  {
    hide Bodies, Parts, SameBodies;
    pipes', made := pipes, {};
    if !(id in all' && all'[id].hasBody) {
      NoBodyChanged(all, all', id);
      BodiesFrame(pipes, all, all');
    } else if id in pipes {
      FollowBody(pipes, all, all', id);
    } else {
      ghost var st := all'[id].(bodyErr := false, complete := false);
      pipes' := AddBody(pipes, all, all', id, st);
      made := {pipes'[id], pipes'[id].b, pipes'[id].b.buf};
      PartsMore(pipes, id, pipes'[id]);
      if all'[id].bodyErr {
        CloseBody(pipes', all'[id := st], id, all'[id].complete);
      } else {
        OpenIsNotWhole(all, all', id);
      }
      assert all'[id := st][id := all'[id]] == all' && all'[id := all'[id]] == all';
    }
  }

  /** DATA that the loop has stored goes into the pipe. */
  method FillBody(pipes: map<nat, Body.Pipe>, ghost all: Records, id: nat, data: seq<Byte>)
    requires Bodies(pipes, all) && id in pipes && !all[id].bodyErr && |all[id].body| + |data| <= INITIAL_WINDOW
    modifies pipes[id].b, pipes[id].b.buf
    ensures Bodies(pipes, all[id := all[id].(body := all[id].body + data)])
  {
    hide Contains;
    var wrote, err := WriteAll(pipes[id], data, all[id].body, false, all[id].complete);
  }

  /** A handler's Read that does not have to wait. */
  method DrainBody(pipes: map<nat, Body.Pipe>, ghost all: Records, id: nat, max: nat) returns (data: seq<Byte>)
    requires Bodies(pipes, all) && id in pipes && (all[id].bodyErr || all[id].body != [])
    modifies pipes[id], pipes[id].b
    ensures |data| == Min(max, |all[id].body|) && data == all[id].body[..|data|]
    ensures Bodies(pipes, all[id := HandedOut(all[id], |data|)])
  {
    hide Contains;
    var d := new Byte[max];
    var n, err := ReadOnPipe(pipes[id], d, all[id]);
    data := d[..n];
  }

  // ---------------------------------------------------------------- the connection

  lemma MoreStreams(sched: WriteSched.WriteScheduler, objs: map<nat, Stream>, objs': map<nat, Stream>)
    requires Ready(sched, objs) && forall id :: id in objs ==> id in objs' && objs'[id] == objs[id]
    ensures Ready(sched, objs')
  {
    hide ForStream;
  }

  /** closeStream drops what is queued for the stream. */
  method Forget(sched: WriteSched.WriteScheduler, ghost objs: map<nat, Stream>, id: nat)
    requires Ready(sched, objs)
    modifies sched`sq, sched`queuePool, sched`log, sched.queues
    ensures Ready(sched, objs) && sched.queues == old(sched.queues)
    ensures sched.log == old(sched.log) + [WriteSched.Forgot(id)]
  {
    hide ForStream, WriteSched.WriteScheduler.Conserving;
    sched.ForgetStream(id);
    forall k | k in sched.sq ensures k in objs && ForStream(sched.sq[k].s, objs[k]) {
      assert sched.At(WriteSched.OfStream(k)) == sched.sq[k].s;
    }
  }

  /** A handler's frame is queued for a stream, or a control frame for none. */
  method Queue(sched: WriteSched.WriteScheduler, ghost objs: map<nat, Stream>, m: Msg)
    requires Ready(sched, objs) && (m.stream != null ==> m.stream.id in objs && objs[m.stream.id] == m.stream)
    modifies sched`sq, sched`queuePool, sched`queues, sched`log, sched.queues
    ensures Ready(sched, objs) && fresh(sched.queues - old(sched.queues))
    ensures sched.log == old(sched.log) + [WriteSched.Added(m)]
  {
    hide WriteSched.WriteScheduler.Conserving;
    sched.Add(m);
    forall k | k in sched.sq ensures k in objs && ForStream(sched.sq[k].s, objs[k]) {
      assert sched.Queue(k) == sched.sq[k].s;
    }
  }

  lemma WindowsApart(ws: set<Window>, pipes: map<nat, Body.Pipe>)
    ensures forall w :: w in ws ==> (w as object) !in Parts(pipes)
  {
  }

  /** DATA that is stored is for a stream with a body, open if there is anything to store, and fits. */
  lemma StoredFits(st: StreamRec, data: seq<Byte>, connInflow: int, ended: bool)
    requires BodyLaw(st) && Judge(st, data, connInflow) == Stored
    ensures st.hasBody && (data != [] ==> !st.bodyErr && |st.body| + |data| <= INITIAL_WINDOW)
    ensures AfterData(st, Stored, data, ended).flow == st.flow
  {
  }

  method StoreBody(pipes: map<nat, Body.Pipe>, ghost all: Records, id: nat, data: seq<Byte>, ended: bool,
                   whole: bool, ghost connInflow: int)
    requires Bodies(pipes, all) && id in pipes && id in all && BodyLaw(all[id])
    requires Judge(all[id], data, connInflow) == Stored && whole == AfterData(all[id], Stored, data, ended).complete
    modifies pipes[id], pipes[id].b, pipes[id].b.buf
    ensures Bodies(pipes, all[id := AfterData(all[id], Stored, data, ended)])
  {
    hide Bodies, Judge;
    StoredFits(all[id], data, connInflow, ended);
    HasBody(pipes, all, id);
    ghost var now := all[id := all[id].(body := all[id].body + data)];
    if |data| > 0 {
      FillBody(pipes, all, id, data);
    } else {
      assert all[id].body + data == all[id].body;
      BodiesAt(pipes, all, id, now[id]);
    }
    if ended {
      CloseBody(pipes, now, id, whole);
      now := now[id := Shutting(now[id], whole)];
    }
    BodiesAt(pipes, now, id, AfterData(all[id], Stored, data, ended));
    assert now[id := AfterData(all[id], Stored, data, ended)] == all[id := AfterData(all[id], Stored, data, ended)];
  }

  lemma GrantedBodies(pipes: map<nat, Body.Pipe>, c: Conn, id: nat, inc: nat)
    requires Bodies(pipes, c.all) && c.streams <= c.all.Keys
    ensures Bodies(pipes, AfterWindowUpdate(c, id, inc).0.all)
  {
    hide Bodies;
    BodiesFrame(pipes, c.all, AfterWindowUpdate(c, id, inc).0.all);
  }

  lemma ShiftedBodies(pipes: map<nat, Body.Pipe>, all: Records, all': Records, done: set<nat>, growth: int)
    requires Bodies(pipes, all) && Shifted(all, all', done, growth)
    ensures Bodies(pipes, all')
  {
    hide Bodies;
    BodiesFrame(pipes, all, all');
  }

  lemma DrainedNothing(pipes: map<nat, Body.Pipe>, all: Records, id: nat)
    requires Bodies(pipes, all) && id !in pipes && id in all && all[id].body == []
    ensures Bodies(pipes, all[id := HandedOut(all[id], 0)])
  {
    hide Bodies;
    BodiesAt(pipes, all, id, HandedOut(all[id], 0));
  }

  lemma DrainedWindows(st: StreamRec, n: nat)
    requires n <= |st.body|
    ensures HandedOut(st, n).flow == st.flow
  {
  }

  lemma OwnId(objs: map<nat, Stream>, conn: Window, all: Records, flow: int, id: nat)
    requires Mirrors(objs, conn, all, flow)
    ensures id in objs ==> objs[id].id == id
  {
  }

  lemma LawsHold(sc: Server.ServerConn)
    requires sc.Between()
    ensures Laws(sc.View())
  {
    hide Laws, Balanced;
  }

  lemma {:induction false} AgreeFirst()
    ensures Agree([], [])
  {
  }

  lemma NothingYet(sched: WriteSched.WriteScheduler, flow: Window)
    requires sched.Valid() && sched.Conserving() && sched.sq == map[] && flow.conn == null
    ensures Ready(sched, map[]) && Mirrors(map[], flow, map[], flow.n) && Bodies(map[], map[])
    ensures Windows(map[], flow) == {flow} && Parts(map[]) == {}
  {
  }

  class Connection {
    const sc: Server.ServerConn
    const sched: WriteSched.WriteScheduler
    const flow: Window
    var objs: map<nat, Stream>
    var pipes: map<nat, Body.Pipe>
    // the windows and the parts of the bodies
    ghost var repr: set<object>

    /** What every step keeps. */
    ghost predicate Valid()
      reads this, sc, sched, sched.queues, repr
    {
      sc.Between() && Follows(sc.all, sc.flow, sc.all) && Agree(sched.log, sc.log)
    }

    /** The queues and windows are those of some records, the bodies those of others. */
    ghost predicate Follows(all: Records, connFlow: int, all': Records)
      reads this, sched, sched.queues, repr
    {
      && Windows(objs, flow) <= repr && Parts(pipes) <= repr
      && this !in repr && sc !in repr && sched !in repr && sched.queues !! repr
      && Ready(sched, objs) && Mirrors(objs, flow, all, connFlow) && Bodies(pipes, all')
    }

    constructor (advMaxStreams: nat, maxFrameSize: nat)
      requires 1 <= maxFrameSize <= MAX_WINDOW
      ensures Valid() && fresh(sc) && fresh(sched) && fresh(sched.queues) && fresh(repr)
      ensures sc.log == [] && sched.log == [] && objs == map[] && pipes == map[]
    {
      hide Laws, Balanced, Agree, Ready, Mirrors, Bodies, Windows, Parts;
      hide WriteSched.WriteScheduler.Conserving, WriteSched.WriteScheduler.Valid, WriteSched.WriteScheduler.WellFormed;
      sc := new Server.ServerConn(advMaxStreams);
      sched := new WriteSched.WriteScheduler(maxFrameSize);
      flow := new Window(null);
      objs, pipes, repr := map[], map[], {flow};
      new;
      var ok := flow.Add(INITIAL_WINDOW);
      AddKeepsPromiseIff(0, INITIAL_WINDOW);
      AgreeFirst();
      NothingYet(sched, flow);
    }

    /** The window of the one stream whose record has changed follows the record. */
    method SettleStream(ghost c: Conn, id: nat)
      requires Follows(c.all, c.flow, c.all) && sc.Between() && c.flow == sc.flow && Kept(c, sc.View(), id)
      modifies this
      ensures Follows(sc.all, sc.flow, c.all) && fresh(repr - old(repr)) && pipes == old(pipes)
    {
      hide Ready, Mirrors, Bodies, Kept, Windows, Parts, Server.ServerConn.Between;
      InRange(sc);
      var objs';
      ghost var made;
      objs', made := MakeStream(objs, flow, c, sc.View(), id, id in sc.all, sc.initialWindowSize);
      MoreStreams(sched, objs, objs');
      objs, repr := objs', repr + made;
    }

    /** So does its body. */
    method SettleBody(ghost c: Conn, id: nat)
      requires Follows(sc.all, sc.flow, c.all) && SameBodies(c.all, sc.all, id)
      modifies this, Parts(pipes)
      ensures Follows(sc.all, sc.flow, sc.all) && fresh(repr - old(repr))
    {
      hide Ready, Mirrors, Bodies, SameBodies, Windows, Parts;
      WindowsApart(Windows(objs, flow), pipes);
      if id in pipes { PartsOf(pipes, id); }
      var pipes';
      ghost var made;
      pipes', made := MakeBody(pipes, c.all, sc.all, id);
      pipes, repr := pipes', repr + made;
    }

    /** So do the queues of the scheduler. */
    method Settle(ghost c: Conn, id: nat, was: bool)
      requires Follows(c.all, c.flow, c.all) && sc.Between() && c.flow == sc.flow && Agree(sched.log, sc.log)
      requires Kept(c, sc.View(), id) && SameBodies(c.all, sc.all, id)
      modifies this, sched`sq, sched`queuePool, sched`log, sched.queues, repr
      ensures Valid() && fresh(repr - old(repr)) && sched.queues == old(sched.queues)
      ensures sched.log == old(sched.log) + if was && id !in sc.streams then [WriteSched.Forgot(id)] else []
    {
      hide Ready, Mirrors, Bodies, SameBodies, Kept, Windows, Parts, Agree, Server.ServerConn.Between;
      SettleStream(c, id);
      SettleBody(c, id);
      if was && id !in sc.streams {
        AgreeQueued(sched.log, WriteSched.Forgot(id), sc.log);
        Forget(sched, objs, id);
      }
    }

    /** A turn that is about neither windows nor the bytes of bodies. */
    method HearAside(e: Event) returns (out: Outcome)
      requires Valid() && Server.Legal(e, sc.all, sc.streams, sc.flow, sc.pending, sc.unfinished) && Server.Aside(e)
      modifies this, sc, sched`sq, sched`queuePool, sched`log, sched.queues, repr
      ensures Valid() && fresh(repr - old(repr)) && sched.queues == old(sched.queues)
      ensures sc.log == old(sc.log) + [Entry(e, out, [])]
    {
      hide Ready, Mirrors, Bodies, Windows, Parts, Agree, SameBodies, Server.Legal, Server.Panics;
      hide Laws, Goes, Lives.Moves, Server.ServerConn.Between;
      ghost var c := sc.View();
      LawsHold(sc);
      var was := Server.About(e) in sc.streams;
      out := sc.ServeAside(e);
      LawsHold(sc);
      KeptBodies(c, sc.View(), Server.About(e));
      AgreeHeard(sched.log, old(sc.log), Entry(e, out, []));
      Settle(c, Server.About(e), was);
    }

    /** What the loop has stored the body takes. */
    method StoreHeard(ghost c: Conn, e: Event)
      requires Follows(c.all, c.flow, c.all) && sc.Between() && Agree(sched.log, sc.log)
      requires Laws(c) && e.Data? && e.id in c.streams && e.id in c.all
      requires Judge(c.all[e.id], e.data, c.inflow) == Stored
      requires sc.flow == c.flow && sc.all == c.all[e.id := AfterData(c.all[e.id], Stored, e.data, e.ended)]
      modifies repr
      ensures Valid()
    {
      hide Ready, Mirrors, Bodies, Windows, Parts, Agree, Judge, AfterData, Laws, Server.ServerConn.Between, BodyLaw;
      LawsOf(c, e.id);
      HasBody(pipes, c.all, e.id);
      StoredFits(c.all[e.id], e.data, c.inflow, e.ended);
      PartsOf(pipes, e.id);
      WindowsApart(Windows(objs, flow), pipes);
      StoreBody(pipes, c.all, e.id, e.data, e.ended, sc.all[e.id].complete, c.inflow);
      MirrorsFrame(objs, flow, c.all, sc.all, sc.flow);
    }

    /** DATA that is stored goes into the body, which takes it whole; anything else is an error. */
    method HearData(e: Event) returns (out: Outcome)
      requires Valid() && e.Data?
      modifies this, sc, sched`sq, sched`queuePool, sched`log, sched.queues, repr
      ensures Valid() && fresh(repr - old(repr)) && sched.queues == old(sched.queues)
      ensures sc.log == old(sc.log) + [Entry(e, out, [])]
    {
      hide Ready, Mirrors, Bodies, Windows, Parts, Agree, SameBodies, Server.Panics, Judge, AfterData;
      hide Laws, Goes, Lives.Moves, Server.ServerConn.Between;
      ghost var c := sc.View();
      LawsHold(sc);
      var was := e.id in sc.streams;
      out := sc.ServeData(e);
      AgreeHeard(sched.log, old(sc.log), Entry(e, out, []));
      if out == Done {
        StoreHeard(c, e);
      } else {
        LawsHold(sc);
        KeptBodies(c, sc.View(), e.id);
        Settle(c, e.id, was);
      }
    }

    /** A WINDOW_UPDATE that the loop accepts is accepted by the window. */
    method HearWindowUpdate(e: Event) returns (out: Outcome)
      requires Valid() && e.WindowUpdate? && 1 <= e.inc <= MAX_WINDOW
      modifies this, sc, sched`sq, sched`queuePool, sched`log, sched.queues, repr
      ensures Valid() && fresh(repr - old(repr)) && sched.queues == old(sched.queues)
      ensures sc.log == old(sc.log) + [Entry(e, out, [])]
    {
      hide Ready, Mirrors, Bodies, Windows, Parts, Agree, SameBodies, AfterWindowUpdate;
      hide Laws, Goes, Lives.Moves, Server.ServerConn.Between;
      ghost var c := sc.View();
      LawsHold(sc);
      LawsOf(c, e.id);
      var was := e.id in sc.streams;
      out := sc.ServeWindowUpdate(e);
      AgreeHeard(sched.log, old(sc.log), Entry(e, out, []));
      if out == Done {
        WindowsApart(Windows(objs, flow), pipes);
        GrantWindow(objs, flow, c, e.id, e.inc);
        GrantedBodies(pipes, c, e.id, e.inc);
      } else {
        LawsHold(sc);
        KeptBodies(c, sc.View(), e.id);
        Settle(c, e.id, was);
      }
    }

    /** A SETTINGS change reaches the same windows as it reaches records, also if it is refused half-way. */
    method HearSetting(e: Event) returns (out: Outcome)
      requires Valid() && e.InitialWindow? && e.val <= MAX_WINDOW
      modifies this, sc, repr
      ensures Valid() && repr == old(repr) && sched.queues == old(sched.queues)
      ensures sc.log == old(sc.log) + [Entry(e, out, [])]
    {
      hide Ready, Mirrors, Bodies, Windows, Parts, Agree, Shifted;
      hide Laws, Goes, Lives.Moves, Server.ServerConn.Between;
      ghost var c := sc.View();
      LawsHold(sc);
      LawsOf(c, 0);
      var growth := e.val - sc.initialWindowSize;
      var done;
      out, done := sc.ServeSetting(e);
      AgreeHeard(sched.log, old(sc.log), Entry(e, out, []));
      WindowsApart(Windows(objs, flow), pipes);
      ShiftWindows(objs, flow, c.all, sc.all, sc.flow, done, growth);
      ShiftedBodies(pipes, c.all, sc.all, done, growth);
    }

    /** A handler's Read gets from the pipe what the loop's history says; without anything to read it waits. */
    method HearRead(e: Event) returns (data: seq<Byte>)
      requires Valid() && e.BodyRead? && e.id in sc.all
      modifies this, sc, repr
      ensures Valid() && repr == old(repr) && sched.queues == old(sched.queues)
      ensures sc.log == old(sc.log) + [Entry(e, Done, data)] || (sc.log == old(sc.log) && data == [])
    {
      hide Ready, Mirrors, Bodies, Windows, Parts, Agree, HandedOut;
      hide Laws, Goes, Lives.Moves, Server.ServerConn.Between;
      ghost var c := sc.View();
      LawsHold(sc);
      LawsOf(c, e.id);
      HasBody(pipes, c.all, e.id);
      if e.id in pipes {
        if !sc.all[e.id].bodyErr && sc.all[e.id].body == [] { return []; }
        PartsOf(pipes, e.id);
        WindowsApart(Windows(objs, flow), pipes);
        data := DrainBody(pipes, c.all, e.id, e.max);
      } else {
        data := [];
        DrainedNothing(pipes, c.all, e.id);
      }
      var told := sc.ServeRead(e);
      assert told == data;
      AgreeHeard(sched.log, old(sc.log), Entry(e, Done, data));
      DrainedWindows(c.all[e.id], |data|);
      MirrorsFrame(objs, flow, c.all, sc.all, sc.flow);
    }

    /** A handler's frame for a stream, or a control frame for 0. */
    method Write(id: nat, write: WriteFramer, done: nat)
      requires Valid() && (id == 0 || id in objs)
      modifies sched`sq, sched`queuePool, sched`queues, sched`log, sched.queues
      ensures Valid() && fresh(sched.queues - old(sched.queues))
      ensures sched.log == old(sched.log) + [WriteSched.Added(Msg(write, if id == 0 then null else objs[id], done))]
    {
      hide Ready, Mirrors, Bodies, Windows, Parts, Agree, Server.ServerConn.Between;
      var m := Msg(write, if id == 0 then null else objs[id], done);
      AgreeQueued(sched.log, WriteSched.Added(m), sc.log);
      OwnId(objs, flow, sc.all, sc.flow, id);
      Queue(sched, objs, m);
    }

    /** scheduleFrameWrite: the next frame that the windows allow goes out, unless the connection is being shut down. */
    method Send() returns (wm: Msg, ok: bool, ghost part: bool)
      requires Valid()
      modifies sc, sched`sq, sched`queuePool, sched`canSend, sched`log, sched.queues, repr
      ensures Valid() && repr == old(repr) && sched.queues == old(sched.queues)
      ensures sched.log == if ok then old(sched.log) + [WriteSched.Taken(wm, part)] else old(sched.log)
      ensures ok <==> !old(sc.inGoAway) && old(sched.zero.s != [] || exists id :: id in sched.sq && sched.Sendable(id))
    {
      hide Ready, Mirrors, Bodies, Windows, Parts, Agree, Server.ServerConn.Between;
      if sc.inGoAway { return Msg(OtherFrame(0), null, 0), false, false; }
      WindowsApart(Windows(objs, flow), pipes);
      ghost var all := sc.all;
      wm, ok, part := SendNext(sched, sc, objs, flow);
      if ok { AgreeSent(old(sched.log), wm, part, old(sc.log)); }
      if ok && wm.stream != null && WriteSched.Cost(wm) > 0 { BodiesFrame(pipes, all, sc.all); }
    }

    /** One event of the serve loop; what the scheduler releases is not heard but sent. */
    method Hear(e: Event) returns (out: Outcome, data: seq<Byte>)
      requires Valid() && Server.Legal(e, sc.all, sc.streams, sc.flow, sc.pending, sc.unfinished) && !e.Released?
      modifies this, sc, sched`sq, sched`queuePool, sched`log, sched.queues, repr
      ensures Valid() && fresh(repr - old(repr)) && sched.queues == old(sched.queues)
      ensures sc.log == old(sc.log) + [Entry(e, out, data)] || (out == Done && sc.log == old(sc.log))
    {
      hide Connection.Valid;
      out, data := Done, [];
      if Server.Aside(e) {
        out := HearAside(e);
        return;
      }
      match e
      case Data(_, _, _) => out := HearData(e);
      case WindowUpdate(_, _) => out := HearWindowUpdate(e);
      case InitialWindow(_) => out := HearSetting(e);
      case BodyRead(_, _) => data := HearRead(e);
    }

    /** Over every run, up to the event at which the loop fails if there is one, the loop's records, the windows,
        the bodies, the queues and both histories agree. */
    method Run(acts: seq<Act>) returns (failed: bool)
      requires Valid()
      modifies this, sc, sched, sched.queues, repr
      ensures Valid() && fresh(repr - old(repr)) && fresh(sched.queues - old(sched.queues))
      ensures failed ==> sc.log != [] && sc.log[|sc.log| - 1].out == Panic
    {
      hide Connection.Valid;
      failed := false;
      for i := 0 to |acts|
        invariant Valid() && !failed && fresh(repr - old(repr)) && fresh(sched.queues - old(sched.queues))
      {
        match acts[i]
        case Heard(e) =>
          if Server.Legal(e, sc.all, sc.streams, sc.flow, sc.pending, sc.unfinished) && !e.Released? {
            var out, data := Hear(e);
            if out == Panic { return true; }
          }
        case Wrote(id, write, done) =>
          if id == 0 || id in objs { Write(id, write, done); }
        case Sends =>
          var wm, ok, part := Send();
      }
    }
  }

  /** What happens to a connection. */
  datatype Act = Heard(e: Event) | Wrote(id: nat, write: WriteFramer, done: nat) | Sends

  /** What it comes to.  A stream's window is the initial window and what the peer has granted, less the DATA that the
      scheduler has handed out; the connection's window is the same over all streams.  What the peer has sent of
      a request's body is what its handler has read and then what its pipe holds. */
  lemma Conservation(k: Connection)
    requires k.Valid()
    ensures k.flow.n == INITIAL_WINDOW + BooksOf(k.sc.log, 0).credit - Sum(k.sc.all, TakenOf())
    ensures forall id :: id in k.sc.all ==> k.sc.all[id].taken == Sent(k.sched.log, id)
    ensures forall id :: id in k.sc.all && !k.sc.settingsFailed && k.sc.all[id].state != Closed ==>
      id in k.objs && k.objs[id].flow.n == k.sc.initialWindowSize + BooksOf(k.sc.log, id).credit - Sent(k.sched.log, id)
    ensures forall id :: id in k.pipes ==>
      k.pipes[id].Valid() && BooksOf(k.sc.log, id).stored == BooksOf(k.sc.log, id).read + k.pipes[id].Contents()
  {
  }
}

/** Where the parts of the HTTP/2 server meet: the records of the serve loop stand for the pipes that hold request
    bodies and for the windows that the scheduler draws on, and what one part demands another provides. */
module Wiring {
  import opened Utf8
  import opened Flow
  import opened Machine
  import opened Streams
  import opened ServerLaws
  import opened Ledger
  import Body
  import WriteSched
  import Server

  // ---------------------------------------------------------------- request bodies

  /** The pipe of a stream's request body, and the record that stands for it. */
  ghost predicate Holds(p: Body.Pipe, st: StreamRec)
    reads p, p.b, p.b.buf
  {
    st.hasBody && Contains(p, st.body, st.bodyErr, st.complete)
  }

  ghost predicate Contains(p: Body.Pipe, body: seq<Byte>, closed: bool, complete: bool)
    reads p, p.b, p.b.buf
  {
    && p.Valid() && p.b.buf.Length == INITIAL_WINDOW && p.breakErr == Body.Nil
    && p.Contents() == body && (p.err != Body.Nil <==> closed) && (p.err == Body.Eof <==> complete)
  }

  /** A Write that the buffer has room for: everything, or an error and nothing if the pipe is closed. */
  method WriteAll(p: Body.Pipe, data: seq<Byte>, ghost body: seq<Byte>, ghost closed: bool,
                  ghost complete: bool)
      returns (wrote: nat, err: Body.PipeError)
    requires Contains(p, body, closed, complete) && |body| + |data| <= INITIAL_WINDOW
    modifies p.b, p.b.buf
    ensures err == if closed then Body.ClosedPipeWrite else Body.Nil
    ensures wrote == (if closed then 0 else |data|)
    ensures Contains(p, if closed then body else body + data, closed, complete)
  {
    wrote, err := p.Write(data);
    assert wrote == |data| ==> data[..wrote] == data;
    assert closed ==> body + data[..0] == body;
  }

  method Shut(p: Body.Pipe, why: Body.PipeError, fn: bool, ghost body: seq<Byte>, ghost closed: bool,
              ghost complete: bool)
    requires Contains(p, body, closed, complete) && why != Body.Nil
    modifies p
    ensures Contains(p, body, true, if closed then complete else why == Body.Eof)
  {
    p.CloseWithError(why, fn);
  }

  /** The two closes of endStream: an error if less has come than was declared, and else the end of the body. */
  method EndBody(p: Body.Pipe, st: StreamRec)
    requires Holds(p, st)
    modifies p
    ensures Holds(p, EndStream(st))
  {
    hide Contains;
    if st.declBodyBytes != -1 && st.declBodyBytes != st.bodyBytes {
      Shut(p, Body.Why(1), false, st.body, st.bodyErr, st.complete);
    } else {
      Shut(p, Body.Eof, true, st.body, st.bodyErr, st.complete);
      Shut(p, Body.Eof, false, st.body, true, EndStream(st).complete);
    }
  }

  /** The pipe that a request gets, for the record that its headers leave. */
  method NewBody(ghost st: StreamRec) returns (p: Body.Pipe)
    requires st.hasBody && st.body == [] && !st.bodyErr && !st.complete
    ensures fresh(p) && fresh(p.b) && fresh(p.b.buf) && Holds(p, st)
  {
    p := new Body.Pipe(INITIAL_WINDOW);
  }

  /** processData with a real body.  What is judged to be stored the pipe takes whole and without an error, what is
      judged to find the body closed the pipe refuses, and the pipe holds what the new record says. */
  method DataOnPipe(p: Body.Pipe, st: StreamRec, data: seq<Byte>, ended: bool, connInflow: int)
      returns (v: Verdict, st': StreamRec)
    requires Holds(p, st) && BodyLaw(st) && 0 <= connInflow
    modifies p, p.b, p.b.buf
    ensures v == Judge(st, data, connInflow) && st' == AfterData(st, v, data, ended)
    ensures Holds(p, st')
  {
    hide Contains;
    if st.state != Open || st.gotTrailer { return NotOpen, st; }
    if st.declBodyBytes != -1 && st.bodyBytes + |data| > st.declBodyBytes {
      Shut(p, Body.Why(0), false, st.body, st.bodyErr, st.complete);
      return TooLong, st.(bodyErr := true);
    }
    DataFits(st, data, connInflow);
    hide BodyLaw;
    if |data| > 0 {
      if st.InAvailable(connInflow) < |data| { return NoWindow, st; }
      var wrote, err := WriteAll(p, data, st.body, st.bodyErr, st.complete);
      if err != Body.Nil { return BodyClosed, st.(inflow := st.inflow - |data|, refused := st.refused + |data|); }
      assert wrote == |data|;
    }
    assert st.body + [] == st.body;
    st' := st.(inflow := st.inflow - |data|, body := st.body + data, bodyBytes := st.bodyBytes + |data|);
    if ended {
      EndBody(p, st');
      st' := EndStream(st');
    }
    v := Stored;
  }

  /** DATA that the window allows fits the body's buffer. */
  lemma DataFits(st: StreamRec, data: seq<Byte>, connInflow: int)
    requires BodyLaw(st) && st.state == Open
    ensures |data| <= st.InAvailable(connInflow) ==> |st.body| + |data| <= INITIAL_WINDOW
  {
  }

  method ReadFront(p: Body.Pipe, d: array<Byte>, ghost body: seq<Byte>, ghost closed: bool, ghost complete: bool)
      returns (n: nat, e: Body.PipeError)
    requires Contains(p, body, closed, complete) && d != p.b.buf && (closed || body != [])
    modifies p, p.b, d
    ensures n == Min(d.Length, |body|) && d[..n] == body[..n] && Contains(p, body[n..], closed, complete)
    ensures (e == Body.Nil <==> body != []) && (e == Body.Eof <==> body == [] && complete)
  {
    n, e := p.Read(d);
  }

  /** A handler's Read that does not have to wait hands out the front of the body, and the bytes are owed. */
  method ReadOnPipe(p: Body.Pipe, d: array<Byte>, ghost st: StreamRec) returns (n: nat, e: Body.PipeError)
    requires Holds(p, st) && d != p.b.buf && (st.bodyErr || st.body != [])
    modifies p, p.b, d
    ensures n == Min(d.Length, |st.body|) && d[..n] == st.body[..n]
    ensures e == Body.Nil <==> st.body != []
    ensures e == Body.Eof <==> st.body == [] && st.complete
    ensures Holds(p, HandedOut(st, n))
  {
    hide Contains;
    n, e := ReadFront(p, d, st.body, st.bodyErr, st.complete);
  }

  /** A handler's Close, or the end of the stream: later DATA finds the body closed, and it is as whole as it was. */
  method CloseOnPipe(p: Body.Pipe, why: Body.PipeError, ghost st: StreamRec)
    requires Holds(p, st) && why != Body.Nil
    modifies p
    ensures Holds(p, Shutting(st, why == Body.Eof))
  {
    p.CloseWithError(why, false);
  }

  /** The first close of a body decides whether it is held to be whole. */
  function Shutting(st: StreamRec, whole: bool): StreamRec {
    st.(bodyErr := true, complete := if st.bodyErr then st.complete else whole)
  }

  // ---------------------------------------------------------------- outbound DATA

  ghost function Windows(objs: map<nat, Stream>, conn: Window): set<Window> {
    {conn} + set id | id in objs :: objs[id].flow
  }

  /** Each stream has a window of its own, linked to the connection's. */
  ghost predicate Wired(objs: map<nat, Stream>, conn: Window) {
    && conn.conn == null
    && (forall id :: id in objs ==> objs[id].id == id && objs[id].flow.conn == conn && objs[id].flow != conn)
    && (forall id, id' :: id in objs && id' in objs && objs[id].flow == objs[id'].flow ==> id == id')
  }

  /** Each window holds what its record says, and so does the connection's. */
  ghost predicate Levels(objs: map<nat, Stream>, conn: Window, all: Records, flow: int)
    reads Windows(objs, conn)`n
  {
    conn.n == flow && objs.Keys == all.Keys && forall id :: id in objs ==> objs[id].flow.n == all[id].flow
  }

  /** The streams behind the records. */
  ghost predicate Mirrors(objs: map<nat, Stream>, conn: Window, all: Records, flow: int)
    reads Windows(objs, conn)`n
  {
    Wired(objs, conn) && Levels(objs, conn, all, flow)
  }

  /** Everything queued for a stream is for the stream of that identifier. */
  ghost predicate Known(sched: WriteSched.WriteScheduler, objs: map<nat, Stream>)
    requires sched.Loaded()
    reads sched, sched.queues
  {
    forall id :: id in sched.sq ==> id in objs && ForStream(sched.sq[id].s, objs[id])
  }

  ghost predicate Ready(sched: WriteSched.WriteScheduler, objs: map<nat, Stream>)
    reads sched, sched.queues
  {
    sched.Valid() && sched.Conserving() && Known(sched, objs)
  }

  ghost predicate ForStream(ms: seq<Msg>, o: Stream) {
    forall k :: 0 <= k < |ms| ==> ms[k].stream == o
  }

  lemma MirroredDraws(sched: WriteSched.WriteScheduler, objs: map<nat, Stream>, conn: Window, all: Records, flow: int)
    requires sched.Loaded() && Known(sched, objs) && Mirrors(objs, conn, all, flow)
    requires IsInt32(flow) && forall id :: id in all ==> IsInt32(all[id].flow)
    ensures sched.Draws(Windows(objs, conn))
    ensures forall id :: id in sched.sq ==>
      id in objs && sched.Head(id).stream == objs[id] && objs[id].flow.Available() == all[id].Available(flow)
  {
    forall id | id in sched.sq
      ensures id in objs && sched.Head(id).stream == objs[id] && objs[id].flow.Available() == all[id].Available(flow)
      ensures objs[id].flow in Windows(objs, conn) && objs[id].flow.Valid()
    {
      assert ForStream(sched.sq[id].s, objs[id]);
    }
  }

  lemma TailForStream(after: seq<Msg>, before: seq<Msg>, o: Stream)
    requires WriteSched.SameStreams(after, before) && ForStream(before, o)
    ensures ForStream(after, o)
  {
  }

  lemma LevelsDrop(objs: map<nat, Stream>, conn: Window, all: Records, flow: int, x: nat, n: nat)
    requires Wired(objs, conn) && objs.Keys == all.Keys && x in all && conn.n == flow - n
    requires forall id :: id in objs ==> objs[id].flow.n == all[id].flow - (if id == x then n else 0)
    ensures Mirrors(objs, conn, all[x := WithRelease(all[x], n)], flow - n)
  {
  }

  /** Takes the next frame. */
  method TakeFrame(sched: WriteSched.WriteScheduler, ghost objs: map<nat, Stream>, ghost conn: Window,
                   ghost all: Records, ghost flow: int)
      returns (wm: Msg, ok: bool, ghost part: bool)
    requires Ready(sched, objs) && Mirrors(objs, conn, all, flow)
    requires IsInt32(flow) && forall id :: id in all ==> IsInt32(all[id].flow)
    modifies sched`sq, sched`queuePool, sched`canSend, sched`log, sched.queues, Windows(objs, conn)`n
    ensures Ready(sched, objs) && sched.queues == old(sched.queues)
    ensures sched.log == if ok then old(sched.log) + [WriteSched.Taken(wm, part)] else old(sched.log)
    ensures ok <==> old(sched.zero.s != [] || exists id :: id in sched.sq && sched.Sendable(id))
    ensures ok && wm.stream != null ==> wm.stream.id in objs && wm.stream == objs[wm.stream.id]
    ensures ok && wm.stream != null && WriteSched.Cost(wm) > 0 ==>
      WriteSched.Cost(wm) <= all[wm.stream.id].Available(flow)
    ensures forall w :: w in Windows(objs, conn) ==>
      var drawn := ok && wm.stream != null && (w == wm.stream.flow || w == wm.stream.flow.conn);
      w.n == old(w.n) - (if drawn then WriteSched.Cost(wm) else 0)
  {
    hide ForStream, WriteSched.SameStreams, WriteSched.Units, WriteSched.UnitsTaken;
    hide WriteSched.WriteScheduler.Conserving;
    hide WriteSched.WriteScheduler.Draws, WriteSched.WriteScheduler.Sendable, Levels, Wired, Windows;
    ghost var key;
    MirroredDraws(sched, objs, conn, all, flow);
    wm, ok, part, key := sched.Take(Windows(objs, conn));
    forall id | id in sched.sq ensures id in objs && ForStream(sched.sq[id].s, objs[id]) {
      assert sched.At(WriteSched.OfStream(id)) == sched.sq[id].s;
      if ok && key == WriteSched.OfStream(id) { TailForStream(sched.sq[id].s, old(sched.sq[id].s), objs[id]); }
    }
  }

  /** The scheduler's windows after n bytes of a stream's DATA have been taken are those of the record from which
      the same bytes are released. */
  method TakeNext(sched: WriteSched.WriteScheduler, ghost objs: map<nat, Stream>, ghost conn: Window,
                  ghost all: Records, ghost flow: int)
      returns (wm: Msg, ok: bool, ghost part: bool, ghost n: nat)
    requires Ready(sched, objs) && Mirrors(objs, conn, all, flow)
    requires IsInt32(flow) && forall id :: id in all ==> IsInt32(all[id].flow)
    modifies sched`sq, sched`queuePool, sched`canSend, sched`log, sched.queues, Windows(objs, conn)`n
    ensures Ready(sched, objs) && sched.queues == old(sched.queues)
    ensures sched.log == if ok then old(sched.log) + [WriteSched.Taken(wm, part)] else old(sched.log)
    ensures ok <==> old(sched.zero.s != [] || exists id :: id in sched.sq && sched.Sendable(id))
    ensures n == if ok && wm.stream != null then WriteSched.Cost(wm) else 0
    ensures n == 0 ==> Mirrors(objs, conn, all, flow)
    ensures n > 0 ==> wm.stream.id in all && n <= all[wm.stream.id].Available(flow)
    ensures n > 0 ==> Mirrors(objs, conn, all[wm.stream.id := WithRelease(all[wm.stream.id], n)], flow - n)
  {
    hide Ready, WriteSched.Cost;
    wm, ok, part := TakeFrame(sched, objs, conn, all, flow);
    n := if ok && wm.stream != null then WriteSched.Cost(wm) else 0;
    assert conn in Windows(objs, conn) && forall id :: id in objs ==> objs[id].flow in Windows(objs, conn);
    if n > 0 { LevelsDrop(objs, conn, all, flow, wm.stream.id, n); }
  }

  lemma InRange(sc: Server.ServerConn)
    requires sc.Between()
    ensures IsInt32(sc.flow) && 0 <= sc.initialWindowSize <= MAX_WINDOW
    ensures forall id :: id in sc.all ==> IsInt32(sc.all[id].flow)
  {
    hide Laws, Balanced;
    LawsOf(sc.View(), 0);
    ShiftReady(sc.View());
  }

  /** A frame within what the windows allow is one that the serve loop may release. */
  lemma CoveredIsLegal(wm: Msg, n: nat, sc: Server.ServerConn)
    requires n == if wm.stream != null then WriteSched.Cost(wm) else 0
    requires n > 0 ==> wm.stream.id in sc.all && n <= sc.all[wm.stream.id].Available(sc.flow)
    ensures n > 0 <==> wm.stream != null && wm.write.WriteData? && |wm.write.p| > 0
    ensures n > 0 ==> n == |wm.write.p|
    ensures n > 0 ==>
      Server.Legal(Released(wm.stream.id, n), sc.all, sc.streams, sc.flow, sc.pending, sc.unfinished)
  {
  }

  /** What scheduleFrameWrite does to send a queued frame.  The serve loop's record of the stream goes down by the
      DATA in it, as the window does; nothing is released that the windows do not cover. */
  method SendNext(sched: WriteSched.WriteScheduler, sc: Server.ServerConn, ghost objs: map<nat, Stream>,
                  ghost conn: Window)
      returns (wm: Msg, ok: bool, ghost part: bool)
    requires Ready(sched, objs) && sc.Between() && Mirrors(objs, conn, sc.all, sc.flow)
    modifies sched`sq, sched`queuePool, sched`canSend, sched`log, sched.queues, Windows(objs, conn)`n, sc
    ensures Ready(sched, objs) && sc.Between() && Mirrors(objs, conn, sc.all, sc.flow)
    ensures sched.log == if ok then old(sched.log) + [WriteSched.Taken(wm, part)] else old(sched.log)
    ensures ok <==> old(sched.zero.s != [] || exists id :: id in sched.sq && sched.Sendable(id))
    ensures !(ok && wm.stream != null && WriteSched.Cost(wm) > 0) ==> sc.all == old(sc.all) && sc.log == old(sc.log)
    ensures ok && wm.stream != null && WriteSched.Cost(wm) > 0 ==>
      && wm.stream.id in old(sc.all)
      && sc.all == old(sc.all)[wm.stream.id := WithRelease(old(sc.all)[wm.stream.id], WriteSched.Cost(wm))]
      && sc.log == old(sc.log) + [Entry(Released(wm.stream.id, WriteSched.Cost(wm)), Done, [])]
  {
    hide Ready, Mirrors, WithRelease, WriteSched.Cost, Server.Legal;
    hide Server.ServerConn.Between, Server.ServerConn.Onward;
    InRange(sc);
    ghost var n;
    wm, ok, part, n := TakeNext(sched, objs, conn, sc.all, sc.flow);
    if ok { CoveredIsLegal(wm, n, sc); }
    if ok && wm.stream != null && wm.write.WriteData? && |wm.write.p| > 0 {
      sc.ServeReleased(Released(wm.stream.id, |wm.write.p|));
    }
  }
}

/** The life of a stream as its history tells it (section 5.1 of RFC 7540): who has ended it, and how it was closed. */
module Lives {
  import opened Utf8
  import opened ServerLaws
  import opened Ledger

  // ---------------------------------------------------------------- what an entry of the history says

  /** The peer has said END_STREAM, whatever came of it. */
  predicate SaysEnd(x: Entry, id: nat) {
    (x.e.Data? && x.e.id == id && x.e.ended) || (x.e.Headers? && x.e.id == id && x.e.ended)
  }

  /** The stream was reset, by the peer or for an error, or the last of its frames was written. */
  predicate Closes(x: Entry, id: nat) {
    x.e == Rst(id) || x.e == Wrote(id, true) || x.out == StreamError(id)
  }

  /** The headers of the stream's request have come to a good end, with this Content-Length or (-1) with none. */
  predicate HasRequest(x: Entry, id: nat, n: int) {
    && x.out == Done
    && ((x.e.Headers? && x.e.id == id && x.e.block == Request(n))
        || (x.e.Continuation? && x.e.id == id && x.e.block == Request(n)))
  }

  /** How far a peer is with a stream: it sends; it has said END_STREAM, but its header block is unfinished; it is
      done. */
  datatype Side = Sending | Ending | Ended

  function SideAfter(s: Side, x: Entry, id: nat): Side {
    if s == Ended || x.out != Done then s else
    match x.e
    case Data(k, _, ended) => if k == id && ended then Ended else s
    case Headers(k, ended, endHeaders, _) => if k == id && ended then if endHeaders then Ended else Ending else s
    case Continuation(k, endHeaders, _) => if k == id && endHeaders && s == Ending then Ended else s
    case _ => s
  }

  /** What the peer has told of a stream, of what was taken up without an error. */
  function Peer(log: seq<Entry>, id: nat): Side {
    if log == [] then Sending else SideAfter(Peer(log[..|log| - 1], id), log[|log| - 1], id)
  }

  lemma {:induction false} PeerNext(log: seq<Entry>, x: Entry, id: nat)
    ensures Peer(log + [x], id) == SideAfter(Peer(log, id), x, id)
  {
    assert (log + [x])[..|log|] == log;
  }

  /** A reset was sent: for an error, or because the answer was complete before the peer was done. */
  ghost predicate ResetAt(log: seq<Entry>, i: nat, id: nat)
    requires i < |log|
  {
    log[i].out == StreamError(id) || (log[i].e == Wrote(id, true) && Peer(log[..i], id) != Ended)
  }

  // ---------------------------------------------------------------- lives

  /** What a history says of the record of a stream. */
  ghost predicate LifeOf(log: seq<Entry>, id: nat, r: StreamRec) {
    && (Peer(log, id) == Ended ==> r.state == HalfClosedRemote || r.state == Closed)
    && (Peer(log, id) == Ending ==> r.state != Open || r.gotTrailer)
    && (r.state == HalfClosedRemote || (r.state == Open && r.gotTrailer) ==> exists x :: x in log && SaysEnd(x, id))
    && (r.state == Closed ==> exists x :: x in log && Closes(x, id))
    && (r.hasBody ==> exists x :: x in log && HasRequest(x, id, r.declBodyBytes))
    && (r.complete ==> exists x :: x in log && SaysEnd(x, id))
    && (r.gotReset ==> exists x :: x in log && x.e == Rst(id))
    && (r.sentReset ==> exists i :: 0 <= i < |log| && ResetAt(log, i, id))
    && (forall x :: x in log && x.e == Wrote(id, true) ==> r.state == Closed)
  }

  /** DATA behind the end of a stream is an error of the stream. */
  ghost predicate EndIsEnd(log: seq<Entry>) {
    forall i :: 0 <= i < |log| && log[i].e.Data? && Peer(log[..i], log[i].e.id) == Ended ==>
      log[i].out == StreamError(log[i].e.id)
  }

  /** Every stream that has a record lives as the history says, and a peer has ended no other. */
  ghost predicate Lived(log: seq<Entry>, c: Conn) {
    && (forall id :: id in c.all ==> LifeOf(log, id, c.all[id]))
    && (forall id: nat :: Peer(log, id) != Sending ==> id in c.all)
    && (forall x :: x in log && x.e.Wrote? ==> x.e.id in c.all)
    && EndIsEnd(log)
  }

  // ---------------------------------------------------------------- one step

  /** Nothing happens to a record that its entry does not say. */
  predicate Accounts(r: StreamRec, x: Entry, id: nat, r': StreamRec) {
    && (r'.state == HalfClosedRemote || (r'.state == Open && r'.gotTrailer) ==>
      r.state == HalfClosedRemote || (r.state == Open && r.gotTrailer) || SaysEnd(x, id) || x.out == StreamError(id))
    && (r'.state == Closed ==> r.state == Closed || Closes(x, id))
    && (r'.hasBody ==> (r.hasBody && r'.declBodyBytes == r.declBodyBytes) || HasRequest(x, id, r'.declBodyBytes))
    && (r'.complete ==>
      r.complete || SaysEnd(x, id) || r.state == HalfClosedRemote || (r.state == Open && r.gotTrailer))
    && (r'.gotReset ==> r.gotReset || x.e == Rst(id))
    && (r'.sentReset ==> r.sentReset || x.out == StreamError(id) || (x.e == Wrote(id, true) && r.state == Open))
  }

  /** And what it says happens. */
  predicate Obeys(r: StreamRec, x: Entry, id: nat, r': StreamRec) {
    && (Closes(x, id) ==> r'.state == Closed)
    && (x.out == Done && SaysEnd(x, id) ==> r'.state != Open || (x.e.Headers? && !x.e.endHeaders && r'.gotTrailer))
    && (x.out == Done && x.e.Continuation? && x.e.id == id && x.e.endHeaders && (r.state != Open || r.gotTrailer) ==>
      r'.state != Open)
    && (r.hasBody && r.state == Open && r'.state == HalfClosedRemote ==>
      r'.complete == if r.bodyErr then r.complete else Whole(r'))
    && (x.e == Rst(id) && r.state != Closed ==> r'.gotReset)
    && (x.out == StreamError(id) || x.e == Wrote(id, true) ==>
      (r.state == Open ==> r'.sentReset) && (r.state == HalfClosedRemote && x.out == StreamError(id) ==> r'.sentReset))
    && (x.e == BodyClose(id) && r.hasBody ==> r'.bodyErr)
  }

  /** DATA behind the end of a stream or behind its trailers is an error of the stream, and none is taken up behind the
      close of a body. */
  predicate Taken(r: StreamRec, x: Entry)
    requires x.e.Data?
  {
    && (r.state != Open || r.gotTrailer ==> x.out == StreamError(x.e.id))
    && (r.bodyErr && x.e.data != [] ==> x.out != Done)
  }

  /** The record of a stream before it is opened. */
  function Unopened(): StreamRec { Opened(false, 0) }

  function Before(c: Conn, id: nat): StreamRec { if id in c.all then c.all[id] else Unopened() }

  /** A step of the connection does what its entry says, to every stream. */
  ghost predicate Moves(c: Conn, x: Entry, c': Conn) {
    && (forall id :: id in c'.all ==>
      Accounts(Before(c, id), x, id, c'.all[id]) && Obeys(Before(c, id), x, id, c'.all[id]))
    && (forall id: nat :: x.out == Done && SaysEnd(x, id) ==> id in c'.all)
    && (x.e.Data? ==> if x.e.id in c.all then Taken(c.all[x.e.id], x) else x.out == StreamError(x.e.id))
    && (x.e.Wrote? ==> x.e.id in c.all)
  }

  lemma {:induction false} LifeGoesOn(log: seq<Entry>, id: nat, r: StreamRec, x: Entry, r': StreamRec)
    requires LifeOf(log, id, r) && Accounts(r, x, id, r') && Obeys(r, x, id, r') && LaterRec(r, r')
    requires r'.state != Idle && r'.state != HalfClosedLocal
    ensures LifeOf(log + [x], id, r')
  {
    PeerNext(log, x, id);
    assert forall y :: y in log ==> y in log + [x];
    assert x in log + [x];
    forall i | 0 <= i < |log| && ResetAt(log, i, id) ensures ResetAt(log + [x], i, id) {
      assert (log + [x])[..i] == log[..i];
    }
    assert (log + [x])[..|log|] == log;
    assert r'.sentReset && !r.sentReset ==> ResetAt(log + [x], |log|, id);
  }

  lemma {:induction false} LifeBegins(log: seq<Entry>, id: nat, x: Entry, r': StreamRec)
    requires Peer(log, id) == Sending && Accounts(Unopened(), x, id, r') && Obeys(Unopened(), x, id, r')
    requires r'.state != Idle && r'.state != HalfClosedLocal && forall y :: y in log ==> y.e != Wrote(id, true)
    ensures LifeOf(log + [x], id, r')
  {
    PeerNext(log, x, id);
    assert x in log + [x];
    assert (log + [x])[..|log|] == log;
    assert r'.sentReset ==> ResetAt(log + [x], |log|, id);
  }

  lemma {:induction false} EndGoesOn(log: seq<Entry>, x: Entry)
    requires EndIsEnd(log)
    requires x.e.Data? && Peer(log, x.e.id) == Ended ==> x.out == StreamError(x.e.id)
    ensures EndIsEnd(log + [x])
  {
    var log' := log + [x];
    forall i | 0 <= i < |log'| && log'[i].e.Data? && Peer(log'[..i], log'[i].e.id) == Ended
      ensures log'[i].out == StreamError(log'[i].e.id)
    {
      assert log'[..i] == log[..i];
      assert i == |log| ==> log[..i] == log;
    }
  }

  /** Lives go on from step to step. */
  lemma {:induction false} LivedNext(log: seq<Entry>, c: Conn, x: Entry, c': Conn)
    requires Lived(log, c) && Moves(c, x, c') && Later(c, c')
    requires forall id :: id in c'.all ==> c'.all[id].state != Idle && c'.all[id].state != HalfClosedLocal
    ensures Lived(log + [x], c')
  {
    hide Accounts, Obeys, LaterRec, LifeOf;
    forall id | id in c'.all ensures LifeOf(log + [x], id, c'.all[id]) {
      if id in c.all { LifeGoesOn(log, id, c.all[id], x, c'.all[id]); } else { LifeBegins(log, id, x, c'.all[id]); }
    }
    forall id: nat | Peer(log + [x], id) != Sending ensures id in c'.all {
      PeerNext(log, x, id);
    }
    if x.e.Data? && Peer(log, x.e.id) == Ended { EndedIsNotOpen(log, x.e.id, c.all[x.e.id]); }
    EndGoesOn(log, x);
  }

  lemma LivedOn(log: seq<Entry>, c: Conn, x: Entry, c': Conn)
    requires Lived(log, c) && Moves(c, x, c') && Goes(c, c') && Laws(c')
    ensures Lived(log + [x], c')
  {
    forall id | id in c'.all ensures c'.all[id].state != Idle && c'.all[id].state != HalfClosedLocal { LawsOf(c', id); }
    hide Laws, Lived, Moves;
    LivedNext(log, c, x, c');
  }

  lemma EndedIsNotOpen(log: seq<Entry>, id: nat, r: StreamRec)
    requires LifeOf(log, id, r) && Peer(log, id) == Ended
    ensures r.state != Open
  {
  }

  // ---------------------------------------------------------------- which steps do

  /** An entry that says nothing of a stream. */
  predicate Silent(x: Entry, id: nat) {
    !Closes(x, id) && !SaysEnd(x, id) && !(x.e.Continuation? && x.e.id == id) && x.e != BodyClose(id)
  }

  lemma NothingMoved(r: StreamRec, x: Entry, id: nat)
    requires Silent(x, id)
    ensures Accounts(r, x, id, r) && Obeys(r, x, id, r)
  {
  }

  /** A step that changes one stream's record only, as its entry says. */
  lemma MovesOne(c: Conn, x: Entry, c': Conn, id: nat)
    requires c.all.Keys <= c'.all.Keys <= c.all.Keys + {id}
    requires forall k :: k in c.all && k != id ==> c'.all[k] == c.all[k]
    requires forall k :: k != id ==> Silent(x, k)
    requires id in c'.all ==> Accounts(Before(c, id), x, id, c'.all[id]) && Obeys(Before(c, id), x, id, c'.all[id])
    requires x.out == Done && SaysEnd(x, id) ==> id in c'.all
    requires x.e.Data? ==> if x.e.id in c.all then Taken(c.all[x.e.id], x) else x.out == StreamError(x.e.id)
    requires x.e.Wrote? ==> x.e.id in c.all
    ensures Moves(c, x, c')
  {
    hide Accounts, Obeys, Silent;
    forall k | k in c'.all ensures Accounts(Before(c, k), x, k, c'.all[k]) && Obeys(Before(c, k), x, k, c'.all[k]) {
      if k != id { NothingMoved(c.all[k], x, k); }
    }
    forall k: nat | k != id ensures !SaysEnd(x, k) { assert Silent(x, k); SilentSaysNoEnd(x, k); }
  }

  lemma SilentSaysNoEnd(x: Entry, id: nat)
    requires Silent(x, id)
    ensures !SaysEnd(x, id)
  {
  }

  /** HEADERS, before what is refused is reset. */
  lemma HeadersMove(c: Conn, id: nat, ended: bool, endHeaders: bool, block: Block, inGoAway: bool)
    requires c.streams <= c.all.Keys && (id in c.all ==> id <= c.max)
    ensures var (c', out) := AfterHeaders(c, id, ended, endHeaders, block, inGoAway);
      var x := Entry(Headers(id, ended, endHeaders, block), out, []);
      && (id in c'.all ==> Accounts(Before(c, id), x, id, c'.all[id]))
      && (id in c'.all && !out.StreamError? ==> Obeys(Before(c, id), x, id, c'.all[id]))
      && (out == Done && ended ==> id in c'.all) && (out.StreamError? ==> id in c'.streams)
  {
  }

  lemma ContinuationMoves(c: Conn, id: nat, endHeaders: bool, block: Block)
    requires id in c.all && (c.all[id].state == Open || c.all[id].state == HalfClosedRemote)
    ensures var (c', out) := if c.all[id].gotTrailer then AfterTrailerBlock(c, id, endHeaders, block)
                             else AfterBlock(c, id, endHeaders, block);
      var x := Entry(Continuation(id, endHeaders, block), out, []);
      && id in c'.all && Accounts(c.all[id], x, id, c'.all[id])
      && (!out.StreamError? ==> Obeys(c.all[id], x, id, c'.all[id]))
  {
    hide *;
    if c.all[id].gotTrailer {
      TrailersMove(c, id, endHeaders, block);
    } else {
      BlockMoves(c, id, endHeaders, block);
    }
  }

  lemma TrailersMove(c: Conn, id: nat, endHeaders: bool, block: Block)
    requires id in c.all && c.all[id].gotTrailer && (c.all[id].state == Open || c.all[id].state == HalfClosedRemote)
    ensures var (c', out) := AfterTrailerBlock(c, id, endHeaders, block);
      var x := Entry(Continuation(id, endHeaders, block), out, []);
      && id in c'.all && Accounts(c.all[id], x, id, c'.all[id])
      && (!out.StreamError? ==> Obeys(c.all[id], x, id, c'.all[id]))
  {
  }

  lemma BlockMoves(c: Conn, id: nat, endHeaders: bool, block: Block)
    requires id in c.all && !c.all[id].gotTrailer && (c.all[id].state == Open || c.all[id].state == HalfClosedRemote)
    ensures var (c', out) := AfterBlock(c, id, endHeaders, block);
      var x := Entry(Continuation(id, endHeaders, block), out, []);
      && id in c'.all && Accounts(c.all[id], x, id, c'.all[id])
      && (!out.StreamError? ==> Obeys(c.all[id], x, id, c'.all[id]))
  {
  }

  /** What is then reset is closed. */
  lemma ResetMoves(r: StreamRec, x: Entry, id: nat, r': StreamRec, r'': StreamRec)
    requires Accounts(r, x, id, r') && x.out == StreamError(id)
    requires r''.state == Closed && r''.gotReset == r'.gotReset
    requires r''.hasBody == r'.hasBody && r''.declBodyBytes == r'.declBodyBytes && r''.complete == r'.complete
    requires r''.sentReset && !x.e.Rst? && !x.e.BodyClose?
    ensures Accounts(r, x, id, r'') && Obeys(r, x, id, r'')
  {
  }

  lemma StoredMoves(r: StreamRec, id: nat, data: seq<Byte>, ended: bool)
    ensures var x := Entry(Data(id, data, ended), Done, []);
      var r' := AfterData(r, Stored, data, ended);
      Accounts(r, x, id, r') && Obeys(r, x, id, r')
  {
  }

  /** A step that changes nothing of a record that lives are about. */
  predicate SameLife(r: StreamRec, r': StreamRec) {
    && r'.state == r.state && r'.gotTrailer == r.gotTrailer && r'.gotReset == r.gotReset && r'.sentReset == r.sentReset
    && r'.hasBody == r.hasBody && r'.declBodyBytes == r.declBodyBytes && r'.complete == r.complete
  }

  lemma SameLifeMoves(r: StreamRec, x: Entry, id: nat, r': StreamRec)
    requires SameLife(r, r') && (Silent(x, id) || (x.e == BodyClose(id) && x.out == Done && (r.hasBody ==> r'.bodyErr)))
    ensures Accounts(r, x, id, r') && Obeys(r, x, id, r')
  {
  }

  lemma ShiftedMoves(c: Conn, x: Entry, c': Conn, done: set<nat>, growth: int)
    requires Shifted(c.all, c'.all, done, growth) && x.e.InitialWindow? && !x.out.StreamError?
    ensures Moves(c, x, c')
  {
    hide Accounts, Obeys;
    forall id | id in c'.all
      ensures Accounts(Before(c, id), x, id, c'.all[id]) && Obeys(Before(c, id), x, id, c'.all[id])
    {
      SameLifeMoves(c.all[id], x, id, c'.all[id]);
    }
  }

  /** A stream that was in the table has left it, closed by a reset that was sent; one that was not is as it was. */
  ghost predicate WasReset(c: Conn, c': Conn, id: nat) {
    && (id in c'.all <==> id in c.all) && id !in c'.streams
    && (id in c.streams && id in c.all ==>
      c'.all[id] == c.all[id].(state := Closed, bodyErr := true, sentReset := true))
    && (id !in c.streams && id in c.all ==> c'.all[id] == c.all[id])
  }

  /** One record is replaced by one with the same life. */
  lemma QuietMoves(c: Conn, x: Entry, c': Conn, id: nat)
    requires id in c.all && id in c'.all && c'.all == c.all[id := c'.all[id]] && SameLife(c.all[id], c'.all[id])
    requires x.e.Released? || x.e.BodyRead? || x.e.BodyClose? || x.e.NoteRead? || x.e.WindowUpdate?
    requires x.out == Done && (x.e.BodyClose? ==> x.e.id == id && (c.all[id].hasBody ==> c'.all[id].bodyErr))
    ensures Moves(c, x, c')
  {
    SameLifeMoves(c.all[id], x, id, c'.all[id]);
    hide Accounts, Obeys;
    MovesOne(c, x, c', id);
  }

  lemma GrantMoves(c: Conn, id: nat, inc: nat, c': Conn)
    requires c.streams <= c.all.Keys && (c', Done) == AfterWindowUpdate(c, id, inc)
    ensures Moves(c, Entry(WindowUpdate(id, inc), Done, []), c')
  {
    var x := Entry(WindowUpdate(id, inc), Done, []);
    hide Accounts, Obeys;
    if id == 0 {
      if 0 in c.all { SameLifeMoves(c.all[0], x, 0, c.all[0]); }
      MovesOne(c, x, c', 0);
    } else {
      QuietMoves(c, x, c', id);
    }
  }

  /** An error of a stream that has left everything alone but for the reset, or an error of the connection. */
  lemma ErrorMoves(c: Conn, x: Entry, c': Conn, id: nat)
    requires x.e.WindowUpdate? || x.e.BadFrame? || (x.e.Data? && x.e.id == id && x.out == StreamError(id))
    requires if x.out == StreamError(id) then Kept(c, c', id) && WasReset(c, c', id)
             else (x.out == ConnError || x.out == Ignored) && c'.all == c.all
    requires id in c.all && id !in c.streams ==> c.all[id].state == Closed
    ensures Moves(c, x, c')
  {
    if id in c.all {
      if x.out != StreamError(id) { SameLifeMoves(c.all[id], x, id, c'.all[id]); }
      if x.out == StreamError(id) && id in c.streams { ResetMoves(c.all[id], x, id, c.all[id], c'.all[id]); }
    }
    hide Accounts;
    MovesOne(c, x, c', id);
  }

  lemma RstMoves(c: Conn, id: nat, out: Outcome, c': Conn)
    requires id in c.streams ==> id in c.all && c.cur > 0
    requires c' == if id in c.streams then AfterClose(c, id, false, true) else c
    requires id in c.all && id !in c.streams ==> c.all[id].state == Closed
    requires out == Done || out == ConnError
    ensures Moves(c, Entry(Rst(id), out, []), c')
  {
    MovesOne(c, Entry(Rst(id), out, []), c', id);
  }

  lemma WroteMoves(c: Conn, id: nat, endsStream: bool, c': Conn)
    requires id in c.all && (id in c.streams ==> c.cur > 0) && (id !in c.streams ==> c.all[id].state == Closed)
    requires c' == if endsStream && id in c.streams then AfterClose(c, id, c.all[id].state == Open, false) else c
    ensures Moves(c, Entry(Wrote(id, endsStream), Done, []), c')
  {
    MovesOne(c, Entry(Wrote(id, endsStream), Done, []), c', id);
  }

  lemma StoredLived(c: Conn, id: nat, data: seq<Byte>, ended: bool, c': Conn)
    requires id in c.all && Judge(c.all[id], data, c.inflow) == Stored
    requires c'.all == c.all[id := AfterData(c.all[id], Stored, data, ended)]
    ensures Moves(c, Entry(Data(id, data, ended), Done, []), c')
  {
    StoredMoves(c.all[id], id, data, ended);
    hide Accounts, Obeys, AfterData;
    MovesOne(c, Entry(Data(id, data, ended), Done, []), c', id);
  }

  lemma FailedMoves(c: Conn, id: nat, data: seq<Byte>, ended: bool)
    requires id in c.all && c.all[id].state == Open && !c.all[id].gotTrailer
    ensures Moves(c, Entry(Data(id, data, ended), Panic, []), c)
  {
    MovesOne(c, Entry(Data(id, data, ended), Panic, []), c, id);
  }

  /** DATA that is refused may change its stream's record before the reset, but not its life. */
  lemma RefusedMoves(c: Conn, id: nat, data: seq<Byte>, ended: bool, v: Verdict, c': Conn, c'': Conn)
    requires id in c.all && v != Stored && c'.cur > 0
    requires c'.all == c.all[id := AfterData(c.all[id], v, data, ended)] && c'' == AfterClose(c', id, true, false)
    ensures Moves(c, Entry(Data(id, data, ended), StreamError(id), []), c'')
  {
    var x := Entry(Data(id, data, ended), StreamError(id), []);
    ResetMoves(c.all[id], x, id, c.all[id], c''.all[id]);
    hide Accounts, Obeys;
    MovesOne(c, x, c'', id);
  }

  // ---------------------------------------------------------------- what it comes to

  /** No request has more of a body than it declared. */
  lemma LengthIsKept(log: seq<Entry>, c: Conn, id: nat) returns (n: int)
    requires Lived(log, c) && Balanced(log, c) && Laws(c) && id in c.all && BooksOf(log, id).stored != []
    ensures exists x :: x in log && HasRequest(x, id, n)
    ensures n != -1 ==> |BooksOf(log, id).stored| <= n
  {
    hide Laws;
    n := c.all[id].declBodyBytes;
    LawsOf(c, id);
    BooksTell(log, c, id);
    assert LifeOf(log, id, c.all[id]);
  }

  /** A body that is held to be whole is: the peer has ended the stream, and has sent what it declared. */
  lemma WholeBody(log: seq<Entry>, c: Conn, id: nat) returns (n: int)
    requires Lived(log, c) && Balanced(log, c) && Laws(c) && id in c.all && c.all[id].complete
    ensures exists x :: x in log && SaysEnd(x, id)
    ensures exists x :: x in log && HasRequest(x, id, n)
    ensures n == -1 || |BooksOf(log, id).stored| == n
  {
    hide Laws;
    n := c.all[id].declBodyBytes;
    LawsOf(c, id);
    BooksTell(log, c, id);
    assert LifeOf(log, id, c.all[id]);
  }
}

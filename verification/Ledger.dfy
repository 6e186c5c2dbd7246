/** What a connection's counters mean: a history of what the serve loop was told and answered, and the books
    kept from it, stream by stream.  A stream's record tells what its books tell. */
module Ledger {
  import opened Utf8
  import opened ServerLaws

  /** What the serve loop hears from the peer, from the frame writer and from handlers. */
  datatype Event =
    | Headers(id: nat, ended: bool, endHeaders: bool, block: Block)
    | Continuation(id: nat, endHeaders: bool, block: Block)
    | Data(id: nat, data: seq<Byte>, ended: bool)
    | WindowUpdate(id: nat, inc: nat)
    | InitialWindow(val: nat)
    | Rst(id: nat)
    | BadFrame(error: Outcome)
    | Released(id: nat, n: nat)
    | Wrote(id: nat, endsStream: bool)
    | BodyRead(id: nat, max: nat)
    | BodyClose(id: nat)
    | NoteRead(id: nat, n: nat)

  /** An event, what came of it, and the bytes that were handed out. */
  datatype Entry = Entry(e: Event, out: Outcome, data: seq<Byte>)

  /** What a history says of a stream (or, under 0, of the connection): increments accepted, bytes released,
      bytes stored in its body, bytes read by its handler, how many of those were noted. */
  datatype Books = Books(credit: nat, debit: nat, stored: seq<Byte>, read: seq<Byte>, noted: nat)

  function Post(b: Books, x: Entry, id: nat): Books {
    if !Touches(x, id) then b else
    match x.e
    case WindowUpdate(_, inc) => b.(credit := b.credit + inc)
    case Released(_, n) => b.(debit := b.debit + n)
    case Data(_, data, _) => b.(stored := b.stored + data)
    case BodyRead(_, _) => b.(read := b.read + x.data)
    case NoteRead(_, n) => b.(noted := b.noted + n)
    case _ => b
  }

  /** An entry changes a stream's books. */
  predicate Touches(x: Entry, id: nat) {
    match x.e
    case WindowUpdate(k, _) => k == id && x.out == Done
    case Data(k, _, _) => k == id && x.out == Done
    case Released(k, _) => k == id
    case BodyRead(k, _) => k == id
    case NoteRead(k, _) => k == id
    case _ => false
  }

  function BooksOf(log: seq<Entry>, id: nat): Books {
    if log == [] then Books(0, 0, [], [], 0) else Post(BooksOf(log[..|log| - 1], id), log[|log| - 1], id)
  }

  lemma {:induction false} Posted(log: seq<Entry>, x: Entry, id: nat)
    ensures BooksOf(log + [x], id) == Post(BooksOf(log, id), x, id)
  {
    assert (log + [x])[..|log|] == log;
  }

  lemma PostsNothing(b: Books, x: Entry, id: nat)
    requires !Touches(x, id)
    ensures Post(b, x, id) == b
  {
  }

  lemma PostsCredit(b: Books, x: Entry)
    requires x.e.WindowUpdate? && x.out == Done
    ensures Post(b, x, x.e.id).credit == b.credit + x.e.inc
  {
  }

  /** A record tells what the books tell; what was stored is what was read and then what is unread. */
  ghost predicate Told(b: Books, r: StreamRec) {
    && r.granted == b.credit && r.taken == b.debit
    && b.stored == b.read + r.body && r.bodyBytes == |b.stored|
    && r.unnoted == |b.read| - b.noted
  }

  ghost predicate Balanced(log: seq<Entry>, c: Conn) {
    && 0 !in c.all && c.granted == BooksOf(log, 0).credit
    && (forall id :: id in c.all ==> Told(BooksOf(log, id), c.all[id]))
    && (forall id: nat {:trigger BooksOf(log, id)} :: id !in c.all && id != 0 ==>
      BooksOf(log, id) == Books(0, 0, [], [], 0))
  }

  lemma {:induction false} BooksTell(log: seq<Entry>, c: Conn, id: nat)
    requires Balanced(log, c) && id in c.all
    ensures Told(BooksOf(log, id), c.all[id]) && 0 !in c.all
  {
  }

  /** Two records that tell the same. */
  predicate SameBooks(r: StreamRec, r': StreamRec) {
    && r.granted == r'.granted && r.taken == r'.taken && r.body == r'.body
    && r.bodyBytes == r'.bodyBytes && r.unnoted == r'.unnoted
  }

  /** All records but one tell the same, and a new one tells nothing. */
  ghost predicate SameBut(c: Conn, c': Conn, id: nat) {
    && 0 !in c'.all && c.all.Keys <= c'.all.Keys
    && (forall k :: k in c.all && k != id ==> SameBooks(c.all[k], c'.all[k]))
    && (forall k :: k in c'.all && k !in c.all ==> SameBooks(Opened(false, 0), c'.all[k]))
  }

  /** Only the record of id may have changed, and what its window and its body hold has not; if it is new, they are
      the initial window and nothing. */
  ghost predicate Kept(c: Conn, c': Conn, id: nat) {
    && c'.flow == c.flow && c'.init == c.init && c.streams <= c'.streams + {id}
    && c.all.Keys <= c'.all.Keys <= c.all.Keys + {id}
    && (forall k :: k in c.all && k != id ==> c'.all[k] == c.all[k])
    && (id in c.all ==> c'.all[id].flow == c.all[id].flow && c'.all[id].body == c.all[id].body)
    && (id in c'.all && id !in c.all ==> c'.all[id].flow == c.init && c'.all[id].body == [])
  }

  /** A step that is not about windows or the bytes of bodies. */
  ghost predicate Steady(c: Conn, c': Conn, id: nat) {
    SameBut(c, c', 0) && c'.granted == c.granted && Kept(c, c', id)
  }

  /** An entry that touches only the books of id, which must tell the new record. */
  lemma {:induction false} BalancedOn(log: seq<Entry>, c: Conn, x: Entry, id: nat, c': Conn)
    requires Balanced(log, c) && SameBut(c, c', id) && c'.granted == c.granted && id in c.all
    requires forall k :: k != id ==> !Touches(x, k)
    requires Told(Post(BooksOf(log, id), x, id), c'.all[id])
    ensures Balanced(log + [x], c')
  {
    forall k: nat
      ensures BooksOf(log + [x], k) == if k == id then Post(BooksOf(log, id), x, id) else BooksOf(log, k)
    {
      Posted(log, x, k);
    }
    forall k | k in c'.all ensures Told(BooksOf(log + [x], k), c'.all[k]) {
      if k in c.all { assert Told(BooksOf(log, k), c.all[k]); }
    }
  }

  /** An entry that touches no books. */
  lemma BalancedStill(log: seq<Entry>, c: Conn, x: Entry, c': Conn)
    requires Balanced(log, c) && SameBut(c, c', 0) && c'.granted == c.granted
    requires forall k :: !Touches(x, k)
    ensures Balanced(log + [x], c')
  {
    forall k: nat ensures BooksOf(log + [x], k) == BooksOf(log, k) { Posted(log, x, k); }
    forall k | k in c'.all ensures Told(BooksOf(log + [x], k), c'.all[k]) {
      if k in c.all { assert Told(BooksOf(log, k), c.all[k]); }
    }
  }

  /** An entry that touches the connection's books. */
  lemma BalancedConn(log: seq<Entry>, c: Conn, x: Entry, c': Conn)
    requires Balanced(log, c) && c'.all == c.all && x.e.WindowUpdate? && x.e.id == 0 && x.out == Done
    requires c'.granted == c.granted + x.e.inc
    ensures Balanced(log + [x], c')
  {
    hide Told, Post;
    Posted(log, x, 0);
    PostsCredit(BooksOf(log, 0), x);
    forall k: nat | k != 0 ensures BooksOf(log + [x], k) == BooksOf(log, k) {
      Posted(log, x, k);
      PostsNothing(BooksOf(log, k), x, k);
    }
  }

  // One record changed.

  lemma SameButOne(c: Conn, c': Conn, id: nat)
    requires 0 !in c.all && id in c.all && id in c'.all && c'.all == c.all[id := c'.all[id]]
    ensures SameBut(c, c', id)
    ensures SameBooks(c.all[id], c'.all[id]) ==> SameBut(c, c', 0)
  {
  }

  lemma SteadyOne(c: Conn, c': Conn, id: nat)
    requires 0 !in c.all && id in c.all && id in c'.all && c'.all == c.all[id := c'.all[id]]
    requires SameBooks(c.all[id], c'.all[id]) && c'.all[id].flow == c.all[id].flow
    requires c'.granted == c.granted && c'.flow == c.flow && c'.init == c.init && c.streams <= c'.streams + {id}
    ensures Steady(c, c', id)
  {
  }

  lemma KeptOne(c: Conn, c': Conn, id: nat)
    requires id in c.all && id in c'.all && c'.all == c.all[id := c'.all[id]] && c'.flow == c.flow && c'.init == c.init
    requires c.streams <= c'.streams + {id}
    requires c'.all[id].flow == c.all[id].flow && c'.all[id].body == c.all[id].body
    ensures Kept(c, c', id)
  {
  }

  lemma SameButShifted(c: Conn, c': Conn, done: set<nat>, growth: int)
    requires 0 !in c.all && Shifted(c.all, c'.all, done, growth)
    ensures SameBut(c, c', 0)
  {
  }

  lemma SteadyTwice(c: Conn, c': Conn, c'': Conn, id: nat)
    requires Steady(c, c', id) && Steady(c', c'', id)
    ensures Steady(c, c'', id)
  {
  }

  lemma SteadyNowhere(c: Conn, id: nat)
    requires 0 !in c.all
    ensures Steady(c, c, id)
  {
  }

  // What the steps that are not about bytes or windows leave alone.

  lemma CloseBooks(c: Conn, id: nat, sentReset: bool, gotReset: bool)
    requires 0 !in c.all && id in c.all && c.cur > 0
    ensures Steady(c, AfterClose(c, id, sentReset, gotReset), id)
  {
    SteadyOne(c, AfterClose(c, id, sentReset, gotReset), id);
  }

  lemma BlockBooks(c: Conn, id: nat, endHeaders: bool, block: Block)
    requires 0 !in c.all && id in c.all
    ensures Steady(c, AfterBlock(c, id, endHeaders, block).0, id)
  {
    SteadyOne(c, AfterBlock(c, id, endHeaders, block).0, id);
  }

  lemma TrailerBlockBooks(c: Conn, id: nat, endHeaders: bool, block: Block)
    requires 0 !in c.all && id in c.all
    ensures Steady(c, AfterTrailerBlock(c, id, endHeaders, block).0, id)
  {
    SteadyOne(c, AfterTrailerBlock(c, id, endHeaders, block).0, id);
  }

  lemma TrailerBooks(c: Conn, id: nat, endHeaders: bool, block: Block)
    requires 0 !in c.all && id in c.all
    ensures Steady(c, AfterTrailer(c, id), id)
    ensures Steady(c, AfterTrailerBlock(AfterTrailer(c, id), id, endHeaders, block).0, id)
  {
    hide Steady, AfterTrailerBlock;
    SteadyOne(c, AfterTrailer(c, id), id);
    TrailerBlockBooks(AfterTrailer(c, id), id, endHeaders, block);
    SteadyTwice(c, AfterTrailer(c, id), AfterTrailerBlock(AfterTrailer(c, id), id, endHeaders, block).0, id);
  }

  lemma OpenBooks(c: Conn, id: nat, ended: bool)
    requires 0 !in c.all && id !in c.all && id != 0
    ensures Steady(c, AfterOpen(c, id, ended), id)
  {
  }

  lemma HeadersBooks(c: Conn, id: nat, ended: bool, endHeaders: bool, block: Block, inGoAway: bool)
    requires 0 !in c.all && c.streams <= c.all.Keys && (id in c.all ==> id <= c.max)
    ensures Steady(c, AfterHeaders(c, id, ended, endHeaders, block, inGoAway).0, id)
  {
    hide Steady, AfterTrailerBlock, AfterBlock;
    SteadyNowhere(c, id);
    if inGoAway || id % 2 != 1 {
    } else if id in c.streams {
      TrailerBooks(c, id, endHeaders, block);
    } else if id > c.max && c.pending == 0 {
      OpenBooks(c, id, ended);
      BlockBooks(AfterOpen(c, id, ended), id, endHeaders, block);
      SteadyTwice(c, AfterOpen(c, id, ended), AfterBlock(AfterOpen(c, id, ended), id, endHeaders, block).0, id);
    }
  }

  // What the others do is told.

  lemma ToldGrant(b: Books, r: StreamRec, inc: nat)
    requires Told(b, r)
    ensures Told(b.(credit := b.credit + inc), WithGrant(r, inc))
  {
  }

  lemma ToldRelease(b: Books, r: StreamRec, n: nat)
    requires Told(b, r)
    ensures Told(b.(debit := b.debit + n), WithRelease(r, n))
  {
  }

  lemma ToldStored(b: Books, r: StreamRec, data: seq<Byte>, ended: bool)
    requires Told(b, r)
    ensures Told(b.(stored := b.stored + data), AfterData(r, Stored, data, ended))
  {
    assert b.stored + data == b.read + (r.body + data);
  }

  lemma ToldRead(b: Books, r: StreamRec, n: nat)
    requires Told(b, r) && n <= |r.body|
    ensures Told(b.(read := b.read + r.body[..n]), HandedOut(r, n))
  {
    assert b.read + r.body == b.read + r.body[..n] + r.body[n..];
  }

  lemma ToldNoted(b: Books, r: StreamRec, n: nat)
    requires Told(b, r) && n <= r.unnoted
    ensures Told(b.(noted := b.noted + n), Noted(r, n))
  {
  }

  /** What releasing, reading or noting bytes makes of a record. */
  ghost predicate OneStep(r: StreamRec, e: Event, data: seq<Byte>, r': StreamRec) {
    match e
    case Released(_, n) => r' == WithRelease(r, n)
    case BodyRead(_, _) => |data| <= |r.body| && data == r.body[..|data|] && r' == HandedOut(r, |data|)
    case NoteRead(_, n) => n <= r.unnoted && r' == Noted(r, n)
    case _ => false
  }

  lemma PostTold(b: Books, r: StreamRec, e: Event, data: seq<Byte>, r': StreamRec)
    requires Told(b, r) && OneStep(r, e, data, r')
    ensures Told(Post(b, Entry(e, Done, data), e.id), r')
  {
    hide Told, WithRelease, HandedOut, Noted;
    match e
    case Released(_, n) => ToldRelease(b, r, n);
    case BodyRead(_, _) => ToldRead(b, r, |data|);
    case NoteRead(_, n) => ToldNoted(b, r, n);
  }

  /** DATA that is not stored changes no books. */
  lemma RefusedBooks(r: StreamRec, v: Verdict, data: seq<Byte>, ended: bool)
    requires v != Stored && v != BodyFull
    ensures SameBooks(r, AfterData(r, v, data, ended)) && AfterData(r, v, data, ended).flow == r.flow
    ensures LaterRec(r, AfterData(r, v, data, ended))
  {
  }
}

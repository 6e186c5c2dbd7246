/** The frame scheduler (net/http2/writesched.go): per-stream queues of frames, from which DATA is
    split to fit the windows and the frame size. */
module WriteSched {
  import opened Utf8
  import opened Flow
  import opened Streams

  // ---------------------------------------------------------------- what a queue still has to say

  /** A queue's content with the boundaries between DATA chunks erased: octets, the end of a
      write with what it reports, and frames that are never split. */
  datatype Unit = Octet(b: Byte) | Finish(endStream: bool, done: nat) | Whole(m: Msg)

  function Octets(p: seq<Byte>): (u: seq<Unit>)
    ensures |u| == |p|
  {
    seq(|p|, k requires 0 <= k < |p| => Octet(p[k]))
  }

  function UnitsOf(m: Msg): seq<Unit> {
    match m.write
    case WriteData(p, e) => Octets(p) + [Finish(e, m.done)]
    case _ => [Whole(m)]
  }

  function Units(ms: seq<Msg>): seq<Unit> {
    if ms == [] then [] else UnitsOf(ms[0]) + Units(ms[1..])
  }

  /** What a taken frame says: a chunk that leaves octets behind has no end. */
  function UnitsTaken(m: Msg, part: bool): seq<Unit> {
    if part && m.write.WriteData? then Octets(m.write.p) else UnitsOf(m)
  }

  lemma OctetsSplit(p: seq<Byte>, k: nat)
    requires k <= |p|
    ensures Octets(p) == Octets(p[..k]) + Octets(p[k..])
  {
  }

  lemma {:induction false} UnitsAppend(a: seq<Msg>, b: seq<Msg>)
    ensures Units(a + b) == Units(a) + Units(b)
  {
    if a == [] {
      assert a + b == b;
    } else {
      assert (a + b)[1..] == a[1..] + b;
      UnitsAppend(a[1..], b);
    }
  }

  lemma {:induction false} UnitsSnoc(ms: seq<Msg>, m: Msg)
    ensures Units(ms + [m]) == Units(ms) + UnitsOf(m)
  {
    UnitsAppend(ms, [m]);
    assert Units([m]) == UnitsOf(m) by { assert [m][1..] == []; }
  }

  // ---------------------------------------------------------------- histories

  /** What has been done to a scheduler. */
  datatype Event = Added(m: Msg) | Taken(m: Msg, part: bool) | Forgot(id: nat)

  datatype Key = Control | OfStream(id: nat)

  function KeyOf(m: Msg): Key {
    if m.stream == null then Control else OfStream(m.stream.id)
  }

  /** All that was added under k since the stream was last forgotten. */
  function Put(log: seq<Event>, k: Key): seq<Unit> {
    if log == [] then [] else
    var before := Put(log[..|log| - 1], k);
    match log[|log| - 1]
    case Added(m) => if KeyOf(m) == k then before + UnitsOf(m) else before
    case Taken(_, _) => before
    case Forgot(id) => if k == OfStream(id) then [] else before
  }

  /** All that was taken from k since the stream was last forgotten. */
  function Got(log: seq<Event>, k: Key): seq<Unit> {
    if log == [] then [] else
    var before := Got(log[..|log| - 1], k);
    match log[|log| - 1]
    case Added(_) => before
    case Taken(m, part) => if KeyOf(m) == k then before + UnitsTaken(m, part) else before
    case Forgot(id) => if k == OfStream(id) then [] else before
  }

  /** What was taken, followed by what is queued, is what was added: in order, nothing lost,
      nothing twice. */
  ghost predicate Conserved(log: seq<Event>, k: Key, queued: seq<Msg>) {
    Put(log, k) == Got(log, k) + Units(queued)
  }

  lemma ConservedAdd(log: seq<Event>, m: Msg, k: Key, queued: seq<Msg>)
    requires Conserved(log, k, queued)
    ensures Conserved(log + [Added(m)], k, if KeyOf(m) == k then queued + [m] else queued)
  {
    var log' := log + [Added(m)];
    assert log'[..|log|] == log && log'[|log|] == Added(m);
    if KeyOf(m) == k {
      UnitsSnoc(queued, m);
      assert (Got(log, k) + Units(queued)) + UnitsOf(m) == Got(log, k) + (Units(queued) + UnitsOf(m));
      assert Put(log', k) == Put(log, k) + UnitsOf(m);
      assert Got(log', k) == Got(log, k);
    }
  }

  lemma {:induction false} ConservedTake(log: seq<Event>, m: Msg, part: bool, k: Key, queued: seq<Msg>,
                                         queued': seq<Msg>)
    requires Conserved(log, k, queued)
    requires if KeyOf(m) == k then Units(queued) == UnitsTaken(m, part) + Units(queued') else queued == queued'
    ensures Conserved(log + [Taken(m, part)], k, queued')
  {
    var log' := log + [Taken(m, part)];
    assert log'[..|log|] == log;
    if KeyOf(m) == k {
      assert Got(log', k) + Units(queued') == Got(log, k) + (UnitsTaken(m, part) + Units(queued'));
    }
  }

  lemma ConservedForget(log: seq<Event>, id: nat, k: Key, queued: seq<Msg>)
    requires Conserved(log, k, queued)
    ensures Conserved(log + [Forgot(id)], k, if k == OfStream(id) then [] else queued)
  {
    var log' := log + [Forgot(id)];
    assert log'[..|log|] == log;
  }

  // ---------------------------------------------------------------- queues

  class WriteQueue {
    var s: seq<Msg>

    constructor ()
      ensures s == []
    {
      s := [];
    }

    method Push(m: Msg)
      modifies this
      ensures s == old(s) + [m]
    {
      s := s + [m];
    }

    method Shift() returns (m: Msg)
      requires s != []
      modifies this
      ensures m == old(s)[0] && s == old(s)[1..]
    {
      m := s[0];
      s := s[1..];
    }
  }

  class WriteScheduler {
    const zero: WriteQueue
    var maxFrameSize: nat
    var sq: map<nat, WriteQueue>
    var canSend: seq<WriteQueue>
    var queuePool: seq<WriteQueue>
    // every queue the scheduler has made, and all that was done to it
    ghost var queues: set<WriteQueue>
    ghost var log: seq<Event>

    /** The shape of the heap, without what holds only between calls. */
    ghost predicate WellFormed()
      reads this`sq, this`queuePool, this`queues, this`maxFrameSize, queues
    {
      && 1 <= maxFrameSize <= MAX_WINDOW
      && zero in queues && (forall k :: 0 <= k < |zero.s| ==> zero.s[k].stream == null)
      && (forall id :: id in sq ==> sq[id] in queues && sq[id] != zero && Addressed(sq[id].s, id))
      && (forall k :: 0 <= k < |queuePool| ==> queuePool[k] in queues && queuePool[k] != zero && queuePool[k].s == [])
      && (forall id, k :: id in sq && 0 <= k < |queuePool| ==> sq[id] != queuePool[k])
      && (forall id, id' :: id in sq && id' in sq && id != id' ==> sq[id] != sq[id'])
      && (forall k, k' :: 0 <= k < k' < |queuePool| ==> queuePool[k] != queuePool[k'])
    }

    /** Between calls: stream queues are non-empty, distinct and hold only their stream's frames;
        pooled queues are empty, distinct and not in use; canSend is empty. */
    ghost predicate Valid()
      reads this, queues
    {
      Loaded() && canSend == []
    }

    ghost predicate Loaded()
      reads this`sq, this`queuePool, this`queues, this`maxFrameSize, queues
    {
      WellFormed() && forall id :: id in sq ==> sq[id].s != []
    }

    static ghost predicate Addressed(ms: seq<Msg>, id: nat) {
      forall k :: 0 <= k < |ms| ==> ms[k].stream != null && ms[k].stream.id == id
    }

    ghost function Queue(id: nat): seq<Msg>
      requires forall id :: id in sq ==> sq[id] in queues
      reads this`sq, this`queuePool, this`queues, this`maxFrameSize, queues
    {
      if id in sq then sq[id].s else []
    }

    ghost function At(k: Key): seq<Msg>
      requires WellFormed()
      reads this`sq, this`queuePool, this`queues, this`maxFrameSize, queues
    {
      if k.Control? then zero.s else Queue(k.id)
    }

    /** Over the whole history of the scheduler, for every stream and for the control frames. */
    ghost predicate Conserving()
      requires WellFormed()
      reads this`sq, this`queuePool, this`queues, this`maxFrameSize, this`log, queues
    {
      forall k: Key :: Conserved(log, k, At(k))
    }

    constructor (maxFrameSize: nat)
      requires 1 <= maxFrameSize <= MAX_WINDOW
      ensures Valid() && fresh(queues) && log == [] && Conserving()
      ensures zero.s == [] && sq == map[] && this.maxFrameSize == maxFrameSize
    {
      zero := new WriteQueue();
      this.maxFrameSize := maxFrameSize;
      sq, canSend, queuePool := map[], [], [];
      queues, log := {zero}, [];
    }

    method PutEmptyQueue(q: WriteQueue)
      requires WellFormed() && q.s == [] && q != zero && q in queues
      requires forall id :: id in sq ==> sq[id] != q
      requires forall k :: 0 <= k < |queuePool| ==> queuePool[k] != q
      modifies this`queuePool
      ensures WellFormed() && queuePool == old(queuePool) + [q]
    {
      queuePool := queuePool + [q];
    }

    method GetEmptyQueue() returns (q: WriteQueue)
      requires WellFormed()
      modifies this`queuePool, this`queues
      ensures WellFormed() && q.s == [] && q != zero && q in queues
      ensures forall id :: id in sq ==> sq[id] != q
      ensures forall k :: 0 <= k < |queuePool| ==> queuePool[k] != q
      ensures old(queues) <= queues && fresh(queues - old(queues))
    {
      var ln := |queuePool|;
      if ln == 0 {
        q := new WriteQueue();
        queues := queues + {q};
      } else {
        q := queuePool[ln - 1];
        queuePool := queuePool[..ln - 1];
      }
    }

    method StreamQueue(id: nat) returns (q: WriteQueue)
      requires WellFormed()
      modifies this`queuePool, this`queues, this`sq
      ensures WellFormed() && id in sq && sq[id] == q && q != zero
      ensures sq == old(sq)[id := q] && q.s == old(Queue(id))
      ensures old(queues) <= queues && fresh(queues - old(queues))
    {
      if id in sq {
        q := sq[id];
      } else {
        q := GetEmptyQueue();
        sq := sq[id := q];
      }
    }

    /** Appends to the queue of the message's stream, or to the control queue. */
    method Add(m: Msg)
      requires Valid() && Conserving()
      modifies this`queuePool, this`queues, this`sq, this`log, queues
      ensures Valid() && Conserving() && log == old(log) + [Added(m)]
      ensures zero.s == if m.stream == null then old(zero.s) + [m] else old(zero.s)
      ensures forall id ::
        Queue(id) == if m.stream != null && m.stream.id == id then old(Queue(id)) + [m] else old(Queue(id))
      ensures old(queues) <= queues && fresh(queues - old(queues))
    {
      Enqueue(m);
      log := log + [Added(m)];
      forall k: Key ensures Conserved(log, k, At(k)) {
        ConservedAdd(old(log), m, k, old(At(k)));
      }
    }

    method Enqueue(m: Msg)
      requires Valid()
      modifies this`queuePool, this`queues, this`sq, queues
      ensures Valid()
      ensures old(queues) <= queues && fresh(queues - old(queues))
      ensures zero.s == if m.stream == null then old(zero.s) + [m] else old(zero.s)
      ensures forall id ::
        Queue(id) == if m.stream != null && m.stream.id == id then old(Queue(id)) + [m] else old(Queue(id))
    {
      if m.stream == null {
        zero.Push(m);
      } else {
        var q := StreamQueue(m.stream.id);
        q.Push(m);
      }
    }

    /** The message at the head of a stream's queue. */
    ghost function Head(id: nat): (m: Msg)
      requires Loaded() && id in sq
      reads this`sq, this`queuePool, this`queues, this`maxFrameSize, queues
      ensures m.stream != null && m.stream.id == id
    {
      sq[id].s[0]
    }

    /** Taking from this stream would yield a frame. */
    ghost predicate Sendable(id: nat)
      requires Loaded() && id in sq
      reads this`sq, this`queuePool, this`queues, this`maxFrameSize, queues
      reads Head(id).stream.flow, if Head(id).stream.flow.conn == null then {} else {Head(id).stream.flow.conn}
    {
      NoCost(Head(id)) || 0 < Head(id).stream.flow.Available()
    }

    /** The windows of the queued streams are valid and among ws, with their connection's. */
    ghost predicate Draws(ws: set<Window>)
      requires Loaded()
      reads this`sq, this`queuePool, this`queues, this`maxFrameSize, queues, ws
    {
      forall id :: id in sq ==> var f := Head(id).stream.flow;
        f in ws && (f.conn != null ==> f.conn in ws) && f.Valid()
    }

    /** Shifts the head off; an emptied queue goes back to the pool. */
    method TakeHead(id: nat, q: WriteQueue) returns (wm: Msg)
      requires Loaded() && id in sq && sq[id] == q
      modifies this`sq, this`queuePool, q
      ensures Loaded() && queues == old(queues)
      ensures wm == old(Head(id)) && Queue(id) == old(Queue(id))[1..]
      ensures old(Units(Queue(id))) == UnitsOf(wm) + Units(Queue(id)) && SameStreams(Queue(id), old(Queue(id)))
      ensures forall id' :: id' != id ==> Queue(id') == old(Queue(id'))
    {
      wm := q.Shift();
      if q.s == [] {
        sq := sq - {id};
        PutEmptyQueue(q);
      }
    }

    /** Cuts a chunk off the DATA at the head, which stays queued with the rest. */
    method TakeChunk(ghost id: nat, q: WriteQueue, k: nat) returns (wm: Msg)
      requires Loaded() && id in sq && sq[id] == q
      requires Head(id).write.WriteData? && 0 < k < |Head(id).write.p|
      modifies q
      ensures Loaded() && queues == old(queues)
      ensures wm == Msg(WriteData(old(Head(id)).write.p[..k], false), old(Head(id)).stream, 0)
      ensures Queue(id) == [Remainder(old(Head(id)), k)] + old(Queue(id))[1..]
      ensures old(Units(Queue(id))) == UnitsTaken(wm, true) + Units(Queue(id)) && SameStreams(Queue(id), old(Queue(id)))
      ensures forall id' :: id' != id ==> Queue(id') == old(Queue(id'))
    {
      ChunkUnits(q.s, k);
      var head := q.s[0];
      q.s := [Remainder(head, k)] + q.s[1..];
      assert Addressed(q.s, id);
      wm := Msg(WriteData(head.write.p[..k], false), head.stream, 0);
    }

    /** Takes what windows and frame size allow from the head of one queue. */
    method TakeFrom(id: nat, q: WriteQueue) returns (wm: Msg, ok: bool, ghost part: bool)
      requires Loaded() && id in sq && sq[id] == q
      requires Head(id).stream.flow.Valid()
      requires NoCost(Head(id)) || 0 <= Head(id).stream.flow.Available()
      modifies this`sq, this`queuePool, q
      modifies Head(id).stream.flow`n, (if Head(id).stream.flow.conn == null then {} else {Head(id).stream.flow.conn})`n
      ensures Loaded() && queues == old(queues)
      ensures ok <==> old(NoCost(Head(id)) || 0 < Head(id).stream.flow.Available())
      ensures !ok ==> sq == old(sq) && q.s == old(q.s) && queuePool == old(queuePool)
      ensures ok ==>
        old(Units(Queue(id))) == UnitsTaken(wm, part) + Units(Queue(id)) && SameStreams(Queue(id), old(Queue(id)))
      ensures forall id' :: id' != id ==> Queue(id') == old(Queue(id'))
      ensures ok ==> Fits(wm, part, old(Head(id)), old(Head(id).stream.flow.Available()), maxFrameSize)
      ensures wm.stream == old(Head(id)).stream
      ensures wm.stream.flow.n == old(Head(id).stream.flow.n) - (if ok then Cost(wm) else 0)
      ensures wm.stream.flow.conn != null ==>
        wm.stream.flow.conn.n == old(Head(id).stream.flow.conn.n) - (if ok then Cost(wm) else 0)
    {
      hide Units, UnitsOf, SameStreams;
      wm := q.s[0];
      if wm.write.WriteData? && |wm.write.p| > 0 {
        var allowed := wm.stream.flow.Available();
        if allowed == 0 { return wm, false, false; }
        if maxFrameSize < allowed { allowed := maxFrameSize; }
        if |wm.write.p| > allowed {
          wm.stream.flow.Take(allowed);
          wm := TakeChunk(id, q, allowed);
          return wm, true, true;
        }
        wm.stream.flow.Take(|wm.write.p|);
      }
      wm := TakeHead(id, q);
      ok, part := true, false;
    }

    /** The DATA bytes that could be written from this queue if it were chosen. */
    method StreamWritableBytes(q: WriteQueue) returns (n: int)
      requires q.s != [] && q.s[0].stream != null && q.s[0].write.WriteData? && q.s[0].write.p != []
      requires 1 <= maxFrameSize
      ensures n == Least3(q.s[0].stream.flow.Available(), maxFrameSize, |q.s[0].write.p|)
    {
      n := q.s[0].stream.flow.Available();
      if n == 0 { return 0; }
      if maxFrameSize < n { n := maxFrameSize; }
      if |q.s[0].write.p| < n { n := |q.s[0].write.p|; }
    }

    /** A stream whose head costs nothing, in any order of the map. */
    method FindNoCost() returns (found: bool, id: nat)
      requires Loaded()
      ensures found ==> id in sq && NoCost(Head(id))
      ensures !found ==> forall id :: id in sq ==> !NoCost(Head(id))
    {
      var todo := sq.Keys;
      while todo != {}
        invariant todo <= sq.Keys
        invariant forall id :: id in sq && id !in todo ==> !NoCost(Head(id))
        decreases todo
      {
        id :| id in todo;
        if NoCost(sq[id].s[0]) { return true, id; }
        todo := todo - {id};
      }
      return false, 0;
    }

    /** Collects in canSend the queues whose windows are open, and empties it again: the first
        of them is chosen. */
    method FirstCanSend() returns (found: bool, id: nat)
      requires Loaded() && canSend == []
      requires forall id :: id in sq ==> !NoCost(Head(id))
      modifies this`canSend
      ensures canSend == []
      ensures found ==> id in sq && Sendable(id)
      ensures !found ==> forall id :: id in sq ==> !Sendable(id)
    {
      hide Fits;
      var todo := sq.Keys;
      ghost var first := 0;
      while todo != {}
        invariant todo <= sq.Keys
        invariant canSend != [] ==> first in sq && sq[first] == canSend[0] && Sendable(first)
        invariant canSend == [] ==> forall id :: id in sq && id !in todo ==> !Sendable(id)
        decreases todo
      {
        var id :| id in todo;
        assert !NoCost(Head(id));
        var n := StreamWritableBytes(sq[id]);
        if n > 0 {
          if canSend == [] { first := id; }
          canSend := canSend + [sq[id]];
        }
        todo := todo - {id};
      }
      if canSend == [] { return false, 0; }
      id := canSend[0].s[0].stream.id;
      assert id == first by { assert Addressed(sq[first].s, first); }
      canSend := [];
      found := true;
    }

    /** The stream to take from: one whose head costs nothing, else one with open windows. */
    method Choose() returns (found: bool, id: nat)
      requires Valid()
      modifies this`canSend
      ensures canSend == []
      ensures found <==> old(exists id :: id in sq && Sendable(id))
      ensures found ==> id in sq && Sendable(id)
      ensures found && !NoCost(Head(id)) ==> forall id' :: id' in sq ==> !NoCost(Head(id'))
    {
      found, id := FindNoCost();
      if !found {
        found, id := FirstCanSend();
        assert forall id :: id in sq ==> Sendable(id) == old(Sendable(id));
      }
    }

    /** Takes from the streams when there is no control frame. */
    method TakeStream(ghost ws: set<Window>) returns (wm: Msg, ok: bool, ghost part: bool, ghost id: nat)
      requires Valid() && Draws(ws)
      modifies this`sq, this`queuePool, this`canSend, queues - {zero}, ws`n
      ensures Valid() && queues == old(queues)
      ensures ok <==> old(exists id :: id in sq && Sendable(id))
      ensures !ok ==> (forall id :: Queue(id) == old(Queue(id))) && forall w :: w in ws ==> w.n == old(w.n)
      ensures ok ==> id in old(sq) && old(Units(Queue(id))) == UnitsTaken(wm, part) + Units(Queue(id))
      ensures ok ==> SameStreams(Queue(id), old(Queue(id)))
      ensures ok ==> forall id' :: id' != id ==> Queue(id') == old(Queue(id'))
      ensures ok ==> Fits(wm, part, old(Head(id)), old(Head(id).stream.flow.Available()), maxFrameSize)
      ensures ok && !NoCost(wm) ==> forall id' :: id' in old(sq) ==> old(!NoCost(Head(id')))
      ensures ok ==> forall w :: w in ws ==>
        w.n == old(w.n) - (if w == wm.stream.flow || w == wm.stream.flow.conn then Cost(wm) else 0)
    {
      hide Units, UnitsTaken, SameStreams;
      var i;
      ok, i := Choose();
      if !ok { return Msg(OtherFrame(0), null, 0), false, false, 0; }
      id := i;
      wm, ok, part := TakeFrom(i, sq[i]);
    }

    /** The next frame to write: control frames first, then frames that cost nothing, then DATA
        from a stream whose windows are open; fails exactly when there is none of these. */
    method Take(ghost ws: set<Window>) returns (wm: Msg, ok: bool, ghost part: bool, ghost key: Key)
      requires Valid() && Conserving() && Draws(ws)
      modifies this`sq, this`queuePool, this`canSend, this`log, queues, ws`n
      ensures Valid() && Conserving() && queues == old(queues)
      ensures log == if ok then old(log) + [Taken(wm, part)] else old(log)
      ensures ok <==> old(zero.s != [] || exists id :: id in sq && Sendable(id))
      ensures !ok ==> forall k: Key :: At(k) == old(At(k))
      ensures ok ==> key == KeyOf(wm) && old(Units(At(key))) == UnitsTaken(wm, part) + Units(At(key))
      ensures ok ==> SameStreams(At(key), old(At(key)))
      ensures ok ==> forall k: Key :: k != key ==> At(k) == old(At(k))
      ensures ok && key.OfStream? ==> old(zero.s) == [] && key.id in old(sq)
      ensures ok && key.OfStream? ==>
        Fits(wm, part, old(Head(key.id)), old(Head(key.id).stream.flow.Available()), maxFrameSize)
      ensures ok && key.OfStream? && !NoCost(wm) ==> forall id :: id in old(sq) ==> old(!NoCost(Head(id)))
      ensures forall w :: w in ws ==>
        w.n == old(w.n) -
          (if ok && wm.stream != null && (w == wm.stream.flow || w == wm.stream.flow.conn) then Cost(wm) else 0)
    {
      hide Units, UnitsTaken, SameStreams, Fits, Conserved;
      wm, ok, part, key := Select(ws);
      if ok {
        log := log + [Taken(wm, part)];
        forall k: Key ensures Conserved(log, k, At(k)) {
          ConservedTake(old(log), wm, part, k, old(At(k)), At(k));
        }
      }
    }

    method Select(ghost ws: set<Window>) returns (wm: Msg, ok: bool, ghost part: bool, ghost key: Key)
      requires Valid() && Draws(ws)
      modifies this`sq, this`queuePool, this`canSend, queues, ws`n
      ensures Valid() && queues == old(queues)
      ensures ok <==> old(zero.s != [] || exists id :: id in sq && Sendable(id))
      ensures !ok ==> forall k: Key :: At(k) == old(At(k))
      ensures ok ==> key == KeyOf(wm) && old(Units(At(key))) == UnitsTaken(wm, part) + Units(At(key))
      ensures ok ==> SameStreams(At(key), old(At(key)))
      ensures ok ==> forall k: Key :: k != key ==> At(k) == old(At(k))
      ensures ok && key.OfStream? ==> old(zero.s) == [] && key.id in old(sq)
      ensures ok && key.OfStream? ==>
        Fits(wm, part, old(Head(key.id)), old(Head(key.id).stream.flow.Available()), maxFrameSize)
      ensures ok && key.OfStream? && !NoCost(wm) ==> forall id :: id in old(sq) ==> old(!NoCost(Head(id)))
      ensures forall w :: w in ws ==>
        w.n == old(w.n) -
          (if ok && wm.stream != null && (w == wm.stream.flow || w == wm.stream.flow.conn) then Cost(wm) else 0)
    {
      if zero.s != [] {
        wm := zero.Shift();
        ok, part, key := true, false, Control;
        assert old(zero.s)[1..] == zero.s;
      } else {
        ghost var id;
        wm, ok, part, id := TakeStream(ws);
        key := OfStream(id);
      }
    }

    method DropQueue(id: nat)
      requires Valid()
      modifies this`sq, this`queuePool, queues
      ensures Valid() && queues == old(queues)
      ensures forall k: Key :: At(k) == if k == OfStream(id) then [] else old(At(k))
    {
      if id in sq {
        var q := sq[id];
        sq := sq - {id};
        q.s := [];
        PutEmptyQueue(q);
      }
    }

    /** Drops everything queued for a stream. */
    method ForgetStream(id: nat)
      requires Valid() && Conserving()
      modifies this`sq, this`queuePool, this`log, queues
      ensures Valid() && Conserving() && queues == old(queues) && log == old(log) + [Forgot(id)]
      ensures forall k: Key :: At(k) == if k == OfStream(id) then [] else old(At(k))
    {
      hide Conserved, Units;
      DropQueue(id);
      log := log + [Forgot(id)];
      forall k: Key ensures Conserved(log, k, At(k)) {
        ConservedForget(old(log), id, k, old(At(k)));
      }
    }
  }

  function Least3(a: int, b: int, c: int): int {
    if a <= b && a <= c then a else if b <= c then b else c
  }

  function Cost(m: Msg): nat {
    if m.write.WriteData? then |m.write.p| else 0
  }

  /** How a taken frame relates to the message at the head of its queue: the message itself, or a
      chunk of it that neither ends the stream nor reports to the writer.  Either way DATA fits
      the frame size and what the windows allowed. */
  predicate Fits(wm: Msg, part: bool, head: Msg, available: int, maxFrameSize: nat) {
    && wm.stream == head.stream
    && (part ==> wm.write.WriteData? && !wm.write.endStream && wm.done == 0 && !NoCost(wm) && !NoCost(head))
    && (!part ==> wm == head)
    && (!NoCost(wm) ==> Cost(wm) <= available && Cost(wm) <= maxFrameSize)
  }

  /** What is left of a queue is for the streams that its end was for. */
  predicate SameStreams(after: seq<Msg>, before: seq<Msg>) {
    |after| <= |before| && forall i :: 0 <= i < |after| ==> after[i].stream == before[|before| - |after| + i].stream
  }

  /** The message left behind when the first k octets are sent. */
  function Remainder(m: Msg, k: nat): (r: Msg)
    requires m.write.WriteData? && k <= |m.write.p|
    ensures r.stream == m.stream && r.write.WriteData?
  {
    m.(write := WriteData(m.write.p[k..], m.write.endStream))
  }

  lemma {:induction false} ChunkUnits(s: seq<Msg>, k: nat)
    requires s != [] && s[0].write.WriteData? && k <= |s[0].write.p|
    ensures Units(s) == Octets(s[0].write.p[..k]) + Units([Remainder(s[0], k)] + s[1..])
  {
    var p, rest, end := s[0].write.p, Units(s[1..]), [Finish(s[0].write.endStream, s[0].done)];
    OctetsSplit(p, k);
    assert ([Remainder(s[0], k)] + s[1..])[1..] == s[1..];
    hide Octets, Units;
    assert Octets(p) + end + rest == Octets(p[..k]) + (Octets(p[k..]) + end + rest);
  }
}

/** The Framer (net/http2/frame.go) and the splitting of header blocks (net/http2/write.go): the order in
    which frames may arrive, and header blocks that survive being cut into frames. */
module Framer {
  import opened ByteSeqs
  import opened Utf8
  import opened Frames

  const FRAGMENT_SIZE := 16384

  // ---------------------------------------------------------------- the order of frames

  predicate InBlock(fh: Header) { fh.typ == HEADERS || fh.typ == CONTINUATION }

  /** checkFrameOrder: last is the stream whose header block is unfinished, or 0. */
  function Order(last: nat, fh: Header): Result<nat> {
    if last != 0 && (fh.typ != CONTINUATION || fh.stream != last) then Err(ConnectionError(ProtocolError))
    else if last == 0 && fh.typ == CONTINUATION then Err(ConnectionError(ProtocolError))
    else Ok(if !InBlock(fh) then last else if Has(fh.flags, END_HEADERS) then 0 else fh.stream)
  }

  function OrderAll(last: nat, hs: seq<Header>): Result<nat>
    decreases |hs|
  {
    if hs == [] then Ok(last) else
    match Order(last, hs[0])
    case Err(e) => Err(e)
    case Ok(next) => OrderAll(next, hs[1..])
  }

  /** Before frame i a header block is unfinished. */
  predicate Unfinished(hs: seq<Header>, i: nat)
    requires i <= |hs|
  {
    i > 0 && InBlock(hs[i - 1]) && !Has(hs[i - 1].flags, END_HEADERS)
  }

  /** Frame i continues the block before it, or there is none to continue (section 6.10 of RFC 7540). */
  ghost predicate InPlace(hs: seq<Header>, i: nat)
    requires i < |hs|
  {
    if Unfinished(hs, i) then hs[i].typ == CONTINUATION && hs[i].stream == hs[i - 1].stream
    else hs[i].typ != CONTINUATION
  }

  /** The parsers let no header block through on stream 0. */
  ghost predicate OnStreams(hs: seq<Header>) {
    forall i :: 0 <= i < |hs| && InBlock(hs[i]) ==> hs[i].stream != 0
  }

  ghost predicate Contiguous(hs: seq<Header>) {
    forall i: nat {:trigger InPlace(hs, i)} :: i < |hs| ==> InPlace(hs, i)
  }

  /** The stream whose block is unfinished behind some frames. */
  function Pending(hs: seq<Header>): nat {
    if Unfinished(hs, |hs|) then hs[|hs| - 1].stream else 0
  }

  lemma {:induction false} OrderLast(last: nat, hs: seq<Header>, h: Header)
    ensures OrderAll(last, hs + [h]) ==
      match OrderAll(last, hs) case Err(e) => Err(e) case Ok(next) => Order(next, h)
    decreases |hs|
  {
    var all := hs + [h];
    if hs != [] {
      assert all[0] == hs[0] && all[1..] == hs[1..] + [h];
      if Order(last, hs[0]).Ok? { OrderLast(Order(last, hs[0]).value, hs[1..], h); }
    } else {
      assert all[1..] == [];
    }
  }

  lemma ContiguousLast(hs: seq<Header>, h: Header)
    ensures Contiguous(hs + [h]) <==> Contiguous(hs) && InPlace(hs + [h], |hs|)
  {
    var all := hs + [h];
    forall i: nat | i < |hs| ensures InPlace(all, i) == InPlace(hs, i) {
      if i > 0 { assert all[i - 1] == hs[i - 1]; }
      assert all[i] == hs[i];
    }
    if Contiguous(all) {
      forall i: nat | i < |hs| ensures InPlace(hs, i) { assert InPlace(all, i); }
    }
  }

  /** The checker accepts exactly the sequences of frames whose header blocks are contiguous and of one
      stream, and knows which block is unfinished. */
  lemma {:induction false} AcceptsContiguous(hs: seq<Header>)
    requires OnStreams(hs)
    ensures OrderAll(0, hs).Ok? <==> Contiguous(hs)
    ensures OrderAll(0, hs).Ok? ==> OrderAll(0, hs).value == Pending(hs)
  {
    if hs != [] {
      var front, h := hs[..|hs| - 1], hs[|hs| - 1];
      assert hs == front + [h];
      AcceptsContiguous(front);
      OrderLast(0, front, h);
      ContiguousLast(front, h);
      if |front| > 0 { assert hs[|front| - 1] == front[|front| - 1]; }
    }
  }

  // ---------------------------------------------------------------- header blocks

  /** The writes that a header block is cut into. */
  function Cut(stream: nat, endStream: bool, block: seq<Byte>, first: bool): seq<Request> {
    if block == [] then [] else
    var n := if |block| > FRAGMENT_SIZE then FRAGMENT_SIZE else |block|;
    [Piece(stream, endStream, block[..n], first, n == |block|)] + Cut(stream, endStream, block[n..], false)
  }

  function Piece(stream: nat, endStream: bool, fragment: seq<Byte>, first: bool, last: bool): Request {
    if first then WriteHeaders(stream, fragment, endStream, last, 0, Priority(0, false, 0))
    else WriteContinuation(stream, last, fragment)
  }

  function BytesOf(ws: seq<Request>): seq<Byte> {
    if ws == [] then [] else ws[0].Bytes() + BytesOf(ws[1..])
  }

  /** What reading a frame takes off the input, errors included: the header alone if the frame is too
      large, everything if the input ends inside it. */
  function Consumed(b: seq<Byte>, max: nat): (n: nat)
    ensures n <= |b| && (b != [] ==> n > 0)
  {
    if |b| < HEADER_LENGTH then |b| else
    var n := ReadHeader(b).length;
    if n > max then HEADER_LENGTH else if |b| - HEADER_LENGTH < n then |b| else HEADER_LENGTH + n
  }

  /** The frames of some input in order, up to an error, which may be that the input has come to its end.  Behind a
      frame that is an error of its stream only, reading goes on, and the checker is as it was. */
  function ReadAll(b: seq<Byte>, last: nat, max: nat): (seq<Result<Frame>>, Error)
    decreases |b|
  {
    match ReadOne(b, max)
    case Err(e) =>
      if !e.StreamError? then ([], e) else
      var rest := ReadAll(b[Consumed(b, max)..], last, max);
      ([Err(e)] + rest.0, rest.1)
    case Ok(read) =>
      match Order(last, read.0.fh)
      case Err(e) => ([], e)
      case Ok(next) =>
        var rest := ReadAll(read.1, next, max);
        ([Ok(read.0)] + rest.0, rest.1)
  }

  /** The headers of the frames that were read. */
  function Heads(rs: seq<Result<Frame>>): seq<Header> {
    if rs == [] then [] else (if rs[0].Ok? then [rs[0].value.fh] else []) + Heads(rs[1..])
  }

  lemma ParsedOnStream(fh: Header, p: seq<Byte>)
    requires Parse(fh, p).Ok? && InBlock(fh)
    ensures fh.stream != 0
  {
  }

  lemma {:induction false} HeadsFirst(r: Result<Frame>, rs: seq<Result<Frame>>)
    ensures Heads([r] + rs) == (if r.Ok? then [r.value.fh] else []) + Heads(rs)
  {
    assert ([r] + rs)[1..] == rs;
  }

  /** A frame that is read has the header that is in the input, and is on a stream if it is part of a block. */
  lemma ReadOnStream(b: seq<Byte>, max: nat)
    requires ReadOne(b, max).Ok?
    ensures var (f, rest) := ReadOne(b, max).value; |rest| < |b| && (InBlock(f.fh) ==> f.fh.stream != 0)
  {
    var fh := ReadHeader(b);
    ParseKeepsHeader(fh, b[HEADER_LENGTH..HEADER_LENGTH + fh.length]);
    if InBlock(fh) { ParsedOnStream(fh, b[HEADER_LENGTH..HEADER_LENGTH + fh.length]); }
  }

  lemma {:induction false} OrderedFirst(last: nat, h: Header, hs: seq<Header>)
    requires Order(last, h).Ok? && OrderAll(Order(last, h).value, hs).Ok? && OnStreams(hs)
    requires InBlock(h) ==> h.stream != 0
    ensures OrderAll(last, [h] + hs).Ok? && OnStreams([h] + hs)
  {
    assert ([h] + hs)[1..] == hs;
  }

  lemma {:induction false} ReadAllFirst(b: seq<Byte>, f: Frame, rest: seq<Byte>, last: nat, next: nat, max: nat)
    requires ReadOne(b, max) == Ok((f, rest)) && Order(last, f.fh) == Ok(next)
    ensures ReadAll(b, last, max) == ([Ok(f)] + ReadAll(rest, next, max).0, ReadAll(rest, next, max).1)
  {
  }

  lemma {:induction false} ReadAllPast(b: seq<Byte>, last: nat, max: nat)
    requires ReadOne(b, max).Err? && ReadOne(b, max).error.StreamError?
    ensures |b[Consumed(b, max)..]| < |b|
    ensures Heads(ReadAll(b, last, max).0) == Heads(ReadAll(b[Consumed(b, max)..], last, max).0)
  {
    hide Heads;
    var rest := ReadAll(b[Consumed(b, max)..], last, max);
    HeadsFirst(Err(ReadOne(b, max).error), rest.0);
  }

  lemma {:induction false} ReadAllStops(b: seq<Byte>, last: nat, max: nat)
    requires var one := ReadOne(b, max);
      if one.Err? then !one.error.StreamError? else Order(last, one.value.0.fh).Err?
    ensures ReadAll(b, last, max).0 == []
  {
  }

  lemma {:induction false} NoHeads(last: nat)
    ensures Heads([]) == [] && OnStreams([]) && OrderAll(last, []).Ok?
  {
  }

  lemma {:induction false} ReadAllInOrder(b: seq<Byte>, last: nat, max: nat)
    ensures OnStreams(Heads(ReadAll(b, last, max).0)) && OrderAll(last, Heads(ReadAll(b, last, max).0)).Ok?
    decreases |b|
  {
    hide OnStreams, Heads, Order, OrderAll, ReadOne, ReadAll, Consumed;
    NoHeads(last);
    var one := ReadOne(b, max);
    if one.Err? && one.error.StreamError? {
      ReadAllPast(b, last, max);
      ReadAllInOrder(b[Consumed(b, max)..], last, max);
    } else if one.Ok? && Order(last, one.value.0.fh).Ok? {
      var (f, behind) := one.value;
      ReadOnStream(b, max);
      ReadAllFirst(b, f, behind, last, Order(last, f.fh).value, max);
      ReadAllInOrder(behind, Order(last, f.fh).value, max);
      var rest := ReadAll(behind, Order(last, f.fh).value, max).0;
      HeadsFirst(Ok(f), rest);
      OrderedFirst(last, f.fh, Heads(rest));
    } else {
      ReadAllStops(b, last, max);
    }
  }

  /** Whatever the input, the header blocks among the frames that are read are contiguous, each of one stream, also
      across frames that are errors of their streams. */
  lemma {:induction false} ReadsContiguous(b: seq<Byte>, max: nat)
    ensures Contiguous(Heads(ReadAll(b, 0, max).0))
  {
    ReadAllInOrder(b, 0, max);
    AcceptsContiguous(Heads(ReadAll(b, 0, max).0));
  }

  function FragmentOf(r: Result<Frame>): seq<Byte> {
    if r.Ok? && (r.value.HeadersFrame? || r.value.ContinuationFrame?) then r.value.fragment else []
  }

  function Reassembled(rs: seq<Result<Frame>>): seq<Byte> {
    if rs == [] then [] else FragmentOf(rs[0]) + Reassembled(rs[1..])
  }

  function Meanings(ws: seq<Request>): seq<Result<Frame>> {
    if ws == [] then [] else [Ok(ws[0].Meaning())] + Meanings(ws[1..])
  }

  /** One piece is read back, and takes the checker from the state it finds to the state it should leave. */
  lemma PieceReads(stream: nat, endStream: bool, fragment: seq<Byte>, first: bool, last: bool, rest: seq<Byte>,
                   max: nat)
    requires ValidStream(stream) && fragment != [] && |fragment| <= FRAGMENT_SIZE <= max
    ensures var w := Piece(stream, endStream, fragment, first, last);
      && ReadOne(w.Bytes() + rest, max) == Ok((w.Meaning(), rest))
      && Order(if first then 0 else stream, w.Meaning().fh) == Ok(if last then 0 else stream)
      && FragmentOf(Ok(w.Meaning())) == fragment
  {
    var w := Piece(stream, endStream, fragment, first, last);
    PieceFlags(stream, endStream, fragment, first, last);
    assert w.Payload() == fragment;
    RoundTrip(w, rest, max);
  }

  /** END_HEADERS is on the last piece, and END_STREAM on the first if at all. */
  lemma PieceFlags(stream: nat, endStream: bool, fragment: seq<Byte>, first: bool, last: bool)
    ensures var fh := Piece(stream, endStream, fragment, first, last).Meaning().fh;
      && fh.flags == (if last then 4 else 0) + (if first && endStream then 1 else 0)
      && Has(fh.flags, END_HEADERS) == last
      && fh.stream == stream && fh.length == |fragment| && fh.typ == if first then 1 else 9
  {
    FlagsRead(false, first && endStream, last, false);
    assert Piece(stream, endStream, fragment, first, last).Payload() == fragment;
  }

  /** A header block, written piece by piece in front of anything else, is read as its pieces; the
      checker accepts every one and is idle again behind them. */
  lemma {:induction false} BlockReads(stream: nat, endStream: bool, block: seq<Byte>, first: bool, rest: seq<Byte>,
                                      max: nat)
    requires ValidStream(stream) && block != [] && FRAGMENT_SIZE <= max
    ensures var ws := Cut(stream, endStream, block, first);
      var behind := ReadAll(rest, 0, max);
      ReadAll(BytesOf(ws) + rest, if first then 0 else stream, max) == (Meanings(ws) + behind.0, behind.1)
    decreases |block|
  {
    var w, n := CutFirst(stream, endStream, block, first);
    var more := Cut(stream, endStream, block[n..], false);
    var last, next := if first then 0 else stream, if n == |block| then 0 else stream;
    PieceReads(stream, endStream, block[..n], first, n == |block|, BytesOf(more) + rest, max);
    if n < |block| {
      BlockReads(stream, endStream, block[n..], false, rest, max);
    } else {
      NothingReads(rest, max);
    }
    JoinReads(w.Bytes(), w.Meaning(), BytesOf(more), Meanings(more), rest, last, next, max);
  }

  lemma {:induction false} NothingReads(rest: seq<Byte>, max: nat)
    ensures ReadAll(BytesOf([]) + rest, 0, max) == (Meanings([]) + ReadAll(rest, 0, max).0, ReadAll(rest, 0, max).1)
  {
    assert BytesOf([]) + rest == rest && Meanings([]) + ReadAll(rest, 0, max).0 == ReadAll(rest, 0, max).0;
  }

  /** A frame in front of frames that are already known to be read. */
  lemma {:induction false} JoinReads(b: seq<Byte>, f: Frame, more: seq<Byte>, rs: seq<Result<Frame>>, rest: seq<Byte>,
                                       last: nat, next: nat, max: nat)
    requires ReadOne(b + (more + rest), max) == Ok((f, more + rest)) && Order(last, f.fh) == Ok(next)
    requires ReadAll(more + rest, next, max) == (rs + ReadAll(rest, 0, max).0, ReadAll(rest, 0, max).1)
    ensures ReadAll(b + more + rest, last, max) == ([Ok(f)] + rs + ReadAll(rest, 0, max).0, ReadAll(rest, 0, max).1)
  {
    assert b + more + rest == b + (more + rest);
    ReadAllFirst(b + (more + rest), f, more + rest, last, next, max);
    assert [Ok(f)] + rs + ReadAll(rest, 0, max).0 == [Ok(f)] + (rs + ReadAll(rest, 0, max).0);
  }

  /** The first piece of a block, and the pieces behind it. */
  lemma CutFirst(stream: nat, endStream: bool, block: seq<Byte>, first: bool) returns (w: Request, n: nat)
    requires block != []
    ensures 0 < n <= |block| && n == if |block| > 16384 then 16384 else |block|
    ensures w == Piece(stream, endStream, block[..n], first, n == |block|)
    ensures var ws, more := Cut(stream, endStream, block, first), Cut(stream, endStream, block[n..], false);
      ws == [w] + more && BytesOf(ws) == w.Bytes() + BytesOf(more) && Meanings(ws) == [Ok(w.Meaning())] + Meanings(more)
      && (n == |block| ==> more == [])
  {
    n := if |block| > FRAGMENT_SIZE then FRAGMENT_SIZE else |block|;
    w := Piece(stream, endStream, block[..n], first, n == |block|);
    var ws, more := Cut(stream, endStream, block, first), Cut(stream, endStream, block[n..], false);
    assert ws == [w] + more && ws[1..] == more;
  }

  lemma {:induction false} WritesFirst(out: seq<Byte>, stream: nat, endStream: bool, block: seq<Byte>, first: bool,
                                       n: nat)
    requires block != [] && n == if |block| > FRAGMENT_SIZE then FRAGMENT_SIZE else |block|
    ensures out + BytesOf(Cut(stream, endStream, block, first)) ==
      out + Piece(stream, endStream, block[..n], first, n == |block|).Bytes()
      + BytesOf(Cut(stream, endStream, block[n..], false))
  {
    var w, _ := CutFirst(stream, endStream, block, first);
    Associates(out, w.Bytes(), BytesOf(Cut(stream, endStream, block[n..], false)));
  }

  lemma {:induction false} ReassembledFirst(r: Result<Frame>, rs: seq<Result<Frame>>)
    ensures Reassembled([r] + rs) == FragmentOf(r) + Reassembled(rs)
  {
    assert ([r] + rs)[1..] == rs;
  }

  lemma PieceHolds(stream: nat, endStream: bool, fragment: seq<Byte>, first: bool, last: bool)
    ensures FragmentOf(Ok(Piece(stream, endStream, fragment, first, last).Meaning())) == fragment
  {
  }

  lemma {:induction false} NoBlock(stream: nat, endStream: bool, first: bool)
    ensures Cut(stream, endStream, [], first) == [] && Reassembled(Meanings([])) == []
  {
  }

  /** The pieces hold the block and nothing else. */
  lemma {:induction false} BlockReassembles(stream: nat, endStream: bool, block: seq<Byte>, first: bool)
    ensures Reassembled(Meanings(Cut(stream, endStream, block, first))) == block
    decreases |block|
  {
    hide *;
    if block == [] {
      NoBlock(stream, endStream, first);
    } else {
      var w, n := CutFirst(stream, endStream, block, first);
      BlockReassembles(stream, endStream, block[n..], false);
      PieceHolds(stream, endStream, block[..n], first, n == |block|);
      ReassembledFirst(Ok(w.Meaning()), Meanings(Cut(stream, endStream, block[n..], false)));
      assert block == block[..n] + block[n..];
    }
  }

  /** The shape of a block on the wire: one HEADERS, then CONTINUATIONs, all of one stream and no larger
      than every peer must accept; END_HEADERS on the last and only there, END_STREAM on the first only. */
  lemma {:induction false} BlockShape(stream: nat, endStream: bool, block: seq<Byte>, first: bool, i: nat)
    requires i < |Cut(stream, endStream, block, first)|
    ensures var ws := Cut(stream, endStream, block, first);
      var fh := ws[i].Meaning().fh;
      && fh.stream == stream && 0 < fh.length <= 16384
      && fh.typ == (if first && i == 0 then 1 else 9)
      && fh.flags == (if i == |ws| - 1 then 4 else 0) + (if first && i == 0 && endStream then 1 else 0)
    decreases i
  {
    hide *;
    NoBlock(stream, endStream, first);
    var w, n := CutFirst(stream, endStream, block, first);
    var more := Cut(stream, endStream, block[n..], false);
    if i == 0 {
      PieceFlags(stream, endStream, block[..n], first, n == |block|);
      SomeBlock(stream, endStream, block[n..]);
    } else {
      BlockShape(stream, endStream, block[n..], false, i - 1);
    }
  }

  lemma {:induction false} SomeBlock(stream: nat, endStream: bool, block: seq<Byte>)
    ensures block != [] <==> Cut(stream, endStream, block, false) != []
  {
  }

  // ---------------------------------------------------------------- the Framer

  /** A frame has been read: what is there is parsed, the checker says if it may come now, and an error
      leaves the checker as it was. */
  ghost predicate HasRead(b: seq<Byte>, last: nat, max: nat, r: Result<Frame>, rest: seq<Byte>, next: nat) {
    var one := ReadOne(b, max);
    rest == b[Consumed(b, max)..] &&
    if one.Err? then r == Err(one.error) && next == last else
    var order := Order(last, one.value.0.fh);
    && rest == one.value.1
    && if order.Ok? then r == Ok(one.value.0) && next == order.value else r == Err(order.error) && next == last
  }

  lemma SettingsNext(b: seq<Byte>, settings: seq<(nat, nat)>, i: nat)
    requires i < |settings|
    ensures b + SettingsBytes(settings[i..]) ==
      b + U16(settings[i].0) + U32(settings[i].1) + SettingsBytes(settings[i + 1..])
  {
    assert settings[i..][1..] == settings[i + 1..];
  }

  lemma Join(h: seq<Byte>, a: seq<Byte>, b: seq<Byte>, c: seq<Byte>, d: seq<Byte>)
    ensures h + a + b + c + d == h + (a + b + c + d)
  {
  }

  /** A Write method has refused what it was asked for, or added its bytes to what was written before. */
  ghost predicate Wrote(before: seq<Byte>, w: Request, r: Result<()>, after: seq<Byte>) {
    r == w.Refusal() && after == if r.Ok? then before + w.Bytes() else before
  }

  /** terminalReadFrameError. */
  predicate Terminal(r: Result<Frame>) {
    r.Err? && !r.error.StreamError?
  }

  /** One more frame or stream error, or the error that ends it all. */
  lemma {:induction false} ReadAllStep(b: seq<Byte>, last: nat, max: nat, r: Result<Frame>, rest: seq<Byte>, next: nat)
    requires HasRead(b, last, max, r, rest, next)
    ensures if Terminal(r) then ReadAll(b, last, max) == ([], r.error)
            else ReadAll(b, last, max) == ([r] + ReadAll(rest, next, max).0, ReadAll(rest, next, max).1) && |rest| < |b|
  {
  }

  class Framer {
    var wbuf: seq<Byte>
    /** What has been written. */
    var out: seq<Byte>
    /** What is still to be read. */
    var input: seq<Byte>
    var lastHeaderStream: nat
    var maxReadSize: nat

    constructor (input: seq<Byte>)
      ensures this.input == input && out == [] && lastHeaderStream == 0 && maxReadSize == MAX_LENGTH - 1
    {
      this.input, out, wbuf := input, [], [];
      lastHeaderStream, maxReadSize := 0, MAX_LENGTH - 1;
    }

    /** startWrite leaves room for the length. */
    method StartWrite(typ: Byte, flags: Byte, stream: nat)
      modifies `wbuf
      ensures wbuf == [0, 0, 0, typ, flags] + U32(stream)
    {
      wbuf := [0, 0, 0, typ, flags] + U32(stream);
    }

    /** endWrite fills in the length and writes, or refuses a frame that is too large. */
    method EndWrite(ghost typ: Byte, ghost flags: Byte, ghost stream: nat, ghost payload: seq<Byte>)
        returns (r: Result<()>)
      requires wbuf == [0, 0, 0, typ, flags] + U32(stream) + payload
      modifies `wbuf, `out
      ensures r == if |payload| >= MAX_LENGTH then Err(FrameTooLarge) else Ok(())
      ensures out == if r.Ok? then old(out) + Wire(typ, flags, stream, payload) else old(out)
    {
      var length := |wbuf| - HEADER_LENGTH;
      if length >= MAX_LENGTH { return Err(FrameTooLarge); }
      wbuf := U24(length) + wbuf[3..];
      assert wbuf == Wire(typ, flags, stream, payload);
      out := out + wbuf;
      r := Ok(());
    }

    method WriteData(stream: nat, endStream: bool, data: seq<Byte>) returns (r: Result<()>)
      requires stream < MAX_UINT32
      modifies `wbuf, `out
      ensures Wrote(old(out), Request.WriteData(stream, endStream, data), r, out)
    {
      if !ValidStream(stream) { return Err(InvalidStreamID); }
      var flags := 0;
      if endStream { flags := END_STREAM; }
      StartWrite(DATA, flags, stream);
      wbuf := wbuf + data;
      r := EndWrite(DATA, flags, stream, data);
    }

    method WritePriority(stream: nat, p: Priority) returns (r: Result<()>)
      requires stream < MAX_UINT32 && p.dep < MAX_UINT32
      modifies `wbuf, `out
      ensures Wrote(old(out), Request.WritePriority(stream, p), r, out)
    {
      if !ValidStream(stream) { return Err(InvalidStreamID); }
      StartWrite(PRIORITY, 0, stream);
      AppendPriority(p);
      r := EndWrite(PRIORITY, 0, stream, PriorityBytes(p));
    }

    method WriteRSTStream(stream: nat, code: nat) returns (r: Result<()>)
      requires stream < MAX_UINT32 && code < MAX_UINT32
      modifies `wbuf, `out
      ensures Wrote(old(out), Request.WriteRSTStream(stream, code), r, out)
    {
      if !ValidStream(stream) { return Err(InvalidStreamID); }
      StartWrite(RST_STREAM, 0, stream);
      wbuf := wbuf + U32(code);
      r := EndWrite(RST_STREAM, 0, stream, U32(code));
    }

    method WriteSettingsAck() returns (r: Result<()>)
      modifies `wbuf, `out
      ensures Wrote(old(out), Request.WriteSettingsAck, r, out)
    {
      StartWrite(SETTINGS, ACK, 0);
      assert wbuf == wbuf + [];
      r := EndWrite(SETTINGS, ACK, 0, []);
    }

    method WritePing(ack: bool, data: seq<Byte>) returns (r: Result<()>)
      requires |data| == 8
      modifies `wbuf, `out
      ensures Wrote(old(out), Request.WritePing(ack, data), r, out)
    {
      var flags := 0;
      if ack { flags := ACK; }
      StartWrite(PING, flags, 0);
      wbuf := wbuf + data;
      r := EndWrite(PING, flags, 0, data);
    }

    method WriteGoAway(last: nat, code: nat, debug: seq<Byte>) returns (r: Result<()>)
      requires last < MAX_UINT32 && code < MAX_UINT32
      modifies `wbuf, `out
      ensures Wrote(old(out), Request.WriteGoAway(last, code, debug), r, out)
    {
      StartWrite(GOAWAY, 0, 0);
      ghost var head := wbuf;
      wbuf := wbuf + U32(last % MAX_STREAM);
      wbuf := wbuf + U32(code);
      wbuf := wbuf + debug;
      ghost var payload := U32(last % MAX_STREAM) + U32(code) + debug;
      assert wbuf == head + payload;
      r := EndWrite(GOAWAY, 0, 0, payload);
    }

    method WriteWindowUpdate(stream: nat, increment: nat) returns (r: Result<()>)
      requires stream < MAX_UINT32 && increment < MAX_UINT32
      modifies `wbuf, `out
      ensures Wrote(old(out), Request.WriteWindowUpdate(stream, increment), r, out)
    {
      if increment < 1 || increment > 2147483647 { return Err(IllegalIncrement); }
      StartWrite(WINDOW_UPDATE, 0, stream);
      wbuf := wbuf + U32(increment);
      r := EndWrite(WINDOW_UPDATE, 0, stream, U32(increment));
    }

    method WriteContinuation(stream: nat, endHeaders: bool, fragment: seq<Byte>) returns (r: Result<()>)
      requires stream < MAX_UINT32
      modifies `wbuf, `out
      ensures Wrote(old(out), Request.WriteContinuation(stream, endHeaders, fragment), r, out)
    {
      if !ValidStream(stream) { return Err(InvalidStreamID); }
      var flags := 0;
      if endHeaders { flags := END_HEADERS; }
      StartWrite(CONTINUATION, flags, stream);
      wbuf := wbuf + fragment;
      r := EndWrite(CONTINUATION, flags, stream, fragment);
    }

    /** WriteSettings. */
    method WriteSettings(settings: seq<(nat, nat)>) returns (r: Result<()>)
      requires Request.WriteSettings(settings).Typed()
      modifies `wbuf, `out
      ensures Wrote(old(out), Request.WriteSettings(settings), r, out)
    {
      StartWrite(SETTINGS, 0, 0);
      ghost var head := wbuf;
      var i := 0;
      while i < |settings|
        invariant i <= |settings| && out == old(out)
        invariant wbuf + SettingsBytes(settings[i..]) == head + SettingsBytes(settings)
      {
        SettingsNext(wbuf, settings, i);
        wbuf := wbuf + U16(settings[i].0);
        wbuf := wbuf + U32(settings[i].1);
        i := i + 1;
      }
      ghost var w := Request.WriteSettings(settings);
      assert w.Bytes() == Wire(SETTINGS, 0, 0, SettingsBytes(settings));
      assert wbuf == head + SettingsBytes(settings);
      r := EndWrite(SETTINGS, 0, 0, SettingsBytes(settings));
    }

    /** WriteHeaders. */
    method WriteHeaders(w: Request) returns (r: Result<()>)
      requires w.WriteHeaders? && w.Typed()
      modifies `wbuf, `out
      ensures Wrote(old(out), w, r, out)
    {
      if !ValidStream(w.stream) { return Err(InvalidStreamID); }
      var flags := HeadersFlags(w);
      StartWrite(HEADERS, flags, w.stream);
      var ok := AppendHeaders(w);
      if !ok { return Err(InvalidDependency); }
      r := EndWrite(HEADERS, flags, w.stream, w.Payload());
    }

    /** Its payload. */
    method AppendHeaders(w: Request) returns (ok: bool)
      requires w.WriteHeaders? && w.Typed()
      modifies `wbuf
      ensures ok <==> w.priority.IsZero() || ValidStream(w.priority.dep)
      ensures ok ==> wbuf == old(wbuf) + w.Payload()
    {
      if w.pad != 0 { wbuf := wbuf + [w.pad]; }
      assert wbuf == old(wbuf) + PadLength(w.pad);
      if !w.priority.IsZero() {
        if !ValidStream(w.priority.dep) { return false; }
        AppendPriority(w.priority);
      }
      ghost var priority := if w.priority.IsZero() then [] else PriorityBytes(w.priority);
      assert wbuf == old(wbuf) + PadLength(w.pad) + priority;
      wbuf := wbuf + w.fragment;
      wbuf := wbuf + Zeros(w.pad);
      Join(old(wbuf), PadLength(w.pad), priority, w.fragment, Zeros(w.pad));
      ok := true;
    }

    method HeadersFlags(w: Request) returns (flags: Byte)
      requires w.WriteHeaders?
      ensures flags == w.Flags()
    {
      flags := 0;
      if w.pad != 0 { flags := flags + PADDED; }
      if w.endStream { flags := flags + END_STREAM; }
      if w.endHeaders { flags := flags + END_HEADERS; }
      if !w.priority.IsZero() { flags := flags + WITH_PRIORITY; }
    }

    method AppendPriority(p: Priority)
      requires p.dep < MAX_UINT32
      modifies `wbuf
      ensures wbuf == old(wbuf) + PriorityBytes(p)
    {
      var v := p.dep;
      if p.exclusive { v := WithTopBit(v); }
      wbuf := wbuf + U32(v);
      wbuf := wbuf + [p.weight];
    }

    /** WritePushPromise. */
    method WritePushPromise(w: Request) returns (r: Result<()>)
      requires w.WritePushPromise? && w.Typed()
      modifies `wbuf, `out
      ensures Wrote(old(out), w, r, out)
    {
      if !ValidStream(w.stream) { return Err(InvalidStreamID); }
      var flags := 0;
      if w.pad != 0 { flags := flags + PADDED; }
      if w.endHeaders { flags := flags + END_HEADERS; }
      StartWrite(PUSH_PROMISE, flags, w.stream);
      ghost var head := wbuf;
      if w.pad != 0 { wbuf := wbuf + [w.pad]; }
      assert wbuf == head + PadLength(w.pad);
      if !ValidStream(w.promise) { return Err(InvalidStreamID); }
      wbuf := wbuf + U32(w.promise);
      wbuf := wbuf + w.fragment;
      wbuf := wbuf + Zeros(w.pad);
      Join(head, PadLength(w.pad), U32(w.promise), w.fragment, Zeros(w.pad));
      r := EndWrite(PUSH_PROMISE, flags, w.stream, w.Payload());
    }

    /** The loop of writeResHeaders: a header block leaves as HEADERS and CONTINUATIONs. */
    method WriteHeaderBlock(stream: nat, endStream: bool, block: seq<Byte>) returns (r: Result<()>)
      requires stream < MAX_UINT32
      modifies `wbuf, `out
      ensures ValidStream(stream) ==> r == Ok(()) && out == old(out) + BytesOf(Cut(stream, endStream, block, true))
      ensures !ValidStream(stream) ==> out == old(out) && (r.Err? <==> block != [])
    {
      var left, first := block, true;
      ghost var goal := out + BytesOf(Cut(stream, endStream, block, true));
      while |left| > 0
        invariant !ValidStream(stream) ==> out == old(out) && left == block
        invariant ValidStream(stream) ==> out + BytesOf(Cut(stream, endStream, left, first)) == goal
        decreases |left|
      {
        var n := if |left| > FRAGMENT_SIZE then FRAGMENT_SIZE else |left|;
        WritesFirst(out, stream, endStream, left, first, n);
        r := WritePiece(stream, endStream, left[..n], first, n == |left|);
        if r.Err? { return; }
        left, first := left[n..], false;
      }
      r := Ok(());
    }

    /** A turn of that loop. */
    method WritePiece(stream: nat, endStream: bool, fragment: seq<Byte>, first: bool, last: bool)
        returns (r: Result<()>)
      requires stream < MAX_UINT32 && |fragment| <= FRAGMENT_SIZE
      modifies `wbuf, `out
      ensures r == if ValidStream(stream) then Ok(()) else Err(InvalidStreamID)
      ensures out == if r.Ok? then old(out) + Piece(stream, endStream, fragment, first, last).Bytes() else old(out)
    {
      var w := Piece(stream, endStream, fragment, first, last);
      assert |w.Payload()| == |fragment|;
      if first { r := WriteHeaders(w); } else { r := WriteContinuation(stream, last, fragment); }
    }

    /** checkFrameOrder. */
    method CheckFrameOrder(fh: Header) returns (r: Result<()>)
      modifies `lastHeaderStream
      ensures match Order(old(lastHeaderStream), fh)
        case Err(e) => r == Err(e) && lastHeaderStream == old(lastHeaderStream)
        case Ok(next) => r == Ok(()) && lastHeaderStream == next
    {
      if lastHeaderStream != 0 {
        if fh.typ != CONTINUATION { return Err(ConnectionError(ProtocolError)); }
        if fh.stream != lastHeaderStream { return Err(ConnectionError(ProtocolError)); }
      } else if fh.typ == CONTINUATION {
        return Err(ConnectionError(ProtocolError));
      }
      if fh.typ == HEADERS || fh.typ == CONTINUATION {
        lastHeaderStream := if Has(fh.flags, END_HEADERS) then 0 else fh.stream;
      }
      r := Ok(());
    }

    /** ReadFrame. */
    method ReadFrame() returns (r: Result<Frame>)
      modifies `input, `lastHeaderStream
      ensures HasRead(old(input), old(lastHeaderStream), maxReadSize, r, input, lastHeaderStream)
    {
      if |input| < HEADER_LENGTH {
        r := Err(Short(|input|));
        input := [];
        return;
      }
      var fh := ReadHeader(input);
      input := input[HEADER_LENGTH..];
      if fh.length > maxReadSize { return Err(FrameTooLarge); }
      if |input| < fh.length {
        r := Err(Short(|input|));
        input := [];
        return;
      }
      var payload := input[..fh.length];
      assert payload == old(input)[HEADER_LENGTH..HEADER_LENGTH + fh.length];
      input := input[fh.length..];
      assert input == old(input)[HEADER_LENGTH + fh.length..];
      r := Parse(fh, payload);
      if r.Err? { return; }
      var order := CheckFrameOrder(r.value.fh);
      if order.Err? { return Err(order.error); }
    }

    /** readFrames: calls ReadFrame until it fails for good, at the end of the input if not before. */
    method ReadFrames() returns (rs: seq<Result<Frame>>, end: Error)
      modifies `input, `lastHeaderStream
      ensures (rs, end) == ReadAll(old(input), old(lastHeaderStream), maxReadSize)
    {
      hide HasRead, ReadOne, ReadAll, Consumed;
      rs := [];
      ghost var all := ReadAll(input, lastHeaderStream, maxReadSize);
      while true
        invariant all.0 == rs + ReadAll(input, lastHeaderStream, maxReadSize).0
        invariant all.1 == ReadAll(input, lastHeaderStream, maxReadSize).1
        decreases |input|
      {
        ghost var b, last := input, lastHeaderStream;
        var r := ReadFrame();
        ReadAllStep(b, last, maxReadSize, r, input, lastHeaderStream);
        if Terminal(r) {
          assert rs + [] == rs;
          return rs, r.error;
        }
        Associates(rs, [r], ReadAll(input, lastHeaderStream, maxReadSize).0);
        rs := rs + [r];
      }
    }
  }

  // ---------------------------------------------------------------- settings

  /** Value: the value of a setting in a payload is that of the first, the k-th of all, with its identifier. */
  method Value(p: seq<Byte>, id: nat) returns (v: Result<nat>, ghost k: nat)
    requires |p| % 6 == 0
    ensures v == SettingValue(p, id) && k <= |ReadSettings(p)| && (v.Ok? <==> k < |ReadSettings(p)|)
    ensures forall j :: 0 <= j < k ==> ReadSettings(p)[j].0 != id
    ensures v.Ok? ==> ReadSettings(p)[k] == (id, v.value)
  {
    var buf := p;
    k := 0;
    while |buf| > 0
      invariant |buf| % 6 == 0 && SettingValue(buf, id) == SettingValue(p, id)
      invariant k <= |ReadSettings(p)| && ReadSettings(buf) == ReadSettings(p)[k..]
      invariant forall j :: 0 <= j < k ==> ReadSettings(p)[j].0 != id
      decreases |buf|
    {
      assert ReadSettings(buf)[0] == ReadSettings(p)[k];
      if ReadU16(buf[..2]) == id { return Ok(ReadU32(buf[2..6])), k; }
      buf, k := buf[6..], k + 1;
    }
    v := Err(UnexpectedEOF);
  }

  /** ForeachSetting: the settings in order, up to the first at which the caller's function fails. */
  method ForeachSetting(p: seq<Byte>, fails: ((nat, nat)) -> bool) returns (seen: seq<(nat, nat)>, failed: bool)
    requires |p| % 6 == 0
    ensures seen <= ReadSettings(p) && (failed <==> seen != [] && fails(seen[|seen| - 1]))
    ensures forall k :: 0 <= k < |seen| - 1 ==> !fails(seen[k])
    ensures !failed ==> seen == ReadSettings(p)
  {
    var buf := p;
    seen := [];
    while |buf| > 0
      invariant |buf| % 6 == 0 && seen + ReadSettings(buf) == ReadSettings(p)
      invariant forall k :: 0 <= k < |seen| ==> !fails(seen[k])
      decreases |buf|
    {
      var setting := (ReadU16(buf[..2]), ReadU32(buf[2..6]));
      seen := seen + [setting];
      if fails(setting) { return seen, true; }
      buf := buf[6..];
    }
    failed := false;
  }
}

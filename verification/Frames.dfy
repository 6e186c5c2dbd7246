/** HTTP/2 frames as bytes (net/http2/frame.go): the parsers, what the writers put on the wire, and when
    a frame that was written is read back as itself (sections 4.1 and 6 of RFC 7540). */
module Frames {
  import opened ByteSeqs
  import opened Utf8

  const DATA := 0
  const HEADERS := 1
  const PRIORITY := 2
  const RST_STREAM := 3
  const SETTINGS := 4
  const PUSH_PROMISE := 5
  const PING := 6
  const GOAWAY := 7
  const WINDOW_UPDATE := 8
  const CONTINUATION := 9

  // Flags, as the numbers of their bits.
  const END_STREAM := 1
  const ACK := 1
  const END_HEADERS := 4
  const PADDED := 8
  const WITH_PRIORITY := 32

  const HEADER_LENGTH := 9
  const MAX_LENGTH := 0x1_00_0000
  const MAX_STREAM := 0x8000_0000
  const MAX_UINT32 := 0x1_0000_0000
  const SETTING_INITIAL_WINDOW_SIZE := 4

  datatype ErrCode = ProtocolError | FlowControlError | FrameSizeError

  datatype Error =
    | ConnectionError(code: ErrCode)
    | StreamError(stream: nat, reason: ErrCode)
    | EndOfInput
    | UnexpectedEOF
    | FrameTooLarge
    | InvalidStreamID
    | InvalidDependency
    | IllegalIncrement

  datatype Result<T> = Ok(value: T) | Err(error: Error)

  datatype Header = Header(length: nat, typ: Byte, flags: Byte, stream: nat)

  datatype Priority = Priority(dep: nat, exclusive: bool, weight: Byte) {
    predicate IsZero() { dep == 0 && !exclusive && weight == 0 }
  }

  datatype Frame =
    | DataFrame(fh: Header, data: seq<Byte>)
    | HeadersFrame(fh: Header, priority: Priority, fragment: seq<Byte>)
    | PriorityFrame(fh: Header, priority: Priority)
    | RSTStreamFrame(fh: Header, code: nat)
    | SettingsFrame(fh: Header, settings: seq<(nat, nat)>)
    | PushPromiseFrame(fh: Header, promise: nat, fragment: seq<Byte>)
    | PingFrame(fh: Header, ping: seq<Byte>)
    | GoAwayFrame(fh: Header, last: nat, code: nat, debug: seq<Byte>)
    | WindowUpdateFrame(fh: Header, increment: nat)
    | ContinuationFrame(fh: Header, fragment: seq<Byte>)
    | UnknownFrame(fh: Header, payload: seq<Byte>)

  // ---------------------------------------------------------------- numbers

  function Low(v: nat): Byte { v % 256 }

  function U16(v: nat): seq<Byte> { [Low(v / 0x100), Low(v)] }

  function U24(v: nat): seq<Byte> { [Low(v / 0x1_0000), Low(v / 0x100), Low(v)] }

  function U32(v: nat): seq<Byte> { [Low(v / 0x100_0000), Low(v / 0x1_0000), Low(v / 0x100), Low(v)] }

  function ReadU16(p: seq<Byte>): nat requires |p| >= 2 { p[0] as int * 0x100 + p[1] }

  function ReadU24(p: seq<Byte>): nat requires |p| >= 3 { p[0] as int * 0x1_0000 + p[1] as int * 0x100 + p[2] }

  function ReadU32(p: seq<Byte>): nat
    requires |p| >= 4
  {
    p[0] as int * 0x100_0000 + p[1] as int * 0x1_0000 + p[2] as int * 0x100 + p[3]
  }

  lemma U16Reads(v: nat, rest: seq<Byte>)
    requires v < 0x1_0000
    ensures ReadU16(U16(v) + rest) == v
  {
    var p := U16(v) + rest;
    assert p[0] == v / 0x100 && p[1] == v % 256;
  }

  lemma U24Reads(v: nat, rest: seq<Byte>)
    requires v < MAX_LENGTH
    ensures ReadU24(U24(v) + rest) == v
  {
    var p := U24(v) + rest;
    var v1 := v / 0x100;
    assert v / 0x1_0000 == v1 / 0x100 < 0x100;
    assert p[0] == v1 / 0x100 && p[1] == v1 % 0x100 && p[2] == v % 0x100;
  }

  lemma U32Reads(v: nat, rest: seq<Byte>)
    requires v < MAX_UINT32
    ensures ReadU32(U32(v) + rest) == v
  {
    var p := U32(v) + rest;
    var v1 := v / 0x100;
    var v2 := v1 / 0x100;
    assert v / 0x1_0000 == v2 && v / 0x100_0000 == v2 / 0x100 < 0x100;
    assert p[0] == v2 / 0x100 && p[1] == v2 % 0x100 && p[2] == v1 % 0x100 && p[3] == v % 0x100;
  }

  /** Whether a flag, a power of two, is among some flags. */
  predicate Has(flags: Byte, bit: nat)
    requires bit > 0
  {
    flags / bit % 2 == 1
  }

  function Bit(on: bool, bit: nat): nat { if on then bit else 0 }

  // ---------------------------------------------------------------- parsing

  function ParseData(fh: Header, p: seq<Byte>): Result<Frame> {
    if fh.stream == 0 then Err(ConnectionError(ProtocolError))
    else if Has(fh.flags, PADDED) then
      if |p| == 0 then Err(UnexpectedEOF)
      else if p[0] > |p| - 1 then Err(ConnectionError(ProtocolError))
      else Ok(DataFrame(fh, p[1..|p| - p[0]]))
    else Ok(DataFrame(fh, p))
  }

  function ToPriority(v: nat, weight: Byte): Priority {
    Priority(v % MAX_STREAM, v != v % MAX_STREAM, weight)
  }

  /** A HEADERS payload behind its padding length. */
  function ParseHeadersBody(fh: Header, p: seq<Byte>, pad: Byte): Result<Frame> {
    if Has(fh.flags, WITH_PRIORITY) then
      if |p| < 5 then Err(UnexpectedEOF)
      else ParseFragment(fh, ToPriority(ReadU32(p), p[4]), p[5..], pad)
    else ParseFragment(fh, Priority(0, false, 0), p, pad)
  }

  function ParseFragment(fh: Header, priority: Priority, p: seq<Byte>, pad: Byte): Result<Frame> {
    if |p| - pad <= 0 then Err(StreamError(fh.stream, ProtocolError))
    else Ok(HeadersFrame(fh, priority, p[..|p| - pad]))
  }

  function ParseHeaders(fh: Header, p: seq<Byte>): Result<Frame> {
    if fh.stream == 0 then Err(ConnectionError(ProtocolError))
    else if Has(fh.flags, PADDED) then
      if |p| == 0 then Err(UnexpectedEOF) else ParseHeadersBody(fh, p[1..], p[0])
    else ParseHeadersBody(fh, p, 0)
  }

  function ParsePriority(fh: Header, p: seq<Byte>): Result<Frame> {
    if fh.stream == 0 then Err(ConnectionError(ProtocolError))
    else if |p| != 5 then Err(ConnectionError(FrameSizeError))
    else Ok(PriorityFrame(fh, ToPriority(ReadU32(p), p[4])))
  }

  function ParseRSTStream(fh: Header, p: seq<Byte>): Result<Frame> {
    if |p| != 4 then Err(ConnectionError(FrameSizeError))
    else if fh.stream == 0 then Err(ConnectionError(ProtocolError))
    else Ok(RSTStreamFrame(fh, ReadU32(p)))
  }

  /** The first value of a setting. */
  function SettingValue(p: seq<Byte>, id: nat): (v: Result<nat>)
    requires |p| % 6 == 0
    decreases |p|
  {
    if |p| == 0 then Err(UnexpectedEOF)
    else if ReadU16(p) == id then Ok(ReadU32(p[2..6]))
    else SettingValue(p[6..], id)
  }

  /** The settings of a payload, identifiers and values, as ForeachSetting goes through them. */
  function ReadSettings(p: seq<Byte>): seq<(nat, nat)>
    requires |p| % 6 == 0
    decreases |p|
  {
    if |p| == 0 then [] else [(ReadU16(p), ReadU32(p[2..6]))] + ReadSettings(p[6..])
  }

  predicate WindowTooLarge(p: seq<Byte>)
    requires |p| % 6 == 0
  {
    var v := SettingValue(p, SETTING_INITIAL_WINDOW_SIZE);
    v.Ok? && v.value >= MAX_STREAM
  }

  function ParseSettings(fh: Header, p: seq<Byte>): Result<Frame> {
    if Has(fh.flags, ACK) && fh.length > 0 then Err(ConnectionError(FrameSizeError))
    else if fh.stream != 0 then Err(ConnectionError(ProtocolError))
    else if |p| % 6 != 0 then Err(ConnectionError(FrameSizeError))
    else if WindowTooLarge(p) then Err(ConnectionError(FlowControlError))
    else Ok(SettingsFrame(fh, ReadSettings(p)))
  }

  function ParsePushPromiseBody(fh: Header, p: seq<Byte>, pad: Byte): Result<Frame> {
    if |p| < 4 then Err(UnexpectedEOF)
    else if pad > |p| - 4 then Err(ConnectionError(ProtocolError))
    else Ok(PushPromiseFrame(fh, ReadU32(p) % MAX_STREAM, p[4..|p| - pad]))
  }

  function ParsePushPromise(fh: Header, p: seq<Byte>): Result<Frame> {
    if fh.stream == 0 then Err(ConnectionError(ProtocolError))
    else if Has(fh.flags, PADDED) then
      if |p| == 0 then Err(UnexpectedEOF) else ParsePushPromiseBody(fh, p[1..], p[0])
    else ParsePushPromiseBody(fh, p, 0)
  }

  function ParsePing(fh: Header, p: seq<Byte>): Result<Frame> {
    if |p| != 8 then Err(ConnectionError(FrameSizeError))
    else if fh.stream != 0 then Err(ConnectionError(ProtocolError))
    else Ok(PingFrame(fh, p))
  }

  function ParseGoAway(fh: Header, p: seq<Byte>): Result<Frame> {
    if fh.stream != 0 then Err(ConnectionError(ProtocolError))
    else if |p| < 8 then Err(ConnectionError(FrameSizeError))
    else Ok(GoAwayFrame(fh, ReadU32(p) % MAX_STREAM, ReadU32(p[4..]), p[8..]))
  }

  function ParseWindowUpdate(fh: Header, p: seq<Byte>): Result<Frame> {
    if |p| != 4 then Err(ConnectionError(FrameSizeError)) else
    var increment := ReadU32(p) % MAX_STREAM;
    if increment == 0 then
      if fh.stream == 0 then Err(ConnectionError(ProtocolError)) else Err(StreamError(fh.stream, ProtocolError))
    else Ok(WindowUpdateFrame(fh, increment))
  }

  function ParseContinuation(fh: Header, p: seq<Byte>): Result<Frame> {
    if fh.stream == 0 then Err(ConnectionError(ProtocolError)) else Ok(ContinuationFrame(fh, p))
  }

  function Parse(fh: Header, p: seq<Byte>): Result<Frame> {
    if fh.typ == DATA then ParseData(fh, p)
    else if fh.typ == HEADERS then ParseHeaders(fh, p)
    else if fh.typ == PRIORITY then ParsePriority(fh, p)
    else if fh.typ == RST_STREAM then ParseRSTStream(fh, p)
    else if fh.typ == SETTINGS then ParseSettings(fh, p)
    else if fh.typ == PUSH_PROMISE then ParsePushPromise(fh, p)
    else if fh.typ == PING then ParsePing(fh, p)
    else if fh.typ == GOAWAY then ParseGoAway(fh, p)
    else if fh.typ == WINDOW_UPDATE then ParseWindowUpdate(fh, p)
    else if fh.typ == CONTINUATION then ParseContinuation(fh, p)
    else Ok(UnknownFrame(fh, p))
  }

  // ---------------------------------------------------------------- the wire

  /** A frame's bytes: length, type, flags, stream and payload. */
  function Wire(typ: Byte, flags: Byte, stream: nat, payload: seq<Byte>): seq<Byte> {
    U24(|payload|) + [typ, flags] + U32(stream) + payload
  }

  function ReadHeader(b: seq<Byte>): Header
    requires |b| >= HEADER_LENGTH
  {
    Header(ReadU24(b), b[3], b[4], ReadU32(b[5..]) % MAX_STREAM)
  }

  /** How a read fails for which there are too few bytes: an input that ends before the first of them
      has come to its end, one that ends behind it is cut short. */
  function Short(have: nat): Error { if have == 0 then EndOfInput else UnexpectedEOF }

  /** The first frame of some input, before the order of frames is looked at, and the input behind it. */
  function ReadOne(b: seq<Byte>, max: nat): Result<(Frame, seq<Byte>)> {
    if |b| < HEADER_LENGTH then Err(Short(|b|)) else
    var fh := ReadHeader(b);
    if fh.length > max then Err(FrameTooLarge)
    else if |b| - HEADER_LENGTH < fh.length then Err(Short(|b| - HEADER_LENGTH))
    else With(Parse(fh, b[HEADER_LENGTH..HEADER_LENGTH + fh.length]), b[HEADER_LENGTH + fh.length..])
  }

  /** A parsed frame and the input behind it. */
  function With(r: Result<Frame>, rest: seq<Byte>): Result<(Frame, seq<Byte>)> {
    match r
    case Err(e) => Err(e)
    case Ok(f) => Ok((f, rest))
  }

  lemma WithOk(r: Result<Frame>, f: Frame, rest: seq<Byte>)
    ensures With(r, rest) == Ok((f, rest)) <==> r == Ok(f)
  {
  }

  /** What is written is parsed, whatever follows it: the header survives, the reserved bit does not. */
  lemma ReadWire(typ: Byte, flags: Byte, stream: nat, payload: seq<Byte>, rest: seq<Byte>, max: nat)
    requires stream < MAX_UINT32 && |payload| <= max && |payload| < MAX_LENGTH
    ensures var fh := Header(|payload|, typ, flags, stream % MAX_STREAM);
      ReadOne(Wire(typ, flags, stream, payload) + rest, max) == With(Parse(fh, payload), rest)
  {
    var b := Wire(typ, flags, stream, payload) + rest;
    var tail := [typ, flags] + U32(stream) + payload + rest;
    assert b == U24(|payload|) + tail;
    U24Reads(|payload|, tail);
    assert b[5..] == U32(stream) + (payload + rest);
    U32Reads(stream, payload + rest);
    assert b[3] == typ && b[4] == flags;
    assert b[9..9 + |payload|] == payload && b[9 + |payload|..] == rest;
  }

  // ---------------------------------------------------------------- writing

  /** The calls of the Framer's Write methods. */
  datatype Request =
    | WriteData(stream: nat, endStream: bool, data: seq<Byte>)
    | WriteHeaders(stream: nat, fragment: seq<Byte>, endStream: bool, endHeaders: bool, pad: Byte, priority: Priority)
    | WritePriority(stream: nat, priority: Priority)
    | WriteRSTStream(stream: nat, code: nat)
    | WriteSettings(settings: seq<(nat, nat)>)
    | WriteSettingsAck
    | WritePing(ack: bool, ping: seq<Byte>)
    | WriteGoAway(last: nat, code: nat, debug: seq<Byte>)
    | WriteWindowUpdate(stream: nat, increment: nat)
    | WriteContinuation(stream: nat, endHeaders: bool, fragment: seq<Byte>)
    | WritePushPromise(stream: nat, promise: nat, fragment: seq<Byte>, endHeaders: bool, pad: Byte)
  {
    /** The arguments are of the types that the methods take. */
    ghost predicate Typed() {
      match this
      case WriteSettings(list) => forall i :: 0 <= i < |list| ==> list[i].0 < 0x1_0000 && list[i].1 < MAX_UINT32
      case WriteSettingsAck => true
      case WritePing(_, ping) => |ping| == 8
      case WriteGoAway(last, code, _) => last < MAX_UINT32 && code < MAX_UINT32
      case WriteHeaders(id, _, _, _, _, priority) => id < MAX_UINT32 && priority.dep < MAX_UINT32
      case WritePriority(id, priority) => id < MAX_UINT32 && priority.dep < MAX_UINT32
      case WriteRSTStream(id, code) => id < MAX_UINT32 && code < MAX_UINT32
      case WriteWindowUpdate(id, increment) => id < MAX_UINT32 && increment < MAX_UINT32
      case WritePushPromise(id, promise, _, _, _) => id < MAX_UINT32 && promise < MAX_UINT32
      case _ => stream < MAX_UINT32
    }

    /** The stream a frame is for; 0 is the connection. */
    function For(): nat {
      if WriteSettings? || WriteSettingsAck? || WritePing? || WriteGoAway? then 0 else stream
    }

    function Typ(): Byte {
      match this
      case WriteData(_, _, _) => DATA
      case WriteHeaders(_, _, _, _, _, _) => HEADERS
      case WritePriority(_, _) => PRIORITY
      case WriteRSTStream(_, _) => RST_STREAM
      case WriteSettings(_) => SETTINGS
      case WriteSettingsAck => SETTINGS
      case WritePing(_, _) => PING
      case WriteGoAway(_, _, _) => GOAWAY
      case WriteWindowUpdate(_, _) => WINDOW_UPDATE
      case WriteContinuation(_, _, _) => CONTINUATION
      case WritePushPromise(_, _, _, _, _) => PUSH_PROMISE
    }

    function Flags(): Byte {
      match this
      case WriteData(_, endStream, _) => Bit(endStream, END_STREAM)
      case WriteHeaders(_, _, endStream, endHeaders, pad, priority) =>
        Bit(pad != 0, PADDED) + Bit(endStream, END_STREAM) + Bit(endHeaders, END_HEADERS)
        + Bit(!priority.IsZero(), WITH_PRIORITY)
      case WriteSettingsAck => ACK
      case WritePing(ack, _) => Bit(ack, ACK)
      case WriteContinuation(_, endHeaders, _) => Bit(endHeaders, END_HEADERS)
      case WritePushPromise(_, _, _, endHeaders, pad) => Bit(pad != 0, PADDED) + Bit(endHeaders, END_HEADERS)
      case _ => 0
    }

    function Payload(): seq<Byte> {
      match this
      case WriteData(_, _, data) => data
      case WriteHeaders(_, fragment, _, _, pad, priority) =>
        PadLength(pad) + (if priority.IsZero() then [] else PriorityBytes(priority)) + fragment + Zeros(pad)
      case WritePriority(_, priority) => PriorityBytes(priority)
      case WriteRSTStream(_, code) => U32(code)
      case WriteSettings(list) => SettingsBytes(list)
      case WriteSettingsAck => []
      case WritePing(_, ping) => ping
      case WriteGoAway(last, code, debug) => U32(last % MAX_STREAM) + U32(code) + debug
      case WriteWindowUpdate(_, increment) => U32(increment)
      case WriteContinuation(_, _, fragment) => fragment
      case WritePushPromise(_, promise, fragment, _, pad) => PadLength(pad) + U32(promise) + fragment + Zeros(pad)
    }

    /** What the method refuses to write. */
    function Refusal(): Result<()> {
      if !(WriteSettings? || WriteSettingsAck? || WritePing? || WriteGoAway? || WriteWindowUpdate?)
         && !ValidStream(stream) then
        Err(InvalidStreamID)
      else if WriteHeaders? && !priority.IsZero() && !ValidStream(priority.dep) then Err(InvalidDependency)
      else if WritePushPromise? && !ValidStream(promise) then Err(InvalidStreamID)
      else if WriteWindowUpdate? && !(1 <= increment < MAX_STREAM) then Err(IllegalIncrement)
      else if |Payload()| >= MAX_LENGTH then Err(FrameTooLarge)
      else Ok(())
    }

    function Bytes(): seq<Byte> { Wire(Typ(), Flags(), For(), Payload()) }

    /** The frame that the caller means. */
    function Meaning(): Frame {
      var fh := Header(|Payload()|, Typ(), Flags(), For());
      match this
      case WriteData(_, _, data) => DataFrame(fh, data)
      case WriteHeaders(_, fragment, _, _, _, priority) => HeadersFrame(fh, priority, fragment)
      case WritePriority(_, priority) => PriorityFrame(fh, priority)
      case WriteRSTStream(_, code) => RSTStreamFrame(fh, code)
      case WriteSettings(list) => SettingsFrame(fh, list)
      case WriteSettingsAck => SettingsFrame(fh, [])
      case WritePing(_, ping) => PingFrame(fh, ping)
      case WriteGoAway(last, code, debug) => GoAwayFrame(fh, last, code, debug)
      case WriteWindowUpdate(_, increment) => WindowUpdateFrame(fh, increment)
      case WriteContinuation(_, _, fragment) => ContinuationFrame(fh, fragment)
      case WritePushPromise(_, promise, fragment, _, _) => PushPromiseFrame(fh, promise, fragment)
    }

    /** Of the frames that a writer lets through, those that a reader takes for what they were. */
    predicate ReadsBack() {
      match this
      case WriteHeaders(_, fragment, _, _, _, _) => fragment != []
      case WritePriority(_, priority) => priority.dep < MAX_STREAM
      case WriteSettings(list) => !AsksTooMuch(list)
      case WriteGoAway(last, _, _) => last < MAX_STREAM
      case WriteWindowUpdate(id, _) => id < MAX_STREAM
      case _ => true
    }
  }

  predicate ValidStream(id: nat) { 0 < id < MAX_STREAM }

  function PadLength(pad: Byte): seq<Byte> { if pad != 0 then [pad] else [] }

  function PriorityBytes(p: Priority): seq<Byte> {
    U32(PriorityWord(p)) + [p.weight]
  }

  /** The dependency with the exclusive bit. */
  function PriorityWord(p: Priority): nat {
    if p.exclusive then WithTopBit(p.dep) else p.dep
  }

  /** A uint32 with its highest bit set. */
  function WithTopBit(v: nat): nat { if v < MAX_STREAM then v + MAX_STREAM else v }

  function SettingsBytes(list: seq<(nat, nat)>): seq<Byte> {
    if list == [] then [] else U16(list[0].0) + U32(list[0].1) + SettingsBytes(list[1..])
  }

  /** The first initial window size in some settings is out of range. */
  predicate AsksTooMuch(list: seq<(nat, nat)>) {
    list != [] && if list[0].0 == SETTING_INITIAL_WINDOW_SIZE then list[0].1 >= MAX_STREAM else AsksTooMuch(list[1..])
  }

  lemma SettingReads(id: nat, val: nat, rest: seq<Byte>)
    requires id < 0x1_0000 && val < MAX_UINT32
    ensures var p := U16(id) + U32(val) + rest;
      |p| == 6 + |rest| && ReadU16(p) == id && ReadU32(p[2..6]) == val && p[6..] == rest
  {
    var p := U16(id) + U32(val) + rest;
    U16Reads(id, U32(val) + rest);
    U32Reads(val, []);
    assert p == U16(id) + (U32(val) + rest);
    assert p[2..6] == U32(val) + [];
  }

  /** One setting in front of others is read, and decides or leaves it to them. */
  lemma {:induction false} SettingFirst(id: nat, val: nat, rest: seq<Byte>)
    requires id < 0x1_0000 && val < MAX_UINT32 && |rest| % 6 == 0
    ensures var p := U16(id) + U32(val) + rest;
      && |p| % 6 == 0 && ReadSettings(p) == [(id, val)] + ReadSettings(rest)
      && WindowTooLarge(p) == if id == SETTING_INITIAL_WINDOW_SIZE then val >= MAX_STREAM else WindowTooLarge(rest)
  {
    SettingReads(id, val, rest);
  }

  /** The settings of a payload are those that were listed, in order, and the initial window that is
      looked for is the first one listed. */
  lemma {:induction false} SettingsRead(list: seq<(nat, nat)>)
    requires WriteSettings(list).Typed()
    ensures |SettingsBytes(list)| % 6 == 0 && ReadSettings(SettingsBytes(list)) == list
    ensures WindowTooLarge(SettingsBytes(list)) == AsksTooMuch(list)
  {
    if list != [] {
      SettingsRead(list[1..]);
      SettingFirst(list[0].0, list[0].1, SettingsBytes(list[1..]));
      assert list == [list[0]] + list[1..];
    }
  }

  lemma ToPriorityOf(p: Priority)
    requires p.dep < MAX_UINT32
    ensures ToPriority(PriorityWord(p), p.weight) == p <==> p.dep < MAX_STREAM
    ensures PriorityWord(p) < MAX_UINT32
  {
  }

  lemma PriorityReads(p: Priority, rest: seq<Byte>)
    requires p.dep < MAX_UINT32
    ensures var b := PriorityBytes(p) + rest;
      |b| >= 5 && b[5..] == rest && (ToPriority(ReadU32(b), b[4]) == p <==> p.dep < MAX_STREAM)
  {
    var b := PriorityBytes(p) + rest;
    ToPriorityOf(p);
    assert b == U32(PriorityWord(p)) + ([p.weight] + rest);
    U32Reads(PriorityWord(p), [p.weight] + rest);
  }

  /** Each flag is there if it was asked for, and no other is mistaken for it. */
  lemma FlagsRead(a: bool, b: bool, c: bool, d: bool)
    ensures var f := Bit(a, PADDED) + Bit(b, END_STREAM) + Bit(c, END_HEADERS) + Bit(d, WITH_PRIORITY);
      Has(f, PADDED) == a && Has(f, END_STREAM) == b && Has(f, END_HEADERS) == c && Has(f, WITH_PRIORITY) == d
  {
  }

  /** The padding length is read if and only if it was written. */
  lemma PadReads(fh: Header, pad: Byte, body: seq<Byte>)
    requires fh.stream != 0 && Has(fh.flags, PADDED) == (pad != 0)
    ensures ParseHeaders(fh, PadLength(pad) + body) == ParseHeadersBody(fh, body, pad)
    ensures ParsePushPromise(fh, PadLength(pad) + body) == ParsePushPromiseBody(fh, body, pad)
  {
    var p := PadLength(pad) + body;
    assert if pad != 0 then p[0] == pad && p[1..] == body else p == body;
  }

  /** So is the priority. */
  lemma HeadersBodyReads(fh: Header, priority: Priority, tail: seq<Byte>, pad: Byte)
    requires Has(fh.flags, WITH_PRIORITY) == !priority.IsZero() && priority.dep < MAX_STREAM
    ensures var body := (if priority.IsZero() then [] else PriorityBytes(priority)) + tail;
      ParseHeadersBody(fh, body, pad) == ParseFragment(fh, priority, tail, pad)
  {
    if priority.IsZero() {
      assert [] + tail == tail;
    } else {
      PriorityReads(priority, tail);
    }
  }

  lemma FragmentReads(fh: Header, priority: Priority, fragment: seq<Byte>, pad: Byte)
    ensures ParseFragment(fh, priority, fragment + Zeros(pad), pad) == Ok(HeadersFrame(fh, priority, fragment)) <==>
      fragment != []
  {
    assert (fragment + Zeros(pad))[..|fragment|] == fragment;
  }

  lemma HeadersPayload(w: Request, priority: seq<Byte>)
    requires w.WriteHeaders? && priority == if w.priority.IsZero() then [] else PriorityBytes(w.priority)
    ensures w.Payload() == PadLength(w.pad) + (priority + (w.fragment + Zeros(w.pad)))
  {
  }

  lemma HeadersRead(w: Request)
    requires w.WriteHeaders? && w.Typed() && w.Refusal().Ok?
    ensures Parse(w.Meaning().fh, w.Payload()) == Ok(w.Meaning()) <==> w.fragment != []
  {
    FlagsRead(w.pad != 0, w.endStream, w.endHeaders, !w.priority.IsZero());
    var fh := w.Meaning().fh;
    var tail, bytes := w.fragment + Zeros(w.pad), if w.priority.IsZero() then [] else PriorityBytes(w.priority);
    hide ParseHeadersBody, ParseFragment, PriorityBytes, ParseHeaders, Has, Zeros, PadLength;
    HeadersPayload(w, bytes);
    PadReads(fh, w.pad, bytes + tail);
    HeadersBodyReads(fh, w.priority, tail, w.pad);
    FragmentReads(fh, w.priority, w.fragment, w.pad);
  }

  lemma PromiseBodyReads(fh: Header, promise: nat, fragment: seq<Byte>, pad: Byte)
    requires promise < MAX_STREAM
    ensures ParsePushPromiseBody(fh, U32(promise) + (fragment + Zeros(pad)), pad) ==
      Ok(PushPromiseFrame(fh, promise, fragment))
  {
    var body := U32(promise) + (fragment + Zeros(pad));
    U32Reads(promise, fragment + Zeros(pad));
    assert body[4..|body| - pad] == fragment;
  }

  lemma PushPromiseReads(w: Request)
    requires w.WritePushPromise? && w.Typed() && w.Refusal().Ok?
    ensures Parse(w.Meaning().fh, w.Payload()) == Ok(w.Meaning())
  {
    FlagsRead(w.pad != 0, false, w.endHeaders, false);
    var fh := w.Meaning().fh;
    var body := U32(w.promise) + (w.fragment + Zeros(w.pad));
    assert w.Payload() == PadLength(w.pad) + body;
    hide ParsePushPromiseBody, ParsePushPromise, Has, Zeros, PadLength, U32;
    PadReads(fh, w.pad, body);
    PromiseBodyReads(fh, w.promise, w.fragment, w.pad);
  }

  lemma GoAwayReads(w: Request)
    requires w.WriteGoAway? && w.Typed()
    ensures Parse(w.Meaning().fh, w.Payload()) == Ok(w.Meaning()) <==> w.last < MAX_STREAM
  {
    var p := w.Payload();
    assert p == U32(w.last % MAX_STREAM) + (U32(w.code) + w.debug);
    U32Reads(w.last % MAX_STREAM, U32(w.code) + w.debug);
    U32Reads(w.code, w.debug);
    assert p[4..] == U32(w.code) + w.debug && p[8..] == w.debug;
  }

  lemma NumberReads(w: Request)
    requires (w.WritePriority? || w.WriteRSTStream? || w.WriteWindowUpdate?) && w.Typed() && w.Refusal().Ok?
    requires w.stream < MAX_STREAM
    ensures Parse(w.Meaning().fh, w.Payload()) == Ok(w.Meaning()) <==> w.ReadsBack()
  {
    match w
    case WritePriority(_, priority) =>
      PriorityReads(priority, []);
      assert PriorityBytes(priority) + [] == PriorityBytes(priority);
    case WriteRSTStream(_, code) => U32Reads(code, []); assert U32(code) + [] == U32(code);
    case WriteWindowUpdate(_, increment) => U32Reads(increment, []); assert U32(increment) + [] == U32(increment);
  }

  lemma PlainReads(w: Request)
    requires (w.WriteData? || w.WriteSettingsAck? || w.WritePing? || w.WriteContinuation?) && w.Typed()
    requires w.Refusal().Ok?
    ensures Parse(w.Meaning().fh, w.Payload()) == Ok(w.Meaning())
  {
    FlagsRead(false, w.WriteData? && w.endStream, false, false);
  }

  lemma SettingsFrameReads(w: Request)
    requires w.WriteSettings? && w.Typed()
    ensures Parse(w.Meaning().fh, w.Payload()) == Ok(w.Meaning()) <==> w.ReadsBack()
  {
    SettingsRead(w.settings);
  }

  /** Payloads: parsed under the header that the caller meant, a payload gives what the caller meant,
      exactly if ReadsBack says so (the reserved bit of the stream is the header's affair). */
  lemma PayloadReads(w: Request)
    requires w.Typed() && w.Refusal().Ok? && (w.WriteWindowUpdate? ==> w.stream < MAX_STREAM)
    ensures Parse(w.Meaning().fh, w.Payload()) == Ok(w.Meaning()) <==> w.ReadsBack()
  {
    hide Parse, Request.Payload, Request.Meaning;
    match w
    case WriteHeaders(_, _, _, _, _, _) => HeadersRead(w);
    case WritePushPromise(_, _, _, _, _) => PushPromiseReads(w);
    case WriteGoAway(_, _, _) => GoAwayReads(w);
    case WriteSettings(_) => SettingsFrameReads(w);
    case WritePriority(_, _) => NumberReads(w);
    case WriteRSTStream(_, _) => NumberReads(w);
    case WriteWindowUpdate(_, _) => NumberReads(w);
    case _ => PlainReads(w);
  }

  /** A parsed frame carries the header it was parsed under. */
  lemma ParseKeepsHeader(fh: Header, p: seq<Byte>)
    ensures Parse(fh, p).Ok? ==> Parse(fh, p).value.fh == fh
  {
    if fh.typ == HEADERS && Parse(fh, p).Ok? {
      assert ParseHeaders(fh, p).value.fh == fh;
    }
  }

  lemma ReadAs(fh: Header, p: seq<Byte>, f: Frame, rest: seq<Byte>, max: nat)
    requires fh.length == |p| <= max && |p| < MAX_LENGTH && fh.stream < MAX_STREAM
    ensures ReadOne(Wire(fh.typ, fh.flags, fh.stream, p) + rest, max) == Ok((f, rest)) <==> Parse(fh, p) == Ok(f)
  {
    assert Header(|p|, fh.typ, fh.flags, fh.stream % MAX_STREAM) == fh;
    ReadWire(fh.typ, fh.flags, fh.stream, p, rest, max);
    var parsed := Parse(fh, p);
    assert ReadOne(Wire(fh.typ, fh.flags, fh.stream, p) + rest, max) == With(parsed, rest);
    WithOk(parsed, f, rest);
  }

  /** Frames whose stream has the reserved bit are read as another stream's. */
  lemma ReservedBitLost(w: Request, rest: seq<Byte>, max: nat)
    requires w.Typed() && w.Refusal().Ok? && |w.Payload()| <= max && MAX_STREAM <= w.For() < MAX_UINT32
    ensures ReadOne(w.Bytes() + rest, max) != Ok((w.Meaning(), rest))
  {
    ReadWire(w.Typ(), w.Flags(), w.For(), w.Payload(), rest, max);
    ParseKeepsHeader(Header(|w.Payload()|, w.Typ(), w.Flags(), w.For() % MAX_STREAM), w.Payload());
  }

  /** The codec: the bytes of a frame that the writer accepts are read back as the frame that was meant,
      with nothing of what follows them, if and only if ReadsBack holds of it. */
  lemma RoundTrip(w: Request, rest: seq<Byte>, max: nat)
    requires w.Typed() && w.Refusal().Ok? && |w.Payload()| <= max
    ensures ReadOne(w.Bytes() + rest, max) == Ok((w.Meaning(), rest)) <==> w.ReadsBack()
  {
    if w.For() >= MAX_STREAM {
      ReservedBitLost(w, rest, max);
    } else {
      PayloadReads(w);
      var fh := Header(|w.Payload()|, w.Typ(), w.Flags(), w.For());
      assert w.Meaning().fh == fh;
      ReadAs(fh, w.Payload(), w.Meaning(), rest, max);
    }
  }

  /** For one, a HEADERS frame without a fragment is written and then refused. */
  lemma EmptyHeadersRefused(rest: seq<Byte>)
    ensures var w := WriteHeaders(1, [], true, true, 0, Priority(0, false, 0));
      w.Refusal() == Ok(()) && ReadOne(w.Bytes() + rest, 0) == Err(StreamError(1, ProtocolError))
  {
    var w := WriteHeaders(1, [], true, true, 0, Priority(0, false, 0));
    FlagsRead(false, true, true, false);
    assert w.Payload() == [];
    ReadWire(HEADERS, w.Flags(), 1, [], rest, 0);
  }
}

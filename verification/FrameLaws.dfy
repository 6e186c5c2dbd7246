/** What the parsers of HTTP/2 frames accept, said over bytes and numbers (sections 4.1 and 6 of RFC 7540): the layout
    of every kind of frame, with its padding, and what is wrong with payloads that have none. */
module FrameLaws {
  import opened Utf8
  import opened Frames

  /** A number in network byte order. */
  function BigEndian(bs: seq<Byte>): nat {
    if bs == [] then 0 else BigEndian(bs[..|bs| - 1]) * 256 + bs[|bs| - 1]
  }

  lemma {:induction false} BigEndianReads(p: seq<Byte>)
    ensures |p| >= 2 ==> ReadU16(p) == BigEndian(p[..2])
    ensures |p| >= 3 ==> ReadU24(p) == BigEndian(p[..3])
    ensures |p| >= 4 ==> ReadU32(p) == BigEndian(p[..4])
  {
    if |p| >= 1 { assert p[..1][..0] == [] && BigEndian(p[..1]) == p[0]; }
    if |p| >= 2 { assert p[..2][..1] == p[..1] && BigEndian(p[..2]) == p[0] as int * 0x100 + p[1]; }
    if |p| >= 3 {
      assert p[..3][..2] == p[..2] && BigEndian(p[..3]) == p[0] as int * 0x1_0000 + p[1] as int * 0x100 + p[2];
    }
    if |p| >= 4 { assert p[..4][..3] == p[..3]; }
  }

  /** A frame's header: three bytes of length, the type, the flags, and four bytes of stream whose highest bit is
      reserved. */
  lemma HeaderReads(b: seq<Byte>)
    requires |b| >= 9
    ensures ReadHeader(b) == Header(BigEndian(b[..3]), b[3], b[4], BigEndian(b[5..9]) % 0x8000_0000)
  {
    BigEndianReads(b);
    BigEndianReads(b[5..]);
    assert b[5..][..4] == b[5..9];
  }

  // ---------------------------------------------------------------- layouts

  /** The payload is the body, with padding around it if so: its length in front, any bytes behind. */
  ghost predicate Padded(p: seq<Byte>, padded: bool, body: seq<Byte>) {
    if padded then p != [] && |p| == 1 + |body| + p[0] && p[1..1 + |body|] == body else p == body
  }

  /** Five bytes of priority: a bit, 31 bits of dependency, and the weight. */
  ghost predicate Prioritized(b: seq<Byte>, p: Priority) {
    && |b| == 5 && p.weight == b[4]
    && BigEndian(b[..4]) == p.dep + (if p.exclusive then 0x8000_0000 else 0) && p.dep < 0x8000_0000
  }

  /** The payload of a SETTINGS frame: two bytes and four for each setting. */
  ghost predicate Lists(p: seq<Byte>, list: seq<(nat, nat)>)
    decreases |list|
  {
    if list == [] then p == []
    else |p| >= 6 && list[0] == (BigEndian(p[..2]), BigEndian(p[2..6])) && Lists(p[6..], list[1..])
  }

  /** The first initial window that is listed, if there is one, is at most 2^31-1. */
  predicate WindowOk(list: seq<(nat, nat)>) {
    list == [] || if list[0].0 == 4 then list[0].1 <= 0x7fff_ffff else WindowOk(list[1..])
  }

  /** A frame of this header and payload, by section 6 of RFC 7540; but HEADERS must have a fragment. */
  ghost predicate Carries(fh: Header, p: seq<Byte>, f: Frame) {
    f.fh == fh &&
    match f
    case DataFrame(_, data) => fh.typ == 0 && fh.stream != 0 && Padded(p, Has(fh.flags, 8), data)
    case HeadersFrame(_, priority, fragment) =>
      && fh.typ == 1 && fh.stream != 0 && fragment != []
      && CarriesHeaders(p, Has(fh.flags, 8), Has(fh.flags, 32), priority, fragment)
    case PriorityFrame(_, priority) => fh.typ == 2 && fh.stream != 0 && Prioritized(p, priority)
    case RSTStreamFrame(_, code) => fh.typ == 3 && fh.stream != 0 && |p| == 4 && code == BigEndian(p)
    case SettingsFrame(_, list) =>
      fh.typ == 4 && fh.stream == 0 && (Has(fh.flags, 1) ==> fh.length == 0) && Lists(p, list) && WindowOk(list)
    case PushPromiseFrame(_, promise, fragment) =>
      fh.typ == 5 && fh.stream != 0 && CarriesPromise(p, Has(fh.flags, 8), promise, fragment)
    case PingFrame(_, ping) => fh.typ == 6 && fh.stream == 0 && |p| == 8 && ping == p
    case GoAwayFrame(_, last, code, debug) =>
      && fh.typ == 7 && fh.stream == 0 && |p| >= 8
      && last == BigEndian(p[..4]) % 0x8000_0000 && code == BigEndian(p[4..8]) && debug == p[8..]
    case WindowUpdateFrame(_, increment) =>
      fh.typ == 8 && |p| == 4 && increment == BigEndian(p) % 0x8000_0000 && increment != 0
    case ContinuationFrame(_, fragment) => fh.typ == 9 && fh.stream != 0 && fragment == p
    case UnknownFrame(_, payload) => fh.typ > 9 && payload == p
  }

  ghost predicate CarriesHeaders(p: seq<Byte>, padded: bool, prioritized: bool, priority: Priority,
                                 fragment: seq<Byte>) {
    if prioritized then exists b :: Prioritized(b, priority) && Padded(p, padded, b + fragment)
    else priority == Priority(0, false, 0) && Padded(p, padded, fragment)
  }

  ghost predicate CarriesPromise(p: seq<Byte>, padded: bool, promise: nat, fragment: seq<Byte>) {
    exists b :: |b| == 4 && promise == BigEndian(b) % 0x8000_0000 && Padded(p, padded, b + fragment)
  }

  // ---------------------------------------------------------------- what is parsed

  /** The body of a padded payload is what is left when its ends are cut off. */
  lemma Unpadded(p: seq<Byte>, body: seq<Byte>)
    ensures Padded(p, true, body) <==> p != [] && p[0] < |p| && body == p[1..|p| - p[0]]
  {
  }

  lemma DataExact(fh: Header, p: seq<Byte>, f: Frame)
    requires fh.typ == 0
    ensures Parse(fh, p) == Ok(f) <==> Carries(fh, p, f)
  {
    if f.DataFrame? { Unpadded(p, f.data); }
  }

  lemma PriorityMeans(p: seq<Byte>, priority: Priority)
    requires |p| >= 5
    ensures ToPriority(ReadU32(p), p[4]) == priority <==> Prioritized(p[..5], priority)
  {
    BigEndianReads(p);
    assert p[..5][..4] == p[..4];
    FourBytes(p[..4]);
    hide BigEndian, ReadU32;
    WordMeans(BigEndian(p[..4]), p[4], priority);
  }

  lemma WordMeans(v: nat, weight: Byte, priority: Priority)
    requires v < 0x1_0000_0000
    ensures ToPriority(v, weight) == priority <==>
      && priority.weight == weight && priority.dep < 0x8000_0000
      && v == priority.dep + if priority.exclusive then 0x8000_0000 else 0
  {
  }

  lemma {:induction false} FourBytes(p: seq<Byte>)
    requires |p| == 4
    ensures BigEndian(p) < 0x1_0000_0000
  {
    BigEndianReads(p);
    assert p[..4] == p;
  }

  lemma NumberExact(fh: Header, p: seq<Byte>, f: Frame)
    requires fh.typ == 2 || fh.typ == 3 || fh.typ == 6 || fh.typ == 7 || fh.typ == 8 || fh.typ > 8
    ensures Parse(fh, p) == Ok(f) <==> Carries(fh, p, f)
  {
    BigEndianReads(p);
    if |p| == 5 { PriorityMeans(p, ToPriority(ReadU32(p), p[4])); assert p[..5] == p; }
    if |p| == 5 && f.PriorityFrame? { PriorityMeans(p, f.priority); }
    if |p| == 4 { assert p[..4] == p; }
    if |p| >= 8 { BigEndianReads(p[4..]); assert p[4..][..4] == p[4..8]; }
  }

  lemma HeadersBodyExact(fh: Header, p: seq<Byte>, pad: Byte, priority: Priority, fragment: seq<Byte>)
    requires pad <= |p|
    ensures ParseHeadersBody(fh, p, pad) == Ok(HeadersFrame(fh, priority, fragment)) <==>
      fragment != [] && CarriesHeaders(p[..|p| - pad], false, Has(fh.flags, 32), priority, fragment)
  {
    var body := p[..|p| - pad];
    if Has(fh.flags, 32) {
      if |body| >= 5 {
        PriorityMeans(p, priority);
        assert p[..5] == body[..5] && body == body[..5] + body[5..] && p[5..][..|p[5..]| - pad] == body[5..];
      }
      if b :| Prioritized(b, priority) && Padded(body, false, b + fragment) {
        assert body[..5] == b && body[5..] == fragment;
      }
    }
  }

  lemma CarriedBehindPad(p: seq<Byte>, prioritized: bool, priority: Priority, fragment: seq<Byte>)
    ensures CarriesHeaders(p, true, prioritized, priority, fragment) <==>
      p != [] && p[0] < |p| && CarriesHeaders(p[1..|p| - p[0]], false, prioritized, priority, fragment)
  {
    Unpadded(p, fragment);
    forall b: seq<Byte>
      ensures Padded(p, true, b + fragment) <==> p != [] && p[0] < |p| && Padded(p[1..|p| - p[0]], false, b + fragment)
    {
      Unpadded(p, b + fragment);
    }
  }

  lemma HeadersExact(fh: Header, p: seq<Byte>, f: Frame)
    requires fh.typ == 1
    ensures Parse(fh, p) == Ok(f) <==> Carries(fh, p, f)
  {
    ParseKeepsHeader(fh, p);
    if f.HeadersFrame? && f.fh == fh {
      if Has(fh.flags, 8) {
        CarriedBehindPad(p, Has(fh.flags, 32), f.priority, f.fragment);
        if p != [] && p[0] < |p| {
          HeadersBodyExact(fh, p[1..], p[0], f.priority, f.fragment);
          assert p[1..][..|p[1..]| - p[0]] == p[1..|p| - p[0]];
        }
      } else {
        HeadersBodyExact(fh, p, 0, f.priority, f.fragment);
        assert p[..|p| - 0] == p;
      }
    }
  }

  lemma PromiseBodyExact(fh: Header, p: seq<Byte>, pad: Byte, promise: nat, fragment: seq<Byte>)
    requires pad <= |p|
    ensures ParsePushPromiseBody(fh, p, pad) == Ok(PushPromiseFrame(fh, promise, fragment)) <==>
      CarriesPromise(p[..|p| - pad], false, promise, fragment)
  {
    var body := p[..|p| - pad];
    BigEndianReads(p);
    if |body| >= 4 { assert p[..4] == body[..4] && body == body[..4] + body[4..] && p[4..|p| - pad] == body[4..]; }
    if b :| |b| == 4 && promise == BigEndian(b) % 0x8000_0000 && Padded(body, false, b + fragment) {
      assert body[..4] == b && body[4..] == fragment;
    }
  }

  lemma PromisedBehindPad(p: seq<Byte>, promise: nat, fragment: seq<Byte>)
    ensures CarriesPromise(p, true, promise, fragment) <==>
      p != [] && p[0] < |p| && CarriesPromise(p[1..|p| - p[0]], false, promise, fragment)
  {
    forall b: seq<Byte>
      ensures Padded(p, true, b + fragment) <==> p != [] && p[0] < |p| && Padded(p[1..|p| - p[0]], false, b + fragment)
    {
      Unpadded(p, b + fragment);
    }
  }

  lemma PromiseExact(fh: Header, p: seq<Byte>, f: Frame)
    requires fh.typ == 5
    ensures Parse(fh, p) == Ok(f) <==> Carries(fh, p, f)
  {
    ParseKeepsHeader(fh, p);
    if f.PushPromiseFrame? && f.fh == fh {
      if Has(fh.flags, 8) {
        PromisedBehindPad(p, f.promise, f.fragment);
        if p != [] && p[0] < |p| {
          PromiseBodyExact(fh, p[1..], p[0], f.promise, f.fragment);
          assert p[1..][..|p[1..]| - p[0]] == p[1..|p| - p[0]];
        }
      } else {
        PromiseBodyExact(fh, p, 0, f.promise, f.fragment);
        assert p[..|p| - 0] == p;
      }
    }
  }

  lemma {:induction false} ListsExact(p: seq<Byte>, list: seq<(nat, nat)>)
    ensures Lists(p, list) <==> |p| % 6 == 0 && ReadSettings(p) == list
    ensures |p| % 6 == 0 ==> (WindowOk(ReadSettings(p)) <==> !WindowTooLarge(p))
    decreases |p|
  {
    if |p| >= 6 {
      BigEndianReads(p);
      BigEndianReads(p[2..6]);
      assert p[2..6][..4] == p[2..6];
      ListsExact(p[6..], if list == [] then [] else list[1..]);
      if |p| % 6 == 0 && ReadSettings(p) == list {
        assert list == [list[0]] + list[1..] && list[1..] == ReadSettings(p[6..]);
      }
      if |p| % 6 == 0 { assert ReadSettings(p)[1..] == ReadSettings(p[6..]); }
    }
  }

  lemma SettingsExact(fh: Header, p: seq<Byte>, f: Frame)
    requires fh.typ == 4
    ensures Parse(fh, p) == Ok(f) <==> Carries(fh, p, f)
  {
    if f.SettingsFrame? { ListsExact(p, f.settings); }
  }

  /** A payload is parsed as a frame if and only if it is laid out as one. */
  lemma ParseExact(fh: Header, p: seq<Byte>, f: Frame)
    ensures Parse(fh, p) == Ok(f) <==> Carries(fh, p, f)
  {
    hide Parse, Carries;
    if fh.typ == 0 { DataExact(fh, p, f); }
    else if fh.typ == 1 { HeadersExact(fh, p, f); }
    else if fh.typ == 4 { SettingsExact(fh, p, f); }
    else if fh.typ == 5 { PromiseExact(fh, p, f); }
    else { NumberExact(fh, p, f); }
  }

  /** What is read off some input: nine bytes of header, which say how many of payload there are, and these laid out as
      the frame; a frame that is too large or cut short is not read. */
  lemma ReadExact(b: seq<Byte>, max: nat, f: Frame, rest: seq<Byte>)
    ensures ReadOne(b, max) == Ok((f, rest)) <==>
      && |b| >= 9
      && var fh := Header(BigEndian(b[..3]), b[3], b[4], BigEndian(b[5..9]) % 0x8000_0000);
      fh.length <= max && |b| >= 9 + fh.length && rest == b[9 + fh.length..] && Carries(fh, b[9..9 + fh.length], f)
  {
    hide Parse, Carries, ReadHeader, BigEndian;
    if |b| >= 9 {
      HeaderReads(b);
      var fh := ReadHeader(b);
      if |b| >= 9 + fh.length { ParseExact(fh, b[9..9 + fh.length], f); }
    }
  }

  /** How a read fails before there is a payload to parse. */
  lemma CutShort(b: seq<Byte>, max: nat)
    ensures b == [] ==> ReadOne(b, max) == Err(EndOfInput)
    ensures 0 < |b| < 9 ==> ReadOne(b, max) == Err(UnexpectedEOF)
    ensures |b| >= 9 && BigEndian(b[..3]) > max ==> ReadOne(b, max) == Err(FrameTooLarge)
    ensures |b| >= 9 && |b| - 9 < BigEndian(b[..3]) <= max ==>
      ReadOne(b, max) == Err(if |b| == 9 then EndOfInput else UnexpectedEOF)
  {
    if |b| >= 9 { HeaderReads(b); }
    hide Parse, ReadHeader, BigEndian;
  }

  // ---------------------------------------------------------------- DATA

  /** Padded DATA is read as its data, whatever the padding holds. */
  lemma PaddedDataReads(fh: Header, data: seq<Byte>, padding: seq<Byte>)
    requires fh.typ == 0 && fh.stream != 0 && Has(fh.flags, 8) && |padding| < 256
    ensures Parse(fh, [|padding|] + data + padding) == Ok(DataFrame(fh, data))
  {
    var p := [|padding|] + data + padding;
    assert p[1..1 + |data|] == data;
    ParseExact(fh, p, DataFrame(fh, data));
  }

  /** What is wrong with a payload: for each kind of frame in the order in which it is looked for. */
  lemma Refused(fh: Header, p: seq<Byte>)
    ensures fh.typ in {0, 1, 2, 5, 9} && fh.stream == 0 ==> Parse(fh, p) == Err(ConnectionError(ProtocolError))
    ensures fh.typ in {0, 1, 5} && fh.stream != 0 && Has(fh.flags, 8) && p == [] ==> Parse(fh, p) == Err(UnexpectedEOF)
    ensures fh.typ == 0 && fh.stream != 0 && Has(fh.flags, 8) && p != [] && p[0] >= |p| ==>
      Parse(fh, p) == Err(ConnectionError(ProtocolError))
    ensures fh.typ == 2 && fh.stream != 0 && |p| != 5 ==> Parse(fh, p) == Err(ConnectionError(FrameSizeError))
    ensures fh.typ in {3, 8} && |p| != 4 ==> Parse(fh, p) == Err(ConnectionError(FrameSizeError))
    ensures fh.typ == 3 && |p| == 4 && fh.stream == 0 ==> Parse(fh, p) == Err(ConnectionError(ProtocolError))
    ensures fh.typ == 6 && |p| != 8 ==> Parse(fh, p) == Err(ConnectionError(FrameSizeError))
    ensures fh.typ == 6 && |p| == 8 && fh.stream != 0 ==> Parse(fh, p) == Err(ConnectionError(ProtocolError))
    ensures fh.typ == 7 && fh.stream != 0 ==> Parse(fh, p) == Err(ConnectionError(ProtocolError))
    ensures fh.typ == 7 && fh.stream == 0 && |p| < 8 ==> Parse(fh, p) == Err(ConnectionError(FrameSizeError))
  {
  }

  /** An error of its stream alone is HEADERS without a fragment, or an increment of 0. */
  lemma StreamErrors(fh: Header, p: seq<Byte>)
    ensures Parse(fh, p).Err? && Parse(fh, p).error.StreamError? ==>
      && Parse(fh, p).error == StreamError(fh.stream, ProtocolError) && fh.stream != 0
      && (fh.typ == 1 || (fh.typ == 8 && |p| == 4 && BigEndian(p) % 0x8000_0000 == 0))
  {
    if fh.typ == 8 {
      BigEndianReads(p);
      if |p| == 4 { assert p[..4] == p; }
    }
    hide BigEndian, ReadU32, ToPriority, ReadSettings, WindowTooLarge;
  }
}

/** Interface information in ICMP extensions (net/icmp/interface.go, RFC 5837): which attributes an object holds, what
    they say, and which of what is written can be read back. */
module Interfaces {
  import opened ByteSeqs
  import opened Utf8

  const AFI_IPV4 := 1
  const AFI_IPV6 := 2

  /** The bits of an object's type that say which attributes it holds, in the order in which these stand. */
  datatype Attrs = Attrs(ifIndex: bool, ipAddr: bool, name: bool, mtu: bool)

  const NO_ATTRS := Attrs(false, false, false, false)

  function AttrsOf(typ: Byte): Attrs { Attrs(typ / 8 % 2 == 1, typ / 4 % 2 == 1, typ / 2 % 2 == 1, typ % 2 == 1) }

  /** What an object says of an interface; 0 and the empty sequence where it says nothing. */
  datatype Info = Info(index: nat, addr: seq<Byte>, name: seq<Byte>, mtu: nat)

  const NO_INFO := Info(0, [], [], 0)

  datatype Result = Unreadable | Read(info: Info)

  // ---------------------------------------------------------------- numbers and names

  function Number(b: seq<Byte>): nat
    requires |b| >= 4
  {
    b[0] as int * 0x100_0000 + b[1] as int * 0x1_0000 + b[2] as int * 0x100 + b[3] as int
  }

  function NumberBytes(n: nat): (b: seq<Byte>)
    ensures |b| == 4
  {
    [n / 0x100_0000 % 0x100, n / 0x1_0000 % 0x100, n / 0x100 % 0x100, n % 0x100]
  }

  /** strings.Trim(s, "\000"). */
  function Trim(s: seq<Byte>): (r: seq<Byte>)
    ensures |r| <= |s|
  {
    if s == [] then []
    else if s[0] == 0 then Trim(s[1..])
    else if s[|s| - 1] == 0 then Trim(s[..|s| - 1])
    else s
  }

  /** A name's length on the wire, with the byte that says it. */
  function NameLength(name: seq<Byte>): (l: nat)
    ensures 4 <= l <= 64 && l % 4 == 0
  {
    if |name| > 63 then 64 else (1 + |name| + 3) / 4 * 4
  }

  /** A name on the wire: its length, as much of it as fits, and zeros. */
  function NameBytes(name: seq<Byte>): (b: seq<Byte>)
    ensures |b| == NameLength(name)
  {
    var kept := if |name| > 63 then name[..63] else name;
    [NameLength(name)] + kept + Zeros(NameLength(name) - 1 - |kept|)
  }

  // ---------------------------------------------------------------- reading

  predicate NameFits(b: seq<Byte>) { |b| >= 4 && b[0] as int <= |b| && b[0] % 4 == 0 && 4 <= b[0] <= 64 }

  /** How many bytes an address attribute has: none of an unknown family's. */
  function AddrLength(b: seq<Byte>): nat
    requires |b| >= 4
  {
    var afi := b[0] as int * 0x100 + b[1] as int;
    if afi == AFI_IPV4 then 8 else if afi == AFI_IPV6 then 20 else 4
  }

  /** The attributes that b holds, up to its end. */
  function ReadAttrs(b: seq<Byte>, a: Attrs, info: Info): Result
    decreases |b|
  {
    if b == [] then Read(info)
    else if a.ifIndex then
      if |b| < 4 then Unreadable else ReadAttrs(b[4..], a.(ifIndex := false), info.(index := Number(b)))
    else if a.ipAddr then
      if |b| < 4 || AddrLength(b) > |b| then Unreadable else
      var n := AddrLength(b);
      ReadAttrs(b[n..], a.(ipAddr := false), if n == 4 then info else info.(addr := b[4..n]))
    else if a.name then
      if !NameFits(b) then Unreadable else
      ReadAttrs(b[b[0]..], a.(name := false), info.(name := Trim(b[1..b[0]])))
    else if a.mtu then
      if |b| < 4 then Unreadable else Read(info.(mtu := Number(b)))
    else Read(info)
  }

  /** The loop of parseInterfaceInfo. */
  method ParseAttrs(b: seq<Byte>, attrs: Attrs) returns (r: Result)
    ensures r == ReadAttrs(b, attrs, NO_INFO)
  {
    var left, a, info := b, attrs, NO_INFO;
    while |left| > 0 && a != NO_ATTRS
      invariant ReadAttrs(left, a, info) == ReadAttrs(b, attrs, NO_INFO)
      decreases |left|
    {
      if a.ifIndex {
        if |left| < 4 { return Unreadable; }
        info, left, a := info.(index := Number(left)), left[4..], a.(ifIndex := false);
      } else if a.ipAddr {
        if |left| < 4 || |left| < AddrLength(left) { return Unreadable; }
        var n := AddrLength(left);
        if n > 4 { info := info.(addr := left[4..n]); }
        left, a := left[n..], a.(ipAddr := false);
      } else if a.name {
        if !NameFits(left) { return Unreadable; }
        info, left, a := info.(name := Trim(left[1..left[0]])), left[left[0]..], a.(name := false);
      } else {
        if |left| < 4 { return Unreadable; }
        info, left, a := info.(mtu := Number(left)), left[4..], a.(mtu := false);
      }
    }
    r := Read(info);
  }

  // ---------------------------------------------------------------- writing

  /** attrsAndLen: what is written of an interface; the address only if it is of the message's family. */
  function AttrsFor(info: Info, v6: bool): Attrs {
    var known := info.index > 0;
    Attrs(known, |info.addr| == (if v6 then 16 else 4), known && info.name != [], known && info.mtu > 0)
  }

  function AddrBytes(addr: seq<Byte>, v6: bool): (b: seq<Byte>)
    ensures |b| == 4 + |addr|
  {
    [0, if v6 then AFI_IPV6 else AFI_IPV4, 0, 0] + addr
  }

  function InfoBytes(info: Info, a: Attrs, v6: bool): seq<Byte> {
    (if a.ifIndex then NumberBytes(info.index) else [])
    + ((if a.ipAddr then AddrBytes(info.addr, v6) else [])
    + ((if a.name then NameBytes(info.name) else [])
    + (if a.mtu then NumberBytes(info.mtu) else [])))
  }

  /** The rest of attrsAndLen. */
  function InfoLength(info: Info, a: Attrs): nat {
    (if a.ifIndex then 4 else 0) + (if a.ipAddr then 4 + |info.addr| else 0)
    + (if a.name then NameLength(info.name) else 0) + if a.mtu then 4 else 0
  }

  lemma InfoSize(info: Info, a: Attrs, v6: bool)
    ensures |InfoBytes(info, a, v6)| == InfoLength(info, a)
  {
  }

  /** What is written of an attribute, and what is left to be written. */
  lemma NextAttr(info: Info, a: Attrs, v6: bool) returns (w: seq<Byte>, a': Attrs)
    requires a != NO_ATTRS
    ensures InfoBytes(info, a, v6) == w + InfoBytes(info, a', v6) && w != []
    ensures if a.ifIndex then w == NumberBytes(info.index) && a' == a.(ifIndex := false)
            else if a.ipAddr then w == AddrBytes(info.addr, v6) && a' == a.(ipAddr := false)
            else if a.name then w == NameBytes(info.name) && a' == a.(name := false)
            else w == NumberBytes(info.mtu) && a' == a.(mtu := false)
  {
    if a.ifIndex {
      w, a' := NumberBytes(info.index), a.(ifIndex := false);
    } else if a.ipAddr {
      w, a' := AddrBytes(info.addr, v6), a.(ipAddr := false);
    } else if a.name {
      w, a' := NameBytes(info.name), a.(name := false);
    } else {
      w, a' := NumberBytes(info.mtu), a.(mtu := false);
    }
    hide NumberBytes, AddrBytes, NameBytes;
    assert InfoBytes(info, a, v6) == w + InfoBytes(info, a', v6);
  }

  /** The bytes behind off are still zero, but perhaps for those of the MTU. */
  ghost predicate Blank(b: array<Byte>, off: nat, a: Attrs)
    reads b
  {
    a.ifIndex || a.ipAddr || a.name ==> forall k :: off <= k < b.Length ==> b[k] == 0
  }

  /** marshal, behind the object's header: the attributes one behind another, over zeros.  A name that is too long runs
      over what follows it, which is then written over it. */
  method MarshalAttrs(b: array<Byte>, info: Info, attrs: Attrs, v6: bool)
    requires b.Length == 4 + InfoLength(info, attrs) && forall k :: 4 <= k < b.Length ==> b[k] == 0
    modifies b
    ensures b[..] == old(b[..4]) + InfoBytes(info, attrs, v6)
  {
    hide InfoBytes, InfoLength;
    InfoSize(info, attrs, v6);
    var off, a := 4, attrs;
    ghost var head, all, done := b[..4], InfoBytes(info, attrs, v6), [];
    while off < b.Length && a != NO_ATTRS
      invariant off == 4 + |done| && b.Length == 4 + |all|
      invariant all == done + InfoBytes(info, a, v6) && off <= b.Length && b[..off] == head + done && Blank(b, off, a)
      decreases b.Length - off
    {
      ghost var w;
      off, a, w := MarshalAttr(b, off, info, a, v6);
      Associates(done, w, InfoBytes(info, a, v6));
      Associates(head, done, w);
      done := done + w;
    }
    NothingLeft(info, v6);
    assert b[..off] == b[..];
  }

  lemma NothingLeft(info: Info, v6: bool)
    ensures InfoBytes(info, NO_ATTRS, v6) == []
  {
  }

  /** One turn of that loop. */
  method MarshalAttr(b: array<Byte>, off: nat, info: Info, a: Attrs, v6: bool)
      returns (off': nat, a': Attrs, ghost w: seq<Byte>)
    requires a != NO_ATTRS && off + |InfoBytes(info, a, v6)| == b.Length && Blank(b, off, a)
    modifies b
    ensures InfoBytes(info, a, v6) == w + InfoBytes(info, a', v6) && w != [] && off' == off + |w| <= b.Length
    ensures b[..off'] == old(b[..off]) + w && Blank(b, off', a')
  {
    ghost var rest;
    w, rest := NextAttr(info, a, v6);
    hide NumberBytes, AddrBytes, NameBytes, InfoBytes, NameLength;
    if a.ifIndex {
      PutAttr(b, off, NumberBytes(info.index));
      off', a' := off + 4, a.(ifIndex := false);
    } else if a.ipAddr {
      PutAddr(b, off, info.addr, v6);
      off', a' := off + 4 + |info.addr|, a.(ipAddr := false);
    } else if a.name {
      PutName(b, off, info.name);
      off', a' := off + NameLength(info.name), a.(name := false);
    } else {
      PutAttr(b, off, NumberBytes(info.mtu));
      off', a' := off + 4, a.(mtu := false);
    }
  }

  method PutAttr(b: array<Byte>, off: nat, w: seq<Byte>)
    requires off + |w| <= b.Length
    modifies b
    ensures b[..off + |w|] == old(b[..off]) + w && forall k :: off + |w| <= k < b.Length ==> b[k] == old(b[k])
  {
    Put(b, off, w);
  }

  /** marshalIPAddr: two bytes between the family and the address are left as they are. */
  method PutAddr(b: array<Byte>, off: nat, addr: seq<Byte>, v6: bool)
    requires off + 4 + |addr| <= b.Length && b[off + 2] == 0 && b[off + 3] == 0
    modifies b
    ensures b[..off + 4 + |addr|] == old(b[..off]) + AddrBytes(addr, v6)
    ensures forall k :: off + 4 + |addr| <= k < b.Length ==> b[k] == old(b[k])
  {
    b[off], b[off + 1] := 0, if v6 then AFI_IPV6 else AFI_IPV4;
    Put(b, off + 4, addr);
    assert b[..off + 4] == old(b[..off]) + AddrBytes(addr, v6)[..4];
    assert b[..off + 4 + |addr|] == b[..off + 4] + addr;
  }

  /** marshalName: as much of the name is copied as there is room for, and no zeros behind it. */
  method PutName(b: array<Byte>, off: nat, name: seq<Byte>)
    requires off + NameLength(name) <= b.Length && forall k :: off <= k < b.Length ==> b[k] == 0
    modifies b
    ensures b[..off + NameLength(name)] == old(b[..off]) + NameBytes(name)
  {
    hide NameLength, Zeros;
    var l := NameLength(name);
    NameSize(name);
    b[off] := l;
    var room := b.Length - off - 1;
    var n := if |name| < room then |name| else room;
    Put(b, off + 1, name[..n]);
    ghost var kept := if |name| > 63 then name[..63] else name;
    ghost var zeros := NameIs(name, kept, l);
    hide NameBytes;
    NameThere(b[..], old(b[..]), off, l, name, n, kept, zeros);
  }

  /** The name and the zeros behind it, if any, are in their places. */
  lemma NameThere(s: seq<Byte>, was: seq<Byte>, off: nat, l: Byte, name: seq<Byte>, n: nat, kept: seq<Byte>,
                  zeros: seq<Byte>)
    requires off + l <= |was| && (forall k :: off <= k < |was| ==> was[k] == 0) && off + 1 + n <= |was| && n <= |name|
    requires s == Over(was[off := l], off + 1, name[..n])
    requires kept == (if |name| > 63 then name[..63] else name) && l as int == 1 + |kept| + |zeros|
    requires (n == |name| || n == |was| - off - 1) && (|name| > 63 ==> zeros == [])
    requires forall k :: 0 <= k < |zeros| ==> zeros[k] == 0
    ensures s[..off + l] == was[..off] + ([l] + kept + zeros)
  {
    assert n >= |kept|;
    var goal := was[..off] + ([l] + kept + zeros);
    forall k | 0 <= k < off + l ensures s[k] == goal[k] {
      if k > off + |kept| { assert |name| <= 63 && s[k] == 0; }
    }
  }

  // ---------------------------------------------------------------- round trips

  lemma NumberReads(n: nat, rest: seq<Byte>)
    ensures Number(NumberBytes(n) + rest) == n % 0x1_0000_0000 && (NumberBytes(n) + rest)[4..] == rest
  {
    var b := NumberBytes(n) + rest;
    assert b[..4] == NumberBytes(n);
    var a := n / 0x100;
    var c := a / 0x100;
    var d := c / 0x100;
    assert c == n / 0x1_0000 && d == n / 0x100_0000;
    assert b[0] == d % 0x100 && b[1] == c % 0x100 && b[2] == a % 0x100 && b[3] == n % 0x100;
    Compose(n, a, c, d, d / 0x100, n % 0x100, a % 0x100, c % 0x100, d % 0x100);
  }

  lemma Compose(n: nat, a: nat, c: nat, d: nat, e: nat, r: nat, ra: nat, rc: nat, rd: nat)
    requires n == a * 0x100 + r && a == c * 0x100 + ra && c == d * 0x100 + rc && d == e * 0x100 + rd
    requires r < 0x100 && ra < 0x100 && rc < 0x100 && rd < 0x100
    ensures n % 0x1_0000_0000 == rd * 0x100_0000 + rc * 0x1_0000 + ra * 0x100 + r
  {
    var low := rd * 0x100_0000 + rc * 0x1_0000 + ra * 0x100 + r;
    assert n == e * 0x1_0000_0000 + low;
    LowPart(e, low);
  }

  lemma LowPart(e: nat, low: nat)
    requires low < 0x1_0000_0000
    ensures (e * 0x1_0000_0000 + low) % 0x1_0000_0000 == low
  {
  }

  /** Zeros behind a name are trimmed with its own. */
  lemma {:induction false} TrimZeros(s: seq<Byte>, n: nat)
    ensures Trim(s + Zeros(n)) == Trim(s)
    decreases |s| + n
  {
    if n == 0 {
      assert s + Zeros(0) == s;
    } else {
      assert (s + Zeros(n))[..|s + Zeros(n)| - 1] == s + Zeros(n - 1);
      if s == [] {
        assert (s + Zeros(n))[1..] == s + Zeros(n - 1);
        TrimZeros(s, n - 1);
      } else if s[0] == 0 {
        assert (s + Zeros(n))[1..] == s[1..] + Zeros(n);
        TrimZeros(s[1..], n);
      } else {
        TrimZeros(s, n - 1);
      }
    }
  }

  lemma NameReads(name: seq<Byte>, rest: seq<Byte>)
    ensures var b := NameBytes(name) + rest;
      && NameFits(b) && b[0] == NameLength(name) && b[b[0]..] == rest
      && Trim(b[1..b[0]]) == Trim(if |name| > 63 then name[..63] else name)
  {
    hide *;
    var kept := if |name| > 63 then name[..63] else name;
    var l := NameLength(name);
    NameSize(name);
    var zeros := NameIs(name, kept, l);
    NameParts(l, kept, zeros, rest);
    Fits(NameBytes(name) + rest);
  }

  lemma NameIs(name: seq<Byte>, kept: seq<Byte>, l: Byte) returns (zeros: seq<Byte>)
    requires kept == (if |name| > 63 then name[..63] else name) && l == NameLength(name) && 1 + |kept| <= l
    ensures NameBytes(name) == [l] + kept + zeros && |zeros| == l - 1 - |kept| && Trim(kept + zeros) == Trim(kept)
    ensures (|name| > 63 ==> zeros == []) && forall k :: 0 <= k < |zeros| ==> zeros[k] == 0
  {
    zeros := Zeros(l - 1 - |kept|);
    TrimZeros(kept, l - 1 - |kept|);
  }

  lemma Fits(b: seq<Byte>)
    requires |b| >= 4 && b[0] as int <= |b| && b[0] % 4 == 0 && 4 <= b[0] <= 64
    ensures NameFits(b)
  {
  }

  lemma NameSize(name: seq<Byte>)
    ensures 1 + (if |name| > 63 then 63 else |name|) <= NameLength(name)
  {
  }

  lemma NameParts(l: Byte, kept: seq<Byte>, zeros: seq<Byte>, rest: seq<Byte>)
    requires l as int == 1 + |kept| + |zeros|
    ensures var b := [l] + kept + zeros + rest; b[0] == l && b[l..] == rest && b[1..l] == kept + zeros
  {
  }

  /** What is read of what was written: numbers modulo 2^32, at most 63 bytes of the name and no zeros at its ends, and
      nothing of what is not written. */
  function Kept(info: Info, v6: bool): Info {
    var a := AttrsFor(info, v6);
    Info(if a.ifIndex then info.index % 0x1_0000_0000 else 0,
         if a.ipAddr then info.addr else [],
         if a.name then Trim(if |info.name| > 63 then info.name[..63] else info.name) else [],
         if a.mtu then info.mtu % 0x1_0000_0000 else 0)
  }

  lemma {:induction false} MtuReads(info: Info, a: Attrs, so: Info)
    requires !a.ifIndex && !a.ipAddr && !a.name && so.mtu == 0
    ensures ReadAttrs(if a.mtu then NumberBytes(info.mtu) else [], a, so) ==
      Read(so.(mtu := if a.mtu then info.mtu % 0x1_0000_0000 else 0))
  {
    if a.mtu {
      NumberReads(info.mtu, []);
      assert NumberBytes(info.mtu) + [] == NumberBytes(info.mtu);
    }
  }

  lemma {:induction false} NameStep(name: seq<Byte>, rest: seq<Byte>, a: Attrs, so: Info)
    requires !a.ifIndex && !a.ipAddr && a.name
    ensures ReadAttrs(NameBytes(name) + rest, a, so) ==
      ReadAttrs(rest, a.(name := false), so.(name := Trim(if |name| > 63 then name[..63] else name)))
  {
    NameReads(name, rest);
    hide NameBytes, Trim;
  }

  lemma {:induction false} AddrStep(addr: seq<Byte>, v6: bool, rest: seq<Byte>, a: Attrs, so: Info)
    requires !a.ifIndex && a.ipAddr && |addr| == if v6 then 16 else 4
    ensures ReadAttrs(AddrBytes(addr, v6) + rest, a, so) == ReadAttrs(rest, a.(ipAddr := false), so.(addr := addr))
  {
    var b := AddrBytes(addr, v6) + rest;
    var n := 4 + |addr|;
    assert b[0] == 0 && b[1] == if v6 then 2 else 1;
    assert b[4..n] == addr && b[n..] == rest;
  }

  lemma {:induction false} IndexStep(index: nat, rest: seq<Byte>, a: Attrs, so: Info)
    requires a.ifIndex
    ensures ReadAttrs(NumberBytes(index) + rest, a, so) ==
      ReadAttrs(rest, a.(ifIndex := false), so.(index := index % 0x1_0000_0000))
  {
    NumberReads(index, rest);
    hide NumberBytes;
  }

  /** Whatever interface is written, with a type that has the bits of its attributes, is read as what was kept of it. */
  lemma {:induction false} InfoReads(info: Info, v6: bool)
    ensures ReadAttrs(InfoBytes(info, AttrsFor(info, v6), v6), AttrsFor(info, v6), NO_INFO) == Read(Kept(info, v6))
  {
    var a, k := AttrsFor(info, v6), Kept(info, v6);
    hide *;
    AttrsAre(info, v6);
    var mtu := if a.mtu then NumberBytes(info.mtu) else [];
    var name := if a.name then NameBytes(info.name) + mtu else mtu;
    var addr := if a.ipAddr then AddrBytes(info.addr, v6) + name else name;
    var a1 := a.(ifIndex := false);
    var a2 := a1.(ipAddr := false);
    InfoSplit(info, a, v6, mtu, name, addr);
    if a.ifIndex { IndexStep(info.index, addr, a, NO_INFO); }
    if a.ipAddr { AddrStep(info.addr, v6, name, a1, Info(k.index, [], [], 0)); }
    if a.name { NameStep(info.name, mtu, a2, Info(k.index, k.addr, [], 0)); }
    MtuReads(info, a2.(name := false), Info(k.index, k.addr, k.name, 0));
  }

  lemma AttrsAre(info: Info, v6: bool)
    ensures var a, k := AttrsFor(info, v6), Kept(info, v6);
      && k.index == (if a.ifIndex then info.index % 0x1_0000_0000 else 0)
      && k.addr == (if a.ipAddr then info.addr else [])
      && k.name == (if a.name then Trim(if |info.name| > 63 then info.name[..63] else info.name) else [])
      && k.mtu == (if a.mtu then info.mtu % 0x1_0000_0000 else 0)
      && (a.ipAddr ==> |info.addr| == if v6 then 16 else 4) && NO_INFO == Info(0, [], [], 0)
  {
  }

  /** The bytes of an interface from its index on. */
  lemma InfoSplit(info: Info, a: Attrs, v6: bool, mtu: seq<Byte>, name: seq<Byte>, addr: seq<Byte>)
    requires mtu == (if a.mtu then NumberBytes(info.mtu) else [])
    requires name == (if a.name then NameBytes(info.name) + mtu else mtu)
    requires addr == (if a.ipAddr then AddrBytes(info.addr, v6) + name else name)
    ensures InfoBytes(info, a, v6) == if a.ifIndex then NumberBytes(info.index) + addr else addr
  {
    hide NumberBytes, NameBytes, AddrBytes;
    assert (if a.name then NameBytes(info.name) else []) + mtu == name;
    assert (if a.ipAddr then AddrBytes(info.addr, v6) else []) + name == addr;
  }

  /** Numbers of 32 bits, a name of at most 63 bytes and without a zero at either end, an address of the message's
      family, and an index if there is a name or an MTU. */
  predicate Faithful(info: Info, v6: bool) {
    && info.index < 0x1_0000_0000 && info.mtu < 0x1_0000_0000
    && |info.name| <= 63 && (info.name != [] ==> info.name[0] != 0 && info.name[|info.name| - 1] != 0)
    && (info.addr == [] || |info.addr| == (if v6 then 16 else 4))
    && (info.name != [] || info.mtu > 0 ==> info.index > 0)
  }

  /** An interface comes back as it was if and only if it is of that kind. */
  lemma InfoRoundTrip(info: Info, v6: bool)
    ensures ReadAttrs(InfoBytes(info, AttrsFor(info, v6), v6), AttrsFor(info, v6), NO_INFO) == Read(info) <==>
      Faithful(info, v6)
  {
    InfoReads(info, v6);
    TrimmedIff(info.name);
    hide ReadAttrs, InfoBytes, Trim;
    var k := Kept(info, v6);
    assert info.index < 0x1_0000_0000 <==> info.index % 0x1_0000_0000 == info.index;
    assert info.mtu < 0x1_0000_0000 <==> info.mtu % 0x1_0000_0000 == info.mtu;
  }

  lemma InfoIsShort(info: Info, v6: bool)
    ensures |InfoBytes(info, AttrsFor(info, v6), v6)| <= 92
  {
  }

  lemma {:induction false} TrimmedIff(s: seq<Byte>)
    ensures Trim(s) == s <==> (s != [] ==> s[0] != 0 && s[|s| - 1] != 0)
  {
  }

  // ---------------------------------------------------------------- objects that are cut short

  /** An attribute that is cut is unreadable, a whole one leaves it to those behind it. */
  ghost predicate CutAt(front: seq<Byte>, rest: seq<Byte>, n: nat, a: Attrs, a': Attrs, so: Info, so': Info)
    requires n <= |front + rest|
  {
    var r := ReadAttrs((front + rest)[..n], a, so);
    if n == 0 then r.Read? else if n < |front| then r == Unreadable else r == ReadAttrs(rest[..n - |front|], a', so')
  }

  lemma {:induction false} IndexCut(index: nat, rest: seq<Byte>, n: nat, a: Attrs, so: Info)
    requires a.ifIndex && n <= 4 + |rest|
    ensures CutAt(NumberBytes(index), rest, n, a, a.(ifIndex := false), so, so.(index := index % 0x1_0000_0000))
  {
    var b := (NumberBytes(index) + rest)[..n];
    if n >= 4 {
      assert b == NumberBytes(index) + rest[..n - 4];
      IndexStep(index, rest[..n - 4], a, so);
    }
  }

  lemma {:induction false} MtuCut(mtu: nat, n: nat, a: Attrs, so: Info)
    requires !a.ifIndex && !a.ipAddr && !a.name && a.mtu && n <= 4
    ensures ReadAttrs(NumberBytes(mtu)[..n], a, so).Read? <==> n == 0 || n == 4
  {
  }

  lemma {:induction false} AddrCut(addr: seq<Byte>, v6: bool, rest: seq<Byte>, n: nat, a: Attrs, so: Info)
    requires !a.ifIndex && a.ipAddr && |addr| == (if v6 then 16 else 4) && n <= 4 + |addr| + |rest|
    ensures CutAt(AddrBytes(addr, v6), rest, n, a, a.(ipAddr := false), so, so.(addr := addr))
  {
    var w := AddrBytes(addr, v6);
    var b := (w + rest)[..n];
    if n >= |w| {
      assert b == w + rest[..n - |w|];
      AddrStep(addr, v6, rest[..n - |w|], a, so);
    } else if n >= 4 {
      assert b[0] == 0 && b[1] == if v6 then 2 else 1;
    }
  }

  lemma {:induction false} NameCut(name: seq<Byte>, rest: seq<Byte>, n: nat, a: Attrs, so: Info)
    requires !a.ifIndex && !a.ipAddr && a.name && n <= NameLength(name) + |rest|
    ensures CutAt(NameBytes(name), rest, n, a, a.(name := false), so,
                  so.(name := Trim(if |name| > 63 then name[..63] else name)))
  {
    var w := NameBytes(name);
    var b := (w + rest)[..n];
    if n >= |w| {
      assert b == w + rest[..n - |w|];
      NameStep(name, rest[..n - |w|], a, so);
    } else if n > 0 {
      assert b[0] == NameLength(name);
    }
  }

  /** The lengths of the parts of an interface's attributes, one behind another. */
  function Ends(info: Info, a: Attrs, v6: bool): (nat, nat, nat, nat) {
    var index := if a.ifIndex then 4 else 0;
    var addr := index + if a.ipAddr then 4 + |info.addr| else 0;
    var name := addr + if a.name then NameLength(info.name) else 0;
    (index, addr, name, name + if a.mtu then 4 else 0)
  }

  /** Of what was written of an interface the first n bytes can be read if and only if they end where an attribute
      does. */
  lemma {:induction false} CutShort(info: Info, v6: bool, n: nat)
    requires n <= |InfoBytes(info, AttrsFor(info, v6), v6)|
    ensures var a := AttrsFor(info, v6);
      var e := Ends(info, a, v6);
      && |InfoBytes(info, a, v6)| == e.3
      && (ReadAttrs(InfoBytes(info, a, v6)[..n], a, NO_INFO).Read? <==>
        n == 0 || n == e.0 || n == e.1 || n == e.2 || n == e.3)
  {
    var a, k := AttrsFor(info, v6), Kept(info, v6);
    var mtu := if a.mtu then NumberBytes(info.mtu) else [];
    var name := if a.name then NameBytes(info.name) + mtu else mtu;
    var addr := if a.ipAddr then AddrBytes(info.addr, v6) + name else name;
    InfoSplit(info, a, v6, mtu, name, addr);
    AttrsAre(info, v6);
    hide *;
    var a1 := a.(ifIndex := false);
    var e := Ends(info, a, v6);
    EndsAre(info, a, v6);
    if a.ifIndex {
      IndexCut(info.index, addr, n, a, NO_INFO);
      CutMeans(NumberBytes(info.index), addr, n, a, a1, NO_INFO, NO_INFO.(index := k.index));
    }
    if n >= e.0 { CutAddr(info, a1, v6, n - e.0, mtu, name, addr, Info(k.index, [], [], 0)); }
  }

  lemma CutMeans(front: seq<Byte>, rest: seq<Byte>, n: nat, a: Attrs, a': Attrs, so: Info, so': Info)
    requires n <= |front + rest| && CutAt(front, rest, n, a, a', so, so')
    ensures var r := ReadAttrs((front + rest)[..n], a, so);
      if n == 0 then r.Read? else if n < |front| then r == Unreadable else r == ReadAttrs(rest[..n - |front|], a', so')
  {
  }

  lemma EndsAre(info: Info, a: Attrs, v6: bool)
    ensures var e := Ends(info, a, v6);
      && e.0 == (if a.ifIndex then 4 else 0) && e.1 == e.0 + (if a.ipAddr then 4 + |info.addr| else 0)
      && e.2 == e.1 + (if a.name then NameLength(info.name) else 0) && e.3 == e.2 + if a.mtu then 4 else 0
  {
  }

  lemma {:induction false} CutAddr(info: Info, a: Attrs, v6: bool, n: nat, mtu: seq<Byte>, name: seq<Byte>,
                                   addr: seq<Byte>, so: Info)
    requires !a.ifIndex && (a.ipAddr ==> |info.addr| == if v6 then 16 else 4)
    requires mtu == (if a.mtu then NumberBytes(info.mtu) else [])
    requires name == (if a.name then NameBytes(info.name) + mtu else mtu)
    requires addr == (if a.ipAddr then AddrBytes(info.addr, v6) + name else name) && n <= |addr|
    ensures var e := Ends(info, a, v6);
      |addr| == e.3 && (ReadAttrs(addr[..n], a, so).Read? <==> n == 0 || n == e.1 || n == e.2 || n == e.3)
  {
    hide *;
    var e := Ends(info, a, v6);
    EndsAre(info, a, v6);
    if a.ipAddr {
      AddrCut(info.addr, v6, name, n, a, so);
      CutMeans(AddrBytes(info.addr, v6), name, n, a, a.(ipAddr := false), so, so.(addr := info.addr));
    }
    if n >= e.1 {
      CutName(info, a.(ipAddr := false), v6, n - e.1, mtu, name, if a.ipAddr then so.(addr := info.addr) else so);
    }
    EndsAre(info, a.(ipAddr := false), v6);
  }

  lemma {:induction false} CutName(info: Info, a: Attrs, v6: bool, n: nat, mtu: seq<Byte>, name: seq<Byte>, so: Info)
    requires !a.ifIndex && !a.ipAddr && mtu == (if a.mtu then NumberBytes(info.mtu) else [])
    requires name == (if a.name then NameBytes(info.name) + mtu else mtu) && n <= |name|
    ensures var e := Ends(info, a, v6);
      |name| == e.3 && (ReadAttrs(name[..n], a, so).Read? <==> n == 0 || n == e.2 || n == e.3)
  {
    hide *;
    var e := Ends(info, a, v6);
    EndsAre(info, a, v6);
    var so' := so.(name := Trim(if |info.name| > 63 then info.name[..63] else info.name));
    if a.name {
      NameCut(info.name, mtu, n, a, so);
      CutMeans(NameBytes(info.name), mtu, n, a, a.(name := false), so, so');
    }
    if n >= e.2 { CutMtu(info.mtu, a.(name := false), n - e.2, mtu, if a.name then so' else so); }
  }

  lemma {:induction false} CutMtu(mtu: nat, a: Attrs, n: nat, bytes: seq<Byte>, so: Info)
    requires !a.ifIndex && !a.ipAddr && !a.name && bytes == (if a.mtu then NumberBytes(mtu) else []) && n <= |bytes|
    ensures ReadAttrs(bytes[..n], a, so).Read? <==> n == 0 || n == |bytes|
  {
    if a.mtu { MtuCut(mtu, n, a, so); }
  }
}

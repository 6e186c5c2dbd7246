/** ICMP messages (net/icmp): the Internet checksum, and multipart message bodies that carry MPLS label
    stacks behind a padded datagram (RFC 4884 and RFC 4950). */
module Icmp {
  import opened ByteSeqs
  import opened Interfaces
  import opened Utf8

  // ---------------------------------------------------------------- the checksum

  const MAX_UINT32 := 0x1_0000_0000

  /** The sum of the 16-bit words of b, low byte first; an odd byte at the end is a word of its own. */
  function WordSum(b: seq<Byte>): nat {
    if |b| == 0 then 0
    else if |b| == 1 then b[0]
    else b[0] as int + 0x100 * b[1] as int + WordSum(b[2..])
  }

  /** A uint32 folded into 16 bits with end-around carry. */
  function Fold(s: nat): nat {
    var t := s / 0x1_0000 + s % 0x1_0000;
    (t + t / 0x1_0000) % 0x1_0000
  }

  function Checksum(b: seq<Byte>): (c: nat)
    ensures c < 0x1_0000
  {
    0xFFFF - Fold(WordSum(b) % 0x1_0000_0000)
  }

  /** The sum up to an even position, and the rest. */
  lemma {:induction false} WordSumSplit(b: seq<Byte>, i: nat)
    requires i <= |b| && i % 2 == 0
    ensures WordSum(b) == WordSum(b[..i]) + WordSum(b[i..])
    decreases i
  {
    if i == 0 {
      assert b[0..] == b;
    } else {
      WordSumSplit(b[2..], i - 2);
      assert b[2..][..i - 2] == b[..i][2..] && b[2..][i - 2..] == b[i..];
    }
  }

  lemma {:induction false} WordSumBound(b: seq<Byte>)
    ensures WordSum(b) <= 0xFFFF * ((|b| + 1) / 2)
  {
    if |b| > 1 { WordSumBound(b[2..]); }
  }

  /** One more word, or the last odd byte. */
  lemma {:induction false} WordSumStep(b: seq<Byte>, i: nat)
    requires i < |b| && i % 2 == 0
    ensures i + 1 < |b| ==> WordSum(b[..i + 2]) == WordSum(b[..i]) + (0x100 * b[i + 1] as int + b[i] as int)
    ensures i + 1 == |b| ==> WordSum(b) == WordSum(b[..i]) + b[i]
  {
    if i + 1 < |b| {
      var front := b[..i + 2];
      WordSumSplit(front, i);
      var word := front[i..];
      assert front[..i] == b[..i] && |word| == 2 && word[0] == b[i] && word[1] == b[i + 1] && word[2..] == [];
    } else {
      WordSumSplit(b, i);
      assert b[i..] == [b[i]];
    }
  }

  lemma AddMod(x: nat, y: nat)
    ensures (x % MAX_UINT32 + y) % MAX_UINT32 == (x + y) % MAX_UINT32
  {
    var q, r := x / MAX_UINT32, x % MAX_UINT32;
    var q', r' := (r + y) / MAX_UINT32, (r + y) % MAX_UINT32;
    assert x + y == MAX_UINT32 * (q + q') + r';
  }

  /** checksum, with its uint32 sum. */
  method ComputeChecksum(b: seq<Byte>) returns (c: nat)
    ensures c == Checksum(b)
  {
    var coverage := |b| - 1;
    var s: nat := 0;
    var i: nat := 0;
    while i < coverage
      invariant i <= |b| && i % 2 == 0
      invariant s == WordSum(b[..i]) % MAX_UINT32
    {
      WordSumStep(b, i);
      AddMod(WordSum(b[..i]), 0x100 * b[i + 1] as int + b[i] as int);
      s := (s + (0x100 * b[i + 1] as int + b[i] as int)) % MAX_UINT32;
      i := i + 2;
    }
    if i < |b| {
      WordSumStep(b, i);
      AddMod(WordSum(b[..i]), b[i]);
      s := (s + b[i]) % MAX_UINT32;
    } else {
      assert b[..i] == b;
    }
    c := 0xFFFF - Fold(s);
  }

  /** Folding keeps the sum modulo 0xFFFF, and gives 0 only for 0. */
  lemma FoldMod(s: nat) returns (q: nat)
    requires s < MAX_UINT32
    ensures s == 0xFFFF * q + Fold(s) && Fold(s) <= 0xFFFF && (Fold(s) == 0 ==> s == 0)
  {
    var h, l := s / 0x1_0000, s % 0x1_0000;
    q := if h + l < 0x1_0000 then h else h + 1;
  }

  /** Adding its own checksum to a sum makes the checksum 0. */
  lemma FoldZero(s: nat, f: nat)
    requires s + 0xFFFF < MAX_UINT32 && f == Fold(s)
    ensures f <= 0xFFFF && Fold(s + (0xFFFF - f)) == 0xFFFF
  {
    var q := FoldMod(s);
    var s' := s + (0xFFFF - f);
    var q' := FoldMod(s');
    Complement(s, f, q, s', Fold(s'), q');
  }

  lemma Complement(s: nat, f: nat, q: nat, s': nat, f': nat, q': nat)
    requires s == 0xFFFF * q + f && f <= 0xFFFF && s' == s + (0xFFFF - f)
    requires s' == 0xFFFF * q' + f' && f' <= 0xFFFF && (f' == 0 ==> s' == 0)
    ensures f' == 0xFFFF
  {
  }

  /** Two zero bytes at an even position are filled with a word. */
  lemma WordSumFilled(b: seq<Byte>, p: nat, lo: Byte, hi: Byte)
    requires p % 2 == 0 && p + 1 < |b| && b[p] == b[p + 1] == 0
    ensures WordSum(b[p := lo][p + 1 := hi]) == WordSum(b) + lo as int + 0x100 * hi as int
  {
    var filled := b[p := lo][p + 1 := hi];
    WordSumSplit(b, p);
    WordSumSplit(filled, p);
    assert filled[..p] == b[..p];
    var x, y := b[p..], filled[p..];
    assert y[0] == lo && y[1] == hi && y[2..] == x[2..];
  }

  /** A checksum that is put into its field makes the checksum of the whole 0. */
  function Sealed(b: seq<Byte>, p: nat): (r: seq<Byte>)
    requires p + 1 < |b|
    ensures |r| == |b|
  {
    b[p := Checksum(b) % 0x100][p + 1 := Checksum(b) / 0x100]
  }

  lemma SealedSumsToZero(b: seq<Byte>, p: nat)
    requires p % 2 == 0 && p + 1 < |b| <= 0x2_0000 && b[p] == b[p + 1] == 0
    ensures Checksum(Sealed(b, p)) == 0
  {
    var sum := WordSum(b);
    SmallSum(b);
    ChecksumOf(b, sum);
    var c := 0xFFFF - Fold(sum);
    WordSumFilled(b, p, c % 0x100, c / 0x100);
    FoldZero(sum, Fold(sum));
    ChecksumOf(Sealed(b, p), sum + c);
  }

  /** Up to 128 KiB the sum does not leave 32 bits. */
  lemma {:induction false} SmallSum(b: seq<Byte>)
    requires |b| <= 0x2_0000
    ensures WordSum(b) + 0xFFFF < MAX_UINT32
  {
    WordSumBound(b);
    assert (|b| + 1) / 2 <= 0x1_0000;
  }

  lemma {:induction false} ChecksumOf(b: seq<Byte>, sum: nat)
    requires sum == WordSum(b) < MAX_UINT32
    ensures Checksum(b) == 0xFFFF - Fold(sum)
  {
    assert sum % MAX_UINT32 == sum;
  }

  // ---------------------------------------------------------------- messages

  /** A 32-bit length, high byte first. */
  function Length32(n: nat): seq<Byte> {
    [n / 0x100_0000 % 0x100, n / 0x1_0000 % 0x100, n / 0x100 % 0x100, n % 0x100]
  }

  const IPV6_PSEUDO_HEADER := 40

  /** IPv6PseudoHeader: the two addresses and the number of the protocol; the length is left at 0. */
  function IPv6PseudoHeader(src: seq<Byte>, dst: seq<Byte>): (r: seq<Byte>)
    requires |src| == |dst| == 16
    ensures |r| == IPV6_PSEUDO_HEADER
  {
    src + dst + Zeros(7) + [58]
  }

  /** The pseudo header with the message's length in it. */
  function PseudoHeader(psh: seq<Byte>, length: nat): (r: seq<Byte>)
    requires |psh| == IPV6_PSEUDO_HEADER
    ensures |r| == |psh|
  {
    psh[..32] + Length32(length) + psh[36..]
  }

  /** Marshal: the message, and what its checksum covers.  An empty pseudo header stands for none; without one an
      ICMPv6 message is left without a checksum. */
  method Marshal(v6: bool, typ: Byte, code: Byte, psh: seq<Byte>, body: seq<Byte>)
      returns (m: seq<Byte>, ghost covered: seq<Byte>)
    requires psh == [] || (v6 && |psh| == IPV6_PSEUDO_HEADER)
    requires |psh| + 4 + |body| <= 0x2_0000
    ensures |m| == 4 + |body| && m[0] == typ && m[1] == code && m[4..] == body
    ensures v6 && psh == [] ==> m[2] == m[3] == 0
    ensures !(v6 && psh == []) ==>
      covered == (if psh == [] then [] else PseudoHeader(psh, |m|)) + m && Checksum(covered) == 0
  {
    covered := [];
    var b := [typ, code, 0, 0];
    if v6 && psh != [] { b := psh + b; }
    b := b + body;
    if v6 {
      if psh == [] { return b, covered; }
      var l := |b| - |psh|;
      b := b[..32] + Length32(l) + b[36..];
    }
    ghost var head := if psh == [] then [] else PseudoHeader(psh, 4 + |body|);
    assert b == head + ([typ, code, 0, 0] + body);
    var s := ComputeChecksum(b);
    SealedBehind(b, head, [typ, code, 0, 0] + body);
    b := b[|psh| + 2 := s % 0x100][|psh| + 3 := s / 0x100];
    covered := b;
    m := b[|psh|..];
  }

  /** The checksum behind a pseudo header covers both, and touches two bytes of the message alone. */
  lemma SealedBehind(b: seq<Byte>, head: seq<Byte>, plain: seq<Byte>)
    requires b == head + plain && |head| % 2 == 0 && 4 <= |plain| && |b| <= 0x2_0000 && plain[2] == plain[3] == 0
    ensures var t := Sealed(b, |head| + 2);
      && Checksum(t) == 0 && |t| == |b| && t == head + t[|head|..] && t[|head|..][4..] == plain[4..]
      && t[|head|..][0] == plain[0] && t[|head|..][1] == plain[1]
  {
    SealedSumsToZero(b, |head| + 2);
    hide Checksum;
  }

  // ---------------------------------------------------------------- label stacks

  /** An MPLS label stack entry. */
  datatype Label = Label(value: nat, tc: nat, bottom: bool, ttl: nat) {
    ghost predicate InRange() { value < 0x10_0000 && tc < 8 && ttl < 0x100 }
  }

  const CLASS_MPLS_LABEL_STACK := 1
  const CLASS_INTERFACE_INFO := 2
  const TYPE_INCOMING := 1

  datatype Stack = Stack(kind: Byte, typ: Byte, labels: seq<Label>) {
    function Length(): nat { 4 + 4 * |labels| }

    /** What the wire can carry: the length is a 16-bit field, and class and type are written as constants. */
    ghost predicate InRange() {
      && kind == CLASS_MPLS_LABEL_STACK && typ == TYPE_INCOMING && Length() < 0x1_0000
      && forall i :: 0 <= i < |labels| ==> labels[i].InRange()
    }
  }

  function LabelBytes(l: Label): (b: seq<Byte>)
    ensures |b| == 4
  {
    [l.value / 0x1000 % 0x100, l.value / 0x10 % 0x100,
     l.value % 0x10 * 0x10 + l.tc % 8 * 2 + (if l.bottom then 1 else 0), l.ttl % 0x100]
  }

  function LabelsBytes(ls: seq<Label>): (b: seq<Byte>)
    ensures |b| == 4 * |ls|
  {
    if ls == [] then [] else LabelBytes(ls[0]) + LabelsBytes(ls[1..])
  }

  function StackBytes(s: Stack): (b: seq<Byte>)
    ensures |b| == s.Length()
  {
    [s.Length() / 0x100 % 0x100, s.Length() % 0x100, CLASS_MPLS_LABEL_STACK, TYPE_INCOMING] + LabelsBytes(s.labels)
  }

  function ReadLabel(b: seq<Byte>): Label
    requires |b| >= 4
  {
    Label(b[0] as int * 0x1000 + b[1] as int * 0x10 + b[2] as int / 0x10, b[2] as int % 0x10 / 2, b[2] % 2 == 1, b[3])
  }

  function ReadLabels(b: seq<Byte>): seq<Label> {
    if |b| < 4 then [] else [ReadLabel(b)] + ReadLabels(b[4..])
  }

  lemma LabelReads(l: Label, rest: seq<Byte>)
    requires l.InRange()
    ensures var b := LabelBytes(l) + rest; ReadLabel(b) == l && b[4..] == rest
  {
    var b := LabelBytes(l) + rest;
    var x := l.value / 0x10;
    assert l.value / 0x1000 == x / 0x100 < 0x100;
    assert b[0] == x / 0x100 && b[1] == x % 0x100;
  }

  lemma {:induction false} LabelsRead(ls: seq<Label>)
    requires forall i :: 0 <= i < |ls| ==> ls[i].InRange()
    ensures ReadLabels(LabelsBytes(ls)) == ls
  {
    if ls != [] {
      LabelReads(ls[0], LabelsBytes(ls[1..]));
      LabelsRead(ls[1..]);
    }
  }

  /** parseMPLSLabelStack. */
  method ParseStack(b: seq<Byte>) returns (s: Stack)
    requires |b| >= 4
    ensures s == Stack(b[2], b[3], ReadLabels(b[4..]))
  {
    var labels := [];
    var left := b[4..];
    while |left| >= 4
      invariant labels + ReadLabels(left) == ReadLabels(b[4..])
      decreases |left|
    {
      labels := labels + [ReadLabel(left)];
      left := left[4..];
    }
    s := Stack(b[2], b[3], labels);
  }

  // ---------------------------------------------------------------- extensions

  /** An extension object: a label stack, or information on an interface. */
  datatype Extension = LabelStack(stack: Stack) | InterfaceInfo(typ: Byte, info: Info)

  function ObjectLength(b: seq<Byte>): nat requires |b| >= 2 { b[0] as int * 0x100 + b[1] as int }

  datatype Parsed = Good(extensions: seq<Extension>) | Bad

  /** The extension that an object of so many bytes at the start of b stands for, if any. */
  function Object(b: seq<Byte>, n: nat): Parsed
    requires 4 <= n <= |b|
  {
    if b[2] == CLASS_MPLS_LABEL_STACK then Good([LabelStack(Stack(b[2], b[3], ReadLabels(b[4..n])))])
    else if b[2] == CLASS_INTERFACE_INFO then
      match ReadAttrs(b[4..n], AttrsOf(b[3]), NO_INFO)
      case Unreadable => Bad
      case Read(info) => Good([InterfaceInfo(b[3], info)])
    else Good([])
  }

  function Before(first: seq<Extension>, rest: Parsed): Parsed {
    if rest.Bad? then Bad else Good(first + rest.extensions)
  }

  /** The objects of b, up to a length that cannot be; one that cannot be parsed spoils all. */
  function Objects(b: seq<Byte>): Parsed
    decreases |b|
  {
    if |b| < 4 || ObjectLength(b) < 4 || ObjectLength(b) > |b| then Good([])
    else
      match Object(b, ObjectLength(b))
      case Bad => Bad
      case Good(first) => Before(first, Objects(b[ObjectLength(b)..]))
  }

  function ExtensionBytes(stacks: seq<Stack>): seq<Byte> {
    if stacks == [] then [] else StackBytes(stacks[0]) + ExtensionBytes(stacks[1..])
  }

  function Extensions(stacks: seq<Stack>): (r: seq<Extension>)
    ensures |r| == |stacks|
  {
    if stacks == [] then [] else [LabelStack(stacks[0])] + Extensions(stacks[1..])
  }

  ghost predicate AllInRange(stacks: seq<Stack>) {
    forall i :: 0 <= i < |stacks| ==> stacks[i].InRange()
  }

  lemma StackReads(s: Stack, rest: seq<Byte>)
    requires s.InRange()
    ensures var b := StackBytes(s) + rest;
      |b| >= 4 && ObjectLength(b) == s.Length() <= |b|
      && Object(b, s.Length()) == Good([LabelStack(s)]) && b[s.Length()..] == rest
  {
    var b := StackBytes(s) + rest;
    var n := s.Length();
    assert b[0] == n / 0x100 && b[1] == n % 0x100;
    assert b[4..n] == LabelsBytes(s.labels);
    LabelsRead(s.labels);
  }

  /** Label stacks written one behind another are read as those stacks. */
  lemma {:induction false} StacksRead(stacks: seq<Stack>)
    requires AllInRange(stacks)
    ensures Objects(ExtensionBytes(stacks)) == Good(Extensions(stacks))
  {
    if stacks != [] {
      StackReads(stacks[0], ExtensionBytes(stacks[1..]));
      StacksRead(stacks[1..]);
    }
  }

  /** validExtensionHeader: version 2, and a checksum that is not there or right. */
  predicate ValidExtensionHeader(b: seq<Byte>)
    requires |b| >= 4
  {
    b[0] / 0x10 == 2 && ((b[2] == 0 && b[3] == 0) || Checksum(b) == 0)
  }

  datatype Found = None | Invalid | Found(extensions: seq<Extension>, length: nat)

  function FoundAt(p: Parsed, at: nat): Found { if p.Bad? then Invalid else Found(p.extensions, at) }

  /** What parseExtensions finds behind a datagram of about l bytes. */
  function FindExtensions(b: seq<Byte>, l: nat): (f: Found)
    ensures f.Found? ==> f.length + 8 <= |b| && (f.length == l || f.length == 128)
  {
    var at := if 128 > l || l + 8 > |b| then 128 else l;
    if at + 8 > |b| then None
    else if ValidExtensionHeader(b[at..]) then FoundAt(Objects(b[at + 4..]), at)
    else if at != 128 && ValidExtensionHeader(b[128..]) then FoundAt(Objects(b[132..]), 128)
    else None
  }

  /** parseExtensions. */
  method ParseExtensions(b: seq<Byte>, l: nat) returns (f: Found)
    ensures f == FindExtensions(b, l)
  {
    var at := l;
    if 128 > at || at + 8 > |b| { at := 128; }
    if at + 8 > |b| { return None; }
    if !ValidExtensionHeader(b[at..]) {
      if at == 128 { return None; }
      at := 128;
      if !ValidExtensionHeader(b[at..]) { return None; }
    }
    var ok, extensions := ParseObjects(b[at + 4..]);
    f := if ok then Found(extensions, at) else Invalid;
  }

  /** The loop of parseExtensions. */
  method ParseObjects(b: seq<Byte>) returns (ok: bool, extensions: seq<Extension>)
    ensures Objects(b) == if ok then Good(extensions) else Bad
  {
    extensions := [];
    var left := b;
    while |left| >= 4
      invariant Before(extensions, Objects(left)) == Objects(b)
      decreases |left|
    {
      var n := ObjectLength(left);
      if 4 > n || n > |left| { break; }
      var good, found := ParseObject(left, n);
      if !good { return false, []; }
      BeforeBoth(extensions, found, Objects(left[n..]));
      extensions := extensions + found;
      left := left[n..];
    }
    ok := true;
  }

  lemma BeforeBoth(a: seq<Extension>, b: seq<Extension>, rest: Parsed)
    ensures Before(a, Before(b, rest)) == Before(a + b, rest)
  {
    if rest.Good? { Associates(a, b, rest.extensions); }
  }

  method ParseObject(b: seq<Byte>, n: nat) returns (ok: bool, found: seq<Extension>)
    requires 4 <= n <= |b|
    ensures Object(b, n) == if ok then Good(found) else Bad
  {
    found := [];
    if b[2] == CLASS_MPLS_LABEL_STACK {
      assert b[..n][4..] == b[4..n];
      var s := ParseStack(b[..n]);
      found := [LabelStack(s)];
    } else if b[2] == CLASS_INTERFACE_INFO {
      var r := ParseAttrs(b[4..n], AttrsOf(b[3]));
      if r == Unreadable { return false, []; }
      found := [InterfaceInfo(b[3], r.info)];
    }
    ok := true;
  }

  /** The bytes of an object about an interface. */
  function InterfaceBytes(typ: Byte, info: Info, v6: bool): seq<Byte> {
    var w := InfoBytes(info, AttrsFor(info, v6), v6);
    [(4 + |w|) / 0x100 % 0x100, (4 + |w|) % 0x100, CLASS_INTERFACE_INFO, typ] + w
  }

  /** InterfaceInfo.Marshal. */
  method MarshalInterface(typ: Byte, info: Info, v6: bool) returns (b: array<Byte>)
    ensures fresh(b) && b[..] == InterfaceBytes(typ, info, v6)
  {
    var attrs := AttrsFor(info, v6);
    var l := 4 + InfoLength(info, attrs);
    InfoSize(info, attrs, v6);
    b := new Byte[l](_ => 0);
    var head: seq<Byte> := [l / 0x100 % 0x100, l % 0x100, CLASS_INTERFACE_INFO, typ];
    ghost var was := b[..];
    Put(b, 0, head);
    HeadIsPut(was, head, b[..]);
    assert b[..4] == b[..][..4];
    assert forall k :: 4 <= k < l ==> b[k] == b[..][k];
    MarshalAttrs(b, info, attrs, v6);
  }

  lemma HeadIsPut(was: seq<Byte>, head: seq<Byte>, b: seq<Byte>)
    requires |head| == 4 <= |was| && b == was[..0] + head + was[4..] && forall k :: 0 <= k < |was| ==> was[k] == 0
    ensures |b| == |was| && b[..4] == head && forall k :: 4 <= k < |b| ==> b[k] == 0
  {
  }

  /** Information on an interface, with the type of the attributes that are written, is read back if and only if it is
      of the kind that survives; whatever stands behind it is left alone. */
  lemma InterfaceReads(typ: Byte, info: Info, v6: bool, rest: seq<Byte>)
    requires AttrsOf(typ) == AttrsFor(info, v6)
    ensures var b := InterfaceBytes(typ, info, v6) + rest;
      var n := |InterfaceBytes(typ, info, v6)|;
      && |b| >= 4 && ObjectLength(b) == n && b[n..] == rest
      && (Object(b, n) == Good([InterfaceInfo(typ, info)]) <==> Faithful(info, v6))
  {
    var b, w := InterfaceBytes(typ, info, v6) + rest, InfoBytes(info, AttrsFor(info, v6), v6);
    InfoRoundTrip(info, v6);
    InfoIsShort(info, v6);
    hide InfoBytes, ReadAttrs, AttrsFor, AttrsOf, Faithful;
    var n := 4 + |w|;
    assert b[0] == n / 0x100 && b[1] == n % 0x100 && b[2] == CLASS_INTERFACE_INFO && b[3] == typ;
    assert b[4..n] == w;
  }

  // ---------------------------------------------------------------- bodies

  /** The unit in which a message counts its datagram. */
  function Align(v6: bool): nat { if v6 then 8 else 4 }

  /** The length of a datagram once it is padded. */
  function PaddedLength(v6: bool, n: nat): (r: nat)
    ensures r >= n && r >= 128 && r % Align(v6) == 0
  {
    if n < 128 then 128 else (n + Align(v6) - 1) / Align(v6) * Align(v6)
  }

  function Padded(v6: bool, data: seq<Byte>): (r: seq<Byte>)
    ensures |r| == PaddedLength(v6, |data|)
  {
    data + Zeros(PaddedLength(v6, |data|) - |data|)
  }

  /** The extension structure: a header with version 2 and a checksum, and the objects. */
  function Structure(stacks: seq<Stack>): seq<Byte> {
    Sealed([0x20, 0, 0, 0] + ExtensionBytes(stacks), 2)
  }

  /** The four bytes in front of a datagram; the program keeps one byte for its length. */
  function Front(v6: bool, n: nat): (f: seq<Byte>)
    ensures |f| == 4
  {
    var units := n / Align(v6) % 0x100;
    if v6 then [units, 0, 0, 0] else [0, units, 0, 0]
  }

  /** A multipart message body. */
  function Body(v6: bool, data: seq<Byte>, stacks: seq<Stack>): seq<Byte> {
    if stacks == [] then [0, 0, 0, 0] + data
    else Front(v6, PaddedLength(v6, |data|)) + Padded(v6, data) + Structure(stacks)
  }

  /** parseMultipartMessageBody; an error from the extensions makes everything data. */
  function ParseBody(v6: bool, b: seq<Byte>): (seq<Byte>, seq<Extension>)
    requires |b| >= 4
  {
    if |b| == 4 then ([], []) else
    var f := FindExtensions(b[4..], Align(v6) * (if v6 then b[0] else b[1]) as int);
    if !f.Found? then (b[4..], []) else (b[4..4 + f.length], f.extensions)
  }

  /** The structure is recognised where it stands. */
  lemma {:induction false} StructureReads(stacks: seq<Stack>)
    requires AllInRange(stacks) && stacks != [] && |ExtensionBytes(stacks)| + 4 <= 0x2_0000
    ensures var t := Structure(stacks);
      |t| >= 8 && ValidExtensionHeader(t) && Objects(t[4..]) == Good(Extensions(stacks))
  {
    var plain := [0x20, 0, 0, 0] + ExtensionBytes(stacks);
    var t := Structure(stacks);
    SealedSumsToZero(plain, 2);
    assert ExtensionBytes(stacks) == StackBytes(stacks[0]) + ExtensionBytes(stacks[1..]);
    assert t[4..] == plain[4..] == ExtensionBytes(stacks);
    StacksRead(stacks);
  }

  /** A datagram whose length fits its field is found, padded, with the stacks behind it. */
  lemma {:induction false} ShortBodyReads(v6: bool, data: seq<Byte>, stacks: seq<Stack>)
    requires AllInRange(stacks) && stacks != [] && |ExtensionBytes(stacks)| + 4 <= 0x2_0000
    requires PaddedLength(v6, |data|) / Align(v6) < 0x100
    ensures var b := Body(v6, data, stacks); |b| >= 4 && ParseBody(v6, b) == (Padded(v6, data), Extensions(stacks))
  {
    var b, n := Body(v6, data, stacks), PaddedLength(v6, |data|);
    var padded, t := Padded(v6, data), Structure(stacks);
    StructureReads(stacks);
    LengthReads(v6, n);
    assert b == Front(v6, n) + padded + t;
    PartsRead(v6, n, Front(v6, n), padded, t);
  }

  lemma PartsRead(v6: bool, n: nat, front: seq<Byte>, padded: seq<Byte>, t: seq<Byte>)
    requires |front| == 4 && |padded| == n >= 128 && |t| >= 8 && ValidExtensionHeader(t) && Objects(t[4..]).Good?
    requires Align(v6) * (if v6 then front[0] else front[1]) as int == n
    ensures ParseBody(v6, front + padded + t) == (padded, Objects(t[4..]).extensions)
  {
    var b := front + padded + t;
    assert b[4..] == padded + t && b[0] == front[0] && b[1] == front[1];
    FoundBehind(padded, t);
    assert b[4..4 + n] == padded;
  }

  /** A structure that is right where the length says. */
  lemma FoundBehind(data: seq<Byte>, t: seq<Byte>)
    requires |data| >= 128 && |t| >= 8 && ValidExtensionHeader(t)
    ensures FindExtensions(data + t, |data|) == FoundAt(Objects(t[4..]), |data|)
  {
    var b := data + t;
    assert b[|data|..] == t && b[|data| + 4..] == t[4..];
  }

  /** The length that the four bytes in front give: the right one if it fits, a smaller one if not. */
  lemma LengthReads(v6: bool, n: nat)
    requires n % Align(v6) == 0
    ensures var l := Align(v6) * (if v6 then Front(v6, n)[0] else Front(v6, n)[1]) as int;
      if n / Align(v6) < 0x100 then l == n else l < n
  {
    if v6 { assert Align(v6) == 8; } else { assert Align(v6) == 4; }
  }

  /** A longer one is not: the length that is written is another one. */
  lemma LongBodyLost(v6: bool, data: seq<Byte>, stacks: seq<Stack>)
    requires stacks != [] && PaddedLength(v6, |data|) / Align(v6) >= 0x100
    ensures var b := Body(v6, data, stacks); |b| >= 4 && |ParseBody(v6, b).0| != PaddedLength(v6, |data|)
  {
    var b, n := Body(v6, data, stacks), PaddedLength(v6, |data|);
    LengthReads(v6, n);
    assert n > 128;
    assert b == Front(v6, n) + Padded(v6, data) + Structure(stacks);
    PartsLost(v6, n, Front(v6, n), Padded(v6, data), Structure(stacks));
  }

  lemma PartsLost(v6: bool, n: nat, front: seq<Byte>, padded: seq<Byte>, t: seq<Byte>)
    requires |front| == 4 && |padded| == n > 128 && t != []
    requires Align(v6) * (if v6 then front[0] else front[1]) as int < n
    ensures |ParseBody(v6, front + padded + t).0| != n
  {
    var b := front + padded + t;
    assert b[0] == front[0] && b[1] == front[1];
    var f := FindExtensions(b[4..], Align(v6) * (if v6 then b[0] else b[1]) as int);
    assert f.Found? ==> f.length < n;
  }

  /** Multipart bodies: parsing gives back the padded datagram and the stacks exactly if the length of
      the padded datagram, in its unit, fits the byte that carries it. */
  lemma {:induction false} MultipartRoundTrip(v6: bool, data: seq<Byte>, stacks: seq<Stack>)
    requires AllInRange(stacks) && stacks != [] && |ExtensionBytes(stacks)| + 4 <= 0x2_0000
    ensures |Body(v6, data, stacks)| >= 4
    ensures ParseBody(v6, Body(v6, data, stacks)) == (Padded(v6, data), Extensions(stacks))
      <==> PaddedLength(v6, |data|) / Align(v6) < 0x100
  {
    if PaddedLength(v6, |data|) / Align(v6) < 0x100 {
      ShortBodyReads(v6, data, stacks);
    } else {
      LongBodyLost(v6, data, stacks);
    }
  }

  // ---------------------------------------------------------------- writing a body

  lemma {:induction false} LabelsAppend(ls: seq<Label>, l: Label)
    ensures LabelsBytes(ls + [l]) == LabelsBytes(ls) + LabelBytes(l)
  {
    if ls != [] {
      assert (ls + [l])[0] == ls[0] && (ls + [l])[1..] == ls[1..] + [l];
      LabelsAppend(ls[1..], l);
    }
  }

  /** Writing right behind what was written. */
  lemma OverBehind(s: seq<Byte>, off: nat, done: seq<Byte>, more: seq<Byte>)
    requires off + |done| + |more| <= |s|
    ensures Over(Over(s, off, done), off + |done|, more) == Over(s, off, done + more)
  {
    var t := Over(s, off, done);
    assert t[..off + |done|] == s[..off] + done;
    assert t[off + |done| + |more|..] == s[off + |done| + |more|..];
  }

  /** MPLSLabelStack.marshal. */
  method MarshalStack(b: array<Byte>, off: nat, s: Stack)
    requires off + s.Length() <= b.Length
    modifies b
    ensures b[..] == Over(old(b[..]), off, StackBytes(s))
  {
    hide LabelBytes, Over;
    ghost var was := b[..];
    var l := s.Length();
    var head: seq<Byte> := [l / 0x100 % 0x100, l % 0x100, CLASS_MPLS_LABEL_STACK, TYPE_INCOMING];
    Put(b, off, head);
    var i := 0;
    assert LabelsBytes(s.labels[..0]) == [] && head + [] == head;
    while i < |s.labels|
      invariant i <= |s.labels| && b[..] == Over(was, off, head + LabelsBytes(s.labels[..i]))
    {
      ghost var done := head + LabelsBytes(s.labels[..i]);
      LabelsAppend(s.labels[..i], s.labels[i]);
      assert s.labels[..i + 1] == s.labels[..i] + [s.labels[i]];
      OverBehind(was, off, done, LabelBytes(s.labels[i]));
      Put(b, off + 4 + 4 * i, LabelBytes(s.labels[i]));
      assert done + LabelBytes(s.labels[i]) == head + LabelsBytes(s.labels[..i + 1]);
      i := i + 1;
    }
    assert s.labels[..i] == s.labels;
  }

  lemma {:induction false} ExtensionsAppend(stacks: seq<Stack>, s: Stack)
    ensures ExtensionBytes(stacks + [s]) == ExtensionBytes(stacks) + StackBytes(s)
  {
    if stacks != [] {
      assert (stacks + [s])[0] == stacks[0] && (stacks + [s])[1..] == stacks[1..] + [s];
      ExtensionsAppend(stacks[1..], s);
    }
  }

  /** The loop of multipartMessageBodyDataLen. */
  method ExtensionsLength(stacks: seq<Stack>) returns (n: nat)
    ensures n == |ExtensionBytes(stacks)|
  {
    n := 0;
    var i := 0;
    while i < |stacks|
      invariant i <= |stacks| && n == |ExtensionBytes(stacks[..i])|
    {
      ExtensionsAppend(stacks[..i], stacks[i]);
      assert stacks[..i + 1] == stacks[..i] + [stacks[i]];
      n := n + stacks[i].Length();
      i := i + 1;
    }
    assert stacks[..i] == stacks;
  }

  /** The loop of marshalMultipartMessageBody over the extensions. */
  method MarshalStacks(b: array<Byte>, start: nat, stacks: seq<Stack>)
    requires start + |ExtensionBytes(stacks)| <= b.Length
    modifies b
    ensures b[..] == Over(old(b[..]), start, ExtensionBytes(stacks))
  {
    ghost var was := b[..];
    var off := start;
    var i := 0;
    assert b[..] == Over(was, start, []);
    while i < |stacks|
      invariant i <= |stacks| && off == start + |ExtensionBytes(stacks[..i])| <= |was|
      invariant b[..] == Over(was, start, ExtensionBytes(stacks[..i]))
    {
      ExtensionsMore(stacks, i);
      OverBehind(was, start, ExtensionBytes(stacks[..i]), StackBytes(stacks[i]));
      MarshalStack(b, off, stacks[i]);
      off := off + stacks[i].Length();
      i := i + 1;
    }
    assert stacks[..i] == stacks;
  }

  lemma {:induction false} ExtensionsMore(stacks: seq<Stack>, i: nat)
    requires i < |stacks|
    ensures ExtensionBytes(stacks[..i + 1]) == ExtensionBytes(stacks[..i]) + StackBytes(stacks[i])
    ensures |ExtensionBytes(stacks[..i + 1])| <= |ExtensionBytes(stacks)|
    decreases |stacks| - i
  {
    ExtensionsAppend(stacks[..i], stacks[i]);
    assert stacks[..i + 1] == stacks[..i] + [stacks[i]];
    if i + 1 < |stacks| {
      ExtensionsMore(stacks, i + 1);
    } else {
      assert stacks[..i + 1] == stacks;
    }
  }

  /** marshalMultipartMessageBody. */
  method MarshalBody(v6: bool, data: seq<Byte>, stacks: seq<Stack>) returns (b: array<Byte>)
    ensures fresh(b) && b[..] == Body(v6, data, stacks)
  {
    var bodyLen := ExtensionsLength(stacks);
    if stacks == [] {
      b := NewBody(bodyLen + |data|, data);
      assert [0, 0, 0, 0] + data + Zeros(0) == [0, 0, 0, 0] + data;
      return;
    }
    var dataLen := PaddedLength(v6, |data|);
    b := NewBody(bodyLen + 4 + dataLen, data);
    PaddedZeros(v6, data, bodyLen + 4);
    MarshalStructure(b, dataLen + 4, stacks);
    PutLength(b, v6, dataLen, Padded(v6, data), Structure(stacks));
  }

  /** A body of so many bytes that starts with a datagram. */
  method NewBody(n: nat, data: seq<Byte>) returns (b: array<Byte>)
    requires |data| <= n
    ensures fresh(b) && b[..] == [0, 0, 0, 0] + data + Zeros(n - |data|)
  {
    b := new Byte[4 + n](_ => 0);
    Put(b, 4, data);
  }

  lemma PaddedZeros(v6: bool, data: seq<Byte>, n: nat)
    ensures var dataLen := PaddedLength(v6, |data|);
      var b := [0, 0, 0, 0] + data + Zeros(n + dataLen - |data|);
      b[..dataLen + 4] == [0, 0, 0, 0] + Padded(v6, data) && b[dataLen + 4..] == Zeros(n)
  {
  }

  /** The datagram's length goes in front of it. */
  method PutLength(b: array<Byte>, v6: bool, n: nat, ghost padded: seq<Byte>, ghost t: seq<Byte>)
    requires b[..] == [0, 0, 0, 0] + padded + t
    modifies b
    ensures b[..] == Front(v6, n) + padded + t
  {
    ghost var rest := padded + t;
    assert b[..] == [0, 0, 0, 0] + rest;
    FrontOver(v6, n, rest);
    Put(b, if v6 then 0 else 1, [n / Align(v6) % 0x100]);
    assert Front(v6, n) + padded + t == Front(v6, n) + rest;
  }

  lemma FrontOver(v6: bool, n: nat, rest: seq<Byte>)
    ensures Over([0, 0, 0, 0] + rest, if v6 then 0 else 1, [n / Align(v6) % 0x100]) == Front(v6, n) + rest
  {
  }

  /** The extension header, the extensions and their checksum, over zeros. */
  method MarshalStructure(b: array<Byte>, at: nat, stacks: seq<Stack>)
    requires at + 4 + |ExtensionBytes(stacks)| == b.Length && b[at..] == Zeros(b.Length - at)
    modifies b
    ensures b[..] == old(b[..at]) + Structure(stacks)
  {
    hide Checksum, ExtensionBytes;
    ghost var front := b[..at];
    b[at] := 0x20;
    MarshalStacks(b, at + 4, stacks);
    ghost var plain := [0x20, 0, 0, 0] + ExtensionBytes(stacks);
    assert b[..] == front + plain;
    assert b[at..] == plain;
    var s := ComputeChecksum(b[at..]);
    b[at + 2] := s % 0x100;
    b[at + 3] := s / 0x100;
    assert b[..] == front + Sealed(plain, 2);
  }
}

/** What the fields of ICMP messages and extensions are, by the numbers of RFC 1071, RFC 3032, RFC 4884, RFC 4950 and
    RFC 5837. */
module IcmpLaws {
  import opened ByteSeqs
  import opened Utf8
  import opened Interfaces
  import opened Icmp

  // ---------------------------------------------------------------- the Internet checksum

  /** The sum of the 16-bit words in network byte order; an odd byte at the end is followed by a zero. */
  function NetSum(b: seq<Byte>): nat {
    if |b| == 0 then 0
    else if |b| == 1 then 0x100 * b[0] as int
    else 0x100 * b[0] as int + b[1] as int + NetSum(b[2..])
  }

  lemma {:induction false} SumsAgree(b: seq<Byte>) returns (k: nat)
    ensures NetSum(b) + 0xFFFF * k == 0x100 * WordSum(b)
  {
    if |b| < 2 {
      k := 0;
    } else {
      var j := SumsAgree(b[2..]);
      k := j + b[1];
    }
  }

  /** The program sums words low byte first, and stores its checksum low byte first.  In network byte order that is the
      checksum of RFC 1071: with it the words sum to a multiple of 2^16-1. */
  lemma {:induction false} ChecksumIsInternet(b: seq<Byte>) returns (k: int)
    requires |b| <= 0x2_0000
    ensures var c := Checksum(b); NetSum(b) + (c % 0x100 * 0x100 + c / 0x100) == 0xFFFF * k
  {
    var j := SumsAgree(b);
    SmallSum(b);
    ChecksumOf(b, WordSum(b));
    var q := FoldMod(WordSum(b));
    var c := Checksum(b);
    Multiples(NetSum(b), WordSum(b), c, j, q);
    k := 0x100 * (q + 1) - j - c / 0x100;
  }

  lemma Multiples(net: nat, sum: nat, c: nat, j: nat, q: nat)
    requires net + 0xFFFF * j == 0x100 * sum && sum == 0xFFFF * q + (0xFFFF - c) && c <= 0xFFFF
    ensures net + (c % 0x100 * 0x100 + c / 0x100) == 0xFFFF * (0x100 * (q + 1) - j - c / 0x100)
  {
    var hi, lo := c / 0x100, c % 0x100;
    assert c == 0x100 * hi + lo;
  }

  /** The checksum that a reader computes is 0 exactly if the words in network byte order sum to a multiple of
      2^16-1. */
  lemma {:induction false} ChecksumZero(b: seq<Byte>)
    requires 0 < |b| <= 0x2_0000 && b[0] > 0
    ensures Checksum(b) == 0 <==> NetSum(b) % 0xFFFF == 0
  {
    hide *;
    var j := SumsAgree(b);
    SmallSum(b);
    ChecksumOf(b, WordSum(b));
    var q := FoldMod(WordSum(b));
    SumIsSome(b);
    Divides(NetSum(b), WordSum(b), j, q, Fold(WordSum(b)));
  }

  lemma SumIsSome(b: seq<Byte>)
    requires b != [] && b[0] > 0
    ensures WordSum(b) > 0
  {
  }

  /** 256 has an inverse modulo 2^16-1. */
  lemma Divides(net: nat, sum: nat, j: nat, q: nat, fold: nat)
    requires net + 0xFFFF * j == 0x100 * sum && sum == 0xFFFF * q + fold && 0 < fold <= 0xFFFF
    ensures fold == 0xFFFF <==> net % 0xFFFF == 0
  {
    if net % 0xFFFF == 0 {
      var n := net / 0xFFFF;
      assert 0x1_0000 * sum == 0xFFFF * (0x100 * (n + j));
      assert fold == 0xFFFF * (0x100 * (n + j) - sum - q);
    }
    if fold == 0xFFFF { assert net == 0xFFFF * (0x100 * (q + 1) - j); }
  }

  /** An extension structure is accepted if its version is 2 and its checksum is absent or that of RFC 1071. */
  lemma {:induction false} HeaderExact(b: seq<Byte>)
    requires 4 <= |b| <= 0x2_0000
    ensures ValidExtensionHeader(b) <==>
      0x20 <= b[0] <= 0x2F && (b[2..4] == [0, 0] || NetSum(b) % 0xFFFF == 0)
  {
    assert b[2..4] == [b[2], b[3]];
    if b[0] > 0 { ChecksumZero(b); }
    hide Checksum, NetSum;
  }

  /** The pseudo header of section 8.1 of RFC 2460: the two addresses, the length in 32 bits, three zeros and the number
      of ICMPv6. */
  lemma PseudoHeaderLayout(src: seq<Byte>, dst: seq<Byte>, n: nat)
    requires |src| == |dst| == 16 && n < 0x1_0000_0000
    ensures var h := PseudoHeader(IPv6PseudoHeader(src, dst), n);
      |h| == 40 && h[..16] == src && h[16..32] == dst && Number(h[32..36]) == n && h[36..] == [0, 0, 0, 58]
  {
    var psh, l := IPv6PseudoHeader(src, dst), Length32(n);
    assert psh == src + dst + [0, 0, 0, 0] + [0, 0, 0, 58];
    assert PseudoHeader(psh, n) == psh[..32] + l + psh[36..];
    LengthReads(n);
    hide *;
    Filled(src, dst, [0, 0, 0, 0], l, [0, 0, 0, 58]);
  }

  lemma LengthReads(n: nat)
    requires n < 0x1_0000_0000
    ensures |Length32(n)| == 4 && Number(Length32(n)) == n
  {
    var a := n / 0x100;
    var b := a / 0x100;
    var c := b / 0x100;
    assert n / 0x1_0000 == b && n / 0x100_0000 == c && c < 0x100;
    FourDigits(n, a, b, c, Length32(n));
  }

  lemma FourDigits(n: nat, a: nat, b: nat, c: nat, s: seq<Byte>)
    requires n == 0x100 * a + n % 0x100 && a == 0x100 * b + a % 0x100 && b == 0x100 * c + b % 0x100
    requires |s| == 4 && s[0] == c && s[1] == b % 0x100 && s[2] == a % 0x100 && s[3] == n % 0x100
    ensures Number(s) == n
  {
  }

  lemma Filled(src: seq<Byte>, dst: seq<Byte>, old4: seq<Byte>, new4: seq<Byte>, last: seq<Byte>)
    requires |src| == |dst| == 16 && |old4| == |new4| == |last| == 4
    ensures var psh := src + dst + old4 + last; var h := psh[..32] + new4 + psh[36..];
      |h| == 40 && h[..16] == src && h[16..32] == dst && h[32..36] == new4 && h[36..] == last
  {
    var psh := src + dst + old4 + last;
    assert psh[..32] == src + dst && psh[36..] == last;
    assert psh[..32] + new4 + psh[36..] == src + dst + new4 + last;
  }

  // ---------------------------------------------------------------- interfaces

  /** Addresses of family 1 have 4 bytes and of family 2 16, behind four that say the family; of any other family only
      these four are read, so that an address behind them is taken for what comes next. */
  lemma AddressExact(b: seq<Byte>, a: Attrs, so: Info)
    requires b != [] && !a.ifIndex && a.ipAddr
    ensures ReadAttrs(b, a, so) ==
      if |b| < 4 then Unreadable else
      var family := b[0] as int * 256 + b[1] as int;
      var n := if family == 1 then 4 else if family == 2 then 16 else 0;
      if |b| < 4 + n then Unreadable
      else ReadAttrs(b[4 + n..], a.(ipAddr := false), if n == 0 then so else so.(addr := b[4..4 + n]))
  {
  }

  // ---------------------------------------------------------------- label stacks

  /** An entry is 32 bits: 20 of label, 3 of traffic class, 1 for the bottom of the stack, and 8 of time to live. */
  lemma LabelWord(l: Label)
    requires l.InRange()
    ensures Number(LabelBytes(l)) == l.value * 0x1000 + l.tc * 0x200 + (if l.bottom then 0x100 else 0) + l.ttl
  {
    var x, r := l.value / 0x10, l.value % 0x10;
    assert l.value / 0x1000 == x / 0x100 && x < 0x1_0000 && l.value == x * 0x10 + r;
    LabelParts(LabelBytes(l), x / 0x100, x % 0x100, r, l.tc, if l.bottom then 1 else 0, l.ttl);
  }

  lemma LabelParts(b: seq<Byte>, hi: nat, lo: nat, r: nat, tc: nat, bottom: nat, ttl: nat)
    requires |b| == 4 && b[0] == hi && b[1] == lo && b[2] == r * 0x10 + tc * 2 + bottom && b[3] == ttl
    ensures Number(b) == ((hi * 0x100 + lo) * 0x10 + r) * 0x1000 + tc * 0x200 + bottom * 0x100 + ttl
  {
  }

  /** An object's header: 16 bits of length, then class and type, both 1 for a label stack. */
  lemma StackHeader(s: Stack)
    requires s.Length() < 0x1_0000
    ensures var b := StackBytes(s);
      ObjectLength(b) == |b| == 4 + 4 * |s.labels| && b[2] == 1 && b[3] == 1 && b[4..] == LabelsBytes(s.labels)
  {
  }

  /** Objects of class 1 are label stacks, of class 2 information on interfaces, and others are passed over; the bits of
      an interface's type stand for its index, its address, its name and its MTU. */
  lemma ObjectKinds(b: seq<Byte>, n: nat)
    requires 4 <= n <= |b|
    ensures b[2] == 1 ==> Object(b, n) == Good([LabelStack(Stack(1, b[3], ReadLabels(b[4..n])))])
    ensures b[2] == 2 ==>
      var a := Attrs(b[3] / 8 % 2 == 1, b[3] / 4 % 2 == 1, b[3] / 2 % 2 == 1, b[3] % 2 == 1);
      (Object(b, n) == Bad <==> ReadAttrs(b[4..n], a, Info(0, [], [], 0)) == Unreadable)
      && (forall info :: Object(b, n) == Good([InterfaceInfo(b[3], info)]) <==>
        ReadAttrs(b[4..n], a, Info(0, [], [], 0)) == Read(info))
    ensures b[2] != 1 && b[2] != 2 ==> Object(b, n) == Good([])
  {
    hide ReadAttrs, ReadLabels;
  }

  // ---------------------------------------------------------------- bodies

  /** A body with extensions: the length of the datagram in 32-bit words, or in 64-bit words for ICMPv6, in its place in
      front; the datagram, padded with zeros to whole words and at least 128 bytes; version 2 and a checksum over all
      that follows; and the objects. */
  lemma {:induction false} BodyLayout(v6: bool, data: seq<Byte>, stacks: seq<Stack>)
    requires stacks != [] && |ExtensionBytes(stacks)| + 4 <= 0x2_0000
    ensures var b := Body(v6, data, stacks);
      var unit := if v6 then 8 else 4;
      var n := if |data| < 128 then 128 else (|data| + unit - 1) / unit * unit;
      && |b| == 4 + n + 4 + |ExtensionBytes(stacks)| && |data| <= n
      && b[..4] == (if v6 then [n / 8 % 256, 0, 0, 0] else [0, n / 4 % 256, 0, 0])
      && b[4..4 + |data|] == data && (forall k :: 4 + |data| <= k < 4 + n ==> b[k] == 0)
      && b[4 + n] == 0x20 && b[5 + n] == 0 && Checksum(b[4 + n..]) == 0 && b[8 + n..] == ExtensionBytes(stacks)
  {
    var n := PaddedLength(v6, |data|);
    var t := Structure(stacks);
    assert Body(v6, data, stacks) == Front(v6, n) + Padded(v6, data) + t;
    hide Body, ExtensionBytes, Checksum;
    StructureLayout(stacks);
    hide Structure;
    PaddedLayout(v6, data);
    hide Padded;
    Parts(Front(v6, n), Padded(v6, data), t, |data|);
  }

  /** What could be an extension structure stands behind a datagram of n bytes. */
  predicate Marked(b: seq<Byte>, n: nat) { 4 + n + 8 <= |b| && ValidExtensionHeader(b[4 + n..]) }

  /** A body without extensions at the place that its length says, or behind 128 bytes, is all datagram. */
  lemma NoExtensions(v6: bool, b: seq<Byte>)
    requires |b| >= 4
    requires var l := if v6 then 8 * b[0] as int else 4 * b[1] as int; !Marked(b, 128) && (l > 128 ==> !Marked(b, l))
    ensures ParseBody(v6, b) == (b[4..], [])
  {
    var l := if v6 then 8 * b[0] as int else 4 * b[1] as int;
    var d := b[4..];
    assert l + 8 <= |d| ==> d[l..] == b[4 + l..];
    assert 136 <= |d| ==> d[128..] == b[132..];
    hide ValidExtensionHeader, Objects;
  }

  lemma StructureLayout(stacks: seq<Stack>)
    requires |ExtensionBytes(stacks)| + 4 <= 0x2_0000
    ensures var t := Structure(stacks);
      && |t| == 4 + |ExtensionBytes(stacks)| && t[0] == 0x20 && t[1] == 0 && Checksum(t) == 0
      && t[4..] == ExtensionBytes(stacks)
  {
    var plain := [0x20, 0, 0, 0] + ExtensionBytes(stacks);
    SealedSumsToZero(plain, 2);
    hide ExtensionBytes, Checksum;
    assert Structure(stacks)[4..] == plain[4..];
  }

  lemma PaddedLayout(v6: bool, data: seq<Byte>)
    ensures var padded := Padded(v6, data);
      |data| <= |padded| && padded[..|data|] == data && forall k :: |data| <= k < |padded| ==> padded[k] == 0
  {
  }

  lemma Parts(front: seq<Byte>, padded: seq<Byte>, t: seq<Byte>, d: nat)
    requires |front| == 4 && d <= |padded| && |t| >= 4 && forall k :: d <= k < |padded| ==> padded[k] == 0
    ensures var b, n := front + padded + t, |padded|;
      && b[..4] == front && b[4..4 + d] == padded[..d] && (forall k :: 4 + d <= k < 4 + n ==> b[k] == 0)
      && b[4 + n..] == t && b[4 + n] == t[0] && b[5 + n] == t[1] && b[8 + n..] == t[4..]
  {
  }
}

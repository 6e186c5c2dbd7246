/** Byte strings and Go's conversion between UTF-8 bytes and code points ("runes"):
    what `range` over a string yields and what `string(runes)` produces. */
module Utf8 {

  type Byte = x: int | 0 <= x < 256

  const MAX_RUNE := 0x10FFFF
  const RUNE_ERROR := 0xFFFD

  predicate IsScalar(r: int) {
    0 <= r <= MAX_RUNE && !(0xD800 <= r <= 0xDFFF)
  }

  predicate AllScalar(rs: seq<int>) {
    forall k :: 0 <= k < |rs| ==> IsScalar(rs[k])
  }

  /** The UTF-8 form of one code point; anything that is not a scalar value becomes U+FFFD. */
  function EncodeRune(r: int): (bs: seq<Byte>)
    ensures 1 <= |bs| <= 4
    ensures 0 <= r < 0x80 ==> bs == [r]
  {
    if 0 <= r < 0x80 then [r]
    else if 0 <= r < 0x800 then [0xC0 + r / 64, 0x80 + r % 64]
    else if !IsScalar(r) then [0xEF, 0xBF, 0xBD]
    else if r < 0x10000 then [0xE0 + r / 4096, 0x80 + r / 64 % 64, 0x80 + r % 64]
    else [0xF0 + r / 262144, 0x80 + r / 4096 % 64, 0x80 + r / 64 % 64, 0x80 + r % 64]
  }

  /** The range of second bytes accepted after lead byte `b`. */
  predicate SecondOk(b: Byte, c: Byte) {
    if b == 0xE0 then 0xA0 <= c <= 0xBF
    else if b == 0xED then 0x80 <= c <= 0x9F
    else if b == 0xF0 then 0x90 <= c <= 0xBF
    else if b == 0xF4 then 0x80 <= c <= 0x8F
    else 0x80 <= c <= 0xBF
  }

  predicate Continues(c: Byte) { 0x80 <= c <= 0xBF }

  // Code points from their six-bit groups.
  function Join2(a: int, b: int): int { a * 64 + b }
  function Join3(a: int, b: int, c: int): int { Join2(Join2(a, b), c) }
  function Join4(a: int, b: int, c: int, d: int): int { Join2(Join3(a, b, c), d) }

  /** The first code point of `bs` and its width; an invalid encoding is U+FFFD of width one. */
  function DecodeRune(bs: seq<Byte>): (p: (int, nat))
    requires bs != []
    ensures 1 <= p.1 <= |bs|
    ensures bs[0] < 0x80 ==> p == (bs[0], 1)
    ensures IsScalar(p.0)
  {
    var b := bs[0];
    if b < 0x80 then (b, 1)
    else if 0xC2 <= b <= 0xDF && |bs| >= 2 && SecondOk(b, bs[1]) then
      (Join2(b - 0xC0, bs[1] - 0x80), 2)
    else if 0xE0 <= b <= 0xEF && |bs| >= 3 && SecondOk(b, bs[1]) && Continues(bs[2]) then
      (Join3(b - 0xE0, bs[1] - 0x80, bs[2] - 0x80), 3)
    else if 0xF0 <= b <= 0xF4 && |bs| >= 4 && SecondOk(b, bs[1]) && Continues(bs[2]) && Continues(bs[3]) then
      (Join4(b - 0xF0, bs[1] - 0x80, bs[2] - 0x80, bs[3] - 0x80), 4)
    else (RUNE_ERROR, 1)
  }

  /** The code points that `range` over the string yields. */
  function Runes(bs: seq<Byte>): (rs: seq<int>)
    ensures |rs| <= |bs|
    ensures AllScalar(rs)
  {
    if bs == [] then [] else
    var (r, n) := DecodeRune(bs);
    [r] + Runes(bs[n..])
  }

  /** `string(rs)`. */
  function FromRunes(rs: seq<int>): (bs: seq<Byte>)
    ensures |rs| <= |bs|
  {
    if rs == [] then [] else EncodeRune(rs[0]) + FromRunes(rs[1..])
  }

  lemma SplitGroups(r: int)
    requires 0 <= r
    ensures r == Join2(r / 64, r % 64)
    ensures r / 64 == Join2(r / 4096, r / 64 % 64)
    ensures r / 4096 == Join2(r / 262144, r / 4096 % 64)
  {
  }

  lemma DecodeEncodeRune(r: int, rest: seq<Byte>)
    requires IsScalar(r)
    ensures DecodeRune(EncodeRune(r) + rest) == (r, |EncodeRune(r)|)
  {
    if r >= 0x10000 {
      DecodeEncodeWide(r, rest);
    } else if r >= 0x800 {
      DecodeEncodeThree(r, rest);
    } else if r >= 0x80 {
      SplitGroups(r);
      var bs := EncodeRune(r) + rest;
      assert bs[0] == 0xC0 + r / 64 && bs[1] == 0x80 + r % 64;
    }
  }

  lemma DecodeEncodeThree(r: int, rest: seq<Byte>)
    requires IsScalar(r) && 0x800 <= r < 0x10000
    ensures DecodeRune(EncodeRune(r) + rest) == (r, 3)
  {
    SplitGroups(r);
    var bs := EncodeRune(r) + rest;
    assert bs[0] == 0xE0 + r / 4096 && bs[1] == 0x80 + r / 64 % 64 && bs[2] == 0x80 + r % 64;
  }

  lemma DecodeEncodeWide(r: int, rest: seq<Byte>)
    requires 0x10000 <= r <= MAX_RUNE
    ensures DecodeRune(EncodeRune(r) + rest) == (r, 4)
  {
    SplitGroups(r);
    var bs := EncodeRune(r) + rest;
    assert bs[0] == 0xF0 + r / 262144 && bs[1] == 0x80 + r / 4096 % 64
        && bs[2] == 0x80 + r / 64 % 64 && bs[3] == 0x80 + r % 64;
  }

  /** What stands at the front is the UTF-8 of the code point that is read; or no code point's UTF-8 stands there, and
      one byte is read as U+FFFD. */
  lemma DecodeRuneExact(bs: seq<Byte>)
    requires bs != []
    ensures var (r, n) := DecodeRune(bs);
      || EncodeRune(r) == bs[..n]
      || ((r, n) == (0xFFFD, 1) && forall x :: IsScalar(x) ==> !(EncodeRune(x) <= bs))
  {
    if x :| IsScalar(x) && EncodeRune(x) <= bs {
      DecodeEncodeRune(x, bs[|EncodeRune(x)|..]);
      assert bs == EncodeRune(x) + bs[|EncodeRune(x)|..];
    } else {
      ReadIsWritten(bs);
    }
  }

  lemma JoinSplits(a: int, b: int)
    requires 0 <= a && 0 <= b < 64
    ensures Join2(a, b) / 64 == a && Join2(a, b) % 64 == b
  {
  }

  lemma Widths(r: int)
    requires IsScalar(r) && r >= 0x80
    ensures r < 0x800 ==> EncodeRune(r) == [0xC0 + r / 64, 0x80 + r % 64]
    ensures 0x800 <= r < 0x10000 ==> EncodeRune(r) == [0xE0 + r / 64 / 64, 0x80 + r / 64 % 64, 0x80 + r % 64]
    ensures 0x10000 <= r ==>
      EncodeRune(r) == [0xF0 + r / 64 / 64 / 64, 0x80 + r / 64 / 64 % 64, 0x80 + r / 64 % 64, 0x80 + r % 64]
  {
    assert r / 64 / 64 == r / 4096 && r / 4096 / 64 == r / 262144;
  }

  lemma TwoWritten(a: Byte, b: Byte)
    requires 0xC2 <= a <= 0xDF && SecondOk(a, b)
    ensures EncodeRune(Join2(a - 0xC0, b - 0x80)) == [a, b]
  {
    JoinSplits(a - 0xC0, b - 0x80);
    Widths(Join2(a - 0xC0, b - 0x80));
  }

  lemma ThreeWritten(a: Byte, b: Byte, c: Byte)
    requires 0xE0 <= a <= 0xEF && SecondOk(a, b) && Continues(c)
    ensures EncodeRune(Join3(a - 0xE0, b - 0x80, c - 0x80)) == [a, b, c]
  {
    JoinSplits(a - 0xE0, b - 0x80);
    JoinSplits(Join2(a - 0xE0, b - 0x80), c - 0x80);
    Widths(Join3(a - 0xE0, b - 0x80, c - 0x80));
    hide EncodeRune;
  }

  lemma FourWritten(a: Byte, b: Byte, c: Byte, d: Byte)
    requires 0xF0 <= a <= 0xF4 && SecondOk(a, b) && Continues(c) && Continues(d)
    ensures EncodeRune(Join4(a - 0xF0, b - 0x80, c - 0x80, d - 0x80)) == [a, b, c, d]
  {
    JoinSplits(a - 0xF0, b - 0x80);
    JoinSplits(Join2(a - 0xF0, b - 0x80), c - 0x80);
    JoinSplits(Join3(a - 0xF0, b - 0x80, c - 0x80), d - 0x80);
    Widths(Join4(a - 0xF0, b - 0x80, c - 0x80, d - 0x80));
    hide EncodeRune;
  }

  lemma ReadIsWritten(bs: seq<Byte>)
    requires bs != []
    ensures var (r, n) := DecodeRune(bs); EncodeRune(r) == bs[..n] || (r, n) == (0xFFFD, 1)
  {
    hide EncodeRune, Join2, Join3, Join4;
    var (r, n) := DecodeRune(bs);
    if n == 4 {
      FourWritten(bs[0], bs[1], bs[2], bs[3]);
      assert bs[..4] == [bs[0], bs[1], bs[2], bs[3]];
    } else if n == 3 {
      ThreeWritten(bs[0], bs[1], bs[2]);
      assert bs[..3] == [bs[0], bs[1], bs[2]];
    } else if n == 2 {
      TwoWritten(bs[0], bs[1]);
      assert bs[..2] == [bs[0], bs[1]];
    } else {
      assert bs[..1] == [bs[0]];
    }
  }

  /** What `string(r)` makes of a code point. */
  function Scrub(r: int): (q: int)
    ensures IsScalar(q)
    ensures EncodeRune(q) == EncodeRune(r)
  {
    if IsScalar(r) then r else RUNE_ERROR
  }

  function ScrubAll(rs: seq<int>): (r: seq<int>)
    ensures |r| == |rs|
    ensures AllScalar(rs) ==> r == rs
  {
    if rs == [] then [] else [Scrub(rs[0])] + ScrubAll(rs[1..])
  }

  lemma RunesStep(r: int, rest: seq<Byte>)
    requires IsScalar(r)
    ensures Runes(EncodeRune(r) + rest) == [r] + Runes(rest)
  {
    DecodeEncodeRune(r, rest);
    assert (EncodeRune(r) + rest)[|EncodeRune(r)|..] == rest;
  }

  /** Code points survive the trip through UTF-8, up to the replacement of those that are not
      scalar values. */
  lemma {:induction false} RunesOfFromRunes(rs: seq<int>)
    ensures Runes(FromRunes(rs)) == ScrubAll(rs)
  {
    if rs != [] {
      RunesStep(Scrub(rs[0]), FromRunes(rs[1..]));
      RunesOfFromRunes(rs[1..]);
    }
  }

  predicate AllAscii(bs: seq<int>) {
    forall k :: 0 <= k < |bs| ==> 0 <= bs[k] < 0x80
  }

  lemma {:induction false} RunesOfAscii(bs: seq<Byte>)
    requires AllAscii(bs)
    ensures Runes(bs) == bs
  {
    if bs != [] { RunesOfAscii(bs[1..]); }
  }

  lemma {:induction false} FromRunesOfAscii(rs: seq<int>)
    requires AllAscii(rs)
    ensures FromRunes(rs) == rs
  {
    if rs != [] { FromRunesOfAscii(rs[1..]); }
  }
}

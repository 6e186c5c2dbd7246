/** What character references mean (unescapeEntity in net/html/escape.go), said over the bytes of whole texts: which
    numbers and names are replaced and by what, and which are left alone. */
module HtmlReferences {
  import opened Machine
  import opened Utf8
  import opened HtmlEscape

  // ---------------------------------------------------------------- numbers

  predicate IsDigitIn(c: Byte, hex: bool) {
    || '0' as int <= c <= '9' as int
    || (hex && ('a' as int <= c <= 'f' as int || 'A' as int <= c <= 'F' as int))
  }

  function ValueIn(c: Byte): int {
    if c <= '9' as int then c - '0' as int else if c <= 'F' as int then c - 'A' as int + 10 else c - 'a' as int + 10
  }

  /** The number that digits stand for, the last of them for the least. */
  function NumberOf(ds: seq<Byte>, hex: bool): int {
    if ds == [] then 0 else (if hex then 16 else 10) * NumberOf(ds[..|ds| - 1], hex) + ValueIn(ds[|ds| - 1])
  }

  predicate AllDigits(ds: seq<Byte>, hex: bool) { forall i :: 0 <= i < |ds| ==> IsDigitIn(ds[i], hex) }

  lemma DigitIs(c: Byte, hex: bool)
    ensures IsDigitIn(c, hex) <==> DigitValue(c, hex) >= 0
    ensures IsDigitIn(c, hex) ==> DigitValue(c, hex) == ValueIn(c)
  {
  }

  /** Wrapping on the way changes nothing that wrapping at the end does not. */
  lemma WrapStep(a: int, b: int, d: int)
    ensures Wrap32(b * Wrap32(a) + d) == Wrap32(b * a + d)
  {
    var m := 0x1_0000_0000;
    var q := (a - MIN_INT32) / m;
    assert a == q * m + Wrap32(a);
    assert b * a == b * q * m + b * Wrap32(a);
    WrapMod(b * Wrap32(a) + d, b * q);
  }

  lemma WrapMod(x: int, k: int)
    ensures Wrap32(x + k * 0x1_0000_0000) == Wrap32(x)
  {
    var m := 0x1_0000_0000;
    var y := x - MIN_INT32;
    ModShift(y, k, m);
    assert x + k * m - MIN_INT32 == y + k * m;
  }

  lemma ModShift(y: int, k: int, m: int)
    requires m > 0
    ensures (y + k * m) % m == y % m
  {
    var q, r := y / m, y % m;
    var q', r' := (y + k * m) / m, (y + k * m) % m;
    assert y + k * m == (q + k) * m + r;
    var d := q + k - q';
    assert d * m == r' - r;
    assert d == 0 by { SmallMultiple(d, m); }
  }

  lemma SmallMultiple(d: int, m: int)
    requires m > 0 && -m < d * m < m
    ensures d == 0
  {
    if d > 0 { NotNegative(d - 1, m); }
    if d < 0 { NotNegative(-d - 1, m); }
  }

  lemma NotNegative(a: int, m: int)
    requires 0 <= a && 0 <= m
    ensures 0 <= a * m && (a + 1) * m == a * m + m && (-a - 1) * m == -(a * m) - m
  {
  }

  /** Digits are read as their number, in int32 arithmetic, up to what is none. */
  lemma {:induction false} NumberRead(s: seq<Byte>, i: nat, n: nat, hex: bool)
    requires i + n <= |s| && AllDigits(s[i..i + n], hex)
    ensures Number(s, i, hex, 0) == Number(s, i + n, hex, Wrap32(NumberOf(s[i..i + n], hex)))
    decreases n
  {
    if n > 0 {
      var ds := s[i..i + n];
      var x := NumberOf(ds[..n - 1], hex);
      assert ds[..n - 1] == s[i..i + (n - 1)] && s[i + n - 1] == ds[n - 1];
      NumberRead(s, i, n - 1, hex);
      DigitIs(ds[n - 1], hex);
      WrapStep(x, if hex then 16 else 10, ValueIn(ds[n - 1]));
    } else {
      assert s[i..i] == [];
    }
  }

  /** The code point that a number stands for: itself; but what is no character stands for U+FFFD, and from 0x80 to 0x9F
      the number is one of Windows-1252, where five are undefined. */
  lemma Cleaned(x: int)
    ensures x == 0 || 0xD800 <= x <= 0xDFFF || x > 0x10FFFF ==> Sanitized(x) == 0xFFFD
    ensures 0x80 <= x <= 0x9F ==> (Sanitized(x) == x <==> x in {0x81, 0x8D, 0x8F, 0x90, 0x9D})
    ensures 0x80 <= x <= 0x9F && Sanitized(x) != x ==> !(0x80 <= Sanitized(x) <= 0x9F)
    ensures x != 0 && x <= 0x10FFFF && !(0xD800 <= x <= 0xDFFF) && !(0x80 <= x <= 0x9F) ==> Sanitized(x) == x
    ensures Sanitized(0x80) == 0x20AC && Sanitized(0x9F) == 0x0178
  {
  }

  /** A text that starts with "&#", digits and perhaps a ";": it is replaced if there is a digit and something behind
      it that belongs to it, another digit or the ";"; for a hexadecimal number a digit or the ";" is enough. */
  lemma {:induction false} NumericExact(t: Tables, x: seq<Byte>, ds: seq<Byte>, rest: seq<Byte>, attribute: bool)
    requires x == [] || x == ['x' as int] || x == ['X' as int]
    requires AllDigits(ds, x != []) && (rest != [] ==> !IsDigitIn(rest[0], x != []))
    requires x == [] && ds == [] && rest != [] ==> rest[0] != 'x' as int && rest[0] != 'X' as int
    ensures var s := ['&' as int, '#' as int] + x + ds + rest;
      var closed := rest != [] && rest[0] == ';' as int;
      var n := |ds| + if closed then 1 else 0;
      Unescaped(t, s, attribute) ==
        if n >= (if x == [] then 2 else 1)
        then EncodeRune(Sanitized(Wrap32(NumberOf(ds, x != []))))
          + Unescaped(t, rest[if closed then 1 else 0..], attribute)
        else ['&' as int] + Unescaped(t, s[1..], attribute)
  {
    var s := ['&' as int, '#' as int] + x + ds + rest;
    var e := 2 + |x| + |ds|;
    assert s[0] == '&' as int && s[1] == '#' as int && s[2 + |x|..e] == ds && s[e..] == rest;
    SecondByte(x, ds, rest);
    assert e < |s| ==> s[e] == rest[0] && s[e + 1..] == rest[1..];
    hide AllDigits, Unescaped, Reference, Sanitized, EncodeRune;
    NumericReference(t, s, x != [], ds, e, attribute);
    ReplacesFirst(t, s, attribute);
    assert s[..1] == ['&' as int];
  }

  lemma NumericReference(t: Tables, s: seq<Byte>, hex: bool, ds: seq<Byte>, e: nat, attribute: bool)
    requires AllDigits(ds, hex) && e == (if hex then 3 else 2) + |ds| && e <= |s| && (e < |s| ==> !IsDigitIn(s[e], hex))
    requires s[1] == '#' as int && s[if hex then 3 else 2..e] == ds
    requires |s| > 2 ==> (hex <==> s[2] == 'x' as int || s[2] == 'X' as int)
    ensures var i := if e < |s| && s[e] == ';' as int then e + 1 else e;
      Reference(t, s, attribute) ==
        if i > 3 then (EncodeRune(Sanitized(Wrap32(NumberOf(ds, hex)))), i) else (s[..1], 1)
  {
    NumberRead(s, if hex then 3 else 2, |ds|, hex);
    NumberEnds(s, e, hex, Wrap32(NumberOf(ds, hex)));
    hide AllDigits, Number, NumberOf, Sanitized, EncodeRune, NameEnd, PrefixEntity;
  }

  lemma SecondByte(x: seq<Byte>, ds: seq<Byte>, rest: seq<Byte>)
    requires x == [] || x == ['x' as int] || x == ['X' as int]
    requires AllDigits(ds, x != [])
    requires x == [] && ds == [] && rest != [] ==> rest[0] != 'x' as int && rest[0] != 'X' as int
    ensures var s := ['&' as int, '#' as int] + x + ds + rest;
      |s| > 2 ==> (x != [] <==> s[2] == 'x' as int || s[2] == 'X' as int)
  {
    var s := ['&' as int, '#' as int] + x + ds + rest;
    if x == [] && ds != [] { assert s[2] == ds[0]; }
  }

  lemma {:induction false} NumberEnds(s: seq<Byte>, e: nat, hex: bool, x: int)
    requires e <= |s| && (e < |s| ==> !IsDigitIn(s[e], hex))
    ensures Number(s, e, hex, x) == (x, if e < |s| && s[e] == ';' as int then e + 1 else e)
  {
    if e < |s| { DigitIs(s[e], hex); }
  }

  /** The code takes one decimal digit for none, if no ";" follows: "&#9 " is left alone. */
  lemma OneDigitLeft(t: Tables, attribute: bool)
    ensures Unescaped(t, ['&' as int, '#' as int, '9' as int, ' ' as int], attribute)
         == ['&' as int, '#' as int, '9' as int, ' ' as int]
  {
    var s := ['&' as int, '#' as int, '9' as int, ' ' as int];
    NumericExact(t, [], ['9' as int], [' ' as int], attribute);
    assert ['&' as int, '#' as int] + [] + ['9' as int] + [' ' as int] == s;
    NoAmpersand(t, s[1..], attribute);
    assert ['&' as int] + s[1..] == s;
  }

  lemma {:induction false} NoAmpersand(t: Tables, s: seq<Byte>, attribute: bool)
    requires '&' as int !in s
    ensures Unescaped(t, s, attribute) == s
  {
    if s != [] { NoAmpersand(t, s[1..], attribute); }
  }

  // ---------------------------------------------------------------- names

  predicate InName(c: Byte) {
    'a' as int <= c <= 'z' as int || 'A' as int <= c <= 'Z' as int || '0' as int <= c <= '9' as int
  }

  predicate AllInName(s: seq<Byte>) { forall i :: 0 <= i < |s| ==> InName(s[i]) }

  lemma {:induction false} NameRead(s: seq<Byte>, i: nat, e: nat)
    requires i <= e <= |s| && (forall k :: i <= k < e ==> InName(s[k])) && (e < |s| ==> !InName(s[e]))
    ensures NameEnd(s, i) == if e < |s| && s[e] == ';' as int then e + 1 else e
    decreases e - i
  {
    if i < e { NameRead(s, i + 1, e); }
  }

  /** The first k bytes of a name, two to six of them and not all, are the longest that are an entity. */
  ghost predicate LongestKnown(t: Tables, name: seq<Byte>, k: nat) {
    && 2 <= k <= 6 && k < |name| && name[..k] in t.entity
    && forall j :: k < j <= 6 && j < |name| ==> name[..j] !in t.entity
  }

  lemma {:induction false} PrefixIsLongest(t: Tables, name: seq<Byte>, j: int)
    requires j <= |name|
    ensures var k := PrefixEntity(t, name, j);
      && (k != 0 ==> 2 <= k <= j && name[..k] in t.entity && forall i :: k < i <= j ==> name[..i] !in t.entity)
      && (k == 0 ==> forall i :: 2 <= i <= j ==> name[..i] !in t.entity)
    decreases j
  {
    if j > 1 && name[..j] !in t.entity { PrefixIsLongest(t, name, j - 1); }
  }

  /** What a name in a text or in an attribute's value is replaced by, and how much of it is: what the whole name
      stands for; but in a value a name without a ";" is left alone before a "=", and so is an unknown one.  In a text
      an unknown name may begin with a known one, and the longest of these is replaced. */
  ghost predicate StandsFor(t: Tables, name: seq<Byte>, equals: bool, attribute: bool, out: seq<Byte>, n: nat) {
    if name == [] || (attribute && equals && name[|name| - 1] != ';' as int)
    then n == |name| && out == ['&' as int] + name
    else if name in t.entity then n == |name| && out == EncodeRune(t.entity[name])
    else if name in t.entity2 then
      n == |name| && out == EncodeRune(t.entity2[name].0) + EncodeRune(t.entity2[name].1)
    else if !attribute && (exists k :: LongestKnown(t, name, k)) then
      LongestKnown(t, name, n) && out == EncodeRune(t.entity[name[..n]])
    else n == |name| && out == ['&' as int] + name
  }

  /** A text that starts with "&" and a name, which ends with its ";" or before the first byte that is no letter or
      digit. */
  lemma {:induction false} NamedExact(t: Tables, run: seq<Byte>, rest: seq<Byte>, attribute: bool)
      returns (out: seq<Byte>, n: nat)
    requires AllInName(run) && (rest != [] ==> !InName(rest[0])) && (run == [] && rest != [] ==> rest[0] != '#' as int)
    ensures var closed := rest != [] && rest[0] == ';' as int;
      var name := run + if closed then [';' as int] else [];
      var equals := rest != [] && rest[0] == '=' as int;
      && StandsFor(t, name, equals, attribute, out, n) && n <= |run + rest|
      && Unescaped(t, ['&' as int] + run + rest, attribute) == out + Unescaped(t, (run + rest)[n..], attribute)
  {
    var s := ['&' as int] + run + rest;
    assert s == ['&' as int] + (run + rest);
    var closed := rest != [] && rest[0] == ';' as int;
    var name := run + if closed then [';' as int] else [];
    var i := 1 + |name|;
    hide *;
    NamePlace(run, rest, s, name);
    out, n := NamedTail(t, s, run + rest, name, i, rest != [] && rest[0] == '=' as int, attribute);
  }

  lemma NamedTail(t: Tables, s: seq<Byte>, tail: seq<Byte>, name: seq<Byte>, i: nat, equals: bool, attribute: bool)
      returns (out: seq<Byte>, n: nat)
    requires s == ['&' as int] + tail && (|s| > 1 ==> s[1] != '#' as int && NameEnd(s, 1) == i)
    requires 1 <= i <= |s| && s[1..i] == name && s[..i] == ['&' as int] + name
    requires name == [] || name[|name| - 1] == ';' as int || (equals <==> i < |s| && s[i] == '=' as int)
    ensures StandsFor(t, name, equals, attribute, out, n) && n <= |tail|
    ensures Unescaped(t, s, attribute) == out + Unescaped(t, tail[n..], attribute)
  {
    hide *;
    NamedReference(t, s, name, i, attribute);
    var r := Reference(t, s, attribute);
    out, n := r.0, r.1 - 1;
    SameStands(t, name, i < |s| && s[i] == '=' as int, equals, attribute, out, n);
    ReplacesFirst(t, s, attribute);
    BehindFirst(s, tail, r.1);
  }

  lemma BehindFirst(s: seq<Byte>, tail: seq<Byte>, n: nat)
    requires s == ['&' as int] + tail && 1 <= n <= |s|
    ensures s[n..] == tail[n - 1..]
  {
  }

  /** Whether a "=" follows does not matter for a name that has its ";". */
  lemma SameStands(t: Tables, name: seq<Byte>, e: bool, e': bool, attribute: bool, out: seq<Byte>, n: nat)
    requires StandsFor(t, name, e, attribute, out, n)
    requires name == [] || name[|name| - 1] == ';' as int || e == e'
    ensures StandsFor(t, name, e', attribute, out, n)
  {
    hide EncodeRune, LongestKnown;
  }

  lemma NamePlace(run: seq<Byte>, rest: seq<Byte>, s: seq<Byte>, name: seq<Byte>)
    requires AllInName(run) && (rest != [] ==> !InName(rest[0])) && (run == [] && rest != [] ==> rest[0] != '#' as int)
    requires s == ['&' as int] + run + rest && s == ['&' as int] + (run + rest)
    requires name == run + if rest != [] && rest[0] == ';' as int then [';' as int] else []
    ensures var i := 1 + |name|;
      && i <= |s| && s[0] == '&' as int && s[1..i] == name && s[..i] == ['&' as int] + name
      && (|s| > 1 ==> s[1] != '#' as int && NameEnd(s, 1) == i)
      && (name == [] || name[|name| - 1] == ';' as int ||
          (rest != [] && rest[0] == '=' as int <==> i < |s| && s[i] == '=' as int))
  {
    var e := 1 + |run|;
    assert forall k :: 1 <= k < e ==> s[k] == run[k - 1];
    assert e < |s| ==> s[e] == rest[0];
    NameRead(s, 1, e);
  }

  /** A reference, and then the rest of the text. */
  lemma {:induction false} ReplacesFirst(t: Tables, s: seq<Byte>, attribute: bool)
    requires s != [] && s[0] == '&' as int
    ensures var r := Reference(t, s, attribute);
      Unescaped(t, s, attribute) == r.0 + Unescaped(t, s[r.1..], attribute)
  {
    hide Reference;
  }

  lemma NamedReference(t: Tables, s: seq<Byte>, name: seq<Byte>, i: nat, attribute: bool)
    requires s != [] && s[0] == '&' as int && (|s| > 1 ==> s[1] != '#' as int && i == NameEnd(s, 1))
    requires 1 <= i <= |s| && s[1..i] == name && s[..i] == ['&' as int] + name
    ensures var r := Reference(t, s, attribute);
      StandsFor(t, name, i < |s| && s[i] == '=' as int, attribute, r.0, r.1 - 1)
  {
    hide *;
    var k := KnownPrefix(t, name);
    ReferenceIs(t, s, name, i, attribute, k);
    ReferenceStands(t, name, i < |s| && s[i] == '=' as int, attribute, k);
  }

  /** The source's decision on a name, given the longest prefix that its loop finds. */
  function ReferenceOf(t: Tables, name: seq<Byte>, equals: bool, attribute: bool, k: nat): (seq<Byte>, nat)
    requires k != 0 ==> k <= |name| && name[..k] in t.entity
  {
    var same := (['&' as int] + name, 1 + |name|);
    if name == [] || (attribute && equals && name[|name| - 1] != ';' as int) then same
    else if name in t.entity then (EncodeRune(t.entity[name]), 1 + |name|)
    else if name in t.entity2 then (EncodeRune(t.entity2[name].0) + EncodeRune(t.entity2[name].1), 1 + |name|)
    else if attribute || k == 0 then same
    else (EncodeRune(t.entity[name[..k]]), 1 + k)
  }

  lemma ReferenceIs(t: Tables, s: seq<Byte>, name: seq<Byte>, i: nat, attribute: bool, k: nat)
    requires s != [] && s[0] == '&' as int && (|s| > 1 ==> s[1] != '#' as int && i == NameEnd(s, 1))
    requires 1 <= i <= |s| && s[1..i] == name && s[..i] == ['&' as int] + name
    requires k == PrefixEntity(t, name, Min(|name| - 1, 6)) && (k != 0 ==> k <= |name| && name[..k] in t.entity)
    ensures Reference(t, s, attribute) == ReferenceOf(t, name, i < |s| && s[i] == '=' as int, attribute, k)
  {
    NamedIs(t, s, name, i, attribute, k);
    hide Named, NameEnd, Number, Sanitized, ReferenceOf;
  }

  lemma NamedIs(t: Tables, s: seq<Byte>, name: seq<Byte>, i: nat, attribute: bool, k: nat)
    requires 1 <= i <= |s| && s[1..i] == name && s[..i] == ['&' as int] + name
    requires k == PrefixEntity(t, name, Min(|name| - 1, 6)) && (k != 0 ==> k <= |name| && name[..k] in t.entity)
    ensures Named(t, s, i, attribute) == ReferenceOf(t, name, i < |s| && s[i] == '=' as int, attribute, k)
    ensures i == 1 ==> Named(t, s, i, attribute) == (s[..1], 1)
  {
    hide EncodeRune, PrefixEntity;
  }

  lemma KnownPrefix(t: Tables, name: seq<Byte>) returns (k: nat)
    ensures k == PrefixEntity(t, name, Min(|name| - 1, 6))
    ensures (k != 0 ==> LongestKnown(t, name, k)) && (k == 0 ==> forall j :: !LongestKnown(t, name, j))
    ensures k != 0 ==> k <= |name| && name[..k] in t.entity && forall j :: LongestKnown(t, name, j) ==> j == k
  {
    k := PrefixEntity(t, name, Min(|name| - 1, 6));
    PrefixIsLongest(t, name, Min(|name| - 1, 6));
  }

  lemma ReferenceStands(t: Tables, name: seq<Byte>, equals: bool, attribute: bool, k: nat)
    requires (k != 0 ==> LongestKnown(t, name, k)) && (k == 0 ==> forall j :: !LongestKnown(t, name, j))
    requires k != 0 ==> k <= |name| && name[..k] in t.entity
    ensures var r := ReferenceOf(t, name, equals, attribute, k);
      r.1 > 0 && StandsFor(t, name, equals, attribute, r.0, r.1 - 1)
  {
    hide EncodeRune, LongestKnown;
  }
}

/** What the numbers of Punycode are, said without the program's loops and names: the bias of sections 5 and 6.1 of
    RFC 3492 in closed form, the digits of section 5, the variable-length integers of section 3.3, and whole labels. */
module PunycodeLaws {
  import opened Utf8
  import opened Punycode

  // ---------------------------------------------------------------- the bias

  function Power35(j: nat): (p: nat)
    ensures p > 0
  {
    if j == 0 then 1 else 35 * Power35(j - 1)
  }

  lemma DivDiv(d: int, c: int)
    requires 0 <= d && 0 < c
    ensures d / 35 / c == d / (35 * c)
  {
    var q, r := d / 35 / c, d / 35 % c;
    assert d == 35 * (q * c + r) + d % 35;
    assert 35 * (q * c) == q * (35 * c);
    DivModUnique(d, 35 * c, q, 35 * r + d % 35);
  }

  /** Settling takes so many steps, and no fewer. */
  ghost predicate SettlesIn(d: int, j: nat) {
    d / Power35(j) <= 455 && forall i: nat :: i < j ==> d / Power35(i) > 455
  }

  lemma {:induction false} SettlesLater(d: int, i: nat)
    requires d > 455 && SettlesIn(d / 35, i)
    ensures SettlesIn(d, i + 1) && d / Power35(i + 1) == d / 35 / Power35(i)
  {
    forall x: nat ensures d / Power35(x + 1) == d / 35 / Power35(x) { DivDiv(d, Power35(x)); }
    forall x: nat | x < i + 1 ensures d / Power35(x) > 455 {
      if x > 0 { assert d / 35 / Power35(x - 1) > 455 && d / Power35(x - 1 + 1) == d / 35 / Power35(x - 1); }
    }
  }

  lemma {:induction false} SettleClosed(d: int, k: int) returns (j: nat)
    requires 0 <= d
    ensures SettlesIn(d, j)
    ensures var e := d / Power35(j); 0 <= e && Settle(d, k) == k + 36 * j + 36 * e / (e + 38)
    decreases d
  {
    if d <= 455 {
      j := 0;
    } else {
      var i := SettleClosed(d / 35, k + 36);
      SettlesLater(d, i);
      j := i + 1;
      hide SettlesIn, Power35;
    }
  }

  /** The bias in closed form: the delta is damped, divided by 35 until it is at most 455, and what is left
      decides between the thresholds. */
  lemma BiasClosed(delta: int, numPoints: int, firstTime: bool) returns (j: nat)
    requires 0 <= delta && 1 <= numPoints
    ensures var half := if firstTime then delta / 700 else delta / 2;
      var d := half + half / numPoints;
      var e := d / Power35(j);
      && SettlesIn(d, j) && 0 <= e
      && BiasFor(delta, numPoints, firstTime) == 36 * j + 36 * e / (e + 38)
  {
    j := SettleClosed(Damped(delta, numPoints, firstTime), 0);
  }

  // ---------------------------------------------------------------- digits and integers

  /** The letters stand for 0 to 25 in either case, the decimal digits for 26 to 35, and nothing else is a digit. */
  lemma Alphabet(x: Byte)
    ensures DecodeDigit(x) ==
      if 'a' as int <= x <= 'z' as int then Some(x - 'a' as int)
      else if 'A' as int <= x <= 'Z' as int then Some(x - 'A' as int)
      else if '0' as int <= x <= '9' as int then Some(x - '0' as int + 26)
      else None
  {
  }

  /** Digits are written as lower-case letters and decimal digits. */
  lemma WrittenDigit(d: int)
    requires 0 <= d < 36
    ensures EncodeDigit(d) == if d < 26 then 'a' as int + d else '0' as int + (d - 26)
  {
  }

  /** The threshold of the j-th digit. */
  function T(j: nat, bias: int): (t: int)
    ensures 1 <= t <= 26
  {
    var x := 36 * (j + 1) - bias;
    if x <= 1 then 1 else if x >= 26 then 26 else x
  }

  /** What digits stand for, the first of them the j-th: each weighs 36 less a threshold times the one before. */
  function Value(ds: seq<int>, j: nat, bias: int): int {
    if ds == [] then 0 else ds[0] + (36 - T(j, bias)) * Value(ds[1..], j + 1, bias)
  }

  /** The digits of one integer: the first below its threshold is the last. */
  predicate OneInteger(ds: seq<int>, j: nat, bias: int) {
    ds != [] && 0 <= ds[0] < 36 && if ds[0] < T(j, bias) then |ds| == 1 else OneInteger(ds[1..], j + 1, bias)
  }

  /** The bytes are digits, and these are their values. */
  predicate Digits(s: seq<Byte>, ds: seq<int>) {
    |s| == |ds| && forall i :: 0 <= i < |s| ==> DecodeDigit(s[i]) == Some(ds[i])
  }

  lemma {:induction false} OneMore(x: Byte, s: seq<Byte>, d: int, ds: seq<int>, j: nat, bias: int)
    requires OneInteger(ds, j + 1, bias) && T(j, bias) <= d < 36 && Digits(s, ds) && DecodeDigit(x) == Some(d)
    ensures OneInteger([d] + ds, j, bias) && Digits([x] + s, [d] + ds)
    ensures Value([d] + ds, j, bias) == d + (36 - T(j, bias)) * Value(ds, j + 1, bias)
  {
    hide DecodeDigit, T;
    assert ([d] + ds)[1..] == ds;
  }

  lemma {:induction false} OnlyOne(x: Byte, d: int, j: nat, bias: int)
    requires 0 <= d < T(j, bias) && DecodeDigit(x) == Some(d)
    ensures OneInteger([d], j, bias) && Digits([x], [d]) && Value([d], j, bias) == d
  {
    assert [d][1..] == [];
    assert Value([], j + 1, bias) == 0;
  }

  lemma ThresholdIs(j: nat, bias: int)
    ensures Threshold(36 * (j + 1), bias) == T(j, bias)
  {
  }

  /** One digit of a written integer, and what is left to write. */
  lemma {:induction false} WrittenStep(q: int, k: int, bias: int) returns (d: int, q': int)
    requires 0 <= q
    ensures var t := Threshold(k, bias);
      if q < t then EncodeVar(q, k, bias) == [EncodeDigit(q)]
      else
        && t <= d < 36 && 0 <= q' < q && q == d + (36 - t) * q'
        && EncodeVar(q, k, bias) == [EncodeDigit(d)] + EncodeVar(q', k + 36, bias)
  {
    var t := Threshold(k, bias);
    if q < t { return 0, 0; }
    QuotientShrinks(q, t);
    d, q' := t + (q - t) % (36 - t), (q - t) / (36 - t);
  }

  /** What is written for an integer are digits that stand for it. */
  lemma {:induction false} WrittenValue(q: int, j: nat, bias: int) returns (ds: seq<int>)
    requires 0 <= q
    ensures Digits(EncodeVar(q, 36 * (j + 1), bias), ds) && OneInteger(ds, j, bias) && Value(ds, j, bias) == q
    decreases q
  {
    hide EncodeVar, Digits, OneInteger, Value, EncodeDigit, DecodeDigit;
    var d, q' := WrittenStep(q, 36 * (j + 1), bias);
    ThresholdIs(j, bias);
    hide T, Threshold;
    if q < T(j, bias) {
      ds := [q];
      OnlyOne(EncodeDigit(q), q, j, bias);
    } else {
      var rest := WrittenValue(q', j + 1, bias);
      OneMore(EncodeDigit(d), EncodeVar(q', 36 * (j + 2), bias), d, rest, j, bias);
      ds := [d] + rest;
    }
  }

  /** One digit of an integer that is read, and where reading goes on. */
  lemma {:induction false} ReadStep(s: seq<Byte>, i: int, w: int, k: int, bias: int) returns (d: int)
    requires 0 <= i && 1 <= w && DecodeVar(s, i, w, k, bias).Some?
    ensures s != [] && DecodeDigit(s[0]) == Some(d) && 0 <= d < 36 && 0 <= d * w
    ensures var t := Threshold(k, bias);
      if d < t then DecodeVar(s, i, w, k, bias) == Some((i + d * w, s[1..]))
      else 1 <= w * (36 - t) && DecodeVar(s, i, w, k, bias) == DecodeVar(s[1..], i + d * w, w * (36 - t), k + 36, bias)
  {
    d := DecodeDigit(s[0]).value;
    Products(d, 0, w, 36 - Threshold(k, bias));
  }

  lemma Regroup(i: int, d: int, w: int, f: int, v: int)
    ensures i + d * w + w * f * v == i + w * (d + f * v)
  {
    assert w * (d + f * v) == w * d + w * (f * v);
    assert w * (f * v) == w * f * v;
  }

  /** What is read as an integer are digits that stand for it. */
  lemma {:induction false} ReadValue(s: seq<Byte>, i: int, w: int, j: nat, bias: int) returns (ds: seq<int>)
    requires 0 <= i && 1 <= w && DecodeVar(s, i, w, 36 * (j + 1), bias).Some?
    ensures |ds| <= |s| && Digits(s[..|ds|], ds) && OneInteger(ds, j, bias)
    ensures DecodeVar(s, i, w, 36 * (j + 1), bias) == Some((i + w * Value(ds, j, bias), s[|ds|..]))
    decreases |s|
  {
    hide DecodeVar, Digits, OneInteger, Value, EncodeDigit, DecodeDigit;
    var d := ReadStep(s, i, w, 36 * (j + 1), bias);
    ThresholdIs(j, bias);
    hide T, Threshold;
    if d < T(j, bias) {
      ds := [d];
      OnlyOne(s[0], d, j, bias);
      assert s[..1] == [s[0]];
    } else {
      var f := 36 - T(j, bias);
      var rest := ReadValue(s[1..], i + d * w, w * f, j + 1, bias);
      ds := [d] + rest;
      OneMore(s[0], s[1..][..|rest|], d, rest, j, bias);
      Regroup(i, d, w, f, Value(rest, j + 1, bias));
      assert s[..|ds|] == [s[0]] + s[1..][..|rest|] && s[1..][|rest|..] == s[|ds|..];
    }
  }

  /** The weight of the n-th digit behind the j-th. */
  function Weight(n: nat, j: nat, bias: int): (w: int)
    ensures w >= 1
  {
    if n == 0 then 1 else
    Products(0, 0, Weight(n - 1, j + 1, bias), 36 - T(j, bias));
    (36 - T(j, bias)) * Weight(n - 1, j + 1, bias)
  }

  /** What the decoder makes of the digits of one integer: its value, unless that is above 2^31-1 or a weight is
      59652323 or more. */
  ghost predicate ReadsAs(s: seq<Byte>, ds: seq<int>, i: int, w: int, j: nat, bias: int)
    requires 0 <= i && 1 <= w && |ds| <= |s| && ds != []
  {
    var total := i + w * Value(ds, j, bias);
    DecodeVar(s, i, w, 36 * (j + 1), bias) ==
      if total <= 0x7fff_ffff && (|ds| == 1 || w * Weight(|ds| - 1, j, bias) < 59652323)
      then Some((total, s[|ds|..])) else None
  }

  lemma {:induction false} ValueIsNat(ds: seq<int>, j: nat, bias: int)
    requires forall i :: 0 <= i < |ds| ==> 0 <= ds[i]
    ensures 0 <= Value(ds, j, bias)
  {
    if ds != [] {
      ValueIsNat(ds[1..], j + 1, bias);
      MulLe(0, 36 - T(j, bias), Value(ds[1..], j + 1, bias));
    }
  }

  lemma {:induction false} DigitsAreNats(s: seq<Byte>, ds: seq<int>)
    requires Digits(s, ds)
    ensures forall i :: 0 <= i < |ds| ==> 0 <= ds[i]
  {
    forall i | 0 <= i < |ds| ensures 0 <= ds[i] { assert DecodeDigit(s[i]) == Some(ds[i]); }
  }

  /** The decoder on a first digit. */
  lemma {:induction false} DigitRead(s: seq<Byte>, i: int, w: int, k: int, bias: int, d: int, t: int)
    requires 0 <= i && 1 <= w && s != [] && DecodeDigit(s[0]) == Some(d) && t == Threshold(k, bias)
    ensures 0 <= d * w && w <= w * (36 - t)
    ensures DecodeVar(s, i, w, k, bias) ==
      if i + d * w > 0x7fff_ffff then None
      else if d < t then Some((i + d * w, s[1..]))
      else if w * (36 - t) >= 59652323 then None
      else DecodeVar(s[1..], i + d * w, w * (36 - t), k + 36, bias)
  {
    Products(d, 0, w, 36 - t);
  }

  /** Later digits only add to the total and to the weight. */
  lemma Heavier(i: int, d: int, w: int, f: int, v: int, u: int)
    requires 1 <= w && 1 <= f && 0 <= v && 1 <= u
    ensures i + d * w + w * f * v == i + w * (d + f * v) && 0 <= w * f * v
    ensures w * f * u == w * (f * u) && w * f <= w * f * u
  {
    Regroup(i, d, w, f, v);
    Products(0, v, w, f);
    Products(0, 0, w, f);
    Products(0, 0, w * f, u);
    assert w * f * u == w * (f * u);
    assert w * f * v == v * (w * f);
  }

  lemma {:induction false} ReadExact(s: seq<Byte>, ds: seq<int>, i: int, w: int, j: nat, bias: int)
    requires 0 <= i && 1 <= w && |ds| <= |s| && OneInteger(ds, j, bias) && Digits(s[..|ds|], ds)
    ensures ReadsAs(s, ds, i, w, j, bias)
    decreases |ds|
  {
    var d, t := ds[0], T(j, bias);
    assert DecodeDigit(s[0]) == Some(d) by { assert s[..|ds|][0] == s[0]; }
    ThresholdIs(j, bias);
    DigitRead(s, i, w, 36 * (j + 1), bias, d, t);
    if d < t {
      assert ds[1..] == [] && Value(ds, j, bias) == d;
    } else {
      assert s[1..][..|ds| - 1] == s[..|ds|][1..];
      ReadMore(s, ds, i, w, j, bias);
    }
  }

  lemma {:induction false} ReadMore(s: seq<Byte>, ds: seq<int>, i: int, w: int, j: nat, bias: int)
    requires 0 <= i && 1 <= w && 1 < |ds| <= |s| && OneInteger(ds[1..], j + 1, bias)
    requires Digits(s[1..][..|ds| - 1], ds[1..])
    requires DecodeDigit(s[0]) == Some(ds[0]) && T(j, bias) <= ds[0]
    ensures ReadsAs(s, ds, i, w, j, bias)
    decreases |ds|, 0
  {
    var d, f, rest := ds[0], 36 - T(j, bias), ds[1..];
    ThresholdIs(j, bias);
    DigitRead(s, i, w, 36 * (j + 1), bias, d, T(j, bias));
    DigitsAreNats(s[1..][..|rest|], rest);
    ValueIsNat(rest, j + 1, bias);
    var v, u := Value(rest, j + 1, bias), Weight(|rest| - 1, j + 1, bias);
    Heavier(i, d, w, f, v, u);
    assert Value(ds, j, bias) == d + f * v && Weight(|ds| - 1, j, bias) == f * u;
    ReadExact(s[1..], rest, i + d * w, w * f, j + 1, bias);
    assert s[1..][|rest|..] == s[|ds|..];
    hide DecodeVar, Value, Weight, T, Threshold, DecodeDigit, OneInteger, Digits;
    assert |rest| == 1 ==> u == 1;
  }

  // ---------------------------------------------------------------- insertions

  /** A total stands for a code point and a place: as many places are passed as there are, code point by code point.
      Beyond U+10FFFF, and behind 1024 code points, it is refused. */
  lemma InsertMeans(st: Decoder, total: int)
    requires 0 <= st.i <= total
    ensures var x, r := |st.out| + 1, st.Insert(total);
      if r.Ok? then
        var st', p := r.value, r.value.i - 1;
        && |st.out| < 1024 && st'.n <= 0x10FFFF && 0 <= p <= |st.out| && total == (st'.n - st.n) * x + p
        && st'.out == st.out[..p] + [st'.n] + st.out[p..]
      else |st.out| >= 1024 || total >= (0x10FFFF - st.n + 1) * x
  {
    var x := |st.out| + 1;
    var q := total / x;
    assert total == q * x + total % x;
    if st.n + q > 0x10FFFF { MulLe(0x10FFFF - st.n + 1, q, x); }
  }

  // ---------------------------------------------------------------- whole labels

  /** The code points below 128, in order. */
  function AsciiOf(s: seq<int>): seq<int> {
    if s == [] then [] else (if s[0] < 128 then [s[0]] else []) + AsciiOf(s[1..])
  }

  lemma {:induction false} BelowIsAscii(s: seq<int>)
    ensures AsciiOf(s) == Below(s, 128)
  {
    if s != [] {
      BelowIsAscii(s[1..]);
      BelowSplit([s[0]], s[1..], 128);
      BelowOne(s[0], 128);
      assert s == [s[0]] + s[1..];
    }
  }

  /** An encoded label: the prefix, the ASCII characters of the text and, if there are any, a hyphen; then, exactly if
      there are other characters, digits among which there is no hyphen. */
  lemma LabelShape(prefix: seq<Byte>, str: seq<Byte>) returns (tail: seq<Byte>)
    requires |str| < 0x7fff_ffff && Encoded(prefix, str).Ok?
    ensures var ascii := AsciiOf(Runes(str));
      Encoded(prefix, str).value == prefix + ascii + (if ascii == [] then [] else ['-' as int]) + tail
    ensures '-' as int !in tail && (tail != [] <==> AsciiOf(Runes(str)) != Runes(str))
  {
    var s := Runes(str);
    BelowIsAscii(s);
    BelowAll(s, 128);
    RoundShape(s, 0, 128, 72, |Basic(s)|, |Basic(s)|);
    tail := RoundFrom(s, 0, 128, 72, |Basic(s)|, |Basic(s)|).value;
  }

  lemma {:induction false} VarDigit(q: int, k: int, bias: int, t: int, d: int, q': int)
    requires 0 <= t <= q && t == Threshold(k, bias) && d == t + (q - t) % (36 - t) && q' == (q - t) / (36 - t)
    ensures 0 <= q' && t <= d < 36 && EncodeVar(q, k, bias) == [EncodeDigit(d)] + EncodeVar(q', k + 36, bias)
  {
    QuotientShrinks(q, t);
  }

  lemma {:induction false} VarLast(q: int, k: int, bias: int)
    requires 0 <= q < Threshold(k, bias)
    ensures q < 36 && EncodeVar(q, k, bias) == [EncodeDigit(q)]
  {
  }

  /** The first delta of U+00E4 U+00F6 is 100, the second 36. */
  lemma {:induction false} TwoDeltas()
    ensures EncodeVar(100, 36, 72) == [52, 99, 97] && EncodeVar(36, 36, 0) == [48, 98]
  {
    hide EncodeVar;
    VarDigit(100, 36, 72, 1, 30, 2);
    VarDigit(2, 72, 72, 1, 2, 0);
    VarLast(0, 108, 72);
    VarDigit(36, 36, 0, 26, 26, 1);
    VarLast(1, 72, 0);
  }

  lemma {:induction false} BelowOne(x: int, n: int)
    ensures Below([], n) == [] && Below([x], n) == (if x < n then [x] else []) && Least([], n) == 0x7fff_ffff
  {
    assert [x][..0] == [];
  }

  lemma {:induction false} TwoPoints(x: int, y: int, n: int)
    requires x < y
    ensures Below([x, y], n) == if n <= x then [] else if n <= y then [x] else [x, y]
    ensures y < 0x7fff_ffff ==> Least([x, y], n) == if n <= x then x else if n <= y then y else 0x7fff_ffff
    ensures Handled([x, y], n, 0) == Below([x, y], n) && Handled([x, y], n, 2) == Below([x, y], n + 1)
    ensures n == x || n == y ==> Handled([x, y], n, 1) == [x]
  {
    var s := [x, y];
    BelowOne(x, n);
    BelowOne(y, n);
    BelowOne(x, n + 1);
    assert s[..1] == [x] && s[1..] == [y] && s[..0] == [] && s[2..] == [] && s[..2] == s && s[0..] == s;
    assert Least([x], n) == if n <= x < 0x7fff_ffff then x else 0x7fff_ffff by { assert [x][..0] == []; }
  }

  /** One round, and the end of a scan. */
  lemma {:induction false} RoundNext(s: seq<int>, delta: int, n: int, bias: int, h: nat, b: nat, m: int, skip: int)
    requires InRange(s) && 0 <= n <= 0x10FFFF && h == |Below(s, n)| && h < |s|
    requires m == Least(s, n) && skip == (m - n) * (h + 1) && 0 <= delta && 0 <= skip && delta + skip <= 0x7fff_ffff
    ensures 0 <= m <= 0x10FFFF && h == |Handled(s, m, 0)|
    ensures RoundFrom(s, delta, n, bias, h, b) == ScanFrom(s, 0, delta + skip, m, bias, h, b)
  {
    NextExists(s, n);
    hide Below, Handled, ScanFrom;
  }

  lemma {:induction false} ScanEnds(s: seq<int>, delta: int, n: int, bias: int, h: nat, b: nat)
    requires InRange(s) && 0 <= delta < 0x7fff_ffff && 0 <= n <= 0x10FFFF && h == |Handled(s, n, |s|)|
    ensures h == |Below(s, n + 1)|
    ensures ScanFrom(s, |s|, delta, n, bias, h, b) == RoundFrom(s, delta + 1, n + 1, bias, h, b)
  {
    HandledRound(s, n + 1, n + 1);
    hide Below, Handled, RoundFrom;
  }

  lemma {:induction false} SecondPoint(s: seq<int>)
    requires s == [0xE4, 0xF6]
    ensures |Below(s, 0xE5)| == 1 && RoundFrom(s, 1, 0xE5, 0, 1, 0) == Ok([48, 98])
  {
    TwoPoints(0xE4, 0xF6, 0xE5);
    TwoPoints(0xE4, 0xF6, 0xF6);
    TwoPoints(0xE4, 0xF6, 0xF7);
    TwoDeltas();
    var bias := BiasFor(36, 2, false);
    hide Below, Handled, Least, EncodeVar, BiasFor, ScanFrom;
    RoundNext(s, 1, 0xE5, 0, 1, 0, 0xF6, 34);
    ScanNext(s, 0, 35, 0xF6, 0, 1, 0);
    ScanNext(s, 1, 36, 0xF6, 0, 1, 0);
    ScanEnds(s, 0, 0xF6, bias, 2, 0);
    assert [48, 98] + [] == [48, 98];
  }

  lemma {:induction false} FirstPoint(s: seq<int>)
    requires s == [0xE4, 0xF6]
    ensures Below(s, 128) == [] && RoundFrom(s, 0, 128, 72, 0, 0) == Ok([52, 99, 97, 48, 98])
  {
    SecondPoint(s);
    TwoPoints(0xE4, 0xF6, 128);
    TwoPoints(0xE4, 0xF6, 0xE4);
    TwoDeltas();
    assert BiasFor(100, 1, true) == 0;
    hide Below, Handled, Least, EncodeVar, BiasFor, ScanFrom, RoundFrom;
    RoundNext(s, 0, 128, 72, 0, 0, 0xE4, 100);
    ScanNext(s, 0, 100, 0xE4, 72, 0, 0);
    ScanNext(s, 1, 0, 0xE4, 0, 1, 0);
    ScanEnds(s, 0, 0xE4, 0, 1, 0);
    assert [52, 99, 97] + [48, 98] == [52, 99, 97, 48, 98];
  }

  lemma {:induction false} TextOfTwo()
    ensures FromRunes([0xE4, 0xF6]) == [0xC3, 0xA4, 0xC3, 0xB6] && Runes([0xC3, 0xA4, 0xC3, 0xB6]) == [0xE4, 0xF6]
  {
    var s := [0xE4, 0xF6];
    assert s[1..] == [0xF6] && [0xF6][1..] == [];
    assert FromRunes([0xF6]) == [0xC3, 0xB6] + FromRunes([]);
    assert FromRunes(s) == [0xC3, 0xA4] + FromRunes([0xF6]);
    RunesOfFromRunes(s);
  }

  /** The UTF-8 text of U+00E4 U+00F6 is written "4ca0b", and that is read as the text. */
  lemma {:induction false} LabelInFull()
    ensures var text := [0xC3, 0xA4, 0xC3, 0xB6]; var written := [52, 99, 97, 48, 98];
      Encoded([], text) == Ok(written) && Decoded(written) == Ok(text)
  {
    var s, written := [0xE4, 0xF6], [52, 99, 97, 48, 98];
    TextOfTwo();
    FirstPoint(s);
    hide Below, Runes, FromRunes, RoundFrom, Decoded;
    assert [] + [] + [] + written == written;
    ShortLabelsSurvive(s);
  }
}

/** Punycode (RFC 3492) as net/idna/punycode.go implements it on int32s.

    Three layers: mathematical functions for the variable-length integers, the bias and the
    two directions; methods with the source's loops and 32-bit arithmetic, proved equal to
    those functions; and the round trip between the two directions. */
module Punycode {
  import opened Machine
  import opened Utf8

  datatype Result<T> = Ok(value: T) | InvalidLabel

  datatype Option<T> = None | Some(value: T)

  const BASE := 36
  const DAMP := 700
  const INITIAL_BIAS := 72
  const INITIAL_N := 128
  const SKEW := 38
  const TMAX := 26
  const TMIN := 1
  const MAX_WEIGHT := MAX_INT32 / BASE
  const MAX_OUTPUT := 1024
  const HYPHEN: Byte := 45

  // ---------------------------------------------------------------- digits

  function DecodeDigit(x: Byte): (d: Option<int>)
    ensures d.Some? ==> 0 <= d.value < BASE
  {
    if 48 <= x <= 57 then Some(x - 48 + 26)
    else if 65 <= x <= 90 then Some(x - 65)
    else if 97 <= x <= 122 then Some(x - 97)
    else None
  }

  /** Every digit value has one written form, which reads back and is never the delimiter. */
  function EncodeDigit(d: int): (x: Byte)
    requires 0 <= d < BASE
    ensures DecodeDigit(x) == Some(d)
    ensures x != HYPHEN && x < 0x80
  {
    if d < 26 then d + 97 else d + 48 - 26
  }

  // ---------------------------------------------------------------- bias adaptation

  function Settle(delta: int, k: int): (bias: int)
    requires 0 <= delta
    decreases delta
  {
    if delta > (BASE - TMIN) * TMAX / 2 then Settle(delta / (BASE - TMIN), k + BASE)
    else k + (BASE - TMIN + 1) * delta / (delta + SKEW)
  }

  function Damped(delta: int, numPoints: int, firstTime: bool): (d: int)
    requires 0 <= delta && 1 <= numPoints
    ensures 0 <= d <= delta
  {
    var half := if firstTime then delta / DAMP else delta / 2;
    DivShrinks(half, numPoints);
    half + half / numPoints
  }

  function BiasFor(delta: int, numPoints: int, firstTime: bool): int
    requires 0 <= delta && 1 <= numPoints
  {
    Settle(Damped(delta, numPoints, firstTime), 0)
  }

  lemma MulLe(x: int, y: int, z: int)
    requires x <= y && 0 <= z
    ensures x * z <= y * z
  {
  }

  /** The product a * b; named so that goals that only carry it along stay linear. */
  function Times(a: nat, b: int): (c: int)
    ensures a == 1 ==> c == b
  {
    if a == 0 then 0 else Times(a - 1, b) + b
  }

  lemma {:induction false} TimesIsProduct(a: nat, b: int)
    ensures Times(a, b) == a * b
  {
    if a != 0 {
      TimesIsProduct(a - 1, b);
      assert a * b == (a - 1) * b + b;
    }
  }

  lemma {:induction false} TimesAdd(a: nat, a': nat, b: int)
    ensures Times(a + a', b) == Times(a, b) + Times(a', b)
  {
    if a' != 0 { TimesAdd(a, a' - 1, b); }
  }

  lemma TimesBound(a: nat, b: nat, c: nat)
    requires a <= c
    ensures 0 <= Times(a, b) <= c * b
  {
    TimesIsProduct(a, b);
    MulLe(0, a, b);
    MulLe(a, c, b);
  }

  lemma DivAtMost(a: int, b: int, c: int)
    requires 0 <= a && 1 <= b && a < (c + 1) * b
    ensures 0 <= a / b <= c
  {
    var q := a / b;
    assert a == q * b + a % b;
    if q > c { MulLe(c + 1, q, b); }
    if q < 0 { MulLe(q, -1, b); }
  }

  lemma DivShrinks(a: int, b: int)
    requires 0 <= a && 1 <= b
    ensures 0 <= a / b <= a
  {
    MulLe(1, b, a + 1);
    DivAtMost(a, b, a);
  }

  lemma SettleBound(d: int, k: int)
    requires 0 <= d <= 455
    ensures k <= Settle(d, k) <= k + 33
    ensures d <= 61 ==> Settle(d, k) <= k + 22
  {
    DivAtMost(36 * d, d + 38, 33);
    if d <= 61 { DivAtMost(36 * d, d + 38, 22); }
  }

  /** The bias never leaves 0..202, whatever the int32 delta. */
  lemma BiasBound(delta: int, numPoints: int, firstTime: bool)
    requires 0 <= delta <= MAX_INT32 && 1 <= numPoints
    ensures 0 <= BiasFor(delta, numPoints, firstTime) <= 202
  {
    var d := Damped(delta, numPoints, firstTime);
    SettleSteps(d, 0, 5);
  }

  lemma {:induction false} SettleSteps(d: int, k: int, steps: nat)
    requires 0 <= d && steps <= 5
    requires d <= [455, 2135, 74725, 2615375, 91538125, 3203834375][steps]
    ensures k <= Settle(d, k) <= k + (if steps == 0 then 33 else 36 * steps + 22)
  {
    if d <= 455 {
      SettleBound(d, k);
    } else {
      SettleSteps(d / 35, k + 36, steps - 1);
      if steps == 1 { SettleBound(d / 35, k + 36); }
    }
  }

  /** The source's adaptation loop. */
  method Adapt(delta: int, numPoints: int, firstTime: bool) returns (bias: int)
    requires 0 <= delta <= MAX_INT32 && 1 <= numPoints
    ensures bias == BiasFor(delta, numPoints, firstTime)
  {
    var d := if firstTime then delta / DAMP else delta / 2;
    DivShrinks(d, numPoints);
    d := Wrap32(d + d / numPoints);
    var k := 0;
    while d > (BASE - TMIN) * TMAX / 2
      invariant 0 <= d
      invariant Settle(d, k) == BiasFor(delta, numPoints, firstTime)
      decreases d
    {
      d := d / (BASE - TMIN);
      k := k + BASE;
    }
    bias := k + (BASE - TMIN + 1) * d / (d + SKEW);
  }

  // ---------------------------------------------------------------- variable-length integers

  function Threshold(k: int, bias: int): (t: int)
    ensures TMIN <= t <= TMAX
  {
    if k - bias < TMIN then TMIN else if k - bias > TMAX then TMAX else k - bias
  }

  /** The digits of q, least significant first, in the base that varies with the bias. */
  function EncodeVar(q: int, k: int, bias: int): (s: seq<Byte>)
    requires 0 <= q
    ensures s != [] && HYPHEN !in s
    decreases q
  {
    var t := Threshold(k, bias);
    if q < t then [EncodeDigit(q)]
    else
      QuotientShrinks(q, t);
      [EncodeDigit(t + (q - t) % (BASE - t))] + EncodeVar((q - t) / (BASE - t), k + BASE, bias)
  }

  lemma QuotientShrinks(q: int, t: int)
    requires TMIN <= t <= TMAX && t <= q
    ensures 0 <= (q - t) / (BASE - t) < q
  {
    DivShrinks(q - t, BASE - t);
  }

  /** The decoder's weight guard does not fire on the digits of q. */
  predicate WeightsFit(q: int, w: int, k: int, bias: int)
    requires 0 <= q
    decreases q
  {
    var t := Threshold(k, bias);
    if q < t then true
    else
      QuotientShrinks(q, t);
      w * (BASE - t) < MAX_WEIGHT && WeightsFit((q - t) / (BASE - t), w * (BASE - t), k + BASE, bias)
  }

  /** Reads one integer off the front of s, adding it at weight w to i; exact arithmetic, with
      the source's two guards. */
  function DecodeVar(s: seq<Byte>, i: int, w: int, k: int, bias: int): (r: Option<(int, seq<Byte>)>)
    requires 0 <= i && 1 <= w
    ensures r.Some? ==> |r.value.1| < |s| && i <= r.value.0 <= MAX_INT32
    decreases |s|
  {
    if s == [] || DecodeDigit(s[0]).None? then None else
    var digit := DecodeDigit(s[0]).value;
    var t := Threshold(k, bias);
    Products(digit, 0, w, BASE - t);
    var i' := i + digit * w;
    if i' > MAX_INT32 then None
    else if digit < t then Some((i', s[1..]))
    else if w * (BASE - t) >= MAX_WEIGHT then None
    else DecodeVar(s[1..], i', w * (BASE - t), k + BASE, bias)
  }

  lemma Products(digit: int, q: int, w: int, f: int)
    requires 0 <= digit && 0 <= q && 1 <= w && 1 <= f
    ensures 0 <= digit * w && w <= w * f && 0 <= q * (w * f)
  {
    MulLe(1, f, w);
    MulLe(0, digit, w);
    MulLe(0, q, w * f);
  }

  lemma DigitStep(q: int, t: int, w: int)
    requires TMIN <= t <= TMAX && t <= q
    ensures q * w == (t + (q - t) % (BASE - t)) * w + (q - t) / (BASE - t) * (w * (BASE - t))
  {
    var r, q' := (q - t) % (BASE - t), (q - t) / (BASE - t);
    assert q == t + r + q' * (BASE - t);
    assert q' * (w * (BASE - t)) == q' * (BASE - t) * w;
  }

  /** Reading back a written integer gives it exactly when the weight guard stays quiet. */
  lemma {:induction false} VarRoundTrip(q: int, i: int, w: int, k: int, bias: int, rest: seq<Byte>)
    requires 0 <= q && 0 <= i && 1 <= w && i + q * w <= MAX_INT32
    ensures DecodeVar(EncodeVar(q, k, bias) + rest, i, w, k, bias)
         == if WeightsFit(q, w, k, bias) then Some((i + q * w, rest)) else None
    decreases q
  {
    hide EncodeDigit, DecodeDigit;
    var t := Threshold(k, bias);
    var s := EncodeVar(q, k, bias) + rest;
    if q < t {
      assert s[1..] == rest;
    } else {
      var digit, q', w' := t + (q - t) % (BASE - t), (q - t) / (BASE - t), w * (BASE - t);
      QuotientShrinks(q, t);
      DigitStep(q, t, w);
      Products(digit, q', w, BASE - t);
      assert s[1..] == EncodeVar(q', k + BASE, bias) + rest;
      assert DecodeDigit(s[0]) == Some(digit);
      VarRoundTrip(q', i + digit * w, w', k + BASE, bias, rest);
    }
  }

  // ---------------------------------------------------------------- decoding (section 6.2)

  function InsertAt(out: seq<int>, i: int, n: int): (r: seq<int>)
    requires 0 <= i <= |out|
  {
    out[..i] + [n] + out[i..]
  }

  /** The decoder's state between insertions. */
  datatype Decoder = Decoder(i: int, n: int, bias: int, out: seq<int>) {
    predicate Valid() {
      && 0 <= i <= |out| && i <= MAX_OUTPUT && |out| < MAX_INT32
      && INITIAL_N <= n <= MAX_RUNE && 0 <= bias <= 202
    }

    /** Inserts the code point that total i' stands for. */
    function Insert(i': int): (r: Result<Decoder>)
      requires 0 <= i <= i'
      ensures r.Ok? ==> 1 <= r.value.i <= |r.value.out| && |r.value.out| == |out| + 1 && |out| < MAX_OUTPUT
    {
      var x := |out| + 1;
      var n' := n + i' / x;
      if n' > MAX_RUNE || |out| >= MAX_OUTPUT then InvalidLabel
      else Ok(Decoder(i' % x + 1, n', BiasFor(i' - i, x, i == 0), InsertAt(out, i' % x, n')))
    }
  }

  /** The insertions that the digits s describe. */
  function DecodeFrom(s: seq<Byte>, st: Decoder): (r: Result<seq<int>>)
    requires 0 <= st.i
    decreases |s|
  {
    if s == [] then Ok(st.out) else
    match DecodeVar(s, st.i, 1, BASE, st.bias)
    case None => InvalidLabel
    case Some((i', rest)) =>
      match st.Insert(i')
      case InvalidLabel => InvalidLabel
      case Ok(st') => DecodeFrom(rest, st')
  }

  /** strings.LastIndex(s, "-"). */
  function LastHyphen(s: seq<Byte>): (p: int)
    ensures -1 <= p < |s|
    ensures 0 <= p ==> s[p] == HYPHEN
    ensures forall j :: p < j < |s| ==> s[j] != HYPHEN
  {
    if s == [] then -1
    else if s[|s| - 1] == HYPHEN then |s| - 1
    else LastHyphen(s[..|s| - 1])
  }

  function Start(basic: seq<int>): Decoder {
    Decoder(0, INITIAL_N, INITIAL_BIAS, basic)
  }

  function Decoded(encoded: seq<Byte>): (r: Result<seq<Byte>>)
  {
    if encoded == [] then Ok([]) else
    var pos := 1 + LastHyphen(encoded);
    if pos == 1 then InvalidLabel
    else if pos == |encoded| then Ok(encoded[..|encoded| - 1])
    else DecodedAt(encoded, pos)
  }

  function DecodedAt(encoded: seq<Byte>, pos: nat): (r: Result<seq<Byte>>)
    requires pos <= |encoded|
  {
    match DecodeFrom(encoded[pos..], Start(if pos == 0 then [] else Runes(encoded[..pos - 1])))
    case InvalidLabel => InvalidLabel
    case Ok(out) => Ok(FromRunes(out))
  }

  lemma WeightStep(i: int, base: int, w: int, digit: int, t: int)
    requires 0 <= base <= i <= base + 4 * w && 1 <= w < MAX_WEIGHT && 0 <= digit < BASE && TMIN <= t <= TMAX
    ensures i <= i + digit * w <= base + 39 * w
    ensures digit < t ==> i + digit * w <= base + 29 * w
    ensures base + 39 * w <= base + 4 * (w * (BASE - t))
    ensures 1 <= w * (BASE - t) <= 35 * w
  {
    MulLe(0, digit, w);
    MulLe(digit, 35, w);
    if digit < t { MulLe(digit, 25, w); }
    MulLe(10, BASE - t, w);
    MulLe(BASE - t, 35, w);
  }

  /** The decoder's inner loop: int32 arithmetic with the two guards is exact or refused. */
  method ReadVar(encoded: seq<Byte>, start: nat, oldI: int, bias: int) returns (ok: bool, i: int, pos: nat)
    requires start < |encoded| <= MAX_INT32
    requires 0 <= oldI < MAX_INT32 / 16
    requires 0 <= bias <= 202
    ensures ok ==> start < pos <= |encoded| && oldI <= i <= oldI + 29 * MAX_WEIGHT
    ensures DecodeVar(encoded[start..], oldI, 1, BASE, bias) == if ok then Some((i, encoded[pos..])) else None
  {
    i, pos := oldI, start;
    var w, k := 1, BASE;
    while true
      invariant start <= pos <= |encoded|
      invariant oldI <= i <= oldI + 4 * w && i <= MAX_INT32
      invariant 1 + 9 * (pos - start) <= w < MAX_WEIGHT
      invariant k == BASE + BASE * (pos - start)
      invariant DecodeVar(encoded[pos..], i, w, k, bias) == DecodeVar(encoded[start..], oldI, 1, BASE, bias)
      decreases |encoded| - pos
    {
      if pos == |encoded| { return false, i, pos; }
      var d := DecodeDigit(encoded[pos]);
      if d.None? { return false, i, pos; }
      var digit := d.value;
      assert encoded[pos..][1..] == encoded[pos + 1..];
      pos := pos + 1;
      var t := Threshold(k, bias);
      WeightStep(i, oldI, w, digit, t);
      i := Wrap32(i + Wrap32(digit * w));
      if i < 0 { return false, i, pos; }
      if digit < t { return true, i, pos; }
      w := Wrap32(w * (BASE - t));
      if w >= MAX_WEIGHT { return false, i, pos; }
      k := Wrap32(k + BASE);
    }
  }

  /** One insertion on int32s is exact or refused, and the code point is a legal one. */
  method InsertPoint(st: Decoder, i': int) returns (r: Result<Decoder>)
    requires st.Valid() && st.i <= i' <= st.i + 29 * MAX_WEIGHT
    ensures r == st.Insert(i')
    ensures r.Ok? ==> r.value.Valid()
  {
    var x := Wrap32(|st.out| + 1);
    BiasBound(i' - st.i, x, st.i == 0);
    DivShrinks(i', x);
    var bias := Adapt(i' - st.i, x, st.i == 0);
    var n := Wrap32(st.n + i' / x);
    var i := i' % x;
    if n > MAX_RUNE || |st.out| >= MAX_OUTPUT { return InvalidLabel; }
    r := Ok(Decoder(i + 1, n, bias, InsertAt(st.out, i, n)));
  }

  /** The decoder's main loop. */
  method InsertAll(encoded: seq<Byte>, start: nat, st0: Decoder) returns (r: Result<seq<int>>)
    requires start <= |encoded| <= MAX_INT32 && st0.Valid()
    ensures r == DecodeFrom(encoded[start..], st0)
  {
    var pos, st := start, st0;
    while pos < |encoded|
      invariant start <= pos <= |encoded| && st.Valid()
      invariant DecodeFrom(encoded[pos..], st) == DecodeFrom(encoded[start..], st0)
      decreases |encoded| - pos
    {
      var ok, i, next := ReadVar(encoded, pos, st.i, st.bias);
      if !ok { return InvalidLabel; }
      var st' := InsertPoint(st, i);
      if st'.InvalidLabel? { return InvalidLabel; }
      pos, st := next, st'.value;
    }
    r := Ok(st.out);
  }

  /** The source's decoder, on int32s.  Equality with `Decoded`, which computes on unbounded
      integers, says that every step is exact or the label is refused. */
  method Decode(encoded: seq<Byte>) returns (r: Result<seq<Byte>>)
    requires |encoded| <= MAX_INT32
    ensures r == Decoded(encoded)
  {
    if encoded == [] { return Ok([]); }
    var pos := 1 + LastHyphen(encoded);
    if pos == 1 { return InvalidLabel; }
    if pos == |encoded| { return Ok(encoded[..|encoded| - 1]); }
    r := DecodeAt(encoded, pos);
  }

  method DecodeAt(encoded: seq<Byte>, pos: nat) returns (r: Result<seq<Byte>>)
    requires pos <= |encoded| <= MAX_INT32
    ensures r == DecodedAt(encoded, pos)
  {
    var basic: seq<int> := [];
    if pos != 0 { basic := Runes(encoded[..pos - 1]); }
    var out := InsertAll(encoded, pos, Start(basic));
    if out.InvalidLabel? {
      r := InvalidLabel;
    } else {
      r := Ok(FromRunes(out.value));
    }
  }

  // ---------------------------------------------------------------- encoding (section 6.3)

  /** The code points of s below n, in order. */
  function Below(s: seq<int>, n: int): (r: seq<int>)
    ensures |r| <= |s|
  {
    if s == [] then []
    else Below(s[..|s| - 1], n) + (if s[|s| - 1] < n then [s[|s| - 1]] else [])
  }

  /** What the encoder has handled after scanning s[..p] for code point n. */
  function Handled(s: seq<int>, n: int, p: nat): (r: seq<int>)
    requires p <= |s|
  {
    Below(s[..p], n + 1) + Below(s[p..], n)
  }

  /** The least code point of s that is at least n, or MAX_INT32. */
  function Least(s: seq<int>, n: int): (m: int)
  {
    if s == [] then MAX_INT32 else
    var m, c := Least(s[..|s| - 1], n), s[|s| - 1];
    if m > c && c >= n then c else m
  }

  lemma {:induction false} LeastIsLeast(s: seq<int>, n: int)
    ensures Least(s, n) == MAX_INT32 || (Least(s, n) in s && n <= Least(s, n))
    ensures forall k :: 0 <= k < |s| && n <= s[k] ==> Least(s, n) <= s[k]
  {
    if s != [] { LeastIsLeast(s[..|s| - 1], n); }
  }

  lemma {:induction false} BelowIsBelow(s: seq<int>, n: int)
    requires InRange(s)
    ensures forall k :: 0 <= k < |Below(s, n)| ==> 0 <= Below(s, n)[k] < n
  {
    if s != [] { BelowIsBelow(s[..|s| - 1], n); }
  }

  lemma {:induction false} BelowAll(s: seq<int>, n: int)
    ensures |Below(s, n)| == |s| ==> Below(s, n) == s
    ensures |Below(s, n)| == |s| <==> forall k :: 0 <= k < |s| ==> s[k] < n
  {
    if s != [] {
      BelowAll(s[..|s| - 1], n);
    }
  }

  lemma {:induction false} BelowSplit(a: seq<int>, b: seq<int>, n: int)
    ensures Below(a + b, n) == Below(a, n) + Below(b, n)
  {
    if b == [] {
      assert a + b == a;
    } else {
      var c := b[|b| - 1];
      assert (a + b)[..|a + b| - 1] == a + b[..|b| - 1];
      BelowSplit(a, b[..|b| - 1], n);
    }
  }

  lemma {:induction false} BelowSame(s: seq<int>, n: int, m: int)
    requires n <= m
    requires forall k :: 0 <= k < |s| ==> s[k] < n || m <= s[k]
    ensures Below(s, n) == Below(s, m)
  {
    if s != [] {
      BelowSame(s[..|s| - 1], n, m);
    }
  }

  /** What is handled before and after position p: the same on both sides of s[p]. */
  lemma {:induction false} HandledParts(s: seq<int>, n: int, p: nat, a: seq<int>, b: seq<int>)
    requires p < |s| && a == Below(s[..p], n + 1) && b == Below(s[p + 1..], n)
    ensures Handled(s, n, p) == a + ((if s[p] < n then [s[p]] else []) + b)
    ensures Below(s[..p + 1], n + 1) == a + (if s[p] <= n then [s[p]] else [])
  {
    var c := [s[p]];
    assert s[..p + 1] == s[..p] + c && s[p..] == c + s[p + 1..];
    BelowSplit(s[..p], c, n + 1);
    BelowSplit(c, s[p + 1..], n);
    assert Below([], n) == [] && Below([], n + 1) == [] && c[..0] == [];
    assert Below(c, n + 1) == if s[p] <= n then c else [];
    assert Below(c, n) == if s[p] < n then c else [];
  }

  /** How one step of the scan changes the handled code points: a smaller or larger one changes
      nothing, an equal one is inserted after those already passed. */
  lemma HandledStep(s: seq<int>, n: int, p: nat)
    requires p < |s|
    ensures s[p] != n ==> Handled(s, n, p + 1) == Handled(s, n, p)
    ensures s[p] == n ==>
      Handled(s, n, p + 1) == InsertAt(Handled(s, n, p), |Below(s[..p], n + 1)|, n)
    ensures |Below(s[..p + 1], n + 1)| == |Below(s[..p], n + 1)| + (if s[p] <= n then 1 else 0)
  {
    var a, b := Below(s[..p], n + 1), Below(s[p + 1..], n);
    HandledParts(s, n, p, a, b);
    if s[p] == n {
      assert a + ([] + b) == a + b;
      assert (a + b)[..|a|] == a && (a + b)[|a|..] == b;
    } else if s[p] < n {
      assert a + [s[p]] + b == a + ([s[p]] + b);
    } else {
      assert a + [] == a && [] + b == b;
    }
  }

  /** A finished scan for n leaves what an unstarted scan for any later code point m starts from,
      if there is none between. */
  lemma HandledRound(s: seq<int>, n: int, m: int)
    requires n <= m
    requires forall k :: 0 <= k < |s| ==> s[k] < n || m <= s[k]
    ensures Handled(s, n - 1, |s|) == Handled(s, m, 0) == Below(s, n)
  {
    assert s[..|s|] == s && s[|s|..] == [] && s[..0] == [] && s[0..] == s;
    BelowSame(s, n, m);
  }

  predicate InRange(s: seq<int>) {
    && |s| < MAX_INT32
    && forall k :: 0 <= k < |s| ==> 0 <= s[k] <= MAX_RUNE
  }

  /** The rest of the encoder's output when it is at position p of the scan for n, with the
      int32 arithmetic of the source.  b is the number of basic code points, h of handled ones. */
  function ScanFrom(s: seq<int>, p: nat, delta: int, n: int, bias: int, h: nat, b: nat): (r: Result<seq<Byte>>)
    requires InRange(s) && p <= |s| && 0 <= delta <= MAX_INT32 && 0 <= n <= MAX_RUNE
    requires h == |Handled(s, n, p)|
    decreases MAX_RUNE - n, |s| - p
  {
    if p == |s| then
      HandledRound(s, n + 1, n + 1);
      RoundFrom(s, Wrap32(delta + 1), n + 1, bias, h, b)
    else
      HandledStep(s, n, p);
      if s[p] < n then
        var delta' := Wrap32(delta + 1);
        if delta' < 0 then InvalidLabel else ScanFrom(s, p + 1, delta', n, bias, h, b)
      else if s[p] > n then
        ScanFrom(s, p + 1, delta, n, bias, h, b)
      else
        match ScanFrom(s, p + 1, 0, n, BiasFor(delta, h + 1, h == b), h + 1, b)
        case InvalidLabel => InvalidLabel
        case Ok(rest) => Ok(EncodeVar(delta, BASE, bias) + rest)
  }

  /** delta += (m - n) * (h + 1), on int32s. */
  function SkipTo(delta: int, m: int, n: int, h: nat): (d: int)
    ensures d <= MAX_INT32
  {
    Wrap32(delta + Wrap32((m - n) * (h + 1)))
  }

  /** The rest of the output when the code points below n are handled. */
  function RoundFrom(s: seq<int>, delta: int, n: int, bias: int, h: nat, b: nat): (r: Result<seq<Byte>>)
    requires InRange(s) && 0 <= n <= MAX_RUNE + 1
    requires h == |Below(s, n)|
    decreases MAX_RUNE - n, |s| + 1
  {
    if h == |s| then Ok([]) else
    var m := Least(s, n);
    NextExists(s, n);
    var delta' := SkipTo(delta, m, n, h);
    if delta' < 0 then InvalidLabel else ScanFrom(s, 0, delta', m, bias, h, b)
  }

  lemma NextExists(s: seq<int>, n: int)
    requires InRange(s) && |Below(s, n)| < |s|
    ensures n <= Least(s, n) <= MAX_RUNE && Least(s, n) in s
    ensures forall k :: 0 <= k < |s| ==> s[k] < n || Least(s, n) <= s[k]
    ensures Handled(s, Least(s, n), 0) == Below(s, n)
  {
    BelowAll(s, n);
    LeastIsLeast(s, n);
    HandledRound(s, n, Least(s, n));
  }

  /** The basic code points of s, as bytes. */
  function Basic(s: seq<int>): (r: seq<Byte>)
    requires InRange(s)
    ensures r == Below(s, INITIAL_N)
    ensures AllAscii(r)
  {
    var r := Below(s, INITIAL_N);
    BelowIsBelow(s, INITIAL_N);
    r
  }

  function Encoded(prefix: seq<Byte>, str: seq<Byte>): (r: Result<seq<Byte>>)
    requires |str| < MAX_INT32
  {
    var s := Runes(str);
    var basic := Basic(s);
    match RoundFrom(s, 0, INITIAL_N, INITIAL_BIAS, |basic|, |basic|)
    case InvalidLabel => InvalidLabel
    case Ok(tail) => Ok(prefix + basic + (if basic == [] then [] else [HYPHEN]) + tail)
  }

  function Append(out: seq<Byte>, r: Result<seq<Byte>>): Result<seq<Byte>> {
    match r
    case InvalidLabel => InvalidLabel
    case Ok(rest) => Ok(out + rest)
  }

  lemma AppendTwice(a: seq<Byte>, b: seq<Byte>, r: Result<seq<Byte>>)
    ensures Append(a, Append(b, r)) == Append(a + b, r)
    ensures Append([], r) == r
  {
    if r.Ok? {
      assert (a + b) + r.value == a + (b + r.value);
      assert [] + r.value == r.value;
    }
  }

  /** The source's digit loop. */
  method WriteVar(delta: int, bias: int) returns (digits: seq<Byte>)
    requires 0 <= delta
    ensures digits == EncodeVar(delta, BASE, bias)
  {
    digits := [];
    var q, k := delta, BASE;
    while q >= Threshold(k, bias)
      invariant 0 <= q
      invariant digits + EncodeVar(q, k, bias) == EncodeVar(delta, BASE, bias)
      decreases q
    {
      var t := Threshold(k, bias);
      QuotientShrinks(q, t);
      digits := digits + [EncodeDigit(t + (q - t) % (BASE - t))];
      q := (q - t) / (BASE - t);
      k := k + BASE;
    }
    digits := digits + [EncodeDigit(q)];
  }

  method LeastAtLeast(s: seq<int>, n: int) returns (m: int)
    ensures m == Least(s, n)
  {
    m := MAX_INT32;
    for j := 0 to |s|
      invariant m == Least(s[..j], n)
    {
      assert s[..j + 1][..j] == s[..j];
      if m > s[j] && s[j] >= n { m := s[j]; }
    }
    assert s[..|s|] == s;
  }

  /** One step of the scan. */
  lemma {:induction false} ScanNext(s: seq<int>, p: nat, delta: int, n: int, bias: int, h: nat, b: nat)
    requires InRange(s) && p < |s| && 0 <= delta <= MAX_INT32 && 0 <= n <= MAX_RUNE && h == |Handled(s, n, p)|
    ensures |Handled(s, n, p + 1)| == if s[p] == n then h + 1 else h
    ensures ScanFrom(s, p, delta, n, bias, h, b)
         == if s[p] > n then ScanFrom(s, p + 1, delta, n, bias, h, b)
            else if s[p] == n then
              Append(EncodeVar(delta, BASE, bias), ScanFrom(s, p + 1, 0, n, BiasFor(delta, h + 1, h == b), h + 1, b))
            else if delta == MAX_INT32 then InvalidLabel
            else ScanFrom(s, p + 1, delta + 1, n, bias, h, b)
  {
    HandledStep(s, n, p);
    hide Below, EncodeVar, BiasFor, RoundFrom;
  }

  /** The source's scan of the whole string for code point n. */
  method Scan(s: seq<int>, n: int, b: nat, delta0: int, bias0: int, h0: nat, remaining0: nat)
    returns (ok: bool, out: seq<Byte>, delta: int, bias: int, h: nat, remaining: nat)
    requires InRange(s) && 0 <= n <= MAX_RUNE && 0 <= delta0 <= MAX_INT32
    requires h0 == |Handled(s, n, 0)| && remaining0 == |s| - h0
    ensures ok ==> 0 <= delta <= MAX_INT32 && h == |Handled(s, n, |s|)| && remaining == |s| - h
    ensures ScanFrom(s, 0, delta0, n, bias0, h0, b)
         == if ok then Append(out, ScanFrom(s, |s|, delta, n, bias, h, b)) else InvalidLabel
  {
    ok, out, delta, bias, h, remaining := true, [], delta0, bias0, h0, remaining0;
    AppendTwice([], [], ScanFrom(s, 0, delta0, n, bias0, h0, b));
    for p := 0 to |s|
      invariant 0 <= delta <= MAX_INT32 && h == |Handled(s, n, p)| && remaining == |s| - h
      invariant ScanFrom(s, 0, delta0, n, bias0, h0, b) == Append(out, ScanFrom(s, p, delta, n, bias, h, b))
    {
      ScanNext(s, p, delta, n, bias, h, b);
      if s[p] < n {
        delta := Wrap32(delta + 1);
        if delta < 0 { return false, out, delta, bias, h, remaining; }
        continue;
      }
      if s[p] > n { continue; }
      HandledFits(s, n, p + 1);
      var digits := WriteVar(delta, bias);
      AppendTwice(out, digits, ScanFrom(s, p + 1, 0, n, BiasFor(delta, h + 1, h == b), h + 1, b));
      out := out + digits;
      bias := Adapt(delta, h + 1, h == b);
      delta := 0;
      h := h + 1;
      remaining := remaining - 1;
    }
  }

  lemma HandledFits(s: seq<int>, n: int, p: nat)
    requires p <= |s|
    ensures |Handled(s, n, p)| <= |s|
  {
  }

  /** The source's first loop: copies the basic code points and counts the rest. */
  method CopyBasic(prefix: seq<Byte>, s: seq<int>) returns (output: seq<Byte>, b: nat, remaining: nat)
    requires InRange(s)
    ensures output == prefix + Basic(s) && b == |Basic(s)| && remaining == |s| - b
  {
    output, b, remaining := prefix, 0, 0;
    for j := 0 to |s|
      invariant output == prefix + Below(s[..j], INITIAL_N)
      invariant b == |Below(s[..j], INITIAL_N)| && remaining == j - b
    {
      assert s[..j + 1][..j] == s[..j];
      if s[j] < 0x80 {
        b := b + 1;
        output := output + [s[j]];
      } else {
        remaining := remaining + 1;
      }
    }
    assert s[..|s|] == s;
  }

  /** The source's main loop: one scan per distinct non-basic code point. */
  method Rounds(s: seq<int>, b: nat, remaining0: nat) returns (r: Result<seq<Byte>>)
    requires InRange(s) && b == |Basic(s)| && remaining0 == |s| - b
    ensures r == RoundFrom(s, 0, INITIAL_N, INITIAL_BIAS, b, b)
  {
    hide Below;
    var output: seq<Byte> := [];
    var delta, n, bias, h, remaining := 0, INITIAL_N, INITIAL_BIAS, b, remaining0;
    AppendTwice([], [], RoundFrom(s, delta, n, bias, h, b));
    while remaining != 0
      invariant 0 <= n <= MAX_RUNE + 1 && h == |Below(s, n)| && remaining == |s| - h
      invariant Append(output, RoundFrom(s, delta, n, bias, h, b)) == RoundFrom(s, 0, INITIAL_N, INITIAL_BIAS, b, b)
      decreases MAX_RUNE - n
    {
      var m := LeastAtLeast(s, n);
      NextExists(s, n);
      delta := SkipTo(delta, m, n, h);
      if delta < 0 { return InvalidLabel; }
      n := m;
      var ok, digits;
      ok, digits, delta, bias, h, remaining := Scan(s, n, b, delta, bias, h, remaining);
      if !ok { return InvalidLabel; }
      HandledRound(s, n + 1, n + 1);
      delta := Wrap32(delta + 1);
      n := n + 1;
      AppendTwice(output, digits, RoundFrom(s, delta, n, bias, h, b));
      output := output + digits;
    }
    assert output + [] == output;
    r := Ok(output);
  }

  /** The source's encoder. */
  method Encode(prefix: seq<Byte>, str: seq<Byte>) returns (r: Result<seq<Byte>>)
    requires |str| < MAX_INT32
    ensures r == Encoded(prefix, str)
  {
    var s := Runes(str);
    var output, b, remaining := CopyBasic(prefix, s);
    if b > 0 { output := output + [HYPHEN]; }
    assert output == prefix + Basic(s) + (if Basic(s) == [] then [] else [HYPHEN]);
    var tail := Rounds(s, b, remaining);
    if tail.InvalidLabel? { return InvalidLabel; }
    r := Ok(output + tail.value);
  }

  // ---------------------------------------------------------------- round trip

  /** Every delta that encoding s produces from here on passes the decoder's weight guard:
      exact arithmetic, no output. */
  predicate ScanFits(s: seq<int>, p: nat, delta: int, n: int, bias: int, h: nat, b: nat)
    requires InRange(s) && p <= |s| && 0 <= delta && 0 <= n <= MAX_RUNE
    requires h == |Handled(s, n, p)|
    decreases MAX_RUNE - n, |s| - p
  {
    if p == |s| then
      HandledRound(s, n + 1, n + 1);
      RoundFits(s, delta + 1, n + 1, bias, h, b)
    else
      HandledStep(s, n, p);
      if s[p] < n then ScanFits(s, p + 1, delta + 1, n, bias, h, b)
      else if s[p] > n then ScanFits(s, p + 1, delta, n, bias, h, b)
      else WeightsFit(delta, 1, BASE, bias) && ScanFits(s, p + 1, 0, n, BiasFor(delta, h + 1, h == b), h + 1, b)
  }

  predicate RoundFits(s: seq<int>, delta: int, n: int, bias: int, h: nat, b: nat)
    requires InRange(s) && 0 <= delta && 0 <= n <= MAX_RUNE + 1
    requires h == |Below(s, n)|
    decreases MAX_RUNE - n, |s| + 1
  {
    if h == |s| then true else
    var m := Least(s, n);
    NextExists(s, n);
    TimesBound(m - n, h + 1, m - n);
    ScanFits(s, 0, delta + Times(m - n, h + 1), m, bias, h, b)
  }

  /** When a label of these code points survives encoding and decoding: it is all basic, or it
      has at most 1024 code points and no delta of its encoding is too heavy for the decoder. */
  predicate Decodable(s: seq<int>)
    requires InRange(s)
  {
    var b := |Basic(s)|;
    b == |s| || (|s| <= 1024 && RoundFits(s, 0, INITIAL_N, INITIAL_BIAS, b, b))
  }

  /** What ties the encoder, at position p of the scan for n, to a decoder that has read all it
      wrote: the decoder holds the handled code points, and its total plus the pending delta
      points just past those of them already passed. */
  ghost predicate InStep(s: seq<int>, p: nat, delta: int, n: int, bias: int, h: nat, b: nat, st: Decoder)
    requires InRange(s) && p <= |s| && 0 <= n <= MAX_RUNE + 1
  {
    && |s| <= MAX_OUTPUT
    && h == |Handled(s, n, p)| == |st.out|
    && 0 <= delta && 0 <= st.i && INITIAL_N <= st.n <= n
    && st.out == Handled(s, n, p)
    && st.bias == bias
    && b <= h && (st.i == 0 <==> h == b)
    && st.i + delta == Times(n - st.n, h + 1) + |Below(s[..p], n + 1)|
  }

  lemma DeltaBound(s: seq<int>, p: nat, delta: int, n: int, bias: int, h: nat, b: nat, st: Decoder)
    requires InRange(s) && p <= |s| && 0 <= n <= MAX_RUNE + 1 && InStep(s, p, delta, n, bias, h, b, st)
    ensures st.i + delta <= (MAX_RUNE + 1) * 1025 + 1024
    ensures h <= |s|
  {
    TimesBound(n - st.n, h + 1, MAX_RUNE + 1);
    assert |st.out| <= p + (|s| - p);
    MulLe(h + 1, 1025, MAX_RUNE + 1);
  }

  lemma DivModUnique(a: int, x: int, q: int, r: int)
    requires 0 <= r < x && a == q * x + r
    ensures a / x == q && a % x == r
  {
    var q', r' := a / x, a % x;
    assert a == q' * x + r' && 0 <= r' < x;
    if q' < q { MulLe(q' + 1, q, x); assert false; }
    if q < q' { MulLe(q + 1, q', x); assert false; }
  }

  function NextDecoder(s: seq<int>, p: nat, delta: int, n: int, h: nat, b: nat): Decoder
    requires p < |s| && 0 <= delta
  {
    Decoder(|Below(s[..p], n + 1)| + 1, n, BiasFor(delta, h + 1, h == b), Handled(s, n, p + 1))
  }

  lemma InStepEmit(s: seq<int>, p: nat, delta: int, n: int, bias: int, h: nat, b: nat, st: Decoder)
    requires InRange(s) && p < |s| && 0 <= n <= MAX_RUNE && s[p] == n
    requires InStep(s, p, delta, n, bias, h, b, st)
    ensures h < |s|
    ensures InStep(s, p + 1, 0, n, BiasFor(delta, h + 1, h == b), h + 1, b, NextDecoder(s, p, delta, n, h, b))
  {
    HandledStep(s, n, p);
    HandledFits(s, n, p + 1);
  }

  lemma InStepPass(s: seq<int>, p: nat, delta: int, n: int, bias: int, h: nat, b: nat, st: Decoder)
    requires InRange(s) && p < |s| && 0 <= n <= MAX_RUNE && s[p] != n
    requires InStep(s, p, delta, n, bias, h, b, st)
    ensures InStep(s, p + 1, if s[p] < n then delta + 1 else delta, n, bias, h, b, st)
  {
    HandledStep(s, n, p);
  }

  lemma InStepSkip(s: seq<int>, p: nat, delta: int, n: int, m: int, skip: int, bias: int, h: nat, b: nat, st: Decoder)
    requires InRange(s) && p <= |s| && 0 <= n <= m <= MAX_RUNE + 1
    requires InStep(s, p, delta, n, bias, h, b, st)
    requires Handled(s, n, p) == Handled(s, m, 0)
    requires skip + |Below(s[..p], n + 1)| == Times(m - n, h + 1) && 0 <= skip
    ensures InStep(s, 0, delta + skip, m, bias, h, b, st)
  {
    assert s[..0] == [];
    TimesAdd(n - st.n, m - n, h + 1);
  }

  lemma InStepRound(s: seq<int>, delta: int, n: int, bias: int, h: nat, b: nat, st: Decoder)
    requires InRange(s) && 0 <= n <= MAX_RUNE
    requires InStep(s, |s|, delta, n, bias, h, b, st)
    ensures InStep(s, 0, delta + 1, n + 1, bias, h, b, st)
    ensures Handled(s, n, |s|) == Handled(s, n + 1, 0) == Below(s, n + 1)
  {
    HandledRound(s, n + 1, n + 1);
    assert s[..|s|] == s;
    InStepSkip(s, |s|, delta, n, n + 1, 1, bias, h, b, st);
  }

  lemma InStepNext(s: seq<int>, delta: int, n: int, bias: int, h: nat, b: nat, st: Decoder)
    requires InRange(s) && 0 <= n <= MAX_RUNE + 1
    requires InStep(s, 0, delta, n, bias, h, b, st)
    requires |Below(s, n)| == h < |s|
    ensures n <= Least(s, n) <= MAX_RUNE
    ensures var m, skip := Least(s, n), Times(Least(s, n) - n, h + 1);
      && 0 <= skip
      && InStep(s, 0, delta + skip, m, bias, h, b, st)
      && SkipTo(delta, m, n, h) == delta + skip
  {
    NextExists(s, n);
    var m := Least(s, n);
    var skip := Times(m - n, h + 1);
    TimesBound(m - n, h + 1, m - n);
    assert s[..0] == [];
    HandledRound(s, n, n);
    InStepSkip(s, 0, delta, n, m, skip, bias, h, b, st);
    DeltaBound(s, 0, delta + skip, m, bias, h, b, st);
    SkipExact(delta, m, n, h);
  }

  lemma SkipExact(delta: int, m: int, n: int, h: nat)
    requires n <= m && 0 <= delta && delta + Times(m - n, h + 1) <= MAX_INT32
    ensures SkipTo(delta, m, n, h) == delta + Times(m - n, h + 1)
  {
    TimesIsProduct(m - n, h + 1);
    TimesBound(m - n, h + 1, m - n);
  }

  /** The decoder's quotient and remainder are the code point and position the encoder meant. */
  lemma TotalSplit(s: seq<int>, p: nat, delta: int, n: int, bias: int, h: nat, b: nat, st: Decoder)
    requires InRange(s) && p <= |s| && 0 <= n <= MAX_RUNE
    requires InStep(s, p, delta, n, bias, h, b, st)
    ensures st.n + (st.i + delta) / (h + 1) == n
    ensures (st.i + delta) % (h + 1) == |Below(s[..p], n + 1)| <= h
  {
    TimesIsProduct(n - st.n, h + 1);
    DivModUnique(st.i + delta, h + 1, n - st.n, |Below(s[..p], n + 1)|);
  }

  lemma InsertSim(s: seq<int>, p: nat, delta: int, n: int, bias: int, h: nat, b: nat, st: Decoder)
    requires InRange(s) && p < |s| && 0 <= n <= MAX_RUNE && s[p] == n
    requires InStep(s, p, delta, n, bias, h, b, st)
    ensures st.Insert(st.i + delta) == Ok(NextDecoder(s, p, delta, n, h, b))
  {
    TotalSplit(s, p, delta, n, bias, h, b, st);
    InStepEmit(s, p, delta, n, bias, h, b, st);
    HandledStep(s, n, p);
  }

  lemma ReadBack(delta: int, i: int, bias: int, rest: seq<Byte>)
    requires 0 <= delta && 0 <= i && i + delta <= MAX_INT32
    ensures EncodeVar(delta, BASE, bias) + rest != []
    ensures DecodeVar(EncodeVar(delta, BASE, bias) + rest, i, 1, BASE, bias)
         == if WeightsFit(delta, 1, BASE, bias) then Some((i + delta, rest)) else None
  {
    VarRoundTrip(delta, i, 1, BASE, bias, rest);
  }

  /** One emitted delta: the decoder reads it back and inserts the same code point, or refuses
      its weight. */
  lemma EmitSim(s: seq<int>, p: nat, delta: int, n: int, bias: int, h: nat, b: nat, st: Decoder, rest: seq<Byte>)
    requires InRange(s) && p < |s| && 0 <= n <= MAX_RUNE && s[p] == n
    requires InStep(s, p, delta, n, bias, h, b, st)
    ensures DecodeFrom(EncodeVar(delta, BASE, bias) + rest, st)
         == if WeightsFit(delta, 1, BASE, bias) then DecodeFrom(rest, NextDecoder(s, p, delta, n, h, b))
            else InvalidLabel
  {
    hide EncodeVar, WeightsFit, Handled, Below;
    DeltaBound(s, p, delta, n, bias, h, b, st);
    ReadBack(delta, st.i, bias, rest);
    InsertSim(s, p, delta, n, bias, h, b, st);
    DecodeStep(EncodeVar(delta, BASE, bias) + rest, st);
  }

  lemma DecodeStep(s: seq<Byte>, st: Decoder)
    requires 0 <= st.i && s != []
    ensures match DecodeVar(s, st.i, 1, BASE, st.bias)
      case None => DecodeFrom(s, st) == InvalidLabel
      case Some(v) => st.Insert(v.0).Ok? ==> DecodeFrom(s, st) == DecodeFrom(v.1, st.Insert(v.0).value)
  {
  }

  /** What is to be shown of the encoder at position p of the scan for n. */
  ghost predicate ScanAgrees(s: seq<int>, p: nat, delta: int, n: int, bias: int, h: nat, b: nat, st: Decoder)
    requires InRange(s) && p <= |s| && 0 <= n <= MAX_RUNE
    requires InStep(s, p, delta, n, bias, h, b, st)
  {
    && delta <= MAX_INT32
    && var r := ScanFrom(s, p, delta, n, bias, h, b);
      r.Ok? && DecodeFrom(r.value, st) == if ScanFits(s, p, delta, n, bias, h, b) then Ok(s) else InvalidLabel
  }

  ghost predicate RoundAgrees(s: seq<int>, delta: int, n: int, bias: int, h: nat, b: nat, st: Decoder)
    requires InRange(s) && 0 <= n <= MAX_RUNE + 1
    requires InStep(s, 0, delta, n, bias, h, b, st)
  {
    && h == |Below(s, n)|
    && var r := RoundFrom(s, delta, n, bias, h, b);
      r.Ok? && DecodeFrom(r.value, st) == if RoundFits(s, delta, n, bias, h, b) then Ok(s) else InvalidLabel
  }

  lemma AgreeEnd(s: seq<int>, delta: int, n: int, bias: int, h: nat, b: nat, st: Decoder)
    requires InRange(s) && 0 <= n <= MAX_RUNE
    requires InStep(s, |s|, delta, n, bias, h, b, st)
    requires InStep(s, 0, delta + 1, n + 1, bias, h, b, st) && RoundAgrees(s, delta + 1, n + 1, bias, h, b, st)
    ensures ScanAgrees(s, |s|, delta, n, bias, h, b, st)
  {
    DeltaBound(s, |s|, delta, n, bias, h, b, st);
  }

  lemma AgreePass(s: seq<int>, p: nat, delta: int, n: int, bias: int, h: nat, b: nat, st: Decoder)
    requires InRange(s) && p < |s| && 0 <= n <= MAX_RUNE && s[p] != n
    requires InStep(s, p, delta, n, bias, h, b, st)
    requires var delta' := if s[p] < n then delta + 1 else delta;
      InStep(s, p + 1, delta', n, bias, h, b, st) && ScanAgrees(s, p + 1, delta', n, bias, h, b, st)
    ensures ScanAgrees(s, p, delta, n, bias, h, b, st)
  {
  }

  lemma AgreeEmit(s: seq<int>, p: nat, delta: int, n: int, bias: int, h: nat, b: nat, st: Decoder)
    requires InRange(s) && p < |s| && 0 <= n <= MAX_RUNE && s[p] == n
    requires InStep(s, p, delta, n, bias, h, b, st)
    requires var st' := NextDecoder(s, p, delta, n, h, b);
      InStep(s, p + 1, 0, n, st'.bias, h + 1, b, st') && ScanAgrees(s, p + 1, 0, n, st'.bias, h + 1, b, st')
    ensures ScanAgrees(s, p, delta, n, bias, h, b, st)
  {
    DeltaBound(s, p, delta, n, bias, h, b, st);
    EmitSim(s, p, delta, n, bias, h, b, st, ScanFrom(s, p + 1, 0, n, BiasFor(delta, h + 1, h == b), h + 1, b).value);
  }

  lemma AgreeNext(s: seq<int>, delta: int, n: int, bias: int, h: nat, b: nat, st: Decoder)
    requires InRange(s) && 0 <= n <= MAX_RUNE + 1
    requires InStep(s, 0, delta, n, bias, h, b, st) && |Below(s, n)| == h < |s|
    requires n <= Least(s, n) <= MAX_RUNE
    requires var m, skip := Least(s, n), Times(Least(s, n) - n, h + 1);
      InStep(s, 0, delta + skip, m, bias, h, b, st) && ScanAgrees(s, 0, delta + skip, m, bias, h, b, st)
    ensures RoundAgrees(s, delta, n, bias, h, b, st)
  {
    InStepNext(s, delta, n, bias, h, b, st);
  }

  /** The decoder, in step with the encoder, turns the rest of its output into the whole string,
      or refuses a delta that does not fit. */
  lemma {:induction false} ScanSim(s: seq<int>, p: nat, delta: int, n: int, bias: int, h: nat, b: nat, st: Decoder)
    requires InRange(s) && p <= |s| && 0 <= n <= MAX_RUNE
    requires InStep(s, p, delta, n, bias, h, b, st)
    ensures ScanAgrees(s, p, delta, n, bias, h, b, st)
    decreases MAX_RUNE - n, |s| - p, 1
  {
    if p == |s| {
      InStepRound(s, delta, n, bias, h, b, st);
      RoundSim(s, delta + 1, n + 1, bias, h, b, st);
      AgreeEnd(s, delta, n, bias, h, b, st);
    } else {
      ScanSimStep(s, p, delta, n, bias, h, b, st);
    }
  }

  lemma {:induction false} ScanSimStep(s: seq<int>, p: nat, delta: int, n: int, bias: int, h: nat, b: nat, st: Decoder)
    requires InRange(s) && p < |s| && 0 <= n <= MAX_RUNE
    requires InStep(s, p, delta, n, bias, h, b, st)
    ensures ScanAgrees(s, p, delta, n, bias, h, b, st)
    decreases MAX_RUNE - n, |s| - p, 0
  {
    if s[p] != n {
      InStepPass(s, p, delta, n, bias, h, b, st);
      ScanSim(s, p + 1, if s[p] < n then delta + 1 else delta, n, bias, h, b, st);
      AgreePass(s, p, delta, n, bias, h, b, st);
    } else {
      InStepEmit(s, p, delta, n, bias, h, b, st);
      ScanSim(s, p + 1, 0, n, BiasFor(delta, h + 1, h == b), h + 1, b, NextDecoder(s, p, delta, n, h, b));
      AgreeEmit(s, p, delta, n, bias, h, b, st);
    }
  }

  lemma {:induction false} RoundSim(s: seq<int>, delta: int, n: int, bias: int, h: nat, b: nat, st: Decoder)
    requires InRange(s) && 0 <= n <= MAX_RUNE + 1
    requires InStep(s, 0, delta, n, bias, h, b, st)
    ensures RoundAgrees(s, delta, n, bias, h, b, st)
    decreases MAX_RUNE - n, |s| + 1
  {
    HandledRound(s, n, n);
    BelowAll(s, n);
    if h < |s| {
      InStepNext(s, delta, n, bias, h, b, st);
      ScanSim(s, 0, delta + Times(Least(s, n) - n, h + 1), Least(s, n), bias, h, b, st);
      AgreeNext(s, delta, n, bias, h, b, st);
    }
  }

  ghost predicate Shaped(r: Result<seq<Byte>>, more: bool) {
    r.Ok? ==> HYPHEN !in r.value && (more ==> r.value != [])
  }

  lemma ShapeEmit(s: seq<int>, p: nat, delta: int, n: int, bias: int, h: nat, b: nat)
    requires InRange(s) && p < |s| && 0 <= delta <= MAX_INT32 && 0 <= n <= MAX_RUNE && s[p] == n
    requires h == |Handled(s, n, p)| && h + 1 == |Handled(s, n, p + 1)|
    requires Shaped(ScanFrom(s, p + 1, 0, n, BiasFor(delta, h + 1, h == b), h + 1, b), false)
    ensures Shaped(ScanFrom(s, p, delta, n, bias, h, b), true)
  {
    var digits, rest := EncodeVar(delta, BASE, bias), ScanFrom(s, p + 1, 0, n, BiasFor(delta, h + 1, h == b), h + 1, b);
    assert rest.Ok? ==> HYPHEN !in digits + rest.value;
  }

  lemma ShapePass(s: seq<int>, p: nat, delta: int, n: int, bias: int, h: nat, b: nat, more: bool)
    requires InRange(s) && p < |s| && 0 <= delta <= MAX_INT32 && 0 <= n <= MAX_RUNE && s[p] != n
    requires h == |Handled(s, n, p)| == |Handled(s, n, p + 1)|
    requires (delta == MAX_INT32 && s[p] < n)
          || Shaped(ScanFrom(s, p + 1, if s[p] < n then delta + 1 else delta, n, bias, h, b), more)
    ensures Shaped(ScanFrom(s, p, delta, n, bias, h, b), more)
  {
  }

  lemma ShapeEnd(s: seq<int>, delta: int, n: int, bias: int, h: nat, b: nat)
    requires InRange(s) && 0 <= delta <= MAX_INT32 && 0 <= n <= MAX_RUNE
    requires h == |Handled(s, n, |s|)| == |Below(s, n + 1)|
    requires Shaped(RoundFrom(s, Wrap32(delta + 1), n + 1, bias, h, b), h < |s|)
    ensures Shaped(ScanFrom(s, |s|, delta, n, bias, h, b), false)
  {
  }

  /** The encoder's digits hold no delimiter, and there are some if a code point is left. */
  lemma {:induction false} ScanShape(s: seq<int>, p: nat, delta: int, n: int, bias: int, h: nat, b: nat, q: nat)
    requires InRange(s) && p <= |s| && 0 <= delta <= MAX_INT32 && 0 <= n <= MAX_RUNE
    requires h == |Handled(s, n, p)|
    requires p <= q <= |s| && (q < |s| ==> s[q] == n)
    ensures Shaped(ScanFrom(s, p, delta, n, bias, h, b), q < |s|)
    decreases MAX_RUNE - n, |s| - p
  {
    hide Below, EncodeVar, BiasFor;
    if p == |s| {
      HandledRound(s, n + 1, n + 1);
      RoundShape(s, Wrap32(delta + 1), n + 1, bias, h, b);
      ShapeEnd(s, delta, n, bias, h, b);
    } else {
      HandledStep(s, n, p);
      if s[p] == n {
        ScanShape(s, p + 1, 0, n, BiasFor(delta, h + 1, h == b), h + 1, b, |s|);
        ShapeEmit(s, p, delta, n, bias, h, b);
      } else {
        if s[p] > n || delta < MAX_INT32 {
          ScanShape(s, p + 1, if s[p] < n then delta + 1 else delta, n, bias, h, b, q);
        }
        ShapePass(s, p, delta, n, bias, h, b, q < |s|);
      }
    }
  }

  lemma {:induction false} RoundShape(s: seq<int>, delta: int, n: int, bias: int, h: nat, b: nat)
    requires InRange(s) && 0 <= n <= MAX_RUNE + 1
    requires h == |Below(s, n)|
    ensures Shaped(RoundFrom(s, delta, n, bias, h, b), h < |s|)
    decreases MAX_RUNE - n, |s| + 1
  {
    if h != |s| {
      var m := Least(s, n);
      NextExists(s, n);
      var q :| 0 <= q < |s| && s[q] == m;
      if SkipTo(delta, m, n, h) >= 0 { ScanShape(s, 0, SkipTo(delta, m, n, h), m, bias, h, b, q); }
    }
  }

  /** A decoder that inserts anything ends with at most 1024 code points. */
  lemma {:induction false} DecodedLength(s: seq<Byte>, st: Decoder)
    requires 0 <= st.i && s != []
    ensures DecodeFrom(s, st).Ok? ==> |DecodeFrom(s, st).value| <= 1024
    decreases |s|
  {
    var v := DecodeVar(s, st.i, 1, BASE, st.bias);
    if v.Some? {
      var (i', rest) := v.value;
      var st' := st.Insert(i');
      if st'.Ok? && rest != [] { DecodedLength(rest, st'.value); }
    }
  }

  /** What the decoder inserts are non-basic code points of Unicode; the rest was there. */
  lemma {:induction false} DecodedPoints(s: seq<Byte>, st: Decoder)
    requires 0 <= st.i
    ensures DecodeFrom(s, st).Ok? ==>
      forall c :: c in DecodeFrom(s, st).value ==> c in st.out || st.n <= c <= 0x10FFFF
    decreases |s|
  {
    if s != [] {
      var v := DecodeVar(s, st.i, 1, BASE, st.bias);
      if v.Some? && st.Insert(v.value.0).Ok? {
        var st' := st.Insert(v.value.0).value;
        DecodedPoints(v.value.1, st');
        DivShrinks(v.value.0, |st.out| + 1);
        assert forall c :: c in st'.out ==> c in st.out || c == st'.n;
      }
    }
  }

  /** The digits begin behind the delimiter that the encoder wrote, if it wrote one. */
  lemma DigitsBegin(joined: seq<Byte>, basic: seq<Byte>, tail: seq<Byte>)
    requires HYPHEN !in tail && tail != [] && joined == basic + (if basic == [] then [] else [HYPHEN]) + tail
    ensures var pos := 1 + LastHyphen(joined);
      if basic == [] then pos == 0 && joined == tail
      else pos == |basic| + 1 && joined[pos..] == tail && joined[..pos - 1] == basic
  {
    if basic == [] {
      assert joined == tail;
    } else {
      assert joined[|basic|] == HYPHEN;
      assert forall j :: |basic| < j < |joined| ==> joined[j] == tail[j - |basic| - 1];
    }
  }

  lemma SplitLabel(joined: seq<Byte>, basic: seq<Byte>, tail: seq<Byte>)
    requires AllAscii(basic) && tail != []
    requires var pos := 1 + LastHyphen(joined);
      if basic == [] then pos == 0 && joined == tail
      else pos == |basic| + 1 && joined[pos..] == tail && joined[..pos - 1] == basic
    ensures Decoded(joined) == match DecodeFrom(tail, Start(basic))
                               case InvalidLabel => InvalidLabel
                               case Ok(out) => Ok(FromRunes(out))
  {
    RunesOfAscii(basic);
    if basic == [] { assert joined[0..] == tail; }
  }

  lemma DecodedBasic(basic: seq<Byte>)
    requires basic != []
    ensures Decoded(basic + [HYPHEN]) == Ok(basic)
  {
    var joined := basic + [HYPHEN];
    assert joined[|basic|] == HYPHEN && LastHyphen(joined) == |basic|;
    assert joined[..|joined| - 1] == basic;
  }

  lemma EncodedBasic(str: seq<Byte>)
    requires |str| < MAX_INT32 && |Basic(Runes(str))| == |Runes(str)|
    ensures var basic := Basic(Runes(str));
      Encoded([], str) == Ok(if basic == [] then [] else basic + [HYPHEN])
  {
    var basic := Basic(Runes(str));
    assert [] + basic + [HYPHEN] + [] == basic + [HYPHEN];
  }

  lemma BasicRoundTrip(s: seq<int>)
    requires InRange(s) && AllScalar(s) && |Basic(s)| == |s|
    requires |FromRunes(s)| < MAX_INT32
    ensures Encoded([], FromRunes(s)).Ok?
    ensures Decoded(Encoded([], FromRunes(s)).value) == Ok(FromRunes(s))
  {
    var basic := Basic(s);
    RunesOfFromRunes(s);
    BelowAll(s, INITIAL_N);
    FromRunesOfAscii(basic);
    EncodedBasic(FromRunes(s));
    if s != [] { DecodedBasic(basic); }
  }

  /** Encoding then decoding a string of code points gives it back if and only if it is
      decodable: all basic, or at most 1024 code points none of whose deltas is too heavy. */
  lemma RoundTrip(s: seq<int>)
    requires AllScalar(s) && |FromRunes(s)| < MAX_INT32
    ensures var str := FromRunes(s);
      (Encoded([], str).Ok? && Decoded(Encoded([], str).value) == Ok(str)) <==> Decodable(s)
  {
    var str := FromRunes(s);
    RunesOfFromRunes(s);
    var basic := Basic(s);
    var b := |basic|;
    if b == |s| {
      BasicRoundTrip(s);
    } else {
      HandledRound(s, INITIAL_N, INITIAL_N);
      var r := RoundFrom(s, 0, INITIAL_N, INITIAL_BIAS, b, b);
      RoundShape(s, 0, INITIAL_N, INITIAL_BIAS, b, b);
      if r.Ok? {
        var joined := basic + (if basic == [] then [] else [HYPHEN]) + r.value;
        DigitsBegin(joined, basic, r.value);
        SplitLabel(joined, basic, r.value);
        assert [] + basic == basic;
      }
      if |s| <= MAX_OUTPUT {
        assert s[..0] == [];
        RoundSim(s, 0, INITIAL_N, INITIAL_BIAS, b, b, Start(basic));
      } else if r.Ok? {
        DecodedLength(r.value, Start(basic));
        var out := DecodeFrom(r.value, Start(basic));
        if out.Ok? { RunesOfFromRunes(out.value); }
      }
    }
  }

  // ---------------------------------------------------------------- short labels

  /** Deltas below this always pass the decoder's weight guard. */
  const HEAVY := 155_096_058

  const SHORT := 139

  lemma {:induction false} LightTail(q: int, w: int, k: int, bias: int)
    requires 0 <= q && 1 <= w && k - bias >= TMAX && q * w < HEAVY
    ensures WeightsFit(q, w, k, bias)
    decreases q
  {
    if q >= TMAX {
      var q' := (q - TMAX) / 10;
      QuotientShrinks(q, TMAX);
      MulLe(TMAX, q, w);
      MulLe(10 * q', q - TMAX, w);
      assert q' * (w * 10) == 10 * q' * w;
      assert (q - TMAX) * w == q * w - TMAX * w;
      LightTail(q', w * 10, k + BASE, bias);
    }
  }

  /** No bias the adaptation can produce makes a delta below HEAVY too heavy. */
  lemma {:induction false} LightFits(q: int, w: int, j: nat, bias: int)
    requires 0 <= q && 0 <= bias <= 202 && j <= 5
    requires w == [1, 35, 1225, 42875, 1500625, 52521875][j]
    requires q * w < HEAVY
    ensures WeightsFit(q, w, BASE + BASE * j, bias)
    decreases q
  {
    var k := BASE + BASE * j;
    var t := Threshold(k, bias);
    if k - bias >= TMAX {
      LightTail(q, w, k, bias);
    } else if q >= t {
      var q' := (q - t) / (BASE - t);
      QuotientShrinks(q, t);
      DigitStep(q, t, w);
      Products(t + (q - t) % (BASE - t), q', w, BASE - t);
      if t == 1 {
        LightFits(q', w * 35, j + 1, bias);
      } else {
        MulLe(t, q, w);
        LightTail(q', w * (BASE - t), k + BASE, bias);
      }
    }
  }

  lemma ShortDelta(s: seq<int>, p: nat, delta: int, n: int, bias: int, h: nat, b: nat, st: Decoder)
    requires InRange(s) && p < |s| <= SHORT && 0 <= n <= MAX_RUNE && s[p] == n && 0 <= bias <= 202
    requires InStep(s, p, delta, n, bias, h, b, st)
    ensures WeightsFit(delta, 1, BASE, bias) && 0 <= BiasFor(delta, h + 1, h == b) <= 202
  {
    DeltaBound(s, p, delta, n, bias, h, b, st);
    BiasBound(delta, h + 1, h == b);
    InStepEmit(s, p, delta, n, bias, h, b, st);
    TimesBound(n - st.n, h + 1, MAX_RUNE - INITIAL_N);
    MulLe(h + 1, SHORT, MAX_RUNE - INITIAL_N);
    LightFits(delta, 1, 0, bias);
  }

  lemma {:induction false} ScanShort(s: seq<int>, p: nat, delta: int, n: int, bias: int, h: nat, b: nat, st: Decoder)
    requires InRange(s) && p <= |s| <= SHORT && 0 <= n <= MAX_RUNE && 0 <= bias <= 202
    requires InStep(s, p, delta, n, bias, h, b, st)
    ensures ScanFits(s, p, delta, n, bias, h, b)
    decreases MAX_RUNE - n, |s| - p
  {
    hide Below, WeightsFit, BiasFor;
    if p == |s| {
      InStepRound(s, delta, n, bias, h, b, st);
      RoundShort(s, delta + 1, n + 1, bias, h, b, st);
    } else if s[p] != n {
      InStepPass(s, p, delta, n, bias, h, b, st);
      ScanShort(s, p + 1, if s[p] < n then delta + 1 else delta, n, bias, h, b, st);
    } else {
      ShortDelta(s, p, delta, n, bias, h, b, st);
      InStepEmit(s, p, delta, n, bias, h, b, st);
      ScanShort(s, p + 1, 0, n, BiasFor(delta, h + 1, h == b), h + 1, b, NextDecoder(s, p, delta, n, h, b));
    }
  }

  lemma {:induction false} RoundShort(s: seq<int>, delta: int, n: int, bias: int, h: nat, b: nat, st: Decoder)
    requires InRange(s) && |s| <= SHORT && 0 <= n <= MAX_RUNE + 1 && 0 <= bias <= 202
    requires InStep(s, 0, delta, n, bias, h, b, st)
    ensures h == |Below(s, n)| && RoundFits(s, delta, n, bias, h, b)
    decreases MAX_RUNE - n, |s| + 1
  {
    HandledRound(s, n, n);
    BelowAll(s, n);
    if h < |s| {
      InStepNext(s, delta, n, bias, h, b, st);
      ScanShort(s, 0, delta + Times(Least(s, n) - n, h + 1), Least(s, n), bias, h, b, st);
    }
  }

  /** Every label of at most 139 code points survives; DNS allows 63 octets. */
  lemma ShortLabelsSurvive(s: seq<int>)
    requires AllScalar(s) && |s| <= 139 && |FromRunes(s)| < MAX_INT32
    ensures Encoded([], FromRunes(s)).Ok?
    ensures Decoded(Encoded([], FromRunes(s)).value) == Ok(FromRunes(s))
  {
    var basic := Basic(s);
    HandledRound(s, INITIAL_N, INITIAL_N);
    assert s[..0] == [];
    RoundShort(s, 0, INITIAL_N, INITIAL_BIAS, |basic|, |basic|, Start(basic));
    RoundTrip(s);
  }

  /** A longer label can be lost: 1025 copies of U+00E9 encode to something that the decoder
      refuses or reads as something else. */
  lemma LongLabelLost(s: seq<int>)
    requires s == seq(1025, _ => 0xE9)
    ensures |FromRunes(s)| < MAX_INT32
    ensures !(Encoded([], FromRunes(s)).Ok? && Decoded(Encoded([], FromRunes(s)).value) == Ok(FromRunes(s)))
  {
    FromRunesWidth(s);
    assert s[0] == 0xE9;
    BelowAll(s, INITIAL_N);
    RoundTrip(s);
  }

  /** Passing smaller code points only counts them. */
  lemma {:induction false} ScanPasses(s: seq<int>, p: nat, q: nat, delta: int, n: int, bias: int, h: nat, b: nat)
    requires InRange(s) && p <= q <= |s| && 0 <= delta && 0 <= n <= MAX_RUNE
    requires h == |Handled(s, n, p)| && forall k :: p <= k < q ==> s[k] < n
    ensures h == |Handled(s, n, q)|
    ensures ScanFits(s, p, delta, n, bias, h, b) == ScanFits(s, q, delta + (q - p), n, bias, h, b)
    decreases q - p
  {
    if p < q {
      HandledStep(s, n, p);
      ScanPasses(s, p + 1, q, delta + 1, n, bias, h, b);
    }
  }

  /** One digit: what is left of a delta that fits fits, at its weight. */
  lemma FitsOn(q: int, w: int, k: int, t: int, bias: int, q': int)
    requires t == Threshold(k, bias) && q >= t && q' == (q - t) / (BASE - t) && 0 <= q
    ensures WeightsFit(q, w, k, bias) ==>
      0 <= q' && w * (BASE - t) < MAX_WEIGHT && WeightsFit(q', w * (BASE - t), k + BASE, bias)
  {
    QuotientShrinks(q, t);
  }

  /** The last digit of this delta has a weight that the decoder's guard refuses. */
  lemma {:induction false} HeavyDelta(q: int)
    requires q == 446707583
    ensures !WeightsFit(q, 1, BASE, INITIAL_BIAS)
  {
    hide WeightsFit;
    FitsOn(q, 1, 36, 1, INITIAL_BIAS, 12763073);
    FitsOn(12763073, 35, 72, 1, INITIAL_BIAS, 364659);
    FitsOn(364659, 1225, 108, 26, INITIAL_BIAS, 36463);
    FitsOn(36463, 12250, 144, 26, INITIAL_BIAS, 3643);
    FitsOn(3643, 122500, 180, 26, INITIAL_BIAS, 361);
    FitsOn(361, 1225000, 216, 26, INITIAL_BIAS, 33);
    FitsOn(33, 12250000, 252, 26, INITIAL_BIAS, 0);
  }

  /** So can one that is not too long: of 400 times "a" and then U+10FFFF the encoder writes a delta that the
      decoder refuses. */
  lemma {:induction false} HeavyLabelLost(s: seq<int>)
    requires s == seq(400, _ => 97) + [0x10FFFF]
    ensures |s| <= 1024 && AllScalar(s) && |FromRunes(s)| < MAX_INT32
    ensures !(Encoded([], FromRunes(s)).Ok? && Decoded(Encoded([], FromRunes(s)).value) == Ok(FromRunes(s)))
  {
    FromRunesWidth(s);
    HeavyLabelRefused(s);
    RoundTrip(s);
  }

  lemma HeavyLabelRefused(s: seq<int>)
    requires s == seq(400, _ => 97) + [0x10FFFF]
    ensures InRange(s) && !Decodable(s)
  {
    var front := seq(400, _ => 97);
    assert s[..|s| - 1] == front && s[400] == MAX_RUNE && forall k :: 0 <= k < 400 ==> s[k] == 97;
    BelowAll(front, INITIAL_N);
    assert Basic(s) == Below(front, INITIAL_N) + [] && |Basic(s)| == 400;
    LeastIsLeast(s, INITIAL_N);
    assert Least(s, INITIAL_N) == MAX_RUNE;
    TimesIsProduct(MAX_RUNE - INITIAL_N, 401);
    HandledRound(s, INITIAL_N, MAX_RUNE);
    ScanPasses(s, 0, 400, 446707183, MAX_RUNE, INITIAL_BIAS, 400, 400);
    HeavyDelta(446707583);
  }

  lemma {:induction false} FromRunesWidth(rs: seq<int>)
    ensures |FromRunes(rs)| <= 4 * |rs|
  {
    if rs != [] { FromRunesWidth(rs[1..]); }
  }
}

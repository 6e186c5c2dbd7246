/** What a start tag says, over bytes: a tag that is written with a name and attributes is read with that name and these
    attributes, however the values are quoted and whatever white space there is (readTag in net/html/token.go). */
module HtmlTags {
  import opened Utf8
  import opened HtmlSyntax

  // ---------------------------------------------------------------- bytes

  /** Space, line feed, carriage return, tab, form feed. */
  predicate Blank(c: Byte) { c == 0x20 || c == 0x0A || c == 0x0D || c == 0x09 || c == 0x0C }

  predicate Blanks(s: seq<Byte>) { forall i :: 0 <= i < |s| ==> Blank(s[i]) }

  /** The bytes that pieces of a tag end at, and which of them are looked at again. */
  lemma EndersAre(c: Byte)
    ensures White(c) <==> Blank(c)
    ensures TagName.On(c).0 <==> Blank(c) || c == '/' as int || c == '>' as int
    ensures TagName.On(c).1 <==> c == '/' as int || c == '>' as int
    ensures AttrKey.On(c).0 <==> Blank(c) || c == '/' as int || c == '=' as int || c == '>' as int
    ensures AttrKey.On(c).1 <==> c == '=' as int || c == '>' as int
    ensures Unquoted.On(c).0 <==> Blank(c) || c == '>' as int
    ensures Unquoted.On(c).1 <==> c == '>' as int
    ensures forall q :: Quoted(q).On(c) == (c == q, false)
    ensures Angle.On(c) == (c == '>' as int, false)
  {
  }

  predicate IsName(s: seq<Byte>) {
    && s != [] && ('a' as int <= s[0] <= 'z' as int || 'A' as int <= s[0] <= 'Z' as int)
    && forall i :: 0 <= i < |s| ==> !Blank(s[i]) && s[i] != '/' as int && s[i] != '>' as int
  }

  predicate IsKey(s: seq<Byte>) {
    && s != []
    && forall i :: 0 <= i < |s| ==> !Blank(s[i]) && s[i] != '/' as int && s[i] != '=' as int && s[i] != '>' as int
  }

  /** A value that needs no quotes. */
  predicate IsBare(s: seq<Byte>) {
    && s != [] && s[0] != '"' as int && s[0] != '\'' as int
    && forall i :: 0 <= i < |s| ==> !Blank(s[i]) && s[i] != '>' as int
  }

  // ---------------------------------------------------------------- written tags

  datatype Quotes = Double | Single | Bare

  /** What follows a key: nothing, or "=" and a value with white space before and behind the "=". */
  datatype Form = Absent | Given(before: seq<Byte>, after: seq<Byte>, quotes: Quotes, value: seq<Byte>) {
    predicate Valid() {
      Given? ==>
        && Blanks(before) && Blanks(after)
        && match quotes
           case Double => '"' as int !in value
           case Single => '\'' as int !in value
           case Bare => IsBare(value)
    }

    function Bytes(): seq<Byte> {
      if Absent? then [] else before + ['=' as int] + after + Quoting()
    }

    function Quoting(): seq<Byte>
      requires Given?
    {
      match quotes
      case Double => ['"' as int] + value + ['"' as int]
      case Single => ['\'' as int] + value + ['\'' as int]
      case Bare => value
    }

    /** The value that is meant. */
    function Meaning(): seq<Byte> { if Absent? then [] else value }
  }

  datatype Attribute = Attribute(space: seq<Byte>, key: seq<Byte>, form: Form) {
    predicate Valid() { space != [] && Blanks(space) && IsKey(key) && form.Valid() }

    function Bytes(): seq<Byte> { space + key + form.Bytes() }
  }

  // ---------------------------------------------------------------- pieces

  /** White space is skipped up to a byte that is none. */
  lemma {:induction false} SkipsBlanks(s: seq<Byte>, p: nat, q: nat)
    requires p <= q < |s| && !Blank(s[q]) && forall i :: p <= i < q ==> Blank(s[i])
    ensures SkipWhite(s, p) == Scan(q, true)
    decreases q - p
  {
    if p < q { SkipsBlanks(s, p + 1, q); }
  }

  /** A piece ends at the first byte that ends it. */
  lemma {:induction false} EndsThere(s: seq<Byte>, p: nat, q: nat, e: Ender)
    requires p <= q < |s| && e.On(s[q]).0 && forall i :: p <= i < q ==> !e.On(s[i]).0
    ensures Until(s, p, e) == Piece(q, if e.On(s[q]).1 then q else q + 1, true)
    decreases q - p
  {
    if p < q { EndsThere(s, p + 1, q, e); }
  }

  /** Bytes of s, given as a sequence. */
  lemma Within(s: seq<Byte>, p: nat, t: seq<Byte>, k: nat)
    requires p + |t| <= |s| && s[p..p + |t|] == t && p <= k < p + |t|
    ensures s[k] == t[k - p]
  {
    assert s[k] == s[p..p + |t|][k - p];
  }

  lemma KeyReads(s: seq<Byte>, p: nat, key: seq<Byte>)
    requires IsKey(key) && p + |key| < |s| && s[p..p + |key|] == key
    requires var c := s[p + |key|]; Blank(c) || c == '=' as int || c == '>' as int
    ensures var q := p + |key|; Until(s, p, AttrKey) == Piece(q, if Blank(s[q]) then q + 1 else q, true)
  {
    forall i | p <= i < p + |key| ensures !AttrKey.On(s[i]).0 {
      Within(s, p, key, i);
      EndersAre(s[i]);
    }
    EndersAre(s[p + |key|]);
    EndsThere(s, p, p + |key|, AttrKey);
  }

  lemma NameReads(s: seq<Byte>, p: nat, name: seq<Byte>)
    requires IsName(name) && p + |name| < |s| && s[p..p + |name|] == name
    requires var c := s[p + |name|]; Blank(c) || c == '/' as int || c == '>' as int
    ensures var q := p + |name|; Until(s, p + 1, TagName) == Piece(q, if Blank(s[q]) then q + 1 else q, true)
  {
    forall i | p + 1 <= i < p + |name| ensures !TagName.On(s[i]).0 {
      Within(s, p, name, i);
      EndersAre(s[i]);
    }
    EndersAre(s[p + |name|]);
    EndsThere(s, p + 1, p + |name|, TagName);
  }

  /** Skipping from the first blank or from behind it is the same. */
  lemma {:induction false} SkipsOn(s: seq<Byte>, q: nat)
    requires q < |s|
    ensures Blank(s[q]) ==> SkipWhite(s, q) == SkipWhite(s, q + 1)
  {
  }

  // ---------------------------------------------------------------- values

  /** A "=" stands at x with white space from p on before it, and a value starts at y with white space before it. */
  predicate EqualsAt(s: seq<Byte>, p: nat, x: nat, y: nat) {
    && p <= x < y < |s| && s[x] == '=' as int && !Blank(s[y])
    && (forall i :: p <= i < x ==> Blank(s[i])) && (forall i :: x < i < y ==> Blank(s[i]))
  }

  lemma QuotedReads(s: seq<Byte>, p: nat, x: nat, y: nat, q: Byte, size: nat)
    requires EqualsAt(s, p, x, y) && (q == '"' as int || q == '\'' as int) && s[y] == q
    requires y + 1 + size < |s| && s[y + 1 + size] == q && forall i :: y < i <= y + size ==> s[i] != q
    ensures AttrVal(s, p) == Value(Span(y + 1, y + 1 + size), y + 2 + size, true)
  {
    SkipsBlanks(s, p, x);
    SkipsBlanks(s, x + 1, y);
    EndsThere(s, y + 1, y + 1 + size, Quoted(q));
    hide SkipWhite, Until;
  }

  lemma BareReads(s: seq<Byte>, p: nat, x: nat, y: nat, size: nat)
    requires EqualsAt(s, p, x, y) && 0 < size && y + size < |s| && IsBare(s[y..y + size])
    requires Blank(s[y + size]) || s[y + size] == '>' as int
    ensures AttrVal(s, p) == Value(Span(y, y + size), if Blank(s[y + size]) then y + size + 1 else y + size, true)
  {
    SkipsBlanks(s, p, x);
    SkipsBlanks(s, x + 1, y);
    forall i | y <= i < y + size ensures !Unquoted.On(s[i]).0 && s[y] != '"' as int && s[y] != '\'' as int {
      Within(s, y, s[y..y + size], i);
      Within(s, y, s[y..y + size], y);
      EndersAre(s[i]);
    }
    EndersAre(s[y + size]);
    EndsThere(s, y + 1, y + size, Unquoted);
    assert s[y] != '>' as int by { Within(s, y, s[y..y + size], y); }
    hide SkipWhite, Until;
  }

  /** Where a written value starts, from the end of its key on. */
  function ValueStart(form: Form, p: nat): nat
    requires form.Given?
  {
    p + |form.before| + 1 + |form.after| + if form.quotes == Bare then 0 else 1
  }

  /** The bytes of a written form, one part after another. */
  lemma FormParts(s: seq<Byte>, p: nat, form: Form)
    requires form.Given? && form.Valid() && p + |form.Bytes()| <= |s| && s[p..p + |form.Bytes()|] == form.Bytes()
    ensures var x := p + |form.before|; var y := x + 1 + |form.after|;
      && EqualsAt(s, p, x, y) && y + |form.Quoting()| == p + |form.Bytes()|
      && s[y..y + |form.Quoting()|] == form.Quoting()
  {
    var x := p + |form.before|;
    var y := x + 1 + |form.after|;
    var b := form.Bytes();
    assert b[..|form.before|] == form.before && b[|form.before|] == '=' as int;
    assert b[|form.before| + 1..|form.before| + 1 + |form.after|] == form.after;
    assert b[|form.before| + 1 + |form.after|..] == form.Quoting();
    forall i | p <= i < p + |b| ensures s[i] == b[i - p] { Within(s, p, b, i); }
    forall i | p <= i < x ensures Blank(s[i]) { assert s[i] == form.before[i - p]; }
    forall i | x < i < y ensures Blank(s[i]) { assert s[i] == form.after[i - x - 1]; }
    assert s[y] == form.Quoting()[0];
    assert s[y..y + |form.Quoting()|] == s[p..p + |b|][y - p..];
  }

  /** The first part of an equation between sequences. */
  lemma Middle(s: seq<Byte>, y: nat, w: seq<Byte>, a: nat, b: nat)
    requires y + |w| <= |s| && s[y..y + |w|] == w && a <= b <= |w|
    ensures s[y + a..y + b] == w[a..b]
  {
    forall i: nat | i < b - a ensures s[y + a..y + b][i] == w[a..b][i] { Within(s, y, w, y + a + i); }
  }

  lemma BareValue(s: seq<Byte>, p: nat, x: nat, y: nat, value: seq<Byte>)
    requires EqualsAt(s, p, x, y) && IsBare(value) && y + |value| < |s| && s[y..y + |value|] == value
    requires Blank(s[y + |value|]) || s[y + |value|] == '>' as int
    ensures var e := y + |value|; AttrVal(s, p) == Value(Span(y, e), if Blank(s[e]) then e + 1 else e, true)
  {
    hide AttrVal, EqualsAt, IsBare;
    assert value != [] by { BareIsSome(value); }
    BareReads(s, p, x, y, |value|);
  }

  lemma BareIsSome(value: seq<Byte>)
    requires IsBare(value)
    ensures value != []
  {
  }

  lemma QuotedValue(s: seq<Byte>, p: nat, x: nat, y: nat, q: Byte, value: seq<Byte>)
    requires EqualsAt(s, p, x, y) && (q == '"' as int || q == '\'' as int) && q !in value
    requires y + |value| + 2 <= |s| && s[y..y + |value| + 2] == [q] + value + [q]
    ensures AttrVal(s, p) == Value(Span(y + 1, y + 1 + |value|), y + 2 + |value|, true)
    ensures s[y + 1..y + 1 + |value|] == value
  {
    hide AttrVal, EqualsAt;
    var w := [q] + value + [q];
    Middle(s, y, w, 1, 1 + |value|);
    Within(s, y, w, y);
    Within(s, y, w, y + 1 + |value|);
    assert w[1..1 + |value|] == value;
    forall i | y < i <= y + |value| ensures s[i] != q { assert s[i] == s[y + 1..y + 1 + |value|][i - y - 1]; }
    QuotedReads(s, p, x, y, q, |value|);
  }

  /** A written value is read, up to its end. */
  lemma ValueReads(s: seq<Byte>, p: nat, form: Form, p': nat)
    requires form.Given? && form.Valid() && p + |form.Bytes()| < |s| && s[p..p + |form.Bytes()|] == form.Bytes()
    requires form.quotes == Bare ==> Blank(s[p + |form.Bytes()|]) || s[p + |form.Bytes()|] == '>' as int
    requires p <= p' <= p + |form.before|
    ensures var v, e := ValueStart(form, p), p + |form.Bytes()|;
      && AttrVal(s, p') ==
        Value(Span(v, v + |form.value|), if form.quotes == Bare && Blank(s[e]) then e + 1 else e, true)
      && v + |form.value| <= |s| && s[v..v + |form.value|] == form.value
  {
    hide *;
    FormParts(s, p, form);
    var x := p + |form.before|;
    var y := x + 1 + |form.after|;
    EqualsStill(s, p, p', x, y);
    FormIs(form, p);
    match form.quotes
    case Bare => BareValue(s, p', x, y, form.value);
    case Double => QuotedValue(s, p', x, y, '"' as int, form.value);
    case Single => QuotedValue(s, p', x, y, '\'' as int, form.value);
  }

  lemma EqualsStill(s: seq<Byte>, p: nat, p': nat, x: nat, y: nat)
    requires EqualsAt(s, p, x, y) && p <= p' <= x
    ensures EqualsAt(s, p', x, y)
  {
  }

  lemma FormIs(form: Form, p: nat)
    requires form.Given? && form.Valid()
    ensures form.quotes == Bare ==> form.Quoting() == form.value && IsBare(form.value)
    ensures form.quotes == Quotes.Double ==>
      form.Quoting() == ['"' as int] + form.value + ['"' as int] && '"' as int !in form.value
    ensures form.quotes == Quotes.Single ==>
      form.Quoting() == ['\'' as int] + form.value + ['\'' as int] && '\'' as int !in form.value
    ensures ValueStart(form, p) == p + |form.before| + 1 + |form.after| + (if form.quotes == Bare then 0 else 1)
  {
  }

  // ---------------------------------------------------------------- attributes

  /** The bytes of an attribute from its key on. */
  function FromKey(a: Attribute): seq<Byte> { a.key + a.form.Bytes() }

  /** Where the value of an attribute is, its key being at p: behind the "=" and the quote, or, if there is none, behind
      the key and the byte that ended it. */
  function ValueSpan(s: seq<Byte>, a: Attribute, p: nat): Span
    requires p + |a.key| < |s|
  {
    var q := p + |a.key|;
    if a.form.Given? then Span(ValueStart(a.form, q), ValueStart(a.form, q) + |a.form.value|)
    else var v := if Blank(s[q]) then q + 1 else q; Span(v, v)
  }

  /** What follows an attribute: white space or the end of the tag, and then no "=". */
  predicate Follows(s: seq<Byte>, e: nat) {
    e < |s| && (Blank(s[e]) || s[e] == '>' as int) && (var w := SkipWhite(s, e); w.ok && s[w.pos] != '=' as int)
  }

  /** The key and what follows it, and the byte that ends the key. */
  lemma AttrParts(s: seq<Byte>, p: nat, a: Attribute)
    requires a.Valid() && p + |FromKey(a)| < |s| && s[p..p + |FromKey(a)|] == FromKey(a) && Follows(s, p + |FromKey(a)|)
    ensures var q, e := p + |a.key|, p + |FromKey(a)|;
      && e == q + |a.form.Bytes()| && s[p..q] == a.key && s[q..e] == a.form.Bytes()
      && (Blank(s[q]) || s[q] == '=' as int || s[q] == '>' as int)
      && (a.form.Given? && Blank(s[q]) ==> a.form.before != [])
  {
    var q, e := p + |a.key|, p + |FromKey(a)|;
    Middle(s, p, FromKey(a), 0, |a.key|);
    Middle(s, p, FromKey(a), |a.key|, |FromKey(a)|);
    assert FromKey(a)[..|a.key|] == a.key && FromKey(a)[|a.key|..] == a.form.Bytes();
    if a.form.Given? { FormParts(s, q, a.form); }
  }

  /** An attribute from what its key and its value are read as. */
  lemma AttrAtIs(s: seq<Byte>, p: nat, list: seq<(Span, Span)>, q: nat, k: nat, v: Value, w: Scan)
    requires p < q <= k <= |s| && Until(s, p, AttrKey) == Piece(q, k, true) && AttrVal(s, k) == v && v.pos <= |s|
    requires SkipWhite(s, v.pos) == w
    ensures AttrAt(s, p, true, list) ==
      Attrs(list + [(Span(p, q), v.span)], w.pos, w.ok)
  {
    hide Until, AttrVal, SkipWhite;
  }

  /** What is read behind the key: the value, and then what follows the attribute. */
  lemma ValueOf(s: seq<Byte>, a: Attribute, p: nat, q: nat, e: nat) returns (v: Value)
    requires a.form.Valid() && q == p + |a.key| && e == q + |a.form.Bytes()| && e < |s| && s[q..e] == a.form.Bytes()
    requires Follows(s, e) && (a.form.Given? && Blank(s[q]) ==> a.form.before != [])
    ensures AttrVal(s, if Blank(s[q]) then q + 1 else q) == v && v.span == ValueSpan(s, a, p)
    ensures v.pos <= |s| && SkipWhite(s, v.pos) == SkipWhite(s, e)
    ensures 0 <= v.span.start <= v.span.end <= |s| && s[v.span.start..v.span.end] == a.form.Meaning()
  {
    hide *;
    var k := if Blank(s[q]) then q + 1 else q;
    v := AttrVal(s, k);
    SkipsOn(s, e);
    FollowsOk(s, e);
    SpanIs(s, a, p, q);
    if a.form.Given? {
      ValueReads(s, q, a.form, k);
    } else {
      NoValue(s, q);
    }
  }

  lemma SpanIs(s: seq<Byte>, a: Attribute, p: nat, q: nat)
    requires q == p + |a.key| && q < |s|
    ensures a.form.Given? ==> var v := ValueStart(a.form, q); ValueSpan(s, a, p) == Span(v, v + |a.form.value|)
    ensures a.form.Given? ==> q <= ValueStart(a.form, q) && a.form.Meaning() == a.form.value
    ensures a.form.Absent? ==> a.form.Bytes() == [] == a.form.Meaning()
    ensures a.form.Absent? ==> var v := if Blank(s[q]) then q + 1 else q; ValueSpan(s, a, p) == Span(v, v)
  {
  }

  lemma KeyIsSome(key: seq<Byte>)
    requires IsKey(key)
    ensures key != []
  {
  }

  /** A written attribute is read: its key and its value. */
  lemma AttrReads(s: seq<Byte>, p: nat, a: Attribute, list: seq<(Span, Span)>, e: nat)
    requires a.Valid() && e == p + |FromKey(a)| && e < |s| && s[p..e] == FromKey(a) && Follows(s, e)
    ensures p + |a.key| <= e && s[p..p + |a.key|] == a.key
    ensures AttrAt(s, p, true, list) ==
      Attrs(list + [(Span(p, p + |a.key|), ValueSpan(s, a, p))], SkipWhite(s, e).pos, true)
    ensures var v := ValueSpan(s, a, p); 0 <= v.start <= v.end <= |s| && s[v.start..v.end] == a.form.Meaning()
  {
    AttrParts(s, p, a);
    KeyIsSome(a.key);
    ghost var q := p + |a.key|;
    AttrFrom(s, p, a, list, q, e);
  }

  lemma AttrFrom(s: seq<Byte>, p: nat, a: Attribute, list: seq<(Span, Span)>, q: nat, e: nat)
    requires IsKey(a.key) && a.form.Valid() && p < q == p + |a.key| && e == q + |a.form.Bytes()| && e < |s|
    requires Follows(s, e)
    requires s[p..q] == a.key && s[q..e] == a.form.Bytes() && (Blank(s[q]) || s[q] == '=' as int || s[q] == '>' as int)
    requires a.form.Given? && Blank(s[q]) ==> a.form.before != []
    ensures AttrAt(s, p, true, list) == Attrs(list + [(Span(p, q), ValueSpan(s, a, p))], SkipWhite(s, e).pos, true)
    ensures var v := ValueSpan(s, a, p); 0 <= v.start <= v.end <= |s| && s[v.start..v.end] == a.form.Meaning()
  {
    hide *;
    var k := if Blank(s[q]) then q + 1 else q;
    KeyReads(s, p, a.key);
    var v := ValueOf(s, a, p, q, e);
    FollowsOk(s, e);
    AttrAtIs(s, p, list, q, k, v, SkipWhite(s, e));
  }

  lemma FollowsOk(s: seq<Byte>, e: nat)
    requires Follows(s, e)
    ensures e < |s| && SkipWhite(s, e).ok && (Blank(s[e]) || s[e] == '>' as int) && e <= SkipWhite(s, e).pos <= |s|
  {
  }

  /** Where no "=" follows there is no value. */
  lemma {:induction false} NoValue(s: seq<Byte>, q: nat)
    requires Follows(s, q)
    ensures var k := if Blank(s[q]) then q + 1 else q;
      && AttrVal(s, k) == Value(Span(k, k), SkipWhite(s, q).pos, true)
      && SkipWhite(s, SkipWhite(s, q).pos) == SkipWhite(s, q)
  {
    SkipsOn(s, q);
    SkipsOnce(s, q);
  }

  lemma {:induction false} SkipsOnce(s: seq<Byte>, q: nat)
    requires q <= |s| && SkipWhite(s, q).ok
    ensures SkipWhite(s, SkipWhite(s, q).pos) == SkipWhite(s, q)
    decreases |s| - q
  {
    if q < |s| && White(s[q]) { SkipsOnce(s, q + 1); }
  }

  // ---------------------------------------------------------------- tags

  /** The end of a tag: white space, perhaps a "/", and ">". */
  function EndBytes(gap: seq<Byte>,
                    slash: bool): seq<Byte> { gap + (if slash then ['/' as int] else []) + ['>' as int] }

  /** Attributes, the end of the tag, and what stands behind it. */
  function Rest(attrs: seq<Attribute>, gap: seq<Byte>, slash: bool, behind: seq<Byte>): seq<Byte> {
    if attrs == [] then EndBytes(gap, slash) + behind else attrs[0].Bytes() + Rest(attrs[1..], gap, slash, behind)
  }

  /** The end of a tag is apart from its last attribute. */
  predicate Apart(attrs: seq<Attribute>, gap: seq<Byte>, slash: bool) {
    Blanks(gap) && (slash && attrs != [] ==> gap != [])
  }

  predicate AllValid(attrs: seq<Attribute>) { forall i :: 0 <= i < |attrs| ==> attrs[i].Valid() }

  /** The bytes at some spans are the keys and the values of attributes. */
  ghost predicate Say(s: seq<Byte>, spans: seq<(Span, Span)>, attrs: seq<Attribute>) {
    |spans| == |attrs| && forall i :: 0 <= i < |attrs| ==> SaysOne(s, spans[i], attrs[i])
  }

  predicate SaysOne(s: seq<Byte>, span: (Span, Span), a: Attribute) {
    && 0 <= span.0.start <= span.0.end <= |s| && s[span.0.start..span.0.end] == a.key
    && 0 <= span.1.start <= span.1.end <= |s| && s[span.1.start..span.1.end] == a.form.Meaning()
  }

  lemma Suffix(s: seq<Byte>, p: nat, a: seq<Byte>, b: seq<Byte>)
    requires p <= |s| && s[p..] == a + b
    ensures p + |a| <= |s| && s[p..p + |a|] == a && s[p + |a|..] == b
  {
    assert (a + b)[..|a|] == a && (a + b)[|a|..] == b;
    assert s[p..p + |a|] == s[p..][..|a|] && s[p + |a|..] == s[p..][|a|..];
  }

  lemma SkipsAll(s: seq<Byte>, p: nat, blanks: seq<Byte>, rest: seq<Byte>)
    requires p <= |s| && Blanks(blanks) && rest != [] && !Blank(rest[0]) && s[p..] == blanks + rest
    ensures p + |blanks| < |s| && SkipWhite(s, p) == Scan(p + |blanks|, true) && s[p + |blanks|] == rest[0]
  {
    Suffix(s, p, blanks, rest);
    assert s[p + |blanks|] == s[p + |blanks|..][0];
    forall i | p <= i < p + |blanks| ensures Blank(s[i]) { Within(s, p, blanks, i); }
    SkipsBlanks(s, p, p + |blanks|);
  }

  /** What the attributes and the end of a tag begin with. */
  lemma {:induction false} RestBegins(attrs: seq<Attribute>, gap: seq<Byte>, slash: bool, behind: seq<Byte>)
      returns (blanks: seq<Byte>, more: seq<Byte>)
    requires AllValid(attrs) && Apart(attrs, gap, slash)
    ensures Rest(attrs, gap, slash, behind) == blanks + more && Blanks(blanks)
    ensures blanks == (if attrs == [] then gap else attrs[0].space) && more != [] && !Blank(more[0])
    ensures if attrs == [] then more == (if slash then ['/' as int] else []) + ['>' as int] + behind
            else more == FromKey(attrs[0]) + Rest(attrs[1..], gap, slash, behind)
    ensures more[0] != '=' as int
  {
    if attrs == [] {
      blanks, more := gap, (if slash then ['/' as int] else []) + ['>' as int] + behind;
    } else {
      var a := attrs[0];
      blanks, more := a.space, FromKey(a) + Rest(attrs[1..], gap, slash, behind);
      assert a.Valid() && more[0] == a.key[0];
    }
  }

  /** Behind an attribute come white space or ">", and then no "=". */
  lemma {:induction false} RestFollows(s: seq<Byte>, e: nat, attrs: seq<Attribute>, gap: seq<Byte>, slash: bool,
                                       behind: seq<Byte>)
    requires AllValid(attrs) && Blanks(gap) && (slash && attrs == [] ==> gap != []) && Apart(attrs, gap, slash)
    requires e <= |s| && s[e..] == Rest(attrs, gap, slash, behind)
    ensures Follows(s, e)
  {
    var blanks, more := RestBegins(attrs, gap, slash, behind);
    SkipsAll(s, e, blanks, more);
    if blanks != [] {
      Suffix(s, e, blanks, more);
      Within(s, e, blanks, e);
    }
    assert attrs != [] ==> attrs[0].Valid();
  }

  /** One attribute, and then the others. */
  lemma {:induction false} TagAttrsNext(s: seq<Byte>, k: nat, list: seq<(Span, Span)>, a: Attrs)
    requires k < |s| && s[k] != '>' as int && AttrAt(s, k, true, list) == a && a.ok && k < a.pos <= |s|
    ensures TagAttrs(s, k, true, list) == TagAttrs(s, a.pos, true, a.list)
  {
  }

  /** The end of a tag, with or without a "/", adds no attribute. */
  lemma {:induction false} TagEnds(s: seq<Byte>, k: nat, slash: bool, behind: seq<Byte>, list: seq<(Span, Span)>)
    requires k <= |s| && s[k..] == (if slash then ['/' as int] else []) + ['>' as int] + behind
    ensures TagAttrs(s, k, true, list) == Attrs(list, |s| - |behind|, true)
    ensures |s| - |behind| >= k + 1 && (slash <==> s[k] == '/' as int) && (slash ==> |s| - |behind| == k + 2)
  {
    assert s[k] == s[k..][0];
    if slash {
      assert s[k + 1] == s[k..][1];
      EndsThere(s, k, k, AttrKey);
      SkipsBlanks(s, k + 1, k + 1);
      hide Until;
      assert AttrAt(s, k, true, list) == Attrs(list, k + 1, true);
      TagAttrsNext(s, k, list, Attrs(list, k + 1, true));
    }
  }

  lemma SaysIs(s: seq<Byte>, span: (Span, Span), a: Attribute)
    requires 0 <= span.0.start <= span.0.end <= |s| && s[span.0.start..span.0.end] == a.key
    requires 0 <= span.1.start <= span.1.end <= |s| && s[span.1.start..span.1.end] == a.form.Meaning()
    ensures SaysOne(s, span, a)
  {
  }

  lemma SayMore(s: seq<Byte>, span: (Span, Span), a: Attribute, spans: seq<(Span, Span)>, attrs: seq<Attribute>)
    requires attrs != [] && a == attrs[0] && SaysOne(s, span, a) && Say(s, spans, attrs[1..])
    ensures Say(s, [span] + spans, attrs)
  {
    hide SaysOne;
    forall i | 0 <= i < |attrs| ensures SaysOne(s, ([span] + spans)[i], attrs[i]) {
      if i > 0 { assert SaysOne(s, spans[i - 1], attrs[1..][i - 1]); }
    }
  }

  /** Where the first of some written attributes is, and where the others begin. */
  lemma {:induction false} FirstPlace(s: seq<Byte>, p: nat, attrs: seq<Attribute>, gap: seq<Byte>, slash: bool,
                                      behind: seq<Byte>) returns (k: nat, e: nat)
    requires AllValid(attrs) && Apart(attrs, gap, slash) && attrs != []
    requires p <= |s| && s[p..] == Rest(attrs, gap, slash, behind)
    ensures p <= k < e < |s| && SkipWhite(s, p) == Scan(k, true) && e == k + |FromKey(attrs[0])|
    ensures s[k] != '>' as int && s[k..e] == FromKey(attrs[0]) && s[e..] == Rest(attrs[1..], gap, slash, behind)
    ensures Follows(s, e)
  {
    hide *;
    var first, others := FromKey(attrs[0]), Rest(attrs[1..], gap, slash, behind);
    var blanks, more := RestBegins(attrs, gap, slash, behind);
    OthersValid(attrs, gap, slash);
    SkipsAll(s, p, blanks, more);
    Places(s, p, blanks, first, others);
    k, e := p + |blanks|, p + |blanks| + |first|;
    ApartGap(attrs, gap, slash);
    RestFollows(s, e, attrs[1..], gap, slash, behind);
    FollowsOk(s, e);
  }

  lemma Places(s: seq<Byte>, p: nat, blanks: seq<Byte>, first: seq<Byte>, others: seq<Byte>)
    requires p <= |s| && s[p..] == blanks + (first + others) && first != []
    ensures var k := p + |blanks|; var e := k + |first|;
      e <= |s| && s[k..e] == first && s[e..] == others && s[k] == first[0]
  {
    Suffix(s, p, blanks, first + others);
    Suffix(s, p + |blanks|, first, others);
    Within(s, p + |blanks|, first, p + |blanks|);
  }

  lemma ApartGap(attrs: seq<Attribute>, gap: seq<Byte>, slash: bool)
    requires Apart(attrs, gap, slash) && attrs != []
    ensures Blanks(gap) && (slash ==> gap != [])
  {
  }

  lemma {:induction false} FirstRead(s: seq<Byte>, p: nat, attrs: seq<Attribute>, gap: seq<Byte>, slash: bool,
                                     behind: seq<Byte>, list: seq<(Span, Span)>) returns (span: (Span, Span), e: nat)
    requires AllValid(attrs) && Apart(attrs, gap, slash) && attrs != []
    requires p <= |s| && s[p..] == Rest(attrs, gap, slash, behind)
    ensures p < e <= |s| && s[e..] == Rest(attrs[1..], gap, slash, behind) && SaysOne(s, span, attrs[0])
    ensures SkipWhite(s, p).ok && SkipWhite(s, e).ok
    ensures TagAttrs(s, SkipWhite(s, p).pos, true, list) == TagAttrs(s, SkipWhite(s, e).pos, true, list + [span])
  {
    hide *;
    var a := attrs[0];
    OthersValid(attrs, gap, slash);
    var k;
    k, e := FirstPlace(s, p, attrs, gap, slash, behind);
    FollowsOk(s, e);
    AttrReads(s, k, a, list, e);
    span := (Span(k, k + |a.key|), ValueSpan(s, a, k));
    SaysIs(s, span, a);
    TagAttrsNext(s, k, list, Attrs(list + [span], SkipWhite(s, e).pos, true));
  }

  lemma {:induction false} NoneRead(s: seq<Byte>, p: nat, gap: seq<Byte>, slash: bool, behind: seq<Byte>,
                                    list: seq<(Span, Span)>)
    requires AllValid([]) && Apart([], gap, slash) && p <= |s| && s[p..] == Rest([], gap, slash, behind)
    ensures SkipWhite(s, p).ok && |behind| < |s|
    ensures TagAttrs(s, SkipWhite(s, p).pos, true, list) == Attrs(list, |s| - |behind|, true)
  {
    hide *;
    var blanks, more := RestBegins([], gap, slash, behind);
    SkipsAll(s, p, blanks, more);
    Suffix(s, p, blanks, more);
    TagEnds(s, p + |blanks|, slash, behind, list);
  }

  lemma OthersValid(attrs: seq<Attribute>, gap: seq<Byte>, slash: bool)
    requires AllValid(attrs) && Apart(attrs, gap, slash) && attrs != []
    ensures attrs[0].Valid() && AllValid(attrs[1..]) && Apart(attrs[1..], gap, slash)
    ensures FromKey(attrs[0]) != [] && FromKey(attrs[0])[0] != '>' as int
  {
    assert attrs[0].Valid() && FromKey(attrs[0])[0] == attrs[0].key[0];
    hide Attribute.Valid;
  }

  /** Written attributes are read, in order, up to the end of the tag. */
  lemma {:induction false} TagAttrsRead(s: seq<Byte>, p: nat, attrs: seq<Attribute>, gap: seq<Byte>, slash: bool,
                                        behind: seq<Byte>, list: seq<(Span, Span)>) returns (spans: seq<(Span, Span)>)
    requires AllValid(attrs) && Apart(attrs, gap, slash) && p <= |s| && s[p..] == Rest(attrs, gap, slash, behind)
    ensures Say(s, spans, attrs) && SkipWhite(s, p).ok && |behind| < |s|
    ensures TagAttrs(s, SkipWhite(s, p).pos, true, list) == Attrs(list + spans, |s| - |behind|, true)
    decreases |attrs|
  {
    hide Rest, AllValid, Apart, SaysOne, TagAttrs, SkipWhite;
    if attrs == [] {
      NoneRead(s, p, gap, slash, behind, list);
      spans := [];
      assert list + spans == list;
    } else {
      OthersValid(attrs, gap, slash);
      var span, e := FirstRead(s, p, attrs, gap, slash, behind, list);
      var more := TagAttrsRead(s, e, attrs[1..], gap, slash, behind, list + [span]);
      SayMore(s, span, attrs[0], more, attrs);
      hide Say;
      spans := [span] + more;
      assert list + [span] + more == list + spans;
    }
  }

  /** The last attribute ends in "/", which its value must then do, and the tag directly behind it. */
  predicate EndsInSlash(attrs: seq<Attribute>, gap: seq<Byte>) {
    && gap == [] && attrs != []
    && var form := attrs[|attrs| - 1].form;
    form.Given? && form.quotes == Bare && form.value != [] && form.value[|form.value| - 1] == '/' as int
  }

  lemma LastOfAttribute(a: Attribute)
    requires a.Valid()
    ensures var b := a.Bytes(); b != [] && (b[|b| - 1] == '/' as int <==> EndsInSlash([a], []))
  {
    var b := a.Bytes();
    if a.form.Given? {
      var w := a.form.Quoting();
      assert w[|w| - 1] == b[|b| - 1];
    } else {
      assert b == a.space + a.key;
    }
  }

  lemma FromTheBack(front: seq<Byte>, s: seq<Byte>, n: nat)
    requires 0 < n <= |s|
    ensures (front + s)[|front + s| - n] == s[|s| - n]
  {
  }

  lemma JoinRest(front: seq<Byte>, attrs: seq<Attribute>, gap: seq<Byte>, slash: bool, behind: seq<Byte>)
    requires attrs != []
    ensures front + Rest(attrs, gap, slash, behind) == (front + attrs[0].Bytes()) + Rest(attrs[1..], gap, slash, behind)
  {
  }

  /** Whether a "/" stands before the ">", if the last byte of what comes before the attributes is c. */
  predicate Slashed(c: Byte, attrs: seq<Attribute>, gap: seq<Byte>, slash: bool) {
    slash || EndsInSlash(attrs, gap) || (gap == [] && attrs == [] && c == '/' as int)
  }

  lemma SlashedOn(c: Byte, attrs: seq<Attribute>, gap: seq<Byte>, slash: bool)
    requires attrs != [] && AllValid(attrs)
    ensures var b := attrs[0].Bytes();
      b != [] && AllValid(attrs[1..]) && Slashed(c, attrs, gap, slash) == Slashed(b[|b| - 1], attrs[1..], gap, slash)
  {
    assert attrs[0].Valid();
    LastOfAttribute(attrs[0]);
    hide Attribute.Bytes, Attribute.Valid;
  }

  /** Before the ">" stands the "/" that was written there, or that of a bare value, or what ended the front. */
  lemma {:induction false} BeforeTheEnd(front: seq<Byte>, attrs: seq<Attribute>, gap: seq<Byte>, slash: bool,
                                        behind: seq<Byte>)
    requires front != [] && AllValid(attrs) && Blanks(gap)
    ensures var s := front + Rest(attrs, gap, slash, behind);
      && |s| - |behind| >= 2
      && (s[|s| - |behind| - 2] == '/' as int <==> Slashed(front[|front| - 1], attrs, gap, slash))
    decreases |attrs|
  {
    hide *;
    if attrs == [] {
      NothingBeforeTheEnd(front, gap, slash, behind);
    } else {
      var b := attrs[0].Bytes();
      SlashedOn(front[|front| - 1], attrs, gap, slash);
      JoinRest(front, attrs, gap, slash, behind);
      FromTheBack(front, b, 1);
      BeforeTheEnd(front + b, attrs[1..], gap, slash, behind);
    }
  }

  lemma NothingSlashed(c: Byte, gap: seq<Byte>, slash: bool)
    ensures Slashed(c, [], gap, slash) <==> slash || (gap == [] && c == '/' as int)
  {
  }

  lemma RestOfNothing(gap: seq<Byte>, slash: bool, behind: seq<Byte>)
    ensures Rest([], gap, slash, behind) ==
      gap + ((if slash then ['/' as int] else []) + (['>' as int] + behind))
  {
  }

  lemma BlankIsNoSlash(gap: seq<Byte>)
    requires Blanks(gap) && gap != []
    ensures gap[|gap| - 1] != '/' as int
  {
  }

  lemma {:induction false} NothingBeforeTheEnd(front: seq<Byte>, gap: seq<Byte>, slash: bool, behind: seq<Byte>)
    requires front != [] && Blanks(gap)
    ensures var s := front + Rest([], gap, slash, behind);
      |s| - |behind| >= 2 &&
      (s[|s| - |behind| - 2] == '/' as int <==> Slashed(front[|front| - 1], [], gap, slash))
  {
    hide *;
    RestOfNothing(gap, slash, behind);
    NothingSlashed(front[|front| - 1], gap, slash);
    if gap != [] { BlankIsNoSlash(gap); }
    var tail := ['>' as int] + behind;
    if slash {
      assert front + Rest([], gap, slash, behind) == front + gap + ['/' as int] + tail;
    } else {
      assert front + Rest([], gap, slash, behind) == front + gap + tail;
    }
  }

  /** The name of a tag, and where its attributes begin. */
  lemma {:induction false} NamePlace(s: seq<Byte>, p: nat, name: seq<Byte>, attrs: seq<Attribute>, gap: seq<Byte>,
                                     slash: bool, behind: seq<Byte>)
    requires IsName(name) && AllValid(attrs) && Apart(attrs, gap, slash)
    requires p <= |s| && s[p..] == name + Rest(attrs, gap, slash, behind)
    ensures var q := p + |name|;
      && q < |s| && s[p..q] == name && s[q..] == Rest(attrs, gap, slash, behind)
      && (Blank(s[q]) || s[q] == '/' as int || s[q] == '>' as int)
  {
    hide *;
    NameIsSome(name);
    Suffix(s, p, name, Rest(attrs, gap, slash, behind));
    Middle(s, p, name, 0, |name|);
    assert name[0..|name|] == name;
    RestStarts(s, p + |name|, attrs, gap, slash, behind);
  }

  /** What stands directly behind the name. */
  lemma {:induction false} RestStarts(s: seq<Byte>, q: nat, attrs: seq<Attribute>, gap: seq<Byte>, slash: bool,
                                      behind: seq<Byte>)
    requires AllValid(attrs) && Apart(attrs, gap, slash) && q <= |s| && s[q..] == Rest(attrs, gap, slash, behind)
    ensures q < |s| && (Blank(s[q]) || s[q] == '/' as int || s[q] == '>' as int)
  {
    var blanks, more := RestBegins(attrs, gap, slash, behind);
    assert attrs != [] ==> attrs[0].Valid();
    assert attrs == [] ==> more[0] == '/' as int || more[0] == '>' as int;
    hide Rest, FromKey, EndBytes;
    SkipsAll(s, q, blanks, more);
    if blanks != [] {
      Suffix(s, q, blanks, more);
      Within(s, q, blanks, q);
    }
  }

  /** A written tag is read: its name, its attributes, and where it ends. */
  lemma {:induction false} BodyReads(s: seq<Byte>, p: nat, name: seq<Byte>, attrs: seq<Attribute>, gap: seq<Byte>,
                                     slash: bool, behind: seq<Byte>) returns (spans: seq<(Span, Span)>)
    requires IsName(name) && AllValid(attrs) && Apart(attrs, gap, slash)
    requires p <= |s| && s[p..] == name + Rest(attrs, gap, slash, behind)
    ensures |behind| < |s| && p < |s| && Say(s, spans, attrs)
    ensures TagBody(s, p + 1, true) == Tag(Span(p, p + |name|), spans, |s| - |behind|, true)
  {
    hide Rest, AllValid, Apart, Say, TagAttrs, IsName, Blank;
    var q := p + |name|;
    NamePlace(s, p, name, attrs, gap, slash, behind);
    NameIsSome(name);
    NameReads(s, p, name);
    SkipsOn(s, q);
    spans := TagAttrsRead(s, q, attrs, gap, slash, behind, []);
    assert [] + spans == spans;
  }

  lemma NameIsSome(name: seq<Byte>)
    requires IsName(name)
    ensures name != [] && Letter(name[0])
  {
  }

  lemma TagIsNext(s: seq<Byte>, p: nat, cdata: bool)
    requires p + 2 <= |s| && s[p] == '<' as int && Letter(s[p + 1])
    ensures NextToken(s, p, [], cdata).token == StartTag(s, p)
  {
    assert MarkupStart(s, p) == p;
    hide StartTag;
  }

  lemma StartIs(s: seq<Byte>, p: nat, b: Tag)
    requires p + 2 <= |s| && TagBody(s, p + 2, true) == b && b.ok && b.pos <= |s|
    ensures b.pos >= 2 && StartTag(s, p) ==
      Token(if s[b.pos - 2] == '/' as int then SelfClosingTagToken else StartTagToken, b.data, b.attrs, b.pos, true)
  {
    hide TagBody;
  }

  /** Every start tag that can be written is read as what it says: its name is the name, and its attributes have the
      keys and the values that they were given, in order; it closes itself if it ends in "/>". */
  lemma {:induction false} TagReads(before: seq<Byte>, name: seq<Byte>, attrs: seq<Attribute>, gap: seq<Byte>,
                                    slash: bool,
                                    behind: seq<Byte>, cdata: bool)
    requires IsName(name) && AllValid(attrs) && Apart(attrs, gap, slash)
    ensures var s := before + (['<' as int] + name + Rest(attrs, gap, slash, behind));
      var t := NextToken(s, |before|, [], cdata).token;
      && t.ok && t.pos == |s| - |behind| && t.data == Span(|before| + 1, |before| + 1 + |name|)
      && Say(s, t.attrs, attrs)
      && t.tt == if slash || EndsInSlash(attrs, gap) then SelfClosingTagToken else StartTagToken
  {
    hide *;
    var p := |before|;
    var w := ['<' as int] + name + Rest(attrs, gap, slash, behind);
    var s := before + w;
    assert s[p + 1..] == name + Rest(attrs, gap, slash, behind);
    var spans := BodyReads(s, p + 1, name, attrs, gap, slash, behind);
    NameIsSome(name);
    assert s[p] == w[0] && s[p + 1] == w[1] && w[1] == name[0];
    TagCloses(name, attrs, gap, slash, behind);
    FromTheBack(before, w, |behind| + 2);
    TagIsNext(s, p, cdata);
    StartIs(s, p, Tag(Span(p + 1, p + 1 + |name|), spans, |s| - |behind|, true));
  }

  lemma {:induction false} TagCloses(name: seq<Byte>, attrs: seq<Attribute>, gap: seq<Byte>, slash: bool,
                                     behind: seq<Byte>)
    requires IsName(name) && AllValid(attrs) && Apart(attrs, gap, slash)
    ensures var w := ['<' as int] + name + Rest(attrs, gap, slash, behind);
      |w| - |behind| >= 2 && (w[|w| - |behind| - 2] == '/' as int <==> slash || EndsInSlash(attrs, gap))
  {
    var front := ['<' as int] + name;
    assert front[|front| - 1] == name[|name| - 1];
    hide Rest, AllValid;
    BeforeTheEnd(front, attrs, gap, slash, behind);
  }

  // ---------------------------------------------------------------- end tags

  /** Whether attributes are saved changes nothing but what is saved. */
  lemma {:induction false} SavingOnlySaves(s: seq<Byte>, p: nat, saved: seq<(Span, Span)>, list: seq<(Span, Span)>)
    requires p <= |s|
    ensures TagAttrs(s, p, false, list) == TagAttrs(s, p, true, saved).(list := list)
    decreases |s| - p
  {
    if p < |s| && s[p] != GT {
      var a := AttrAt(s, p, true, saved);
      assert AttrAt(s, p, false, list) == a.(list := list);
      hide AttrAt;
      if a.ok { SavingOnlySaves(s, a.pos, a.list, list); }
    }
  }

  lemma BodyUnsaved(s: seq<Byte>, p: nat)
    requires 1 <= p <= |s|
    ensures TagBody(s, p, false) == TagBody(s, p, true).(attrs := [])
  {
    SavingOnlySaves(s, SkipWhite(s, Until(s, p, TagName).pos).pos, [], []);
    hide TagAttrs;
  }

  lemma EndIsNext(s: seq<Byte>, p: nat, cdata: bool)
    requires p + 3 <= |s| && s[p] == '<' as int && s[p + 1] == '/' as int && Letter(s[p + 2])
    ensures var b := TagBody(s, p + 3, false);
      NextToken(s, p, [], cdata).token == Token(if b.ok then EndTagToken else ErrorToken, b.data, b.attrs, b.pos, b.ok)
  {
    assert MarkupStart(s, p) == p;
    hide TagBody;
  }

  /** Every end tag that can be written is read as one: its name is the name, its attributes are read over, and a "/"
      before its ">" says nothing. */
  lemma {:induction false} EndTagReads(before: seq<Byte>, name: seq<Byte>, attrs: seq<Attribute>, gap: seq<Byte>,
                                       slash: bool, behind: seq<Byte>, cdata: bool)
    requires IsName(name) && AllValid(attrs) && Apart(attrs, gap, slash)
    ensures var s := before + (['<' as int, '/' as int] + name + Rest(attrs, gap, slash, behind));
      var t := NextToken(s, |before|, [], cdata).token;
      && t.ok && t.pos == |s| - |behind| && t.data == Span(|before| + 2, |before| + 2 + |name|)
      && t.attrs == [] && t.tt == EndTagToken
  {
    hide *;
    var p := |before|;
    var w := ['<' as int, '/' as int] + name + Rest(attrs, gap, slash, behind);
    var s := before + w;
    assert s[p + 2..] == name + Rest(attrs, gap, slash, behind);
    var spans := BodyReads(s, p + 2, name, attrs, gap, slash, behind);
    NameIsSome(name);
    assert s[p] == w[0] && s[p + 1] == w[1] && s[p + 2] == w[2] && w[2] == name[0];
    BodyUnsaved(s, p + 3);
    EndIsNext(s, p, cdata);
  }
}

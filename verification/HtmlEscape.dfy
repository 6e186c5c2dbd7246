/** HTML character references (net/html/escape.go) and newline conversion (net/html/token.go): the
    decoders work in place, with a read and a write cursor in one buffer. */
module HtmlEscape {
  import opened ByteSeqs
  import opened Machine
  import opened Utf8

  const AMP: Byte := 38
  const QUOTE: Byte := 34
  const APOS: Byte := 39
  const LT: Byte := 60
  const GT: Byte := 62
  const CR: Byte := 13
  const LF: Byte := 10
  const SEMI: Byte := 59
  const HASH: Byte := 35
  const EQUALS: Byte := 61
  const LONGEST_WITHOUT_SEMICOLON := 6

  /** The tables of named references; a name is written without its "&" and may end in ";".  No
      value is 0, which in the source means that there is no entry. */
  datatype Tables = Tables(entity: map<seq<Byte>, int>, entity2: map<seq<Byte>, (int, int)>) {
    /** No reference is longer in UTF-8 than in its written form. */
    ghost predicate Narrow() {
      && (forall name :: name in entity ==> |EncodeRune(entity[name])| <= 1 + |name|)
      && (forall name :: name in entity2 ==>
        |EncodeRune(entity2[name].0)| + |EncodeRune(entity2[name].1)| <= 1 + |name|)
    }

    /** The three names that escaping writes. */
    ghost predicate HasBasics() {
      && AMP_NAME in entity && entity[AMP_NAME] == AMP
      && LT_NAME in entity && entity[LT_NAME] == LT
      && GT_NAME in entity && entity[GT_NAME] == GT
    }
  }

  // "amp;", "lt;" and "gt;"
  const AMP_NAME: seq<Byte> := [97, 109, 112, 59]
  const LT_NAME: seq<Byte> := [108, 116, 59]
  const GT_NAME: seq<Byte> := [103, 116, 59]

  predicate IsDigit(c: Byte) { 48 <= c <= 57 }

  predicate IsAlnum(c: Byte) {
    97 <= c <= 122 || 65 <= c <= 90 || IsDigit(c)
  }

  // ---------------------------------------------------------------- one reference

  /** The value of a digit, or -1. */
  function DigitValue(c: Byte, hex: bool): int {
    if IsDigit(c) then c - 48
    else if hex && 97 <= c <= 102 then c - 97 + 10
    else if hex && 65 <= c <= 70 then c - 65 + 10
    else -1
  }

  /** Reads digits from position i: the value, in int32 arithmetic, and the position after them and
      after a closing ";". */
  function Number(s: seq<Byte>, i: nat, hex: bool, x: int): (r: (int, nat))
    requires i <= |s|
    ensures i <= r.1 <= |s|
    decreases |s| - i
  {
    if i == |s| then (x, i)
    else if DigitValue(s[i], hex) >= 0 then
      Number(s, i + 1, hex, Wrap32((if hex then 16 else 10) * x + DigitValue(s[i], hex)))
    else if s[i] == SEMI then (x, i + 1)
    else (x, i)
  }

  const REPLACEMENTS: seq<int> := [
    0x20AC, 0x0081, 0x201A, 0x0192, 0x201E, 0x2026, 0x2020, 0x2021,
    0x02C6, 0x2030, 0x0160, 0x2039, 0x0152, 0x008D, 0x017D, 0x008F,
    0x0090, 0x2018, 0x2019, 0x201C, 0x201D, 0x2022, 0x2013, 0x2014,
    0x02DC, 0x2122, 0x0161, 0x203A, 0x0153, 0x009D, 0x017E, 0x0178]

  function Sanitized(x: int): int {
    if 0x80 <= x <= 0x9F then REPLACEMENTS[x - 0x80]
    else if x == 0 || 0xD800 <= x <= 0xDFFF || x > 0x10FFFF then 0xFFFD
    else x
  }

  /** The end of a name that starts at i: letters and digits, then perhaps ";". */
  function NameEnd(s: seq<Byte>, i: nat): (e: nat)
    requires i <= |s|
    ensures i <= e <= |s|
    decreases |s| - i
  {
    if i == |s| then i
    else if IsAlnum(s[i]) then NameEnd(s, i + 1)
    else if s[i] == SEMI then i + 1
    else i
  }

  /** The longest prefix of name, of at most j and at least two letters, that is an entity; 0 if
      there is none. */
  function PrefixEntity(t: Tables, name: seq<Byte>, j: int): (k: nat)
    requires j <= |name|
    ensures k != 0 ==> k <= j && name[..k] in t.entity
    decreases j
  {
    if j <= 1 then 0 else if name[..j] in t.entity then j else PrefixEntity(t, name, j - 1)
  }

  /** What one "&" and the name behind it, up to i, stand for, and how many bytes that is. */
  function Named(t: Tables, s: seq<Byte>, i: nat, attribute: bool): (r: (seq<Byte>, nat))
    requires 1 <= i <= |s|
    ensures 1 <= r.1 <= |s|
  {
    var name := s[1..i];
    if name == [] then (s[..i], i)
    else if attribute && name[|name| - 1] != SEMI && |s| > i && s[i] == EQUALS then (s[..i], i)
    else if name in t.entity then (EncodeRune(t.entity[name]), i)
    else if name in t.entity2 then (EncodeRune(t.entity2[name].0) + EncodeRune(t.entity2[name].1), i)
    else if attribute then (s[..i], i)
    else
      var j := PrefixEntity(t, name, Min(|name| - 1, LONGEST_WITHOUT_SEMICOLON));
      if j == 0 then (s[..i], i) else (EncodeRune(t.entity[name[..j]]), j + 1)
  }

  /** What one "&" and what follows stand for, and how many bytes that is. */
  function Reference(t: Tables, s: seq<Byte>, attribute: bool): (r: (seq<Byte>, nat))
    requires s != []
    ensures 1 <= r.1 <= |s|
  {
    if |s| <= 1 then (s[..1], 1)
    else if s[1] == HASH then
      if |s| <= 3 then (s[..1], 1) else
      var hex := s[2] == 120 || s[2] == 88;
      var (x, i) := Number(s, if hex then 3 else 2, hex, 0);
      if i <= 3 then (s[..1], 1) else (EncodeRune(Sanitized(x)), i)
    else Named(t, s, NameEnd(s, 1), attribute)
  }

  /** With narrow tables no reference grows. */
  lemma ReferenceNarrow(t: Tables, s: seq<Byte>, attribute: bool)
    requires s != [] && t.Narrow()
    ensures |Reference(t, s, attribute).0| <= Reference(t, s, attribute).1
  {
  }

  /** Unescaping, out of place. */
  function Unescaped(t: Tables, s: seq<Byte>, attribute: bool): (u: seq<Byte>)
    decreases |s|
  {
    if s == [] then []
    else if s[0] == AMP then
      var (out, n) := Reference(t, s, attribute);
      out + Unescaped(t, s[n..], attribute)
    else [s[0]] + Unescaped(t, s[1..], attribute)
  }

  /** Unescaping from position i on, behind what is already written. */
  function UnescapedOnto(t: Tables, s: seq<Byte>, i: nat, attribute: bool, out: seq<Byte>): seq<Byte>
    requires i <= |s|
    decreases |s| - i
  {
    if i == |s| then out
    else if s[i] == AMP then
      var (text, n) := Reference(t, s[i..], attribute);
      UnescapedOnto(t, s, i + n, attribute, out + text)
    else UnescapedOnto(t, s, i + 1, attribute, out + [s[i]])
  }

  lemma UnescapedStep(t: Tables, s: seq<Byte>, i: nat, attribute: bool, out: seq<Byte>)
    returns (text: seq<Byte>, n: nat)
    requires i < |s|
    ensures 0 < n <= |s| - i
    ensures UnescapedOnto(t, s, i, attribute, out) == UnescapedOnto(t, s, i + n, attribute, out + text)
    ensures Unescaped(t, s[i..], attribute) == text + Unescaped(t, s[i + n..], attribute)
  {
    hide Reference;
    if s[i] == AMP {
      var reference := Reference(t, s[i..], attribute);
      text, n := reference.0, reference.1;
    } else {
      text, n := [s[i]], 1;
    }
    assert s[i..][n..] == s[i + n..];
  }

  lemma {:induction false} OntoIsUnescaped(t: Tables, s: seq<Byte>, i: nat, attribute: bool, out: seq<Byte>)
    requires i <= |s|
    ensures UnescapedOnto(t, s, i, attribute, out) == out + Unescaped(t, s[i..], attribute)
    decreases |s| - i
  {
    if i < |s| {
      var text, n := UnescapedStep(t, s, i, attribute, out);
      OntoIsUnescaped(t, s, i + n, attribute, out + text);
      Associates(out, text, Unescaped(t, s[i + n..], attribute));
    }
  }

  // ---------------------------------------------------------------- in place

  /** The source's digit loop. */
  method ReadNumber(s: seq<Byte>, start: nat, hex: bool) returns (x: int, i: nat)
    requires start <= |s|
    ensures (x, i) == Number(s, start, hex, 0)
  {
    x, i := 0, start;
    while i < |s|
      invariant start <= i <= |s|
      invariant Number(s, i, hex, x) == Number(s, start, hex, 0)
      decreases |s| - i
    {
      var c := s[i];
      i := i + 1;
      var d := DigitValue(c, hex);
      if d >= 0 {
        x := Wrap32((if hex then 16 else 10) * x + d);
        continue;
      }
      if c != SEMI { i := i - 1; }
      break;
    }
  }

  /** The source's name loop. */
  method ReadName(s: seq<Byte>, start: nat) returns (i: nat)
    requires start <= |s|
    ensures i == NameEnd(s, start)
  {
    i := start;
    while i < |s|
      invariant start <= i <= |s|
      invariant NameEnd(s, i) == NameEnd(s, start)
      decreases |s| - i
    {
      var c := s[i];
      i := i + 1;
      if IsAlnum(c) { continue; }
      if c != SEMI { i := i - 1; }
      break;
    }
  }

  /** The source's loop over ever shorter prefixes. */
  method LongestPrefix(t: Tables, name: seq<Byte>, maxLen: int) returns (j: nat)
    requires maxLen <= |name|
    ensures j == PrefixEntity(t, name, maxLen)
  {
    var i := maxLen;
    while i > 1
      invariant i <= maxLen
      invariant PrefixEntity(t, name, i) == PrefixEntity(t, name, maxLen)
      decreases i
    {
      if name[..i] in t.entity { return i; }
      i := i - 1;
    }
    j := 0;
  }

  /** What the source computes of a reference before it writes anything. */
  method Decode(t: Tables, s: seq<Byte>, attribute: bool) returns (out: seq<Byte>, n: nat)
    requires s != []
    ensures (out, n) == Reference(t, s, attribute)
  {
    if |s| <= 1 { return s[..1], 1; }
    if s[1] == HASH {
      if |s| <= 3 { return s[..1], 1; }
      var hex := s[2] == 120 || s[2] == 88;
      var x, i := ReadNumber(s, if hex then 3 else 2, hex);
      if i <= 3 { return s[..1], 1; }
      return EncodeRune(Sanitized(x)), i;
    }
    var i := ReadName(s, 1);
    var name := s[1..i];
    if name == [] {
    } else if attribute && name[|name| - 1] != SEMI && |s| > i && s[i] == EQUALS {
    } else if name in t.entity {
      return EncodeRune(t.entity[name]), i;
    } else if name in t.entity2 {
      return EncodeRune(t.entity2[name].0) + EncodeRune(t.entity2[name].1), i;
    } else if !attribute {
      var j := LongestPrefix(t, name, Min(|name| - 1, LONGEST_WITHOUT_SEMICOLON));
      if j > 0 { return EncodeRune(t.entity[name[..j]]), j + 1; }
    }
    return s[..i], i;
  }

  /** unescapeEntity: replaces the reference at src by its text at dst; the write cursor never passes
      the read cursor, and what is unread stays. */
  method UnescapeEntity(t: Tables, b: array<Byte>, dst: nat, src: nat, attribute: bool) returns (dst': nat, src': nat)
    requires t.Narrow() && dst <= src < b.Length
    modifies b
    ensures dst' <= src' && src < src' <= b.Length
    ensures src' == src + Reference(t, old(b[src..]), attribute).1
    ensures b[..dst'] == old(b[..dst]) + Reference(t, old(b[src..]), attribute).0
    ensures b[src'..] == old(b[src'..])
  {
    ReferenceNarrow(t, b[src..], attribute);
    var out, n := Decode(t, b[src..], attribute);
    Put(b, dst, out);
    dst', src' := dst + |out|, src + n;
    assert b[src'..] == b[dst'..][src' - dst'..];
  }

  /** unescape: in place, the buffer's front becomes the unescaped text. */
  method Unescape(t: Tables, b: array<Byte>, attribute: bool) returns (n: nat)
    requires t.Narrow()
    modifies b
    ensures n <= b.Length && b[..n] == Unescaped(t, old(b[..]), attribute)
  {
    ghost var whole := b[..];
    OntoIsUnescaped(t, whole, 0, attribute, []);
    assert whole[0..] == whole;
    var i: nat := 0;
    while i < b.Length && b[i] != AMP
      invariant i <= b.Length && b[..] == whole
      invariant UnescapedOnto(t, whole, i, attribute, whole[..i]) == Unescaped(t, whole, attribute)
    {
      assert whole[..i + 1] == whole[..i] + [whole[i]];
      i := i + 1;
    }
    assert b[..i] == whole[..i];
    n := UnescapeRest(t, b, i, attribute, whole);
  }

  /** The second half of unescape, from the first "&" on: a read and a write cursor. */
  method UnescapeRest(t: Tables, b: array<Byte>, i: nat, attribute: bool, ghost whole: seq<Byte>) returns (dst: nat)
    requires t.Narrow() && i <= b.Length == |whole| && b[i..] == whole[i..]
    modifies b
    ensures dst <= b.Length && b[..dst] == UnescapedOnto(t, whole, i, attribute, old(b[..i]))
  {
    dst := i;
    var src := i;
    ghost var goal := UnescapedOnto(t, whole, i, attribute, b[..i]);
    while src < b.Length
      invariant dst <= src <= b.Length && b[src..] == whole[src..]
      invariant UnescapedOnto(t, whole, src, attribute, b[..dst]) == goal
    {
      dst, src := UnescapeStep(t, b, dst, src, attribute, whole);
    }
  }

  /** One turn of that loop: what is written and what is unread still make up the same text. */
  method UnescapeStep(t: Tables, b: array<Byte>, dst: nat, src: nat, attribute: bool, ghost whole: seq<Byte>)
    returns (dst': nat, src': nat)
    requires t.Narrow() && dst <= src < b.Length == |whole| && b[src..] == whole[src..]
    modifies b
    ensures dst' <= src' && src < src' <= b.Length && b[src'..] == whole[src'..]
    ensures UnescapedOnto(t, whole, src', attribute, b[..dst']) ==
      UnescapedOnto(t, whole, src, attribute, old(b[..dst]))
  {
    assert b[src] == whole[src..][0];
    ghost var unread := b[src..];
    if b[src] == AMP {
      dst', src' := UnescapeEntity(t, b, dst, src, attribute);
    } else {
      CopyDown(b, dst, src);
      dst', src' := dst + 1, src + 1;
    }
    assert b[src'..] == unread[src' - src..] == whole[src'..];
  }

  method CopyDown(b: array<Byte>, dst: nat, src: nat)
    requires dst <= src < b.Length
    modifies b
    ensures b[..dst + 1] == old(b[..dst]) + [old(b[src])]
    ensures b[src + 1..] == old(b[src + 1..])
  {
    b[dst] := b[src];
  }

  // ---------------------------------------------------------------- newlines

  /** "\r\n" and a lone "\r" both become "\n". */
  function Newlines(s: seq<Byte>): seq<Byte>
    decreases |s|
  {
    if s == [] then []
    else if s[0] != CR then [s[0]] + Newlines(s[1..])
    else [LF] + Newlines(s[if |s| > 1 && s[1] == LF then 2 else 1..])
  }

  /** Conversion from position i on, behind what is already written. */
  function NewlinesOnto(s: seq<Byte>, i: nat, out: seq<Byte>): seq<Byte>
    requires i <= |s|
    decreases |s| - i
  {
    if i == |s| then out
    else if s[i] != CR then NewlinesOnto(s, i + 1, out + [s[i]])
    else NewlinesOnto(s, if i + 1 < |s| && s[i + 1] == LF then i + 2 else i + 1, out + [LF])
  }

  lemma NewlinesStep(s: seq<Byte>, i: nat, out: seq<Byte>) returns (c: Byte, n: nat)
    requires i < |s|
    ensures 0 < n <= |s| - i
    ensures NewlinesOnto(s, i, out) == NewlinesOnto(s, i + n, out + [c])
    ensures Newlines(s[i..]) == [c] + Newlines(s[i + n..])
  {
    n := if s[i] == CR && i + 1 < |s| && s[i + 1] == LF then 2 else 1;
    c := if s[i] == CR then LF else s[i];
    var rest := s[i..];
    assert |rest| > 1 ==> rest[1] == s[i + 1];
    assert rest[n..] == s[i + n..];
  }

  lemma {:induction false} OntoIsNewlines(s: seq<Byte>, i: nat, out: seq<Byte>)
    requires i <= |s|
    ensures NewlinesOnto(s, i, out) == out + Newlines(s[i..])
    decreases |s| - i
  {
    if i < |s| {
      var c, n := NewlinesStep(s, i, out);
      OntoIsNewlines(s, i + n, out + [c]);
      Associates(out, [c], Newlines(s[i + n..]));
    }
  }

  /** convertNewlines: bytes stay where they are until the first "\r\n" makes the text shorter. */
  method ConvertNewlines(b: array<Byte>) returns (n: nat)
    modifies b
    ensures n <= b.Length && b[..n] == Newlines(old(b[..]))
  {
    ghost var whole := b[..];
    OntoIsNewlines(whole, 0, []);
    assert whole[0..] == whole;
    var i: nat := 0;
    while i < b.Length
      invariant i <= b.Length && forall k :: i <= k < b.Length ==> b[k] == whole[k]
      invariant NewlinesOnto(whole, i, b[..i]) == Newlines(whole)
    {
      ghost var front := b[..i];
      if b[i] == CR {
        if i + 1 < b.Length && b[i + 1] == LF {
          n := CloseGap(b, i, whole);
          return;
        }
        b[i] := LF;
      }
      i := i + 1;
      assert b[..i] == front + [b[i - 1]];
    }
    n := b.Length;
  }

  /** The second half of convertNewlines, from the first "\r\n": everything moves down. */
  method CloseGap(b: array<Byte>, i: nat, ghost whole: seq<Byte>) returns (dst: nat)
    requires i + 1 < b.Length == |whole| && forall k :: i <= k < b.Length ==> b[k] == whole[k]
    requires whole[i] == CR && whole[i + 1] == LF
    modifies b
    ensures dst <= b.Length && b[..dst] == NewlinesOnto(whole, i, old(b[..i]))
  {
    dst := i;
    var src := i + 1;
    ghost var goal := NewlinesOnto(whole, i, b[..i]);
    assert NewlinesOnto(whole, i + 1, b[..i]) == goal;
    while src < b.Length
      invariant dst < src <= b.Length && forall k :: src <= k < b.Length ==> b[k] == whole[k]
      invariant NewlinesOnto(whole, src, b[..dst]) == goal
    {
      ghost var front := b[..dst];
      if b[src] == CR {
        if src + 1 < b.Length && b[src + 1] == LF { src := src + 1; }
        b[dst] := LF;
      } else {
        b[dst] := b[src];
      }
      src := src + 1;
      dst := dst + 1;
      assert b[..dst] == front + [b[dst - 1]];
    }
  }

  /** Nothing is left to convert, and nothing but line ends changes. */
  lemma {:induction false} NewlinesIsFinal(s: seq<Byte>)
    ensures forall k :: 0 <= k < |Newlines(s)| ==> Newlines(s)[k] != CR
    ensures (forall k :: 0 <= k < |s| ==> s[k] != CR) ==> Newlines(s) == s
    decreases |s|
  {
    if s != [] {
      NewlinesIsFinal(s[if s[0] == CR && |s| > 1 && s[1] == LF then 2 else 1..]);
    }
  }

  datatype LineEnd = Return | Feed | Both {
    function Bytes(): seq<Byte> {
      if Return? then ['\r' as int] else if Feed? then ['\n' as int] else ['\r' as int, '\n' as int]
    }
  }

  predicate OneLine(s: seq<Byte>) { '\r' as int !in s && '\n' as int !in s }

  /** Lines with their ends, none of which is read together with what follows it. */
  ghost predicate Lined(lines: seq<(seq<Byte>, LineEnd)>) {
    && (forall i :: 0 <= i < |lines| ==> OneLine(lines[i].0))
    && forall i :: 0 < i < |lines| ==> !(lines[i - 1].1.Return? && lines[i] == ([], Feed))
  }

  function Written(lines: seq<(seq<Byte>, LineEnd)>, last: seq<Byte>): seq<Byte> {
    if lines == [] then last else lines[0].0 + lines[0].1.Bytes() + Written(lines[1..], last)
  }

  function Fed(lines: seq<(seq<Byte>, LineEnd)>, last: seq<Byte>): seq<Byte> {
    if lines == [] then last else lines[0].0 + ['\n' as int] + Fed(lines[1..], last)
  }

  lemma {:induction false} NewlinesLine(line: seq<Byte>, rest: seq<Byte>)
    requires OneLine(line)
    ensures Newlines(line + rest) == line + Newlines(rest)
  {
    if line == [] {
      assert line + rest == rest;
    } else {
      NewlinesLine(line[1..], rest);
      assert (line + rest)[1..] == line[1..] + rest;
    }
  }

  lemma NewlinesEnd(e: LineEnd, rest: seq<Byte>)
    requires e.Return? && rest != [] ==> rest[0] != '\n' as int
    ensures Newlines(e.Bytes() + rest) == ['\n' as int] + Newlines(rest)
  {
    assert e.Both? ==> (e.Bytes() + rest)[2..] == rest;
    assert !e.Both? ==> (e.Bytes() + rest)[1..] == rest;
  }

  lemma WrittenStarts(lines: seq<(seq<Byte>, LineEnd)>, last: seq<Byte>)
    requires Lined(lines) && OneLine(last) && Written(lines, last) != []
    ensures Written(lines, last)[0] == '\n' as int ==> lines != [] && lines[0] == ([], Feed)
  {
    if lines != [] && lines[0].0 != [] { assert lines[0].0[0] in lines[0].0; }
  }

  /** Lines that end in any of the three ways are read as lines that end in "\n", and nothing else is changed. */
  lemma {:induction false} NewlinesExact(lines: seq<(seq<Byte>, LineEnd)>, last: seq<Byte>)
    requires Lined(lines) && OneLine(last)
    ensures Newlines(Written(lines, last)) == Fed(lines, last)
  {
    hide Newlines, OneLine;
    if lines == [] {
      NoNewlines(last);
    } else {
      var rest, fed := Written(lines[1..], last), Fed(lines[1..], last);
      NewlinesExact(lines[1..], last);
      if rest != [] { WrittenStarts(lines[1..], last); }
      hide *;
      LinesFirst(lines, last);
      NewlinesEnd(lines[0].1, rest);
      NewlinesLine(lines[0].0, lines[0].1.Bytes() + rest);
      Associates(lines[0].0, lines[0].1.Bytes(), rest);
      Associates(lines[0].0, ['\n' as int], fed);
    }
  }

  lemma NoNewlines(last: seq<Byte>)
    requires OneLine(last)
    ensures Newlines(last) == last
  {
    NewlinesIsFinal(last);
  }

  lemma LinesFirst(lines: seq<(seq<Byte>, LineEnd)>, last: seq<Byte>)
    requires lines != []
    ensures Written(lines, last) == lines[0].0 + lines[0].1.Bytes() + Written(lines[1..], last)
    ensures Fed(lines, last) == lines[0].0 + ['\n' as int] + Fed(lines[1..], last)
  {
  }

  // ---------------------------------------------------------------- escaping

  predicate NeedsEscape(c: Byte) {
    c == AMP || c == APOS || c == LT || c == GT || c == QUOTE || c == CR
  }

  /** "&amp;", "&#39;", "&lt;", "&gt;", "&#34;" and "&#13;". */
  function Escape1(c: Byte): seq<Byte>
  {
    if c == AMP then [38, 97, 109, 112, 59]
    else if c == APOS then [38, 35, 51, 57, 59]
    else if c == LT then [38, 108, 116, 59]
    else if c == GT then [38, 103, 116, 59]
    else if c == QUOTE then [38, 35, 51, 52, 59]
    else if c == CR then [38, 35, 49, 51, 59]
    else [c]
  }

  /** What f writes for each byte in turn. */
  function Each(f: Byte -> seq<Byte>, s: seq<Byte>): seq<Byte> {
    if s == [] then [] else f(s[0]) + Each(f, s[1..])
  }

  function Escaped(s: seq<Byte>): seq<Byte> {
    Each(Escape1, s)
  }

  /** strings.IndexAny over the bytes to escape: the length of the plain prefix. */
  method PlainPrefix(s: seq<Byte>) returns (i: nat)
    ensures i <= |s|
    ensures forall k :: 0 <= k < i ==> !NeedsEscape(s[k])
    ensures i < |s| ==> NeedsEscape(s[i])
  {
    i := 0;
    while i < |s| && !NeedsEscape(s[i])
      invariant i <= |s| && forall k :: 0 <= k < i ==> !NeedsEscape(s[k])
    {
      i := i + 1;
    }
  }

  lemma {:induction false} EachPlainPrefix(f: Byte -> seq<Byte>, s: seq<Byte>, i: nat)
    requires i <= |s| && forall k :: 0 <= k < i ==> f(s[k]) == [s[k]]
    ensures Each(f, s) == s[..i] + Each(f, s[i..])
  {
    if i == 0 {
      assert s[0..] == s;
    } else {
      EachPlainPrefix(f, s, i - 1);
      var rest := s[i - 1..];
      assert rest[0] == s[i - 1] && rest[1..] == s[i..];
      assert s[..i] == s[..i - 1] + [s[i - 1]];
    }
  }

  /** A plain run, what f writes for one more byte, and what follows. */
  lemma {:induction false} EachRun(f: Byte -> seq<Byte>, s: seq<Byte>, i: nat)
    requires i < |s| && forall k :: 0 <= k < i ==> f(s[k]) == [s[k]]
    ensures Each(f, s) == s[..i] + f(s[i]) + Each(f, s[i + 1..])
  {
    EachPlainPrefix(f, s, i);
    var rest := s[i..];
    assert rest[0] == s[i] && rest[1..] == s[i + 1..];
  }

  /** An escaped text ends behind its last run. */
  lemma EscapedRun(s: seq<Byte>, i: nat)
    requires i <= |s| && forall k :: 0 <= k < i ==> !NeedsEscape(s[k])
    ensures i < |s| ==> Escaped(s) == s[..i] + Escape1(s[i]) + Escaped(s[i + 1..])
    ensures i == |s| ==> Escaped(s) == s
  {
    forall k | 0 <= k < i ensures Escape1(s[k]) == [s[k]] {}
    if i < |s| {
      EachRun(Escape1, s, i);
    } else {
      EachPlainPrefix(Escape1, s, i);
    }
  }

  /** One more run of the writer. */
  lemma WriteRun(text: seq<Byte>, out: seq<Byte>, s: seq<Byte>, i: nat)
    requires i < |s| && (forall k :: 0 <= k < i ==> !NeedsEscape(s[k]))
    requires Escaped(text) == out + Escaped(s)
    ensures Escaped(text) == out + s[..i] + Escape1(s[i]) + Escaped(s[i + 1..])
  {
    EscapedRun(s, i);
    Associates(out, s[..i] + Escape1(s[i]), Escaped(s[i + 1..]));
    Associates(out, s[..i], Escape1(s[i]));
  }

  /** escape: writes the text run by run. */
  method Escape(text: seq<Byte>) returns (out: seq<Byte>)
    ensures out == Escaped(text)
  {
    var s := text;
    out := [];
    var i: nat := PlainPrefix(s);
    while i < |s|
      invariant i <= |s| && (forall k :: 0 <= k < i ==> !NeedsEscape(s[k])) && (i < |s| ==> NeedsEscape(s[i]))
      invariant Escaped(text) == out + Escaped(s)
      decreases |s|
    {
      WriteRun(text, out, s, i);
      out := out + s[..i] + Escape1(s[i]);
      s := s[i + 1..];
      i := PlainPrefix(s);
    }
    EscapedRun(s, i);
    out := out + s;
  }

  lemma {:induction false} NameEndAt(s: seq<Byte>, i: nat, e: nat)
    requires i <= e < |s| && s[e] == SEMI && forall k :: i <= k < e ==> IsAlnum(s[k])
    ensures NameEnd(s, i) == e + 1
    decreases e - i
  {
    if i < e { NameEndAt(s, i + 1, e); }
  }

  /** A known name, closed by ";", is read as such wherever it stands. */
  lemma NameReads(t: Tables, s: seq<Byte>, e: nat, attribute: bool)
    requires 2 <= e < |s| && s[e] == SEMI && (forall k :: 1 <= k < e ==> IsAlnum(s[k]))
    requires s[1..e + 1] in t.entity
    ensures Reference(t, s, attribute) == (EncodeRune(t.entity[s[1..e + 1]]), e + 1)
  {
    NameEndAt(s, 1, e);
    assert s[1] != HASH;
  }

  /** Two decimal digits, closed by ";", are read as their number. */
  lemma NumberReads(t: Tables, s: seq<Byte>, attribute: bool)
    requires |s| >= 5 && s[1] == HASH && IsDigit(s[2]) && IsDigit(s[3]) && s[4] == SEMI
    ensures Reference(t, s, attribute) == (EncodeRune(Sanitized(10 * (s[2] - 48) + (s[3] - 48))), 5)
  {
    var x := 10 * (s[2] - 48) + (s[3] - 48);
    assert Number(s, 4, false, x) == (x, 5);
    assert Number(s, 3, false, s[2] - 48) == (x, 5);
    assert Number(s, 2, false, 0) == (x, 5);
  }

  function Base(hex: bool): nat { if hex then 16 else 10 }

  function DigitByte(d: nat): Byte
    requires d < 16
  {
    if d < 10 then 48 + d else 97 + (d - 10)
  }

  /** A number in digits, without leading zeros. */
  function Digits(n: nat, hex: bool): (ds: seq<Byte>)
    ensures ds != []
    decreases n
  {
    if n < Base(hex) then [DigitByte(n)] else Digits(n / Base(hex), hex) + [DigitByte(n % Base(hex))]
  }

  lemma DigitReads(d: nat, hex: bool)
    requires d < Base(hex)
    ensures DigitValue(DigitByte(d), hex) == d
  {
  }

  /** One more digit, as long as the number stays an int32. */
  lemma DigitAppends(s: seq<Byte>, j: nat, x: nat, d: nat, hex: bool)
    requires j < |s| && d < Base(hex) && s[j] == DigitByte(d) && Base(hex) * x + d < 0x8000_0000
    ensures Number(s, j, hex, x) == Number(s, j + 1, hex, Base(hex) * x + d)
  {
    DigitReads(d, hex);
    assert Wrap32(Base(hex) * x + d) == Base(hex) * x + d;
  }

  lemma {:induction false} SplitDigits(n: nat, hex: bool)
    ensures n == Base(hex) * (n / Base(hex)) + n % Base(hex)
    ensures n >= Base(hex) ==> Digits(n, hex) == Digits(n / Base(hex), hex) + [DigitByte(n % Base(hex))]
  {
  }

  /** The digits of an int32 are read as that number, without wrapping. */
  lemma {:induction false} DigitsRead(s: seq<Byte>, i: nat, n: nat, hex: bool, ds: seq<Byte>)
    requires n < 0x8000_0000 && ds == Digits(n, hex) && i + |ds| <= |s| && s[i..i + |ds|] == ds
    ensures Number(s, i, hex, 0) == Number(s, i + |ds|, hex, n)
    decreases n
  {
    hide Number;
    var q, d := n / Base(hex), n % Base(hex);
    var last := i + |ds| - 1;
    SplitDigits(n, hex);
    assert s[last] == s[i..i + |ds|][|ds| - 1];
    if n >= Base(hex) {
      var front := Digits(q, hex);
      assert ds == front + [DigitByte(d)] && s[i..last] == s[i..i + |ds|][..|ds| - 1] == front;
      DigitsRead(s, i, q, hex, front);
    }
    DigitAppends(s, last, q, d, hex);
  }

  /** The code points that a numeric reference gives as they are. */
  predicate Plain(r: int) {
    0 < r <= 0x10FFFF && !(0x80 <= r <= 0x9F) && !(0xD800 <= r <= 0xDFFF)
  }

  /** A numeric reference, decimal or hexadecimal, is read as its code point, whatever follows its ";". */
  lemma {:induction false} NumericReads(t: Tables, r: nat, hex: bool, rest: seq<Byte>, attribute: bool)
    requires Plain(r)
    ensures var written := [AMP, HASH] + (if hex then [120] else []) + Digits(r, hex) + [SEMI];
      Reference(t, written + rest, attribute) == (EncodeRune(r), |written|)
  {
    var ds := Digits(r, hex);
    var start := if hex then 3 else 2;
    var written := [AMP, HASH] + (if hex then [120] else []) + ds + [SEMI];
    var s := written + rest;
    assert s[1] == HASH && s[start..start + |ds|] == ds && s[start + |ds|] == SEMI;
    assert hex ==> s[2] == 120;
    assert !hex ==> s[2] == ds[0];
    FirstDigit(r, hex);
    DigitsRead(s, start, r, hex, ds);
    assert Number(s, start + |ds|, hex, r) == (r, start + |ds| + 1);
  }

  lemma {:induction false} FirstDigit(n: nat, hex: bool)
    ensures !hex ==> IsDigit(Digits(n, hex)[0])
    decreases n
  {
    if n >= Base(hex) { FirstDigit(n / Base(hex), hex); }
  }

  /** An escaped byte reads back as itself, whatever follows it, in text and in attribute values. */
  lemma Escape1Reads(t: Tables, c: Byte, rest: seq<Byte>, attribute: bool)
    requires t.HasBasics() && NeedsEscape(c)
    ensures Escape1(c)[0] == AMP && Reference(t, Escape1(c) + rest, attribute) == ([c], |Escape1(c)|)
  {
    var esc := Escape1(c);
    var s := esc + rest;
    assert s[1] == esc[1] && s[2] == esc[2] && s[3] == esc[3];
    if c == AMP {
      assert s[1..5] == AMP_NAME;
      NameReads(t, s, 4, attribute);
    } else if c == LT {
      assert s[1..4] == LT_NAME;
      NameReads(t, s, 3, attribute);
    } else if c == GT {
      assert s[1..4] == GT_NAME;
      NameReads(t, s, 3, attribute);
    } else {
      NumberReads(t, s, attribute);
    }
  }

  /** The round trip: unescaping an escaped text gives the text back, for every byte string. */
  lemma {:induction false} UnescapeEscape(t: Tables, s: seq<Byte>, attribute: bool)
    requires t.HasBasics()
    ensures Unescaped(t, Escaped(s), attribute) == s
  {
    if s != [] {
      var rest := Escaped(s[1..]);
      UnescapeEscape(t, s[1..], attribute);
      if NeedsEscape(s[0]) { Escape1Reads(t, s[0], rest, attribute); }
      assert (Escape1(s[0]) + rest)[|Escape1(s[0])|..] == rest;
    }
  }

  /** Escaped text holds no byte that ends a text run, a quoted value or a line. */
  lemma {:induction false} EscapedIsInert(s: seq<Byte>)
    ensures forall k :: 0 <= k < |Escaped(s)| ==> Escaped(s)[k] == AMP || !NeedsEscape(Escaped(s)[k])
  {
    if s != [] {
      EscapedIsInert(s[1..]);
      assert Escaped(s) == Escape1(s[0]) + Escaped(s[1..]);
    }
  }

  /** The same through the tokenizer's reading of a text or of an attribute value, which converts
      newlines before it unescapes. */
  lemma {:induction false} EscapedSurvivesReading(t: Tables, s: seq<Byte>, attribute: bool)
    requires t.HasBasics()
    ensures Unescaped(t, Newlines(Escaped(s)), attribute) == s
  {
    EscapedIsInert(s);
    NewlinesIsFinal(Escaped(s));
    UnescapeEscape(t, s, attribute);
  }
}

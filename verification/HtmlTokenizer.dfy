/** The tokenizer itself (net/html/token.go): a buffer that is filled in chunks, compacted and grown,
    and spans into it.  Each method is proved to do, in absolute positions, what the corresponding
    function of HtmlSyntax reads off the whole input, so the tokens do not depend on the chunks. */
module HtmlTokenizer {
  import opened ByteSeqs
  import opened Utf8
  import opened HtmlSyntax

  datatype Failure = NoFailure | EOF | NoProgress | OtherFailure

  const MAX_EMPTY_READS := 100
  const INITIAL_CAPACITY := 4096

  /** An io.Reader that delivers source in chunks of its own choosing and then fails.  It may return
      nothing without failing, but a reader that does so too often counts as one whose source ends there. */
  class Reader {
    const source: seq<Byte>
    var given: nat
    var idle: nat

    ghost predicate Valid() reads this { given <= |source| && idle < MAX_EMPTY_READS }

    constructor (source: seq<Byte>)
      ensures Valid() && this.source == source && given == 0
    {
      this.source := source;
      given, idle := 0, 0;
    }

    /** At most max bytes, and perhaps a failure. */
    method Read(max: nat) returns (chunk: seq<Byte>, e: Failure)
      requires Valid() && 0 < max
      modifies this
      ensures Valid() && |chunk| <= max && given == old(given) + |chunk|
      ensures chunk == source[old(given)..given]
      ensures e != NoFailure ==> given == |source|
      ensures chunk == [] && e == NoFailure && given < |source| ==> idle == old(idle) + 1
    {
      var n: nat :| n <= max && n <= |source| - given;
      if n == 0 && given < |source| && idle + 1 == MAX_EMPTY_READS { n := 1; }
      e := *;
      if given + n < |source| { e := NoFailure; }
      if n == 0 && given < |source| { idle := idle + 1; } else { idle := 0; }
      chunk := source[given..given + n];
      given := given + n;
    }
  }

  /** readAtLeastOneByte: bytes or a failure, and a failure without bytes only when there are none. */
  method ReadAtLeastOneByte(r: Reader, max: nat) returns (chunk: seq<Byte>, e: Failure)
    requires r.Valid() && 0 < max
    modifies r
    ensures r.Valid() && |chunk| <= max && r.given == old(r.given) + |chunk|
    ensures chunk == r.source[old(r.given)..r.given]
    ensures e != NoFailure ==> r.given == |r.source|
    ensures chunk != [] || e != NoFailure
  {
    var i := 0;
    while i < MAX_EMPTY_READS
      invariant r.Valid() && r.given == old(r.given)
      invariant r.given < |r.source| ==> i <= r.idle
    {
      chunk, e := r.Read(max);
      if chunk != [] || e != NoFailure { return; }
      i := i + 1;
    }
    return [], NoProgress;
  }

  function Shift(s: Span, delta: int): Span { Span(s.start + delta, s.end + delta) }

  function ShiftPair(a: (Span, Span), delta: int): (Span, Span) { (Shift(a.0, delta), Shift(a.1, delta)) }

  /** The tokenizer's spans: the current token, its data, the attribute being read, the attributes saved. */
  datatype Spans = Spans(raw: Span, data: Span, key: Span, val: Span, attr: seq<(Span, Span)>) {
    function To(p: int): Spans { this.(raw := Span(raw.start, p)) }

    /** These spans of a buffer are those spans of the input, where the buffer starts at base. */
    ghost predicate StandFor(at: Spans, base: int) {
      && at.raw == Shift(raw, base) && at.data == Shift(data, base)
      && at.key == Shift(key, base) && at.val == Shift(val, base)
      && |at.attr| == |attr| && forall i :: 0 <= i < |attr| ==> at.attr[i] == ShiftPair(attr[i], base)
    }
  }

  class Tokenizer {
    const r: Reader
    var buf: seq<Byte>
    var cap: nat
    var z: Spans
    var err: Failure
    var readErr: Failure
    var tt: TokenType
    var rawTag: seq<Byte>
    var textIsRaw: bool
    var convertNUL: bool
    var allowCDATA: bool
    /** Where in the input the buffer starts. */
    ghost var base: nat
    /** The spans as positions in the input. */
    ghost var at: Spans

    ghost predicate Valid() reads this, r {
      && r.Valid() && 0 < cap && |buf| <= cap
      && base + |buf| == r.given && (forall i :: 0 <= i < |buf| ==> buf[i] == r.source[base + i])
      && 0 <= z.raw.start <= z.raw.end <= |buf|
      && (readErr != NoFailure ==> r.given == |r.source|)
      && (err != NoFailure ==> readErr != NoFailure && z.raw.end == |buf|)
      && z.StandFor(at, base)
    }

    ghost predicate Failed() reads `err { err != NoFailure }

    ghost function Pos(): (p: nat)
      requires Valid()
      reads this, r
      ensures p == at.raw.end <= |r.source| && 0 <= at.raw.start <= p
    {
      base + z.raw.end
    }

    constructor (reader: Reader, contextTag: seq<Byte>)
      requires reader.Valid() && reader.given == 0
      ensures Valid() && r == reader && at.raw == Span(0, 0) && !Failed()
      ensures rawTag == if IsRawTag(Lower(contextTag)) then Lower(contextTag) else []
    {
      r := reader;
      buf, cap, base := [], INITIAL_CAPACITY, 0;
      z := Spans(Span(0, 0), Span(0, 0), Span(0, 0), Span(0, 0), []);
      at := Spans(Span(0, 0), Span(0, 0), Span(0, 0), Span(0, 0), []);
      err, readErr := NoFailure, NoFailure;
      rawTag := if IsRawTag(Lower(contextTag)) then Lower(contextTag) else [];
      textIsRaw, convertNUL, allowCDATA := false, false, false;
      tt := ErrorToken;
    }

    /** Makes room behind the bytes of the current token: they move to the front of the buffer, which
        doubles if they fill more than half of it, and every position in the input stays what it is. */
    method Compact()
      requires Valid() && z.raw.end == |buf|
      modifies `buf, `cap, `z, `base
      ensures Valid() && |buf| < cap && z.raw.end == |buf|
    {
      var x := z.raw.start;
      if 2 * (z.raw.end - x) > cap { cap := 2 * cap; }
      buf := buf[x..z.raw.end];
      z := ShiftSpans(z, x, at, base);
      base := base + x;
    }

    /** Compacts and reads more; it fails only at the end of the input. */
    method Fill()
      requires Valid() && z.raw.end == |buf| && readErr == NoFailure
      modifies `buf, `cap, `z, `err, `readErr, `base, r
      ensures Valid()
      ensures if Pos() == |r.source| then Failed() else !Failed() && z.raw.end < |buf|
    {
      Compact();
      var chunk, e := ReadAtLeastOneByte(r, cap - |buf|);
      readErr := e;
      if chunk == [] { err := e; }
      buf := buf + chunk;
    }

    /** readByte: the next byte of the input, wherever the chunks end; at the end of the input it fails,
        as often as it is asked. */
    method ReadByte() returns (c: Byte)
      requires Valid()
      modifies `buf, `cap, `z, `err, `readErr, `base, `at, r
      ensures Valid()
      ensures old(Pos()) == |r.source| ==> Failed() && at == old(at)
      ensures old(Pos()) < |r.source| ==>
        !Failed() && c == r.source[old(Pos())] && at == old(at).To(old(Pos()) + 1)
    {
      if z.raw.end >= |buf| {
        if readErr != NoFailure {
          err := readErr;
          return 0;
        }
        Fill();
        if err != NoFailure { return 0; }
      }
      c := buf[z.raw.end];
      z := z.To(z.raw.end + 1);
      at := at.To(at.raw.end + 1);
    }

    /** Backs up: the bytes are read again. */
    method Unread(n: nat)
      requires Valid() && !Failed() && n <= at.raw.end - at.raw.start
      modifies `z, `at
      ensures Valid() && at == old(at).To(old(at.raw.end) - n) && z.raw.end == old(z.raw.end) - n
    {
      z := z.To(z.raw.end - n);
      at := at.To(at.raw.end - n);
    }

    /** The data starts n bytes back. */
    method DataFrom(n: nat)
      requires Valid()
      modifies `z, `at
      ensures Valid() && at == old(at).(data := Span(old(at.raw.end) - n, old(at.data.end)))
    {
      z := z.(data := Span(z.raw.end - n, z.data.end));
      at := at.(data := Span(at.raw.end - n, at.data.end));
    }

    /** The data ends n bytes back. */
    method DataTo(n: nat)
      requires Valid()
      modifies `z, `at
      ensures Valid() && at == old(at).(data := Span(old(at.data.start), old(at.raw.end) - n))
    {
      z := z.(data := Span(z.data.start, z.raw.end - n));
      at := at.(data := Span(at.data.start, at.raw.end - n));
    }

    method SkipWhiteSpace()
      requires Valid()
      modifies `buf, `cap, `z, `err, `readErr, `base, `at, r
      ensures Valid() && at == old(at).To(SkipWhite(r.source, old(Pos())).pos)
      ensures Failed() == !SkipWhite(r.source, old(Pos())).ok
    {
      if err != NoFailure { return; }
      while true
        invariant Valid() && !Failed() && at == old(at).To(Pos())
        invariant SkipWhite(r.source, Pos()) == SkipWhite(r.source, old(Pos()))
        decreases |r.source| - Pos()
      {
        var c := ReadByte();
        if err != NoFailure { return; }
        if !White(c) {
          Unread(1);
          return;
        }
      }
    }

    /** The loops that read up to a byte that ends a piece; in the end, how far back the piece ends. */
    method ReadUntil(e: Ender) returns (back: nat)
      requires Valid()
      modifies `buf, `cap, `z, `err, `readErr, `base, `at, r
      ensures Valid() && at == old(at).To(Pos())
      ensures Until(r.source, old(Pos()), e) == Piece(Pos() - back, Pos(), !Failed())
    {
      hide Tokenizer.Valid;
      back := 0;
      while true
        invariant Valid() && at == old(at).To(Pos())
        invariant Until(r.source, Pos(), e) == Until(r.source, old(Pos()), e)
        decreases |r.source| - Pos()
      {
        var c := ReadByte();
        if err != NoFailure { return; }
        var on := e.On(c);
        if on.0 {
          if on.1 { Unread(1); } else { back := 1; }
          return;
        }
      }
    }

    /** readUntilCloseAngle. */
    method ReadUntilCloseAngle()
      requires Valid()
      modifies `buf, `cap, `z, `err, `readErr, `base, `at, r
      ensures Valid()
      ensures var c := Until(r.source, old(Pos()), Angle);
        at == old(at).To(c.pos).(data := Span(old(Pos()), c.end)) && Failed() == !c.ok
    {
      DataFrom(0);
      var back := ReadUntil(Angle);
      DataTo(back);
    }

    // -------------------------------------------------------------- raw text

    /** The loop of readRawEndTag and of the double escape start: a word and the byte behind it. */
    method ReadWord(word: seq<Byte>) returns (found: bool)
      requires Valid() && !Failed()
      modifies `buf, `cap, `z, `err, `readErr, `base, `at, r
      ensures Valid()
      ensures var w := Word(r.source, old(Pos()), word, 0);
        found == w.found && at == old(at).To(w.pos) && Failed() == !w.ok
    {
      hide Tokenizer.Valid;
      var i := 0;
      while i < |word|
        invariant Valid() && !Failed() && i <= |word| && at == old(at).To(old(Pos()) + i)
        invariant Word(r.source, Pos(), word, i) == Word(r.source, old(Pos()), word, 0)
      {
        var c := ReadByte();
        if err != NoFailure { return false; }
        if !EitherCase(c, word[i]) {
          Unread(1);
          return false;
        }
        i := i + 1;
      }
      var c := ReadByte();
      if err != NoFailure { return false; }
      found := EndsName(c);
      if !found { Unread(1); }
    }

    /** readRawEndTag: an end tag that is found is left in the buffer, to be read again. */
    method ReadRawEndTag() returns (found: bool)
      requires Valid() && !Failed() && at.raw.start + 2 <= at.raw.end
      modifies `buf, `cap, `z, `err, `readErr, `base, `at, r
      ensures Valid()
      ensures var e := RawEndTag(r.source, old(Pos()), rawTag);
        found == e.found && at == old(at).To(e.pos) && Failed() == !e.ok
      ensures found ==> z.raw.end + 3 + |rawTag| <= |buf|
    {
      found := ReadWord(rawTag);
      if found { Unread(3 + |rawTag|); }
    }

    /** One state of readScript behind "</". */
    method ScriptEndTag(q: Script) returns (stop: bool, next: Script)
      requires Valid() && !Failed() && rawTag == SCRIPT && at.raw.start + 2 <= at.raw.end
      requires q.EndTagOpen? || q.EscapedEndTagOpen? || q.DoubleEnd?
      modifies `buf, `cap, `z, `err, `readErr, `base, `at, r
      ensures Valid() && Hopped(AtEndTag(r.source, old(Pos()), q), old(at), at, Failed(), stop, next)
    {
      stop, next := false, q;
      var found := ReadRawEndTag();
      if err != NoFailure { return true, q; }
      if found {
        if !q.DoubleEnd? { return true, q; }
        Reread(9);
        next := Escaped;
      } else {
        next := if q.EndTagOpen? then Data else if q.EscapedEndTagOpen? then Escaped else Double;
      }
    }

    /** Goes forward again over bytes that are still in the buffer. */
    method Reread(n: nat)
      requires Valid() && !Failed() && z.raw.end + n <= |buf|
      modifies `z, `at
      ensures Valid() && at == old(at).To(old(at.raw.end) + n)
    {
      z := z.To(z.raw.end + n);
      at := at.To(at.raw.end + n);
    }

    /** The state that looks for "script" behind "<" in an escaped script. */
    method ScriptDoubleStart() returns (stop: bool, next: Script)
      requires Valid() && !Failed() && at.raw.start + 1 <= at.raw.end
      modifies `buf, `cap, `z, `err, `readErr, `base, `at, r
      ensures Valid() && Hopped(AtDoubleStart(r.source, old(Pos())), old(at), at, Failed(), stop, next)
    {
      Unread(1);
      var found := ReadWord(SCRIPT);
      return err != NoFailure, if found then Double else Escaped;
    }

    /** A state of readScript that looks at one byte. */
    method ScriptByte(q: Script) returns (stop: bool, next: Script)
      requires Valid() && !Failed() && q.Plain() && at.raw.start + q.Need() <= at.raw.end
      modifies `buf, `cap, `z, `err, `readErr, `base, `at, r
      ensures Valid() && Hopped(AtByte(r.source, old(Pos()), q), old(at), at, Failed(), stop, next)
    {
      stop, next := false, q;
      var c := ReadByte();
      if err != NoFailure { return true, q; }
      var to, again := q.On(c).0, q.On(c).1;
      if again { Unread(1); }
      next := to;
    }

    /** Any state of readScript. */
    method ScriptStep(q: Script) returns (stop: bool, next: Script)
      requires Valid() && !Failed() && rawTag == SCRIPT && at.raw.start + q.Need() <= at.raw.end
      modifies `buf, `cap, `z, `err, `readErr, `base, `at, r
      ensures Valid() && Hopped(HopFrom(r.source, old(Pos()), q), old(at), at, Failed(), stop, next)
    {
      if q.DoubleStart? {
        stop, next := ScriptDoubleStart();
      } else if q.Plain() {
        stop, next := ScriptByte(q);
      } else {
        stop, next := ScriptEndTag(q);
      }
    }

    /** readScript. */
    method ReadScript()
      requires Valid() && !Failed() && rawTag == SCRIPT
      modifies `buf, `cap, `z, `err, `readErr, `base, `at, r
      ensures Valid()
      ensures var e := ScriptText(r.source, old(Pos()), Data);
        at == old(at).To(e.pos).(data := Span(old(at.data.start), e.pos)) && Failed() == !e.ok
    {
      var q, stop := Data, false;
      while true
        invariant Valid() && !Failed() && at == old(at).To(Pos()) && at.raw.start + q.Need() <= at.raw.end
        invariant ScriptText(r.source, Pos(), q) == ScriptText(r.source, old(Pos()), Data)
        decreases Left(r.source, Pos(), q)
      {
        var next: Script;
        stop, next := ScriptStep(q);
        if stop { break; }
        q := next;
      }
      DataTo(0);
    }

    /** readRawOrRCDATA, for an element that is not a script. */
    method ReadRawText()
      requires Valid() && !Failed() && rawTag != SCRIPT
      modifies `buf, `cap, `z, `err, `readErr, `base, `at, r
      ensures Valid()
      ensures var e := RawText(r.source, old(Pos()), rawTag);
        at == old(at).To(e.pos).(data := Span(old(at.data.start), e.pos)) && Failed() == !e.ok
    {
      while true
        invariant Valid() && !Failed() && at == old(at).To(Pos())
        invariant RawText(r.source, Pos(), rawTag) == RawText(r.source, old(Pos()), rawTag)
        decreases |r.source| - Pos()
      {
        var done := RawTextStep();
        if done { break; }
      }
      DataTo(0);
    }

    /** A turn of that loop. */
    method RawTextStep() returns (done: bool)
      requires Valid() && !Failed()
      modifies `buf, `cap, `z, `err, `readErr, `base, `at, r
      ensures Valid() && old(Pos()) <= Pos() && at == old(at).To(Pos())
      ensures done ==> RawText(r.source, old(Pos()), rawTag) == Scan(Pos(), !Failed())
      ensures !done ==> !Failed() && old(Pos()) < Pos()
      ensures !done ==> RawText(r.source, old(Pos()), rawTag) == RawText(r.source, Pos(), rawTag)
    {
      var c := ReadByte();
      if err != NoFailure { return true; }
      if c != LT { return false; }
      done := RawTextAngle(old(Pos()));
    }

    /** The same, behind "<". */
    method RawTextAngle(ghost p: nat) returns (done: bool)
      requires Valid() && !Failed() && at.raw.start <= p == at.raw.end - 1 < |r.source| && r.source[p] == LT
      modifies `buf, `cap, `z, `err, `readErr, `base, `at, r
      ensures Valid() && p <= Pos() && at == old(at).To(Pos())
      ensures if done then RawText(r.source, p, rawTag) == Scan(Pos(), !Failed())
        else !Failed() && p < Pos() && RawText(r.source, p, rawTag) == RawText(r.source, Pos(), rawTag)
    {
      var c := ReadByte();
      if err != NoFailure { return true; }
      if c != SLASH { return false; }
      var found := ReadRawEndTag();
      done := found || err != NoFailure;
    }

    // -------------------------------------------------------------- comments and declarations

    /** The loop of readComment. */
    method ReadCommentText()
      requires Valid() && !Failed()
      modifies `buf, `cap, `z, `err, `readErr, `base, `at, r
      ensures Valid()
      ensures var c := Comment(r.source, old(Pos()), 2);
        at == old(at).To(c.pos).(data := Span(old(at.data.start), c.end)) && Failed() == !c.ok
    {
      var dashes: nat := 2;
      while true
        invariant Valid() && !Failed() && at == old(at).To(Pos())
        invariant Comment(r.source, Pos(), dashes) == Comment(r.source, old(Pos()), 2)
        decreases |r.source| - Pos()
      {
        var done, back;
        done, dashes, back := CommentStep(dashes);
        if done {
          DataTo(back);
          return;
        }
      }
    }

    /** A turn of that loop; in the end, how far back the data ends. */
    method CommentStep(dashes: nat) returns (done: bool, dashes': nat, back: nat)
      requires Valid() && !Failed()
      modifies `buf, `cap, `z, `err, `readErr, `base, `at, r
      ensures Valid() && at == old(at).To(Pos())
      ensures done ==> Comment(r.source, old(Pos()), dashes) == Piece(Pos() - back, Pos(), !Failed())
      ensures !done ==> !Failed() && old(Pos()) < Pos()
      ensures !done ==> Comment(r.source, Pos(), dashes') == Comment(r.source, old(Pos()), dashes)
    {
      done, dashes', back := true, 0, 0;
      var c := ReadByte();
      if err != NoFailure { return true, 0, if dashes > 2 then 2 else dashes; }
      if c == DASH { return false, dashes + 1, 0; }
      if c == GT && dashes >= 2 { return true, 0, 3; }
      if c == BANG && dashes >= 2 {
        c := ReadByte();
        if err != NoFailure { return true, 0, 0; }
        if c == GT { return true, 0, 4; }
      }
      done := false;
    }

    /** readComment: a comment like "<!-->" has no data. */
    method ReadComment()
      requires Valid() && !Failed()
      modifies `buf, `cap, `z, `err, `readErr, `base, `at, r
      ensures Valid()
      ensures var c := Comment(r.source, old(Pos()), 2);
        at == old(at).To(c.pos).(data := Span(old(Pos()), if c.end < old(Pos()) then old(Pos()) else c.end))
        && Failed() == !c.ok
    {
      DataFrom(0);
      ReadCommentText();
      if z.data.end < z.data.start { NoData(); }
    }

    method NoData()
      requires Valid()
      modifies `z, `at
      ensures Valid() && at == old(at).(data := Span(old(at.data.start), old(at.data.start)))
    {
      z := z.(data := Span(z.data.start, z.data.start));
      at := at.(data := Span(at.data.start, at.data.start));
    }

    /** The loops of readDoctype and readCDATA that look for a keyword; when it is not there the scan
        returns to the start of the data. */
    method ReadKeyword(word: seq<Byte>, anyCase: bool) returns (found: bool)
      requires Valid() && 0 < |word| && at.raw.start <= at.data.start && (!Failed() ==> at.data.start == at.raw.end)
      modifies `buf, `cap, `z, `err, `readErr, `base, `at, r
      ensures Valid() && at.data.start == old(at.data.start)
      ensures var k := Keyword(r.source, old(Pos()), word, anyCase, 0);
        found == k.found && at.(data := old(at.data)) == old(at).To(k.pos) && Failed() == !k.ok
      ensures !Failed() ==> !old(Failed()) && at.data == old(at.data)
    {
      var i := 0;
      while i < |word|
        invariant Valid() && i <= |word| && at == old(at).To(old(Pos()) + i) && (i > 0 ==> !Failed())
        invariant Keyword(r.source, Pos(), word, anyCase, i) == Keyword(r.source, old(Pos()), word, anyCase, 0)
      {
        var c := ReadByte();
        if err != NoFailure {
          DataTo(0);
          return false;
        }
        if c != word[i] && !(anyCase && c as int == word[i] as int + 32) {
          BackToData();
          return false;
        }
        i := i + 1;
      }
      found := true;
    }

    method BackToData()
      requires Valid() && !Failed() && at.raw.start <= at.data.start <= at.raw.end
      modifies `z, `at
      ensures Valid() && at == old(at).To(old(at.data.start))
    {
      z := z.To(z.data.start);
      at := at.To(at.data.start);
    }

    /** The loop of readCDATA. */
    method ReadCdataText()
      requires Valid() && !Failed()
      modifies `buf, `cap, `z, `err, `readErr, `base, `at, r
      ensures Valid()
      ensures var c := CdataText(r.source, old(Pos()), 0);
        at == old(at).To(c.pos).(data := Span(old(Pos()), c.end)) && Failed() == !c.ok
    {
      DataFrom(0);
      ghost var v := at;
      var brackets: nat := 0;
      while true
        invariant Valid() && !Failed() && at == v.To(Pos()) && brackets <= Pos()
        invariant CdataText(r.source, Pos(), brackets) == CdataText(r.source, old(Pos()), 0)
        decreases |r.source| - Pos()
      {
        var done, back;
        done, brackets, back := CdataStep(brackets);
        if done {
          DataTo(back);
          return;
        }
      }
    }

    /** A turn of that loop; in the end, how far back the data ends. */
    method CdataStep(brackets: nat) returns (done: bool, brackets': nat, back: nat)
      requires Valid() && !Failed() && brackets <= at.raw.end
      modifies `buf, `cap, `z, `err, `readErr, `base, `at, r
      ensures Valid() && at == old(at).To(Pos())
      ensures done ==> CdataText(r.source, old(Pos()), brackets) == Piece(Pos() - back, Pos(), !Failed())
      ensures !done ==> !Failed() && old(Pos()) < Pos() && brackets' <= Pos()
      ensures !done ==> CdataText(r.source, Pos(), brackets') == CdataText(r.source, old(Pos()), brackets)
    {
      var c := ReadByte();
      if err != NoFailure { return true, 0, 0; }
      if c == BRACKET { return false, brackets + 1, 0; }
      if c == GT && brackets >= 2 { return true, 0, 3; }
      return false, 0, 0;
    }

    /** readDoctype. */
    method ReadDoctype(ghost p: nat) returns (found: bool, ghost d: Match)
      requires Valid() && !Failed() && at.raw.start <= at.data.start == at.raw.end == p
      modifies `buf, `cap, `z, `err, `readErr, `base, `at, r
      ensures Valid() && p <= |r.source| && d == Keyword(r.source, p, DOCTYPE, true, 0) && found == d.found
      ensures found ==> HasRead(Doctype(r.source, d.pos), old(at), at, Failed())
      ensures !found ==> at.(data := old(at.data)) == old(at).To(d.pos)
      ensures !found ==> at.data.start == p && Failed() == !d.ok && (d.ok ==> d.pos == p)
    {
      d := Keyword(r.source, p, DOCTYPE, true, 0);
      found := ReadKeyword(DOCTYPE, true);
      if !found { return; }
      SkipWhiteSpace();
      if err != NoFailure {
        DataFrom(0);
        DataTo(0);
        return;
      }
      ReadUntilCloseAngle();
    }

    /** readCDATA. */
    method ReadCDATA(ghost p: nat) returns (found: bool, ghost k: Match)
      requires Valid() && at.raw.start <= at.data.start && (!Failed() ==> at.data.start == at.raw.end)
      requires p == at.raw.end
      modifies `buf, `cap, `z, `err, `readErr, `base, `at, r
      ensures Valid() && p <= |r.source| && k == Keyword(r.source, p, CDATA, false, 0) && found == k.found
      ensures found ==> HasRead(CdataSection(r.source, k.pos), old(at), at, Failed())
      ensures !found ==> at.(data := old(at.data)) == old(at).To(k.pos)
    {
      k := Keyword(r.source, p, CDATA, false, 0);
      found := ReadKeyword(CDATA, false);
      if found { ReadCdataText(); }
    }

    /** readMarkupDeclaration, behind its first two bytes. */
    method ReadKeyworded(ghost p: nat) returns (t: TokenType, ghost k: Token)
      requires Valid() && !Failed() && at.raw.start <= at.data.start == at.raw.end == p
      modifies `buf, `cap, `z, `err, `readErr, `base, `at, r, `convertNUL
      ensures Valid() && p <= |r.source| && k == Keyworded(r.source, p, allowCDATA) && t == k.tt
      ensures HasRead(k, old(at), at, Failed()) && convertNUL == (old(convertNUL) || t.TextToken?)
    {
      hide Spans.StandFor;
      ghost var d: Match;
      var found;
      found, d := ReadDoctype(p);
      if found {
        t, k := DoctypeToken, Doctype(r.source, d.pos);
        return;
      }
      if allowCDATA {
        ghost var m: Match;
        found, m := ReadCDATA(d.pos);
        if found {
          convertNUL := true;
          t, k := TextToken, CdataSection(r.source, m.pos);
          return;
        }
      }
      k := BogusComment(r.source, at.raw.end);
      ReadUntilCloseAngle();
      t := CommentToken;
    }

    /** The first two bytes of a declaration: are they dashes?  If not they are read again. */
    method ReadDashes() returns (found: bool)
      requires Valid() && !Failed()
      modifies `buf, `cap, `z, `err, `readErr, `base, `at, r
      ensures Valid() && Failed() == (|r.source| - old(Pos()) < 2)
      ensures Failed() ==> at == old(at).To(|r.source|)
      ensures !Failed() ==> at == old(at).To(old(Pos()) + if found then 2 else 0)
      ensures !Failed() ==> found == (r.source[old(Pos())] == DASH && r.source[old(Pos()) + 1] == DASH)
    {
      var c0 := ReadByte();
      if err != NoFailure { return false; }
      var c1 := ReadByte();
      if err != NoFailure { return false; }
      found := c0 == DASH && c1 == DASH;
      if !found { Unread(2); }
    }

    /** readMarkupDeclaration. */
    method ReadMarkupDeclaration(ghost p: nat) returns (t: TokenType, ghost d: Token)
      requires Valid() && !Failed() && p == at.raw.end
      modifies `buf, `cap, `z, `err, `readErr, `base, `at, r, `convertNUL
      ensures Valid() && p <= |r.source| && d == Declaration(r.source, p, allowCDATA) && t == d.tt
      ensures HasRead(d, old(at), at, Failed()) && convertNUL == (old(convertNUL) || t.TextToken?)
    {
      hide Tokenizer.Valid;
      DataFrom(0);
      var found := ReadDashes();
      if err != NoFailure {
        DataTo(0);
        t, d := CommentToken, Token(CommentToken, at.data, [], |r.source|, false);
      } else if found {
        ReadComment();
        t, d := CommentToken, Token(CommentToken, at.data, [], at.raw.end, !Failed());
      } else {
        t, d := ReadKeyworded(p);
      }
    }

    // -------------------------------------------------------------- tags

    /** readTagName. */
    method ReadTagName()
      requires Valid() && 1 <= at.raw.end
      modifies `buf, `cap, `z, `err, `readErr, `base, `at, r
      ensures Valid()
      ensures var n := Until(r.source, old(Pos()), TagName);
        at == old(at).To(n.pos).(data := Span(old(Pos()) - 1, n.end)) && Failed() == !n.ok
    {
      DataFrom(1);
      var back := ReadUntil(TagName);
      DataTo(back);
    }

    method KeyFrom()
      requires Valid()
      modifies `z, `at
      ensures Valid() && at == old(at).(key := Span(old(at.raw.end), old(at.key.end)))
    {
      z := z.(key := Span(z.raw.end, z.key.end));
      at := at.(key := Span(at.raw.end, at.key.end));
    }

    method KeyTo(n: nat)
      requires Valid()
      modifies `z, `at
      ensures Valid() && at == old(at).(key := Span(old(at.key.start), old(at.raw.end) - n))
    {
      z := z.(key := Span(z.key.start, z.raw.end - n));
      at := at.(key := Span(at.key.start, at.raw.end - n));
    }

    method ValFrom(n: nat)
      requires Valid()
      modifies `z, `at
      ensures Valid() && at == old(at).(val := Span(old(at.raw.end) - n, old(at.val.end)))
    {
      z := z.(val := Span(z.raw.end - n, z.val.end));
      at := at.(val := Span(at.raw.end - n, at.val.end));
    }

    method ValTo(n: nat)
      requires Valid()
      modifies `z, `at
      ensures Valid() && at == old(at).(val := Span(old(at.val.start), old(at.raw.end) - n))
    {
      z := z.(val := Span(z.val.start, z.raw.end - n));
      at := at.(val := Span(at.val.start, at.raw.end - n));
    }

    /** readTagAttrKey. */
    method ReadTagAttrKey()
      requires Valid() && !Failed()
      modifies `buf, `cap, `z, `err, `readErr, `base, `at, r
      ensures Valid()
      ensures var k := Until(r.source, old(Pos()), AttrKey);
        at == old(at).To(k.pos).(key := Span(old(Pos()), k.end)) && Failed() == !k.ok
    {
      KeyFrom();
      var back := ReadUntil(AttrKey);
      KeyTo(back);
    }

    /** The loops of readTagAttrVal; the first byte of an unquoted value has been read. */
    method ReadValueText(e: Ender, skipped: nat, ghost p: nat) returns (ghost v: Piece)
      requires Valid() && !Failed() && skipped <= p == at.raw.end
      modifies `buf, `cap, `z, `err, `readErr, `base, `at, r
      ensures Valid() && p <= |r.source| && v == Until(r.source, p, e) && Failed() == !v.ok
      ensures at == old(at).To(v.pos).(val := Span(p - skipped, v.end))
    {
      ValFrom(skipped);
      var back := ReadUntil(e);
      ValTo(back);
      v := Until(r.source, p, e);
    }

    method NoVal()
      requires Valid()
      modifies `z, `at
      ensures Valid() && at == old(at).(val := Span(old(at.raw.end), old(at.raw.end)))
    {
      z := z.(val := Span(z.raw.end, z.raw.end));
      at := at.(val := Span(at.raw.end, at.raw.end));
    }

    /** White space, then perhaps a "=". */
    method ReadEquals() returns (found: bool)
      requires Valid()
      modifies `buf, `cap, `z, `err, `readErr, `base, `at, r
      ensures Valid()
      ensures var w := SkipWhite(r.source, old(Pos()));
        Failed() == !w.ok && found == (w.ok && r.source[w.pos] == EQUALS)
        && at == old(at).To(if found then w.pos + 1 else w.pos)
    {
      SkipWhiteSpace();
      if err != NoFailure { return false; }
      var c := ReadByte();
      found := c == EQUALS;
      if !found { Unread(1); }
    }

    /** readTagAttrVal behind "=": white space, then a byte that decides what the value is. */
    method ReadQuote(ghost p: nat) returns (quote: Byte, ghost w: Scan)
      requires Valid() && !Failed() && p == at.raw.end
      modifies `buf, `cap, `z, `err, `readErr, `base, `at, r
      ensures Valid() && p <= |r.source| && w == SkipWhite(r.source, p) && Failed() == !w.ok
      ensures at == old(at).To(if w.ok then w.pos + 1 else w.pos) && (w.ok ==> quote == r.source[w.pos])
    {
      w := SkipWhite(r.source, p);
      SkipWhiteSpace();
      if err != NoFailure { return 0, w; }
      quote := ReadByte();
    }

    /** readTagAttrVal behind "=". */
    method ReadValue(ghost p: nat) returns (ghost v: Value)
      requires Valid() && !Failed() && p == at.raw.end
      modifies `buf, `cap, `z, `err, `readErr, `base, `at, r
      ensures Valid() && p <= |r.source| && v == ValueAt(r.source, p, old(at.val))
      ensures at == old(at).To(v.pos).(val := v.span) && Failed() == !v.ok
    {
      ghost var w: Scan, e: Piece;
      var quote;
      quote, w := ReadQuote(p);
      if err != NoFailure {
        v := Value(at.val, w.pos, false);
      } else if quote == GT {
        Unread(1);
        v := Value(at.val, w.pos, true);
      } else if quote == APOS || quote == QUOTE {
        e := ReadValueText(Quoted(quote), 0, w.pos + 1);
        v := Value(Span(w.pos + 1, e.end), e.pos, e.ok);
      } else {
        e := ReadValueText(Unquoted, 1, w.pos + 1);
        v := Value(Span(w.pos, e.end), e.pos, e.ok);
      }
    }

    /** readTagAttrVal. */
    method ReadTagAttrVal()
      requires Valid()
      modifies `buf, `cap, `z, `err, `readErr, `base, `at, r
      ensures Valid()
      ensures var v := AttrVal(r.source, old(Pos())); at == old(at).To(v.pos).(val := v.span) && Failed() == !v.ok
    {
      NoVal();
      var found := ReadEquals();
      if found { ghost var v := ReadValue(at.raw.end); }
    }

    method ClearAttr()
      requires Valid()
      modifies `z, `at
      ensures Valid() && at == old(at).(attr := [])
    {
      z := z.(attr := []);
      at := at.(attr := []);
    }

    /** Saves the attribute that has been read. */
    method SaveAttr()
      requires Valid()
      modifies `z, `at
      ensures Valid() && at == old(at).(attr := old(at.attr) + [(old(at.key), old(at.val))])
    {
      z := z.(attr := z.attr + [(z.key, z.val)]);
      at := at.(attr := at.attr + [(at.key, at.val)]);
    }

    /** An attribute and the white space behind it. */
    method ReadAttr(save: bool)
      requires Valid() && !Failed()
      modifies `buf, `cap, `z, `err, `readErr, `base, `at, r
      ensures Valid() && at.raw.start == old(at.raw.start) && at.data == old(at.data)
      ensures var a := AttrAt(r.source, old(Pos()), save, old(at.attr));
        at.attr == a.list && Pos() == a.pos && Failed() == !a.ok
    {
      ReadTagAttrKey();
      ReadTagAttrVal();
      if save && z.key.start != z.key.end { SaveAttr(); }
      SkipWhiteSpace();
    }

    /** readTag: the loop over the attributes. */
    method ReadAttrs(save: bool)
      requires Valid() && !Failed()
      modifies `buf, `cap, `z, `err, `readErr, `base, `at, r
      ensures Valid() && at.raw.start == old(at.raw.start) && at.data == old(at.data)
      ensures TagAttrs(r.source, old(Pos()), save, old(at.attr)) == Attrs(at.attr, Pos(), !Failed())
    {
      while true
        invariant Valid() && !Failed() && at.raw.start == old(at.raw.start) && at.data == old(at.data)
        invariant TagAttrs(r.source, Pos(), save, at.attr) == TagAttrs(r.source, old(Pos()), save, old(at.attr))
        decreases |r.source| - Pos()
      {
        var done := AttrsStep(save);
        if done { return; }
      }
    }

    /** A turn of that loop. */
    method AttrsStep(save: bool) returns (done: bool)
      requires Valid() && !Failed()
      modifies `buf, `cap, `z, `err, `readErr, `base, `at, r
      ensures Valid() && at.raw.start == old(at.raw.start) && at.data == old(at.data)
      ensures done ==> TagAttrs(r.source, old(Pos()), save, old(at.attr)) == Attrs(at.attr, Pos(), !Failed())
      ensures !done ==> !Failed() && old(Pos()) < Pos()
      ensures !done ==> TagAttrs(r.source, old(Pos()), save, old(at.attr)) == TagAttrs(r.source, Pos(), save, at.attr)
    {
      var c := ReadByte();
      if err != NoFailure || c == GT { return true; }
      Unread(1);
      ReadAttr(save);
      done := err != NoFailure;
    }

    /** readTag. */
    method ReadTag(save: bool, ghost p: nat) returns (ghost b: Tag)
      requires Valid() && !Failed() && 1 <= p == at.raw.end
      modifies `buf, `cap, `z, `err, `readErr, `base, `at, r
      ensures Valid() && at.raw.start == old(at.raw.start) && p <= |r.source|
      ensures b == TagBody(r.source, p, save) && BodyRead(b, at, Failed())
    {
      ClearAttr();
      ReadTagName();
      SkipWhiteSpace();
      if err == NoFailure { ReadAttrs(save); }
      b := TagBody(r.source, p, save);
    }

    /** Bytes of the current token. */
    method Bytes(from: int, to: int) returns (b: seq<Byte>)
      requires Valid() && z.raw.start <= from <= to <= z.raw.end
      ensures base + to <= |r.source| && b == r.source[base + from..base + to]
    {
      b := buf[from..to];
    }

    /** A start tag whose name says so makes the next token raw text. */
    method MarkRaw()
      requires Valid() && at.raw.start <= at.data.start < at.data.end <= at.raw.end
      modifies `rawTag
      ensures Valid() && rawTag == RawTagAfter(r.source, at.data, old(rawTag))
    {
      var name := Bytes(z.data.start, z.data.end);
      assert name == r.source[at.data.start..at.data.end];
      rawTag := RawTagFor(name, rawTag);
    }

    /** Whether a tag that has been read ends in "/>". */
    method ClosesItself() returns (closes: bool)
      requires Valid() && at.raw.start + 2 <= at.raw.end
      ensures closes == (r.source[Pos() - 2] == SLASH)
    {
      var last := Bytes(z.raw.end - 2, z.raw.end - 1);
      closes := last[0] == SLASH;
    }

    /** readStartTag. */
    method ReadStartTag(ghost p: nat) returns (t: TokenType, ghost k: Token)
      requires Valid() && !Failed() && at.raw == Span(p, p + 2)
      modifies `buf, `cap, `z, `err, `readErr, `base, `at, r, `rawTag
      ensures Valid() && at.raw.start == p && p + 2 <= |r.source| && k == StartTag(r.source, p)
      ensures TokenRead(k, t, at, Failed())
      ensures rawTag == if Failed() then old(rawTag) else RawTagAfter(r.source, at.data, old(rawTag))
    {
      hide StartTag, RawTagAfter, TagBody, IsRawTag;
      hide Tokenizer.Valid;
      ghost var b := ReadTag(true, p + 2);
      if err != NoFailure {
        t := ErrorToken;
      } else {
        MarkRaw();
        var closes := ClosesItself();
        t := if closes then SelfClosingTagToken else StartTagToken;
      }
      k := Token(t, b.data, b.attrs, b.pos, b.ok);
      StartTagIs(r.source, p, b, k);
    }

    // -------------------------------------------------------------- tokens

    /** Next behind "</". */
    method ReadEndTag(ghost p: nat) returns (t: TokenType, ghost k: Token)
      requires Valid() && !Failed() && at.raw == Span(p, p + 2) && at.data == Span(p, p)
      modifies `buf, `cap, `z, `err, `readErr, `base, `at, r
      ensures Valid() && at.raw.start == p && p + 2 <= |r.source| && k == EndTag(r.source, p)
      ensures TokenRead(k, t, at, Failed())
    {
      var c := ReadByte();
      if err != NoFailure {
        DataTo(0);
        t, k := TextToken, Token(TextToken, at.data, [], at.raw.end, false);
      } else if c == GT {
        t, k := CommentToken, Token(CommentToken, at.data, [], at.raw.end, true);
      } else if Letter(c) {
        t, k := ReadEndTagName(p);
      } else {
        t, k := ReadBogusComment(p + 2);
      }
    }

    /** Next behind "</" and a letter. */
    method ReadEndTagName(ghost p: nat) returns (t: TokenType, ghost k: Token)
      requires Valid() && !Failed() && at.raw == Span(p, p + 3)
      requires p + 3 <= |r.source| && Letter(r.source[p + 2])
      modifies `buf, `cap, `z, `err, `readErr, `base, `at, r
      ensures Valid() && at.raw.start == p && k == EndTag(r.source, p) && TokenRead(k, t, at, Failed())
    {
      ghost var b := ReadTag(false, p + 3);
      t := if err != NoFailure then ErrorToken else EndTagToken;
      k := Token(t, b.data, b.attrs, b.pos, b.ok);
      EndTagIs(r.source, p, b, k);
    }

    /** A comment that starts with the byte that has just been read. */
    method ReadBogusComment(ghost p: nat) returns (t: TokenType, ghost k: Token)
      requires Valid() && !Failed() && at.raw.start < at.raw.end == p + 1
      modifies `buf, `cap, `z, `err, `readErr, `base, `at, r
      ensures Valid() && at.raw.start == old(at.raw.start) && p <= |r.source| && k == BogusComment(r.source, p)
      ensures TokenRead(k, t, at, Failed())
    {
      Unread(1);
      ReadUntilCloseAngle();
      t, k := CommentToken, BogusComment(r.source, p);
    }

    /** A turn of the main loop of Next. */
    method MarkupStep(ghost p: nat) returns (done: bool, c: Byte)
      requires Valid() && p == at.raw.end
      modifies `buf, `cap, `z, `err, `readErr, `base, `at, r
      ensures Valid() && p <= Pos() && at == old(at).To(Pos())
      ensures done ==> MarkupFound(r.source, MarkupStart(r.source, p), Pos(), Failed(), c)
      ensures !done ==> !Failed() && p < Pos() && MarkupStart(r.source, Pos()) == MarkupStart(r.source, p)
    {
      hide Tokenizer.Valid;
      c := ReadByte();
      if err != NoFailure { return true, c; }
      if c != LT { return false, c; }
      c := ReadByte();
      if err != NoFailure || OpensMarkup(c) { return true, c; }
      Unread(1);
      done := false;
    }

    /** The main loop of Next: it stops behind "<" and a byte that opens markup. */
    method FindMarkup(ghost p: nat) returns (c: Byte)
      requires Valid() && p == at.raw.end
      modifies `buf, `cap, `z, `err, `readErr, `base, `at, r
      ensures Valid() && p <= |r.source| && at == old(at).To(Pos())
      ensures MarkupFound(r.source, MarkupStart(r.source, p), Pos(), Failed(), c)
    {
      var done;
      while true
        invariant Valid() && p <= Pos() && at == old(at).To(Pos())
        invariant MarkupStart(r.source, Pos()) == MarkupStart(r.source, p)
        decreases |r.source| - Pos()
      {
        done, c := MarkupStep(Pos());
        if done { return; }
      }
    }

    /** The markup that Next has found at the start of the token. */
    method ReadMarkup(c: Byte, ghost p: nat) returns (t: TokenType, ghost o: Outcome)
      requires Valid() && !Failed() && at.raw == Span(p, p + 2) && at.data == Span(p, p) && !convertNUL && !textIsRaw
      requires p + 2 <= |r.source| && MarkupStart(r.source, p) == p && c == r.source[p + 1]
      modifies `buf, `cap, `z, `err, `readErr, `base, `at, r, `rawTag, `convertNUL
      ensures Valid() && at.raw.start == p && o == Content(r.source, p, old(rawTag), allowCDATA)
      ensures OutcomeIs(o, t, at, Failed(), rawTag, textIsRaw, convertNUL)
    {
      hide Tokenizer.Valid;
      ghost var k: Token;
      if Letter(c) {
        t, k := ReadStartTag(p);
      } else if c == SLASH {
        t, k := ReadEndTag(p);
      } else if c == BANG {
        t, k := ReadMarkupDeclaration(p + 2);
      } else {
        t, k := ReadBogusComment(p + 1);
      }
      o := Outcome(k, rawTag, false, convertNUL);
      MarkupIs(r.source, p, old(rawTag), allowCDATA, o);
    }

    /** Next, when no raw text is expected. */
    method ReadContent(ghost p: nat) returns (t: TokenType, ghost o: Outcome)
      requires Valid() && at.raw == at.data == Span(p, p) && !convertNUL && !textIsRaw
      modifies `buf, `cap, `z, `err, `readErr, `base, `at, r, `rawTag, `convertNUL
      ensures Valid() && at.raw.start == p && p <= |r.source| && o == Content(r.source, p, old(rawTag), allowCDATA)
      ensures OutcomeIs(o, t, at, Failed(), rawTag, textIsRaw, convertNUL)
    {
      var c := FindMarkup(p);
      if err == NoFailure && z.raw.start == z.raw.end - 2 {
        t, o := ReadMarkup(c, p);
      } else {
        t, o := ReadText(p);
      }
    }

    /** Text, up to the markup that Next has found behind it or to the end of the input. */
    method ReadText(ghost p: nat) returns (t: TokenType, ghost o: Outcome)
      requires Valid() && at.raw.start == p <= |r.source| && at.data == Span(p, p) && !convertNUL && !textIsRaw
      requires var x := MarkupStart(r.source, p);
        if Failed() then x == |r.source| == at.raw.end else p < x < |r.source| && at.raw.end == x + 2
      modifies `z, `at
      ensures Valid() && at.raw.start == p && o == Content(r.source, p, rawTag, allowCDATA)
      ensures OutcomeIs(o, t, at, Failed(), rawTag, textIsRaw, convertNUL)
    {
      if err == NoFailure {
        Unread(2);
        t := TextToken;
      } else {
        t := if z.raw.start < z.raw.end then TextToken else ErrorToken;
      }
      DataTo(0);
      o := Outcome(Token(t, at.data, [], at.raw.end, !Failed()), rawTag, false, false);
      TextIs(r.source, p, rawTag, allowCDATA, o);
    }

    /** A new token starts where the last one ended. */
    method Begin()
      requires Valid()
      modifies `z, `at
      ensures Valid() && at.raw == at.data == Span(old(at.raw.end), old(at.raw.end))
    {
      z := z.(raw := Span(z.raw.end, z.raw.end), data := Span(z.raw.end, z.raw.end));
      at := at.(raw := Span(at.raw.end, at.raw.end), data := Span(at.raw.end, at.raw.end));
    }

    /** Everything up to the end of the input. */
    method ReadAll()
      requires Valid()
      modifies `buf, `cap, `z, `err, `readErr, `base, `at, r
      ensures Valid() && Failed() && at == old(at).To(|r.source|)
    {
      while err == NoFailure
        invariant Valid() && at == old(at).To(Pos())
        decreases |r.source| - Pos(), err == NoFailure
      {
        var c := ReadByte();
      }
    }

    /** The text of a raw element: Next for plaintext, and readRawOrRCDATA. */
    method ReadRaw(ghost p: nat)
      requires Valid() && !Failed() && rawTag != [] && at.raw == at.data == Span(p, p)
      modifies `buf, `cap, `z, `err, `readErr, `base, `at, r, `rawTag, `textIsRaw
      ensures Valid() && p <= |r.source|
      ensures var e := RawScan(r.source, p, old(rawTag)); at.raw == at.data == Span(p, e.pos) && Failed() == !e.ok
      ensures rawTag == if old(rawTag) == PLAINTEXT then PLAINTEXT else []
      ensures textIsRaw == (old(rawTag) != TEXTAREA && old(rawTag) != TITLE)
    {
      hide RawText, ScriptText, IsRawTag;
      if rawTag == PLAINTEXT {
        ReadAll();
        DataTo(0);
        textIsRaw := true;
        assert rawTag[0] == 112;
      } else if rawTag == SCRIPT {
        ReadScript();
        textIsRaw, rawTag := true, [];
      } else {
        ReadRawText();
        textIsRaw := rawTag != TEXTAREA && rawTag != TITLE;
        rawTag := [];
      }
    }

    /** Next, when nothing has failed. */
    method ReadToken(ghost p: nat) returns (t: TokenType, ghost o: Outcome)
      requires Valid() && !Failed() && at.raw == at.data == Span(p, p)
      modifies `buf, `cap, `z, `err, `readErr, `base, `at, r, `rawTag, `textIsRaw, `convertNUL
      ensures Valid() && at.raw.start == p <= |r.source| && o == NextToken(r.source, p, old(rawTag), allowCDATA)
      ensures OutcomeIs(o, t, at, Failed(), rawTag, textIsRaw, convertNUL)
    {
      hide NextToken, Content, RawScan;
      if rawTag != [] {
        ReadRaw(p);
        if z.data.end > z.data.start {
          convertNUL := true;
          t, o := TextToken, Outcome(Token(TextToken, at.data, [], at.raw.end, !Failed()), rawTag, textIsRaw, true);
          RawTokenIs(r.source, p, old(rawTag), allowCDATA, o);
          return;
        }
      }
      ghost var after := rawTag;
      textIsRaw, convertNUL := false, false;
      t, o := ReadContent(p);
      ContentTokenIs(r.source, p, old(rawTag), allowCDATA, after, o);
    }

    /** Next: the token that the whole input has at this position, however its bytes arrive. */
    method Next() returns (t: TokenType)
      requires Valid()
      modifies `buf, `cap, `z, `err, `readErr, `base, `at, r, `tt, `rawTag, `textIsRaw, `convertNUL
      ensures Valid() && t == tt && at.raw.start == old(Pos())
      ensures old(Failed()) ==>
        t.ErrorToken? && Failed() && at.raw == at.data == Span(old(Pos()), old(Pos())) && rawTag == old(rawTag)
      ensures !old(Failed()) ==>
        OutcomeIs(NextToken(r.source, old(Pos()), old(rawTag), allowCDATA),
                  t, at, Failed(), rawTag, textIsRaw, convertNUL)
    {
      hide NextToken, Spans.StandFor;
      ghost var p := Pos();
      Begin();
      if err != NoFailure {
        t := ErrorToken;
      } else {
        ghost var o;
        t, o := ReadToken(p);
      }
      tt := t;
    }

    /** Raw. */
    method Raw() returns (b: seq<Byte>)
      requires Valid()
      ensures 0 <= at.raw.start <= at.raw.end <= |r.source| && b == r.source[at.raw.start..at.raw.end]
    {
      b := Bytes(z.raw.start, z.raw.end);
    }

    /** Calls Next until it fails. */
    method Run() returns (tokens: seq<(TokenType, seq<Byte>)>)
      requires Valid() && !Failed()
      modifies `buf, `cap, `z, `err, `readErr, `base, `at, r, `tt, `rawTag, `textIsRaw, `convertNUL
      ensures Valid() && tokens == Tokens(r.source, old(Pos()), old(rawTag), allowCDATA)
    {
      tokens := [];
      ghost var rest := Tokens(r.source, Pos(), rawTag, allowCDATA);
      ghost var all := rest;
      while true
        invariant Valid() && rest == Tokens(r.source, Pos(), rawTag, allowCDATA) && all == tokens + rest
        decreases |r.source| - Pos()
      {
        var t, raw;
        t, raw, rest := NextRaw(rest);
        Associates(tokens, [(t, raw)], rest);
        tokens := tokens + [(t, raw)];
        if t == ErrorToken { return; }
      }
    }

    /** A token and its bytes, and the tokens behind it. */
    method NextRaw(ghost all: seq<(TokenType, seq<Byte>)>)
      returns (t: TokenType, raw: seq<Byte>, ghost rest: seq<(TokenType, seq<Byte>)>)
      requires Valid() && all == Tokens(r.source, Pos(), rawTag, allowCDATA)
      modifies `buf, `cap, `z, `err, `readErr, `base, `at, r, `tt, `rawTag, `textIsRaw, `convertNUL
      ensures Valid() && all == [(t, raw)] + rest
      ensures if t.ErrorToken? then rest == []
        else old(Pos()) < Pos() && rest == Tokens(r.source, Pos(), rawTag, allowCDATA)
    {
      ghost var tt', pos, next := TokensFirst(r.source, Pos(), rawTag, allowCDATA);
      if err != NoFailure { NextAtEnd(r.source, rawTag, allowCDATA); }
      t := Next();
      raw := Raw();
      rest := if t.ErrorToken? then [] else Tokens(r.source, pos, next, allowCDATA);
    }
  }

  /** The first markup is at x, and has been read up to its second byte; or there is none. */
  ghost predicate MarkupFound(s: seq<Byte>, x: nat, pos: nat, failed: bool, c: Byte) {
    if x == |s| then failed && pos == |s| else !failed && pos == x + 2 <= |s| && c == s[x + 1]
  }

  lemma StartTagIs(s: seq<Byte>, p: nat, b: Tag, k: Token)
    requires p + 2 <= |s| && b == TagBody(s, p + 2, true)
    requires k.tt == if !b.ok then ErrorToken else if s[b.pos - 2] == SLASH then SelfClosingTagToken else StartTagToken
    requires k == Token(k.tt, b.data, b.attrs, b.pos, b.ok)
    ensures k == StartTag(s, p)
  {
  }

  lemma EndTagIs(s: seq<Byte>, p: nat, b: Tag, k: Token)
    requires p + 3 <= |s| && Letter(s[p + 2]) && b == TagBody(s, p + 3, false)
    requires k == Token(if !b.ok then ErrorToken else EndTagToken, b.data, b.attrs, b.pos, b.ok)
    ensures k == EndTag(s, p)
  {
  }

  /** Each kind of markup is what the content at its position is. */
  lemma {:induction false} MarkupIs(s: seq<Byte>, p: nat, was: seq<Byte>, cdata: bool, o: Outcome)
    requires p + 2 <= |s| && MarkupStart(s, p) == p && !o.textIsRaw
    requires var c := s[p + 1];
      o.token == if Letter(c) then StartTag(s, p) else if c == SLASH then EndTag(s, p)
        else if c == BANG then Declaration(s, p + 2, cdata) else BogusComment(s, p + 1)
    requires o.rawTag == if Letter(s[p + 1]) && o.token.ok then RawTagAfter(s, o.token.data, was) else was
    requires o.convertNUL == (s[p + 1] == BANG && o.token.tt.TextToken?)
    ensures o == Content(s, p, was, cdata)
  {
  }

  lemma RawTokenIs(s: seq<Byte>, p: nat, rawTag: seq<Byte>, cdata: bool, o: Outcome)
    requires p <= |s| && rawTag != [] && p < RawScan(s, p, rawTag).pos
    requires var e := RawScan(s, p, rawTag); o.token == Token(TextToken, Span(p, e.pos), [], e.pos, e.ok)
    requires o.rawTag == (if rawTag == PLAINTEXT then PLAINTEXT else []) && o.convertNUL
    requires o.textIsRaw == (rawTag != TEXTAREA && rawTag != TITLE)
    ensures o == NextToken(s, p, rawTag, cdata)
  {
  }

  lemma ContentTokenIs(s: seq<Byte>, p: nat, rawTag: seq<Byte>, cdata: bool, after: seq<Byte>, o: Outcome)
    requires p <= |s| && o == Content(s, p, after, cdata)
    requires after == if rawTag == PLAINTEXT then PLAINTEXT else []
    requires rawTag == [] || RawScan(s, p, rawTag).pos == p
    ensures o == NextToken(s, p, rawTag, cdata)
  {
  }

  /** Text up to the next markup, or up to the end. */
  lemma {:induction false} TextIs(s: seq<Byte>, p: nat, rawTag: seq<Byte>, cdata: bool, o: Outcome)
    requires p <= |s| && (MarkupStart(s, p) == p ==> p == |s|)
    requires var x := MarkupStart(s, p);
      o == Outcome(Token(if p < x then TextToken else ErrorToken, Span(p, x), [], x, x < |s|), rawTag, false, false)
    ensures o == Content(s, p, rawTag, cdata)
  {
  }

  /** The tokenizer has read a token; only tags have attributes. */
  ghost predicate TokenRead(k: Token, t: TokenType, at: Spans, failed: bool) {
    && t == k.tt && at.data == k.data && at.raw.end == k.pos && failed == !k.ok
    && (t.StartTagToken? || t.SelfClosingTagToken? || t.EndTagToken? ==> at.attr == k.attrs)
  }

  /** The tokenizer has done what an outcome says. */
  ghost predicate OutcomeIs(o: Outcome, t: TokenType, at: Spans, failed: bool, rawTag: seq<Byte>, textIsRaw: bool,
                            convertNUL: bool) {
    TokenRead(o.token, t, at, failed) && rawTag == o.rawTag && textIsRaw == o.textIsRaw && convertNUL == o.convertNUL
  }

  ghost predicate BodyRead(b: Tag, at: Spans, failed: bool) {
    at.data == b.data && at.attr == b.attrs && at.raw.end == b.pos && failed == !b.ok
  }

  /** startTagIn: the name, in any case, is one of the words. */
  method NameIn(name: seq<Byte>, words: seq<seq<Byte>>) returns (found: bool)
    ensures found <==> Lower(name) in words
  {
    var k := 0;
    while k < |words|
      invariant k <= |words| && Lower(name) !in words[..k]
    {
      var s := words[k];
      if |name| == |s| {
        var i := 0;
        while i < |s| && Lower1(name[i]) == s[i]
          invariant i <= |s| && Lower(name)[..i] == s[..i]
        {
          i := i + 1;
        }
        if i == |s| {
          assert Lower(name) == Lower(name)[..i] == s[..i] == s;
          return true;
        }
      }
      k := k + 1;
    }
    found := false;
  }

  /** What readStartTag sets rawTag to. */
  method RawTagFor(name: seq<Byte>, rawTag: seq<Byte>) returns (tag: seq<Byte>)
    requires name != []
    ensures tag == if IsRawTag(Lower(name)) then Lower(name) else rawTag
  {
    var raw := NamesRawTag(name);
    tag := if raw then Lower(name) else rawTag;
  }

  /** The switch of readStartTag on a name's first letter misses none of the raw elements. */
  method NamesRawTag(name: seq<Byte>) returns (raw: bool)
    requires name != []
    ensures raw == IsRawTag(Lower(name))
  {
    raw := false;
    var c := Lower1(name[0]);
    assert c == Lower(name)[0];
    if c == 105 {
      raw := NameIn(name, [IFRAME]);
    } else if c == 110 {
      raw := NameIn(name, [NOEMBED, NOFRAMES, NOSCRIPT]);
    } else if c == 112 {
      raw := NameIn(name, [PLAINTEXT]);
    } else if c == 115 {
      raw := NameIn(name, [SCRIPT, STYLE]);
    } else if c == 116 {
      raw := NameIn(name, [TEXTAREA, TITLE]);
    } else if c == 120 {
      raw := NameIn(name, [XMP]);
    }
  }

  /** The tokenizer has read up to the end of a token and set its data. */
  ghost predicate HasRead(t: Token, was: Spans, at: Spans, failed: bool) {
    at == was.To(t.pos).(data := t.data) && failed == !t.ok
  }

  /** A state of the script machine has done what a hop says. */
  ghost predicate Hopped(h: Hop, was: Spans, at: Spans, failed: bool, stop: bool, next: Script) {
    && at == was.To(h.pos) && stop == h.Stop?
    && (match h case Stop(_, ok) => failed == !ok case Go(q, _) => !failed && next == q)
  }

  /** The spans move down with their bytes, and stand for the same. */
  method ShiftSpans(z: Spans, x: int, ghost at: Spans, ghost base: int) returns (s: Spans)
    requires z.StandFor(at, base)
    ensures s.raw == Shift(z.raw, -x) && s.StandFor(at, base + x)
  {
    s := z;
    if x != 0 {
      var attr := z.attr;
      var i := 0;
      while i < |attr|
        invariant |attr| == |z.attr| && i <= |attr|
        invariant forall k :: 0 <= k < |attr| ==> attr[k] == if k < i then ShiftPair(z.attr[k], -x) else z.attr[k]
      {
        attr := attr[i := ShiftPair(attr[i], -x)];
        i := i + 1;
      }
      s := Spans(Shift(z.raw, -x), Shift(z.data, -x), Shift(z.key, -x), Shift(z.val, -x), attr);
    }
  }
}

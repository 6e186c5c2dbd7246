/** The HTML tokenizer (net/html/token.go).  The program reads its input in chunks of any size into a
    buffer that it compacts and grows, and keeps spans into that buffer.  The functions below read the
    same tokens off the whole input, at absolute positions; the class is proved to refine them. */
module HtmlSyntax {
  import opened Utf8

  const LT: Byte := 60
  const GT: Byte := 62
  const SLASH: Byte := 47
  const BANG: Byte := 33
  const QUESTION: Byte := 63
  const DASH: Byte := 45
  const EQUALS: Byte := 61
  const APOS: Byte := 39
  const QUOTE: Byte := 34
  const BRACKET: Byte := 93

  const DOCTYPE: seq<Byte> := [68, 79, 67, 84, 89, 80, 69]
  const CDATA: seq<Byte> := [91, 67, 68, 65, 84, 65, 91]
  const SCRIPT: seq<Byte> := [115, 99, 114, 105, 112, 116]
  const PLAINTEXT: seq<Byte> := [112, 108, 97, 105, 110, 116, 101, 120, 116]
  const TEXTAREA: seq<Byte> := [116, 101, 120, 116, 97, 114, 101, 97]
  const TITLE: seq<Byte> := [116, 105, 116, 108, 101]
  const IFRAME: seq<Byte> := [105, 102, 114, 97, 109, 101]
  const NOEMBED: seq<Byte> := [110, 111, 101, 109, 98, 101, 100]
  const NOFRAMES: seq<Byte> := [110, 111, 102, 114, 97, 109, 101, 115]
  const NOSCRIPT: seq<Byte> := [110, 111, 115, 99, 114, 105, 112, 116]
  const STYLE: seq<Byte> := [115, 116, 121, 108, 101]
  const XMP: seq<Byte> := [120, 109, 112]

  predicate White(c: Byte) { c == 32 || c == 10 || c == 13 || c == 9 || c == 12 }

  predicate EndsName(c: Byte) { White(c) || c == SLASH || c == GT }

  predicate Letter(c: Byte) { 97 <= c <= 122 || 65 <= c <= 90 }

  /** c is the lower-case letter w, or w in upper case. */
  predicate EitherCase(c: Byte, w: Byte) { c == w || c as int == w as int - 32 }

  function Lower1(c: Byte): Byte { if 65 <= c <= 90 then c + 32 else c }

  function Lower(s: seq<Byte>): (l: seq<Byte>)
    ensures |l| == |s|
  {
    seq(|s|, i requires 0 <= i < |s| => Lower1(s[i]))
  }

  predicate IsRawTag(s: seq<Byte>) {
    || s == IFRAME || s == NOEMBED || s == NOFRAMES || s == NOSCRIPT || s == PLAINTEXT
    || s == SCRIPT || s == STYLE || s == TEXTAREA || s == TITLE || s == XMP
  }

  datatype Span = Span(start: int, end: int)

  /** Where a scan stopped; it is not ok when it asked for a byte behind the end of the input. */
  datatype Scan = Scan(pos: nat, ok: bool)

  /** The same, with the end of what was read for its own sake. */
  datatype Piece = Piece(end: int, pos: nat, ok: bool)

  /** The same, for a word that is or is not there. */
  datatype Match = Match(found: bool, pos: nat, ok: bool)

  ghost predicate InInput(s: seq<Byte>, p: nat, pos: nat, ok: bool) {
    p <= pos <= |s| && (!ok ==> pos == |s|)
  }

  function SkipWhite(s: seq<Byte>, p: nat): (r: Scan)
    requires p <= |s|
    ensures InInput(s, p, r.pos, r.ok) && (r.ok ==> r.pos < |s|)
    decreases |s| - p
  {
    if p == |s| then Scan(p, false)
    else if White(s[p]) then SkipWhite(s, p + 1)
    else Scan(p, true)
  }

  /** What a piece of a tag or declaration runs up to. */
  datatype Ender = Angle | TagName | AttrKey | Quoted(quote: Byte) | Unquoted {
    /** Whether a byte ends the piece, and whether it is then left to be read again. */
    function On(c: Byte): (r: (bool, bool)) {
      match this
      case Angle => (c == GT, false)
      case TagName => (EndsName(c), c == SLASH || c == GT)
      case AttrKey => (EndsName(c) || c == EQUALS, c == EQUALS || c == GT)
      case Quoted(quote) => (c == quote, false)
      case Unquoted => (White(c) || c == GT, c == GT)
    }
  }

  /** A piece of the input up to the byte that ends it. */
  function Until(s: seq<Byte>, p: nat, e: Ender): (r: Piece)
    requires p <= |s|
    ensures InInput(s, p, r.pos, r.ok) && p <= r.end <= r.pos
    ensures r.pos == p ==> p == |s| || e.On(s[p]) == (true, true)
    decreases |s| - p
  {
    if p == |s| then Piece(p, p, false)
    else if !e.On(s[p]).0 then Until(s, p + 1, e)
    else Piece(p, if e.On(s[p]).1 then p else p + 1, true)
  }

  // ---------------------------------------------------------------- raw text

  /** A word in either case and the byte that ends it; a mismatch stops before the byte that differs. */
  function Word(s: seq<Byte>, p: nat, word: seq<Byte>, i: nat): (r: Match)
    requires p <= |s| && i <= |word|
    ensures InInput(s, p, r.pos, r.ok)
    ensures r.found ==> r.ok && r.pos == p + (|word| - i) + 1
    decreases |s| - p
  {
    if p == |s| then Match(false, p, false)
    else if i == |word| then if EndsName(s[p]) then Match(true, p + 1, true) else Match(false, p, true)
    else if EitherCase(s[p], word[i]) then Word(s, p + 1, word, i + 1)
    else Match(false, p, true)
  }

  /** The end tag of a raw element, behind its "</"; when it is there the scan returns to before "</". */
  function RawEndTag(s: seq<Byte>, p: nat, tag: seq<Byte>): (r: Match)
    requires 2 <= p <= |s|
    ensures InInput(s, p - 2, r.pos, r.ok)
    ensures if r.found then r.ok && r.pos == p - 2 && p + |tag| + 1 <= |s| else p <= r.pos
  {
    var w := Word(s, p, tag, 0);
    if w.found then Match(true, p - 2, true) else w
  }

  function RawText(s: seq<Byte>, p: nat, tag: seq<Byte>): (r: Scan)
    requires p <= |s|
    ensures InInput(s, p, r.pos, r.ok)
    decreases |s| - p
  {
    if p == |s| then Scan(p, false)
    else if s[p] != LT then RawText(s, p + 1, tag)
    else if p + 1 == |s| then Scan(p + 1, false)
    else if s[p + 1] != SLASH then RawText(s, p + 2, tag)
    else
      var e := RawEndTag(s, p + 2, tag);
      if e.found || !e.ok then Scan(e.pos, e.ok) else RawText(s, e.pos, tag)
  }

  // ---------------------------------------------------------------- scripts

  datatype Script =
    | Data | LessThan | EndTagOpen | EscapeStart | EscapeStartDash
    | Escaped | EscapedDash | EscapedDashDash | EscapedLessThan | EscapedEndTagOpen
    | DoubleStart | Double | DoubleDash | DoubleDashDash | DoubleLessThan | DoubleEnd
  {
    /** The states that look at one byte. */
    predicate Plain() { !EndTagOpen? && !EscapedEndTagOpen? && !DoubleStart? && !DoubleEnd? }

    function Rank(): nat {
      if Data? || Escaped? || Double? then 0 else if EscapedLessThan? then 2 else 1
    }

    /** How many bytes of the script, at least, have led to a state. */
    function Need(): nat {
      if EndTagOpen? || EscapedEndTagOpen? || DoubleEnd? then 2
      else if LessThan? || EscapedLessThan? || DoubleLessThan? || DoubleStart? then 1
      else 0
    }

    /** The next state, and whether the byte is read again there. */
    function On(c: Byte): (r: (Script, bool))
      requires Plain()
      ensures r.1 ==> r.0.Rank() < Rank() && r.0.Rank() == 0
      ensures r.0.DoubleStart? ==> EscapedLessThan? && !r.1
      ensures r.0.Need() <= if r.1 then 0 else Need() + 1
    {
      match this
      case Data => (if c == LT then LessThan else Data, false)
      case LessThan =>
        if c == SLASH then (EndTagOpen, false) else if c == BANG then (EscapeStart, false) else (Data, true)
      case EscapeStart => if c == DASH then (EscapeStartDash, false) else (Data, true)
      case EscapeStartDash => if c == DASH then (EscapedDashDash, false) else (Data, true)
      case Escaped => (if c == DASH then EscapedDash else if c == LT then EscapedLessThan else Escaped, false)
      case EscapedDash => (if c == DASH then EscapedDashDash else if c == LT then EscapedLessThan else Escaped, false)
      case EscapedDashDash =>
        (if c == DASH then EscapedDashDash else if c == LT then EscapedLessThan
         else if c == GT then Data else Escaped, false)
      case EscapedLessThan =>
        if c == SLASH then (EscapedEndTagOpen, false) else if Letter(c) then (DoubleStart, false) else (Data, true)
      case Double => (if c == DASH then DoubleDash else if c == LT then DoubleLessThan else Double, false)
      case DoubleDash => (if c == DASH then DoubleDashDash else if c == LT then DoubleLessThan else Double, false)
      case DoubleDashDash =>
        (if c == DASH then DoubleDashDash else if c == LT then DoubleLessThan
         else if c == GT then Data else Double, false)
      case DoubleLessThan => if c == SLASH then (DoubleEnd, false) else (Double, true)
      case _ => (Data, true)
    }
  }

  /** One state of the script machine: the text is over, or another state goes on from a position. */
  datatype Hop = Stop(pos: nat, ok: bool) | Go(next: Script, pos: nat)

  /** What is left to do in a state: bytes first, then states that hand a byte on unread. */
  function Left(s: seq<Byte>, p: nat, q: Script): int {
    3 * (|s| - p + (if q.DoubleStart? then 1 else 0)) + q.Rank()
  }

  ghost predicate Hops(s: seq<Byte>, p: nat, q: Script, h: Hop) {
    match h
    case Stop(pos, ok) => p - q.Need() <= pos <= |s| && (!ok ==> pos == |s|)
    case Go(next, pos) =>
      p - q.Need() <= pos - next.Need() && next.Need() <= pos <= |s| && Left(s, pos, next) < Left(s, p, q)
  }

  /** The state behind an end tag that may close the script. */
  function AtEndTag(s: seq<Byte>, p: nat, q: Script): (h: Hop)
    requires 2 <= p <= |s| && (q.EndTagOpen? || q.EscapedEndTagOpen? || q.DoubleEnd?)
    ensures Hops(s, p, q, h)
  {
    var e := RawEndTag(s, p, SCRIPT);
    if !e.ok then Stop(e.pos, false)
    else if e.found then if q.DoubleEnd? then Go(Escaped, e.pos + 9) else Stop(e.pos, true)
    else Go(if q.EndTagOpen? then Data else if q.EscapedEndTagOpen? then Escaped else Double, e.pos)
  }

  /** The state behind "<" and a letter in an escaped script: is it "<script"? */
  function AtDoubleStart(s: seq<Byte>, p: nat): (h: Hop)
    requires 1 <= p <= |s|
    ensures Hops(s, p, DoubleStart, h)
  {
    var w := Word(s, p - 1, SCRIPT, 0);
    if !w.ok then Stop(w.pos, false) else Go(if w.found then Double else Escaped, w.pos)
  }

  function AtByte(s: seq<Byte>, p: nat, q: Script): (h: Hop)
    requires q.Plain() && q.Need() <= p <= |s|
    ensures Hops(s, p, q, h)
  {
    if p == |s| then Stop(p, false) else
    var (next, again) := q.On(s[p]);
    Go(next, if again then p else p + 1)
  }

  function HopFrom(s: seq<Byte>, p: nat, q: Script): (h: Hop)
    requires q.Need() <= p <= |s|
    ensures Hops(s, p, q, h)
  {
    if q.DoubleStart? then AtDoubleStart(s, p) else if q.Plain() then AtByte(s, p, q) else AtEndTag(s, p, q)
  }

  function ScriptText(s: seq<Byte>, p: nat, q: Script): (r: Scan)
    requires q.Need() <= p <= |s|
    ensures InInput(s, p - q.Need(), r.pos, r.ok)
    decreases Left(s, p, q)
  {
    match HopFrom(s, p, q)
    case Stop(pos, ok) => Scan(pos, ok)
    case Go(next, pos) => ScriptText(s, pos, next)
  }

  // ---------------------------------------------------------------- comments and declarations

  /** A comment, behind its "<!--" and so many dashes. */
  function Comment(s: seq<Byte>, p: nat, dashes: nat): (r: Piece)
    requires p <= |s|
    ensures InInput(s, p, r.pos, r.ok) && r.end <= r.pos
    decreases |s| - p
  {
    if p == |s| then Piece(p - (if dashes > 2 then 2 else dashes), p, false)
    else if s[p] == DASH then Comment(s, p + 1, dashes + 1)
    else if s[p] == GT && dashes >= 2 then Piece(p + 1 - 3, p + 1, true)
    else if s[p] == BANG && dashes >= 2 then
      if p + 1 == |s| then Piece(p + 1, p + 1, false)
      else if s[p + 1] == GT then Piece(p + 2 - 4, p + 2, true)
      else Comment(s, p + 2, 0)
    else Comment(s, p + 1, 0)
  }

  /** A declaration's keyword, in either case or not; a mismatch returns to where it began. */
  function Keyword(s: seq<Byte>, p: nat, word: seq<Byte>, anyCase: bool, i: nat): (r: Match)
    requires i <= p <= |s| && i <= |word|
    ensures InInput(s, p - i, r.pos, r.ok)
    ensures r.found ==> r.ok
    decreases |word| - i
  {
    if i == |word| then Match(true, p, true)
    else if p == |s| then Match(false, p, false)
    else if s[p] == word[i] || (anyCase && s[p] as int == word[i] as int + 32) then
      Keyword(s, p + 1, word, anyCase, i + 1)
    else Match(false, p - i, true)
  }

  function CdataText(s: seq<Byte>, p: nat, brackets: nat): (r: Piece)
    requires brackets <= p <= |s|
    ensures InInput(s, p, r.pos, r.ok) && p - brackets <= r.end <= r.pos
    decreases |s| - p
  {
    if p == |s| then Piece(p, p, false)
    else if s[p] == BRACKET then CdataText(s, p + 1, brackets + 1)
    else if s[p] == GT && brackets >= 2 then Piece(p + 1 - 3, p + 1, true)
    else CdataText(s, p + 1, 0)
  }

  datatype TokenType =
    | ErrorToken | TextToken | StartTagToken | EndTagToken | SelfClosingTagToken | CommentToken | DoctypeToken

  /** A token: its type, its data, a tag's attributes, where it ends, and whether the input went on. */
  datatype Token = Token(tt: TokenType, data: Span, attrs: seq<(Span, Span)>, pos: nat, ok: bool)

  ghost predicate InToken(s: seq<Byte>, p: nat, t: Token) {
    InInput(s, p, t.pos, t.ok) && p <= t.data.start <= t.data.end <= t.pos
  }

  /** What follows "<!". */
  function Declaration(s: seq<Byte>, p: nat, cdata: bool): (t: Token)
    requires p <= |s|
    ensures InToken(s, p, t) && (t.tt.CommentToken? || t.tt.DoctypeToken? || t.tt.TextToken?)
  {
    if |s| - p < 2 then Token(CommentToken, Span(p, |s|), [], |s|, false)
    else if s[p] == DASH && s[p + 1] == DASH then
      var c := Comment(s, p + 2, 2);
      Token(CommentToken, Span(p + 2, if c.end < p + 2 then p + 2 else c.end), [], c.pos, c.ok)
    else Keyworded(s, p, cdata)
  }

  /** A doctype, a CDATA section where these are allowed, or a bogus comment. */
  function Keyworded(s: seq<Byte>, p: nat, cdata: bool): (t: Token)
    requires p <= |s|
    ensures InToken(s, p, t) && (t.tt.CommentToken? || t.tt.DoctypeToken? || t.tt.TextToken?)
  {
    var d := Keyword(s, p, DOCTYPE, true, 0);
    if d.found then Doctype(s, d.pos)
    else if !cdata then BogusComment(s, d.pos)
    else
      var k := Keyword(s, d.pos, CDATA, false, 0);
      if k.found then CdataSection(s, k.pos) else BogusComment(s, k.pos)
  }

  function Doctype(s: seq<Byte>, p: nat): (t: Token)
    requires p <= |s|
    ensures InToken(s, p, t) && t.tt.DoctypeToken?
  {
    var w := SkipWhite(s, p);
    if !w.ok then Token(DoctypeToken, Span(w.pos, w.pos), [], w.pos, false) else
    var c := Until(s, w.pos, Angle);
    Token(DoctypeToken, Span(w.pos, c.end), [], c.pos, c.ok)
  }

  function CdataSection(s: seq<Byte>, p: nat): (t: Token)
    requires p <= |s|
    ensures InToken(s, p, t) && t.tt.TextToken?
  {
    var c := CdataText(s, p, 0);
    Token(TextToken, Span(p, c.end), [], c.pos, c.ok)
  }

  function BogusComment(s: seq<Byte>, p: nat): (t: Token)
    requires p <= |s|
    ensures InToken(s, p, t) && t.tt.CommentToken?
  {
    var c := Until(s, p, Angle);
    Token(CommentToken, Span(p, c.end), [], c.pos, c.ok)
  }

  // ---------------------------------------------------------------- tags

  datatype Value = Value(span: Span, pos: nat, ok: bool)

  /** What follows a "=": a value, quoted or not, or nothing new. */
  function ValueAt(s: seq<Byte>, p: nat, none: Span): (r: Value)
    requires p <= |s|
    ensures InInput(s, p, r.pos, r.ok)
    ensures r.span == none || p <= r.span.start <= r.span.end <= r.pos
  {
    var v := SkipWhite(s, p);
    if !v.ok || s[v.pos] == GT then Value(none, v.pos, v.ok)
    else if s[v.pos] == APOS || s[v.pos] == QUOTE then
      var e := Until(s, v.pos + 1, Quoted(s[v.pos]));
      Value(Span(v.pos + 1, e.end), e.pos, e.ok)
    else
      var e := Until(s, v.pos + 1, Unquoted);
      Value(Span(v.pos, e.end), e.pos, e.ok)
  }

  /** An attribute's value, if there is a "=". */
  function AttrVal(s: seq<Byte>, p: nat): (r: Value)
    requires p <= |s|
    ensures InInput(s, p, r.pos, r.ok) && p <= r.span.start <= r.span.end <= r.pos
    ensures p < |s| && s[p] == EQUALS ==> p < r.pos
  {
    var w := SkipWhite(s, p);
    if w.ok && s[w.pos] == EQUALS then ValueAt(s, w.pos + 1, Span(p, p)) else Value(Span(p, p), w.pos, w.ok)
  }

  datatype Attrs = Attrs(list: seq<(Span, Span)>, pos: nat, ok: bool)

  /** One attribute and the white space behind it. */
  function AttrAt(s: seq<Byte>, p: nat, save: bool, list: seq<(Span, Span)>): (r: Attrs)
    requires p <= |s|
    ensures InInput(s, p, r.pos, r.ok)
    ensures p < |s| && s[p] != GT ==> p < r.pos
  {
    var k := Until(s, p, AttrKey);
    var v := AttrVal(s, k.pos);
    var w := SkipWhite(s, v.pos);
    Attrs(if save && p != k.end then list + [(Span(p, k.end), v.span)] else list, w.pos, w.ok)
  }

  /** The attributes of a tag up to its ">", behind those already saved. */
  function TagAttrs(s: seq<Byte>, p: nat, save: bool, list: seq<(Span, Span)>): (r: Attrs)
    requires p <= |s|
    ensures InInput(s, p, r.pos, r.ok) && (r.ok ==> p < r.pos)
    decreases |s| - p
  {
    if p == |s| then Attrs(list, p, false)
    else if s[p] == GT then Attrs(list, p + 1, true)
    else
      var a := AttrAt(s, p, save, list);
      if !a.ok then a else TagAttrs(s, a.pos, save, a.list)
  }

  datatype Tag = Tag(data: Span, attrs: seq<(Span, Span)>, pos: nat, ok: bool)

  /** A tag, behind the first letter of its name. */
  function TagBody(s: seq<Byte>, p: nat, save: bool): (r: Tag)
    requires 1 <= p <= |s|
    ensures InInput(s, p, r.pos, r.ok) && p - 1 == r.data.start && p <= r.data.end <= r.pos
    ensures r.ok ==> p < r.pos
  {
    var n := Until(s, p, TagName);
    var w := SkipWhite(s, n.pos);
    if !w.ok then Tag(Span(p - 1, n.end), [], w.pos, false) else
    var a := TagAttrs(s, w.pos, save, []);
    Tag(Span(p - 1, n.end), a.list, a.pos, a.ok)
  }

  // ---------------------------------------------------------------- tokens

  predicate OpensMarkup(c: Byte) { Letter(c) || c == SLASH || c == BANG || c == QUESTION }

  /** The first "<" at or behind p that starts a tag, a comment or a declaration; |s| if there is none. */
  function MarkupStart(s: seq<Byte>, p: nat): (x: nat)
    requires p <= |s|
    ensures p <= x <= |s|
    ensures x < |s| ==> x + 1 < |s| && s[x] == LT && OpensMarkup(s[x + 1])
    decreases |s| - p
  {
    if |s| - p < 2 then |s|
    else if s[p] == LT && OpensMarkup(s[p + 1]) then p
    else MarkupStart(s, p + 1)
  }

  /** A token, and what the tokenizer remembers with it. */
  datatype Outcome = Outcome(token: Token, rawTag: seq<Byte>, textIsRaw: bool, convertNUL: bool)

  /** What every token is: inside the input, behind the one before it; only an error token is empty, and
      errors come at the end of the input. */
  ghost predicate Sound(s: seq<Byte>, p: nat, t: Token) {
    && InToken(s, p, t)
    && (t.tt.ErrorToken? ==> !t.ok)
    && (!t.tt.ErrorToken? ==> p < t.pos)
  }

  /** The raw element a start tag opens, if it opens one. */
  function RawTagAfter(s: seq<Byte>, data: Span, rawTag: seq<Byte>): seq<Byte>
    requires 0 <= data.start <= data.end <= |s|
  {
    var name := Lower(s[data.start..data.end]);
    if IsRawTag(name) then name else rawTag
  }

  function StartTag(s: seq<Byte>, p: nat): (t: Token)
    requires p + 2 <= |s|
    ensures Sound(s, p, t) && (t.ok ==> t.data.start < t.data.end)
  {
    var b := TagBody(s, p + 2, true);
    Token(if !b.ok then ErrorToken else if s[b.pos - 2] == SLASH then SelfClosingTagToken else StartTagToken,
      b.data, b.attrs, b.pos, b.ok)
  }

  /** What follows "</". */
  function EndTag(s: seq<Byte>, p: nat): (t: Token)
    requires p + 2 <= |s|
    ensures Sound(s, p, t)
  {
    if p + 2 == |s| then Token(TextToken, Span(p, |s|), [], |s|, false)
    else if s[p + 2] == GT then Token(CommentToken, Span(p, p), [], p + 3, true)
    else if Letter(s[p + 2]) then
      var b := TagBody(s, p + 3, false);
      Token(if !b.ok then ErrorToken else EndTagToken, b.data, b.attrs, b.pos, b.ok)
    else BogusComment(s, p + 2)
  }

  /** The token that starts at p when no raw text is expected. */
  function Content(s: seq<Byte>, p: nat, rawTag: seq<Byte>, cdata: bool): (o: Outcome)
    requires p <= |s|
    ensures Sound(s, p, o.token)
  {
    var x := MarkupStart(s, p);
    if x == |s| then
      Outcome(Token(if p < |s| then TextToken else ErrorToken, Span(p, |s|), [], |s|, false), rawTag, false, false)
    else if p < x then Outcome(Token(TextToken, Span(p, x), [], x, true), rawTag, false, false)
    else if Letter(s[p + 1]) then
      var t := StartTag(s, p);
      Outcome(t, if t.ok then RawTagAfter(s, t.data, rawTag) else rawTag, false, false)
    else if s[p + 1] == SLASH then Outcome(EndTag(s, p), rawTag, false, false)
    else if s[p + 1] == BANG then
      var t := Declaration(s, p + 2, cdata);
      Outcome(t, rawTag, false, t.tt.TextToken?)
    else Outcome(BogusComment(s, p + 1), rawTag, false, false)
  }

  /** The text of a raw element, which may be empty. */
  function RawScan(s: seq<Byte>, p: nat, rawTag: seq<Byte>): (r: Scan)
    requires p <= |s|
    ensures InInput(s, p, r.pos, r.ok)
  {
    if rawTag == PLAINTEXT then Scan(|s|, false)
    else if rawTag == SCRIPT then ScriptText(s, p, Data)
    else RawText(s, p, rawTag)
  }

  /** The token that starts at p. */
  function NextToken(s: seq<Byte>, p: nat, rawTag: seq<Byte>, cdata: bool): (o: Outcome)
    requires p <= |s|
    ensures Sound(s, p, o.token)
  {
    if rawTag == [] then Content(s, p, rawTag, cdata) else
    var r := RawScan(s, p, rawTag);
    var after := if rawTag == PLAINTEXT then rawTag else [];
    if p < r.pos then
      Outcome(Token(TextToken, Span(p, r.pos), [], r.pos, r.ok), after, rawTag != TEXTAREA && rawTag != TITLE, true)
    else Content(s, p, after, cdata)
  }

  /** The types and bytes of the tokens from p on, up to the first error token. */
  function Tokens(s: seq<Byte>, p: nat, rawTag: seq<Byte>, cdata: bool): seq<(TokenType, seq<Byte>)>
    requires p <= |s|
    decreases |s| - p
  {
    var o := NextToken(s, p, rawTag, cdata);
    var first := (o.token.tt, s[p..o.token.pos]);
    if o.token.tt.ErrorToken? then [first] else [first] + Tokens(s, o.token.pos, o.rawTag, cdata)
  }

  /** At the end of the input there is an empty error token, whatever was expected. */
  lemma NextAtEnd(s: seq<Byte>, rawTag: seq<Byte>, cdata: bool)
    ensures NextToken(s, |s|, rawTag, cdata).token == Token(ErrorToken, Span(|s|, |s|), [], |s|, false)
  {
    if rawTag != [] { assert RawScan(s, |s|, rawTag).pos == |s|; }
  }

  function Joined(tokens: seq<(TokenType, seq<Byte>)>): seq<Byte> {
    if tokens == [] then [] else tokens[0].1 + Joined(tokens[1..])
  }

  /** The first token and those behind it. */
  lemma TokensFirst(s: seq<Byte>, p: nat, rawTag: seq<Byte>, cdata: bool)
    returns (tt: TokenType, pos: nat, next: seq<Byte>)
    requires p <= |s|
    ensures var o := NextToken(s, p, rawTag, cdata); tt == o.token.tt && pos == o.token.pos && next == o.rawTag
    ensures p <= pos <= |s| && if tt.ErrorToken? then pos == |s| else p < pos
    ensures Tokens(s, p, rawTag, cdata) ==
      [(tt, s[p..pos])] + if tt.ErrorToken? then [] else Tokens(s, pos, next, cdata)
  {
    var o := NextToken(s, p, rawTag, cdata);
    tt, pos, next := o.token.tt, o.token.pos, o.rawTag;
  }

  lemma {:induction false} JoinedFirst(first: (TokenType, seq<Byte>), rest: seq<(TokenType, seq<Byte>)>)
    ensures Joined([first] + rest) == first.1 + Joined(rest)
  {
    assert ([first] + rest)[1..] == rest;
  }

  /** Nothing of the input is lost, repeated or moved: the bytes of the tokens make up the input. */
  lemma {:induction false} TokensTile(s: seq<Byte>, p: nat, rawTag: seq<Byte>, cdata: bool)
    requires p <= |s|
    ensures Joined(Tokens(s, p, rawTag, cdata)) == s[p..]
    decreases |s| - p
  {
    hide NextToken;
    var tt, pos, next := TokensFirst(s, p, rawTag, cdata);
    if tt.ErrorToken? {
      JoinedFirst((tt, s[p..pos]), []);
    } else {
      TokensTile(s, pos, next, cdata);
      JoinedFirst((tt, s[p..pos]), Tokens(s, pos, next, cdata));
      assert s[p..] == s[p..pos] + s[pos..];
    }
  }

  /** Every token but the last has some bytes, and the last is the only error. */
  lemma {:induction false} TokensProgress(s: seq<Byte>, p: nat, rawTag: seq<Byte>, cdata: bool, i: nat)
    requires p <= |s| && i < |Tokens(s, p, rawTag, cdata)|
    ensures var k := Tokens(s, p, rawTag, cdata);
      if i == |k| - 1 then k[i].0.ErrorToken? else !k[i].0.ErrorToken? && k[i].1 != []
    decreases i
  {
    hide NextToken;
    var tt, pos, next := TokensFirst(s, p, rawTag, cdata);
    if !tt.ErrorToken? {
      var ahead, _, _ := TokensFirst(s, pos, next, cdata);
      if i > 0 { TokensProgress(s, pos, next, cdata, i - 1); }
    }
  }

  // ---------------------------------------------------------------- attributes

  /** Attributes in the order of the input, each key not empty and before its value, between lo and hi. */
  ghost predicate InOrder(list: seq<(Span, Span)>, lo: int, hi: int) {
    && lo <= hi
    && (forall i :: 0 <= i < |list| ==>
      && lo <= list[i].0.start < list[i].0.end <= list[i].1.start <= list[i].1.end <= hi)
    && (forall i, j :: 0 <= i < j < |list| ==> list[i].1.end <= list[j].0.start)
  }

  lemma {:induction false} TagAttrsInOrder(s: seq<Byte>, p: nat, save: bool, list: seq<(Span, Span)>, lo: nat)
    requires p <= |s| && InOrder(list, lo, p)
    ensures var a := TagAttrs(s, p, save, list); InOrder(a.list, lo, a.pos)
    decreases |s| - p
  {
    if p < |s| && s[p] != GT {
      var a := AttrAt(s, p, save, list);
      var k := Until(s, p, AttrKey);
      var v := AttrVal(s, k.pos);
      assert k.end <= k.pos <= v.span.start && v.span.end <= v.pos <= a.pos;
      if a.ok { TagAttrsInOrder(s, a.pos, save, a.list, lo); }
    }
  }

  /** The attributes of a start tag lie inside it, behind its name. */
  lemma StartTagAttrs(s: seq<Byte>, p: nat)
    requires p + 2 <= |s|
    ensures var t := StartTag(s, p); InOrder(t.attrs, t.data.end, t.pos)
  {
    var n := Until(s, p + 2, TagName);
    var w := SkipWhite(s, n.pos);
    if w.ok { TagAttrsInOrder(s, w.pos, true, [], n.end); }
  }
}

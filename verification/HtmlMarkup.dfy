/** Which token stands at a place, said with the characters themselves: text, comments, doctypes, CDATA sections, end
    tags and raw elements (Next and what it calls in net/html/token.go). */
module HtmlMarkup {
  import opened Utf8
  import opened HtmlSyntax
  import opened HtmlLaws
  import opened HtmlTags
  import HtmlEscape

  // ---------------------------------------------------------------- characters

  predicate Says(s: seq<Byte>, p: nat, w: string) {
    p + |w| <= |s| && forall i :: 0 <= i < |w| ==> s[p + i] == w[i] as int
  }

  lemma SaysAt(s: seq<Byte>, p: nat, w: string, i: nat)
    requires Says(s, p, w) && i < |w|
    ensures s[p + i] == w[i] as int
  {
  }

  predicate IsLetter(c: Byte) { 'a' as int <= c <= 'z' as int || 'A' as int <= c <= 'Z' as int }

  /** A letter in lower case, and any other byte as it is. */
  function InLower(c: Byte): Byte { if 'A' as int <= c <= 'Z' as int then c + 32 else c }

  /** The first n letters of a word, in either case. */
  predicate Begun(s: seq<Byte>, p: nat, w: string, n: nat) {
    n <= |w| && p + n <= |s| && forall i :: 0 <= i < n ==> InLower(s[p + i]) == w[i] as int
  }

  predicate SaysAny(s: seq<Byte>, p: nat, w: string) { Begun(s, p, w, |w|) }

  /** The input ends within the word. */
  predicate CutOff(s: seq<Byte>, p: nat, w: string) { p <= |s| < p + |w| && Begun(s, p, w, |s| - p) }

  predicate CutOffExactly(s: seq<Byte>, p: nat, w: string) {
    p <= |s| < p + |w| && forall i :: p <= i < |s| ==> s[i] == w[i - p] as int
  }

  /** e is the first place from p on with the character c, or the end of the input. */
  predicate UpTo(s: seq<Byte>, p: nat, e: int, c: char) {
    p <= e <= |s| && (e < |s| ==> s[e] == c as int) && forall k :: p <= k < e ==> s[k] != c as int
  }

  /** A token with the data from d up to the next ">". */
  predicate ToAngle(s: seq<Byte>, t: Token, tt: TokenType, d: nat) {
    && t.tt == tt && t.data.start == d && UpTo(s, d, t.data.end, '>') && t.attrs == []
    && t.ok == (t.data.end < |s|) && t.pos == if t.ok then t.data.end + 1 else |s|
  }

  // ---------------------------------------------------------------- text

  /** A "<" that opens markup: before a letter, "/", "!" or "?". */
  predicate OpensAt(s: seq<Byte>, x: nat) {
    && x + 1 < |s| && s[x] == '<' as int
    && (IsLetter(s[x + 1]) || s[x + 1] == '/' as int || s[x + 1] == '!' as int || s[x + 1] == '?' as int)
  }

  lemma OpensIs(s: seq<Byte>, x: nat)
    ensures OpensAt(s, x) <==> MarkupAt(s, x)
  {
  }

  /** Where nothing opens markup, there is text up to the place where something does. */
  lemma TextExact(s: seq<Byte>, p: nat, cdata: bool)
    requires p < |s| && !OpensAt(s, p)
    ensures var t := NextToken(s, p, [], cdata).token;
      && t.tt == TextToken && t.data == Span(p, t.pos) && p < t.pos <= |s| && t.ok == (t.pos < |s|)
      && (t.ok ==> OpensAt(s, t.pos)) && forall k :: p <= k < t.pos ==> !OpensAt(s, k)
  {
    MarkupStartIsFirst(s, p);
    forall x ensures OpensAt(s, x) <==> MarkupAt(s, x) { OpensIs(s, x); }
    hide OpensAt, MarkupAt;
  }

  lemma OpenedHere(s: seq<Byte>, p: nat)
    requires OpensAt(s, p)
    ensures p + 1 < |s| && MarkupStart(s, p) == p
  {
  }

  // ---------------------------------------------------------------- bogus comments

  lemma BogusExact(s: seq<Byte>, p: nat)
    requires p <= |s|
    ensures ToAngle(s, BogusComment(s, p), CommentToken, p)
  {
    UntilIsFirst(s, p, Angle);
  }

  /** "<?" opens a comment that ends at the next ">". */
  lemma QuestionExact(s: seq<Byte>, p: nat, cdata: bool)
    requires Says(s, p, "<?")
    ensures ToAngle(s, NextToken(s, p, [], cdata).token, CommentToken, p + 1)
  {
    SaysAt(s, p, "<?", 0);
    SaysAt(s, p, "<?", 1);
    assert NextToken(s, p, [], cdata).token == BogusComment(s, p + 1) by {
      OpenedHere(s, p);
      hide BogusComment;
    }
    BogusExact(s, p + 1);
    hide *;
  }

  // ---------------------------------------------------------------- declarations

  /** A byte that a keyword has at a place, or that in lower case where case does not matter. */
  predicate Same(c: Byte, w: Byte, anyCase: bool) { c == w || (anyCase && c as int == w as int + 32) }

  /** The bytes of a keyword from p on stand where they should, up to place n of it. */
  predicate Stands(s: seq<Byte>, p: nat, word: seq<Byte>, anyCase: bool, n: nat) {
    n <= |word| && p + n <= |s| && forall k :: 0 <= k < n ==> Same(s[p + k], word[k], anyCase)
  }

  lemma StandsMore(s: seq<Byte>, p: nat, word: seq<Byte>, anyCase: bool, n: nat)
    requires Stands(s, p, word, anyCase, n) && n < |word| && p + n < |s|
    ensures Stands(s, p, word, anyCase, n + 1) <==> Same(s[p + n], word[n], anyCase)
  {
    hide Same;
  }

  lemma StandsLess(s: seq<Byte>, p: nat, word: seq<Byte>, anyCase: bool, n: nat, m: nat)
    requires Stands(s, p, word, anyCase, n) && m <= n
    ensures Stands(s, p, word, anyCase, m)
  {
    hide Same;
  }

  /** A keyword is found if it stands there; if the input ends within it the scan is at the end, and otherwise back. */
  lemma {:induction false} KeywordExact(s: seq<Byte>, p: nat, word: seq<Byte>, anyCase: bool, i: nat)
    requires Stands(s, p, word, anyCase, i)
    ensures Keyword(s, p + i, word, anyCase, i) ==
      if Stands(s, p, word, anyCase, |word|) then Match(true, p + |word|, true)
      else if |s| < p + |word| && Stands(s, p, word, anyCase, |s| - p) then Match(false, |s|, false)
      else Match(false, p, true)
    decreases |word| - i
  {
    hide Stands, Same;
    StandsIn(s, p, word, anyCase, i);
    if i < |word| && p + i < |s| {
      StandsMore(s, p, word, anyCase, i);
      if Same(s[p + i], word[i], anyCase) {
        KeywordExact(s, p, word, anyCase, i + 1);
        KeywordStep(s, p + i, word, anyCase, i);
      } else {
        if Stands(s, p, word, anyCase, |word|) { StandsLess(s, p, word, anyCase, |word|, i + 1); }
        if |s| < p + |word| && Stands(s, p, word, anyCase, |s| - p) {
          StandsLess(s, p, word, anyCase, |s| - p, i + 1);
        }
        KeywordStep(s, p + i, word, anyCase, i);
      }
    } else if i < |word| && Stands(s, p, word, anyCase, |word|) {
      StandsIn(s, p, word, anyCase, |word|);
    }
  }

  lemma StandsIn(s: seq<Byte>, p: nat, word: seq<Byte>, anyCase: bool, n: nat)
    requires Stands(s, p, word, anyCase, n)
    ensures n <= |word| && p + n <= |s|
  {
  }

  lemma KeywordStep(s: seq<Byte>, p: nat, word: seq<Byte>, anyCase: bool, i: nat)
    requires i <= p < |s| && i < |word|
    ensures Keyword(s, p, word, anyCase, i) ==
      if Same(s[p], word[i], anyCase) then Keyword(s, p + 1, word, anyCase, i + 1) else Match(false, p - i, true)
  {
  }

  lemma DoctypeIs(s: seq<Byte>, p: nat, n: nat)
    ensures Stands(s, p, DOCTYPE, true, n) <==> Begun(s, p, "doctype", n)
  {
    forall c: Byte, k | 0 <= k < 7 ensures Same(c, DOCTYPE[k], true) <==> InLower(c) == "doctype"[k] as int { }
    hide Same, InLower;
    if n <= 7 && p + n <= |s| {
      assert Stands(s, p, DOCTYPE, true, n) ==> Begun(s, p, "doctype", n) by {
        if Stands(s, p, DOCTYPE, true, n) {
          forall k | 0 <= k < n ensures InLower(s[p + k]) == "doctype"[k] as int {
            assert Same(s[p + k], DOCTYPE[k], true);
          }
        }
      }
      assert Begun(s, p, "doctype", n) ==> Stands(s, p, DOCTYPE, true, n) by {
        if Begun(s, p, "doctype", n) {
          forall k | 0 <= k < n ensures Same(s[p + k], DOCTYPE[k], true) {
            assert InLower(s[p + k]) == "doctype"[k] as int;
          }
        }
      }
    }
  }

  lemma SectionIs(s: seq<Byte>, p: nat)
    ensures Stands(s, p, CDATA, false, 7) <==> Says(s, p, "[CDATA[")
    ensures CutOffExactly(s, p, "[CDATA[") <==> p <= |s| < p + 7 && Stands(s, p, CDATA, false, |s| - p)
  {
    assert forall k :: 0 <= k < 7 ==> CDATA[k] == "[CDATA["[k] as int;
    assert forall i :: p <= i < |s| && p + 7 > |s| ==> s[i] == s[p + (i - p)];
  }

  /** e is the first place from p on that is not blank, or the end of the input. */
  predicate Ink(s: seq<Byte>, p: nat, e: int) {
    p <= e <= |s| && (e < |s| ==> !Blank(s[e])) && forall k :: p <= k < e ==> Blank(s[k])
  }

  lemma {:induction false} SkipExact(s: seq<Byte>, p: nat)
    requires p <= |s|
    ensures var w := SkipWhite(s, p); Ink(s, p, w.pos) && w.ok == (w.pos < |s|)
    decreases |s| - p
  {
    if p < |s| {
      EndersAre(s[p]);
      if White(s[p]) { SkipExact(s, p + 1); }
    }
  }

  /** A doctype, behind its keyword: what is not blank, up to the next ">". */
  predicate ADoctype(s: seq<Byte>, t: Token, p: nat) {
    Ink(s, p, t.data.start) && ToAngle(s, t, DoctypeToken, t.data.start)
  }

  lemma DoctypeExact(s: seq<Byte>, p: nat)
    requires p <= |s|
    ensures ADoctype(s, Doctype(s, p), p)
  {
    SkipExact(s, p);
    var w := SkipWhite(s, p).pos;
    UntilIsFirst(s, w, Angle);
    hide Ink;
  }

  /** A CDATA section, behind its opening: text up to the first "]]>". */
  predicate ASection(s: seq<Byte>, t: Token, p: nat) {
    && t.tt == TextToken && t.data.start == p <= t.data.end <= |s| && t.attrs == []
    && (if t.ok then Says(s, t.data.end, "]]>") && t.pos == t.data.end + 3 else t.data.end == t.pos == |s|)
    && forall x :: p <= x < t.data.end ==> !Says(s, x, "]]>")
  }

  lemma SectionEndIs(s: seq<Byte>, x: nat)
    ensures SectionEndsAt(s, x) <==> Says(s, x, "]]>")
  {
    if Says(s, x, "]]>") {
      SaysAt(s, x, "]]>", 0);
      SaysAt(s, x, "]]>", 1);
      SaysAt(s, x, "]]>", 2);
    }
  }

  lemma SectionExact(s: seq<Byte>, p: nat)
    requires p <= |s| && (p > 0 ==> s[p - 1] != ']' as int)
    ensures ASection(s, CdataSection(s, p), p)
  {
    CdataEndsAtFirst(s, p, 0);
    forall x ensures SectionEndsAt(s, x) <==> Says(s, x, "]]>") { SectionEndIs(s, x); }
    hide Says, SectionEndsAt, CdataText;
  }

  /** A comment whose "<!--" stands at p: up to the first of its closings that is seen, or to the end of the input. */
  predicate AComment(s: seq<Byte>, t: Token, p: nat)
    requires p + 4 <= |s|
  {
    && t.tt == CommentToken && t.data.start == p + 4 && t.attrs == []
    && (t.ok ==> exists x :: p + 2 <= x <= |s| && SeenClosing(s, p + 2, x) && CommentTo(t, p, x, x + ClosingSize(s, x)))
    && (!t.ok ==> CommentTo(t, p, |s| - LastDashes(s, p + 2), |s|))
    && forall x :: p + 2 <= x <= |s| && SeenClosing(s, p + 2, x) ==> t.ok && t.pos <= x + ClosingSize(s, x)
  }

  predicate CommentTo(t: Token, p: nat, end: int, pos: nat) {
    t.data.end == (if end < p + 4 then p + 4 else end) && t.pos == pos
  }

  lemma CommentReads(s: seq<Byte>, p: nat, cdata: bool)
    requires Says(s, p, "<!--")
    ensures AComment(s, Declaration(s, p + 2, cdata), p)
  {
    SaysAt(s, p, "<!--", 2);
    SaysAt(s, p, "<!--", 3);
    CommentExact(s, p + 2);
    ClosingsEnd(s, p + 2);
    var t, c := Declaration(s, p + 2, cdata), Comment(s, p + 4, 2);
    hide Comment, SeenClosing, LastDashes, Says;
    assert t == Token(CommentToken, Span(p + 4, if c.end < p + 4 then p + 4 else c.end), [], c.pos, c.ok);
    if t.ok { assert SeenClosing(s, p + 2, c.end) && CommentTo(t, p, c.end, c.end + ClosingSize(s, c.end)); }
  }

  /** A closing that comes first ends first. */
  lemma ClosingsEnd(s: seq<Byte>, a: nat)
    ensures forall x, y :: a <= x <= y <= |s| && SeenClosing(s, a, x) && SeenClosing(s, a, y) ==>
      x + ClosingSize(s, x) <= y + ClosingSize(s, y)
  {
    hide Bangs;
  }

  /** What stands behind "<!", if it is no comment with dashes. */
  predicate ADeclaration(s: seq<Byte>, t: Token, p: nat, cdata: bool) {
    && p <= |s|
    && if SaysAny(s, p, "doctype") then ADoctype(s, t, p + 7)
       else if cdata && Says(s, p, "[CDATA[") then ASection(s, t, p + 7)
       else if CutOff(s, p, "doctype") || (cdata && CutOffExactly(s, p, "[CDATA[")) then
         t == Token(CommentToken, Span(|s|, |s|), [], |s|, false)
       else ToAngle(s, t, CommentToken, p)
  }

  lemma BogusAtEnd(s: seq<Byte>)
    ensures BogusComment(s, |s|) == Token(CommentToken, Span(|s|, |s|), [], |s|, false)
  {
  }

  lemma SectionOpens(s: seq<Byte>, p: nat)
    requires Says(s, p, "[CDATA[")
    ensures s[p + 6] != ']' as int
  {
    SaysAt(s, p, "[CDATA[", 6);
  }

  /** A section is looked for where the doctype's keyword is not, and where it is not cut off. */
  lemma NotBoth(s: seq<Byte>, p: nat)
    requires p < |s| && CutOff(s, p, "doctype")
    ensures !Says(s, p, "[CDATA[") && !CutOffExactly(s, p, "[CDATA[")
  {
    assert InLower(s[p + 0]) == "doctype"[0] as int;
    assert s[p + 0] != "[CDATA["[0] as int;
    assert s[p] != "[CDATA["[p - p] as int;
  }

  lemma {:induction false} KeywordedExact(s: seq<Byte>, p: nat, cdata: bool)
    requires p < |s|
    ensures ADeclaration(s, Keyworded(s, p, cdata), p, cdata)
  {
    hide Says, Begun, CutOffExactly, Keyword, Stands, BogusComment, Doctype, CdataSection;
    KeywordAt(s, p, DOCTYPE, true);
    DoctypeIs(s, p, 7);
    if p + 7 > |s| { DoctypeIs(s, p, |s| - p); }
    KeywordAt(s, p, CDATA, false);
    SectionIs(s, p);
    var d := Keyword(s, p, DOCTYPE, true, 0);
    BogusExact(s, p);
    BogusAtEnd(s);
    if d.found {
      DoctypeExact(s, p + 7);
    } else if d.ok {
      if Says(s, p, "[CDATA[") { SectionOpens(s, p); SectionExact(s, p + 7); }
    } else {
      NotBoth(s, p);
      KeywordNowhere(s, CDATA, false);
    }
  }

  lemma KeywordAt(s: seq<Byte>, p: nat, word: seq<Byte>, anyCase: bool)
    requires p <= |s|
    ensures Keyword(s, p, word, anyCase, 0) ==
      if Stands(s, p, word, anyCase, |word|) then Match(true, p + |word|, true)
      else if |s| < p + |word| && Stands(s, p, word, anyCase, |s| - p) then Match(false, |s|, false)
      else Match(false, p, true)
    ensures Stands(s, p, word, anyCase, |word|) ==> p + |word| <= |s|
  {
    KeywordExact(s, p, word, anyCase, 0);
  }

  lemma KeywordNowhere(s: seq<Byte>, word: seq<Byte>, anyCase: bool)
    requires word != []
    ensures Keyword(s, |s|, word, anyCase, 0) == Match(false, |s|, false)
  {
  }

  /** "<!" opens a comment with dashes, a doctype in any case, a CDATA section where these are allowed, and otherwise
      a comment up to the next ">".  At the end of the input, what could still have become a keyword is in no token's
      data, and a single byte behind the "<!" is data even if it is a ">". */
  lemma {:induction false} DeclarationExact(s: seq<Byte>, p: nat, cdata: bool)
    requires Says(s, p, "<!")
    ensures var o := NextToken(s, p, [], cdata);
      && (if |s| < p + 4 then o.token == Token(CommentToken, Span(p + 2, |s|), [], |s|, false)
          else if Says(s, p, "<!--") then AComment(s, o.token, p)
          else ADeclaration(s, o.token, p + 2, cdata))
      && o.rawTag == [] && !o.textIsRaw && o.convertNUL == o.token.tt.TextToken?
  {
    SaysAt(s, p, "<!", 0);
    SaysAt(s, p, "<!", 1);
    DeclarationIsNext(s, p, cdata);
    if |s| >= p + 4 {
      DashesAre(s, p);
      if Says(s, p, "<!--") { CommentReads(s, p, cdata); } else { KeywordedExact(s, p + 2, cdata); }
    }
    hide Says, NextToken, AComment, ADeclaration, Keyworded, Comment;
  }

  lemma DashesAre(s: seq<Byte>, p: nat)
    requires Says(s, p, "<!") && |s| >= p + 4
    ensures Says(s, p, "<!--") <==> s[p + 2] == '-' as int && s[p + 3] == '-' as int
  {
    SaysAt(s, p, "<!", 0);
    SaysAt(s, p, "<!", 1);
    if Says(s, p, "<!--") {
      SaysAt(s, p, "<!--", 2);
      SaysAt(s, p, "<!--", 3);
    }
  }

  lemma DeclarationIsNext(s: seq<Byte>, p: nat, cdata: bool)
    requires p + 2 <= |s| && s[p] == '<' as int && s[p + 1] == '!' as int
    ensures var t := Declaration(s, p + 2, cdata); NextToken(s, p, [], cdata) == Outcome(t, [], false, t.tt.TextToken?)
  {
    OpenedHere(s, p);
    hide Declaration;
  }

  // ---------------------------------------------------------------- what "</" opens

  /** "</" at the end of the input is text; "</>" is an empty comment; before a letter there is an end tag, which must
      end within the input; and before any other byte a comment up to the next ">". */
  lemma {:induction false} SlashExact(s: seq<Byte>, p: nat, cdata: bool)
    requires Says(s, p, "</")
    ensures var t := NextToken(s, p, [], cdata).token;
      if p + 2 == |s| then t == Token(TextToken, Span(p, |s|), [], |s|, false)
      else if s[p + 2] == '>' as int then t == Token(CommentToken, Span(p, p), [], p + 3, true)
      else if IsLetter(s[p + 2]) then t.tt == (if t.ok then EndTagToken else ErrorToken) && t.attrs == []
      else ToAngle(s, t, CommentToken, p + 2)
  {
    SaysAt(s, p, "</", 0);
    SaysAt(s, p, "</", 1);
    OpenedHere(s, p);
    if p + 2 < |s| {
      if IsLetter(s[p + 2]) { EndIsNext(s, p, cdata); BodyUnsaved(s, p + 3); } else { BogusExact(s, p + 2); }
    }
    hide Says, TagBody, BogusComment;
  }

  // ---------------------------------------------------------------- raw elements

  /** The elements whose content is not markup. */
  function RawWords(): seq<string> {
    ["iframe", "noembed", "noframes", "noscript", "plaintext", "script", "style", "textarea", "title", "xmp"]
  }

  predicate Spells(b: seq<Byte>, w: string) { |b| == |w| && forall i :: 0 <= i < |w| ==> b[i] == w[i] as int }

  /** The name is the word, in any case. */
  predicate Names(b: seq<Byte>, w: string) { |b| == |w| && forall i :: 0 <= i < |w| ==> InLower(b[i]) == w[i] as int }

  lemma SpelledOnce(b: seq<Byte>, b': seq<Byte>, w: string, w': string)
    requires Spells(b, w) && Spells(b', w')
    ensures b == b' <==> w == w'
  {
    if b == b' {
      forall i | 0 <= i < |w| ensures w[i] == w'[i] { assert w[i] as int == b[i] == w'[i] as int; }
    }
    if w == w' {
      forall i | 0 <= i < |w| ensures b[i] == b'[i] { assert b[i] == w[i] as int == b'[i]; }
    }
  }

  lemma Spelling()
    ensures Spells(IFRAME, "iframe") && Spells(NOEMBED, "noembed") && Spells(NOFRAMES, "noframes")
    ensures Spells(NOSCRIPT, "noscript") && Spells(PLAINTEXT, "plaintext") && Spells(SCRIPT, "script")
    ensures Spells(STYLE, "style") && Spells(TEXTAREA, "textarea") && Spells(TITLE, "title") && Spells(XMP, "xmp")
  {
  }

  function RawTags(): seq<seq<Byte>> {
    [IFRAME, NOEMBED, NOFRAMES, NOSCRIPT, PLAINTEXT, SCRIPT, STYLE, TEXTAREA, TITLE, XMP]
  }

  lemma RawTagsAre(b: seq<Byte>)
    ensures IsRawTag(b) <==> b in RawTags()
  {
    var raw := RawTags();
    assert raw[0] == IFRAME && raw[1] == NOEMBED && raw[2] == NOFRAMES && raw[3] == NOSCRIPT && raw[4] == PLAINTEXT;
    assert raw[5] == SCRIPT && raw[6] == STYLE && raw[7] == TEXTAREA && raw[8] == TITLE && raw[9] == XMP;
  }

  lemma RawSpelled(i: nat)
    requires i < 10
    ensures |RawWords()| == |RawTags()| == 10 && Spells(RawTags()[i], RawWords()[i])
  {
    Spelling();
    hide Spells;
  }

  /** The raw elements are those. */
  lemma RawElementsAre(b: seq<Byte>)
    ensures IsRawTag(b) <==> exists w :: w in RawWords() && Spells(b, w)
  {
    hide *;
    RawTagsAre(b);
    RawSpelled(0);
    if b in RawTags() {
      var i :| 0 <= i < 10 && b == RawTags()[i];
      RawSpelled(i);
    }
    if w :| w in RawWords() && Spells(b, w) {
      var i :| 0 <= i < 10 && w == RawWords()[i];
      RawSpelled(i);
      SpelledOnce(b, RawTags()[i], w, w);
    }
  }

  /** The start tag of a raw element, in any case, makes its name in lower case the raw text that is expected; no other
      start tag makes any expected. */
  lemma RawTagExact(s: seq<Byte>, p: nat, cdata: bool)
    requires OpensAt(s, p) && IsLetter(s[p + 1]) && NextToken(s, p, [], cdata).token.ok
    ensures var o := NextToken(s, p, [], cdata); var name := s[o.token.data.start..o.token.data.end];
      && (forall w :: w in RawWords() && Names(name, w) ==> Spells(o.rawTag, w))
      && ((forall w :: w in RawWords() ==> !Names(name, w)) ==> o.rawTag == [])
      && !o.textIsRaw && !o.convertNUL
  {
    var o := NextToken(s, p, [], cdata);
    var name := s[o.token.data.start..o.token.data.end];
    StartIsNext(s, p, cdata);
    hide *;
    RawElementsAre(Lower(name));
    forall w ensures Spells(Lower(name), w) <==> Names(name, w) { LowerNames(name, w); }
  }

  lemma StartIsNext(s: seq<Byte>, p: nat, cdata: bool)
    requires OpensAt(s, p) && IsLetter(s[p + 1]) && NextToken(s, p, [], cdata).token.ok
    ensures var o := NextToken(s, p, [], cdata); var name := s[o.token.data.start..o.token.data.end];
      o.rawTag == (if IsRawTag(Lower(name)) then Lower(name) else []) && !o.textIsRaw && !o.convertNUL
  {
    OpenedHere(s, p);
    hide StartTag, Lower, IsRawTag;
  }

  lemma LowerNames(name: seq<Byte>, w: string)
    ensures Spells(Lower(name), w) <==> Names(name, w)
  {
    forall i | 0 <= i < |name| ensures Lower(name)[i] == InLower(name[i]) { }
    hide Lower, InLower;
  }

  /** An end tag with the word as its name, in any case, begins at x. */
  predicate EndsHere(s: seq<Byte>, x: nat, w: string) {
    && x + 2 + |w| < |s| && s[x] == '<' as int && s[x + 1] == '/' as int && SaysAny(s, x + 2, w)
    && var c := s[x + 2 + |w|]; Blank(c) || c == '/' as int || c == '>' as int
  }

  lemma EndTagIs(s: seq<Byte>, x: nat, tag: seq<Byte>, w: string)
    requires Spells(tag, w) && LowerCase(tag)
    ensures EndTagAt(s, x, tag) <==> EndsHere(s, x, w)
  {
    if x + 2 + |w| < |s| {
      EndersAre(s[x + 2 + |w|]);
      forall i | 0 <= i < |w| ensures EitherCase(s[x + 2 + i], tag[i]) <==> InLower(s[x + 2 + i]) == w[i] as int { }
      hide EitherCase, InLower;
    }
  }

  /** The end tags that end the element whose content begins at p. */
  predicate Shuts(s: seq<Byte>, p: nat, x: nat, w: string)
    requires p <= x <= |s|
  {
    EndsHere(s, x, w) && if w == "script" then CoverAt(s, p, x) != Nested else Angles(s, p, x) % 2 == 0
  }

  /** Where a scan of the content stops: at the first end tag that ends the element, or at the end of the input. */
  ghost predicate Stops(s: seq<Byte>, p: nat, w: string, r: Scan) {
    && p <= r.pos <= |s| && (if r.ok then Shuts(s, p, r.pos, w) else r.pos == |s|)
    && forall x :: p <= x < r.pos ==> !Shuts(s, p, x, w)
  }

  lemma {:induction false} ContentStops(s: seq<Byte>, p: nat, tag: seq<Byte>, w: string)
    requires p <= |s| && w in RawWords() && Spells(tag, w) && w != "plaintext"
    ensures Stops(s, p, w, RawScan(s, p, tag))
  {
    hide *;
    RawIsLower(tag, w);
    forall x ensures EndTagAt(s, x, tag) <==> EndsHere(s, x, w) { EndTagIs(s, x, tag, w); }
    ScanIs(s, p, tag, w);
    if w == "script" {
      ScriptExact(s, p);
      OpenStops(s, p, tag, RawScan(s, p, tag));
    } else {
      RawTextExact(s, p, tag);
      SeenStops(s, p, tag, w, RawScan(s, p, tag));
    }
  }

  lemma RawIsLower(tag: seq<Byte>, w: string)
    requires w in RawWords() && Spells(tag, w)
    ensures LowerCase(tag) && tag != []
  {
    forall i | 0 <= i < |w| ensures 'a' <= w[i] <= 'z' { }
  }

  lemma ScanIs(s: seq<Byte>, p: nat, tag: seq<Byte>, w: string)
    requires p <= |s| && Spells(tag, w)
    ensures RawScan(s, p, tag) ==
      if w == "plaintext" then Scan(|s|, false)
      else if w == "script" then ScriptText(s, p, Data) else RawText(s, p, tag)
    ensures w == "script" ==> tag == SCRIPT
  {
    Spelling();
    SpelledOnce(tag, PLAINTEXT, w, "plaintext");
    SpelledOnce(tag, SCRIPT, w, "script");
    hide Spells, ScriptText, RawText;
  }

  lemma OpenStops(s: seq<Byte>, p: nat, tag: seq<Byte>, r: Scan)
    requires p <= |s| && tag == SCRIPT && EndsAtOpen(s, p, r.pos, r.ok)
    requires forall x: nat :: EndTagAt(s, x, tag) <==> EndsHere(s, x, "script")
    ensures Stops(s, p, "script", r)
  {
    hide EndTagAt, EndsHere, CoverAt;
    forall x | p <= x <= |s| ensures Open(s, p, x) <==> Shuts(s, p, x, "script") {
      assert EndTagAt(s, x, tag) <==> EndsHere(s, x, "script");
    }
  }

  lemma SeenStops(s: seq<Byte>, p: nat, tag: seq<Byte>, w: string, r: Scan)
    requires p <= |s| && w != "script" && EndsAtSeen(s, p, r, tag)
    requires forall x: nat :: EndTagAt(s, x, tag) <==> EndsHere(s, x, w)
    ensures Stops(s, p, w, r)
  {
    hide EndTagAt, EndsHere, Angles;
    forall x | p <= x <= |s| ensures Seen(s, p, x, tag) <==> Shuts(s, p, x, w) {
      assert EndTagAt(s, x, tag) <==> EndsHere(s, x, w);
    }
  }

  /** The content of a raw element is one text up to the end tag that ends it, in which only "textarea" and "title" have
      character references; that of "plaintext" has no end.  If there is no content, what comes is read as ever. */
  lemma {:induction false} RawContentExact(s: seq<Byte>, p: nat, tag: seq<Byte>, w: string, cdata: bool)
      returns (r: Scan)
    requires p <= |s| && w in RawWords() && Spells(tag, w)
    ensures if w == "plaintext" then r == Scan(|s|, false) else Stops(s, p, w, r)
    ensures var o, after := NextToken(s, p, tag, cdata), if w == "plaintext" then tag else [];
      if p < r.pos then
        && o.token == Token(TextToken, Span(p, r.pos), [], r.pos, r.ok)
        && o.rawTag == after && o.textIsRaw == (w != "textarea" && w != "title") && o.convertNUL
      else o == Content(s, p, after, cdata)
  {
    r := RawScan(s, p, tag);
    ScanIs(s, p, tag, w);
    if w != "plaintext" { ContentStops(s, p, tag, w); }
    RawIsLower(tag, w);
    Spelling();
    SpelledOnce(tag, PLAINTEXT, w, "plaintext");
    SpelledOnce(tag, TEXTAREA, w, "textarea");
    SpelledOnce(tag, TITLE, w, "title");
    hide Spells, RawWords, Stops, RawScan, Content, LowerCase;
  }

  // ---------------------------------------------------------------- escapes

  /** What is escaped, and as what: six bytes, and every other is left. */
  lemma EscapesAre(c: Byte)
    ensures var e := HtmlEscape.Escape1(c);
      if c == '&' as int then Spells(e, "&amp;")
      else if c == '<' as int then Spells(e, "&lt;")
      else if c == '>' as int then Spells(e, "&gt;")
      else if c == '"' as int then Spells(e, "&#34;")
      else if c == '\'' as int then Spells(e, "&#39;")
      else if c == '\r' as int then Spells(e, "&#13;")
      else e == [c]
  {
  }
}

/** Escaping against the whole of reading: what net/html/escape.go writes, the tokenizer of
    net/html/token.go finds again, as one text or as one attribute value, and hands out as it was. */
module HtmlRoundTrip {
  import opened Utf8
  import HtmlEscape
  import HtmlSyntax

  /** Nothing in a stretch of input starts markup if nothing in it is a "<". */
  lemma {:induction false} NoMarkup(s: seq<Byte>, p: nat)
    requires p <= |s| && forall k :: p <= k < |s| ==> s[k] != HtmlSyntax.LT
    ensures HtmlSyntax.MarkupStart(s, p) == |s|
    decreases |s| - p
  {
    if p < |s| { NoMarkup(s, p + 1); }
  }

  /** Escaped text is read as one text token, up to its last byte, and then as the text it was. */
  lemma {:induction false} TextSurvives(t: HtmlEscape.Tables, text: seq<Byte>, cdata: bool)
    requires t.HasBasics() && text != []
    ensures var w := HtmlEscape.Escaped(text);
      var o := HtmlSyntax.NextToken(w, 0, [], cdata);
      && o.token == HtmlSyntax.Token(HtmlSyntax.TextToken, HtmlSyntax.Span(0, |w|), [], |w|, false) && !o.textIsRaw
      && HtmlEscape.Unescaped(t, HtmlEscape.Newlines(w), false) == text
  {
    var w := HtmlEscape.Escaped(text);
    HtmlEscape.EscapedIsInert(text);
    HtmlEscape.EscapedSurvivesReading(t, text, false);
    NoMarkup(w, 0);
    assert |w| >= |HtmlEscape.Escape1(text[0])| > 0;
  }

  /** A quoted value runs up to the first quote. */
  lemma {:induction false} UpToQuote(s: seq<Byte>, p: nat, e: nat)
    requires p <= e < |s| && s[e] == HtmlSyntax.QUOTE && forall k :: p <= k < e ==> s[k] != HtmlSyntax.QUOTE
    ensures HtmlSyntax.Until(s, p, HtmlSyntax.Quoted(HtmlSyntax.QUOTE)) == HtmlSyntax.Piece(e, e + 1, true)
    decreases e - p
  {
    if p < e { UpToQuote(s, p + 1, e); }
  }

  /** An escaped value between double quotes is read as that attribute's value, whatever stands before
      and behind it, and then as the value it was. */
  lemma {:induction false} ValueSurvives(t: HtmlEscape.Tables, before: seq<Byte>, value: seq<Byte>, after: seq<Byte>)
    requires t.HasBasics()
    ensures var w := HtmlEscape.Escaped(value);
      var s := before + [HtmlSyntax.EQUALS, HtmlSyntax.QUOTE] + w + [HtmlSyntax.QUOTE] + after;
      var p := |before| + 2;
      && HtmlSyntax.AttrVal(s, |before|) == HtmlSyntax.Value(HtmlSyntax.Span(p, p + |w|), p + |w| + 1, true)
      && s[p..p + |w|] == w && HtmlEscape.Unescaped(t, HtmlEscape.Newlines(w), true) == value
  {
    var w := HtmlEscape.Escaped(value);
    var s := before + [HtmlSyntax.EQUALS, HtmlSyntax.QUOTE] + w + [HtmlSyntax.QUOTE] + after;
    HtmlEscape.EscapedIsInert(value);
    HtmlEscape.EscapedSurvivesReading(t, value, true);
    hide HtmlEscape.Escaped, HtmlEscape.Unescaped, HtmlEscape.Newlines, HtmlSyntax.AttrVal;
    assert s[|before| + 2..|before| + 2 + |w|] == w;
    QuotedRead(s, |before|, |w|);
  }

  /** A value between double quotes is read up to the second of them. */
  lemma QuotedRead(s: seq<Byte>, n: nat, size: nat)
    requires n + 2 + size < |s| && s[n] == HtmlSyntax.EQUALS && s[n + 1] == HtmlSyntax.QUOTE
    requires s[n + 2 + size] == HtmlSyntax.QUOTE
    requires HtmlSyntax.QUOTE !in s[n + 2..n + 2 + size]
    ensures HtmlSyntax.AttrVal(s, n) == HtmlSyntax.Value(HtmlSyntax.Span(n + 2, n + 2 + size), n + 2 + size + 1, true)
  {
    forall k | n + 2 <= k < n + 2 + size ensures s[k] != HtmlSyntax.QUOTE {
      assert s[k] == s[n + 2..n + 2 + size][k - n - 2];
    }
    UpToQuote(s, n + 2, n + 2 + size);
    assert HtmlSyntax.SkipWhite(s, n) == HtmlSyntax.Scan(n, true);
    assert HtmlSyntax.SkipWhite(s, n + 1) == HtmlSyntax.Scan(n + 1, true);
  }
}

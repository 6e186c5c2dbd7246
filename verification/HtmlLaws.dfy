/** What the scans of HtmlSyntax mean, said without them: what a piece ends at, what a raw text ends at and
    which end tags it runs over, what stands behind a comment's or a section's data. */
module HtmlLaws {
  import opened Utf8
  import opened HtmlSyntax

  /** A piece runs up to the first byte that ends it. */
  lemma {:induction false} UntilIsFirst(s: seq<Byte>, p: nat, e: Ender)
    requires p <= |s|
    ensures var r := Until(s, p, e);
      && (forall k :: p <= k < r.end ==> !e.On(s[k]).0)
      && (if r.ok then r.end < |s| && e.On(s[r.end]).0 && r.pos == r.end + (if e.On(s[r.end]).1 then 0 else 1)
          else r.end == |s|)
    decreases |s| - p
  {
    if p < |s| && !e.On(s[p]).0 { UntilIsFirst(s, p + 1, e); }
  }

  /** Markup starts at x. */
  predicate MarkupAt(s: seq<Byte>, x: nat) { x + 1 < |s| && s[x] == LT && OpensMarkup(s[x + 1]) }

  /** The first markup is the first. */
  lemma {:induction false} MarkupStartIsFirst(s: seq<Byte>, p: nat)
    requires p <= |s|
    ensures var x := MarkupStart(s, p); (x < |s| ==> MarkupAt(s, x)) && forall k :: p <= k < x ==> !MarkupAt(s, k)
    decreases |s| - p
  {
    if |s| - p >= 2 && !MarkupAt(s, p) { MarkupStartIsFirst(s, p + 1); }
  }

  // ---------------------------------------------------------------- raw text

  predicate LowerCase(tag: seq<Byte>) { forall i :: 0 <= i < |tag| ==> 97 <= tag[i] <= 122 }

  /** The tag's letters in either case stand at p, and then a byte that ends a name. */
  predicate WordAt(s: seq<Byte>, p: nat, word: seq<Byte>, i: nat)
    requires i <= |word|
  {
    && p + (|word| - i) < |s| && EndsName(s[p + (|word| - i)])
    && forall k :: i <= k < |word| ==> EitherCase(s[p + (k - i)], word[k])
  }

  predicate EndTagAt(s: seq<Byte>, x: nat, tag: seq<Byte>) {
    x + 1 < |s| && s[x] == LT && s[x + 1] == SLASH && WordAt(s, x + 2, tag, 0)
  }

  /** A word is found exactly if it is there; where it is not, a scan has passed only letters. */
  lemma {:induction false} WordExact(s: seq<Byte>, p: nat, word: seq<Byte>, i: nat)
    requires p <= |s| && i <= |word| && LowerCase(word)
    ensures var r := Word(s, p, word, i);
      (r.found <==> WordAt(s, p, word, i)) && (!r.found ==> forall k :: p <= k < r.pos ==> Letter(s[k]))
    decreases |s| - p
  {
    if p < |s| && i < |word| {
      if EitherCase(s[p], word[i]) {
        WordExact(s, p + 1, word, i + 1);
        assert WordAt(s, p, word, i) ==> WordAt(s, p + 1, word, i + 1) by {
          if WordAt(s, p, word, i) {
            forall k | i + 1 <= k < |word| ensures EitherCase(s[p + 1 + (k - (i + 1))], word[k]) {
              assert EitherCase(s[p + (k - i)], word[k]);
            }
          }
        }
        assert WordAt(s, p + 1, word, i + 1) ==> WordAt(s, p, word, i) by {
          if WordAt(s, p + 1, word, i + 1) {
            forall k | i <= k < |word| ensures EitherCase(s[p + (k - i)], word[k]) {
              if k > i { assert EitherCase(s[p + 1 + (k - (i + 1))], word[k]); }
            }
          }
        }
      }
    }
  }

  /** How many "<" stand directly before x, counted from p on. */
  function Angles(s: seq<Byte>, p: nat, x: nat): nat
    requires p <= x <= |s|
    decreases x - p
  {
    if x > p && s[x - 1] == LT then 1 + Angles(s, p, x - 1) else 0
  }

  /** The end tags that the source sees: those that an even number of "<" directly precede. */
  predicate Seen(s: seq<Byte>, p: nat, x: nat, tag: seq<Byte>)
    requires p <= x <= |s|
  {
    EndTagAt(s, x, tag) && Angles(s, p, x) % 2 == 0
  }

  /** Counting from behind a byte that is no "<" changes nothing. */
  lemma {:induction false} AnglesBehind(s: seq<Byte>, p: nat, p': nat, x: nat)
    requires p < p' <= x <= |s| && s[p' - 1] != LT
    ensures Angles(s, p, x) == Angles(s, p', x)
    decreases x - p'
  {
    if x > p' && s[x - 1] == LT { AnglesBehind(s, p, p', x - 1); }
  }

  /** Two bytes, the first of them "<", change the count by an even number. */
  lemma {:induction false} AnglesPair(s: seq<Byte>, p: nat, x: nat)
    requires p + 2 <= x <= |s| && s[p] == LT
    ensures Angles(s, p, x) % 2 == Angles(s, p + 2, x) % 2
    decreases x - p
  {
    if x > p + 2 {
      if s[x - 1] == LT { AnglesPair(s, p, x - 1); }
    } else if s[p + 1] == LT {
      assert Angles(s, p, p + 1) == 1 + Angles(s, p, p);
    }
  }

  /** Between p and the end of a scan no end tag is seen, and at its end one is if it is ok. */
  ghost predicate EndsAtSeen(s: seq<Byte>, p: nat, r: Scan, tag: seq<Byte>)
    requires p <= |s|
  {
    && p <= r.pos <= |s| && (!r.ok ==> r.pos == |s|)
    && (r.ok ==> Seen(s, p, r.pos, tag))
    && forall x :: p <= x < r.pos ==> !Seen(s, p, x, tag)
  }

  /** Going on from p' instead of p, where nothing is seen between and the count is the same. */
  lemma {:induction false} EndsAtSeenFrom(s: seq<Byte>, p: nat, p': nat, r: Scan, tag: seq<Byte>)
    requires p <= p' <= |s| && EndsAtSeen(s, p', r, tag)
    requires forall x :: p <= x < p' ==> !Seen(s, p, x, tag)
    requires forall x :: p' <= x <= |s| ==> Angles(s, p, x) % 2 == Angles(s, p', x) % 2
    ensures EndsAtSeen(s, p, r, tag)
  {
    forall x | p' <= x <= |s| ensures Seen(s, p, x, tag) == Seen(s, p', x, tag) {
      assert Angles(s, p, x) % 2 == Angles(s, p', x) % 2;
    }
  }

  /** "The text of a raw element ends at its end tag" is true of the end tags that an even number of "<"
      directly precede, and of no others: the text ends at the first of those, or not before the end. */
  lemma {:induction false} RawTextExact(s: seq<Byte>, p: nat, tag: seq<Byte>)
    requires p <= |s| && LowerCase(tag)
    ensures EndsAtSeen(s, p, RawText(s, p, tag), tag)
    decreases |s| - p
  {
    if p == |s| {
    } else if s[p] != LT {
      RawTextExact(s, p + 1, tag);
      forall x | p + 1 <= x <= |s| ensures Angles(s, p, x) % 2 == Angles(s, p + 1, x) % 2 {
        AnglesBehind(s, p, p + 1, x);
      }
      EndsAtSeenFrom(s, p, p + 1, RawText(s, p, tag), tag);
    } else if p + 1 < |s| && s[p + 1] == SLASH {
      RawTextTag(s, p, tag);
    } else if p + 1 < |s| {
      RawTextExact(s, p + 2, tag);
      forall x | p + 2 <= x <= |s| ensures Angles(s, p, x) % 2 == Angles(s, p + 2, x) % 2 { AnglesPair(s, p, x); }
      forall x | p <= x < p + 2 ensures !Seen(s, p, x, tag) {
        if x == p + 1 { assert Angles(s, p, p + 1) == 1 + Angles(s, p, p); }
      }
      EndsAtSeenFrom(s, p, p + 2, RawText(s, p, tag), tag);
    }
  }

  lemma {:induction false} RawTextTag(s: seq<Byte>, p: nat, tag: seq<Byte>)
    requires p + 1 < |s| && LowerCase(tag) && s[p] == LT && s[p + 1] == SLASH
    ensures EndsAtSeen(s, p, RawText(s, p, tag), tag)
    decreases |s| - p, 0
  {
    var w := Word(s, p + 2, tag, 0);
    WordExact(s, p + 2, tag, 0);
    if !w.found {
      forall x | p <= x < w.pos ensures !Seen(s, p, x, tag) {
        if x > p { assert s[x] != LT; }
      }
      if w.ok {
        RawTextExact(s, w.pos, tag);
        assert s[w.pos - 1] != LT;
        forall x | w.pos <= x <= |s| ensures Angles(s, p, x) % 2 == Angles(s, w.pos, x) % 2 {
          AnglesBehind(s, p, w.pos, x);
        }
        EndsAtSeenFrom(s, p, w.pos, RawText(s, p, tag), tag);
      }
    }
  }

  /** An end tag directly behind a "<" is run over: "<</xmp>" is all text. */
  lemma EndTagMissed()
    ensures var s := [LT, LT, SLASH] + XMP + [GT]; EndTagAt(s, 1, XMP) && RawText(s, 0, XMP) == Scan(|s|, false)
  {
    var s := [LT, LT, SLASH] + XMP + [GT];
    assert s == [LT, LT, SLASH, 120, 109, 112, GT];
    assert RawText(s, 7, XMP) == Scan(7, false);
    assert RawText(s, 5, XMP) == RawText(s, 7, XMP);
    assert RawText(s, 3, XMP) == RawText(s, 5, XMP);
    assert RawText(s, 2, XMP) == RawText(s, 3, XMP);
  }

  // ---------------------------------------------------------------- scripts

  /** "<!--" stands at y. */
  predicate OpeningAt(s: seq<Byte>, y: nat) {
    y + 3 < |s| && s[y] == LT && s[y + 1] == BANG && s[y + 2] == DASH && s[y + 3] == DASH
  }

  /** A "<script" stands at z. */
  predicate ScriptTagAt(s: seq<Byte>, z: nat) {
    z < |s| && s[z] == LT && WordAt(s, z + 1, SCRIPT, 0)
  }

  /** A "-->" ends at x. */
  predicate ArrowAt(s: seq<Byte>, x: nat)
    requires x < |s|
  {
    2 <= x && s[x] == GT && s[x - 1] == DASH && s[x - 2] == DASH
  }

  /** A "<" that is neither "</" nor "<" and a letter stands at x. */
  predicate StrayAt(s: seq<Byte>, x: nat) {
    x + 1 < |s| && s[x] == LT && s[x + 1] != SLASH && !Letter(s[x + 1])
  }

  /** How a place in a script is covered: not at all, by a "<!--", or by a "<script" behind a "<!--". */
  datatype Cover = Bare | Commented | Nested {
    /** The cover behind the byte at x. */
    function Next(s: seq<Byte>, x: nat): Cover
      requires x < |s|
    {
      match this
      case Bare => if OpeningAt(s, x) then Commented else Bare
      case Commented => if ScriptTagAt(s, x) then Nested else if ArrowAt(s, x) || StrayAt(s, x) then Bare else Commented
      case Nested => if EndTagAt(s, x, SCRIPT) then Commented else if ArrowAt(s, x) then Bare else Nested
    }
  }

  /** The cover at x of a script that begins at p. */
  function CoverAt(s: seq<Byte>, p: nat, x: nat): Cover
    requires p <= x <= |s|
    decreases x
  {
    if x == p then Bare else CoverAt(s, p, x - 1).Next(s, x - 1)
  }

  /** The end tags that the source sees: those that no "<script" covers. */
  predicate Open(s: seq<Byte>, p: nat, x: nat)
    requires p <= x <= |s|
  {
    EndTagAt(s, x, SCRIPT) && CoverAt(s, p, x) != Nested
  }

  /** The byte at x is no "<" and ends no "-->": it changes no cover and begins no end tag. */
  predicate Calm(s: seq<Byte>, x: nat)
    requires x < |s|
  {
    s[x] != LT && !ArrowAt(s, x)
  }

  lemma {:induction false} CalmKeeps(s: seq<Byte>, p: nat, x: nat, x': nat)
    requires p <= x <= x' <= |s| && forall k :: x <= k < x' ==> Calm(s, k)
    ensures CoverAt(s, p, x') == CoverAt(s, p, x) && forall k :: x <= k < x' ==> !Open(s, p, k)
    decreases x'
  {
    if x < x' {
      CalmKeeps(s, p, x, x' - 1);
      assert Calm(s, x' - 1);
    }
  }

  /** The cover that a state of the script machine is for. */
  function CoverOf(q: Script): Cover {
    if q.Data? || q.LessThan? || q.EndTagOpen? || q.EscapeStart? || q.EscapeStartDash? then Bare
    else if q.Double? || q.DoubleDash? || q.DoubleDashDash? || q.DoubleLessThan? || q.DoubleEnd? then Nested
    else Commented
  }

  /** How many bytes back the "<" is that a state is about. */
  function Back(q: Script): nat {
    if q.LessThan? || q.EscapedLessThan? || q.DoubleLessThan? then 1
    else if q.EndTagOpen? || q.EscapedEndTagOpen? || q.DoubleEnd? || q.DoubleStart? || q.EscapeStart? then 2
    else if q.EscapeStartDash? then 3 else 0
  }

  /** What has just been read when a state is reached at r. */
  predicate Led(s: seq<Byte>, r: nat, q: Script) {
    && q.Need() <= Back(q) <= r <= |s|
    && (Back(q) > 0 ==> s[r - Back(q)] == LT)
    && (q.EndTagOpen? || q.EscapedEndTagOpen? || q.DoubleEnd? ==> s[r - 1] == SLASH)
    && (q.EscapeStart? ==> s[r - 1] == BANG)
    && (q.EscapeStartDash? ==> s[r - 2] == BANG && s[r - 1] == DASH)
    && (q.DoubleStart? ==> Letter(s[r - 1]))
  }

  /** So many dashes, two for any more, stand directly before r. */
  predicate DashesBefore(s: seq<Byte>, r: nat, n: nat)
    requires r <= |s|
  {
    && (n >= 1 <==> r >= 1 && s[r - 1] == DASH)
    && (n >= 2 <==> r >= 2 && s[r - 1] == DASH && s[r - 2] == DASH)
  }

  predicate DashesOf(s: seq<Byte>, r: nat, q: Script)
    requires r <= |s|
  {
    && (q.Escaped? || q.Double? ==> DashesBefore(s, r, 0))
    && (q.EscapedDash? || q.DoubleDash? ==> DashesBefore(s, r, 1))
    && (q.EscapedDashDash? || q.DoubleDashDash? ==> DashesBefore(s, r, 2))
  }

  /** The machine in state q at r, in a script from p on: the state tells the cover and what was just read, and no
      end tag that it should have seen is behind it. */
  ghost predicate Tracks(s: seq<Byte>, p: nat, r: nat, q: Script) {
    && Led(s, r, q) && DashesOf(s, r, q) && p + Back(q) <= r
    && CoverAt(s, p, r - Back(q)) == CoverOf(q)
    && forall x :: p <= x < r - Back(q) ==> !Open(s, p, x)
  }

  /** Between p and the end of a scan no end tag is seen, and at its end one is if it is ok. */
  ghost predicate EndsAtOpen(s: seq<Byte>, p: nat, pos: nat, ok: bool) {
    && p <= pos <= |s| && (if ok then Open(s, p, pos) else pos == |s|)
    && forall x :: p <= x < pos ==> !Open(s, p, x)
  }

  ghost predicate TracksHop(s: seq<Byte>, p: nat, h: Hop) {
    match h
    case Stop(pos, ok) => EndsAtOpen(s, p, pos, ok)
    case Go(next, pos) => Tracks(s, p, pos, next)
  }

  /** What the "<" or other byte at b makes of the cover holds until a byte that is not calm. */
  lemma {:induction false} Covers(s: seq<Byte>, p: nat, b: nat, b': nat, q: Script)
    requires p <= b < b' <= |s| && CoverAt(s, p, b) == CoverOf(q) && forall x :: p <= x < b ==> !Open(s, p, x)
    requires !EndTagAt(s, b, SCRIPT) || CoverOf(q) == Nested
    requires forall k :: b < k < b' ==> Calm(s, k)
    ensures CoverAt(s, p, b') == CoverOf(q).Next(s, b) && forall x :: p <= x < b' ==> !Open(s, p, x)
  {
    CalmKeeps(s, p, b + 1, b');
  }

  /** The machine arrives at b' in a state that is about no "<". */
  lemma {:induction false} Arrives(s: seq<Byte>, p: nat, r: nat, q: Script, b': nat, next: Script)
    requires Tracks(s, p, r, q) && r - Back(q) < b' <= |s|
    requires !EndTagAt(s, r - Back(q), SCRIPT) || CoverOf(q) == Nested
    requires forall k :: r - Back(q) < k < b' ==> Calm(s, k)
    requires Back(next) == 0 && CoverOf(q).Next(s, r - Back(q)) == CoverOf(next) && DashesOf(s, b', next)
    ensures Tracks(s, p, b', next)
  {
    hide CoverAt, Open, Cover.Next, EndTagAt;
    Covers(s, p, r - Back(q), b', q);
  }

  /** At the end of the input nothing more is seen. */
  lemma {:induction false} TracksEnd(s: seq<Byte>, p: nat, r: nat, q: Script)
    requires Tracks(s, p, r, q) && !EndTagAt(s, r - Back(q), SCRIPT)
    requires forall k :: r - Back(q) < k < |s| ==> Calm(s, k)
    ensures EndsAtOpen(s, p, |s|, false)
  {
    hide CoverAt, Open, Cover.Next, EndTagAt;
    if r - Back(q) < |s| { Covers(s, p, r - Back(q), |s|, q); }
  }

  lemma StrayIsNoTag(s: seq<Byte>, b: nat)
    requires b < |s| && (StrayAt(s, b) || s[b] != LT)
    ensures !ScriptTagAt(s, b) && !EndTagAt(s, b, SCRIPT)
  {
    if ScriptTagAt(s, b) { WordCalm(s, b + 1); }
  }

  lemma {:induction false} TracksByte(s: seq<Byte>, p: nat, r: nat, q: Script)
    requires Tracks(s, p, r, q) && q.Plain()
    ensures TracksHop(s, p, AtByte(s, r, q))
  {
    hide CoverAt, Open, WordAt;
    if r == |s| {
      TracksEnd(s, p, r, q);
    } else {
      var b := r - Back(q);
      var (next, again) := q.On(s[r]);
      var r' := if again then r else r + 1;
      if b < r' - Back(next) {
        if q.EscapedLessThan? || s[b] != LT { StrayIsNoTag(s, b); }
        Arrives(s, p, r, q, r', next);
      }
    }
  }

  lemma LettersCalm(s: seq<Byte>, x: nat, x': nat)
    requires 0 < x <= x' <= |s| && s[x - 1] != DASH && forall k :: x <= k < x' ==> Letter(s[k])
    ensures s[x' - 1] != DASH && forall k :: x <= k < x' ==> Calm(s, k)
  {
  }

  lemma {:induction false} TracksFound(s: seq<Byte>, p: nat, r: nat, q: Script)
    requires Tracks(s, p, r, q) && (q.EndTagOpen? || q.EscapedEndTagOpen? || q.DoubleEnd?) && WordAt(s, r, SCRIPT, 0)
    ensures if q.DoubleEnd? then r + 7 <= |s| && Tracks(s, p, r + 7, Escaped) else EndsAtOpen(s, p, r - 2, true)
  {
    hide CoverAt;
    if q.DoubleEnd? {
      WordCalm(s, r);
      Arrives(s, p, r, q, r + 7, Escaped);
    }
  }

  lemma {:induction false} TracksMissed(s: seq<Byte>, p: nat, r: nat, q: Script, r': nat, next: Script)
    requires Tracks(s, p, r, q) && (q.EndTagOpen? || q.EscapedEndTagOpen? || q.DoubleEnd?) && !WordAt(s, r, SCRIPT, 0)
    requires r <= r' <= |s| && forall k :: r <= k < r' ==> Letter(s[k])
    requires next == if q.EndTagOpen? then Data else if q.EscapedEndTagOpen? then Escaped else Double
    ensures Tracks(s, p, r', next) && (r' == |s| ==> EndsAtOpen(s, p, r', false))
  {
    hide CoverAt, Open, WordAt;
    assert !ScriptTagAt(s, r - 2) by { if ScriptTagAt(s, r - 2) { WordCalm(s, r - 1); } }
    LettersCalm(s, r, r');
    Arrives(s, p, r, q, r', next);
    if r' == |s| { TracksEnd(s, p, r, q); }
  }

  lemma {:induction false} TracksEndTag(s: seq<Byte>, p: nat, r: nat, q: Script)
    requires Tracks(s, p, r, q) && (q.EndTagOpen? || q.EscapedEndTagOpen? || q.DoubleEnd?)
    ensures TracksHop(s, p, AtEndTag(s, r, q))
  {
    hide CoverAt, Open, WordAt, Letter, DashesOf;
    WordExact(s, r, SCRIPT, 0);
    var w := Word(s, r, SCRIPT, 0);
    if w.found {
      TracksFound(s, p, r, q);
    } else {
      TracksMissed(s, p, r, q, w.pos, if q.EndTagOpen? then Data else if q.EscapedEndTagOpen? then Escaped else Double);
    }
  }

  lemma {:induction false} TracksDoubleStart(s: seq<Byte>, p: nat, r: nat)
    requires Tracks(s, p, r, DoubleStart)
    ensures TracksHop(s, p, AtDoubleStart(s, r))
  {
    hide CoverAt, Open, WordAt, Calm;
    WordExact(s, r - 1, SCRIPT, 0);
    var w := Word(s, r - 1, SCRIPT, 0);
    hide Word;
    if w.found {
      WordCalm(s, r - 1);
      Arrives(s, p, r, DoubleStart, w.pos, Double);
    } else {
      LettersCalm(s, r - 1, w.pos);
      if w.ok { Arrives(s, p, r, DoubleStart, w.pos, Escaped); } else { TracksEnd(s, p, r, DoubleStart); }
    }
  }

  /** The letters of "script" and the byte behind them are calm, and no dash. */
  lemma WordCalm(s: seq<Byte>, x: nat)
    requires x > 0 && WordAt(s, x, SCRIPT, 0)
    ensures x + 7 <= |s| && Letter(s[x]) && forall k :: x <= k < x + 7 ==> Calm(s, k) && s[k] != DASH
  {
    assert EitherCase(s[x + (0 - 0)], SCRIPT[0]);
    forall k | x <= k < x + 7 ensures s[k] != LT && s[k] != DASH {
      if k < x + 6 { assert EitherCase(s[x + ((k - x) - 0)], SCRIPT[k - x]); }
    }
  }

  lemma {:induction false} ScriptFrom(s: seq<Byte>, p: nat, r: nat, q: Script)
    requires Tracks(s, p, r, q)
    ensures var e := ScriptText(s, r, q); EndsAtOpen(s, p, e.pos, e.ok)
    decreases Left(s, r, q)
  {
    hide CoverAt, Open, AtByte, AtEndTag, AtDoubleStart;
    if q.DoubleStart? {
      TracksDoubleStart(s, p, r);
    } else if q.Plain() {
      TracksByte(s, p, r, q);
    } else {
      TracksEndTag(s, p, r, q);
    }
    match HopFrom(s, r, q)
    case Stop(_, _) =>
    case Go(next, pos) => ScriptFrom(s, p, pos, next);
  }

  /** "A script ends at its end tag" is true of the end tags that no "<script" behind a "<!--" covers, and of no
      others: the text ends at the first of those, or not before the end of the input. */
  lemma {:induction false} ScriptExact(s: seq<Byte>, p: nat)
    requires p <= |s|
    ensures var e := ScriptText(s, p, Data); EndsAtOpen(s, p, e.pos, e.ok)
  {
    ScriptFrom(s, p, p, Data);
  }

  /** One does cover it: with "<!--<script>" the end tag directly behind is run over. */
  lemma {:induction false} ScriptEndTagHidden(s: seq<Byte>, y: nat)
    requires OpeningAt(s, y) && ScriptTagAt(s, y + 4) && EndTagAt(s, y + 12, SCRIPT)
    ensures CoverAt(s, y, y + 12) == Nested && ScriptText(s, y, Data).pos > y + 12
  {
    WordCalm(s, y + 5);
    Covers(s, y, y, y + 4, Data);
    Covers(s, y, y + 4, y + 12, Escaped);
    ScriptExact(s, y);
  }

  // ---------------------------------------------------------------- comments and sections

  /** So many dashes stand before p. */
  predicate Dashed(s: seq<Byte>, p: nat, dashes: nat) {
    dashes <= p <= |s| && forall k :: p - dashes <= k < p ==> s[k] == DASH
  }

  /** A comment's data is followed by "-->" or "--!>"; the dashes may be those of its "<!--". */
  lemma {:induction false} CommentEnds(s: seq<Byte>, p: nat, dashes: nat)
    requires Dashed(s, p, dashes)
    ensures var r := Comment(s, p, dashes);
      r.ok ==> 0 <= r.end && (s[r.end..r.pos] == [DASH, DASH, GT] || s[r.end..r.pos] == [DASH, DASH, BANG, GT])
    decreases |s| - p
  {
    if p == |s| {
    } else if s[p] == DASH {
      CommentEnds(s, p + 1, dashes + 1);
    } else if s[p] == GT && dashes >= 2 {
      assert s[p - 2] == DASH && s[p - 1] == DASH;
    } else if s[p] == BANG && dashes >= 2 {
      assert s[p - 2] == DASH && s[p - 1] == DASH;
      if p + 1 < |s| && s[p + 1] != GT { CommentEnds(s, p + 2, 0); }
    } else {
      CommentEnds(s, p + 1, 0);
    }
  }

  /** How many times "--!" stands directly before x, one behind another, from a on. */
  function Bangs(s: seq<Byte>, a: nat, x: nat): nat
    requires a <= x <= |s|
    decreases x
  {
    if x >= a + 3 && s[x - 3] == DASH && s[x - 2] == DASH && s[x - 1] == BANG then 1 + Bangs(s, a, x - 3) else 0
  }

  /** "-->" or "--!>" stands at x. */
  predicate ClosingAt(s: seq<Byte>, x: nat) {
    && x + 2 < |s| && s[x] == DASH && s[x + 1] == DASH
    && (s[x + 2] == GT || (s[x + 2] == BANG && x + 3 < |s| && s[x + 3] == GT))
  }

  /** How many bytes it has. */
  function ClosingSize(s: seq<Byte>, x: nat): nat
    requires ClosingAt(s, x)
  {
    if s[x + 2] == GT then 3 else 4
  }

  /** The closings that the source sees: those that an even number of "--!" directly precede. */
  predicate SeenClosing(s: seq<Byte>, a: nat, x: nat)
    requires a <= x <= |s|
  {
    ClosingAt(s, x) && Bangs(s, a, x) % 2 == 0
  }

  /** A dash at x is counted, unless it is the byte that is read behind a counted "--!". */
  predicate CountedDash(s: seq<Byte>, a: int, x: int) {
    0 <= a <= x < |s| && s[x] == DASH && Bangs(s, a, x) % 2 == 0
  }

  /** What the count of the loop means at p, the dashes of the opening standing at a. */
  predicate CountMeans(s: seq<Byte>, a: nat, p: nat, dashes: nat) {
    && a <= p <= |s| && Bangs(s, a, p) % 2 == 0
    && (dashes >= 1 <==> CountedDash(s, a, p - 1))
    && (dashes >= 2 <==> CountedDash(s, a, p - 2) && s[p - 1] == DASH)
  }

  /** The count goes on meaning that, whichever way the loop takes. */
  lemma CountGoesOn(s: seq<Byte>, a: nat, p: nat, dashes: nat)
    requires CountMeans(s, a, p, dashes) && p < |s|
    ensures s[p] == DASH ==> CountMeans(s, a, p + 1, dashes + 1)
    ensures s[p] != DASH && !(s[p] == BANG && dashes >= 2) ==> CountMeans(s, a, p + 1, 0)
    ensures s[p] == BANG && dashes >= 2 && p + 1 < |s| ==> CountMeans(s, a, p + 2, 0)
  {
    if s[p] == BANG && dashes >= 2 {
      assert Bangs(s, a, p + 1) == 1 + Bangs(s, a, p - 2);
    }
  }

  lemma BangsBehind(s: seq<Byte>, a: nat, x: nat)
    requires a <= x && ClosingAt(s, x)
    ensures s[x + 2] == BANG ==> Bangs(s, a, x + 3) == 1 + Bangs(s, a, x)
  {
  }

  /** How many of the dashes at the end of the input are held to begin a closing. */
  function LastDashes(s: seq<Byte>, a: nat): nat {
    if CountedDash(s, a, |s| - 2) && s[|s| - 1] == DASH then 2 else if CountedDash(s, a, |s| - 1) then 1 else 0
  }

  /** A piece ends at the first closing that is seen, of those that are not past before p. */
  ghost predicate EndsAtClosing(s: seq<Byte>, a: nat, p: nat, r: Piece)
    requires a <= p <= |s|
  {
    && (r.ok ==> a <= r.end <= |s| && SeenClosing(s, a, r.end) && r.pos == r.end + ClosingSize(s, r.end))
    && forall x :: a <= x <= |s| && SeenClosing(s, a, x) && p < x + ClosingSize(s, x) ==> r.ok && r.end <= x
  }

  lemma {:induction false} CommentFrom(s: seq<Byte>, a: nat, p: nat, dashes: nat)
    requires CountMeans(s, a, p, dashes)
    ensures EndsAtClosing(s, a, p, Comment(s, p, dashes))
    decreases |s| - p
  {
    if p < |s| {
      CountGoesOn(s, a, p, dashes);
      if s[p] == DASH {
        CommentFrom(s, a, p + 1, dashes + 1);
        CommentPasses(s, a, p, p + 1, dashes);
      } else if s[p] == GT && dashes >= 2 {
        CommentStops(s, a, p, dashes);
      } else if s[p] == BANG && dashes >= 2 {
        if p + 1 < |s| && s[p + 1] == GT {
          CommentStops(s, a, p, dashes);
        } else if p + 1 < |s| {
          CommentFrom(s, a, p + 2, 0);
          CommentPasses(s, a, p, p + 2, dashes);
        } else {
          CommentPasses(s, a, p, p + 1, dashes);
        }
      } else {
        CommentFrom(s, a, p + 1, 0);
        CommentPasses(s, a, p, p + 1, dashes);
      }
    }
  }

  /** Where the loop goes on, no closing that is seen has just ended. */
  lemma CommentPasses(s: seq<Byte>, a: nat, p: nat, p': nat, dashes: nat)
    requires CountMeans(s, a, p, dashes) && p < p' <= p + 2 && p' <= |s|
    requires s[p] == GT ==> dashes < 2
    requires p' == p + 2 ==> s[p] == BANG && s[p + 1] != GT
    ensures forall x :: a <= x <= |s| && SeenClosing(s, a, x) && p < x + ClosingSize(s, x) ==>
      p' < x + ClosingSize(s, x)
  {
    forall x | a <= x <= |s| && SeenClosing(s, a, x) && p < x + ClosingSize(s, x) ensures p' < x + ClosingSize(s, x) {
      BangsBehind(s, a, x);
      assert CountedDash(s, a, x) && s[x + ClosingSize(s, x) - 1] == GT;
    }
  }

  /** Where it stops, a closing that is seen ends, and none before. */
  lemma CommentStops(s: seq<Byte>, a: nat, p: nat, dashes: nat)
    requires CountMeans(s, a, p, dashes) && dashes >= 2 && p < |s|
    requires s[p] == GT || (s[p] == BANG && p + 1 < |s| && s[p + 1] == GT)
    ensures a + 2 <= p && EndsAtClosing(s, a, p, Piece(p - 2, if s[p] == GT then p + 1 else p + 2, true))
  {
    assert CountedDash(s, a, p - 2) && SeenClosing(s, a, p - 2);
    forall x | a <= x <= |s| && SeenClosing(s, a, x) && p < x + ClosingSize(s, x) ensures p - 2 <= x {
      BangsBehind(s, a, x);
    }
  }

  /** "A comment ends at its closing" is true of the "-->" and "--!>" that an even number of "--!" directly
      precede, and of no others: the comment whose "<!--" has its dashes at a ends at the first of those, and
      runs over every other.  The dashes of the "<!--" may be those of the closing. */
  lemma CommentExact(s: seq<Byte>, a: nat)
    requires a + 2 <= |s| && s[a] == DASH && s[a + 1] == DASH
    ensures var r := Comment(s, a + 2, 2);
      && (r.ok ==> a <= r.end && SeenClosing(s, a, r.end) && r.pos == r.end + ClosingSize(s, r.end))
      && (!r.ok ==> r.end == |s| - LastDashes(s, a))
      && forall x :: a <= x <= |s| && SeenClosing(s, a, x) ==> r.ok && r.end <= x
  {
    CommentFrom(s, a, a + 2, 2);
    CommentRunsOut(s, a, a + 2, 2);
  }

  /** A comment without a closing ends before the dashes at the end of the input. */
  lemma {:induction false} CommentRunsOut(s: seq<Byte>, a: nat, p: nat, dashes: nat)
    requires CountMeans(s, a, p, dashes)
    ensures var r := Comment(s, p, dashes); !r.ok ==> r.end == |s| - LastDashes(s, a)
    decreases |s| - p
  {
    if p < |s| {
      CountGoesOn(s, a, p, dashes);
      hide CountMeans, Bangs;
      if s[p] == DASH {
        CommentRunsOut(s, a, p + 1, dashes + 1);
      } else if s[p] == BANG && dashes >= 2 {
        if p + 1 < |s| { CommentRunsOut(s, a, p + 2, 0); }
      } else {
        CommentRunsOut(s, a, p + 1, 0);
      }
    }
  }

  /** "<!--!-->" does not end; "<!--a!-->" does. */
  lemma CommentEndMissed()
    ensures var s := [LT, BANG, DASH, DASH, BANG, DASH, DASH, GT]; Comment(s, 4, 2) == Piece(8, 8, false)
    ensures var s := [LT, BANG, DASH, DASH, 97, BANG, DASH, DASH, GT]; Comment(s, 4, 2) == Piece(6, 9, true)
  {
    var s := [LT, BANG, DASH, DASH, BANG, DASH, DASH, GT];
    assert Comment(s, 8, 0) == Piece(8, 8, false);
    assert Comment(s, 6, 0) == Comment(s, 7, 1) == Comment(s, 8, 0);
    var t := [LT, BANG, DASH, DASH, 97, BANG, DASH, DASH, GT];
    assert Comment(t, 6, 0) == Comment(t, 7, 1) == Comment(t, 8, 2) == Piece(6, 9, true);
    assert Comment(t, 5, 0) == Comment(t, 6, 0);
  }

  /** So many brackets stand before p. */
  predicate Bracketed(s: seq<Byte>, p: nat, brackets: nat) {
    brackets <= p <= |s| && forall k :: p - brackets <= k < p ==> s[k] == BRACKET
  }

  /** "]]>" stands at x. */
  predicate SectionEndsAt(s: seq<Byte>, x: nat) {
    x + 2 < |s| && s[x] == BRACKET && s[x + 1] == BRACKET && s[x + 2] == GT
  }

  /** A section's data ends at the first "]]>", or at the end of the input if there is none. */
  lemma {:induction false} CdataEndsAtFirst(s: seq<Byte>, p: nat, brackets: nat)
    requires Bracketed(s, p, brackets) && (brackets < p ==> s[p - brackets - 1] != BRACKET)
    ensures var r := CdataText(s, p, brackets);
      && (if r.ok then SectionEndsAt(s, r.end) && r.pos == r.end + 3 else r.end == |s|)
      && forall x :: p - brackets <= x < r.end ==> !SectionEndsAt(s, x)
    decreases |s| - p
  {
    if p == |s| {
    } else if s[p] == BRACKET {
      CdataEndsAtFirst(s, p + 1, brackets + 1);
    } else if s[p] == GT && brackets >= 2 {
      assert s[p - 2] == BRACKET && s[p - 1] == BRACKET;
    } else {
      CdataEndsAtFirst(s, p + 1, 0);
    }
  }
}

/** What seeding leaves: the same blocks, and nothing more to seed exactly when no source text refills itself. */
module CatalogueTheorems {
  import opened Basics
  import opened CatalogueSeeds
  import opened CatalogueBlocks

  // ----- where a token can stand in a replaced text -----

  predicate Clash(t: string, u: string) {
    !(t <= u) && !(u <= t)
  }

  /** Ends with the only closing angle in it. */
  predicate OneAngle(t: string) {
    t != "" && t[|t| - 1] == '>' && forall k :: 0 <= k < |t| - 1 ==> t[k] != '>'
  }

  lemma ClashAt(s: string, t: string, u: string, i: nat)
    requires At(s, t, i) && At(s, u, i)
    ensures !Clash(t, u)
  {
    if |t| <= |u| {
      assert u[..|t|] == s[i..i + |u|][..|t|] == s[i..i + |t|];
    } else {
      assert t[..|u|] == s[i..i + |t|][..|u|] == s[i..i + |u|];
    }
  }

  lemma BracketAt(s: string, t: string, i: nat)
    requires OneBracket(t) && At(s, t, i)
    ensures i < |s| && s[i] == '<'
  {
    assert s[i..i + |t|][0] == s[i];
  }

  /** Two clashing tokens of one bracket each do not overlap. */
  lemma Apart(s: string, t: string, i: nat, u: string, k: nat)
    requires OneBracket(t) && OneBracket(u) && Clash(t, u) && At(s, t, i) && At(s, u, k)
    ensures i + |t| <= k || k + |u| <= i
  {
    BracketAt(s, t, i);
    BracketAt(s, u, k);
    NoStraddle(s, t, i, k);
    NoStraddle(s, u, k, i);
    if i == k { ClashAt(s, t, u, i); }
  }

  /** The tag that makes a translation unfinished, the one that replaces it, and the one that closes both. */
  datatype Tags = Tags(unfinished: string, open: string, close: string) {
    predicate Proper() {
      && OneBracket(unfinished) && OneBracket(open) && OneBracket(close)
      && Clash(unfinished, open) && Clash(unfinished, close) && Clash(open, close)
    }

    predicate Angled() {
      OneAngle(unfinished) && OneAngle(open) && OneAngle(close)
    }

    function Empty(): string {
      unfinished + close
    }

    function Filled(body: string): string {
      open + body + close
    }
  }

  /** A token of the markup other than these. */
  predicate Foreign(g: Tags, t: string) {
    OneBracket(t) && Clash(t, g.unfinished) && Clash(t, g.open) && Clash(t, g.close)
  }

  /** The text w is x, a filled translation and z. */
  ghost predicate Laid(g: Tags, w: string, x: string, body: string, z: string) {
    && |w| == |x| + |g.open| + |body| + |g.close| + |z|
    && At(w, x, 0) && At(w, g.open, |x|) && At(w, body, |x| + |g.open|)
    && At(w, g.close, |x| + |g.open| + |body|) && At(w, z, |w| - |z|)
  }

  lemma AtMiddle(x: string, y: string, z: string)
    ensures At(x + y + z, x, 0) && At(x + y + z, y, |x|) && At(x + y + z, z, |x| + |y|)
  {
    var w := x + y + z;
    assert w[0..|x|] == x && w[|x|..|x| + |y|] == y && w[|x| + |y|..|w|] == z;
  }

  lemma LaidAs(g: Tags, w: string, x: string, filled: string, body: string, z: string)
    requires At(w, x, 0) && At(w, filled, |x|) && At(w, z, |x| + |filled|) && |w| == |x| + |filled| + |z|
    requires At(filled, g.open, 0) && At(filled, body, |g.open|) && At(filled, g.close, |g.open| + |body|)
    requires |filled| == |g.open| + |body| + |g.close|
    ensures Laid(g, w, x, body, z)
  {
    AtInside(w, filled, |x|, g.open, 0);
    AtInside(w, filled, |x|, body, |g.open|);
    AtInside(w, filled, |x|, g.close, |g.open| + |body|);
  }

  lemma LaidOut(g: Tags, x: string, body: string, z: string)
    ensures Laid(g, x + g.Filled(body) + z, x, body, z)
  {
    AtMiddle(x, g.Filled(body), z);
    AtMiddle(g.open, body, g.close);
    LaidAs(g, x + g.Filled(body) + z, x, g.Filled(body), body, z);
  }

  /** A token stands before, between or after two tags it clashes with. */
  lemma Around(w: string, t: string, q: nat, first: string, m: nat, second: string, n: nat)
    requires OneBracket(t) && OneBracket(first) && OneBracket(second) && Clash(t, first) && Clash(t, second)
    requires At(w, t, q) && At(w, first, m) && At(w, second, n) && m + |first| <= n
    ensures q + |t| <= m || (m + |first| <= q && q + |t| <= n) || n + |second| <= q
  {
    Apart(w, t, q, first, m);
    Apart(w, t, q, second, n);
  }

  lemma InPlace(g: Tags, w: string, x: string, body: string, z: string, t: string, q: nat)
    requires Laid(g, w, x, body, z) && At(w, t, q)
    ensures q + |t| <= |x| ==> At(x, t, q)
    ensures |x| + |g.open| <= q && q + |t| <= |x| + |g.open| + |body| ==> At(body, t, q - |x| - |g.open|)
    ensures |w| - |z| <= q ==> At(z, t, q - (|w| - |z|))
  {
    var m := |x| + |g.open|;
    if q + |t| <= |x| { AtInside(w, x, 0, t, q); }
    if m <= q && q + |t| <= m + |body| { AtInside(w, body, m, t, q - m); }
    if |w| - |z| <= q { AtInside(w, z, |w| - |z|, t, q - (|w| - |z|)); }
  }

  /** A token other than the two tags stands in the text before, in the body or in the text after. */
  lemma Where(g: Tags, w: string, x: string, body: string, z: string, t: string, q: nat)
    requires g.Proper() && Laid(g, w, x, body, z) && At(w, t, q)
    requires OneBracket(t) && Clash(t, g.open) && Clash(t, g.close)
    ensures
      || (q + |t| <= |x| && At(x, t, q))
      || (|x| + |g.open| <= q && q + |t| <= |x| + |g.open| + |body| && At(body, t, q - |x| - |g.open|))
      || (|w| - |z| <= q && At(z, t, q - (|w| - |z|)))
  {
    Around(w, t, q, g.open, |x|, g.close, |x| + |g.open| + |body|);
    InPlace(g, w, x, body, z, t, q);
  }

  // ----- one replacement -----

  predicate Tagged(g: Tags, s: string, i: nat) {
    At(s, g.unfinished, i) && At(s, g.close, i + |g.unfinished|)
  }

  /** The first unfinished, empty translation of s stands at i. */
  ghost predicate Cut(g: Tags, s: string, i: nat) {
    FirstAt(s, g.Empty(), 0, i) && Tagged(g, s, i)
  }

  function After(g: Tags, s: string, i: nat): string
    requires i + |g.Empty()| <= |s|
  {
    s[i + |g.Empty()|..]
  }

  lemma Joined(g: Tags, s: string, i: nat)
    ensures At(s, g.Empty(), i) <==> Tagged(g, s, i)
  {
    var m := i + |g.unfinished|;
    if m + |g.close| <= |s| {
      assert s[i..m + |g.close|] == s[i..m] + s[m..m + |g.close|];
      assert g.Empty()[..|g.unfinished|] == g.unfinished && g.Empty()[|g.unfinished|..] == g.close;
    }
  }

  lemma ReplaceStep(g: Tags, s: string, body: string) returns (i: nat)
    requires g.Proper() && Contains(s, g.Empty())
    ensures Cut(g, s, i)
    ensures Laid(g, Replace(s, g.Empty(), g.Filled(body)), s[..i], body,
                 Replace(After(g, s, i), g.Empty(), g.Filled(body)))
  {
    i := Find(s, g.Empty(), 0).value;
    Joined(g, s, i);
    LaidOut(g, s[..i], body, Replace(After(g, s, i), g.Empty(), g.Filled(body)));
  }

  lemma InHalf(g: Tags, s: string, i: nat, t: string, q: nat)
    requires i + |g.Empty()| <= |s| && At(s, t, q)
    ensures q + |t| <= i ==> At(s[..i], t, q)
    ensures i + |g.Empty()| <= q ==> At(After(g, s, i), t, q - i - |g.Empty()|)
  {
    var m := i + |g.Empty()|;
    if q + |t| <= i { AtInside(s, s[..i], 0, t, q); }
    if m <= q { AtInside(s, After(g, s, i), m, t, q - m); }
  }

  /** A foreign token stands before or after an unfinished, empty translation. */
  lemma Beside(g: Tags, s: string, i: nat, t: string, q: nat)
    requires g.Proper() && Tagged(g, s, i) && Foreign(g, t) && At(s, t, q)
    ensures (q + |t| <= i && At(s[..i], t, q))
         || (i + |g.Empty()| <= q && At(After(g, s, i), t, q - i - |g.Empty()|))
  {
    Around(s, t, q, g.unfinished, i, g.close, i + |g.unfinished|);
    InHalf(g, s, i, t, q);
  }

  // ----- the blocks stay blocks -----

  /** The only close stands at the end. */
  ghost predicate ClosesLast(s: string, t: string) {
    |t| <= |s| && At(s, t, |s| - |t|) && forall q: nat :: At(s, t, q) ==> q == |s| - |t|
  }

  ghost predicate Lacks(s: string, t: string) {
    forall q: nat :: !At(s, t, q)
  }

  lemma LaidCloses(g: Tags, w: string, x: string, body: string, z: string, t: string)
    requires g.Proper() && Laid(g, w, x, body, z) && Foreign(g, t) && Lacks(body, t) && ClosesLast(z, t)
    ensures At(w, t, |w| - |t|)
    ensures forall q: nat :: At(w, t, q) ==> q == |w| - |t| || (q + |t| <= |x| && At(x, t, q))
  {
    AtInside(w, z, |w| - |z|, t, |z| - |t|);
    forall q: nat | At(w, t, q) ensures q == |w| - |t| || (q + |t| <= |x| && At(x, t, q)) {
      Where(g, w, x, body, z, t, q);
    }
  }

  lemma LaidClosesLast(g: Tags, w: string, x: string, body: string, z: string, t: string)
    requires g.Proper() && Laid(g, w, x, body, z) && Foreign(g, t)
    requires Lacks(x, t) && Lacks(body, t) && ClosesLast(z, t)
    ensures ClosesLast(w, t)
  {
    LaidCloses(g, w, x, body, z, t);
  }

  /** Only what follows the cut closes, where only the end of the text does. */
  lemma TailCloses(g: Tags, s: string, i: nat, from: nat, t: string)
    requires g.Proper() && Tagged(g, s, i) && Foreign(g, t) && from <= i + |g.Empty()|
    requires |t| <= |s| && At(s, t, |s| - |t|) && forall q: nat :: from <= q && At(s, t, q) ==> q == |s| - |t|
    ensures ClosesLast(After(g, s, i), t)
  {
    var y, m := After(g, s, i), i + |g.Empty()|;
    Beside(g, s, i, t, |s| - |t|);
    forall q: nat | At(y, t, q) ensures q == |y| - |t| {
      AtInside(s, y, m, t, q);
    }
  }

  lemma HeadHasNone(s: string, i: nat, t: string)
    requires i < |s| && ClosesLast(s, t)
    ensures Lacks(s[..i], t)
  {
    forall q: nat ensures !At(s[..i], t, q) {
      if q + |t| <= i { AtInside(s, s[..i], 0, t, q); }
    }
  }

  lemma {:induction false} ReplaceClosesLast(g: Tags, s: string, body: string, t: string)
    requires g.Proper() && Foreign(g, t) && ClosesLast(s, t) && Lacks(body, t)
    ensures ClosesLast(Replace(s, g.Empty(), g.Filled(body)), t)
    decreases |s|
  {
    if Contains(s, g.Empty()) {
      var i := ReplaceStep(g, s, body);
      TailCloses(g, s, i, 0, t);
      ReplaceClosesLast(g, After(g, s, i), body, t);
      HeadHasNone(s, i, t);
      var z := Replace(After(g, s, i), g.Empty(), g.Filled(body));
      LaidClosesLast(g, Replace(s, g.Empty(), g.Filled(body)), s[..i], body, z, t);
    }
  }

  lemma StartStays(g: Tags, b: string, i: nat, w: string, body: string, z: string)
    requires g.Proper() && Start(b, 0) && 8 <= i <= |b| && Laid(g, w, b[..i], body, z)
    ensures Start(w, 0)
  {
    AtInside(b, b[..i], 0, MESSAGE_OPEN, 0);
    AtInside(w, b[..i], 0, MESSAGE_OPEN, 0);
    if i == 8 {
      BracketAt(w, g.open, 8);
    } else {
      assert w[0..i][8] == b[..i][8];
    }
  }

  lemma AngleAt(s: string, t: string, i: nat, d: nat)
    requires OneAngle(t) && At(s, t, i) && d < |t|
    ensures At(s, ">", i + d) <==> d == |t| - 1
  {
    assert s[i..i + |t|][d] == s[i + d];
    assert s[i + d..i + d + 1] == [s[i + d]];
  }

  /** A tag written where another stood ends first where it ends, if nothing did before. */
  lemma EndsWithItsTag(b: string, i: nat, w: string, open: string)
    requires 8 <= i <= |b| && At(w, b[..i], 0) && At(w, open, i) && OneAngle(open)
    requires forall k: nat :: 8 <= k < i ==> !At(b, ">", k)
    ensures FirstAt(w, ">", 8, i + |open| - 1)
  {
    AngleAt(w, open, i, |open| - 1);
    forall k: nat | 8 <= k < i + |open| - 1 ensures !At(w, ">", k) {
      if k < i {
        AtInside(b, b[..i], 0, ">", k);
        AtInside(w, b[..i], 0, ">", k);
      } else {
        AngleAt(w, open, i, k - i);
      }
    }
  }

  lemma EndsAsBefore(b: string, j: nat, i: nat, w: string)
    requires FirstAt(b, ">", 8, j) && j < i <= |b| && At(w, b[..i], 0)
    ensures FirstAt(w, ">", 8, j)
  {
    FirstInside(b, b[..i], 0, ">", 8, j);
    FirstInside(w, b[..i], 0, ">", 8, j);
  }

  /** The tag that opens the block ends where it did, or with the translation written into it. */
  lemma TagEndStays(g: Tags, b: string, j: nat, i: nat, w: string, body: string, z: string) returns (j': nat)
    requires g.Angled() && 8 <= i && FirstAt(b, ">", 8, j) && Tagged(g, b, i) && Laid(g, w, b[..i], body, z)
    ensures FirstAt(w, ">", 8, j') && j < i + |g.unfinished|
    ensures j' == if j < i then j else i + |g.open| - 1
  {
    AngleAt(b, g.unfinished, i, |g.unfinished| - 1);
    if j < i {
      j' := j;
      EndsAsBefore(b, j, i, w);
    } else {
      j' := i + |g.open| - 1;
      EndsWithItsTag(b, i, w, g.open);
    }
  }

  ghost predicate Sourced(s: string, a: nat, c: nat) {
    At(s, SOURCE_OPEN, a) && a + 8 <= c && At(s, SOURCE_CLOSE, c)
  }

  lemma BodyIs(b: string) returns (a: nat, c: nat)
    requires SourceBody(b).Some?
    ensures Sourced(b, a, c) && SourceBody(b).value == b[a + 8..c]
  {
    a := Find(b, SOURCE_OPEN, 0).value;
    c := Find(b, SOURCE_CLOSE, a + 8).value;
  }

  lemma SourcedHasBody(s: string, a: nat, c: nat)
    requires Sourced(s, a, c)
    ensures SourceBody(s).Some?
  {
  }

  lemma NamesDiffer(b: string, a: nat)
    requires At(b, MESSAGE_OPEN, 0) && At(b, SOURCE_OPEN, a)
    ensures a > 0 && At(b, ">", a + 7)
  {
    assert b[0..8][1] == b[1] && b[a..a + 8][1] == b[a + 1];
    assert b[a..a + 8][7] == b[a + 7];
  }

  lemma BodyHasNoClose(b: string, j: nat)
    requires IsMatch(b, 0, j, |b|) && SourceBody(b).Some?
    ensures Lacks(SourceBody(b).value, MESSAGE_CLOSE)
  {
    var a, c := BodyIs(b);
    var body := b[a + 8..c];
    NamesDiffer(b, a);
    assert j <= a + 7;
    forall q: nat ensures !At(body, MESSAGE_CLOSE, q) {
      if At(body, MESSAGE_CLOSE, q) { AtInside(b, body, a + 8, MESSAGE_CLOSE, q); }
    }
  }

  const MARKUP := Tags(UNFINISHED_OPEN, TRANSLATION_OPEN, TRANSLATION_CLOSE)

  lemma UnfinishedIsTag()
    ensures OneBracket(UNFINISHED_OPEN) && OneAngle(UNFINISHED_OPEN)
  {
  }

  lemma TranslationIsTag()
    ensures OneBracket(TRANSLATION_OPEN) && OneAngle(TRANSLATION_OPEN)
    ensures OneBracket(TRANSLATION_CLOSE) && OneAngle(TRANSLATION_CLOSE)
  {
  }

  lemma TagsClash()
    ensures Clash(UNFINISHED_OPEN, TRANSLATION_OPEN) && Clash(UNFINISHED_OPEN, TRANSLATION_CLOSE)
    ensures Clash(TRANSLATION_OPEN, TRANSLATION_CLOSE)
  {
    assert UNFINISHED_OPEN[12] != TRANSLATION_OPEN[12];
    assert UNFINISHED_OPEN[1] != TRANSLATION_CLOSE[1] && TRANSLATION_OPEN[1] != TRANSLATION_CLOSE[1];
  }

  lemma MarkupIsProper()
    ensures MARKUP.Proper() && MARKUP.Angled()
  {
    UnfinishedIsTag();
    TranslationIsTag();
    TagsClash();
  }

  lemma MarkupElsewhere()
    ensures Foreign(MARKUP, MESSAGE_CLOSE) && Clash(MESSAGE_OPEN, UNFINISHED_OPEN)
    ensures OneBracket(MESSAGE_OPEN)
  {
    assert MESSAGE_CLOSE[2] != TRANSLATION_CLOSE[2] && MESSAGE_CLOSE[1] != TRANSLATION_OPEN[1];
    assert UNFINISHED_OPEN[1] != MESSAGE_CLOSE[1] && UNFINISHED_OPEN[1] != MESSAGE_OPEN[1];
  }

  lemma SourceIsForeign()
    ensures Foreign(MARKUP, SOURCE_OPEN) && Foreign(MARKUP, SOURCE_CLOSE)
  {
    assert SOURCE_OPEN[1] != TRANSLATION_OPEN[1] && SOURCE_OPEN[1] != TRANSLATION_CLOSE[1];
    assert SOURCE_CLOSE[1] != TRANSLATION_OPEN[1] && SOURCE_CLOSE[2] != TRANSLATION_CLOSE[2];
    assert UNFINISHED_OPEN[1] != SOURCE_OPEN[1] && UNFINISHED_OPEN[1] != SOURCE_CLOSE[1];
  }

  lemma OneCloseLeft(b: string, j: nat, i: nat, w: string, j': nat)
    requires IsMatch(b, 0, j, |b|) && i <= |b| - 10 && (j' == j || i <= j')
    requires |w| >= 10 && j' < |w| - 10 && At(w, MESSAGE_CLOSE, |w| - 10)
    requires forall q: nat :: At(w, MESSAGE_CLOSE, q) ==> q == |w| - 10 || (q + 10 <= i && At(b[..i], MESSAGE_CLOSE, q))
    ensures FirstAt(w, MESSAGE_CLOSE, j' + 1, |w| - 10)
  {
    forall q | j' + 1 <= q < |w| - 10 ensures !At(w, MESSAGE_CLOSE, q) {
      if At(w, MESSAGE_CLOSE, q) { AtInside(b, b[..i], 0, MESSAGE_CLOSE, q); }
    }
  }

  lemma Assembled(w: string, j: nat)
    requires |w| >= 10 && Start(w, 0) && FirstAt(w, ">", 8, j) && FirstAt(w, MESSAGE_CLOSE, j + 1, |w| - 10)
    ensures IsBlock(w)
  {
    assert IsMatch(w, 0, j, |w|);
  }

  lemma FilledHeader(g: Tags, b: string, j: nat, i: nat, w: string, body: string, z: string) returns (j': nat)
    requires g.Proper() && g.Angled() && 8 <= i && Tagged(g, b, i) && Laid(g, w, b[..i], body, z) && |z| >= 10
    requires Start(b, 0) && FirstAt(b, ">", 8, j)
    ensures Start(w, 0) && FirstAt(w, ">", 8, j') && (j' == j || i <= j') && j' < |w| - 10
  {
    StartStays(g, b, i, w, body, z);
    j' := TagEndStays(g, b, j, i, w, body, z);
  }

  /** A block whose translations are filled, from its first unfinished one on, is still one block. */
  lemma FilledIsBlock(g: Tags, b: string, j: nat, i: nat, w: string, body: string, z: string)
    requires g.Proper() && g.Angled() && Foreign(g, MESSAGE_CLOSE) && 8 <= i <= |b| - 10
    requires IsMatch(b, 0, j, |b|) && Tagged(g, b, i) && Laid(g, w, b[..i], body, z)
    requires Lacks(body, MESSAGE_CLOSE) && ClosesLast(z, MESSAGE_CLOSE)
    ensures IsBlock(w)
  {
    var j' := FilledHeader(g, b, j, i, w, body, z);
    LaidCloses(g, w, b[..i], body, z, MESSAGE_CLOSE);
    OneCloseLeft(b, j, i, w, j');
    Assembled(w, j');
  }

  lemma CutInBlock(g: Tags, b: string, j: nat, i: nat)
    requires g.Proper() && g.Angled() && Foreign(g, MESSAGE_CLOSE) && Tagged(g, b, i)
    requires OneBracket(MESSAGE_OPEN) && Clash(MESSAGE_OPEN, g.unfinished) && IsMatch(b, 0, j, |b|)
    ensures 8 <= i && i + |g.Empty()| <= |b| - 10 && ClosesLast(After(g, b, i), MESSAGE_CLOSE)
  {
    Apart(b, MESSAGE_OPEN, 0, g.unfinished, i);
    AngleAt(b, g.unfinished, i, |g.unfinished| - 1);
    TailCloses(g, b, i, j + 1, MESSAGE_CLOSE);
  }

  lemma FillIsBlock(g: Tags, b: string, j: nat, body: string)
    requires g.Proper() && g.Angled() && Foreign(g, MESSAGE_CLOSE)
    requires OneBracket(MESSAGE_OPEN) && Clash(MESSAGE_OPEN, g.unfinished)
    requires IsMatch(b, 0, j, |b|) && Contains(b, g.Empty()) && Lacks(body, MESSAGE_CLOSE)
    ensures IsBlock(Replace(b, g.Empty(), g.Filled(body)))
  {
    var i := ReplaceStep(g, b, body);
    var y := After(g, b, i);
    CutInBlock(g, b, j, i);
    ReplaceClosesLast(g, y, body, MESSAGE_CLOSE);
    FilledIsBlock(g, b, j, i, Replace(b, g.Empty(), g.Filled(body)), body, Replace(y, g.Empty(), g.Filled(body)));
  }

  /** A seeded block is still one block. */
  lemma SeededIsBlock(b: string)
    requires IsBlock(b)
    ensures IsBlock(SeedBlock(b))
  {
    if !LeftAlone(b) {
      var j: nat :| IsMatch(b, 0, j, |b|);
      MarkupIsProper();
      MarkupElsewhere();
      BodyHasNoClose(b, j);
      FillIsBlock(MARKUP, b, j, SourceBody(b).value);
    }
  }

  // ----- what is left unfinished -----

  /** A source text that writes an unfinished, empty translation of its own when it is filled in. */
  predicate Refills(g: Tags, body: string) {
    Contains(body, g.Empty()) || (|g.unfinished| <= |body| && At(body, g.unfinished, |body| - |g.unfinished|))
  }

  lemma ContainsAt(s: string, t: string, i: nat)
    requires At(s, t, i)
    ensures Contains(s, t)
  {
  }

  lemma PartLacks(s: string, b: string, off: nat, t: string)
    requires At(s, b, off) && !Contains(s, t)
    ensures !Contains(b, t)
  {
    var found := Find(b, t, 0);
    if found.Some? { AtInside(s, b, off, t, found.value); }
  }

  /** A pair of tags that begins before a tag it clashes with ends before it. */
  lemma PairBefore(w: string, u: string, q: nat, close: string, open: string, k: nat)
    requires OneBracket(u) && OneBracket(open) && OneBracket(close) && Clash(u, open) && Clash(close, open)
    requires At(w, u, q) && At(w, close, q + |u|) && At(w, open, k)
    ensures q + |u| + |close| <= k || k <= q
  {
    Apart(w, u, q, open, k);
    Apart(w, close, q + |u|, open, k);
  }

  lemma NotBeforeTheBody(g: Tags, w: string, x: string, body: string, z: string, q: nat)
    requires g.Proper() && Laid(g, w, x, body, z) && Tagged(g, w, q) && !Contains(x, g.Empty())
    ensures |x| <= q
  {
    PairBefore(w, g.unfinished, q, g.close, g.open, |x|);
    if q < |x| {
      Joined(g, w, q);
      AtInside(w, x, 0, g.Empty(), q);
      ContainsAt(x, g.Empty(), q);
    }
  }

  lemma Twice(w: string, t: string, p: nat, m: nat)
    requires OneBracket(t) && At(w, t, p) && At(w, t, m)
    ensures p + |t| <= m || p == m || m + |t| <= p
  {
    BracketAt(w, t, p);
    BracketAt(w, t, m);
    NoStraddle(w, t, p, m);
    NoStraddle(w, t, m, p);
  }

  lemma PairPlaces(w: string, u: string, q: nat, open: string, k: nat, close: string, m: nat)
    requires OneBracket(u) && OneBracket(open) && OneBracket(close) && Clash(u, open) && Clash(u, close)
    requires At(w, u, q) && At(w, close, q + |u|) && At(w, open, k) && At(w, close, m) && k + |open| <= m && k <= q
    ensures k + |open| <= q && (q + |u| + |close| <= m || q + |u| == m || m + |close| <= q)
  {
    Around(w, u, q, open, k, close, m);
    Twice(w, close, q + |u|, m);
  }

  /** At or past the filled translation, one stands within the body, at its end, or after both. */
  lemma UnfinishedPlaces(g: Tags, w: string, x: string, body: string, z: string, q: nat)
    requires g.Proper() && Laid(g, w, x, body, z) && Tagged(g, w, q) && |x| <= q
    ensures |x| + |g.open| <= q
    ensures var m := |x| + |g.open| + |body|;
            q + |g.Empty()| <= m || q + |g.unfinished| == m || m + |g.close| <= q
  {
    PairPlaces(w, g.unfinished, q, g.open, |x|, g.close, |x| + |g.open| + |body|);
  }

  lemma RefillsAt(g: Tags, w: string, body: string, off: nat, q: nat)
    requires At(w, body, off) && Tagged(g, w, q) && off <= q
    requires q + |g.Empty()| <= off + |body| || q + |g.unfinished| == off + |body|
    ensures Refills(g, body)
  {
    if q + |g.unfinished| == off + |body| {
      AtInside(w, body, off, g.unfinished, q - off);
    } else {
      Joined(g, w, q);
      AtInside(w, body, off, g.Empty(), q - off);
      ContainsAt(body, g.Empty(), q - off);
    }
  }

  lemma InTail(w: string, z: string, t: string, q: nat)
    requires |z| <= |w| && At(w, z, |w| - |z|) && At(w, t, q) && |w| - |z| <= q
    ensures Contains(z, t)
  {
    AtInside(w, z, |w| - |z|, t, q - (|w| - |z|));
    ContainsAt(z, t, q - (|w| - |z|));
  }

  /** In a text that holds none before the filled translation, one stands in the body or after it. */
  lemma UnfinishedInLaid(g: Tags, w: string, x: string, body: string, z: string, q: nat)
    requires g.Proper() && Laid(g, w, x, body, z) && At(w, g.Empty(), q) && !Contains(x, g.Empty())
    ensures Refills(g, body) || Contains(z, g.Empty())
  {
    var off := |w| - |z|;
    Joined(g, w, q);
    NotBeforeTheBody(g, w, x, body, z, q);
    UnfinishedPlaces(g, w, x, body, z, q);
    if q < off { RefillsAt(g, w, body, |x| + |g.open|, q); } else { InTail(w, z, g.Empty(), q); }
  }

  lemma RefillInLaid(g: Tags, w: string, x: string, body: string, z: string)
    requires Laid(g, w, x, body, z) && Refills(g, body)
    ensures Contains(w, g.Empty())
  {
    var m := |x| + |g.open|;
    if Contains(body, g.Empty()) {
      var q := Find(body, g.Empty(), 0).value;
      AtInside(w, body, m, g.Empty(), q);
      ContainsAt(w, g.Empty(), m + q);
    } else {
      var q := |body| - |g.unfinished|;
      AtInside(w, body, m, g.unfinished, q);
      Joined(g, w, m + q);
      ContainsAt(w, g.Empty(), m + q);
    }
  }

  lemma HeadLacks(g: Tags, s: string, i: nat)
    requires g.Proper() && Cut(g, s, i)
    ensures !Contains(s[..i], g.Empty())
  {
    var found := Find(s[..i], g.Empty(), 0);
    if found.Some? { AtInside(s, s[..i], 0, g.Empty(), found.value); }
  }

  /** After replacing, an unfinished, empty translation is left exactly where the body brings it. */
  lemma {:induction false} LeftAfterReplace(g: Tags, s: string, body: string)
    requires g.Proper()
    ensures Contains(Replace(s, g.Empty(), g.Filled(body)), g.Empty()) <==> Contains(s, g.Empty()) && Refills(g, body)
    decreases |s|
  {
    if Contains(s, g.Empty()) {
      var i := ReplaceStep(g, s, body);
      var y := After(g, s, i);
      var w, z := Replace(s, g.Empty(), g.Filled(body)), Replace(y, g.Empty(), g.Filled(body));
      LeftAfterReplace(g, y, body);
      HeadLacks(g, s, i);
      if Refills(g, body) { RefillInLaid(g, w, s[..i], body, z); }
      var found := Find(w, g.Empty(), 0);
      if found.Some? { UnfinishedInLaid(g, w, s[..i], body, z, found.value); }
    }
  }

  // ----- what a seeded block still holds -----

  /** A token that does not hold a character does not stand on it. */
  lemma Avoids(s: string, t: string, q: nat, p: nat)
    requires At(s, t, q) && p < |s| && s[p] !in t
    ensures p < q || q + |t| <= p
  {
    assert forall d :: 0 <= d < |t| ==> t[d] == s[q..q + |t|][d] == s[q + d];
    assert forall d :: 0 <= d < |t| ==> t[d] in t;
  }

  /** Text without angles, too long for the inside of a tag. */
  predicate Inert(g: Tags, t: string) {
    '<' !in t && '>' !in t && |t| + 1 >= |g.open| && |t| + 1 >= |g.close|
  }

  lemma TagAvoids(w: string, tag: string, m: nat, t: string, q: nat)
    requires OneBracket(tag) && OneAngle(tag) && At(w, tag, m) && At(w, t, q)
    requires '<' !in t && '>' !in t && |t| + 1 >= |tag|
    ensures q + |t| <= m || m + |tag| <= q
  {
    assert w[m..m + |tag|][0] == w[m] && w[m..m + |tag|][|tag| - 1] == w[m + |tag| - 1];
    Avoids(w, t, q, m);
    Avoids(w, t, q, m + |tag| - 1);
  }

  lemma InertIsBeside(w: string, open: string, m: nat, close: string, n: nat, t: string, q: nat)
    requires OneBracket(open) && OneAngle(open) && OneBracket(close) && OneAngle(close)
    requires At(w, open, m) && At(w, close, n) && m + |open| <= n && At(w, t, q)
    requires '<' !in t && '>' !in t && |t| + 1 >= |open| && |t| + 1 >= |close|
    ensures q + |t| <= m || (m + |open| <= q && q + |t| <= n) || n + |close| <= q
  {
    TagAvoids(w, open, m, t, q);
    TagAvoids(w, close, n, t, q);
  }

  lemma InertInLaid(g: Tags, w: string, x: string, body: string, z: string, t: string, q: nat)
    requires g.Proper() && g.Angled() && Laid(g, w, x, body, z) && Inert(g, t) && At(w, t, q)
    ensures Contains(x, t) || Contains(body, t) || Contains(z, t)
  {
    InertIsBeside(w, g.open, |x|, g.close, |x| + |g.open| + |body|, t, q);
    InPlace(g, w, x, body, z, t, q);
    if q < |x| {
      ContainsAt(x, t, q);
    } else if q < |w| - |z| {
      ContainsAt(body, t, q - |x| - |g.open|);
    } else {
      ContainsAt(z, t, q - (|w| - |z|));
    }
  }

  lemma {:induction false} ReplaceBringsNone(g: Tags, s: string, body: string, t: string)
    requires g.Proper() && g.Angled() && Inert(g, t) && !Contains(s, t) && !Contains(body, t)
    ensures !Contains(Replace(s, g.Empty(), g.Filled(body)), t)
    decreases |s|
  {
    if Contains(s, g.Empty()) {
      var i := ReplaceStep(g, s, body);
      var y := After(g, s, i);
      var w, z := Replace(s, g.Empty(), g.Filled(body)), Replace(y, g.Empty(), g.Filled(body));
      PartLacks(s, s[..i], 0, t);
      PartLacks(s, y, i + |g.Empty()|, t);
      ReplaceBringsNone(g, y, body, t);
      var found := Find(w, t, 0);
      if found.Some? { InertInLaid(g, w, s[..i], body, z, t, found.value); }
    }
  }

  lemma ContainsBeside(g: Tags, s: string, i: nat, t: string)
    requires g.Proper() && Tagged(g, s, i) && Foreign(g, t) && Contains(s, t)
    ensures Contains(s[..i], t) || Contains(After(g, s, i), t)
  {
    var q := Find(s, t, 0).value;
    Beside(g, s, i, t, q);
    if q < i { ContainsAt(s[..i], t, q); } else { ContainsAt(After(g, s, i), t, q - i - |g.Empty()|); }
  }

  lemma ContainsInLaid(g: Tags, w: string, x: string, body: string, z: string, t: string)
    requires Laid(g, w, x, body, z) && (Contains(x, t) || Contains(z, t))
    ensures Contains(w, t)
  {
    if Contains(x, t) {
      var q := Find(x, t, 0).value;
      AtInside(w, x, 0, t, q);
      ContainsAt(w, t, q);
    } else {
      var q := Find(z, t, 0).value;
      AtInside(w, z, |w| - |z|, t, q);
      ContainsAt(w, t, |w| - |z| + q);
    }
  }

  lemma {:induction false} TokenStays(g: Tags, s: string, body: string, t: string)
    requires g.Proper() && Foreign(g, t) && Contains(s, t)
    ensures Contains(Replace(s, g.Empty(), g.Filled(body)), t)
    decreases |s|
  {
    if Contains(s, g.Empty()) {
      var i := ReplaceStep(g, s, body);
      var y := After(g, s, i);
      ContainsBeside(g, s, i, t);
      if Contains(y, t) { TokenStays(g, y, body, t); }
      ContainsInLaid(g, Replace(s, g.Empty(), g.Filled(body)), s[..i], body, Replace(y, g.Empty(), g.Filled(body)), t);
    }
  }

  ghost predicate HasSource(s: string) {
    exists a: nat, c: nat :: Sourced(s, a, c)
  }

  lemma SourceInHalves(g: Tags, s: string, i: nat, a: nat, c: nat)
    requires i + |g.Empty()| <= |s| && Sourced(s, a, c)
    requires (a + 8 <= i || i + |g.Empty()| <= a) && (c + 9 <= i || i + |g.Empty()| <= c)
    ensures
      || Sourced(s[..i], a, c)
      || (At(s[..i], SOURCE_OPEN, a) && i + |g.Empty()| <= c && At(After(g, s, i), SOURCE_CLOSE, c - i - |g.Empty()|))
      || (i + |g.Empty()| <= a && Sourced(After(g, s, i), a - i - |g.Empty()|, c - i - |g.Empty()|))
  {
    InHalf(g, s, i, SOURCE_OPEN, a);
    InHalf(g, s, i, SOURCE_CLOSE, c);
  }

  lemma BesidePlace(g: Tags, s: string, i: nat, t: string, q: nat)
    requires g.Proper() && Foreign(g, t) && Tagged(g, s, i) && At(s, t, q)
    ensures q + |t| <= i || i + |g.Empty()| <= q
  {
    Around(s, t, q, g.unfinished, i, g.close, i + |g.unfinished|);
  }

  lemma SourceBeside(g: Tags, s: string, i: nat)
    requires g.Proper() && Foreign(g, SOURCE_OPEN) && Foreign(g, SOURCE_CLOSE) && Tagged(g, s, i) && HasSource(s)
    ensures
      || HasSource(s[..i])
      || (Contains(s[..i], SOURCE_OPEN) && Contains(After(g, s, i), SOURCE_CLOSE))
      || HasSource(After(g, s, i))
  {
    var a: nat, c: nat :| Sourced(s, a, c);
    BesidePlace(g, s, i, SOURCE_OPEN, a);
    BesidePlace(g, s, i, SOURCE_CLOSE, c);
    SourceInHalves(g, s, i, a, c);
  }

  lemma SourceInPart(s: string, b: string, off: nat)
    requires At(s, b, off) && HasSource(b)
    ensures HasSource(s)
  {
    var a: nat, c: nat :| Sourced(b, a, c);
    AtInside(s, b, off, SOURCE_OPEN, a);
    AtInside(s, b, off, SOURCE_CLOSE, c);
    assert Sourced(s, off + a, off + c);
  }

  lemma SourceInLaid(g: Tags, w: string, x: string, body: string, z: string)
    requires Laid(g, w, x, body, z)
    requires HasSource(x) || (Contains(x, SOURCE_OPEN) && Contains(z, SOURCE_CLOSE)) || HasSource(z)
    ensures HasSource(w)
  {
    if HasSource(x) {
      SourceInPart(w, x, 0);
    } else if HasSource(z) {
      SourceInPart(w, z, |w| - |z|);
    } else {
      var a, c := Find(x, SOURCE_OPEN, 0).value, Find(z, SOURCE_CLOSE, 0).value;
      AtInside(w, x, 0, SOURCE_OPEN, a);
      AtInside(w, z, |w| - |z|, SOURCE_CLOSE, c);
      assert Sourced(w, a, |w| - |z| + c);
    }
  }

  lemma {:induction false} SourceStays(g: Tags, s: string, body: string)
    requires g.Proper() && Foreign(g, SOURCE_OPEN) && Foreign(g, SOURCE_CLOSE) && HasSource(s)
    ensures HasSource(Replace(s, g.Empty(), g.Filled(body)))
    decreases |s|
  {
    if Contains(s, g.Empty()) {
      var i := ReplaceStep(g, s, body);
      var y := After(g, s, i);
      SourceBeside(g, s, i);
      if HasSource(y) { SourceStays(g, y, body); }
      if Contains(y, SOURCE_CLOSE) { TokenStays(g, y, body, SOURCE_CLOSE); }
      SourceInLaid(g, Replace(s, g.Empty(), g.Filled(body)), s[..i], body, Replace(y, g.Empty(), g.Filled(body)));
    }
  }

  // ----- theorems -----

  lemma ReplaceChanges(g: Tags, s: string, body: string)
    requires g.Proper() && Contains(s, g.Empty())
    ensures Replace(s, g.Empty(), g.Filled(body)) != s
  {
    var i := ReplaceStep(g, s, body);
    if Replace(s, g.Empty(), g.Filled(body)) == s { ClashAt(s, g.unfinished, g.open, i); }
  }

  lemma PluralIsInert()
    ensures Inert(MARKUP, PLURAL)
  {
  }

  lemma SeedBlockReplaces(b: string)
    requires !LeftAlone(b)
    ensures Contains(b, MARKUP.Empty()) && HasSource(b)
    ensures SeedBlock(b) == Replace(b, MARKUP.Empty(), MARKUP.Filled(SourceBody(b).value))
  {
    var a, c := BodyIs(b);
  }

  lemma BodyLacksPlural(b: string)
    requires !LeftAlone(b)
    ensures !Contains(b, PLURAL) && !Contains(SourceBody(b).value, PLURAL)
  {
    var a, c := BodyIs(b);
    PartLacks(b, b[a + 8..c], a + 8, PLURAL);
  }

  lemma SourceLeft(g: Tags, b: string, body: string)
    requires g.Proper() && Foreign(g, SOURCE_OPEN) && Foreign(g, SOURCE_CLOSE) && HasSource(b)
    ensures SourceBody(Replace(b, g.Empty(), g.Filled(body))).Some?
  {
    SourceStays(g, b, body);
    var w := Replace(b, g.Empty(), g.Filled(body));
    var a: nat, c: nat :| Sourced(w, a, c);
    SourcedHasBody(w, a, c);
  }

  /** A block seeded once is seeded again where its source text refills it. */
  lemma RefilledIsNotLeftAlone(b: string)
    requires !LeftAlone(b) && Refills(MARKUP, SourceBody(b).value)
    ensures !LeftAlone(SeedBlock(b))
  {
    var body := SourceBody(b).value;
    MarkupIsProper();
    SourceIsForeign();
    PluralIsInert();
    SeedBlockReplaces(b);
    BodyLacksPlural(b);
    LeftAfterReplace(MARKUP, b, body);
    SourceLeft(MARKUP, b, body);
    ReplaceBringsNone(MARKUP, b, body, PLURAL);
  }

  /** A second pass over a seeded block changes nothing, unless its source text refills itself. */
  lemma SecondPass(b: string)
    ensures SeedBlock(SeedBlock(b)) == SeedBlock(b) <==> LeftAlone(b) || !Refills(MARKUP, SourceBody(b).value)
  {
    if !LeftAlone(b) {
      var body := SourceBody(b).value;
      MarkupIsProper();
      if Refills(MARKUP, body) {
        RefilledIsNotLeftAlone(b);
        ReplaceChanges(MARKUP, SeedBlock(b), SourceBody(SeedBlock(b)).value);
      } else {
        LeftAfterReplace(MARKUP, b, body);
      }
    }
  }

  /** What seeding leaves unfinished: plurals, blocks without a source text, and texts that refill themselves. */
  lemma LeftUnfinished(b: string)
    ensures Contains(SeedBlock(b), UNFINISHED_EMPTY) <==>
      && Contains(b, UNFINISHED_EMPTY)
      && (Contains(b, PLURAL) || SourceBody(b).None? || Refills(MARKUP, SourceBody(b).value))
  {
    if !LeftAlone(b) {
      MarkupIsProper();
      LeftAfterReplace(MARKUP, b, SourceBody(b).value);
    }
  }

  lemma FoundFirst(s: string, t: string, from: nat, i: nat)
    requires FirstAt(s, t, from, i)
    ensures Find(s, t, from) == Some(i)
  {
  }

  lemma SourceLaidOut(b: string, x: string, body: string, rest: string)
    requires b == x + SOURCE_OPEN + body + SOURCE_CLOSE + rest
    ensures At(b, x, 0) && At(b, SOURCE_OPEN, |x|) && At(b, body, |x| + 8) && At(b, SOURCE_CLOSE, |x| + 8 + |body|)
    ensures b[|x| + 8..|x| + 8 + |body|] == body
  {
  }

  /** A token right after a stretch that lacks it is the first one. */
  lemma FirstAfter(s: string, x: string, off: nat, t: string)
    requires OneBracket(t) && At(s, x, off) && At(s, t, off + |x|) && Lacks(x, t)
    ensures FirstAt(s, t, off, off + |x|)
  {
    BracketAt(s, t, off + |x|);
    forall k: nat | off <= k < off + |x| ensures !At(s, t, k) {
      if At(s, t, k) {
        NoStraddle(s, t, k, off + |x|);
        AtInside(s, x, off, t, k - off);
      }
    }
  }

  lemma SourceTagsAreTokens()
    ensures OneBracket(SOURCE_OPEN) && OneBracket(SOURCE_CLOSE)
  {
  }

  lemma SourceBodyAt(b: string, a: nat, c: nat)
    requires FirstAt(b, SOURCE_OPEN, 0, a) && FirstAt(b, SOURCE_CLOSE, a + 8, c)
    ensures SourceBody(b) == Some(b[a + 8..c])
  {
    FoundFirst(b, SOURCE_OPEN, 0, a);
    FoundFirst(b, SOURCE_CLOSE, a + 8, c);
  }

  /** The text filled in is what stands between the first source tag and the next closing one. */
  lemma SourceBodyIs(b: string, x: string, body: string, rest: string)
    requires b == x + SOURCE_OPEN + body + SOURCE_CLOSE + rest
    requires Lacks(x, SOURCE_OPEN) && Lacks(body, SOURCE_CLOSE)
    ensures SourceBody(b) == Some(body)
  {
    SourceLaidOut(b, x, body, rest);
    SourceTagsAreTokens();
    FirstAfter(b, x, 0, SOURCE_OPEN);
    FirstAfter(b, body, |x| + 8, SOURCE_CLOSE);
    SourceBodyAt(b, |x|, |x| + 8 + |body|);
  }

  lemma {:induction false} SeededIsParsed(parts: Parts)
    requires Parsed(parts)
    ensures Parsed(SeedParts(parts))
  {
    match parts
    case Tail(_) =>
    case Part(_, block, rest) =>
      SeededIsBlock(block);
      SeededIsParsed(rest);
  }

  /** The seeded text has the blocks of the text, each seeded, and the same text between them. */
  lemma SeedFindsTheSameBlocks(s: string)
    ensures Parse(Seed(s)) == SeedParts(Parse(s))
  {
    ParseIsParsed(s);
    SeededIsParsed(Parse(s));
    ParsePrint(SeedParts(Parse(s)));
  }

  /** No block's source text refills the translation it is written into. */
  predicate AllSettle(parts: Parts) {
    match parts
    case Tail(_) => true
    case Part(_, block, rest) => (LeftAlone(block) || !Refills(MARKUP, SourceBody(block).value)) && AllSettle(rest)
  }

  lemma {:induction false} SecondPassOverParts(parts: Parts)
    ensures SeedParts(SeedParts(parts)) == SeedParts(parts) <==> AllSettle(parts)
  {
    match parts
    case Tail(_) =>
    case Part(_, block, rest) =>
      SecondPass(block);
      SecondPassOverParts(rest);
  }

  /** Seeding is idempotent exactly on the texts whose source bodies do not refill themselves. */
  lemma SeedIsIdempotentIff(s: string)
    ensures Seed(Seed(s)) == Seed(s) <==> AllSettle(Parse(s))
  {
    var parts := Parse(s);
    SeedFindsTheSameBlocks(s);
    SecondPassOverParts(parts);
    ParseIsParsed(s);
    SeededIsParsed(parts);
    SeededIsParsed(SeedParts(parts));
    ParsePrint(SeedParts(parts));
    ParsePrint(SeedParts(SeedParts(parts)));
  }

  /** A source text without a bracket never refills itself. */
  lemma PlainTextSettles(body: string)
    requires '<' !in body
    ensures !Refills(MARKUP, body)
  {
    MarkupIsProper();
    forall q: nat ensures !At(body, UNFINISHED_OPEN, q) {
      if At(body, UNFINISHED_OPEN, q) { BracketAt(body, UNFINISHED_OPEN, q); }
    }
    forall q: nat ensures !At(body, MARKUP.Empty(), q) {
      Joined(MARKUP, body, q);
    }
  }

  ghost predicate AllPlain(parts: Parts) {
    match parts
    case Tail(_) => true
    case Part(_, block, rest) => (SourceBody(block).Some? ==> '<' !in SourceBody(block).value) && AllPlain(rest)
  }

  lemma {:induction false} PlainPartsSettle(parts: Parts)
    requires AllPlain(parts)
    ensures AllSettle(parts)
  {
    match parts
    case Tail(_) =>
    case Part(_, block, rest) =>
      if SourceBody(block).Some? { PlainTextSettles(SourceBody(block).value); }
      PlainPartsSettle(rest);
  }

  /** On a catalogue whose source texts are escaped, a check right after seeding finds nothing to do. */
  lemma EscapedCatalogueIsSeededOnce(s: string)
    requires AllPlain(Parse(s))
    ensures Seed(Seed(s)) == Seed(s)
  {
    PlainPartsSettle(Parse(s));
    SeedIsIdempotentIff(s);
  }

  // ----- a source text that refills itself -----

  const MESSAGE_TAG := "<message>"

  /** A source text that is itself an unfinished tag. */
  function Refilling(): string {
    MESSAGE_TAG + SOURCE_OPEN + UNFINISHED_OPEN + SOURCE_CLOSE + UNFINISHED_EMPTY + MESSAGE_CLOSE
  }

  ghost predicate Layout(b: string) {
    && |b| == 112 && At(b, MESSAGE_TAG, 0) && At(b, SOURCE_OPEN, 9) && At(b, UNFINISHED_OPEN, 17)
    && At(b, SOURCE_CLOSE, 48) && At(b, UNFINISHED_OPEN, 57) && At(b, TRANSLATION_CLOSE, 88)
    && At(b, MESSAGE_CLOSE, 102)
  }

  lemma RefillingHead(tail: string)
    ensures var b := MESSAGE_TAG + SOURCE_OPEN + UNFINISHED_OPEN + tail;
            At(b, MESSAGE_TAG, 0) && At(b, SOURCE_OPEN, 9) && At(b, UNFINISHED_OPEN, 17) && b[48..] == tail
  {
  }

  lemma RefillingTail()
    ensures var t := SOURCE_CLOSE + UNFINISHED_OPEN + TRANSLATION_CLOSE + MESSAGE_CLOSE;
            && |t| == 64 && At(t, SOURCE_CLOSE, 0) && At(t, UNFINISHED_OPEN, 9) && At(t, TRANSLATION_CLOSE, 40)
            && At(t, MESSAGE_CLOSE, 54)
  {
  }

  lemma RefillingLayout()
    ensures Layout(Refilling())
  {
    var b, t := Refilling(), SOURCE_CLOSE + UNFINISHED_OPEN + TRANSLATION_CLOSE + MESSAGE_CLOSE;
    assert b == MESSAGE_TAG + SOURCE_OPEN + UNFINISHED_OPEN + t;
    RefillingHead(t);
    RefillingTail();
    assert At(b, t, 48);
    AtInside(b, t, 48, SOURCE_CLOSE, 0);
    AtInside(b, t, 48, UNFINISHED_OPEN, 9);
    AtInside(b, t, 48, TRANSLATION_CLOSE, 40);
    AtInside(b, t, 48, MESSAGE_CLOSE, 54);
  }

  lemma UnfinishedIsNotPlural(q: nat)
    ensures !At(UNFINISHED_OPEN, PLURAL, q)
  {
    if q + 13 <= |UNFINISHED_OPEN| {
      var part := UNFINISHED_OPEN[q..q + 13];
      assert part[7] == UNFINISHED_OPEN[q + 7] && part[0] == UNFINISHED_OPEN[q];
      assert part[7] == '=' ==> part[0] != 'n';
    }
  }

  lemma TagsAround(b: string, t: string, q: nat)
    requires Layout(b) && At(b, t, q) && '<' !in t && '>' !in t && |t| == 13
    ensures 17 <= q && (q + 13 <= 48 || (57 <= q && q + 13 <= 88))
  {
    TagAvoids(b, MESSAGE_TAG, 0, t, q);
    TagAvoids(b, SOURCE_OPEN, 9, t, q);
    TagAvoids(b, SOURCE_CLOSE, 48, t, q);
    TagAvoids(b, TRANSLATION_CLOSE, 88, t, q);
    TagAvoids(b, MESSAGE_CLOSE, 102, t, q);
  }

  lemma RefillingIsNotPlural(b: string)
    requires Layout(b)
    ensures !Contains(b, PLURAL)
  {
    var found := Find(b, PLURAL, 0);
    if found.Some? {
      var q := found.value;
      TagsAround(b, PLURAL, q);
      var m := if q < 57 then 17 else 57;
      AtInside(b, UNFINISHED_OPEN, m, PLURAL, q - m);
      UnfinishedIsNotPlural(q - m);
    }
  }

  lemma RefillingSource(b: string)
    requires Layout(b)
    ensures SourceBody(b) == Some(UNFINISHED_OPEN)
  {
    SourceIsForeign();
    UnfinishedIsTag();
    assert MESSAGE_TAG[1] != SOURCE_OPEN[1];
    forall k: nat | k < 9 ensures !At(b, SOURCE_OPEN, k) {
      if At(b, SOURCE_OPEN, k) { Apart(b, SOURCE_OPEN, k, MESSAGE_TAG, 0); }
    }
    forall k: nat | 17 <= k < 48 ensures !At(b, SOURCE_CLOSE, k) {
      if At(b, SOURCE_CLOSE, k) { Apart(b, SOURCE_CLOSE, k, UNFINISHED_OPEN, 17); }
    }
    assert Find(b, SOURCE_OPEN, 0) == Some(9) && Find(b, SOURCE_CLOSE, 17) == Some(48);
  }

  lemma CloseIsForeign()
    ensures Clash(MESSAGE_CLOSE, SOURCE_OPEN) && Clash(MESSAGE_CLOSE, SOURCE_CLOSE)
  {
    assert MESSAGE_CLOSE[1] != SOURCE_OPEN[1] && MESSAGE_CLOSE[2] != SOURCE_CLOSE[2];
  }

  lemma RefillingClosesOnce(b: string, k: nat)
    requires Layout(b) && 9 <= k && At(b, MESSAGE_CLOSE, k)
    ensures k >= 102
  {
    MarkupIsProper();
    MarkupElsewhere();
    SourceIsForeign();
    CloseIsForeign();
    Apart(b, MESSAGE_CLOSE, k, SOURCE_OPEN, 9);
    Apart(b, MESSAGE_CLOSE, k, UNFINISHED_OPEN, 17);
    Apart(b, MESSAGE_CLOSE, k, SOURCE_CLOSE, 48);
    Apart(b, MESSAGE_CLOSE, k, UNFINISHED_OPEN, 57);
    Apart(b, MESSAGE_CLOSE, k, TRANSLATION_CLOSE, 88);
  }

  lemma RefillingIsBlock(b: string)
    requires Layout(b)
    ensures IsBlock(b)
  {
    assert b[0..9][..8] == b[0..8] == MESSAGE_OPEN && b[0..9][8] == b[8] == '>' && b[8..9] == ">";
    forall k: nat | 9 <= k < 102 ensures !At(b, MESSAGE_CLOSE, k) {
      if At(b, MESSAGE_CLOSE, k) { RefillingClosesOnce(b, k); }
    }
    Assembled(b, 8);
  }

  lemma BlockIsItsOwnText(b: string)
    requires IsBlock(b)
    ensures Parse(b) == Part("", b, Tail(""))
  {
    var parts := Part("", b, Tail(""));
    assert Print(parts) == b;
    ParsePrint(parts);
  }

  /** A text whose second seeding changes what the first one wrote. */
  lemma SomeTextsNeedASecondPass()
    ensures Seed(Seed(Refilling())) != Seed(Refilling())
  {
    var b := Refilling();
    RefillingLayout();
    RefillingIsBlock(b);
    BlockIsItsOwnText(b);
    RefillingIsNotPlural(b);
    RefillingSource(b);
    Joined(MARKUP, b, 57);
    ContainsAt(b, UNFINISHED_EMPTY, 57);
    SeedIsIdempotentIff(b);
  }
}

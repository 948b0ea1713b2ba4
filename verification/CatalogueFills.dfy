/** What seeding writes, in the catalogue's own words: the tags spelled out, block by block and tag by tag. */
module CatalogueFills {
  import opened Basics
  import opened CatalogueSeeds
  import opened CatalogueBlocks
  import opened CatalogueTheorems

  // ----- which stretches are messages -----

  lemma AtIn(x: string, t: string, z: string)
    ensures At(x + t + z, t, |x|)
  {
  }

  /** A message tag with or without attributes, an inner text without a closing tag, and the closing tag are one
      block. */
  lemma MessageIsABlock(attributes: string, inner: string)
    requires attributes == "" || attributes[0] == ' '
    requires forall i :: 0 <= i < |attributes| ==> attributes[i] != '>'
    requires Lacks(inner, "</message>")
    ensures IsBlock("<message" + attributes + ">" + inner + "</message>")
  {
    var b, j := "<message" + attributes + ">" + inner + "</message>", 8 + |attributes|;
    assert b[0..8] == "<message" && b[8] == if attributes == "" then '>' else ' ';
    assert b[j..j + 1] == ">" && b[j + 1..j + 1 + |inner|] == inner && b[|b| - 10..|b|] == "</message>";
    forall k | 8 <= k < j ensures !At(b, ">", k) {
      assert b[k] == attributes[k - 8] && b[k..k + 1][0] == b[k];
    }
    FirstAfter(b, inner, j + 1, MESSAGE_CLOSE);
    assert IsMatch(b, 0, j, |b|);
  }

  /** A longer tag name is another tag. */
  lemma LongerNamesAreOtherTags(s: string, i: nat)
    requires i + 8 < |s|
    requires 'a' <= s[i + 8] <= 'z' || 'A' <= s[i + 8] <= 'Z' || '0' <= s[i + 8] <= '9' || s[i + 8] == '_'
    ensures MatchAt(s, i).None?
  {
  }

  // ----- the text, block by block -----

  /** The text before the first block stays, the block is seeded, and the rest is seeded as a text of its own. */
  lemma SeedGoesBlockByBlock(gap: string, block: string, rest: string)
    requires GapFree(gap) && IsBlock(block)
    ensures Seed(gap + block + rest) == gap + SeedBlock(block) + Seed(rest)
  {
    var s, i, end := gap + block + rest, |gap|, |gap| + |block|;
    assert s[..i] == gap && s[i..end] == block && s[end..] == rest;
    BlockComesFirst(s, i, end);
  }

  /** A text without a block stays. */
  lemma SeedLeavesOtherText(s: string)
    requires TailFree(s)
    ensures Seed(s) == s
  {
  }

  // ----- the block, tag by tag -----

  lemma ContainsUnlessLacking(s: string, t: string)
    ensures Contains(s, t) <==> !Lacks(s, t)
  {
  }

  lemma EmptyTagIs()
    ensures UNFINISHED_EMPTY == "<translation type=\"unfinished\"></translation>"
  {
  }

  /** A block is changed exactly when it is no plural, has an empty unfinished translation, and has a source text. */
  lemma SeedChangesIff(b: string)
    ensures SeedBlock(b) != b <==>
            && Lacks(b, "numerus=\"yes\"") && !Lacks(b, "<translation type=\"unfinished\"></translation>")
            && exists a: nat, c: nat :: At(b, "<source>", a) && a + 8 <= c && At(b, "</source>", c)
  {
    EmptyTagIs();
    ContainsUnlessLacking(b, PLURAL);
    ContainsUnlessLacking(b, UNFINISHED_EMPTY);
    if a: nat, c: nat :| Sourced(b, a, c) { SourcedHasBody(b, a, c); }
    if SourceBody(b).Some? { var a, c := BodyIs(b); }
    if !LeftAlone(b) {
      MarkupIsProper();
      SeedBlockReplaces(b);
      ReplaceChanges(MARKUP, b, SourceBody(b).value);
    }
  }

  /** The first occurrence is replaced, and what follows it is gone through again; a text without one stays. */
  lemma ReplaceGoesOn(x: string, gone: string, z: string, fill: string)
    requires gone != "" && FirstAt(x + gone + z, gone, 0, |x|)
    ensures Replace(x + gone + z, gone, fill) == x + fill + Replace(z, gone, fill)
  {
    var s := x + gone + z;
    assert s[..|x|] == x && s[|x| + |gone|..] == z;
    assert Find(s, gone, 0) == Some(|x|);
  }

  lemma ReplaceLeavesOtherText(s: string, gone: string, fill: string)
    requires gone != "" && Lacks(s, gone)
    ensures Replace(s, gone, fill) == s
  {
  }

  lemma DiffersAt(s: string, t: string, k: nat, d: nat)
    requires d < |t| && k + d < |s| && s[k + d] != t[d]
    ensures !At(s, t, k)
  {
    if k + |t| <= |s| { assert s[k..k + |t|][d] == s[k + d]; }
  }

  lemma OneOtherBracket(e: nat)
    requires 0 < e < |UNFINISHED_EMPTY|
    ensures |UNFINISHED_EMPTY| == 45 && UNFINISHED_EMPTY[0] == '<' && UNFINISHED_EMPTY[1] == 't'
    ensures UNFINISHED_EMPTY[32] == '/' && (UNFINISHED_EMPTY[e] == '<' ==> e == 31)
  {
    EmptyTagIs();
  }

  /** It does not begin within a text and reach into another that follows: its second bracket opens a closing tag. */
  lemma DoesNotReachIn(x: string, z: string, k: nat)
    requires Lacks(x, UNFINISHED_EMPTY) && k < |x|
    ensures !At(x + UNFINISHED_EMPTY + z, UNFINISHED_EMPTY, k)
  {
    var s, t, e := x + UNFINISHED_EMPTY + z, UNFINISHED_EMPTY, |x| - k;
    if e < |t| {
      OneOtherBracket(e);
      assert s[|x|] == '<' && s[|x| + 1] == 't';
      DiffersAt(s, t, k, if t[e] == '<' then 32 else e);
    } else {
      assert At(s, x, 0);
      AtInside(s, x, 0, t, k);
    }
  }

  /** An empty unfinished translation after a text without one is the first. */
  lemma FirstTagOf(x: string, z: string)
    requires Lacks(x, UNFINISHED_EMPTY)
    ensures FirstAt(x + UNFINISHED_EMPTY + z, UNFINISHED_EMPTY, 0, |x|)
    ensures Contains(x + UNFINISHED_EMPTY + z, UNFINISHED_EMPTY)
  {
    AtIn(x, UNFINISHED_EMPTY, z);
    ContainsAt(x + UNFINISHED_EMPTY + z, UNFINISHED_EMPTY, |x|);
    forall k: nat | k < |x| ensures !At(x + UNFINISHED_EMPTY + z, UNFINISHED_EMPTY, k) {
      DoesNotReachIn(x, z, k);
    }
  }

  lemma FillsAt(x: string, source: string, tail: string)
    requires SourceBody(x + UNFINISHED_EMPTY + tail) == Some(source) && !Contains(x + UNFINISHED_EMPTY + tail, PLURAL)
    requires Lacks(x, UNFINISHED_EMPTY) && Lacks(tail, UNFINISHED_EMPTY)
    ensures SeedBlock(x + UNFINISHED_EMPTY + tail) == x + (TRANSLATION_OPEN + source + TRANSLATION_CLOSE) + tail
  {
    var fill := TRANSLATION_OPEN + source + TRANSLATION_CLOSE;
    FirstTagOf(x, tail);
    ReplaceGoesOn(x, UNFINISHED_EMPTY, tail, fill);
    ReplaceLeavesOtherText(tail, UNFINISHED_EMPTY, fill);
  }

  /** A message up to its translation. */
  function UpToTranslation(head: string, source: string, middle: string): string {
    head + "<source>" + source + "</source>" + middle
  }

  lemma SourceOfMessage(head: string, source: string, middle: string, rest: string)
    requires Lacks(head, "<source>") && Lacks(source, "</source>")
    ensures SourceBody(UpToTranslation(head, source, middle) + rest) == Some(source)
  {
    var b := UpToTranslation(head, source, middle) + rest;
    assert b == head + SOURCE_OPEN + source + SOURCE_CLOSE + (middle + rest);
    SourceBodyIs(b, head, source, middle + rest);
  }

  /** A message that is no plural and awaits its one translation gets its source text as that, and nothing else of it
      changes. */
  lemma FillsTheTranslation(head: string, source: string, middle: string, tail: string)
    requires Lacks(head, "<source>") && Lacks(source, "</source>")
    requires var x := UpToTranslation(head, source, middle);
             && Lacks(x, "<translation type=\"unfinished\"></translation>")
             && Lacks(tail, "<translation type=\"unfinished\"></translation>")
             && Lacks(x + "<translation type=\"unfinished\"></translation>" + tail, "numerus=\"yes\"")
    ensures var x := UpToTranslation(head, source, middle);
            SeedBlock(x + "<translation type=\"unfinished\"></translation>" + tail) ==
            x + ("<translation>" + source + "</translation>") + tail
  {
    var x := UpToTranslation(head, source, middle);
    EmptyTagIs();
    SourceOfMessage(head, source, middle, UNFINISHED_EMPTY + tail);
    assert x + UNFINISHED_EMPTY + tail == x + (UNFINISHED_EMPTY + tail);
    ContainsUnlessLacking(x + UNFINISHED_EMPTY + tail, PLURAL);
    FillsAt(x, source, tail);
  }
}

/** Parsing and printing a catalogue's message blocks are inverse, so that blocks can be rewritten one by one. */
module CatalogueBlocks {
  import opened Basics
  import opened CatalogueSeeds

  // ----- tokens of one angle bracket -----

  /** Begins with the only angle bracket in it. */
  predicate OneBracket(t: string) {
    t != "" && t[0] == '<' && forall k :: 0 < k < |t| ==> t[k] != '<'
  }

  predicate Bracketed(s: string) {
    s == "" || s[0] == '<'
  }

  /** A search in a stretch of a text. */
  lemma AtInside(s: string, b: string, off: nat, t: string, i: nat)
    requires At(s, b, off) && i + |t| <= |b|
    ensures At(s, t, off + i) <==> At(b, t, i)
  {
    var u, v := b[i..i + |t|], s[off + i..off + i + |t|];
    forall d | 0 <= d < |t| ensures u[d] == v[d] {
      assert s[off..off + |b|][i + d] == s[off + i + d];
    }
    assert u == v;
  }

  lemma FirstInside(s: string, b: string, off: nat, t: string, from: nat, i: nat)
    requires At(s, b, off) && i + |t| <= |b|
    ensures FirstAt(s, t, off + from, off + i) <==> FirstAt(b, t, from, i)
  {
    AtInside(s, b, off, t, i);
    forall k: nat | k < i ensures At(s, t, off + k) <==> At(b, t, k) {
      AtInside(s, b, off, t, k);
    }
    if FirstAt(b, t, from, i) {
      forall k | off + from <= k < off + i ensures !At(s, t, k) {
        assert !At(b, t, k - off);
      }
    }
  }

  /** A token of one bracket does not reach across a bracket. */
  lemma NoStraddle(s: string, t: string, i: nat, m: nat)
    requires OneBracket(t) && At(s, t, i) && m < |s| && s[m] == '<'
    ensures i + |t| <= m || m <= i
  {
    assert forall d :: 0 <= d < |t| ==> t[d] == s[i..i + |t|][d] == s[i + d];
    assert i <= m < i + |t| ==> t[m - i] == s[m];
  }

  // ----- matches -----

  /** A match from i to end whose tag ends at j. */
  ghost predicate IsMatch(s: string, i: nat, j: nat, end: nat) {
    end >= 10 && Start(s, i) && FirstAt(s, ">", i + 8, j) && FirstAt(s, MESSAGE_CLOSE, j + 1, end - 10)
  }

  lemma MatchAtIs(s: string, i: nat, j: nat, end: nat)
    requires IsMatch(s, i, j, end)
    ensures MatchAt(s, i) == Some(end)
  {
  }

  lemma MatchIs(s: string, i: nat) returns (j: nat)
    requires MatchAt(s, i).Some?
    ensures IsMatch(s, i, j, MatchAt(s, i).value)
  {
    j := Find(s, ">", i + 8).value;
  }

  ghost predicate IsBlock(b: string) {
    exists j: nat :: IsMatch(b, 0, j, |b|)
  }

  lemma IsMatchInside(s: string, b: string, off: nat, j: nat)
    requires At(s, b, off)
    ensures IsMatch(s, off, off + j, off + |b|) <==> IsMatch(b, 0, j, |b|)
  {
    if j + 10 < |b| {
      AtInside(s, b, off, MESSAGE_OPEN, 0);
      assert s[off..off + |b|][8] == s[off + 8];
      FirstInside(s, b, off, ">", 8, j);
      FirstInside(s, b, off, MESSAGE_CLOSE, j + 1, |b| - 10);
    }
  }

  /** Whether a stretch is a match depends on nothing outside it. */
  lemma MatchIsBlock(s: string, i: nat, end: nat)
    requires MatchAt(s, i) == Some(end)
    ensures IsBlock(s[i..end])
  {
    var j := MatchIs(s, i);
    IsMatchInside(s, s[i..end], i, j - i);
  }

  lemma BlockIsMatched(s: string, i: nat, end: nat)
    requires i <= end <= |s| && IsBlock(s[i..end])
    ensures MatchAt(s, i) == Some(end)
  {
    var j: nat :| IsMatch(s[i..end], 0, j, end - i);
    IsMatchInside(s, s[i..end], i, j);
    MatchAtIs(s, i, i + j, end);
  }

  // ----- what parsing yields -----

  ghost predicate GapFree(gap: string) {
    forall i: nat :: !Start(gap, i)
  }

  ghost predicate TailFree(tail: string) {
    forall i: nat :: MatchAt(tail, i).None?
  }

  ghost predicate Parsed(parts: Parts) {
    match parts
    case Tail(text) => TailFree(text)
    case Part(gap, block, rest) => GapFree(gap) && IsBlock(block) && Parsed(rest)
  }

  lemma StartInGap(s: string, m: nat, i: nat)
    requires i < m < |s| && s[m] == '<'
    ensures Start(s, i) <==> Start(s[..m], i)
  {
    if At(s, MESSAGE_OPEN, i) { NoStraddle(s, MESSAGE_OPEN, i, m); }
    assert At(s, s[..m], 0);
    if i + 8 <= m { AtInside(s, s[..m], 0, MESSAGE_OPEN, i); }
  }

  lemma MatchHasBracket(s: string, i: nat)
    requires MatchAt(s, i).Some?
    ensures i < |s| && s[i] == '<'
  {
    assert s[i..i + 8][0] == s[i];
  }

  /** Before a match nothing starts a message: it would have matched as well. */
  lemma GapBeforeMatch(s: string, i: nat, p: nat)
    requires MatchAt(s, i).Some? && p < i && Start(s, p)
    ensures MatchAt(s, p).Some?
  {
    var j := MatchIs(s, i);
    assert At(s, ">", j) && At(s, MESSAGE_CLOSE, MatchAt(s, i).value - 10);
  }

  lemma NoStartInGap(s: string, i: nat, p: nat)
    requires MatchAt(s, i).Some? && p < i && MatchAt(s, p).None?
    ensures !Start(s[..i], p)
  {
    MatchHasBracket(s, i);
    if Start(s[..i], p) {
      StartInGap(s, i, p);
      GapBeforeMatch(s, i, p);
    }
  }

  lemma NoMatchInGap(s: string, i: nat, p: nat)
    requires p < i < |s| && s[i] == '<' && !Start(s[..i], p)
    ensures MatchAt(s, p).None?
  {
    StartInGap(s, i, p);
  }

  lemma FirstMatchIs(s: string, i: nat, end: nat)
    requires FirstMatch(s, 0) == Some(i) && MatchAt(s, i) == Some(end)
    ensures GapFree(s[..i]) && IsBlock(s[i..end])
  {
    MatchIsBlock(s, i, end);
    forall p: nat ensures !Start(s[..i], p) {
      if p < i { NoStartInGap(s, i, p); }
    }
  }

  /** A free gap and a block are found first, whatever follows. */
  lemma BlockComesFirst(s: string, i: nat, end: nat)
    requires i <= end <= |s| && GapFree(s[..i]) && IsBlock(s[i..end])
    ensures FirstMatch(s, 0) == Some(i) && MatchAt(s, i) == Some(end)
  {
    BlockIsMatched(s, i, end);
    MatchHasBracket(s, i);
    var first := FirstMatch(s, 0);
    assert first.Some? && first.value <= i;
    if first.value < i { NoMatchInGap(s, i, first.value); }
  }

  lemma Cut(s: string, i: nat, end: nat)
    requires i <= end <= |s|
    ensures s == s[..i] + s[i..end] + s[end..]
  {
  }

  lemma NoFirstMatch(s: string)
    requires FirstMatch(s, 0).None?
    ensures TailFree(s)
  {
  }

  lemma {:induction false} ParseIsParsed(s: string)
    ensures Parsed(Parse(s)) && Print(Parse(s)) == s
    decreases |s|
  {
    match FirstMatch(s, 0)
    case None => NoFirstMatch(s);
    case Some(i) =>
      var end := MatchAt(s, i).value;
      ParseIsParsed(s[end..]);
      FirstMatchIs(s, i, end);
      Cut(s, i, end);
  }

  /** Printing well-formed parts and parsing again gives the parts. */
  lemma {:induction false} ParsePrint(parts: Parts)
    requires Parsed(parts)
    ensures Parse(Print(parts)) == parts
    decreases parts
  {
    match parts
    case Tail(_) =>
    case Part(gap, block, rest) =>
      var s, i, end := Print(parts), |gap|, |gap| + |block|;
      ParsePrint(rest);
      assert s[..i] == gap && s[i..end] == block && s[end..] == Print(rest);
      BlockComesFirst(s, i, end);
  }
}

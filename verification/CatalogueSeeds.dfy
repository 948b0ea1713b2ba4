/**
 The seeding of the source-language catalogue: which blocks of the text it finds, what it writes
 into them, and what a second pass then does.
 */
module CatalogueSeeds {
  import opened Basics

  const MESSAGE_OPEN := "<message"
  const MESSAGE_CLOSE := "</message>"
  const SOURCE_OPEN := "<source>"
  const SOURCE_CLOSE := "</source>"
  const PLURAL := "numerus=\"yes\""
  const UNFINISHED_OPEN := "<translation type=\"unfinished\">"
  const TRANSLATION_OPEN := "<translation>"
  const TRANSLATION_CLOSE := "</translation>"
  const UNFINISHED_EMPTY := UNFINISHED_OPEN + TRANSLATION_CLOSE

  // ----- searching -----

  predicate At(s: string, t: string, i: nat) {
    i + |t| <= |s| && s[i..i + |t|] == t
  }

  predicate FirstAt(s: string, t: string, from: nat, i: nat) {
    from <= i && At(s, t, i) && forall k :: from <= k < i ==> !At(s, t, k)
  }

  /** str.find: the first place at or after another. */
  function Find(s: string, t: string, from: nat): (found: Option<nat>)
    ensures found.Some? ==> FirstAt(s, t, from, found.value)
    ensures found.None? ==> forall i :: from <= i ==> !At(s, t, i)
    decreases |s| - from
  {
    if from + |t| > |s| then None
    else if At(s, t, from) then Some(from)
    else Find(s, t, from + 1)
  }

  predicate Contains(s: string, t: string) {
    Find(s, t, 0).Some?
  }

  // ----- the pattern of a message block -----

  /** The characters of \w, for ASCII text. */
  predicate Word(c: char) {
    'a' <= c <= 'z' || 'A' <= c <= 'Z' || '0' <= c <= '9' || c == '_'
  }

  /** The tag's name, whole: no further word character follows it. */
  predicate Start(s: string, i: nat) {
    At(s, MESSAGE_OPEN, i) && (i + 8 < |s| ==> !Word(s[i + 8]))
  }

  /** Where a match that begins at i ends: past the first close after the tag's own end. */
  function MatchAt(s: string, i: nat): (end: Option<nat>)
    ensures end.Some? ==> i < end.value <= |s|
  {
    if !Start(s, i) then None
    else
      match Find(s, ">", i + 8)
      case None => None
      case Some(j) =>
        match Find(s, MESSAGE_CLOSE, j + 1)
        case None => None
        case Some(k) => Some(k + 10)
  }

  /** The leftmost match. */
  function FirstMatch(s: string, from: nat): (at: Option<nat>)
    ensures at.Some? ==> from <= at.value && MatchAt(s, at.value).Some?
    ensures at.Some? ==> forall i :: from <= i < at.value ==> MatchAt(s, i).None?
    ensures at.None? ==> forall i :: from <= i ==> MatchAt(s, i).None?
    decreases |s| - from
  {
    if from >= |s| then None
    else if MatchAt(s, from).Some? then Some(from)
    else FirstMatch(s, from + 1)
  }

  /** A text as the blocks the pattern finds and what lies between them. */
  datatype Parts = Tail(text: string) | Part(gap: string, block: string, rest: Parts)

  function Parse(s: string): Parts
    decreases |s|
  {
    match FirstMatch(s, 0)
    case None => Tail(s)
    case Some(i) =>
      var end := MatchAt(s, i).value;
      Part(s[..i], s[i..end], Parse(s[end..]))
  }

  function Print(parts: Parts): string {
    match parts
    case Tail(text) => text
    case Part(gap, block, rest) => gap + block + Print(rest)
  }

  // ----- seeding -----

  /** str.replace: every occurrence, from the left. */
  function Replace(s: string, gone: string, fill: string): string
    requires gone != ""
    decreases |s|
  {
    match Find(s, gone, 0)
    case None => s
    case Some(i) => s[..i] + fill + Replace(s[i + |gone|..], gone, fill)
  }

  /** The first source text of a block. */
  function SourceBody(s: string): Option<string> {
    match Find(s, SOURCE_OPEN, 0)
    case None => None
    case Some(i) =>
      match Find(s, SOURCE_CLOSE, i + 8)
      case None => None
      case Some(j) => Some(s[i + 8..j])
  }

  predicate LeftAlone(block: string) {
    Contains(block, PLURAL) || !Contains(block, UNFINISHED_EMPTY) || SourceBody(block).None?
  }

  function SeedBlock(block: string): string {
    if LeftAlone(block) then block
    else Replace(block, UNFINISHED_EMPTY, TRANSLATION_OPEN + SourceBody(block).value + TRANSLATION_CLOSE)
  }

  function SeedParts(parts: Parts): Parts {
    match parts
    case Tail(_) => parts
    case Part(gap, block, rest) => Part(gap, SeedBlock(block), SeedParts(rest))
  }

  /** re.sub over the whole text. */
  function Seed(s: string): string {
    Print(SeedParts(Parse(s)))
  }
}

/**
 The sort key of a measurements file name, and the previous release it finds.
 */
module MeasurementVersions {
  import opened Basics

  const WIDTH := 8

  // ----- the key -----

  /** How many digits the text starts with. */
  function Run(s: string): (n: nat)
    ensures n <= |s| && AllDigits(s[..n])
    ensures n < |s| ==> !IsDigit(s[n])
  {
    if s == "" || !IsDigit(s[0]) then 0
    else
      var n := 1 + Run(s[1..]);
      assert forall i :: 0 < i < n ==> s[i] == s[1..][i - 1];
      n
  }

  /** Groups as a name yields them: digits, and at least one. */
  predicate Digital(groups: seq<string>) {
    forall i :: 0 <= i < |groups| ==> groups[i] != "" && AllDigits(groups[i])
  }

  /** re.findall of the digit groups: each the longest run of digits where it starts. */
  function Groups(s: string): (groups: seq<string>)
    ensures Digital(groups)
    decreases |s|
  {
    if s == "" then []
    else if Run(s) == 0 then Groups(s[1..])
    else [s[..Run(s)]] + Groups(s[Run(s)..])
  }

  /** str.zfill: zeros in front up to the width, and nothing taken away. */
  function Padded(digits: string): string {
    if |digits| >= WIDTH then digits else seq(WIDTH - |digits|, _ => '0') + digits
  }

  function KeyOf(groups: seq<string>): string {
    if groups == [] then "" else Padded(groups[0]) + KeyOf(groups[1..])
  }

  function VersionSortKey(name: string): string {
    KeyOf(Groups(name))
  }

  /** A group and the text between it and what is before it. */
  datatype Numbered = Numbered(text: string, digits: string)

  predicate NoDigit(s: string) {
    forall i :: 0 <= i < |s| ==> !IsDigit(s[i])
  }

  function Written(parts: seq<Numbered>, tail: string): string {
    if parts == [] then tail else parts[0].text + parts[0].digits + Written(parts[1..], tail)
  }

  function DigitsOf(parts: seq<Numbered>): seq<string> {
    if parts == [] then [] else [parts[0].digits] + DigitsOf(parts[1..])
  }

  /** Some text between any two groups, and digits in each. */
  predicate Apart(parts: seq<Numbered>, tail: string) {
    && NoDigit(tail)
    && (forall i :: 0 <= i < |parts| ==> NoDigit(parts[i].text) && parts[i].digits != "" && AllDigits(parts[i].digits))
    && (forall i :: 0 < i < |parts| ==> parts[i].text != "")
  }

  lemma {:induction false} TextIsSkipped(text: string, s: string)
    requires NoDigit(text)
    ensures Groups(text + s) == Groups(s)
    decreases |text|
  {
    if text == "" {
      assert text + s == s;
    } else {
      TextIsSkipped(text[1..], s);
      assert (text + s)[1..] == text[1..] + s && !IsDigit((text + s)[0]);
    }
  }

  lemma {:induction false} RunIsWhole(digits: string, s: string)
    requires AllDigits(digits) && (s == "" || !IsDigit(s[0]))
    ensures Run(digits + s) == |digits|
  {
    if digits == "" {
      assert digits + s == s;
    } else {
      RunIsWhole(digits[1..], s);
      assert (digits + s)[1..] == digits[1..] + s;
    }
  }

  /** The groups of a name are the numbers written in it, in order. */
  lemma {:induction false} GroupsReadBack(parts: seq<Numbered>, tail: string)
    requires Apart(parts, tail)
    ensures Groups(Written(parts, tail)) == DigitsOf(parts)
    decreases parts
  {
    if parts == [] {
      TextIsSkipped(tail, "");
      assert tail + "" == tail;
    } else {
      var first, rest := parts[0], Written(parts[1..], tail);
      GroupsReadBack(parts[1..], tail);
      assert rest == "" || !IsDigit(rest[0]) by {
        if |parts| > 1 { assert rest[0] == parts[1].text[0]; }
      }
      RunIsWhole(first.digits, rest);
      assert (first.digits + rest)[..|first.digits|] == first.digits && (first.digits + rest)[|first.digits|..] == rest;
      TextIsSkipped(first.text, first.digits + rest);
      assert first.text + (first.digits + rest) == Written(parts, tail);
    }
  }

  // ----- the order the key stands for -----

  function Values(groups: seq<string>): (values: seq<nat>)
    requires forall i :: 0 <= i < |groups| ==> AllDigits(groups[i])
    ensures |values| == |groups|
  {
    if groups == [] then [] else [Value(groups[0])] + Values(groups[1..])
  }

  /** Numbers group by group, a shorter version before the ones it begins. */
  predicate Older(a: seq<nat>, b: seq<nat>) {
    b != [] && (a == [] || a[0] < b[0] || (a[0] == b[0] && Older(a[1..], b[1..])))
  }

  predicate Short(groups: seq<string>) {
    forall i :: 0 <= i < |groups| ==> |groups[i]| <= WIDTH
  }

  // ----- digits of one width compare as numbers -----

  /** Of two digit strings of one length the one before the other is the smaller number. */
  lemma {:induction false} SameWidthOrder(a: string, b: string)
    requires AllDigits(a) && AllDigits(b) && |a| == |b|
    ensures Before(a, b) <==> Value(a) < Value(b)
    ensures a == b <==> Value(a) == Value(b)
    decreases |a|
  {
    if a != "" {
      var n := |a| - 1;
      SameWidthOrder(a[..n], b[..n]);
      BeforeOneMore(a[..n], a[n], b[..n], b[n]);
      assert a == a[..n] + [a[n]] && b == b[..n] + [b[n]];
      assert IsDigit(a[n]) && IsDigit(b[n]);
    }
  }

  lemma {:induction false} BeforeOneMore(a: string, x: char, b: string, y: char)
    requires |a| == |b|
    ensures Before(a + [x], b + [y]) <==> Before(a, b) || (a == b && x < y)
    decreases |a|
  {
    if a != "" {
      assert (a + [x])[1..] == a[1..] + [x] && (b + [y])[1..] == b[1..] + [y];
      assert a == [a[0]] + a[1..] && b == [b[0]] + b[1..];
      BeforeOneMore(a[1..], x, b[1..], y);
    }
  }

  lemma {:induction false} ZerosAddNothing(k: nat, digits: string)
    requires AllDigits(digits)
    ensures AllDigits(seq(k, _ => '0') + digits)
    ensures Value(seq(k, _ => '0') + digits) == Value(digits)
    decreases |digits|, k
  {
    var all := seq(k, _ => '0') + digits;
    if digits != "" {
      var n := |digits| - 1;
      ZerosAddNothing(k, digits[..n]);
      assert all[..|all| - 1] == seq(k, _ => '0') + digits[..n];
    } else if k > 0 {
      ZerosAddNothing(k - 1, digits);
      assert all[..k - 1] == seq(k - 1, _ => '0') + digits;
    }
  }

  lemma PaddedKeepsValue(digits: string)
    requires AllDigits(digits) && |digits| <= WIDTH
    ensures AllDigits(Padded(digits)) && |Padded(digits)| == WIDTH && Value(Padded(digits)) == Value(digits)
  {
    ZerosAddNothing(WIDTH - |digits|, digits);
    if |digits| == WIDTH { assert seq(0, _ => '0') + digits == digits; }
  }

  // ----- the key's order -----

  lemma {:induction false} BeforeAfterPrefix(a: string, x: string, b: string, y: string)
    requires |a| == |b|
    ensures Before(a + x, b + y) <==> Before(a, b) || (a == b && Before(x, y))
    decreases |a|
  {
    if a == "" {
      assert a + x == x && b + y == y;
    } else {
      assert (a + x)[1..] == a[1..] + x && (b + y)[1..] == b[1..] + y;
      assert a == [a[0]] + a[1..] && b == [b[0]] + b[1..];
      BeforeAfterPrefix(a[1..], x, b[1..], y);
    }
  }

  /** String order of the padded keys is numeric order of the groups. */
  lemma {:induction false} KeyOrderIsVersionOrder(a: seq<string>, b: seq<string>)
    requires forall i :: 0 <= i < |a| ==> AllDigits(a[i])
    requires forall i :: 0 <= i < |b| ==> AllDigits(b[i])
    requires Short(a) && Short(b)
    ensures Before(KeyOf(a), KeyOf(b)) <==> Older(Values(a), Values(b))
    ensures KeyOf(a) == KeyOf(b) <==> Values(a) == Values(b)
    decreases a, b
  {
    if a != [] { PaddedKeepsValue(a[0]); }
    if b != [] { PaddedKeepsValue(b[0]); }
    if a != [] && b != [] {
      var pa, pb := Padded(a[0]), Padded(b[0]);
      SameWidthOrder(pa, pb);
      KeyOrderIsVersionOrder(a[1..], b[1..]);
      BeforeAfterPrefix(pa, KeyOf(a[1..]), pb, KeyOf(b[1..]));
      assert KeyOf(a)[..WIDTH] == pa && KeyOf(b)[..WIDTH] == pb;
      assert KeyOf(a)[WIDTH..] == KeyOf(a[1..]) && KeyOf(b)[WIDTH..] == KeyOf(b[1..]);
      assert Values(a)[1..] == Values(a[1..]) && Values(b)[1..] == Values(b[1..]);
      assert Values(a) == [Value(a[0])] + Values(a[1..]) && Values(b) == [Value(b[0])] + Values(b[1..]);
    }
  }

  // ----- exactly which versions sort rightly -----

  /** Two keys compare, both ways, as the numbers they stand for. */
  predicate Agree(key: string, values: seq<nat>, otherKey: string, otherValues: seq<nat>) {
    && (Before(key, otherKey) <==> Older(values, otherValues))
    && (Before(otherKey, key) <==> Older(otherValues, values))
  }

  /** Filed rightly among all the versions of groups of at most eight digits. */
  ghost predicate SortsRight(groups: seq<string>)
    requires Digital(groups)
  {
    forall other :: Digital(other) && Short(other)
      ==> Agree(KeyOf(groups), Values(groups), KeyOf(other), Values(other))
  }

  function Nines(n: nat): (groups: seq<string>)
    ensures |groups| == n && Short(groups) && Digital(groups)
  {
    seq(n, _ => "99999999")
  }

  lemma {:induction false} KeyOfNines(n: nat)
    ensures |KeyOf(Nines(n))| == WIDTH * n
    ensures forall i :: 0 <= i < |KeyOf(Nines(n))| ==> KeyOf(Nines(n))[i] == '9'
  {
    if n > 0 {
      KeyOfNines(n - 1);
      assert Nines(n)[1..] == Nines(n - 1);
    }
  }

  lemma {:induction false} BeforeLongerNines(s: string, nines: string)
    requires AllDigits(s) && |s| < |nines|
    requires forall i :: 0 <= i < |nines| ==> nines[i] == '9'
    ensures Before(s, nines) && !Before(nines, s)
  {
    if s != "" { BeforeLongerNines(s[1..], nines[1..]); }
  }

  lemma {:induction false} ValueSplits(digits: string, k: nat)
    requires AllDigits(digits) && k <= |digits|
    ensures Value(digits) == Value(digits[..k]) * Tens(|digits| - k) + Value(digits[k..])
    ensures Value(digits[k..]) < Tens(|digits| - k)
    decreases |digits|
  {
    var n := |digits| - 1;
    if k == |digits| {
      assert digits[..k] == digits;
    } else {
      ValueSplits(digits[..n], k);
      assert digits[..n][..k] == digits[..k] && digits[..n][k..] == digits[k..][..n - k];
      assert IsDigit(digits[n]);
      TenTimes(Value(digits[..k]), Tens(n - k));
    }
  }

  lemma TenTimes(a: nat, b: nat)
    ensures 10 * (a * b) == a * (10 * b)
  {
  }

  lemma ValueOfZeros(digits: string)
    requires AllDigits(digits) && Value(digits) == 0
    ensures forall i :: 0 <= i < |digits| ==> digits[i] == '0'
    decreases |digits|
  {
    if digits != "" { ValueOfZeros(digits[..|digits| - 1]); }
  }

  /** A longer group of a small value ends with eight digits of that value. */
  lemma LastEight(digits: string)
    requires AllDigits(digits) && |digits| > WIDTH && Value(digits) < 100_000_000
    ensures Value(digits[|digits| - WIDTH..]) == Value(digits)
  {
    var k := |digits| - WIDTH;
    assert Tens(WIDTH) == 100_000_000;
    ValueSplits(digits, k);
    NoneOfThese(Value(digits[..k]), Value(digits[k..]), Value(digits));
  }

  lemma NoneOfThese(a: nat, b: nat, c: nat)
    requires a * 100_000_000 + b == c < 100_000_000
    ensures a == 0
  {
  }

  /** It starts with eight digits of less. */
  lemma FirstEight(digits: string)
    requires AllDigits(digits) && |digits| > WIDTH && 0 < Value(digits)
    ensures Value(digits[..WIDTH]) < Value(digits)
  {
    var k := |digits| - WIDTH;
    ValueSplits(digits, WIDTH);
    assert Tens(k) == 10 * Tens(k - 1);
    TensArePositive(k - 1);
    AtLeastTenfold(Value(digits[..WIDTH]), Tens(k), Value(digits));
  }

  lemma {:induction false} TensArePositive(n: nat)
    ensures Tens(n) >= 1
  {
    if n > 0 { TensArePositive(n - 1); }
  }

  lemma AtLeastTenfold(a: nat, b: nat, c: nat)
    requires a * b <= c && b >= 10 && c > 0
    ensures a < c
  {
    if a > 0 { assert a * b >= a * 10; }
  }

  /** A stretch of more than eight digits, and the groups after it, compared with a version. */
  ghost predicate Misfiled(digits: string, rest: seq<string>, other: seq<string>)
    requires AllDigits(digits) && Digital(rest)
  {
    Digital(other) && Short(other) &&
    !Agree(digits + KeyOf(rest), [Value(digits)] + Values(rest), KeyOf(other), Values(other))
  }

  lemma {:induction false} KeyIsDigits(groups: seq<string>)
    requires Digital(groups)
    ensures AllDigits(KeyOf(groups))
  {
    if groups != [] { KeyIsDigits(groups[1..]); }
  }

  lemma EightNines()
    ensures AllDigits("99999999") && Value("99999999") < 100_000_000
  {
    ValueSplits("99999999", 0);
    assert Tens(WIDTH) == 100_000_000;
    assert "99999999"[0..] == "99999999";
  }

  lemma MisfiledAmongNines(digits: string, rest: seq<string>) returns (other: seq<string>)
    requires AllDigits(digits) && Digital(rest) && Value(digits) >= 100_000_000
    ensures Misfiled(digits, rest, other)
  {
    var key := digits + KeyOf(rest);
    KeyIsDigits(rest);
    other := Nines(|key| + 1);
    KeyOfNines(|key| + 1);
    BeforeLongerNines(key, KeyOf(other));
    EightNines();
    assert Values(other)[0] == Value(other[0]) < 100_000_000;
  }

  lemma LastEightIsAfter(digits: string, key: string)
    requires AllDigits(digits) && |digits| > WIDTH && 0 < Value(digits) < 100_000_000
    ensures Before(digits + key, digits[|digits| - WIDTH..])
  {
    var first, last := digits[..WIDTH], digits[|digits| - WIDTH..];
    LastEight(digits);
    FirstEight(digits);
    SameWidthOrder(first, last);
    BeforeAfterPrefix(first, digits[WIDTH..] + key, last, "");
    assert digits + key == first + (digits[WIDTH..] + key) && last == last + "";
  }

  lemma MisfiledAtItsOwnValue(digits: string, rest: seq<string>) returns (other: seq<string>)
    requires AllDigits(digits) && Digital(rest) && |digits| > WIDTH && 0 < Value(digits) < 100_000_000
    ensures Misfiled(digits, rest, other)
  {
    var last := digits[|digits| - WIDTH..];
    other := [last];
    LastEight(digits);
    LastEightIsAfter(digits, KeyOf(rest));
    assert KeyOf(other) == last + KeyOf([]) == last;
    assert Values(other) == [Value(other[0])] + Values(other[1..]);
    assert Before(digits + KeyOf(rest), KeyOf(other));
    assert !Older([Value(digits)] + Values(rest), Values(other));
  }

  /** An eight-digit group in front of both sides changes nothing. */
  lemma AgreeBehind(group: string, key: string, values: seq<nat>, other: string, otherValues: seq<nat>)
    requires AllDigits(group)
    ensures Agree(group + key, [Value(group)] + values, group + other, [Value(group)] + otherValues)
       <==> Agree(key, values, other, otherValues)
  {
    BeforeIsTotal(group, group);
    BeforeAfterPrefix(group, key, group, other);
    BeforeAfterPrefix(group, other, group, key);
    assert ([Value(group)] + values)[1..] == values;
    assert ([Value(group)] + otherValues)[1..] == otherValues;
  }

  lemma Regrouped(digits: string, group: string, key: string)
    requires |digits| > WIDTH
    ensures digits + (group + key) == digits[..WIDTH] + ((digits[WIDTH..] + group) + key)
  {
    assert digits == digits[..WIDTH] + digits[WIDTH..];
  }

  /** Eight of the zeros are a group of their own, the others lengthen the next group. */
  lemma MoveZeros(digits: string, rest: seq<string>)
    requires AllDigits(digits) && |digits| > WIDTH && Value(digits) == 0
    requires Digital(rest) && rest != []
    ensures AllDigits(digits[..WIDTH]) && Value(digits[..WIDTH]) == 0
    ensures var next := digits[WIDTH..] + Padded(rest[0]);
            && AllDigits(next) && |next| > WIDTH && Value(next) == Value(rest[0])
            && digits + KeyOf(rest) == digits[..WIDTH] + (next + KeyOf(rest[1..]))
  {
    Regrouped(digits, Padded(rest[0]), KeyOf(rest[1..]));
    var k := |digits| - WIDTH;
    ValueOfZeros(digits);
    ZerosAddNothing(WIDTH, "");
    assert digits[..WIDTH] == seq(WIDTH, _ => '0') + "";
    assert digits[WIDTH..] == seq(k, _ => '0');
    if |rest[0]| <= WIDTH { PaddedKeepsValue(rest[0]); }
    ZerosAddNothing(k, Padded(rest[0]));
  }

  /** More than eight digits always misfile some version. */
  lemma {:induction false} LongIsMisfiled(digits: string, rest: seq<string>) returns (other: seq<string>)
    requires AllDigits(digits) && Digital(rest) && |digits| > WIDTH
    ensures Misfiled(digits, rest, other)
    decreases rest
  {
    if Value(digits) >= 100_000_000 {
      other := MisfiledAmongNines(digits, rest);
    } else if Value(digits) > 0 {
      other := MisfiledAtItsOwnValue(digits, rest);
    } else if rest == [] {
      other := MisfiledZeros(digits);
    } else {
      var zeros, next := digits[..WIDTH], digits[WIDTH..] + Padded(rest[0]);
      MoveZeros(digits, rest);
      var others := LongIsMisfiled(next, rest[1..]);
      other := [zeros] + others;
      AgreeBehind(zeros, next + KeyOf(rest[1..]), Values(rest), KeyOf(others), Values(others));
      assert other[1..] == others;
    }
  }

  lemma MisfiledZeros(digits: string) returns (other: seq<string>)
    requires AllDigits(digits) && |digits| > WIDTH && Value(digits) == 0
    ensures Misfiled(digits, [], other)
  {
    var zeros := digits[..WIDTH];
    other := [zeros];
    ValueOfZeros(digits);
    MoveZeros(digits, ["0"]);
    AgreeBehind(zeros, digits[WIDTH..], [], "", []);
    assert digits + KeyOf([]) == zeros + digits[WIDTH..];
    assert KeyOf(other) == zeros + KeyOf([]) == zeros + "";
    assert Values(other) == [Value(other[0])] + Values(other[1..]);
    assert [Value(digits)] + Values([]) == [Value(zeros)] + [];
  }

  /** A long group anywhere misfiles: the groups before it can be matched one by one. */
  lemma {:induction false} LongSomewhereIsMisfiled(groups: seq<string>) returns (other: seq<string>)
    requires Digital(groups) && !Short(groups)
    ensures Digital(other) && Short(other)
    ensures !Agree(KeyOf(groups), Values(groups), KeyOf(other), Values(other))
    decreases groups
  {
    var first, rest := groups[0], groups[1..];
    if |first| > WIDTH {
      other := LongIsMisfiled(first, rest);
    } else {
      var others := LongSomewhereIsMisfiled(rest);
      var group := Padded(first);
      PaddedKeepsValue(first);
      other := [group] + others;
      AgreeBehind(group, KeyOf(rest), Values(rest), KeyOf(others), Values(others));
      assert other[1..] == others && KeyOf(other) == group + KeyOf(others);
    }
  }

  /** The key files a version rightly exactly when none of its numbers has more than eight digits. */
  lemma SortsRightIffShort(groups: seq<string>)
    requires Digital(groups)
    ensures SortsRight(groups) <==> Short(groups)
  {
    if Short(groups) {
      forall other | Digital(other) && Short(other)
        ensures Agree(KeyOf(groups), Values(groups), KeyOf(other), Values(other))
      {
        KeyOrderIsVersionOrder(groups, other);
        KeyOrderIsVersionOrder(other, groups);
      }
    } else {
      var other := LongSomewhereIsMisfiled(groups);
    }
  }

  /** One more digit than fits: 100000000 is filed before 99999999. */
  lemma NineDigitsSortTooEarly()
    ensures Before(KeyOf(["100000000"]), KeyOf(["99999999"])) && Value("99999999") < Value("100000000")
  {
    ValueSplits("99999999", 0);
    ValueSplits("100000000", 1);
    assert Tens(8) == 100_000_000 && Value("100000000"[..1]) == 1;
    assert "99999999"[0..] == "99999999";
  }

  // ----- the previous release -----

  const SCHEMA := 1
  const BENCH := "input_path"

  /** What the file holds: nothing that parses, or the fields the reader looks at. */
  datatype Contents =
    | Unreadable
    | Json(isObject: bool, schema: int, bench: string, hasLatency: bool, version: string)

  datatype File = File(name: string, contents: Contents)

  /** A schema 1 report of the input path, with its latencies. */
  predicate Usable(c: Contents) {
    c.Json? && c.isObject && c.schema == 1 && c.bench == "input_path" && c.hasLatency
  }

  predicate Candidate(f: File, excluded: string) {
    Usable(f.contents) && f.contents.version != excluded
  }

  function Keys(files: seq<File>): (keys: seq<string>)
    ensures |keys| == |files|
  {
    seq(|files|, i requires 0 <= i < |files| => VersionSortKey(files[i].name))
  }

  /** The order a stable sort puts two places of a list in. */
  predicate Precedes(keys: seq<string>, i: int, j: int)
    requires 0 <= i < |keys| && 0 <= j < |keys|
  {
    Before(keys[i], keys[j]) || (keys[i] == keys[j] && i < j)
  }

  predicate Sorted(keys: seq<string>, order: seq<nat>) {
    && (forall k :: 0 <= k < |order| ==> order[k] < |keys|)
    && (forall k, l :: 0 <= k < l < |order| ==> Precedes(keys, order[k], order[l]))
  }

  /** Every place below n, once, in the stable order. */
  predicate Ranked(keys: seq<string>, order: seq<nat>, n: nat) {
    && Sorted(keys, order)
    && (forall k :: 0 <= k < |order| ==> order[k] < n)
    && (forall i: nat :: i < n ==> i in order)
  }

  lemma PrecedesIsTransitive(keys: seq<string>, i: nat, j: nat, k: nat)
    requires i < |keys| && j < |keys| && k < |keys|
    requires Precedes(keys, i, j) && Precedes(keys, j, k)
    ensures Precedes(keys, i, k)
  {
    if Before(keys[i], keys[j]) && Before(keys[j], keys[k]) { BeforeIsTransitive(keys[i], keys[j], keys[k]); }
  }

  lemma EarlierPrecede(keys: seq<string>, order: seq<nat>, n: nat, at: nat)
    requires n < |keys| && 0 < at <= |order| && Ranked(keys, order, n)
    requires !Before(keys[n], keys[order[at - 1]])
    ensures forall k :: 0 <= k < at ==> Precedes(keys, order[k], n)
  {
    var last := order[at - 1];
    BeforeIsTotal(keys[last], keys[n]);
    assert Precedes(keys, last, n);
    forall k | 0 <= k < at ensures Precedes(keys, order[k], n) {
      if k < at - 1 { PrecedesIsTransitive(keys, order[k], last, n); }
    }
  }

  lemma InsertedIsRanked(keys: seq<string>, order: seq<nat>, n: nat, at: nat)
    requires n < |keys| && at <= |order| && Ranked(keys, order, n)
    requires forall k :: 0 <= k < at ==> Precedes(keys, order[k], n)
    requires forall k :: at <= k < |order| ==> Precedes(keys, n, order[k])
    ensures Ranked(keys, order[..at] + [n] + order[at..], n + 1)
  {
    var longer := order[..at] + [n] + order[at..];
    forall k, l | 0 <= k < l < |longer| ensures Precedes(keys, longer[k], longer[l]) {
      assert longer[k] == if k < at then order[k] else if k == at then n else order[k - 1];
      assert longer[l] == if l < at then order[l] else if l == at then n else order[l - 1];
    }
    forall i: nat | i < n + 1 ensures i in longer {
      assert longer[at] == n;
      assert i < n ==> i in order && order == order[..at] + order[at..];
    }
  }

  /** The stable sort, one file at a time: each goes after every one its key is not before. */
  method SortByVersion(files: seq<File>) returns (order: seq<nat>)
    ensures Ranked(Keys(files), order, |files|)
  {
    order := [];
    var keys := Keys(files);
    for n := 0 to |files|
      invariant Ranked(keys, order, n)
    {
      var at := |order|;
      while at > 0 && Before(keys[n], keys[order[at - 1]])
        invariant 0 <= at <= |order|
        invariant forall k :: at <= k < |order| ==> Precedes(keys, n, order[k])
      {
        at := at - 1;
      }
      if at > 0 { EarlierPrecede(keys, order, n, at); }
      InsertedIsRanked(keys, order, n, at);
      order := order[..at] + [n] + order[at..];
    }
  }

  predicate Within(files: seq<File>, order: seq<nat>) {
    forall k :: 0 <= k < |order| ==> order[k] < |files|
  }

  /** Of the first k files in order, the one found is the last candidate. */
  ghost predicate LastOf(files: seq<File>, excluded: string, order: seq<nat>, k: nat, found: Option<nat>)
    requires Within(files, order) && k <= |order|
  {
    match found
    case None => forall l :: 0 <= l < k ==> !Candidate(files[order[l]], excluded)
    case Some(at) => exists m :: 0 <= m < k && IsLast(files, excluded, order, k, m) && order[m] == at
  }

  ghost predicate IsLast(files: seq<File>, excluded: string, order: seq<nat>, k: nat, m: int)
    requires Within(files, order) && 0 <= m < k <= |order|
  {
    Candidate(files[order[m]], excluded) && forall l :: m < l < k ==> !Candidate(files[order[l]], excluded)
  }

  /** The candidate that follows all the others. */
  ghost predicate IsPrevious(files: seq<File>, excluded: string, at: nat) {
    && at < |files| && Candidate(files[at], excluded)
    && forall j :: 0 <= j < |files| && j != at && Candidate(files[j], excluded) ==> Precedes(Keys(files), j, at)
  }

  lemma OneMoreFile(files: seq<File>, excluded: string, order: seq<nat>, k: nat, found: Option<nat>)
    requires Within(files, order) && k < |order| && LastOf(files, excluded, order, k, found)
    ensures LastOf(files, excluded, order, k + 1,
                   if Candidate(files[order[k]], excluded) then Some(order[k]) else found)
  {
    if Candidate(files[order[k]], excluded) {
      assert IsLast(files, excluded, order, k + 1, k);
    } else if found.Some? {
      var m :| 0 <= m < k && IsLast(files, excluded, order, k, m) && order[m] == found.value;
      assert IsLast(files, excluded, order, k + 1, m);
    }
  }

  lemma LastOfAll(files: seq<File>, excluded: string, order: seq<nat>, found: Option<nat>)
    requires Ranked(Keys(files), order, |files|) && LastOf(files, excluded, order, |order|, found)
    ensures found.None? <==> forall i :: 0 <= i < |files| ==> !Candidate(files[i], excluded)
    ensures found.Some? ==> IsPrevious(files, excluded, found.value)
  {
    forall i: nat | i < |files| && Candidate(files[i], excluded)
      ensures found.Some? && (i == found.value || Precedes(Keys(files), i, found.value))
    {
      assert i in order;
    }
  }

  /** The last file in key order that is a report of another version. */
  method ReadPrevious(directory: Option<seq<File>>, excluded: string) returns (found: Option<Contents>)
    ensures found.None? <==>
      directory.None? || forall i :: 0 <= i < |directory.value| ==> !Candidate(directory.value[i], excluded)
    ensures found.Some? ==>
      exists at: nat :: IsPrevious(directory.value, excluded, at) && found.value == directory.value[at].contents
  {
    found := None;
    if directory.None? { return; }
    var files := directory.value;
    var order := SortByVersion(files);
    ghost var at: Option<nat> := None;
    for k := 0 to |order|
      invariant LastOf(files, excluded, order, k, at)
      invariant found == if at.Some? then Some(files[at.value].contents) else None
    {
      OneMoreFile(files, excluded, order, k, at);
      var data := files[order[k]].contents;
      if data.Unreadable? { continue; }
      var usable := data.isObject && data.schema == SCHEMA && data.bench == BENCH && data.hasLatency;
      if !usable { continue; }
      if data.version == excluded { continue; }
      found, at := Some(data), Some(order[k]);
    }
    LastOfAll(files, excluded, order, at);
  }

  /** Where the numbers of every candidate fit, no candidate is newer than the one found. */
  lemma PreviousIsTheNewest(files: seq<File>, excluded: string, at: nat)
    requires IsPrevious(files, excluded, at)
    requires forall j :: 0 <= j < |files| && Candidate(files[j], excluded) ==> Short(Groups(files[j].name))
    ensures forall j :: 0 <= j < |files| && Candidate(files[j], excluded) ==>
      !Older(Values(Groups(files[at].name)), Values(Groups(files[j].name)))
  {
    forall j | 0 <= j < |files| && Candidate(files[j], excluded)
      ensures !Older(Values(Groups(files[at].name)), Values(Groups(files[j].name)))
    {
      KeyOrderIsVersionOrder(Groups(files[at].name), Groups(files[j].name));
      BeforeIsTotal(Keys(files)[at], Keys(files)[j]);
    }
  }
}

/**
 Twin dedup: which of the pads SDL lists are hidden because a claim streams them already. As many of a
 model are hidden as are claimed, the USB ones first.
 */
module TwinDedup {
  import opened Basics

  const HALF := 0x1_0000_0000

  datatype Twin = Twin(vendorId: int, productId: int)

  datatype Routed = Routed(id: SlotId, vendorId: int, productId: int, disconnecting: bool, bluetooth: bool)

  /** Vendor in the high 32 bits, product in the low ones. */
  function ModelKey(vendorId: int, productId: int): int {
    vendorId * HALF + productId % HALF
  }

  function KeyOf(d: Routed): int {
    ModelKey(d.vendorId, d.productId)
  }

  predicate Is32Bit(n: int) {
    -0x8000_0000 <= n < 0x8000_0000
  }

  lemma ModelKeyIsInjective(v: int, p: int, v': int, p': int)
    requires Is32Bit(p) && Is32Bit(p')
    ensures ModelKey(v, p) == ModelKey(v', p') <==> v == v' && p == p'
  {
    assert p % HALF == if p < 0 then p + HALF else p;
    assert p' % HALF == if p' < 0 then p' + HALF else p';
  }

  // ----- what is hidden, said without the search -----

  /** How many claims of a model stream; an unidentified one matches nothing. */
  function Claims(synthetics: seq<Twin>, key: int): nat {
    if synthetics == [] then 0
    else
      var s := synthetics[0];
      Claims(synthetics[1..], key)
      + if s.vendorId != 0 && s.productId != 0 && ModelKey(s.vendorId, s.productId) == key then 1 else 0
  }

  function OfModel(routed: seq<Routed>, key: int): seq<Routed> {
    if routed == [] then []
    else (if KeyOf(routed[0]) == key then [routed[0]] else []) + OfModel(routed[1..], key)
  }

  /** USB before Bluetooth, and within a transport disconnecting before live. */
  function Rank(d: Routed): nat {
    (if d.bluetooth then 2 else 0) + (if d.disconnecting then 0 else 1)
  }

  function OfRank(group: seq<Routed>, rank: nat): seq<Routed> {
    if group == [] then []
    else (if Rank(group[0]) == rank then [group[0]] else []) + OfRank(group[1..], rank)
  }

  /** std::stable_sort by rank. */
  function StablySorted(group: seq<Routed>): seq<Routed> {
    OfRank(group, 0) + OfRank(group, 1) + OfRank(group, 2) + OfRank(group, 3)
  }

  function Min(a: nat, b: nat): nat {
    if a < b then a else b
  }

  /** The devices of a model that are hidden, in the order they are. */
  function HiddenOf(synthetics: seq<Twin>, routed: seq<Routed>, key: int): seq<Routed> {
    var group := StablySorted(OfModel(routed, key));
    group[..Min(Claims(synthetics, key), |group|)]
  }

  /** The ids hidden, over all models. */
  function Suppressed(synthetics: seq<Twin>, routed: seq<Routed>): set<SlotId> {
    set d | d in routed && d in HiddenOf(synthetics, routed, KeyOf(d)) :: d.id
  }

  // ----- the sort is stable -----

  lemma {:induction false} OfRankAdds(a: seq<Routed>, b: seq<Routed>, rank: nat)
    ensures OfRank(a + b, rank) == OfRank(a, rank) + OfRank(b, rank)
    decreases a
  {
    if a == [] {
      assert a + b == b;
    } else {
      assert (a + b)[1..] == a[1..] + b;
      OfRankAdds(a[1..], b, rank);
    }
  }

  lemma {:induction false} OfRankOfRank(group: seq<Routed>, rank: nat, other: nat)
    ensures OfRank(OfRank(group, rank), other) == if rank == other then OfRank(group, rank) else []
    decreases group
  {
    if group != [] {
      OfRankOfRank(group[1..], rank, other);
      var head := if Rank(group[0]) == rank then [group[0]] else [];
      OfRankAdds(head, OfRank(group[1..], rank), other);
      assert OfRank(head, other) == if head != [] && rank == other then head else [];
    }
  }

  /** A rank's share of a group has a device as often as the group, if it is of the rank. */
  lemma {:induction false} OfRankCounts(group: seq<Routed>, rank: nat, d: Routed)
    ensures multiset(OfRank(group, rank))[d] == if Rank(d) == rank then multiset(group)[d] else 0
    decreases group
  {
    if group != [] {
      OfRankCounts(group[1..], rank, d);
      assert group == [group[0]] + group[1..];
      assert multiset(group)[d] == multiset(group[1..])[d] + if group[0] == d then 1 else 0;
    }
  }

  lemma SortedCounts(group: seq<Routed>, d: Routed)
    ensures multiset(StablySorted(group))[d] == multiset(group)[d]
  {
    OfRankCounts(group, 0, d);
    OfRankCounts(group, 1, d);
    OfRankCounts(group, 2, d);
    OfRankCounts(group, 3, d);
  }

  lemma RanksAreAll(group: seq<Routed>)
    ensures multiset(StablySorted(group)) == multiset(group)
  {
    forall d ensures multiset(StablySorted(group))[d] == multiset(group)[d] { SortedCounts(group, d); }
  }

  lemma {:induction false} AllOfOneRank(group: seq<Routed>, rank: nat)
    ensures forall i :: 0 <= i < |OfRank(group, rank)| ==> Rank(OfRank(group, rank)[i]) == rank
    decreases group
  {
    if group != [] { AllOfOneRank(group[1..], rank); }
  }

  predicate Ordered(s: seq<Routed>) {
    forall i, j :: 0 <= i < j < |s| ==> Rank(s[i]) <= Rank(s[j])
  }

  lemma OrderedAdds(a: seq<Routed>, b: seq<Routed>, rank: nat)
    requires Ordered(a) && forall i :: 0 <= i < |a| ==> Rank(a[i]) < rank
    requires forall i :: 0 <= i < |b| ==> Rank(b[i]) == rank
    ensures Ordered(a + b) && forall i :: 0 <= i < |a + b| ==> Rank((a + b)[i]) < rank + 1
  {
  }

  lemma SortedIsOrdered(group: seq<Routed>)
    ensures Ordered(StablySorted(group))
  {
    var a, b, c, d := OfRank(group, 0), OfRank(group, 1), OfRank(group, 2), OfRank(group, 3);
    AllOfOneRank(group, 0);
    AllOfOneRank(group, 1);
    AllOfOneRank(group, 2);
    AllOfOneRank(group, 3);
    OrderedAdds(a, b, 1);
    OrderedAdds(a + b, c, 2);
    OrderedAdds(a + b + c, d, 3);
  }

  lemma {:induction false} NoHigherRank(group: seq<Routed>, rank: nat)
    requires rank > 3
    ensures OfRank(group, rank) == []
    decreases group
  {
    if group != [] { NoHigherRank(group[1..], rank); }
  }

  lemma SortedKeepsRanks(group: seq<Routed>, rank: nat)
    ensures OfRank(StablySorted(group), rank) == OfRank(group, rank)
  {
    var a, b, c, d := OfRank(group, 0), OfRank(group, 1), OfRank(group, 2), OfRank(group, 3);
    OfRankAdds(a + b + c, d, rank);
    OfRankAdds(a + b, c, rank);
    OfRankAdds(a, b, rank);
    OfRankOfRank(group, 0, rank);
    OfRankOfRank(group, 1, rank);
    OfRankOfRank(group, 2, rank);
    OfRankOfRank(group, 3, rank);
    if rank > 3 { NoHigherRank(group, rank); }
  }

  /** Ordered by rank, the same devices, and equal ranks in the order they came: what a stable sort is. */
  lemma StablySortedIsStable(group: seq<Routed>, rank: nat)
    ensures Ordered(StablySorted(group)) && multiset(StablySorted(group)) == multiset(group)
    ensures OfRank(StablySorted(group), rank) == OfRank(group, rank)
  {
    SortedIsOrdered(group);
    RanksAreAll(group);
    SortedKeepsRanks(group, rank);
  }

  // ----- what hiding promises -----

  lemma {:induction false} OfModelIsTheModel(routed: seq<Routed>, key: int, d: Routed)
    ensures d in OfModel(routed, key) <==> d in routed && KeyOf(d) == key
    decreases routed
  {
    if routed != [] {
      OfModelIsTheModel(routed[1..], key, d);
      assert routed == [routed[0]] + routed[1..];
    }
  }

  lemma SortedHasTheModel(routed: seq<Routed>, key: int, d: Routed)
    ensures d in StablySorted(OfModel(routed, key)) <==> d in routed && KeyOf(d) == key
  {
    var group := OfModel(routed, key);
    RanksAreAll(group);
    OfModelIsTheModel(routed, key, d);
    assert d in StablySorted(group) <==> d in multiset(StablySorted(group));
    assert d in group <==> d in multiset(group);
  }

  /** Only a listed device of a claimed model is hidden. */
  lemma HiddenIsClaimed(synthetics: seq<Twin>, routed: seq<Routed>, key: int, d: Routed)
    requires d in HiddenOf(synthetics, routed, key)
    ensures d in routed && KeyOf(d) == key && Claims(synthetics, key) > 0
  {
    SortedHasTheModel(routed, key, d);
  }

  /** Of one model no Bluetooth pad is hidden while a USB one streams, and no live one while a disconnecting one of its
      transport does. */
  lemma UsbAndDisconnectingHideFirst(synthetics: seq<Twin>, routed: seq<Routed>, d: Routed, e: Routed)
    requires d in HiddenOf(synthetics, routed, KeyOf(d)) && e in routed && KeyOf(e) == KeyOf(d)
    requires e !in HiddenOf(synthetics, routed, KeyOf(d))
    ensures !e.bluetooth ==> !d.bluetooth
    ensures e.disconnecting && e.bluetooth == d.bluetooth ==> d.disconnecting
  {
    var key := KeyOf(d);
    var group := StablySorted(OfModel(routed, key));
    SortedHasTheModel(routed, key, e);
    SortedIsOrdered(OfModel(routed, key));
    var n := |HiddenOf(synthetics, routed, key)|;
    var i :| 0 <= i < n && group[i] == d;
    var j :| 0 <= j < |group| && group[j] == e;
    assert forall x :: 0 <= x < n ==> group[x] == HiddenOf(synthetics, routed, key)[x];
  }

  lemma OneClaimHidesOne(synthetics: seq<Twin>, routed: seq<Routed>, key: int, d: Routed, e: Routed)
    requires Claims(synthetics, key) <= 1
    requires d in HiddenOf(synthetics, routed, key) && e in HiddenOf(synthetics, routed, key)
    ensures d == e
  {
    assert |HiddenOf(synthetics, routed, key)| <= 1;
  }

  predicate Distinct(routed: seq<Routed>) {
    forall i, j :: 0 <= i < j < |routed| ==> routed[i].id != routed[j].id
  }

  lemma {:induction false} OfModelIsDistinct(routed: seq<Routed>, key: int)
    requires Distinct(routed)
    ensures Distinct(OfModel(routed, key))
    decreases routed
  {
    if routed != [] {
      OfModelIsDistinct(routed[1..], key);
      forall d | d in OfModel(routed[1..], key) ensures d.id != routed[0].id {
        OfModelIsTheModel(routed[1..], key, d);
      }
    }
  }

  lemma {:induction false} DistinctCountsOnce(s: seq<Routed>, d: Routed)
    requires Distinct(s)
    ensures multiset(s)[d] <= 1
    decreases s
  {
    if s != [] {
      DistinctCountsOnce(s[1..], d);
      assert s == [s[0]] + s[1..];
      if s[0] == d { assert forall x :: x in s[1..] ==> x.id != d.id; }
    }
  }

  lemma TwiceInSeq(s: seq<Routed>, i: nat, j: nat)
    requires i < j < |s| && s[i] == s[j]
    ensures multiset(s)[s[i]] >= 2
  {
    assert s == s[..j] + s[j..];
    assert s[..j][i] == s[i] && s[j..][0] == s[i];
  }

  lemma SortedIsDistinct(group: seq<Routed>)
    requires Distinct(group)
    ensures Distinct(StablySorted(group))
  {
    var s := StablySorted(group);
    RanksAreAll(group);
    forall i, j | 0 <= i < j < |s| ensures s[i].id != s[j].id {
      assert s[i] in multiset(s) && s[j] in multiset(s);
      var a :| 0 <= a < |group| && group[a] == s[i];
      var b :| 0 <= b < |group| && group[b] == s[j];
      if a == b {
        TwiceInSeq(s, i, j);
        DistinctCountsOnce(group, s[i]);
      }
    }
  }

  ghost function Ids(s: seq<Routed>): set<SlotId> {
    set d | d in s :: d.id
  }

  lemma {:induction false} DistinctIdsCount(s: seq<Routed>)
    requires Distinct(s)
    ensures |Ids(s)| == |s|
    decreases s
  {
    if s != [] {
      DistinctIdsCount(s[1..]);
      assert s == [s[0]] + s[1..];
      assert Ids(s) == Ids(s[1..]) + {s[0].id};
      assert s[0].id !in Ids(s[1..]);
    }
  }

  /** As many pads of a model are hidden as are claimed, or all of them: one claim of two hides exactly one. */
  lemma HidesAsManyAsAreClaimed(synthetics: seq<Twin>, routed: seq<Routed>, key: int)
    requires Distinct(routed)
    ensures |Ids(HiddenOf(synthetics, routed, key))| == Min(Claims(synthetics, key), |OfModel(routed, key)|)
  {
    var group := OfModel(routed, key);
    OfModelIsDistinct(routed, key);
    SortedIsDistinct(group);
    RanksAreAll(group);
    assert |multiset(StablySorted(group))| == |multiset(group)|;
    DistinctIdsCount(HiddenOf(synthetics, routed, key));
  }

  // ----- the search -----

  /** suppressedRoutedIds: count the claims, group the devices, sort each group and take from its front. */
  method SuppressedRoutedIds(synthetics: seq<Twin>, routed: seq<Routed>) returns (hidden: set<SlotId>)
    ensures hidden == Suppressed(synthetics, routed)
  {
    var counts := CountClaims(synthetics);
    hidden := {};
    if counts == map[] {
      NothingClaimed(synthetics, routed);
      return;
    }
    var byModel := GroupByModel(routed, counts);
    var left := byModel.Keys;
    ghost var done := {};
    while left != {}
      invariant left <= byModel.Keys && done == byModel.Keys - left
      invariant hidden == SoFar(synthetics, routed, done)
      decreases |left|
    {
      var key := AnyOf(left);
      var taken := TakeFront(StablySorted(byModel[key]), counts[key]);
      OneMoreModel(synthetics, routed, done, key);
      hidden := hidden + taken;
      left, done := left - {key}, done + {key};
    }
    AllModelsDone(synthetics, routed, done);
  }

  method CountClaims(synthetics: seq<Twin>) returns (counts: map<int, nat>)
    ensures forall key :: key in counts <==> Claims(synthetics, key) > 0
    ensures forall key :: key in counts ==> counts[key] == Claims(synthetics, key)
  {
    counts := map[];
    for i := 0 to |synthetics|
      invariant forall key :: key in counts <==> Claims(synthetics[..i], key) > 0
      invariant forall key :: key in counts ==> counts[key] == Claims(synthetics[..i], key)
    {
      var s := synthetics[i];
      OneMoreClaim(synthetics, i);
      if s.vendorId == 0 || s.productId == 0 { continue; }
      var key := ModelKey(s.vendorId, s.productId);
      counts := counts[key := 1 + if key in counts then counts[key] else 0];
    }
    assert synthetics[..|synthetics|] == synthetics;
  }

  lemma {:induction false} ClaimsAdd(a: seq<Twin>, s: Twin, key: int)
    ensures Claims(a + [s], key) == Claims(a, key)
      + if s.vendorId != 0 && s.productId != 0 && ModelKey(s.vendorId, s.productId) == key then 1 else 0
    decreases a
  {
    if a != [] {
      assert (a + [s])[1..] == a[1..] + [s];
      ClaimsAdd(a[1..], s, key);
    }
  }

  lemma OneMoreClaim(synthetics: seq<Twin>, i: nat)
    requires i < |synthetics|
    ensures var s := synthetics[i];
            forall key :: Claims(synthetics[..i + 1], key) == Claims(synthetics[..i], key)
              + if s.vendorId != 0 && s.productId != 0 && ModelKey(s.vendorId, s.productId) == key then 1 else 0
  {
    assert synthetics[..i + 1] == synthetics[..i] + [synthetics[i]];
    forall key {
      ClaimsAdd(synthetics[..i], synthetics[i], key);
    }
  }

  method GroupByModel(routed: seq<Routed>, counts: map<int, nat>) returns (byModel: map<int, seq<Routed>>)
    ensures forall key :: key in byModel <==> key in counts && OfModel(routed, key) != []
    ensures forall key :: key in byModel ==> byModel[key] == OfModel(routed, key)
  {
    byModel := map[];
    for i := 0 to |routed|
      invariant forall key :: key in byModel <==> key in counts && OfModel(routed[..i], key) != []
      invariant forall key :: key in byModel ==> byModel[key] == OfModel(routed[..i], key)
    {
      var key := KeyOf(routed[i]);
      OneMoreDevice(routed, i);
      if key !in counts { continue; }
      byModel := byModel[key := (if key in byModel then byModel[key] else []) + [routed[i]]];
    }
    assert routed[..|routed|] == routed;
  }

  lemma {:induction false} OfModelAdds(a: seq<Routed>, d: Routed, key: int)
    ensures OfModel(a + [d], key) == OfModel(a, key) + if KeyOf(d) == key then [d] else []
    decreases a
  {
    if a != [] {
      assert (a + [d])[1..] == a[1..] + [d];
      OfModelAdds(a[1..], d, key);
    }
  }

  lemma OneMoreDevice(routed: seq<Routed>, i: nat)
    requires i < |routed|
    ensures var d := routed[i];
            forall key ::
              OfModel(routed[..i + 1], key) == OfModel(routed[..i], key) + if KeyOf(d) == key then [d] else []
  {
    assert routed[..i + 1] == routed[..i] + [routed[i]];
    forall key {
      OfModelAdds(routed[..i], routed[i], key);
    }
  }

  method TakeFront(group: seq<Routed>, take: nat) returns (taken: set<SlotId>)
    ensures taken == Ids(group[..Min(take, |group|)])
  {
    taken := {};
    var i := 0;
    while i < take && i < |group|
      invariant i <= Min(take, |group|) && taken == Ids(group[..i])
    {
      assert group[..i + 1] == group[..i] + [group[i]];
      taken := taken + {group[i].id};
      i := i + 1;
    }
  }

  lemma NothingClaimed(synthetics: seq<Twin>, routed: seq<Routed>)
    requires forall key :: Claims(synthetics, key) == 0
    ensures Suppressed(synthetics, routed) == {}
  {
    forall d | d in routed ensures d !in HiddenOf(synthetics, routed, KeyOf(d)) {
      assert Claims(synthetics, KeyOf(d)) == 0;
    }
  }

  /** The ids hidden so far, of the models that are done. */
  ghost function SoFar(synthetics: seq<Twin>, routed: seq<Routed>, done: set<int>): set<SlotId> {
    set d | d in routed && KeyOf(d) in done && d in HiddenOf(synthetics, routed, KeyOf(d)) :: d.id
  }

  lemma OneMoreModel(synthetics: seq<Twin>, routed: seq<Routed>, done: set<int>, key: int)
    ensures SoFar(synthetics, routed, done + {key}) ==
            SoFar(synthetics, routed, done) + Ids(HiddenOf(synthetics, routed, key))
  {
    forall d | d in HiddenOf(synthetics, routed, key) ensures d in routed && KeyOf(d) == key {
      HiddenIsClaimed(synthetics, routed, key, d);
    }
  }

  lemma AllModelsDone(synthetics: seq<Twin>, routed: seq<Routed>, done: set<int>)
    requires forall key :: key in done <==> Claims(synthetics, key) > 0 && OfModel(routed, key) != []
    ensures SoFar(synthetics, routed, done) == Suppressed(synthetics, routed)
  {
    forall d | d in routed && d in HiddenOf(synthetics, routed, KeyOf(d)) ensures KeyOf(d) in done {
      HiddenIsClaimed(synthetics, routed, KeyOf(d), d);
      OfModelIsTheModel(routed, KeyOf(d), d);
    }
  }
}

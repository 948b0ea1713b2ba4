/**
 The slots a rebuild puts on screen: the pads SDL lists less the twins of claimed ones, the claimed pads, and
 the pads that have no other card; and why a binding then always finds the pad it was made for.
 */
module SlotAssembly {
  import opened Basics
  import opened PackedKeys
  import opened BindingPresence
  import opened UsbControllers
  import TwinDedup

  datatype SdlDevice = SdlDevice(id: SlotId, vendorId: int, productId: int, bluetooth: bool)

  /** A claimed pad's slot is named by its packed key. */
  function SyntheticId(c: Controller): SlotId {
    ToString(Pack(c.vendorId, c.productId))
  }

  // ----- what is on screen -----

  function Synthetics(controllers: seq<Controller>): seq<TwinDedup.Twin> {
    if controllers == [] then []
    else
      var c := controllers[0];
      (if c.phase.Direct? then [TwinDedup.Twin(c.vendorId, c.productId)] else []) + Synthetics(controllers[1..])
  }

  function AsRouted(d: SdlDevice): TwinDedup.Routed {
    TwinDedup.Routed(d.id, d.vendorId, d.productId, false, d.bluetooth)
  }

  function RoutedOf(devices: seq<SdlDevice>): seq<TwinDedup.Routed> {
    seq(|devices|, i requires 0 <= i < |devices| => AsRouted(devices[i]))
  }

  function Hidden(controllers: seq<Controller>, devices: seq<SdlDevice>): set<SlotId> {
    TwinDedup.Suppressed(Synthetics(controllers), RoutedOf(devices))
  }

  function SlotOf(d: SdlDevice): PresentSlot {
    PresentSlot(d.id, d.vendorId, d.productId)
  }

  function SdlSlots(devices: seq<SdlDevice>, hidden: set<SlotId>): seq<PresentSlot> {
    if devices == [] then []
    else (if devices[0].id in hidden then [] else [SlotOf(devices[0])]) + SdlSlots(devices[1..], hidden)
  }

  function CardOf(c: Controller): PresentSlot {
    PresentSlot(SyntheticId(c), c.vendorId, c.productId)
  }

  function DirectSlots(controllers: seq<Controller>): seq<PresentSlot> {
    if controllers == [] then []
    else (if controllers[0].phase.Direct? then [CardOf(controllers[0])] else []) + DirectSlots(controllers[1..])
  }

  function AwaitingSlots(controllers: seq<Controller>): seq<PresentSlot> {
    if controllers == [] then []
    else
      var c := controllers[0];
      (if c.frameworkExpected || c.phase.Direct? then [] else [CardOf(c)]) + AwaitingSlots(controllers[1..])
  }

  function Pads(controllers: seq<Controller>, devices: seq<SdlDevice>): seq<PresentSlot> {
    SdlSlots(devices, Hidden(controllers, devices)) + DirectSlots(controllers) + AwaitingSlots(controllers)
  }

  function Slots(devices: seq<SdlDevice>): seq<PresentSlot> {
    seq(|devices|, i requires 0 <= i < |devices| => SlotOf(devices[i]))
  }

  // ----- the loops that build it -----

  method HideSdlTwinsOfClaimedPads(controllers: seq<Controller>, devices: seq<SdlDevice>)
    returns (hidden: set<SlotId>)
    ensures hidden == Hidden(controllers, devices)
  {
    var synthetics := CollectSynthetics(controllers);
    var routed := CollectRouted(devices);
    hidden := TwinDedup.SuppressedRoutedIds(synthetics, routed);
  }

  method CollectSynthetics(controllers: seq<Controller>) returns (synthetics: seq<TwinDedup.Twin>)
    ensures synthetics == Synthetics(controllers)
  {
    synthetics := [];
    for i := 0 to |controllers|
      invariant synthetics + Synthetics(controllers[i..]) == Synthetics(controllers)
    {
      assert controllers[i..][1..] == controllers[i + 1..];
      var c := controllers[i];
      if c.phase.Direct? { synthetics := synthetics + [TwinDedup.Twin(c.vendorId, c.productId)]; }
    }
  }

  method CollectRouted(devices: seq<SdlDevice>) returns (routed: seq<TwinDedup.Routed>)
    ensures routed == RoutedOf(devices)
  {
    routed := [];
    for i := 0 to |devices|
      invariant |routed| == i && forall k :: 0 <= k < i ==> routed[k] == AsRouted(devices[k])
    {
      routed := routed + [AsRouted(devices[i])];
    }
  }

  method AppendSdlSlots(devices: seq<SdlDevice>, hidden: set<SlotId>, presentPads: seq<PresentSlot>)
    returns (pads: seq<PresentSlot>)
    ensures pads == presentPads + SdlSlots(devices, hidden)
  {
    pads := presentPads;
    for i := 0 to |devices|
      invariant pads + SdlSlots(devices[i..], hidden) == presentPads + SdlSlots(devices, hidden)
    {
      NextSdlSlots(devices, hidden, i, pads);
      if devices[i].id in hidden { continue; }
      pads := pads + [SlotOf(devices[i])];
    }
  }

  lemma NextSdlSlots(devices: seq<SdlDevice>, hidden: set<SlotId>, i: nat, pads: seq<PresentSlot>)
    requires i < |devices|
    ensures pads + SdlSlots(devices[i..], hidden) ==
            (if devices[i].id in hidden then pads else pads + [SlotOf(devices[i])]) + SdlSlots(devices[i + 1..], hidden)
  {
    assert devices[i..][1..] == devices[i + 1..];
  }

  method AppendDirectSlots(controllers: seq<Controller>, presentPads: seq<PresentSlot>)
    returns (pads: seq<PresentSlot>)
    ensures pads == presentPads + DirectSlots(controllers)
  {
    pads := presentPads;
    for i := 0 to |controllers|
      invariant pads + DirectSlots(controllers[i..]) == presentPads + DirectSlots(controllers)
    {
      NextDirectSlots(controllers, i, pads);
      if !controllers[i].phase.Direct? { continue; }
      pads := pads + [CardOf(controllers[i])];
    }
  }

  lemma NextDirectSlots(controllers: seq<Controller>, i: nat, pads: seq<PresentSlot>)
    requires i < |controllers|
    ensures pads + DirectSlots(controllers[i..]) ==
            (if !controllers[i].phase.Direct? then pads else pads + [CardOf(controllers[i])])
            + DirectSlots(controllers[i + 1..])
  {
    assert controllers[i..][1..] == controllers[i + 1..];
  }

  method AppendAwaitingClaimSlots(controllers: seq<Controller>, presentPads: seq<PresentSlot>)
    returns (pads: seq<PresentSlot>)
    ensures pads == presentPads + AwaitingSlots(controllers)
  {
    pads := presentPads;
    for i := 0 to |controllers|
      invariant pads + AwaitingSlots(controllers[i..]) == presentPads + AwaitingSlots(controllers)
    {
      NextAwaitingSlots(controllers, i, pads);
      if controllers[i].frameworkExpected || controllers[i].phase.Direct? { continue; }
      pads := pads + [CardOf(controllers[i])];
    }
  }

  lemma NextAwaitingSlots(controllers: seq<Controller>, i: nat, pads: seq<PresentSlot>)
    requires i < |controllers|
    ensures pads + AwaitingSlots(controllers[i..]) ==
            (if controllers[i].frameworkExpected || controllers[i].phase.Direct? then pads
             else pads + [CardOf(controllers[i])])
            + AwaitingSlots(controllers[i + 1..])
  {
    assert controllers[i..][1..] == controllers[i + 1..];
  }

  /** The pads a rebuild shows. */
  method ShowPads(controllers: seq<Controller>, devices: seq<SdlDevice>) returns (pads: seq<PresentSlot>)
    ensures pads == Pads(controllers, devices)
  {
    var hidden := HideSdlTwinsOfClaimedPads(controllers, devices);
    pads := AppendSdlSlots(devices, hidden, []);
    pads := AppendDirectSlots(controllers, pads);
    pads := AppendAwaitingClaimSlots(controllers, pads);
  }

  // ----- what the program guarantees of its inputs -----

  /** A bridge id: "sdl:" and the instance. */
  predicate IsSdlId(id: SlotId) {
    "sdl:" <= id
  }

  ghost predicate IsSyntheticId(id: SlotId) {
    exists v, p :: Is16Bit(v) && Is16Bit(p) && id == ToString(Pack(v, p))
  }

  /** A map by packed key, in the order of its keys. */
  predicate Keyed(controllers: seq<Controller>) {
    && (forall i :: 0 <= i < |controllers| ==>
          Is16Bit(controllers[i].vendorId) && Is16Bit(controllers[i].productId))
    && (forall i, j :: 0 <= i < j < |controllers| ==>
          Pack(controllers[i].vendorId, controllers[i].productId)
          < Pack(controllers[j].vendorId, controllers[j].productId))
  }

  /** Each open instance once, under its own id. */
  predicate Listed(devices: seq<SdlDevice>) {
    && (forall i :: 0 <= i < |devices| ==>
          IsSdlId(devices[i].id) && Is16Bit(devices[i].vendorId) && Is16Bit(devices[i].productId))
    && (forall i, j :: 0 <= i < j < |devices| ==> devices[i].id != devices[j].id)
  }

  /** Bindings are of slots that were on screen once. */
  ghost predicate Named(b: Bindings) {
    forall id :: id in b ==> IsSdlId(id) || IsSyntheticId(id)
  }

  // ----- names -----

  lemma SyntheticIsNotSdl(v: int, p: int)
    ensures !IsSdlId(ToString(Pack(v, p)))
  {
    var n := Pack(v, p);
    if n >= 0 { DecimalReadsBack(n); } else { DecimalReadsBack(-n); }
    assert "sdl:"[0] == 's';
  }

  lemma SdlIsNotParsed(id: SlotId)
    requires IsSdlId(id)
    ensures ParseSyntheticSlotId(id).None?
  {
    assert id[0] == "sdl:"[0] == 's';
  }

  lemma ToStringIsInjective(m: int, n: int)
    ensures ToString(m) == ToString(n) <==> m == n
  {
    DecimalReadsBack(if m < 0 then -m else m);
    DecimalReadsBack(if n < 0 then -n else n);
    if ToString(m) == ToString(n) {
      assert m < 0 <==> ToString(m)[0] == '-';
      assert n < 0 <==> ToString(n)[0] == '-';
      if m < 0 { assert ToString(m)[1..] == Decimal(-m) && ToString(n)[1..] == Decimal(-n); }
    }
  }

  // ----- who is on screen -----

  lemma {:induction false} SdlSlotsAre(devices: seq<SdlDevice>, hidden: set<SlotId>, slot: PresentSlot)
    ensures slot in SdlSlots(devices, hidden) <==>
      exists d :: d in devices && d.id !in hidden && slot == SlotOf(d)
    decreases devices
  {
    if devices != [] {
      SdlSlotsAre(devices[1..], hidden, slot);
      assert devices == [devices[0]] + devices[1..];
    }
  }

  lemma {:induction false} DirectSlotsAre(controllers: seq<Controller>, slot: PresentSlot)
    ensures slot in DirectSlots(controllers) <==>
      exists c :: c in controllers && c.phase.Direct? && slot == CardOf(c)
    decreases controllers
  {
    if controllers != [] {
      DirectSlotsAre(controllers[1..], slot);
      assert controllers == [controllers[0]] + controllers[1..];
    }
  }

  lemma {:induction false} AwaitingSlotsAre(controllers: seq<Controller>, slot: PresentSlot)
    ensures slot in AwaitingSlots(controllers) <==>
      exists c :: c in controllers && !c.frameworkExpected && !c.phase.Direct? && slot == CardOf(c)
    decreases controllers
  {
    if controllers != [] {
      AwaitingSlotsAre(controllers[1..], slot);
      assert controllers == [controllers[0]] + controllers[1..];
    }
  }

  /** A slot on screen is a listed device's or a controller's own. */
  lemma PadsAre(controllers: seq<Controller>, devices: seq<SdlDevice>, slot: PresentSlot)
    requires slot in Pads(controllers, devices)
    ensures (exists d :: d in devices && slot == SlotOf(d)) || (exists c :: c in controllers && slot == CardOf(c))
  {
    SdlSlotsAre(devices, Hidden(controllers, devices), slot);
    DirectSlotsAre(controllers, slot);
    AwaitingSlotsAre(controllers, slot);
  }

  lemma CardsDiffer(controllers: seq<Controller>, c: Controller, c': Controller)
    requires Keyed(controllers) && c in controllers && c' in controllers && SyntheticId(c) == SyntheticId(c')
    ensures CardOf(c) == CardOf(c')
  {
    ToStringIsInjective(Pack(c.vendorId, c.productId), Pack(c'.vendorId, c'.productId));
    PackIsInjective(c.vendorId, c.productId, c'.vendorId, c'.productId);
  }

  /** One slot id on screen stands for one pad identity. */
  lemma OneIdOnePad(controllers: seq<Controller>, devices: seq<SdlDevice>, s: PresentSlot, t: PresentSlot)
    requires Keyed(controllers) && Listed(devices)
    requires s in Pads(controllers, devices) && t in Pads(controllers, devices) && s.id == t.id
    ensures s == t
  {
    PadsAre(controllers, devices, s);
    PadsAre(controllers, devices, t);
    forall c | c in controllers ensures !IsSdlId(CardOf(c).id) { SyntheticIsNotSdl(c.vendorId, c.productId); }
    if c :| c in controllers && s == CardOf(c) {
      var c' :| c' in controllers && t == CardOf(c');
      CardsDiffer(controllers, c, c');
    }
  }

  // ----- who is hidden -----

  lemma {:induction false} ClaimedIsDirect(controllers: seq<Controller>, key: int)
    requires TwinDedup.Claims(Synthetics(controllers), key) > 0
    ensures exists c :: && c in controllers && c.phase.Direct? && c.vendorId != 0 && c.productId != 0
                        && TwinDedup.ModelKey(c.vendorId, c.productId) == key
    decreases controllers
  {
    var c := controllers[0];
    var rest := Synthetics(controllers[1..]);
    assert controllers == [c] + controllers[1..];
    if c.phase.Direct? {
      assert Synthetics(controllers)[1..] == rest;
      if c.vendorId == 0 || c.productId == 0 || TwinDedup.ModelKey(c.vendorId, c.productId) != key {
        ClaimedIsDirect(controllers[1..], key);
      }
    } else {
      assert Synthetics(controllers) == rest;
      ClaimedIsDirect(controllers[1..], key);
    }
  }

  /** A model is claimed once at most. */
  lemma {:induction false} OneClaimAModel(controllers: seq<Controller>, key: int)
    requires Keyed(controllers)
    ensures TwinDedup.Claims(Synthetics(controllers), key) <= 1
    decreases controllers
  {
    if controllers != [] {
      var c, rest := controllers[0], controllers[1..];
      OneClaimAModel(rest, key);
      if !c.phase.Direct? {
        assert Synthetics(controllers) == Synthetics(rest);
      } else {
        assert Synthetics(controllers)[1..] == Synthetics(rest);
        if TwinDedup.Claims(Synthetics(rest), key) > 0 {
          ClaimedIsDirect(rest, key);
          var c' :| c' in rest && c'.phase.Direct? && TwinDedup.ModelKey(c'.vendorId, c'.productId) == key;
          TwinDedup.ModelKeyIsInjective(c.vendorId, c.productId, c'.vendorId, c'.productId);
        }
      }
    }
  }

  lemma HiddenDevice(controllers: seq<Controller>, devices: seq<SdlDevice>, d: SdlDevice)
    requires Listed(devices) && d in devices && d.id in Hidden(controllers, devices)
    ensures AsRouted(d) in TwinDedup.HiddenOf(Synthetics(controllers), RoutedOf(devices),
                                              TwinDedup.KeyOf(AsRouted(d)))
  {
    var routed := RoutedOf(devices);
    var r :| r in routed && r.id == d.id
             && r in TwinDedup.HiddenOf(Synthetics(controllers), routed, TwinDedup.KeyOf(r));
    var i :| 0 <= i < |routed| && routed[i] == r;
    var k :| 0 <= k < |devices| && devices[k] == d;
    assert devices[i].id == devices[k].id;
  }

  /** Of the devices of one pad identity at most one is hidden, and then the pad's claimed slot is on screen. */
  lemma OneHiddenTwin(controllers: seq<Controller>, devices: seq<SdlDevice>, d: SdlDevice, e: SdlDevice)
    requires Keyed(controllers) && Listed(devices) && d in devices && e in devices
    requires d.id in Hidden(controllers, devices) && e.id in Hidden(controllers, devices)
    requires d.vendorId == e.vendorId && d.productId == e.productId
    ensures d == e
  {
    var key := TwinDedup.KeyOf(AsRouted(d));
    HiddenDevice(controllers, devices, d);
    HiddenDevice(controllers, devices, e);
    OneClaimAModel(controllers, key);
    TwinDedup.OneClaimHidesOne(Synthetics(controllers), RoutedOf(devices), key, AsRouted(d), AsRouted(e));
  }

  lemma HiddenTwinIsClaimed(controllers: seq<Controller>, devices: seq<SdlDevice>, d: SdlDevice)
    requires Keyed(controllers) && Listed(devices) && d in devices && d.id in Hidden(controllers, devices)
    ensures PresentSlot(ToString(Pack(d.vendorId, d.productId)), d.vendorId, d.productId) in Pads(controllers, devices)
    ensures ToString(Pack(d.vendorId, d.productId)) in PresentIds(Pads(controllers, devices))
    ensures d.vendorId != 0 && d.productId != 0
  {
    var key := TwinDedup.KeyOf(AsRouted(d));
    HiddenDevice(controllers, devices, d);
    TwinDedup.HiddenIsClaimed(Synthetics(controllers), RoutedOf(devices), key, AsRouted(d));
    ClaimedIsDirect(controllers, key);
    var c :| && c in controllers && c.phase.Direct? && c.vendorId != 0 && c.productId != 0
             && TwinDedup.ModelKey(c.vendorId, c.productId) == key;
    TwinDedup.ModelKeyIsInjective(c.vendorId, c.productId, d.vendorId, d.productId);
    DirectSlotsAre(controllers, CardOf(c));
    assert CardOf(c) in Pads(controllers, devices);
    ShownById(Pads(controllers, devices), CardOf(c));
  }

  // ----- every migration keeps its connection -----

  /** A departed binding that still names a pad is a hidden twin's, or a released claim's. */
  ghost predicate NamesPad(controllers: seq<Controller>, devices: seq<SdlDevice>, id: SlotId, pad: Identity) {
    || (exists d :: d in devices && d.id == id && d.id in Hidden(controllers, devices)
                    && pad == (d.vendorId, d.productId))
    || id == ToString(Pack(pad.0, pad.1))
  }

  lemma ShownById(pads: seq<PresentSlot>, slot: PresentSlot)
    requires slot in pads
    ensures slot.id in PresentIds(pads)
  {
    var i :| 0 <= i < |pads| && pads[i] == slot;
    assert pads[i].id in PresentIds(pads);
  }

  lemma UnhiddenIsShown(controllers: seq<Controller>, devices: seq<SdlDevice>, d: SdlDevice)
    requires d in devices && d.id !in Hidden(controllers, devices)
    ensures d.id in PresentIds(Pads(controllers, devices))
  {
    SdlSlotsAre(devices, Hidden(controllers, devices), SlotOf(d));
    assert SlotOf(d) in Pads(controllers, devices);
    ShownById(Pads(controllers, devices), SlotOf(d));
  }

  /** A bound instance that a row's list shows was in the list the screen was made from. */
  ghost predicate StillListed(devices: seq<SdlDevice>, scene: Scene, b: Bindings) {
    forall id, slot :: id in b && slot in scene.Listed(id) && slot.id == id ==> Lists(devices, slot)
  }

  ghost predicate Lists(devices: seq<SdlDevice>, slot: PresentSlot) {
    exists d :: d in devices && SlotOf(d) == slot
  }

  lemma {:induction false} FirstListed(slots: seq<PresentSlot>, id: SlotId)
    ensures IdentityIn(slots, id).Some? ==>
      exists slot :: slot in slots && slot.id == id
                     && IdentityIn(slots, id).value == PadIdentityOf(Some((slot.vendorId, slot.productId)))
  {
    if slots != [] && slots[0].id != id {
      FirstListed(slots[1..], id);
    }
  }

  lemma DepartedNamesItsPad(controllers: seq<Controller>, devices: seq<SdlDevice>, scene: Scene, b: Bindings,
                            id: SlotId)
    requires scene.pads == Pads(controllers, devices) && StillListed(devices, scene, b)
    requires Named(b) && id in b && id !in PresentIds(scene.pads)
    ensures var pad := PadIdentityOf(BoundPadIdentity(scene, id));
            pad.Some? ==> NamesPad(controllers, devices, id, pad.value)
  {
    UnlistedHasNoIdentity(scene.pads, id);
    FirstListed(scene.Listed(id), id);
    if slot :| slot in scene.Listed(id) && slot.id == id
               && IdentityIn(scene.Listed(id), id) == Some(PadIdentityOf(Some((slot.vendorId, slot.productId)))) {
      assert Lists(devices, slot);
      var d :| d in devices && SlotOf(d) == slot;
      if d.id !in Hidden(controllers, devices) { UnhiddenIsShown(controllers, devices, d); }
    } else if IsSdlId(id) {
      SdlIsNotParsed(id);
    } else {
      var v, p :| Is16Bit(v) && Is16Bit(p) && id == ToString(Pack(v, p));
      SyntheticIdRoundTrip(v, p);
    }
  }

  /** Two departed bindings never name one pad. */
  lemma PadsAreNamedOnce(controllers: seq<Controller>, devices: seq<SdlDevice>, id: SlotId, other: SlotId,
                         pad: Identity)
    requires Keyed(controllers) && Listed(devices)
    requires id !in PresentIds(Pads(controllers, devices)) && other !in PresentIds(Pads(controllers, devices))
    requires NamesPad(controllers, devices, id, pad) && NamesPad(controllers, devices, other, pad)
    ensures id == other
  {
    if d :| d in devices && d.id == id && d.id in Hidden(controllers, devices) && pad == (d.vendorId, d.productId) {
      HiddenTwinIsClaimed(controllers, devices, d);
      var e :| e in devices && e.id == other && e.id in Hidden(controllers, devices)
               && pad == (e.vendorId, e.productId);
      OneHiddenTwin(controllers, devices, d, e);
    } else if e :| e in devices && e.id == other && e.id in Hidden(controllers, devices)
                   && pad == (e.vendorId, e.productId) {
      HiddenTwinIsClaimed(controllers, devices, e);
    }
  }

  /** In the scene of any pass no two departed bindings move onto one slot, whatever its rows' lists are. */
  lemma PassesDoNotCollide(controllers: seq<Controller>, devices: seq<SdlDevice>, scene: Scene, b: Bindings)
    requires Keyed(controllers) && Listed(devices) && Named(b)
    requires scene.pads == Pads(controllers, devices) && StillListed(devices, scene, b)
    ensures !Collide(scene, b)
  {
    forall id, other, i, j | ShownAt(scene, b, id, i) && ShownAt(scene, b, other, j)
      && scene.pads[i].id == scene.pads[j].id
      ensures id == other
    {
      OneIdOnePad(controllers, devices, scene.pads[i], scene.pads[j]);
      DepartedNamesItsPad(controllers, devices, scene, b, id);
      DepartedNamesItsPad(controllers, devices, scene, b, other);
      PadsAreNamedOnce(controllers, devices, id, other, (scene.pads[i].vendorId, scene.pads[i].productId));
    }
  }

  lemma ShownIsKnown(controllers: seq<Controller>, devices: seq<SdlDevice>, id: SlotId)
    requires Keyed(controllers) && Listed(devices) && id in PresentIds(Pads(controllers, devices))
    ensures (exists d :: d in devices && d.id == id) || IsSyntheticId(id)
  {
    var pads := Pads(controllers, devices);
    var i :| 0 <= i < |pads| && pads[i].id == id;
    PadsAre(controllers, devices, pads[i]);
  }
}

/**
 The screen in the pads' own terms, and where the binding of a claimed or a released pad ends up.
 */
module Screens {
  import opened Basics
  import opened PackedKeys
  import opened BindingPresence
  import opened UsbControllers
  import opened SlotAssembly
  import opened Passes
  import opened BindingHistories

  // ----- what is on screen -----

  /** A listed pad that is not hidden, under its own id; a claimed pad, or one that will get no other card, under the
      decimal of its packed ids; each with its own vendor and product; and nothing else. */
  lemma ScreenShows(controllers: seq<Controller>, devices: seq<SdlDevice>, slot: PresentSlot)
    ensures slot in Pads(controllers, devices) <==>
            || (exists d :: && d in devices && d.id !in Hidden(controllers, devices)
                            && slot.id == d.id && slot.vendorId == d.vendorId && slot.productId == d.productId)
            || (exists c :: && c in controllers && (c.phase == Direct || !c.frameworkExpected)
                            && slot.id == ToString(Pack(c.vendorId, c.productId))
                            && slot.vendorId == c.vendorId && slot.productId == c.productId)
  {
    SdlSlotsAre(devices, Hidden(controllers, devices), slot);
    DirectSlotsAre(controllers, slot);
    AwaitingSlotsAre(controllers, slot);
  }

  // ----- what is hidden -----

  lemma {:induction false} DirectIsClaimed(controllers: seq<Controller>, c: Controller)
    requires c in controllers && c.phase.Direct? && c.vendorId != 0 && c.productId != 0
    ensures TwinDedup.Claims(Synthetics(controllers), TwinDedup.ModelKey(c.vendorId, c.productId)) > 0
    decreases controllers
  {
    assert controllers == [controllers[0]] + controllers[1..];
    if controllers[0].phase.Direct? {
      assert Synthetics(controllers)[1..] == Synthetics(controllers[1..]);
    } else {
      assert Synthetics(controllers) == Synthetics(controllers[1..]);
    }
    if controllers[0] != c { DirectIsClaimed(controllers[1..], c); }
  }

  /** A claim hides one of its pad's twins, if any is listed; `OneHiddenTwin` says it hides no other. */
  lemma ClaimHidesATwin(controllers: seq<Controller>, devices: seq<SdlDevice>, c: Controller, e: SdlDevice)
    returns (d: SdlDevice)
    requires c in controllers && c.phase.Direct? && c.vendorId != 0 && c.productId != 0
    requires Listed(devices) && Is16Bit(c.productId)
    requires e in devices && e.vendorId == c.vendorId && e.productId == c.productId
    ensures d in devices && d.id in Hidden(controllers, devices)
    ensures d.vendorId == c.vendorId && d.productId == c.productId
  {
    var key, routed := TwinDedup.ModelKey(c.vendorId, c.productId), RoutedOf(devices);
    DirectIsClaimed(controllers, c);
    var i :| 0 <= i < |devices| && devices[i] == e;
    assert routed[i] == AsRouted(e);
    TwinDedup.SortedHasTheModel(routed, key, AsRouted(e));
    var r := TwinDedup.HiddenOf(Synthetics(controllers), routed, key)[0];
    TwinDedup.SortedHasTheModel(routed, key, r);
    var j :| 0 <= j < |routed| && routed[j] == r;
    d := devices[j];
    TwinDedup.ModelKeyIsInjective(c.vendorId, c.productId, d.vendorId, d.productId);
  }

  /** A Bluetooth pad is hidden only if every other pad of its model that streams is a Bluetooth one too. */
  lemma UsbTwinsHideFirst(controllers: seq<Controller>, devices: seq<SdlDevice>, d: SdlDevice, e: SdlDevice)
    requires Listed(devices) && d in devices && e in devices
    requires d.id in Hidden(controllers, devices) && e.id !in Hidden(controllers, devices)
    requires d.vendorId == e.vendorId && d.productId == e.productId
    ensures d.bluetooth ==> e.bluetooth
  {
    var routed := RoutedOf(devices);
    HiddenDevice(controllers, devices, d);
    var i :| 0 <= i < |devices| && devices[i] == d;
    var j :| 0 <= j < |devices| && devices[j] == e;
    assert routed[i] == AsRouted(d) && routed[j] == AsRouted(e);
    TwinDedup.UsbAndDisconnectingHideFirst(Synthetics(controllers), routed, AsRouted(d), AsRouted(e));
  }

  // ----- which slot a pad's binding moves to -----

  /** Another pad of the model is listed, streams, and is not bound. */
  ghost predicate Rival(controllers: seq<Controller>, devices: seq<SdlDevice>, bound: set<SlotId>, pad: Identity,
                        e: SdlDevice) {
    && e in devices && e.id !in Hidden(controllers, devices) && e.id !in bound
    && e.vendorId == pad.0 && e.productId == pad.1
  }

  ghost predicate HasRival(controllers: seq<Controller>, devices: seq<SdlDevice>, bound: set<SlotId>, pad: Identity) {
    exists e :: Rival(controllers, devices, bound, pad, e)
  }

  lemma TwinFits(slots: seq<PresentSlot>, bound: set<SlotId>, pad: Identity)
    ensures FreeTwin(slots, bound, pad).Some? <==> exists slot :: slot in slots && Fits(slot, bound, pad)
    ensures FreeTwin(slots, bound, pad).Some? ==>
      exists slot :: slot in slots && Fits(slot, bound, pad) && slot.id == FreeTwin(slots, bound, pad).value
  {
    FreeTwinIsTheFirstFit(slots, bound, pad);
    if FreeTwin(slots, bound, pad).Some? {
      var i :| FirstFit(slots, bound, pad, i) && slots[i].id == FreeTwin(slots, bound, pad).value;
      assert slots[i] in slots;
    }
  }

  /** The listed pads come first: the twin is a rival if there is one. */
  lemma ListedTwin(controllers: seq<Controller>, devices: seq<SdlDevice>, bound: set<SlotId>, pad: Identity)
    ensures var twin := FreeTwin(SdlSlots(devices, Hidden(controllers, devices)), bound, pad);
            && (twin.Some? <==> HasRival(controllers, devices, bound, pad))
            && (twin.Some? ==> exists e :: Rival(controllers, devices, bound, pad, e) && e.id == twin.value)
  {
    var hidden := Hidden(controllers, devices);
    var slots := SdlSlots(devices, hidden);
    TwinFits(slots, bound, pad);
    forall slot | slot in slots && Fits(slot, bound, pad)
      ensures exists e :: Rival(controllers, devices, bound, pad, e) && e.id == slot.id
    {
      SdlSlotsAre(devices, hidden, slot);
      var d :| d in devices && d.id !in hidden && slot == SlotOf(d);
      assert Rival(controllers, devices, bound, pad, d);
    }
    forall e | Rival(controllers, devices, bound, pad, e) ensures SlotOf(e) in slots && Fits(SlotOf(e), bound, pad) {
      SdlSlotsAre(devices, hidden, SlotOf(e));
    }
  }

  /** Otherwise it is the pad's own card. */
  lemma CardTwin(controllers: seq<Controller>, bound: set<SlotId>, pad: Identity)
    ensures var twin := FreeTwin(DirectSlots(controllers) + AwaitingSlots(controllers), bound, pad);
            var id := ToString(Pack(pad.0, pad.1));
            && (twin.Some? ==> twin.value == id)
            && (twin.Some? <==>
                  id !in bound && exists c :: && c in controllers && (c.phase.Direct? || !c.frameworkExpected)
                                              && c.vendorId == pad.0 && c.productId == pad.1)
  {
    var slots := DirectSlots(controllers) + AwaitingSlots(controllers);
    TwinFits(slots, bound, pad);
    forall slot ensures slot in slots <==>
      exists c :: c in controllers && (c.phase.Direct? || !c.frameworkExpected) && slot == CardOf(c)
    {
      DirectSlotsAre(controllers, slot);
      AwaitingSlotsAre(controllers, slot);
    }
    if c :| && c in controllers && (c.phase.Direct? || !c.frameworkExpected)
            && c.vendorId == pad.0 && c.productId == pad.1 {
      assert CardOf(c) in slots;
      assert Fits(CardOf(c), bound, pad) <==> ToString(Pack(pad.0, pad.1)) !in bound;
    }
  }

  lemma PadTwin(controllers: seq<Controller>, devices: seq<SdlDevice>, bound: set<SlotId>, pad: Identity)
    ensures FreeTwin(Pads(controllers, devices), bound, pad) ==
            var listed := FreeTwin(SdlSlots(devices, Hidden(controllers, devices)), bound, pad);
            if listed.Some? then listed
            else FreeTwin(DirectSlots(controllers) + AwaitingSlots(controllers), bound, pad)
  {
    var sdl := SdlSlots(devices, Hidden(controllers, devices));
    assert Pads(controllers, devices) == sdl + (DirectSlots(controllers) + AwaitingSlots(controllers));
    FreeTwinAppend(sdl, DirectSlots(controllers) + AwaitingSlots(controllers), bound, pad);
  }

  // ----- a claim -----

  /** SDL still lists the pad when its binding's row is made, as it did when the screen was. */
  ghost predicate ShowsFirst(list: seq<PresentSlot>, slot: PresentSlot, i: nat) {
    i < |list| && list[i] == slot && forall j :: 0 <= j < i ==> list[j].id != slot.id
  }

  lemma HiddenIsNotShown(controllers: seq<Controller>, devices: seq<SdlDevice>, d: SdlDevice)
    requires Listed(devices) && d in devices && d.id in Hidden(controllers, devices)
    ensures d.id !in PresentIds(Pads(controllers, devices))
  {
    var pads := Pads(controllers, devices);
    forall i | 0 <= i < |pads| ensures pads[i].id != d.id {
      ScreenShows(controllers, devices, pads[i]);
      forall c | c in controllers ensures ToString(Pack(c.vendorId, c.productId)) != d.id {
        SyntheticIsNotSdl(c.vendorId, c.productId);
      }
    }
  }

  lemma HiddenPadIsClaimed(controllers: seq<Controller>, devices: seq<SdlDevice>, d: SdlDevice)
    requires Keyed(controllers) && Listed(devices) && d in devices && d.id in Hidden(controllers, devices)
    ensures exists c :: && c in controllers && (c.phase.Direct? || !c.frameworkExpected)
                        && c.vendorId == d.vendorId && c.productId == d.productId
  {
    HiddenTwinIsClaimed(controllers, devices, d);
    var slot := PresentSlot(ToString(Pack(d.vendorId, d.productId)), d.vendorId, d.productId);
    ScreenShows(controllers, devices, slot);
    SyntheticIsNotSdl(d.vendorId, d.productId);
  }

  /** The pad's own card is its twin exactly when it is free and there is no rival. */
  lemma TwinOfACardedPad(controllers: seq<Controller>, devices: seq<SdlDevice>, bound: set<SlotId>, pad: Identity)
    requires Listed(devices)
    requires exists c :: && c in controllers && (c.phase.Direct? || !c.frameworkExpected)
                         && c.vendorId == pad.0 && c.productId == pad.1
    ensures var twin, card := FreeTwin(Pads(controllers, devices), bound, pad), ToString(Pack(pad.0, pad.1));
            var rivals := HasRival(controllers, devices, bound, pad);
            && (twin == Some(card) <==> card !in bound && !rivals)
            && (rivals ==> exists e :: Rival(controllers, devices, bound, pad, e) && twin == Some(e.id))
  {
    PadTwin(controllers, devices, bound, pad);
    ListedTwin(controllers, devices, bound, pad);
    CardTwin(controllers, bound, pad);
    SyntheticIsNotSdl(pad.0, pad.1);
    assert forall e :: Rival(controllers, devices, bound, pad, e) ==> IsSdlId(e.id);
  }

  /** The binding is on the claimed slot exactly when that was free and no rival is there; else on a rival. */
  ghost predicate TakenAlong(controllers: seq<Controller>, devices: seq<SdlDevice>, b: Bindings, d: SdlDevice,
                             after: Bindings)
    requires d.id in b
  {
    var claimed, pad := ToString(Pack(d.vendorId, d.productId)), (d.vendorId, d.productId);
    var rivals := HasRival(controllers, devices, b.Keys, pad);
    && d.id !in after
    && (claimed in after && after[claimed] == b[d.id] <==> claimed !in b && !rivals)
    && (rivals ==> exists e :: && Rival(controllers, devices, b.Keys, pad, e)
                               && e.id in after && after[e.id] == b[d.id])
  }

  lemma HiddenPadsTwin(controllers: seq<Controller>, devices: seq<SdlDevice>, scene: Scene, b: Bindings, d: SdlDevice,
                       i: nat)
    requires Keyed(controllers) && Listed(devices) && scene.pads == Pads(controllers, devices)
    requires d in devices && d.id in b && d.id in Hidden(controllers, devices)
    requires ShowsFirst(scene.Listed(d.id), SlotOf(d), i)
    ensures d.id !in PresentIds(scene.pads)
    ensures TwinOf(scene, b, d.id) == FreeTwin(scene.pads, b.Keys, (d.vendorId, d.productId))
  {
    HiddenIsNotShown(controllers, devices, d);
    HiddenTwinIsClaimed(controllers, devices, d);
    HiddenTwinLooksForItsPad(scene, b, d.id, i);
  }

  lemma MovedAway(scene: Scene, b: Bindings, id: SlotId, card: SlotId)
    requires OneSlotEach(b) && MovesKeepTheirConnection(scene, b)
    requires id in b && id !in PresentIds(scene.pads) && card != id
    ensures var after, twin := Settled(scene, b), TwinOf(scene, b, id);
            && id !in after
            && (twin.Some? ==> twin.value in after && after[twin.value] == b[id])
            && (card in after && after[card] == b[id] <==> twin == Some(card))
  {
    SettledClosed(scene, b, id);
    SettledClosed(scene, b, card);
    if TwinOf(scene, b, id).Some? {
      assert Moving(scene, b, id);
    } else {
      NotMovedOnto(scene, b, id, card);
    }
  }

  /** A binding that moves nowhere is nowhere afterwards. */
  lemma NotMovedOnto(scene: Scene, b: Bindings, id: SlotId, slot: SlotId)
    requires OneSlotEach(b) && id in b && id !in PresentIds(scene.pads) && TwinOf(scene, b, id).None?
    ensures slot in Settled(scene, b) ==> Settled(scene, b)[slot] != b[id]
  {
    var actions := ActionsFor(scene, b);
    SettledClosed(scene, b, slot);
    LastToIsAMigration(actions, slot);
    if LastTo(actions, slot).Some? {
      var j :| 0 <= j < |actions| && actions[j] == Migrate(actions[j].slotId, slot, LastTo(actions, slot).value);
      MigratedIsMoving(scene, b, j);
    }
  }

  lemma ListedOnce(devices: seq<SdlDevice>, d: SdlDevice) returns (i: nat)
    requires Listed(devices) && d in devices
    ensures ShowsFirst(Slots(devices), SlotOf(d), i)
  {
    i :| 0 <= i < |devices| && devices[i] == d;
  }

  lemma ClaimedPadMoves(controllers: seq<Controller>, devices: seq<SdlDevice>, list: seq<SdlDevice>, scene: Scene,
                        b: Bindings, d: SdlDevice)
    requires Keyed(controllers) && Listed(devices) && scene.pads == Pads(controllers, devices)
    requires OneSlotEach(b) && MovesKeepTheirConnection(scene, b)
    requires d in devices && d.id in b && d.id in Hidden(controllers, devices)
    requires scene.Listed(d.id) == Slots(list) && Listed(list) && d in list
    ensures TakenAlong(controllers, devices, b, d, Settled(scene, b))
  {
    var i := ListedOnce(list, d);
    HiddenPadsTwin(controllers, devices, scene, b, d, i);
    HiddenPadIsClaimed(controllers, devices, d);
    TwinOfACardedPad(controllers, devices, b.Keys, (d.vendorId, d.productId));
    SyntheticIsNotSdl(d.vendorId, d.productId);
    MovedAway(scene, b, d.id, ToString(Pack(d.vendorId, d.productId)));
  }

  /** SDL lists the pad, hidden behind its claim, when the screen is made and still when its binding's row is. */
  ghost predicate BehindItsClaim(world: World, b: Bindings, o: Outcome, d: SdlDevice) {
    && d.id in b && d.id in o.times && Has(world, o.began + 1, d) && Has(world, o.times[d.id], d)
    && d.id in Hidden(world(o.began).controllers, world(o.began + 1).devices)
  }

  lemma SceneIsMadeOf(world: World, o: Outcome, id: SlotId)
    requires id in o.times
    ensures SceneOf(world, o).pads == Pads(world(o.began).controllers, world(o.began + 1).devices)
    ensures SceneOf(world, o).Listed(id) == Slots(world(o.times[id]).devices)
  {
  }

  lemma ClaimedPadMovesInTheWorld(controllers: seq<Controller>, devices: seq<SdlDevice>, list: seq<SdlDevice>,
                                  world: World, b: Bindings, o: Outcome, d: SdlDevice)
    requires controllers == world(o.began).controllers && devices == world(o.began + 1).devices
    requires d.id in o.times && list == world(o.times[d.id]).devices
    requires Keyed(controllers) && Listed(devices) && Listed(list) && d in devices && d in list
    requires OneSlotEach(b) && MovesKeepTheirConnection(SceneOf(world, o), b)
    requires d.id in b && d.id in Hidden(controllers, devices)
    ensures TakenAlong(controllers, devices, b, d, Settled(SceneOf(world, o), b))
  {
    SceneIsMadeOf(world, o, d.id);
    ClaimedPadMoves(controllers, devices, list, SceneOf(world, o), b, d);
  }

  /** A claim takes the binding of the pad it hides along to the claimed slot exactly when that slot is not bound and no
      other pad of the model streams unbound; when one does, the binding goes to such a pad instead. */
  lemma ClaimTakesItsBindingAlong(world: World, b: Bindings, o: Outcome, from: nat, d: SdlDevice)
    requires Plausible(world) && Lasting(world) && OneSlotEach(b)
    requires Looked(b, o, from) && AllKnown(world, o.began + 1, b) && BehindItsClaim(world, b, o, d)
    ensures TakenAlong(world(o.began).controllers, world(o.began + 1).devices, b, d, Settled(SceneOf(world, o), b))
  {
    PassKeepsItsMoves(world, b, o, from);
    assert PlausibleAt(world, o.began) && PlausibleAt(world, o.began + 1) && PlausibleAt(world, o.times[d.id]);
    ClaimedPadMovesInTheWorld(world(o.began).controllers, world(o.began + 1).devices, world(o.times[d.id]).devices,
                              world, b, o, d);
  }

  // ----- a release -----

  /** The released claim's binding is somewhere exactly when the vendor id is below 0x8000 and a pad of the model
      streams unbound, and then it is such a pad's. */
  ghost predicate GivenBack(controllers: seq<Controller>, devices: seq<SdlDevice>, b: Bindings, pad: Identity,
                            after: Bindings)
    requires ToString(Pack(pad.0, pad.1)) in b
  {
    var id := ToString(Pack(pad.0, pad.1));
    && id !in after
    && ((exists slot :: slot in after && after[slot] == b[id])
        <==> pad.0 < 0x8000 && HasRival(controllers, devices, b.Keys, pad))
    && (pad.0 < 0x8000 && HasRival(controllers, devices, b.Keys, pad) ==>
          exists e :: Rival(controllers, devices, b.Keys, pad, e) && e.id in after && after[e.id] == b[id])
  }

  lemma UncardedPadsTwin(controllers: seq<Controller>, devices: seq<SdlDevice>, bound: set<SlotId>, pad: Identity)
    requires ToString(Pack(pad.0, pad.1)) !in PresentIds(Pads(controllers, devices))
    ensures var twin := FreeTwin(Pads(controllers, devices), bound, pad);
            && (twin.Some? <==> HasRival(controllers, devices, bound, pad))
            && (twin.Some? ==> exists e :: Rival(controllers, devices, bound, pad, e) && e.id == twin.value)
  {
    PadTwin(controllers, devices, bound, pad);
    ListedTwin(controllers, devices, bound, pad);
    CardTwin(controllers, bound, pad);
    if c :| && c in controllers && (c.phase.Direct? || !c.frameworkExpected)
            && c.vendorId == pad.0 && c.productId == pad.1 {
      ScreenShows(controllers, devices, CardOf(c));
      ShownById(Pads(controllers, devices), CardOf(c));
    }
  }

  lemma MovedSomewhere(scene: Scene, b: Bindings, id: SlotId)
    requires OneSlotEach(b) && MovesKeepTheirConnection(scene, b) && id in b && id !in PresentIds(scene.pads)
    ensures id !in Settled(scene, b)
    ensures (exists slot :: slot in Settled(scene, b) && Settled(scene, b)[slot] == b[id]) <==>
            TwinOf(scene, b, id).Some?
    ensures TwinOf(scene, b, id).Some? ==>
      TwinOf(scene, b, id).value in Settled(scene, b) && Settled(scene, b)[TwinOf(scene, b, id).value] == b[id]
  {
    SettledClosed(scene, b, id);
    if TwinOf(scene, b, id).Some? {
      assert Moving(scene, b, id);
    } else {
      forall slot | slot in Settled(scene, b) ensures Settled(scene, b)[slot] != b[id] {
        NotMovedOnto(scene, b, id, slot);
      }
    }
  }

  lemma ReleasedPadMoves(controllers: seq<Controller>, devices: seq<SdlDevice>, scene: Scene, b: Bindings,
                         pad: Identity)
    requires scene.pads == Pads(controllers, devices) && OneSlotEach(b) && MovesKeepTheirConnection(scene, b)
    requires Is16Bit(pad.0) && Is16Bit(pad.1) && pad != (0, 0)
    requires var id := ToString(Pack(pad.0, pad.1));
             id in b && id !in PresentIds(scene.pads) && id !in PresentIds(scene.Listed(id))
    ensures GivenBack(controllers, devices, b, pad, Settled(scene, b))
  {
    ReleasedClaimLooksForItsPad(scene, b, pad.0, pad.1);
    UncardedPadsTwin(controllers, devices, b.Keys, pad);
    MovedSomewhere(scene, b, ToString(Pack(pad.0, pad.1)));
  }

  lemma SyntheticIsNotInTheList(world: World, k: nat, id: SlotId)
    requires PlausibleAt(world, k) && !IsSdlId(id)
    ensures id !in PresentIds(Slots(world(k).devices))
  {
  }

  /** A released claim's binding goes back to a pad of the model that streams unbound, exactly when there is one and the
      vendor id is below 0x8000; else it is gone. */
  lemma ReleaseGivesItsBindingBack(world: World, b: Bindings, o: Outcome, from: nat, pad: Identity)
    requires Plausible(world) && Lasting(world) && OneSlotEach(b)
    requires Looked(b, o, from) && AllKnown(world, o.began + 1, b)
    requires Is16Bit(pad.0) && Is16Bit(pad.1) && pad != (0, 0)
    requires ToString(Pack(pad.0, pad.1)) in b
    requires ToString(Pack(pad.0, pad.1)) !in PresentIds(SceneOf(world, o).pads)
    ensures GivenBack(world(o.began).controllers, world(o.began + 1).devices, b, pad, Settled(SceneOf(world, o), b))
  {
    var id := ToString(Pack(pad.0, pad.1));
    PassKeepsItsMoves(world, b, o, from);
    SceneIsMadeOf(world, o, id);
    SyntheticIsNotSdl(pad.0, pad.1);
    assert PlausibleAt(world, o.times[id]);
    SyntheticIsNotInTheList(world, o.times[id], id);
    ReleasedPadMoves(world(o.began).controllers, world(o.began + 1).devices, SceneOf(world, o), b, pad);
  }

  // ----- two pads of one model -----

  const DualSense: Controller := Controller(0x054C, 0x0CE6, Direct, true)
  const First: SdlDevice := SdlDevice("sdl:0", 0x054C, 0x0CE6, false)
  const Second: SdlDevice := SdlDevice("sdl:1", 0x054C, 0x0CE6, false)

  lemma OneClaim()
    ensures Synthetics([DualSense]) == [TwinDedup.Twin(0x054C, 0x0CE6)]
    ensures TwinDedup.Claims(Synthetics([DualSense]), TwinDedup.ModelKey(0x054C, 0x0CE6)) == 1
  {
    assert [DualSense][1..] == [] && Synthetics([]) == [];
    var twins := [TwinDedup.Twin(0x054C, 0x0CE6)];
    assert twins[1..] == [] && TwinDedup.Claims(twins[1..], TwinDedup.ModelKey(0x054C, 0x0CE6)) == 0;
  }

  lemma FirstIsHidden()
    ensures First.id in Hidden([DualSense], [First, Second]) && Second.id !in Hidden([DualSense], [First, Second])
  {
    var routed := RoutedOf([First, Second]);
    var r0, r1, key := AsRouted(First), AsRouted(Second), TwinDedup.ModelKey(0x054C, 0x0CE6);
    OneClaim();
    assert routed == [r0, r1] && routed[1..] == [r1] && [r1][1..] == [];
    assert TwinDedup.OfModel([r1], key) == [r1];
    assert TwinDedup.OfModel(routed, key) == [r0, r1];
    SortedPair(r0, r1);
    assert TwinDedup.HiddenOf(Synthetics([DualSense]), routed, key) == [r0];
  }

  lemma SortedPair(r0: TwinDedup.Routed, r1: TwinDedup.Routed)
    requires TwinDedup.Rank(r0) == TwinDedup.Rank(r1)
    ensures TwinDedup.StablySorted([r0, r1]) == [r0, r1]
  {
    assert [r0, r1][1..] == [r1] && [r1][1..] == [];
    assert forall rank :: TwinDedup.OfRank([r1], rank) == if TwinDedup.Rank(r1) == rank then [r1] else [];
    assert forall rank :: TwinDedup.OfRank([r0, r1], rank) == if TwinDedup.Rank(r0) == rank then [r0, r1] else [];
  }

  /** Two pads of one model, the first one bound: its claim hands the binding to the second pad, and not to the claimed
      pad's slot. */
  lemma ClaimCanHandItsBindingToAnotherPad(conn: ConnId)
    ensures var pair, b := [First, Second], map["sdl:0" := conn];
            var after := Settled(Scene(Pads([DualSense], pair), map["sdl:0" := Slots(pair)]), b);
            var claimed := ToString(Pack(0x054C, 0x0CE6));
            && "sdl:1" in after && after["sdl:1"] == conn
            && !(claimed in after && after[claimed] == conn)
  {
    var pair, b := [First, Second], map["sdl:0" := conn];
    var scene := Scene(Pads([DualSense], pair), map["sdl:0" := Slots(pair)]);
    FirstIsHidden();
    MovesKeepTheirConnectionUnlessTheyCollide(scene, b);
    assert Second.id == "sdl:1" && First.id == "sdl:0" && First in pair && Second in pair;
    ClaimedPadMoves([DualSense], pair, pair, scene, b, First);
    assert Rival([DualSense], pair, b.Keys, (0x054C, 0x0CE6), Second);
    assert forall e :: Rival([DualSense], pair, b.Keys, (0x054C, 0x0CE6), e) ==> e == Second;
  }
}

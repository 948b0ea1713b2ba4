/**
 Bindings over the life of the program: rebuilds, binds and unbinds one after the other, while pads come, go, are
 claimed and released between any two looks. Every pass moves each binding with its pad.
 */
module BindingHistories {
  import opened Basics
  import opened PackedKeys
  import opened BindingPresence
  import opened SlotAssembly
  import opened Passes

  // ----- what the enumerations promise -----

  predicate PlausibleAt(world: World, n: nat) {
    Keyed(world(n).controllers) && Listed(world(n).devices)
  }

  ghost predicate Plausible(world: World) {
    forall n: nat :: PlausibleAt(world, n)
  }

  predicate Has(world: World, n: nat, d: SdlDevice) {
    d in world(n).devices
  }

  ghost predicate Lasts(world: World, i: nat, k: nat, d: SdlDevice, e: SdlDevice) {
    i <= k && Has(world, i, d) && Has(world, k, e) && d.id == e.id ==>
    forall j: nat :: i <= j <= k ==> Has(world, j, e)
  }

  /** An instance SDL lists at two moments is listed, the same, at every moment between: instance ids are not used
      again. */
  ghost predicate Lasting(world: World) {
    forall i: nat, k: nat, d, e :: Lasts(world, i, k, d, e)
  }

  ghost predicate ListedAt(world: World, k: nat, id: SlotId) {
    exists d :: Has(world, k, d) && d.id == id
  }

  /** The id has been a slot's by then. */
  ghost predicate Known(world: World, t: nat, id: SlotId) {
    IsSyntheticId(id) || exists k: nat :: k <= t && ListedAt(world, k, id)
  }

  ghost predicate AllKnown(world: World, t: nat, b: Bindings) {
    forall id :: id in b ==> Known(world, t, id)
  }

  // ----- one pass -----

  lemma ListedIsSdl(world: World, k: nat, d: SdlDevice)
    requires Plausible(world) && Has(world, k, d)
    ensures IsSdlId(d.id)
  {
    assert PlausibleAt(world, k);
  }

  lemma KnownIsNamed(world: World, t: nat, b: Bindings)
    requires Plausible(world) && AllKnown(world, t, b)
    ensures Named(b)
  {
    forall id | id in b ensures IsSdlId(id) || IsSyntheticId(id) {
      assert Known(world, t, id);
      if !IsSyntheticId(id) {
        var k: nat :| k <= t && ListedAt(world, k, id);
        var d :| Has(world, k, d) && d.id == id;
        ListedIsSdl(world, k, d);
      }
    }
  }

  lemma SyntheticIsNotListed(world: World, k: nat, d: SdlDevice)
    requires Plausible(world) && Has(world, k, d)
    ensures !IsSyntheticId(d.id)
  {
    ListedIsSdl(world, k, d);
    if IsSyntheticId(d.id) {
      var v, p :| Is16Bit(v) && Is16Bit(p) && d.id == ToString(Pack(v, p));
      SyntheticIsNotSdl(v, p);
    }
  }

  /** A known instance that is listed later was listed ever since. */
  lemma ListedSince(world: World, t: nat, later: nat, e: SdlDevice)
    requires Plausible(world) && Lasting(world) && t <= later && Has(world, later, e) && Known(world, t, e.id)
    ensures Has(world, t, e)
  {
    SyntheticIsNotListed(world, later, e);
    var k: nat :| k <= t && ListedAt(world, k, e.id);
    var d :| Has(world, k, d) && d.id == e.id;
    assert Lasts(world, k, later, d, e);
  }

  /** A bound instance in a row's list was in the screen's list too. */
  lemma RowsAgreeWithTheScreen(world: World, b: Bindings, o: Outcome, from: nat)
    requires Plausible(world) && Lasting(world) && Looked(b, o, from) && AllKnown(world, o.began + 1, b)
    ensures StillListed(world(o.began + 1).devices, SceneOf(world, o), b)
  {
    var scene, screen := SceneOf(world, o), world(o.began + 1).devices;
    forall id, slot | id in b && slot in scene.Listed(id) && slot.id == id ensures Lists(screen, slot) {
      var devices := world(o.times[id]).devices;
      var i :| 0 <= i < |scene.Listed(id)| && scene.Listed(id)[i] == slot;
      assert Has(world, o.times[id], devices[i]);
      ListedSince(world, o.began + 1, o.times[id], devices[i]);
    }
  }

  lemma PassKeepsItsMoves(world: World, b: Bindings, o: Outcome, from: nat)
    requires Plausible(world) && Lasting(world) && OneSlotEach(b)
    requires Looked(b, o, from) && AllKnown(world, o.began + 1, b)
    ensures MovesKeepTheirConnection(SceneOf(world, o), b)
    ensures AllKnown(world, o.began + 1, Settled(SceneOf(world, o), b))
  {
    var scene := SceneOf(world, o);
    var controllers, devices := world(o.began).controllers, world(o.began + 1).devices;
    assert PlausibleAt(world, o.began) && PlausibleAt(world, o.began + 1);
    KnownIsNamed(world, o.began + 1, b);
    RowsAgreeWithTheScreen(world, b, o, from);
    PassesDoNotCollide(controllers, devices, scene, b);
    MovesKeepTheirConnectionUnlessTheyCollide(scene, b);
    forall id | id in Settled(scene, b) ensures Known(world, o.began + 1, id) {
      SettledClosed(scene, b, id);
      ShownIsKnown(controllers, devices, id);
      if d :| d in devices && d.id == id { assert Has(world, o.began + 1, d) && ListedAt(world, o.began + 1, id); }
    }
  }

  // ----- a rebuild and what its toasts set off -----

  ghost predicate MovesKept(world: World, b: Bindings, o: Outcome)
    decreases o
  {
    var scene := SceneOf(world, o);
    MovesKeepTheirConnection(scene, b) && AllMovesKept(world, Settled(scene, b), o.heard)
  }

  ghost predicate AllMovesKept(world: World, b: Bindings, os: seq<Outcome>)
    decreases os
  {
    os == [] ||
    var n := |os| - 1;
    AllMovesKept(world, b, os[..n]) && MovesKept(world, LeftAll(world, b, os[..n]), os[n])
  }

  lemma KnownLater(world: World, t: nat, later: nat, b: Bindings)
    requires t <= later && AllKnown(world, t, b)
    ensures AllKnown(world, later, b)
  {
    forall id | id in b ensures Known(world, later, id) {
      assert Known(world, t, id);
    }
  }

  lemma {:induction false} RebuildKeepsItsMoves(world: World, b: Bindings, o: Outcome, from: nat)
    requires Plausible(world) && Lasting(world) && OneSlotEach(b) && AllKnown(world, from, b)
    requires Happened(world, b, o, from)
    ensures MovesKept(world, b, o) && OneSlotEach(Left(world, b, o)) && AllKnown(world, o.ended, Left(world, b, o))
    decreases o, 1
  {
    var settled := Settled(SceneOf(world, o), b);
    KnownLater(world, from, o.began + 1, b);
    PassKeepsItsMoves(world, b, o, from);
    PassShrinks(SceneOf(world, o), b);
    KnownLater(world, o.began + 1, o.began + 2, settled);
    ListenersKeepTheirMoves(world, settled, o.heard, o.began + 2);
    KnownLater(world, Over(o.heard, o.began + 2), o.ended, LeftAll(world, settled, o.heard));
  }

  lemma {:induction false} ListenersKeepTheirMoves(world: World, b: Bindings, os: seq<Outcome>, from: nat)
    requires Plausible(world) && Lasting(world) && OneSlotEach(b) && AllKnown(world, from, b)
    requires AllHappened(world, b, os, from)
    ensures AllMovesKept(world, b, os) && OneSlotEach(LeftAll(world, b, os))
    ensures AllKnown(world, Over(os, from), LeftAll(world, b, os))
    decreases os, 0
  {
    if os != [] {
      var n := |os| - 1;
      ListenersKeepTheirMoves(world, b, os[..n], from);
      RebuildKeepsItsMoves(world, LeftAll(world, b, os[..n]), os[n], Over(os[..n], from));
    }
  }

  // ----- a life of them -----

  // What starts a rebuild with the guard clear.
  datatype Deed =
    | DevicesChanged(o: Outcome)
    | UserBinds(slot: SlotId, conn: ConnId, o: Outcome)
    | UserUnbinds(slot: SlotId, o: Outcome)

  /** The bindings the deed's rebuild starts from. */
  function Changed(b: Bindings, deed: Deed): Bindings {
    match deed
    case DevicesChanged(_) => b
    case UserBinds(slot, conn, _) => Bound(b, slot, conn)
    case UserUnbinds(slot, _) => b - {slot}
  }

  /** Each deed after the one before, a bind only of a slot that has been on screen. */
  ghost predicate Lived(world: World, b: Bindings, deeds: seq<Deed>, from: nat)
    decreases deeds
  {
    deeds == [] ||
    (var deed := deeds[0];
     && (deed.UserBinds? ==> Known(world, from, deed.slot))
     && Happened(world, Changed(b, deed), deed.o, from)
     && Lived(world, Left(world, Changed(b, deed), deed.o), deeds[1..], deed.o.ended))
  }

  ghost predicate LifeKept(world: World, b: Bindings, deeds: seq<Deed>)
    decreases deeds
  {
    deeds == [] ||
    (var deed := deeds[0];
     && OneSlotEach(Changed(b, deed)) && MovesKept(world, Changed(b, deed), deed.o)
     && LifeKept(world, Left(world, Changed(b, deed), deed.o), deeds[1..]))
  }

  lemma ChangedIsKnown(world: World, b: Bindings, deed: Deed, from: nat)
    requires OneSlotEach(b) && AllKnown(world, from, b) && (deed.UserBinds? ==> Known(world, from, deed.slot))
    ensures OneSlotEach(Changed(b, deed)) && AllKnown(world, from, Changed(b, deed))
  {
    if deed.UserBinds? { BoundKeepsOneSlotEach(b, deed.slot, deed.conn); }
  }

  /** Over every sequence of device changes, binds and unbinds, with the controllers and lists different at every
      look, each pass keeps the connection of every pad that moved, and a connection stays on one slot. */
  lemma {:induction false} EveryLifeKeepsItsMoves(world: World, b: Bindings, deeds: seq<Deed>, from: nat)
    requires Plausible(world) && Lasting(world) && OneSlotEach(b) && AllKnown(world, from, b)
    requires Lived(world, b, deeds, from)
    ensures LifeKept(world, b, deeds)
    decreases deeds
  {
    if deeds != [] {
      var deed := deeds[0];
      ChangedIsKnown(world, b, deed, from);
      RebuildKeepsItsMoves(world, Changed(b, deed), deed.o, from);
      EveryLifeKeepsItsMoves(world, Left(world, Changed(b, deed), deed.o), deeds[1..], deed.o.ended);
    }
  }
}

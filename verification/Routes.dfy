/**
 The immutable route table, the device registry that gives each slot its row, and the
 build that turns a snapshot of the bindings into a table.
 */
module Routes {
  import opened Basics

  const MAX_DEVICES := 64
  const MAX_ID_BYTES := 63

  // A satellite client is known by its identity only.
  type Client = nat

  datatype Target = Target(client: Client, controllerIndex: int)
  datatype InputRoute = InputRoute(target: Target, motion: bool)
  datatype MicRoute = MicRoute(slotId: SlotId, target: Target)
  datatype Actuator = NoActuator | Standard | DirectUsb

  // What the slot's pad can be driven with, as liveRoute reads it.
  datatype SlotFacts = SlotFacts(targets: seq<Actuator>, direct: Option<int>, rumbleOn: bool)
  datatype FeedbackRoute = FeedbackRoute(
    connectionId: ConnId, slotId: SlotId, facts: SlotFacts, padIndex: Option<nat>)

  datatype RouteTable = RouteTable(
    inputs: seq<Option<InputRoute>>, mics: seq<MicRoute>, feedback: seq<FeedbackRoute>)

  // Everything build() reads besides the slot list and the device registry.
  datatype World = World(
    bindings: map<SlotId, ConnId>,
    connections: map<ConnId, Option<Target>>,
    motionOn: set<SlotId>,
    facts: map<SlotId, SlotFacts>,
    otherFacts: SlotFacts)

  // ----- the simple lookups a table stands for -----

  ghost predicate BoundTo(bindings: map<SlotId, ConnId>, slot: SlotId, conn: ConnId) {
    slot in bindings && bindings[slot] == conn
  }

  /** The slot is bound to a connection, by a name that is not empty, whose send target that is. */
  ghost predicate SendsTo(w: World, slot: SlotId, target: Target) {
    exists c :: BoundTo(w.bindings, slot, c) && c != "" && c in w.connections && w.connections[c] == Some(target)
  }

  /** Where a slot's reports go. */
  function TargetOf(w: World, slot: SlotId): (target: Option<Target>)
    ensures forall t {:trigger SendsTo(w, slot, t)} :: target == Some(t) <==> SendsTo(w, slot, t)
  {
    if slot !in w.bindings then None
    else
      var conn := w.bindings[slot];
      assert forall c :: BoundTo(w.bindings, slot, c) <==> c == conn;
      if conn != "" && conn in w.connections then w.connections[conn] else None
  }

  // ----- the table's own searches -----

  function FeedbackIn(routes: seq<FeedbackRoute>, conn: ConnId): Option<FeedbackRoute> {
    if routes == [] then None
    else if routes[0].connectionId == conn then Some(routes[0])
    else FeedbackIn(routes[1..], conn)
  }

  function FeedbackFor(t: RouteTable, conn: ConnId): Option<FeedbackRoute> {
    FeedbackIn(t.feedback, conn)
  }

  function MicIn(routes: seq<MicRoute>, slot: SlotId): Option<MicRoute> {
    if routes == [] then None
    else if routes[0].slotId == slot then Some(routes[0])
    else MicIn(routes[1..], slot)
  }

  function MicFor(t: RouteTable, slot: SlotId): Option<MicRoute> {
    MicIn(t.mics, slot)
  }

  lemma {:induction false} FeedbackInAppend(a: seq<FeedbackRoute>, r: FeedbackRoute, conn: ConnId)
    ensures FeedbackIn(a + [r], conn) ==
            if FeedbackIn(a, conn).Some? then FeedbackIn(a, conn)
            else if r.connectionId == conn then Some(r) else None
  {
    if a != [] {
      FeedbackInAppend(a[1..], r, conn);
      assert (a + [r])[1..] == a[1..] + [r];
    }
  }

  lemma {:induction false} MicInAppend(a: seq<MicRoute>, r: MicRoute, slot: SlotId)
    ensures MicIn(a + [r], slot) ==
            if MicIn(a, slot).Some? then MicIn(a, slot)
            else if r.slotId == slot then Some(r) else None
  {
    if a != [] {
      MicInAppend(a[1..], r, slot);
      assert (a + [r])[1..] == a[1..] + [r];
    }
  }

  // ----- the device registry -----

  type Records = seq<Option<SlotId>>

  ghost predicate Holds(rs: Records, id: SlotId, i: nat) {
    i < |rs| && rs[i] == Some(id)
  }

  ghost predicate Known(rs: Records, id: SlotId) {
    exists i :: Holds(rs, id, i)
  }

  /** At most one row a device, and only ids short enough to be stored. */
  ghost predicate OneRowEach(rs: Records) {
    && |rs| == MAX_DEVICES
    && (forall i, j :: 0 <= i < j < |rs| && rs[i].Some? ==> rs[i] != rs[j])
    && (forall i :: 0 <= i < |rs| && rs[i].Some? ==> |rs[i].value| <= MAX_ID_BYTES)
  }

  /** Nobody who had a row lost it or moved. */
  ghost predicate Extends(rs: Records, rs': Records) {
    |rs| == |rs'| && forall i :: 0 <= i < |rs| && rs[i].Some? ==> rs'[i] == rs[i]
  }

  /** The first row at or after n that holds x. */
  function FirstRow(rs: Records, x: Option<SlotId>, n: nat): (row: Option<nat>)
    requires n <= |rs|
    ensures row.Some? ==> n <= row.value < |rs| && rs[row.value] == x && forall i :: n <= i < row.value ==> rs[i] != x
    ensures row.None? ==> forall i :: n <= i < |rs| ==> rs[i] != x
    decreases |rs| - n
  {
    if n == |rs| then None else if rs[n] == x then Some(n) else FirstRow(rs, x, n + 1)
  }

  /** The rows after one call of add, and the row it answers. */
  function Added(rs: Records, id: SlotId): (Records, Option<nat>) {
    if |id| > MAX_ID_BYTES then (rs, None)
    else if FirstRow(rs, Some(id), 0).Some? then (rs, FirstRow(rs, Some(id), 0))
    else match FirstRow(rs, None, 0)
         case None => (rs, None)
         case Some(i) => (rs[i := Some(id)], Some(i))
  }

  /** The processor's table of devices, as one thread at a time sees it. */
  class DeviceRegistry {
    var records: Records

    constructor ()
      ensures OneRowEach(records) && |records| == 64
      ensures forall i :: 0 <= i < |records| ==> records[i] == None
    {
      records := seq(MAX_DEVICES, _ => None);
    }

    /** The row of a device, without making one. */
    method Find(id: SlotId) returns (index: Option<nat>)
      requires OneRowEach(records)
      ensures index.Some? <==> Known(records, id)
      ensures index.Some? ==> Holds(records, id, index.value)
      ensures index == FirstRow(records, Some(id), 0)
    {
      for i := 0 to |records|
        invariant forall k :: 0 <= k < i ==> records[k] != Some(id)
        invariant FirstRow(records, Some(id), 0) == FirstRow(records, Some(id), i)
      {
        if records[i] == Some(id) {
          assert Holds(records, id, i);
          return Some(i);
        }
      }
      return None;
    }

    /** The row a device has already, or the first free one; none when full or the id is too long. */
    method Add(id: SlotId) returns (index: Option<nat>)
      requires OneRowEach(records)
      modifies this
      ensures OneRowEach(records)
      ensures Extends(old(records), records)
      ensures forall other, i :: other != id && Holds(records, other, i) ==> Holds(old(records), other, i)
      ensures index.Some? ==> Holds(records, id, index.value)
      ensures index.None? ==> records == old(records) && !Known(records, id)
      ensures index.None? <==> |id| > 63
                               || (!Known(old(records), id)
                                   && forall i :: 0 <= i < 64 ==> old(records)[i].Some?)
      ensures (records, index) == Added(old(records), id)
    {
      if |id| > MAX_ID_BYTES { return None; }
      index := Find(id);
      if index.Some? { return; }
      forall k | 0 <= k < |records| ensures records[k] != Some(id) {
        assert !Holds(records, id, k);
      }
      for i := 0 to |records|
        invariant records == old(records)
        invariant forall k :: 0 <= k < i ==> records[k].Some?
        invariant FirstRow(records, None, 0) == FirstRow(records, None, i)
      {
        if records[i].None? {
          records := records[i := Some(id)];
          return Some(i);
        }
      }
      return None;
    }
  }

  // ----- build -----

  ghost predicate SlotOfRow(slots: seq<SlotId>, rs: Records, slot: SlotId, row: nat) {
    slot in slots && Holds(rs, slot, row)
  }

  /** A listed slot owns the row, is bound to the route's target, and has its motion switch as the route says. */
  ghost predicate IsRouteOfRow(w: World, slots: seq<SlotId>, rs: Records, row: nat, route: InputRoute) {
    exists s :: SlotOfRow(slots, rs, s, row) && SendsTo(w, s, route.target) && (route.motion <==> s in w.motionOn)
  }

  /** Row `row` of the table says what the listed slot that owns the row is bound to. */
  ghost predicate RowRefines(w: World, slots: seq<SlotId>, rs: Records, inputs: seq<Option<InputRoute>>, row: nat)
    requires row < |inputs|
  {
    forall route :: inputs[row] == Some(route) <==> IsRouteOfRow(w, slots, rs, row, route)
  }

  /** The mic search finds a route for exactly the listed slots with a send target. */
  ghost predicate MicsRefine(w: World, slots: seq<SlotId>, mics: seq<MicRoute>) {
    forall s, t ::
      MicIn(mics, s) == Some(MicRoute(s, t)) <==> s in slots && SendsTo(w, s, t)
  }

  ghost predicate AnyBoundTo(bindings: map<SlotId, ConnId>, conn: ConnId) {
    exists s :: BoundTo(bindings, s, conn)
  }

  ghost predicate IsLiveRoute(w: World, rs: Records, r: FeedbackRoute) {
    && (r.slotId in w.facts ==> r.facts == w.facts[r.slotId])
    && (r.slotId !in w.facts ==> r.facts == w.otherFacts)
    && (r.padIndex.Some? <==> Known(rs, r.slotId))
    && (r.padIndex.Some? ==> Holds(rs, r.slotId, r.padIndex.value))
  }

  /** The feedback search finds a route exactly when some slot is bound to the connection, and
      then it is such a slot's live route. */
  ghost predicate FeedbackRefines(w: World, bindings: map<SlotId, ConnId>, rs: Records, routes: seq<FeedbackRoute>) {
    forall c {:trigger FeedbackIn(routes, c)} ::
      && (FeedbackIn(routes, c).Some? <==> AnyBoundTo(bindings, c))
      && (FeedbackIn(routes, c).Some? ==>
            var r := FeedbackIn(routes, c).value;
            r.connectionId == c && BoundTo(bindings, r.slotId, c) && IsLiveRoute(w, rs, r))
  }

  ghost predicate Refines(w: World, slots: seq<SlotId>, rs: Records, t: RouteTable) {
    && |t.inputs| == MAX_DEVICES
    && (forall row :: 0 <= row < MAX_DEVICES ==> RowRefines(w, slots, rs, t.inputs, row))
    && MicsRefine(w, slots, t.mics)
    && FeedbackRefines(w, w.bindings, rs, t.feedback)
  }

  /** A fresh table for the slots on screen, inputs and mics from the list, feedback from every binding. */
  method Build(w: World, slotIds: seq<SlotId>, processor: DeviceRegistry) returns (table: RouteTable)
    requires OneRowEach(processor.records)
    modifies processor
    ensures OneRowEach(processor.records) && Extends(old(processor.records), processor.records)
    ensures Refines(w, slotIds, processor.records, table)
  {
    var inputs := seq(MAX_DEVICES, _ => None);
    var mics: seq<MicRoute> := [];
    NoMicsYet(w);
    assert slotIds[..0] == [];
    for n := 0 to |slotIds|
      invariant OneRowEach(processor.records) && Extends(old(processor.records), processor.records)
      invariant |inputs| == MAX_DEVICES
      invariant forall row :: 0 <= row < MAX_DEVICES ==> RowRefines(w, slotIds[..n], processor.records, inputs, row)
      invariant MicsRefine(w, slotIds[..n], mics)
    {
      var id := slotIds[n];
      ghost var before, done := processor.records, slotIds[..n];
      var index := processor.Add(id);
      assert slotIds[..n + 1] == done + [id];
      forall row | 0 <= row < MAX_DEVICES
        ensures TargetOf(w, id).None? || index != Some(row) ==>
                  RowRefines(w, done + [id], processor.records, inputs, row)
      {
        RowAfterAdd(w, done, id, before, processor.records, inputs, row);
      }
      ghost var mics0 := mics;
      var connectionId := if id in w.bindings then w.bindings[id] else "";
      if connectionId == "" || connectionId !in w.connections || w.connections[connectionId].None? {
        assert TargetOf(w, id).None?;
        MicsAfterSkip(w, done, id, mics0);
        continue;
      }
      var target := w.connections[connectionId].value;
      assert TargetOf(w, id) == Some(target);
      mics := mics + [MicRoute(id, target)];
      MicsAfterPush(w, done, id, mics0);
      if index.None? { continue; }
      ghost var inputs0 := inputs;
      inputs := inputs[index.value := Some(InputRoute(target, id in w.motionOn))];
      RowAfterWrite(w, done, id, processor.records, inputs, index.value);
      forall row | 0 <= row < MAX_DEVICES ensures RowRefines(w, done + [id], processor.records, inputs, row) {
        if row != index.value {
          assert RowRefines(w, done + [id], processor.records, inputs0, row);
        }
      }
    }
    assert slotIds[..|slotIds|] == slotIds;
    var feedback := BuildFeedback(w, processor);
    table := RouteTable(inputs, mics, feedback);
  }

  /** One route a binding, in whatever order the hash yields them. */
  method BuildFeedback(w: World, processor: DeviceRegistry) returns (routes: seq<FeedbackRoute>)
    requires OneRowEach(processor.records)
    ensures FeedbackRefines(w, w.bindings, processor.records, routes)
  {
    routes := [];
    var left := w.bindings.Keys;
    ghost var done: map<SlotId, ConnId> := map[];
    while left != {}
      invariant left <= w.bindings.Keys
      invariant done == map s | s in w.bindings && s !in left :: w.bindings[s]
      invariant FeedbackRefines(w, done, processor.records, routes)
    {
      var slot :| slot in left;
      var pad := processor.Find(slot);
      var facts := if slot in w.facts then w.facts[slot] else w.otherFacts;
      var route := FeedbackRoute(w.bindings[slot], slot, facts, pad);
      FeedbackAfterPush(w, done, slot, w.bindings[slot], processor.records, routes, route);
      routes := routes + [route];
      left := left - {slot};
      done := done[slot := w.bindings[slot]];
    }
    assert done == w.bindings;
  }

  function RouteTo(w: World, slot: SlotId): Option<InputRoute> {
    match TargetOf(w, slot)
    case None => None
    case Some(t) => Some(InputRoute(t, slot in w.motionOn))
  }

  /** The row in the terms of its owner. */
  lemma RowIsItsOwners(w: World, slots: seq<SlotId>, rs: Records, inputs: seq<Option<InputRoute>>, row: nat)
    requires row < |inputs|
    ensures RowRefines(w, slots, rs, inputs, row) <==>
            inputs[row] == if row < |rs| && rs[row].Some? && rs[row].value in slots
                           then RouteTo(w, rs[row].value) else None
  {
    if row < |rs| && rs[row].Some? && rs[row].value in slots {
      var s := rs[row].value;
      assert SlotOfRow(slots, rs, s, row);
      forall route ensures IsRouteOfRow(w, slots, rs, row, route) <==> RouteTo(w, s) == Some(route) {
        assert SendsTo(w, s, route.target) <==> TargetOf(w, s) == Some(route.target);
      }
    } else {
      assert forall route :: !IsRouteOfRow(w, slots, rs, row, route);
    }
    if inputs[row].Some? {
      assert IsRouteOfRow(w, slots, rs, row, inputs[row].value) || !IsRouteOfRow(w, slots, rs, row, inputs[row].value);
    }
  }

  lemma RowAfterAdd(w: World, done: seq<SlotId>, id: SlotId, rs: Records, rs': Records,
                    inputs: seq<Option<InputRoute>>, row: nat)
    requires OneRowEach(rs) && OneRowEach(rs') && Extends(rs, rs')
    requires forall other, i :: other != id && Holds(rs', other, i) ==> Holds(rs, other, i)
    requires row < |inputs| == MAX_DEVICES
    requires RowRefines(w, done, rs, inputs, row)
    ensures TargetOf(w, id).None? || !Holds(rs', id, row) ==> RowRefines(w, done + [id], rs', inputs, row)
  {
    RowIsItsOwners(w, done, rs, inputs, row);
    RowIsItsOwners(w, done + [id], rs', inputs, row);
    assert rs'[row].Some? && rs'[row].value != id ==> Holds(rs', rs'[row].value, row);
  }

  lemma RowAfterWrite(w: World, done: seq<SlotId>, id: SlotId, rs: Records,
                      inputs: seq<Option<InputRoute>>, row: nat)
    requires row < |inputs| && Holds(rs, id, row) && TargetOf(w, id).Some?
    requires inputs[row] == Some(InputRoute(TargetOf(w, id).value, id in w.motionOn))
    ensures RowRefines(w, done + [id], rs, inputs, row)
  {
    RowIsItsOwners(w, done + [id], rs, inputs, row);
  }

  lemma NoMicsYet(w: World)
    ensures MicsRefine(w, [], [])
  {
    assert forall s :: MicIn([], s) == None;
  }

  lemma MicsAfterSkip(w: World, done: seq<SlotId>, id: SlotId, mics: seq<MicRoute>)
    requires MicsRefine(w, done, mics) && TargetOf(w, id).None?
    ensures MicsRefine(w, done + [id], mics)
  {
    assert forall t :: !SendsTo(w, id, t);
  }

  lemma MicsAfterPush(w: World, done: seq<SlotId>, id: SlotId, mics: seq<MicRoute>)
    requires MicsRefine(w, done, mics) && TargetOf(w, id).Some?
    ensures MicsRefine(w, done + [id], mics + [MicRoute(id, TargetOf(w, id).value)])
  {
    var pushed := MicRoute(id, TargetOf(w, id).value);
    forall s, t ensures MicIn(mics + [pushed], s) == Some(MicRoute(s, t)) <==> s in done + [id] && SendsTo(w, s, t) {
      MicInAppend(mics, pushed, s);
      MicFoundIsItsOwn(mics, s);
      assert MicIn(mics, s) == Some(MicRoute(s, t)) <==> s in done && SendsTo(w, s, t);
      if MicIn(mics, s).Some? { assert SendsTo(w, s, MicIn(mics, s).value.target); }
    }
  }

  lemma {:induction false} MicFoundIsItsOwn(mics: seq<MicRoute>, slot: SlotId)
    ensures MicIn(mics, slot).Some? ==> MicIn(mics, slot).value.slotId == slot
  {
    if mics != [] { MicFoundIsItsOwn(mics[1..], slot); }
  }

  lemma FeedbackAfterPush(w: World, done: map<SlotId, ConnId>, slot: SlotId, conn: ConnId, rs: Records,
                          routes: seq<FeedbackRoute>, route: FeedbackRoute)
    requires FeedbackRefines(w, done, rs, routes) && slot !in done
    requires route.connectionId == conn && route.slotId == slot && IsLiveRoute(w, rs, route)
    ensures FeedbackRefines(w, done[slot := conn], rs, routes + [route])
  {
    var done' := done[slot := conn];
    assert BoundTo(done', slot, conn);
    assert forall s, c :: BoundTo(done', s, c) <==> BoundTo(done, s, c) || (s == slot && c == conn);
    forall c {
      FeedbackInAppend(routes, route, c);
    }
  }

  /** With one slot a connection, as the hub keeps it, the feedback route is the slot's own. */
  lemma FeedbackGoesToTheBoundSlot(w: World, slots: seq<SlotId>, rs: Records, t: RouteTable, slot: SlotId)
    requires Refines(w, slots, rs, t) && slot in w.bindings
    requires forall a, b :: a in w.bindings && b in w.bindings && w.bindings[a] == w.bindings[b] ==> a == b
    ensures FeedbackFor(t, w.bindings[slot]).Some?
    ensures FeedbackFor(t, w.bindings[slot]).value.slotId == slot
  {
    assert BoundTo(w.bindings, slot, w.bindings[slot]);
  }

  /** A device row whose slots are all unbound, unlisted or without a target carries no route. */
  lemma NoTargetNoRoute(w: World, slots: seq<SlotId>, rs: Records, t: RouteTable, row: nat)
    requires Refines(w, slots, rs, t) && row < MAX_DEVICES
    requires forall s, target :: s in slots && Holds(rs, s, row) ==> !SendsTo(w, s, target)
    ensures t.inputs[row] == None
  {
    RowIsItsOwners(w, slots, rs, t.inputs, row);
    if row < |rs| && rs[row].Some? && rs[row].value in slots {
      var s := rs[row].value;
      assert Holds(rs, s, row);
      assert forall target :: SendsTo(w, s, target) <==> TargetOf(w, s) == Some(target);
    }
  }

  lemma MicLeadsToItsTarget(w: World, slots: seq<SlotId>, mics: seq<MicRoute>, slot: SlotId)
    requires MicsRefine(w, slots, mics) && MicIn(mics, slot).Some?
    ensures slot in slots && SendsTo(w, slot, MicIn(mics, slot).value.target)
  {
    MicFoundIsItsOwn(mics, slot);
    assert MicIn(mics, slot) == Some(MicRoute(slot, MicIn(mics, slot).value.target));
  }

  lemma NoTargetNoMic(w: World, slots: seq<SlotId>, mics: seq<MicRoute>, slot: SlotId)
    requires MicsRefine(w, slots, mics)
    requires forall target :: slot in slots ==> !SendsTo(w, slot, target)
    ensures MicIn(mics, slot) == None
  {
    if MicIn(mics, slot).Some? { MicLeadsToItsTarget(w, slots, mics, slot); }
  }
}

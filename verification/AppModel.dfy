/**
 The rebuild and the binding-presence pass it ends with. Every bind and unbind of the pass makes
 the hub announce a change, which lands back in rebuild; the guard lets the nested rebuild run and
 keeps the nested pass from starting. Toasts go out last, and whatever they reach may call back in.
 The controllers and the devices may be others at every look.
 */
module AppModels {
  import opened Basics
  import opened BindingPresence
  import opened SlotAssembly
  import opened UsbControllers
  import opened Passes

  class AppModel {
    const world: World
    const labels: map<ConnId, string>
    // How many looks were taken so far.
    var now: nat
    // The hub's table.
    var bindings: Bindings
    var presentPads: seq<PresentSlot>
    var bindingPresenceInFlight: bool
    ghost var log: seq<Event>

    constructor (world: World, labels: map<ConnId, string>, bindings: Bindings)
      ensures this.world == world && this.labels == labels && this.bindings == bindings
      ensures !bindingPresenceInFlight && log == [] && now == 0
    {
      this.world, this.labels, this.bindings := world, labels, bindings;
      now, presentPads, bindingPresenceInFlight, log := 0, [], false, [];
    }

    /** UsbGamepadManager::controllers, a fresh snapshot. */
    method LookAtControllers() returns (controllers: seq<Controller>)
      modifies this`now
      ensures now == old(now) + 1 && controllers == world(old(now)).controllers
    {
      controllers := world(now).controllers;
      now := now + 1;
    }

    /** SDLGamepadBridge::devices, whatever list was published last. */
    method LookAtDevices() returns (devices: seq<SdlDevice>)
      modifies this`now
      ensures now == old(now) + 1 && devices == world(old(now)).devices
    {
      devices := world(now).devices;
      now := now + 1;
    }

    /** Rebuilds the slots, then settles the bindings unless a pass is already doing so. */
    method Rebuild(ghost depth: nat) returns (ghost o: Outcome)
      requires OneSlotEach(bindings)
      modifies this
      ensures OneSlotEach(bindings) && old(now) < now
      ensures bindingPresenceInFlight == old(bindingPresenceInFlight)
      ensures old(bindingPresenceInFlight) ==>
                bindings == old(bindings) && log == old(log) + [Rebuilt(depth, true)]
      ensures !old(bindingPresenceInFlight) ==>
                && Happened(world, old(bindings), o, old(now)) && o.ended <= now
                && bindings == Left(world, old(bindings), o)
                && log == old(log) + Trace(world, old(bindings), o, labels, depth)
      decreases if bindingPresenceInFlight then 0 else 1 + |bindings|, 2, 0
    {
      ghost var began, b0, log0 := now, bindings, log;
      var controllers := LookAtControllers();
      var devices := LookAtDevices();
      presentPads := ShowPads(controllers, devices);
      log := log + [Rebuilt(depth, bindingPresenceInFlight)];
      o := ApplyBindingPresence(began, depth);
      TraceFollows(world, b0, o, labels, depth, log0);
    }

    /** Drops or moves each binding whose pad left its slot, once, and then says what was dropped. */
    method ApplyBindingPresence(ghost began: nat, ghost depth: nat) returns (ghost o: Outcome)
      requires OneSlotEach(bindings) && presentPads == ScreenAt(world, began) && began + 2 <= now
      modifies this
      ensures OneSlotEach(bindings) && old(now) <= now
      ensures bindingPresenceInFlight == old(bindingPresenceInFlight)
      ensures old(bindingPresenceInFlight) ==> bindings == old(bindings) && log == old(log)
      ensures !old(bindingPresenceInFlight) ==>
                && Happened(world, old(bindings), o, began) && o.ended <= now
                && bindings == Left(world, old(bindings), o)
                && log == old(log) + PassTrace(world, old(bindings), o, labels, depth)
      decreases if bindingPresenceInFlight then 0 else 1 + |bindings|, 1
    {
      o := Outcome(began, map[], [], now);
      if bindingPresenceInFlight { return; }
      var actions, times := PendingActions(began);
      PassShrinks(SceneAt(world, began, times), bindings);
      if actions == [] {
        o := Outcome(began, times, [], now);
        IdlePass(world, bindings, o, labels, depth);
        return;
      }
      o := ApplyAndTell(actions, began, times, depth);
    }

    /** The actions with the guard set, and the toasts once it is clear. */
    method ApplyAndTell(actions: seq<Action>, ghost began: nat, ghost times: map<SlotId, nat>, ghost depth: nat)
      returns (ghost o: Outcome)
      requires !bindingPresenceInFlight && Applicable(bindings, actions)
      requires Looked(bindings, Outcome(began, times, [], now), began)
      requires actions == ActionsFor(SceneAt(world, began, times), bindings)
      requires |Fold(bindings, actions)| + Unbinds(actions) <= |bindings|
      modifies this
      ensures OneSlotEach(bindings) && !bindingPresenceInFlight && old(now) <= now
      ensures Happened(world, old(bindings), o, began) && o.ended <= now
      ensures bindings == Left(world, old(bindings), o)
      ensures log == old(log) + PassTrace(world, old(bindings), o, labels, depth)
      decreases 1 + |bindings|, 0
    {
      ghost var b0, log0 := bindings, log;
      bindingPresenceInFlight := true;
      var notices := ApplyActions(actions, depth);
      bindingPresenceInFlight := false;
      ghost var settled, start := bindings, now;
      ghost var heard := SendToasts(notices, depth);
      o := Outcome(began, times, heard, now);
      PassHappened(world, b0, o, settled, Unbinds(actions), start);
      PassTraceFollows(world, b0, o, labels, depth, log0);
    }

    /** The actions, under the guard: what is dropped is noted before it goes. */
    method ApplyActions(actions: seq<Action>, ghost depth: nat) returns (notices: seq<string>)
      requires Applicable(bindings, actions) && bindingPresenceInFlight
      modifies this
      ensures OneSlotEach(bindings) && bindingPresenceInFlight && old(now) <= now
      ensures bindings == Fold(old(bindings), actions)
      ensures notices == Notices(actions, labels)
      ensures log == old(log) + ApplyEvents(actions, depth + 1)
      decreases 0, 4
    {
      ghost var b0 := bindings;
      notices := [];
      for i := 0 to |actions|
        invariant bindingPresenceInFlight && old(now) <= now
        invariant OneSlotEach(bindings) && bindings == Fold(b0, actions[..i])
        invariant notices == Notices(actions[..i], labels)
        invariant log == old(log) + ApplyEvents(actions[..i], depth + 1)
      {
        StandsUntilItsTurn(b0, actions, i);
        OneMoreAction(b0, actions, labels, depth + 1, i, old(log));
        notices := notices + if actions[i].Unbind? then [LabelOf(actions[i].connId)] else [];
        ApplyAction(actions[i], depth + 1);
      }
      assert actions[..|actions|] == actions;
    }

    function LabelOf(conn: ConnId): string {
      if conn in labels then labels[conn] else ""
    }

    method ApplyAction(action: Action, ghost depth: nat)
      requires OneSlotEach(bindings) && bindingPresenceInFlight && action.slotId in bindings
      modifies this
      ensures OneSlotEach(bindings) && bindingPresenceInFlight && old(now) <= now
      ensures bindings == Done(old(bindings), action)
      ensures log == old(log) + ActionEvents(action, depth)
      decreases 0, 3
    {
      ghost var o := HubUnbind(action.slotId, depth);
      if action.Migrate? {
        // Before the bind, which reads the switches into the descriptor.
        log := log + [SwitchesCarried(action.slotId, action.toSlotId)];
        o := HubBind(action.toSlotId, action.connId, depth);
      }
    }

    /** The toasts, with the guard clear: each listener may rebuild, and settles what has changed by then. */
    method SendToasts(notices: seq<string>, ghost depth: nat) returns (ghost heard: seq<Outcome>)
      requires OneSlotEach(bindings) && !bindingPresenceInFlight
      modifies this
      ensures OneSlotEach(bindings) && !bindingPresenceInFlight && old(now) <= now
      ensures Told(world, old(bindings), notices, heard, labels, depth + 1, old(now), old(log), bindings, now, log)
      decreases |bindings| + if notices == [] then 0 else 1, 3
    {
      ghost var b0, log0, start := bindings, log, now;
      ghost var told: seq<string> := [];
      heard := [];
      NoneTold(world, b0, labels, depth + 1, start, log0);
      for i := 0 to |notices|
        invariant OneSlotEach(bindings) && !bindingPresenceInFlight && start <= now && |bindings| <= |b0|
        invariant |told| == i && told <= notices
        invariant Told(world, b0, told, heard, labels, depth + 1, start, log0, bindings, now, log)
      {
        ghost var b1, before, log1 := bindings, now, log;
        ghost var o := SendToast(notices[i], depth);
        OneMoreTold(world, b0, told, heard, labels, depth + 1, start, log0, b1, before, log1, notices[i], o, now);
        heard, told := heard + [o], told + [notices[i]];
      }
      assert told == notices;
    }

    /** One toast, and what its listener makes of it. */
    method SendToast(notice: string, ghost depth: nat) returns (ghost o: Outcome)
      requires OneSlotEach(bindings) && !bindingPresenceInFlight
      modifies this
      ensures OneSlotEach(bindings) && !bindingPresenceInFlight
      ensures Happened(world, old(bindings), o, old(now)) && old(now) <= o.ended <= now
      ensures bindings == Left(world, old(bindings), o) && |bindings| <= |old(bindings)|
      ensures log == old(log) + [Toast(notice, false)] + Trace(world, old(bindings), o, labels, depth + 1)
      decreases 1 + |bindings|, 2, 1
    {
      ghost var b0 := bindings;
      log := log + [Toast(notice, bindingPresenceInFlight)];
      o := Rebuild(depth + 1);
      EveryUnbindCounts(world, b0, o);
    }

    /** The rows of the pass and the actions they call for. */
    method PendingActions(ghost began: nat) returns (actions: seq<Action>, ghost times: map<SlotId, nat>)
      requires OneSlotEach(bindings) && presentPads == ScreenAt(world, began) && began + 2 <= now
      modifies this`now
      ensures old(now) <= now && times.Keys == bindings.Keys
      ensures forall id :: id in times ==> old(now) <= times[id] < now
      ensures actions == ActionsFor(SceneAt(world, began, times), bindings) && Applicable(bindings, actions)
    {
      var rows;
      rows, times := CollectRows(began);
      actions := ResolveBindingPresence(presentPads, rows);
      ActionsResolve(SceneAt(world, began, times), bindings);
    }

    /** One row a binding, in whatever order the hash yields them, each with a look of its own at the devices. */
    method CollectRows(ghost began: nat) returns (rows: seq<BoundSlot>, ghost times: map<SlotId, nat>)
      requires presentPads == ScreenAt(world, began)
      modifies this`now
      ensures old(now) <= now && times.Keys == bindings.Keys
      ensures forall id :: id in times ==> old(now) <= times[id] < now
      ensures BySlotId(rows) == RowsOf(SceneAt(world, began, times), bindings)
    {
      rows, times := [], map[];
      ghost var from := now;
      NoneCollected(world, began, bindings, from);
      var left := bindings.Keys;
      while left != {}
        invariant from <= now && left <= bindings.Keys && times.Keys == bindings.Keys - left
        invariant Collected(world, began, bindings, rows, times, from, now)
        decreases |left|
      {
        var id := AnyOf(left);
        ghost var time := now;
        var row := RowNow(began, id);
        OneMoreCollected(world, began, bindings, rows, times, from, time, id, row);
        rows, times := [row] + rows, times[id := time];
        left := left - {id};
      }
      AllCollected(world, began, bindings, rows, times, from, now);
    }

    method RowNow(ghost began: nat, id: SlotId) returns (row: BoundSlot)
      requires presentPads == ScreenAt(world, began) && id in bindings
      modifies this`now
      ensures now == old(now) + 1
      ensures row == RowFor(SceneAt(world, began, map[id := old(now)]), bindings, id)
    {
      var devices := LookAtDevices();
      row := BoundSlot(id, bindings[id], BoundPadIdentity(Scene(presentPads, map[id := Slots(devices)]), id));
    }

    /** ConnectionHub::unbind, whose change signal rebuilds: within a pass, and on the user's own unbind, which
        settles the other bindings too. */
    method HubUnbind(slot: SlotId, ghost depth: nat) returns (ghost o: Outcome)
      requires OneSlotEach(bindings)
      modifies this
      ensures OneSlotEach(bindings) && bindingPresenceInFlight == old(bindingPresenceInFlight) && old(now) <= now
      ensures slot !in old(bindings) ==>
                bindings == old(bindings) && presentPads == old(presentPads) && log == old(log)
      ensures slot in old(bindings) && old(bindingPresenceInFlight) ==>
                && bindings == old(bindings) - {slot}
                && log == old(log) + [SlotUnbound(slot), Rebuilt(depth, true)]
      ensures slot in old(bindings) && !old(bindingPresenceInFlight) ==>
                var b := old(bindings) - {slot};
                && Happened(world, b, o, old(now)) && o.ended <= now
                && bindings == Left(world, b, o)
                && log == old(log) + [SlotUnbound(slot)] + Trace(world, b, o, labels, depth)
      decreases if bindingPresenceInFlight then 0 else 1 + |bindings - {slot}|, 2, 1
    {
      o := Outcome(now, map[], [], now);
      if slot !in bindings { return; }
      bindings := bindings - {slot};
      log := log + [SlotUnbound(slot)];
      o := Rebuild(depth);
    }

    method TakeOver(slot: SlotId, conn: ConnId) returns (current: Bindings)
      requires OneSlotEach(bindings)
      ensures current == Bound(bindings, slot, conn) && OneSlotEach(current)
    {
      BoundKeepsOneSlotEach(bindings, slot, conn);
      current := bindings;
      if prior :| prior in current && current[prior] == conn && prior != slot {
        TakenFromOne(current, slot, conn, prior);
        current := current - {prior};
      } else {
        TakenFromNobody(current, slot, conn);
      }
      current := current[slot := conn];
    }

    /** ConnectionHub::bind, which takes the connection from a slot that has it: within a pass, and on the user's
        own bind, which settles the bindings too. */
    method HubBind(slot: SlotId, conn: ConnId, ghost depth: nat) returns (ghost o: Outcome)
      requires OneSlotEach(bindings)
      modifies this
      ensures OneSlotEach(bindings) && bindingPresenceInFlight == old(bindingPresenceInFlight) && old(now) <= now
      ensures old(bindingPresenceInFlight) ==>
                && bindings == Bound(old(bindings), slot, conn)
                && log == old(log) + [SlotBound(slot, conn), Rebuilt(depth, true)]
      ensures !old(bindingPresenceInFlight) ==>
                var b := Bound(old(bindings), slot, conn);
                && Happened(world, b, o, old(now)) && o.ended <= now
                && bindings == Left(world, b, o)
                && log == old(log) + [SlotBound(slot, conn)] + Trace(world, b, o, labels, depth)
      decreases if bindingPresenceInFlight then 0 else 1 + |Bound(bindings, slot, conn)|, 2, 1
    {
      bindings := TakeOver(slot, conn);
      log := log + [SlotBound(slot, conn)];
      o := Rebuild(depth);
    }
  }
}

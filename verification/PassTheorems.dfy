/** What holds of every rebuild however the world moves, and what more holds while it stands still. */
module PassTheorems {
  import opened Basics
  import opened BindingPresence
  import opened SlotAssembly
  import opened Passes

  // ----- counting events -----

  /** How often a slot is unbound. */
  function Drops(events: seq<Event>, slot: SlotId): nat {
    if events == [] then 0
    else Drops(events[1..], slot) + if events[0] == SlotUnbound(slot) then 1 else 0
  }

  function Toasts(events: seq<Event>): nat {
    if events == [] then 0
    else Toasts(events[1..]) + if events[0].Toast? then 1 else 0
  }

  lemma {:induction false} CountsAdd(a: seq<Event>, b: seq<Event>, slot: SlotId)
    ensures Drops(a + b, slot) == Drops(a, slot) + Drops(b, slot)
    ensures Toasts(a + b) == Toasts(a) + Toasts(b)
    decreases a
  {
    if a == [] {
      assert a + b == b;
    } else {
      assert (a + b)[1..] == a[1..] + b;
      CountsAdd(a[1..], b, slot);
    }
  }

  /** Under the guard: no toast, every rebuild one level down and guarded. */
  ghost predicate AllGuarded(events: seq<Event>, depth: nat) {
    forall i :: 0 <= i < |events| ==> !events[i].Toast? && (events[i].Rebuilt? ==> events[i] == Rebuilt(depth, true))
  }

  ghost predicate DistinctSources(actions: seq<Action>) {
    forall i, j :: 0 <= i < j < |actions| ==> actions[i].slotId != actions[j].slotId
  }

  lemma {:induction false} ActionsAreGuarded(actions: seq<Action>, depth: nat)
    ensures AllGuarded(ApplyEvents(actions, depth), depth)
    decreases actions
  {
    if actions != [] { ActionsAreGuarded(actions[..|actions| - 1], depth); }
  }

  lemma {:induction false} GuardedHasNoToast(events: seq<Event>, depth: nat)
    requires AllGuarded(events, depth)
    ensures Toasts(events) == 0
    decreases events
  {
    if events != [] { GuardedHasNoToast(events[1..], depth); }
  }

  lemma OneEventDrops(e: Event, slot: SlotId)
    ensures Drops([e], slot) == if e == SlotUnbound(slot) then 1 else 0
  {
    assert [e][1..] == [];
  }

  lemma ActionUnbindsOnce(action: Action, depth: nat, slot: SlotId)
    ensures Drops(ActionEvents(action, depth), slot) == if action.slotId == slot then 1 else 0
  {
    var head, last := [SlotUnbound(action.slotId)], [Rebuilt(depth, true)];
    OneEventDrops(head[0], slot);
    OneEventDrops(last[0], slot);
    CountsAdd(head, last, slot);
    if action.Migrate? {
      var carried := [SwitchesCarried(action.slotId, action.toSlotId)];
      var bound := [SlotBound(action.toSlotId, action.connId)];
      OneEventDrops(carried[0], slot);
      OneEventDrops(bound[0], slot);
      CountsAdd(carried, bound, slot);
      CountsAdd(carried + bound, last, slot);
      CountsAdd(head + last, carried + bound + last, slot);
      assert ActionEvents(action, depth) == (head + last) + (carried + bound + last);
    } else {
      assert ActionEvents(action, depth) == head + last;
    }
  }

  lemma {:induction false} ActionsApplyOnce(actions: seq<Action>, depth: nat, slot: SlotId)
    requires DistinctSources(actions)
    ensures Drops(ApplyEvents(actions, depth), slot) == if LeavesFrom(actions, slot) then 1 else 0
    decreases actions
  {
    if actions != [] {
      var n := |actions| - 1;
      var front, last := actions[..n], actions[n];
      assert actions == front + [last];
      LeavesFromOneMore(front, last, slot);
      ActionsApplyOnce(front, depth, slot);
      ActionUnbindsOnce(last, depth, slot);
      CountsAdd(ApplyEvents(front, depth), ActionEvents(last, depth), slot);
    }
  }

  // ----- however the world moves -----

  /** Toasts go out with the guard clear only, and rebuilds nest between these depths. */
  ghost predicate Tame(events: seq<Event>, low: nat, high: nat) {
    forall i :: 0 <= i < |events| ==>
      && (events[i].Toast? ==> !events[i].guarded)
      && (events[i].Rebuilt? ==> low <= events[i].depth <= high)
  }

  lemma GuardedIsTame(events: seq<Event>, depth: nat, low: nat, high: nat)
    requires AllGuarded(events, depth) && low <= depth <= high
    ensures Tame(events, low, high)
  {
  }

  lemma TameAdds(a: seq<Event>, b: seq<Event>, low: nat, high: nat)
    requires Tame(a, low, high) && Tame(b, low, high)
    ensures Tame(a + b, low, high)
  {
  }

  lemma PassIsTame(applied: seq<Event>, toasts: seq<Event>, depth: nat, low: nat, high: nat)
    requires AllGuarded(applied, depth + 1) && Tame(toasts, low, high) && low <= depth && depth + 1 <= high
    ensures Tame([Rebuilt(depth, false)] + (applied + toasts), low, high)
  {
    GuardedIsTame(applied, depth + 1, low, high);
    TameAdds(applied, toasts, low, high);
    TameAdds([Rebuilt(depth, false)], applied + toasts, low, high);
  }

  lemma {:induction false} TraceIsTame(world: World, b: Bindings, o: Outcome, labels: map<ConnId, string>, depth: nat,
                                       from: nat, low: nat, high: nat)
    requires OneSlotEach(b) && Happened(world, b, o, from) && low <= depth && depth + 1 + |b| <= high
    ensures Tame(Trace(world, b, o, labels, depth), low, high)
    decreases o, 1
  {
    var scene := SceneOf(world, o);
    var actions, settled := ActionsFor(scene, b), Settled(scene, b);
    PassShrinks(scene, b);
    ActionsAreGuarded(actions, depth + 1);
    ToastsAreTame(world, settled, Notices(actions, labels), o.heard, labels, depth + 1, o.began + 2, low, high);
    PassIsTame(ApplyEvents(actions, depth + 1),
               ToastTrace(world, settled, Notices(actions, labels), o.heard, labels, depth + 1), depth, low, high);
  }

  lemma {:induction false} ToastsAreTame(world: World, b: Bindings, notices: seq<string>, os: seq<Outcome>,
                                         labels: map<ConnId, string>, depth: nat, from: nat, low: nat, high: nat)
    requires OneSlotEach(b) && AllHappened(world, b, os, from) && |notices| == |os|
    requires os != [] ==> low <= depth && depth + 1 + |b| <= high
    ensures Tame(ToastTrace(world, b, notices, os, labels, depth), low, high)
    decreases os, 0
  {
    if os != [] {
      var n := |os| - 1;
      var left := LeftAll(world, b, os[..n]);
      AllUnbindsCount(world, b, os[..n]);
      ToastsAreTame(world, b, notices[..n], os[..n], labels, depth, from, low, high);
      TraceIsTame(world, left, os[n], labels, depth, Over(os[..n], from), low, high);
      var front := ToastTrace(world, b, notices[..n], os[..n], labels, depth);
      TameAdds(front, [Toast(notices[n], false)], low, high);
      TameAdds(front + [Toast(notices[n], false)], Trace(world, left, os[n], labels, depth), low, high);
    }
  }

  lemma {:induction false} ToastsCount(world: World, b: Bindings, o: Outcome, labels: map<ConnId, string>, depth: nat,
                                       from: nat)
    requires Happened(world, b, o, from)
    ensures Toasts(Trace(world, b, o, labels, depth)) == Dropped(world, b, o)
    decreases o, 1
  {
    var scene := SceneOf(world, o);
    var actions, settled := ActionsFor(scene, b), Settled(scene, b);
    ActionsAreGuarded(actions, depth + 1);
    GuardedHasNoToast(ApplyEvents(actions, depth + 1), depth + 1);
    AllToastsCount(world, settled, Notices(actions, labels), o.heard, labels, depth + 1, o.began + 2);
    CountsAdd(ApplyEvents(actions, depth + 1),
              ToastTrace(world, settled, Notices(actions, labels), o.heard, labels, depth + 1), "");
    CountsAdd([Rebuilt(depth, false)], PassTrace(world, b, o, labels, depth), "");
  }

  lemma {:induction false} AllToastsCount(world: World, b: Bindings, notices: seq<string>, os: seq<Outcome>,
                                          labels: map<ConnId, string>, depth: nat, from: nat)
    requires AllHappened(world, b, os, from) && |notices| == |os|
    ensures Toasts(ToastTrace(world, b, notices, os, labels, depth)) == |os| + AllDropped(world, b, os)
    decreases os, 0
  {
    if os != [] {
      var n := |os| - 1;
      var left := LeftAll(world, b, os[..n]);
      AllToastsCount(world, b, notices[..n], os[..n], labels, depth, from);
      ToastsCount(world, left, os[n], labels, depth, Over(os[..n], from));
      var front, toast := ToastTrace(world, b, notices[..n], os[..n], labels, depth), [Toast(notices[n], false)];
      CountsAdd(front, toast, "");
      CountsAdd(front + toast, Trace(world, left, os[n], labels, depth), "");
    }
  }

  /** However the world moves: a rebuild and all its toasts set off send exactly one toast for each unbind, with the
      guard clear, never more than bindings were lost; and rebuilds nest one level deeper than there were bindings at
      most. */
  lemma RebuildsAreBounded(world: World, b: Bindings, o: Outcome, labels: map<ConnId, string>, depth: nat, from: nat)
    requires OneSlotEach(b) && Happened(world, b, o, from)
    ensures var events := Trace(world, b, o, labels, depth);
            && Toasts(events) == Dropped(world, b, o) <= |b| - |Left(world, b, o)|
            && Tame(events, depth, depth + 1 + |b|)
  {
    EveryUnbindCounts(world, b, o);
    ToastsCount(world, b, o, labels, depth, from);
    TraceIsTame(world, b, o, labels, depth, from, depth, depth + 1 + |b|);
  }

  /** Its own pass: first each binding whose slot is not on screen is dropped once, all of it under the guard; the
      toasts follow over the plain fold of those actions, one for each unbind. */
  lemma PassIsOrderly(world: World, b: Bindings, o: Outcome, labels: map<ConnId, string>, depth: nat, from: nat,
                      slot: SlotId)
    requires OneSlotEach(b) && Happened(world, b, o, from)
    ensures var scene := SceneOf(world, o);
            var actions := ActionsFor(scene, b);
            var applied := ApplyEvents(actions, depth + 1);
            && Applicable(b, actions) && |o.heard| == Unbinds(actions)
            && AllGuarded(applied, depth + 1)
            && Drops(applied, slot) == (if slot in b && slot !in PresentIds(scene.pads) then 1 else 0)
            && Trace(world, b, o, labels, depth) == [Rebuilt(depth, false)] + (applied
                 + ToastTrace(world, Fold(b, actions), Notices(actions, labels), o.heard, labels, depth + 1))
  {
    var scene := SceneOf(world, o);
    ActionsResolve(scene, b);
    ActionsAreGuarded(ActionsFor(scene, b), depth + 1);
    ActionsApplyOnce(ActionsFor(scene, b), depth + 1, slot);
  }

  // ----- while it stands still -----

  predicate Still(world: World, look: Look, from: nat, till: nat) {
    forall n :: from <= n < till ==> world(n) == look
  }

  /** The toasts of a pass, each answered by one rebuild that does nothing. */
  function IdleToasts(notices: seq<string>, depth: nat): seq<Event> {
    if notices == [] then []
    else IdleToasts(notices[..|notices| - 1], depth) + [Toast(notices[|notices| - 1], false), Rebuilt(depth, false)]
  }

  lemma SettledStays(world: World, look: Look, settled: Bindings, o: Outcome, from: nat, labels: map<ConnId, string>,
                     depth: nat)
    requires Happened(world, settled, o, from) && Still(world, look, from, o.ended)
    requires settled.Keys <= PresentIds(Pads(look.controllers, look.devices))
    ensures Left(world, settled, o) == settled && Trace(world, settled, o, labels, depth) == [Rebuilt(depth, false)]
  {
    var scene := SceneOf(world, o);
    WalkOfShown(scene.pads, RowsOf(scene, settled), settled.Keys);
    assert ActionsFor(scene, settled) == [];
    IdlePass(world, settled, o, labels, depth);
  }

  lemma {:induction false} ListenersLeaveAll(world: World, look: Look, settled: Bindings, os: seq<Outcome>, from: nat)
    requires AllHappened(world, settled, os, from) && Still(world, look, from, Over(os, from))
    requires settled.Keys <= PresentIds(Pads(look.controllers, look.devices))
    ensures from <= Over(os, from) && LeftAll(world, settled, os) == settled
    decreases os
  {
    if os != [] {
      var n := |os| - 1;
      ListenersLeaveAll(world, look, settled, os[..n], from);
      SettledStays(world, look, settled, os[n], Over(os[..n], from), map[], 0);
    }
  }

  /** The last listener, after ones that were idle. */
  lemma LastIsIdle(world: World, look: Look, settled: Bindings, notices: seq<string>, os: seq<Outcome>, from: nat,
                   labels: map<ConnId, string>, depth: nat)
    requires os != [] && |notices| == |os| && LeftAll(world, settled, os[..|os| - 1]) == settled
    requires Happened(world, settled, os[|os| - 1], from) && Still(world, look, from, os[|os| - 1].ended)
    requires settled.Keys <= PresentIds(Pads(look.controllers, look.devices))
    requires ToastTrace(world, settled, notices[..|os| - 1], os[..|os| - 1], labels, depth) ==
             IdleToasts(notices[..|os| - 1], depth)
    ensures ToastTrace(world, settled, notices, os, labels, depth) == IdleToasts(notices, depth)
  {
    SettledStays(world, look, settled, os[|os| - 1], from, labels, depth);
  }

  lemma {:induction false} ListenersAreIdle(world: World, look: Look, settled: Bindings, notices: seq<string>,
                                            os: seq<Outcome>, from: nat, labels: map<ConnId, string>, depth: nat)
    requires AllHappened(world, settled, os, from) && |notices| == |os| && Still(world, look, from, Over(os, from))
    requires settled.Keys <= PresentIds(Pads(look.controllers, look.devices))
    ensures ToastTrace(world, settled, notices, os, labels, depth) == IdleToasts(notices, depth)
    decreases |os|
  {
    if os != [] {
      var n := |os| - 1;
      ListenersLeaveAll(world, look, settled, os[..n], from);
      ListenersAreIdle(world, look, settled, notices[..n], os[..n], from, labels, depth);
      LastIsIdle(world, look, settled, notices, os, Over(os[..n], from), labels, depth);
    }
  }

  lemma SettledIsShown(scene: Scene, b: Bindings)
    requires OneSlotEach(b)
    ensures Settled(scene, b).Keys <= PresentIds(scene.pads)
  {
    forall slot | slot in Settled(scene, b) ensures slot in PresentIds(scene.pads) {
      SettledClosed(scene, b, slot);
    }
  }

  /** While every look answers the same, a rebuild is its own pass: the bindings are settled. */
  lemma StillWorldSettlesAtOnce(world: World, look: Look, b: Bindings, o: Outcome, from: nat)
    requires OneSlotEach(b) && Happened(world, b, o, from) && Still(world, look, from, o.ended)
    ensures Left(world, b, o) == Settled(SceneOf(world, o), b)
  {
    SettledIsShown(SceneOf(world, o), b);
    ListenersLeaveAll(world, look, Settled(SceneOf(world, o), b), o.heard, o.began + 2);
  }

  /** And each listener's rebuild finds nothing to do. */
  lemma StillWorldIsIdleAfterwards(world: World, look: Look, b: Bindings, o: Outcome, labels: map<ConnId, string>,
                                   depth: nat, from: nat)
    requires OneSlotEach(b) && Happened(world, b, o, from) && Still(world, look, from, o.ended)
    ensures var actions := ActionsFor(SceneOf(world, o), b);
            PassTrace(world, b, o, labels, depth) ==
            ApplyEvents(actions, depth + 1) + IdleToasts(Notices(actions, labels), depth + 1)
  {
    var scene := SceneOf(world, o);
    SettledIsShown(scene, b);
    ListenersAreIdle(world, look, Settled(scene, b), Notices(ActionsFor(scene, b), labels), o.heard, o.began + 2,
                     labels, depth + 1);
  }
}

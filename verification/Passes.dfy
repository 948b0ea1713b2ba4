/**
 What a rebuild comes to when the world moves under it. Every look at the USB manager's controllers and at SDL's
 devices may answer something else; a rebuild looks once for its screen and once more for each binding, and a
 toast's listener may rebuild again.
 */
module Passes {
  import opened Basics
  import opened BindingPresence
  import opened SlotAssembly
  import opened UsbControllers

  datatype Look = Look(controllers: seq<Controller>, devices: seq<SdlDevice>)

  // What a look at each moment answers.
  type World = nat -> Look

  datatype Event =
    | Rebuilt(depth: nat, guarded: bool)
    | SlotUnbound(slot: SlotId)
    | SwitchesCarried(slot: SlotId, toSlot: SlotId)
    | SlotBound(slot: SlotId, conn: ConnId)
    | Toast(satellite: string, guarded: bool)

  // One unguarded rebuild: when it looked for the screen and for each binding, what the listeners of its toasts
  // rebuilt, and when it was over.
  datatype Outcome = Outcome(began: nat, times: map<SlotId, nat>, heard: seq<Outcome>, ended: nat)

  // ----- what it did to the bindings -----

  /** The screen takes two looks, one at the controllers and one at the devices. */
  function ScreenAt(world: World, began: nat): seq<PresentSlot> {
    Pads(world(began).controllers, world(began + 1).devices)
  }

  function SceneAt(world: World, began: nat, times: map<SlotId, nat>): Scene {
    Scene(ScreenAt(world, began), map id | id in times :: Slots(world(times[id]).devices))
  }

  function SceneOf(world: World, o: Outcome): Scene {
    SceneAt(world, o.began, o.times)
  }

  ghost function Left(world: World, b: Bindings, o: Outcome): Bindings
    decreases o
  {
    LeftAll(world, Settled(SceneOf(world, o), b), o.heard)
  }

  ghost function LeftAll(world: World, b: Bindings, os: seq<Outcome>): Bindings
    decreases os
  {
    if os == [] then b else Left(world, LeftAll(world, b, os[..|os| - 1]), os[|os| - 1])
  }

  /** When the outcomes of a list are over. */
  function Over(os: seq<Outcome>, from: nat): nat {
    if os == [] then from else os[|os| - 1].ended
  }

  /** Its looks lie within it, one for each binding. */
  predicate Looked(b: Bindings, o: Outcome, from: nat) {
    && from <= o.began && o.began + 2 <= o.ended && o.times.Keys == b.Keys
    && forall id :: id in o.times ==> o.began + 2 <= o.times[id] < o.ended
  }

  /** One listener was heard for each unbind, over what was left before it. */
  ghost predicate Heard(world: World, settled: Bindings, unbinds: nat, o: Outcome, start: nat)
    decreases o, 0
  {
    |o.heard| == unbinds && AllHappened(world, settled, o.heard, start) && Over(o.heard, start) <= o.ended
  }

  /** The outcome is one the world allows. */
  ghost predicate Happened(world: World, b: Bindings, o: Outcome, from: nat)
    decreases o, 1
  {
    var scene := SceneOf(world, o);
    Looked(b, o, from) && Heard(world, Settled(scene, b), Unbinds(ActionsFor(scene, b)), o, o.began + 2)
  }

  ghost predicate AllHappened(world: World, b: Bindings, os: seq<Outcome>, from: nat)
    decreases os
  {
    os == [] ||
    var n := |os| - 1;
    && AllHappened(world, b, os[..n], from)
    && Happened(world, LeftAll(world, b, os[..n]), os[n], Over(os[..n], from))
  }

  // ----- what it was observed to do -----

  function ActionEvents(action: Action, depth: nat): seq<Event> {
    [SlotUnbound(action.slotId), Rebuilt(depth, true)]
    + match action
      case Unbind(_, _) => []
      case Migrate(slot, to, conn) => [SwitchesCarried(slot, to), SlotBound(to, conn), Rebuilt(depth, true)]
  }

  function ApplyEvents(actions: seq<Action>, depth: nat): seq<Event> {
    if actions == [] then []
    else ApplyEvents(actions[..|actions| - 1], depth) + ActionEvents(actions[|actions| - 1], depth)
  }

  /** The satellites named in the notices, one an unbind, in order. */
  function Notices(actions: seq<Action>, labels: map<ConnId, string>): (notices: seq<string>)
    ensures |notices| == Unbinds(actions)
  {
    if actions == [] then []
    else
      var last := actions[|actions| - 1];
      Notices(actions[..|actions| - 1], labels)
      + if last.Unbind? then [if last.connId in labels then labels[last.connId] else ""] else []
  }

  /** The rebuild itself, the actions under the guard, and then each toast with what its listener rebuilt. */
  ghost function Trace(world: World, b: Bindings, o: Outcome, labels: map<ConnId, string>, depth: nat): seq<Event>
    decreases o
  {
    [Rebuilt(depth, false)] + PassTrace(world, b, o, labels, depth)
  }

  ghost function PassTrace(world: World, b: Bindings, o: Outcome, labels: map<ConnId, string>, depth: nat): seq<Event>
    decreases o, 0
  {
    var scene := SceneOf(world, o);
    var actions := ActionsFor(scene, b);
    ApplyEvents(actions, depth + 1)
    + ToastTrace(world, Settled(scene, b), Notices(actions, labels), o.heard, labels, depth + 1)
  }

  ghost function ToastTrace(world: World, b: Bindings, notices: seq<string>, os: seq<Outcome>,
                            labels: map<ConnId, string>, depth: nat): seq<Event>
    decreases os, 1
  {
    if os == [] || notices == [] then []
    else
      var n, m := |os| - 1, |notices| - 1;
      ToastTrace(world, b, notices[..m], os[..n], labels, depth)
      + [Toast(notices[m], false)]
      + Trace(world, LeftAll(world, b, os[..n]), os[n], labels, depth)
  }

  // ----- the bindings stay one slot a connection, and only shrink -----

  ghost function Dropped(world: World, b: Bindings, o: Outcome): nat
    decreases o
  {
    var scene := SceneOf(world, o);
    Unbinds(ActionsFor(scene, b)) + AllDropped(world, Settled(scene, b), o.heard)
  }

  ghost function AllDropped(world: World, b: Bindings, os: seq<Outcome>): nat
    decreases os
  {
    if os == [] then 0
    else
      var n := |os| - 1;
      AllDropped(world, b, os[..n]) + Dropped(world, LeftAll(world, b, os[..n]), os[n])
  }

  lemma PassShrinks(scene: Scene, b: Bindings)
    requires OneSlotEach(b)
    ensures OneSlotEach(Settled(scene, b))
    ensures |Settled(scene, b)| + Unbinds(ActionsFor(scene, b)) <= |b|
  {
    ActionsResolve(scene, b);
    FoldShrinks(b, ActionsFor(scene, b));
    FoldKeepsOneSlotEach(b, ActionsFor(scene, b));
  }

  /** However the world moves, every unbind of a rebuild and of all that its toasts set off leaves a binding fewer. */
  lemma {:induction false} EveryUnbindCounts(world: World, b: Bindings, o: Outcome)
    requires OneSlotEach(b)
    ensures OneSlotEach(Left(world, b, o))
    ensures |Left(world, b, o)| + Dropped(world, b, o) <= |b|
    decreases o
  {
    PassShrinks(SceneOf(world, o), b);
    AllUnbindsCount(world, Settled(SceneOf(world, o), b), o.heard);
  }

  lemma {:induction false} AllUnbindsCount(world: World, b: Bindings, os: seq<Outcome>)
    requires OneSlotEach(b)
    ensures OneSlotEach(LeftAll(world, b, os))
    ensures |LeftAll(world, b, os)| + AllDropped(world, b, os) <= |b|
    decreases os
  {
    if os != [] {
      var n := |os| - 1;
      AllUnbindsCount(world, b, os[..n]);
      EveryUnbindCounts(world, LeftAll(world, b, os[..n]), os[n]);
    }
  }

  // ----- one more of each -----

  lemma OneMoreAction(b: Bindings, actions: seq<Action>, labels: map<ConnId, string>, depth: nat, i: nat,
                      log: seq<Event>)
    requires i < |actions|
    ensures Fold(b, actions[..i + 1]) == Done(Fold(b, actions[..i]), actions[i])
    ensures Notices(actions[..i + 1], labels) == Notices(actions[..i], labels)
              + if actions[i].Unbind?
                then [if actions[i].connId in labels then labels[actions[i].connId] else ""] else []
    ensures log + ApplyEvents(actions[..i + 1], depth) ==
            (log + ApplyEvents(actions[..i], depth)) + ActionEvents(actions[i], depth)
  {
    assert actions[..i + 1][..i] == actions[..i];
  }

  lemma HappenedEarlier(world: World, b: Bindings, o: Outcome, from: nat, later: nat)
    requires from <= later && Happened(world, b, o, later)
    ensures Happened(world, b, o, from)
  {
  }

  lemma {:induction false} AllHappenedEarlier(world: World, b: Bindings, os: seq<Outcome>, from: nat, later: nat)
    requires from <= later && AllHappened(world, b, os, later)
    ensures AllHappened(world, b, os, from)
    decreases os
  {
    if os != [] {
      var n := |os| - 1;
      AllHappenedEarlier(world, b, os[..n], from, later);
      if n == 0 { HappenedEarlier(world, LeftAll(world, b, os[..n]), os[n], from, later); }
    }
  }

  lemma OneMoreHeard(world: World, b: Bindings, heard: seq<Outcome>, o: Outcome, from: nat, now: nat)
    requires AllHappened(world, b, heard, from) && Over(heard, from) <= now
    requires Happened(world, LeftAll(world, b, heard), o, now)
    ensures AllHappened(world, b, heard + [o], from) && Over(heard + [o], from) == o.ended
    ensures LeftAll(world, b, heard + [o]) == Left(world, LeftAll(world, b, heard), o)
  {
    assert (heard + [o])[..|heard|] == heard;
    HappenedEarlier(world, LeftAll(world, b, heard), o, Over(heard, from), now);
  }

  lemma ToastTraceUnfolds(world: World, b: Bindings, told: seq<string>, os: seq<Outcome>,
                          labels: map<ConnId, string>, depth: nat, notice: string, o: Outcome)
    ensures ToastTrace(world, b, told + [notice], os + [o], labels, depth) ==
            ToastTrace(world, b, told, os, labels, depth) + [Toast(notice, false)]
            + Trace(world, LeftAll(world, b, os), o, labels, depth)
  {
    assert (os + [o])[..|os|] == os && (told + [notice])[..|told|] == told;
  }

  lemma Grown(log: seq<Event>, whole: seq<Event>, a: seq<Event>, b: seq<Event>, c: seq<Event>)
    requires whole == a + b + c
    ensures log + whole == (log + a + b) + c
  {
  }

  lemma OneMoreToast(world: World, b: Bindings, told: seq<string>, notice: string, os: seq<Outcome>, o: Outcome,
                     labels: map<ConnId, string>, depth: nat, log: seq<Event>)
    ensures log + ToastTrace(world, b, told + [notice], os + [o], labels, depth) ==
            (log + ToastTrace(world, b, told, os, labels, depth) + [Toast(notice, false)])
            + Trace(world, LeftAll(world, b, os), o, labels, depth)
  {
    ToastTraceUnfolds(world, b, told, os, labels, depth, notice, o);
    Grown(log, ToastTrace(world, b, told + [notice], os + [o], labels, depth),
          ToastTrace(world, b, told, os, labels, depth), [Toast(notice, false)],
          Trace(world, LeftAll(world, b, os), o, labels, depth));
  }

  /** The toasts of some notices are out: their listeners left b' and the log log', and are over by now. */
  ghost predicate Told(world: World, b: Bindings, notices: seq<string>, heard: seq<Outcome>,
                       labels: map<ConnId, string>, depth: nat, start: nat, log: seq<Event>,
                       b': Bindings, now: nat, log': seq<Event>) {
    && |heard| == |notices| && AllHappened(world, b, heard, start) && Over(heard, start) <= now
    && b' == LeftAll(world, b, heard)
    && log' == log + ToastTrace(world, b, notices, heard, labels, depth)
  }

  lemma NoneTold(world: World, b: Bindings, labels: map<ConnId, string>, depth: nat, start: nat, log: seq<Event>)
    ensures Told(world, b, [], [], labels, depth, start, log, b, start, log)
  {
  }

  lemma OneMoreTold(world: World, b: Bindings, told: seq<string>, heard: seq<Outcome>, labels: map<ConnId, string>,
                    depth: nat, start: nat, log: seq<Event>, b': Bindings, before: nat, log': seq<Event>,
                    notice: string, o: Outcome, now: nat)
    requires Told(world, b, told, heard, labels, depth, start, log, b', before, log')
    requires Happened(world, b', o, before) && o.ended <= now
    ensures Told(world, b, told + [notice], heard + [o], labels, depth, start, log, Left(world, b', o), now,
                 log' + [Toast(notice, false)] + Trace(world, b', o, labels, depth))
  {
    OneMoreHeard(world, b, heard, o, start, before);
    OneMoreToast(world, b, told, notice, heard, o, labels, depth, log);
  }

  lemma TraceFollows(world: World, b: Bindings, o: Outcome, labels: map<ConnId, string>, depth: nat, log: seq<Event>)
    ensures log + Trace(world, b, o, labels, depth) ==
            (log + [Rebuilt(depth, false)]) + PassTrace(world, b, o, labels, depth)
  {
  }

  lemma PassTraceFollows(world: World, b: Bindings, o: Outcome, labels: map<ConnId, string>, depth: nat,
                         log: seq<Event>)
    ensures var scene := SceneOf(world, o);
            var actions := ActionsFor(scene, b);
            log + PassTrace(world, b, o, labels, depth) ==
            (log + ApplyEvents(actions, depth + 1))
            + ToastTrace(world, Settled(scene, b), Notices(actions, labels), o.heard, labels, depth + 1)
  {
  }

  /** A pass that found nothing to do. */
  lemma IdlePass(world: World, b: Bindings, o: Outcome, labels: map<ConnId, string>, depth: nat)
    requires ActionsFor(SceneOf(world, o), b) == [] && o.heard == []
    ensures Left(world, b, o) == b && PassTrace(world, b, o, labels, depth) == []
  {
  }

  lemma HeardEarlier(world: World, settled: Bindings, unbinds: nat, o: Outcome, from: nat, start: nat)
    requires from <= start <= o.ended && Heard(world, settled, unbinds, o, start)
    ensures Heard(world, settled, unbinds, o, from)
  {
    AllHappenedEarlier(world, settled, o.heard, from, start);
  }

  lemma PassHappened(world: World, b: Bindings, o: Outcome, settled: Bindings, unbinds: nat, start: nat)
    requires Looked(b, o, o.began) && o.began + 2 <= start <= o.ended && Heard(world, settled, unbinds, o, start)
    requires settled == Settled(SceneOf(world, o), b) && unbinds == Unbinds(ActionsFor(SceneOf(world, o), b))
    ensures Happened(world, b, o, o.began)
  {
    HeardEarlier(world, settled, unbinds, o, o.began + 2, start);
  }

  /** The rows of the bindings looked up so far. */
  function RowsAt(world: World, began: nat, times: map<SlotId, nat>, b: Bindings): map<SlotId, BoundSlot>
    requires times.Keys <= b.Keys
  {
    map id | id in times :: RowFor(SceneAt(world, began, times), b, id)
  }

  lemma OneMoreRow(world: World, began: nat, times: map<SlotId, nat>, b: Bindings, id: SlotId, time: nat)
    requires times.Keys <= b.Keys && id in b && id !in times
    ensures RowsAt(world, began, times[id := time], b) ==
            RowsAt(world, began, times, b)[id := RowFor(SceneAt(world, began, map[id := time]), b, id)]
  {
  }

  /** The rows made so far, each from a look of its own. */
  ghost predicate Collected(world: World, began: nat, b: Bindings, rows: seq<BoundSlot>, times: map<SlotId, nat>,
                            from: nat, now: nat) {
    && times.Keys <= b.Keys && (forall id :: id in times ==> from <= times[id] < now)
    && BySlotId(rows) == RowsAt(world, began, times, b)
  }

  lemma NoneCollected(world: World, began: nat, b: Bindings, from: nat)
    ensures Collected(world, began, b, [], map[], from, from)
  {
  }

  lemma OneMoreCollected(world: World, began: nat, b: Bindings, rows: seq<BoundSlot>, times: map<SlotId, nat>,
                         from: nat, now: nat, id: SlotId, row: BoundSlot)
    requires from <= now && Collected(world, began, b, rows, times, from, now) && id in b && id !in times
    requires row == RowFor(SceneAt(world, began, map[id := now]), b, id)
    ensures Collected(world, began, b, [row] + rows, times[id := now], from, now + 1)
  {
    OneMoreRow(world, began, times, b, id, now);
    FirstRowWins(row, rows);
  }

  lemma AllCollected(world: World, began: nat, b: Bindings, rows: seq<BoundSlot>, times: map<SlotId, nat>,
                     from: nat, now: nat)
    requires Collected(world, began, b, rows, times, from, now) && times.Keys == b.Keys
    ensures BySlotId(rows) == RowsOf(SceneAt(world, began, times), b)
  {
  }
}

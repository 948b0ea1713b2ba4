/**
 Which bindings still have a pad behind them: the resolver, the hub's binding table, what a pass of
 the resolver's actions leaves of it, and which migrations keep their connection.
 */
module BindingPresence {
  import opened Basics
  import PackedKeys

  type Identity = (int, int)

  datatype PresentSlot = PresentSlot(id: SlotId, vendorId: int, productId: int)
  datatype BoundSlot = BoundSlot(slotId: SlotId, connId: ConnId, identity: Option<Identity>)
  datatype Action =
    | Unbind(slotId: SlotId, connId: ConnId)
    | Migrate(slotId: SlotId, toSlotId: SlotId, connId: ConnId)

  // ----- the resolver -----

  /** A (0, 0) identity is no identity. */
  function PadIdentityOf(identity: Option<Identity>): Option<Identity> {
    if identity == Some((0, 0)) then None else identity
  }

  function PresentIds(present: seq<PresentSlot>): set<SlotId> {
    set i | 0 <= i < |present| :: present[i].id
  }

  /** The rows by slot id; the first of two rows for one slot wins, as map::emplace keeps it. */
  function BySlotId(rows: seq<BoundSlot>): (m: map<SlotId, BoundSlot>)
    ensures forall id :: id in m ==> m[id].slotId == id
  {
    if rows == [] then map[] else BySlotId(rows[1..])[rows[0].slotId := rows[0]]
  }

  lemma FirstRowWins(row: BoundSlot, rows: seq<BoundSlot>)
    ensures BySlotId([row] + rows) == BySlotId(rows)[row.slotId := row]
  {
    assert ([row] + rows)[1..] == rows;
  }

  /** The first present slot of the same pad that carries no binding of its own. */
  function FreeTwin(present: seq<PresentSlot>, bound: set<SlotId>, pad: Identity): (twin: Option<SlotId>)
    ensures twin.Some? ==> twin.value in PresentIds(present) && twin.value !in bound
  {
    if present == [] then None
    else if (present[0].vendorId, present[0].productId) == pad && present[0].id !in bound then
      assert present[0].id in PresentIds(present);
      Some(present[0].id)
    else
      assert forall i :: 0 <= i < |present[1..]| ==> present[1..][i] == present[i + 1];
      FreeTwin(present[1..], bound, pad)
  }

  predicate Fits(slot: PresentSlot, bound: set<SlotId>, pad: Identity) {
    slot.vendorId == pad.0 && slot.productId == pad.1 && slot.id !in bound
  }

  ghost predicate FirstFit(present: seq<PresentSlot>, bound: set<SlotId>, pad: Identity, i: int) {
    0 <= i < |present| && Fits(present[i], bound, pad) && forall j :: 0 <= j < i ==> !Fits(present[j], bound, pad)
  }

  /** A twin has the pad's own ids and no binding, the first such in the caller's order; there is none only
      when no present slot is like that. */
  lemma {:induction false} FreeTwinIsTheFirstFit(present: seq<PresentSlot>, bound: set<SlotId>, pad: Identity)
    ensures var twin := FreeTwin(present, bound, pad);
            && (twin.None? <==> forall i :: 0 <= i < |present| ==> !Fits(present[i], bound, pad))
            && (twin.Some? ==> exists i :: FirstFit(present, bound, pad, i) && present[i].id == twin.value)
  {
    if present != [] {
      if Fits(present[0], bound, pad) {
        assert FirstFit(present, bound, pad, 0);
      } else {
        var rest := present[1..];
        FreeTwinIsTheFirstFit(rest, bound, pad);
        assert forall i :: 0 < i < |present| ==> present[i] == rest[i - 1];
        if FreeTwin(rest, bound, pad).Some? {
          var i :| FirstFit(rest, bound, pad, i) && rest[i].id == FreeTwin(rest, bound, pad).value;
          assert FirstFit(present, bound, pad, i + 1);
        }
      }
    }
  }

  /** The slots of one list are looked through before those of the next. */
  lemma {:induction false} FreeTwinAppend(a: seq<PresentSlot>, b: seq<PresentSlot>, bound: set<SlotId>, pad: Identity)
    ensures FreeTwin(a + b, bound, pad) ==
            if FreeTwin(a, bound, pad).Some? then FreeTwin(a, bound, pad) else FreeTwin(b, bound, pad)
    decreases a
  {
    if a == [] {
      assert a + b == b;
    } else {
      assert (a + b)[1..] == a[1..] + b;
      FreeTwinAppend(a[1..], b, bound, pad);
    }
  }

  function ActionFor(present: seq<PresentSlot>, bound: set<SlotId>, row: BoundSlot): Action {
    match PadIdentityOf(row.identity)
    case None => Unbind(row.slotId, row.connId)
    case Some(pad) =>
      match FreeTwin(present, bound, pad)
      case None => Unbind(row.slotId, row.connId)
      case Some(twin) => Migrate(row.slotId, twin, row.connId)
  }

  /** The actions for the slots in `left`, in slot order. */
  ghost function Walk(present: seq<PresentSlot>, rows: map<SlotId, BoundSlot>, left: set<SlotId>): seq<Action>
    requires left <= rows.Keys
    decreases |left|
  {
    if left == {} then []
    else
      var id := Least(left);
      (if id in PresentIds(present) then [] else [ActionFor(present, rows.Keys, rows[id])])
      + Walk(present, rows, left - {id})
  }

  ghost function Resolution(present: seq<PresentSlot>, rows: seq<BoundSlot>): seq<Action> {
    Walk(present, BySlotId(rows), BySlotId(rows).Keys)
  }

  lemma WalkStep(present: seq<PresentSlot>, rows: map<SlotId, BoundSlot>, left: set<SlotId>, id: SlotId,
                 out: seq<Action>)
    requires left <= rows.Keys && left != {} && IsLeast(id, left)
    ensures var head := if id in PresentIds(present) then [] else [ActionFor(present, rows.Keys, rows[id])];
            out + Walk(present, rows, left) == out + head + Walk(present, rows, left - {id})
  {
    BeforeIsTotal(id, Least(left));
  }

  method ResolveBindingPresence(present: seq<PresentSlot>, bindings: seq<BoundSlot>) returns (out: seq<Action>)
    ensures out == Resolution(present, bindings)
  {
    var rows := BySlotId(bindings);
    var left := rows.Keys;
    out := [];
    while left != {}
      invariant left <= rows.Keys
      invariant out + Walk(present, rows, left) == Resolution(present, bindings)
      decreases |left|
    {
      var id;
      id, out := ResolveNext(present, rows, left, out);
      left := left - {id};
    }
  }

  /** The loop's body: the next row of the ordered map, and its action if its slot departed. */
  method ResolveNext(present: seq<PresentSlot>, rows: map<SlotId, BoundSlot>, left: set<SlotId>, out: seq<Action>)
    returns (id: SlotId, longer: seq<Action>)
    requires left <= rows.Keys && left != {}
    ensures IsLeast(id, left)
    ensures longer + Walk(present, rows, left - {id}) == out + Walk(present, rows, left)
  {
    HasLeast(left);
    id :| id in left && IsLeast(id, left);
    WalkStep(present, rows, left, id, out);
    longer := if id in PresentIds(present) then out else out + [ActionFor(present, rows.Keys, rows[id])];
  }

  predicate LeavesFrom(actions: seq<Action>, slot: SlotId) {
    exists i :: 0 <= i < |actions| && actions[i].slotId == slot
  }

  ghost predicate Departed(present: seq<PresentSlot>, rows: map<SlotId, BoundSlot>, id: SlotId) {
    id in rows && id !in PresentIds(present)
  }

  /** One action for each departed slot and for nothing else, ordered by the departing slot. */
  ghost predicate IsResolution(present: seq<PresentSlot>, rows: map<SlotId, BoundSlot>, left: set<SlotId>,
                               actions: seq<Action>) {
    && (forall i :: 0 <= i < |actions| ==>
          actions[i].slotId in left && Departed(present, rows, actions[i].slotId)
          && actions[i] == ActionFor(present, rows.Keys, rows[actions[i].slotId]))
    && (forall id :: id in left && Departed(present, rows, id) ==> LeavesFrom(actions, id))
    && (forall i, j :: 0 <= i < j < |actions| ==> Before(actions[i].slotId, actions[j].slotId))
  }

  lemma {:induction false} WalkResolves(present: seq<PresentSlot>, rows: map<SlotId, BoundSlot>, left: set<SlotId>)
    requires left <= rows.Keys && forall id :: id in rows ==> rows[id].slotId == id
    ensures IsResolution(present, rows, left, Walk(present, rows, left))
    decreases |left|
  {
    if left != {} {
      var id := Least(left);
      WalkResolves(present, rows, left - {id});
      if id in PresentIds(present) {
        assert Walk(present, rows, left) == Walk(present, rows, left - {id});
      } else {
        ResolvesOneMore(present, rows, left, id, Walk(present, rows, left - {id}));
      }
    }
  }

  lemma ResolvesOneMore(present: seq<PresentSlot>, rows: map<SlotId, BoundSlot>, left: set<SlotId>, id: SlotId,
                        rest: seq<Action>)
    requires IsLeast(id, left) && Departed(present, rows, id) && rows[id].slotId == id
    requires IsResolution(present, rows, left - {id}, rest)
    ensures IsResolution(present, rows, left, [ActionFor(present, rows.Keys, rows[id])] + rest)
  {
    var actions := [ActionFor(present, rows.Keys, rows[id])] + rest;
    assert actions[0].slotId == id;
    assert forall i :: 0 < i < |actions| ==> actions[i] == rest[i - 1];
    forall other | other in left && Departed(present, rows, other) ensures LeavesFrom(actions, other) {
      if other != id {
        assert LeavesFrom(rest, other);
        var i :| 0 <= i < |rest| && rest[i].slotId == other;
        assert actions[i + 1].slotId == other;
      }
    }
  }

  // ----- the hub's table -----

  type Bindings = map<SlotId, ConnId>

  /** A connection is bound to one slot at most. */
  ghost predicate OneSlotEach(b: Bindings) {
    forall s, s' :: s in b && s' in b && b[s] == b[s'] ==> s == s'
  }

  /** A slot takes the connection over from whichever slot had it. */
  function Bound(b: Bindings, slot: SlotId, conn: ConnId): Bindings {
    (map s | s in b && b[s] != conn :: b[s])[slot := conn]
  }

  function Done(b: Bindings, action: Action): Bindings {
    match action
    case Unbind(slot, _) => b - {slot}
    case Migrate(slot, to, conn) => Bound(b - {slot}, to, conn)
  }

  /** The actions applied one after the other, with nothing in between. */
  function Fold(b: Bindings, actions: seq<Action>): Bindings {
    if actions == [] then b
    else Done(Fold(b, actions[..|actions| - 1]), actions[|actions| - 1])
  }

  lemma BoundKeepsOneSlotEach(b: Bindings, slot: SlotId, conn: ConnId)
    requires OneSlotEach(b)
    ensures OneSlotEach(Bound(b, slot, conn))
  {
  }

  lemma DoneKeepsOneSlotEach(b: Bindings, action: Action)
    requires OneSlotEach(b)
    ensures OneSlotEach(Done(b, action))
  {
    if action.Migrate? { BoundKeepsOneSlotEach(b - {action.slotId}, action.toSlotId, action.connId); }
  }

  /** Taking the connection from the one slot that has it, and giving it to another. */
  lemma TakenFromOne(b: Bindings, slot: SlotId, conn: ConnId, prior: SlotId)
    requires OneSlotEach(b) && prior in b && b[prior] == conn && prior != slot
    ensures (b - {prior})[slot := conn] == Bound(b, slot, conn)
  {
  }

  lemma TakenFromNobody(b: Bindings, slot: SlotId, conn: ConnId)
    requires forall s :: s in b && b[s] == conn ==> s == slot
    ensures b[slot := conn] == Bound(b, slot, conn)
  {
  }

  // ----- what the actions come to -----

  /** The connection the last migration onto a slot brings. */
  function LastTo(actions: seq<Action>, slot: SlotId): Option<ConnId> {
    if actions == [] then None
    else
      var last := actions[|actions| - 1];
      if last.Migrate? && last.toSlotId == slot then Some(last.connId)
      else LastTo(actions[..|actions| - 1], slot)
  }

  /** Every action drops a binding that stands, under the connection it has, each its own, and
      migrates it onto a slot that had none. */
  ghost predicate Applicable(b: Bindings, actions: seq<Action>) {
    && OneSlotEach(b)
    && (forall i :: 0 <= i < |actions| ==> actions[i].slotId in b && b[actions[i].slotId] == actions[i].connId)
    && (forall i, j :: 0 <= i < j < |actions| ==> actions[i].slotId != actions[j].slotId)
    && (forall i :: 0 <= i < |actions| && actions[i].Migrate? ==> actions[i].toSlotId !in b)
  }

  lemma {:induction false} LastToIsAMigration(actions: seq<Action>, slot: SlotId)
    ensures LastTo(actions, slot).Some? <==>
            exists i :: 0 <= i < |actions| && actions[i].Migrate? && actions[i].toSlotId == slot
    ensures LastTo(actions, slot).Some? ==>
              exists i :: 0 <= i < |actions|
                          && actions[i] == Migrate(actions[i].slotId, slot, LastTo(actions, slot).value)
    decreases actions
  {
    if actions != [] {
      var n := |actions| - 1;
      LastToIsAMigration(actions[..n], slot);
      if actions[n].Migrate? && actions[n].toSlotId == slot {
        assert actions[n] == Migrate(actions[n].slotId, slot, actions[n].connId);
      } else if LastTo(actions[..n], slot).Some? {
        var i :| 0 <= i < n
                 && actions[..n][i] == Migrate(actions[..n][i].slotId, slot, LastTo(actions[..n], slot).value);
        assert actions[i] == actions[..n][i];
      }
    }
  }

  lemma LeavesFromOneMore(front: seq<Action>, last: Action, slot: SlotId)
    ensures LeavesFrom(front + [last], slot) <==> LeavesFrom(front, slot) || last.slotId == slot
  {
    var actions := front + [last];
    if last.slotId == slot { assert actions[|front|].slotId == slot; }
    if LeavesFrom(front, slot) {
      var i :| 0 <= i < |front| && front[i].slotId == slot;
      assert actions[i].slotId == slot;
    }
  }

  /** The bindings in the end: what no action dropped, and under each target the connection of the
      last migration onto it. */
  lemma {:induction false} FoldClosed(b: Bindings, actions: seq<Action>, slot: SlotId)
    requires Applicable(b, actions)
    ensures slot in Fold(b, actions) <==> LastTo(actions, slot).Some? || (slot in b && !LeavesFrom(actions, slot))
    ensures slot in Fold(b, actions) ==>
              Fold(b, actions)[slot] == if LastTo(actions, slot).Some? then LastTo(actions, slot).value else b[slot]
    decreases actions
  {
    if actions != [] {
      var n := |actions| - 1;
      var front, last := actions[..n], actions[n];
      assert forall i :: 0 <= i < n ==> front[i] == actions[i];
      FoldClosed(b, front, slot);
      assert front + [last] == actions;
      LeavesFromOneMore(front, last, slot);
      NoTargetIsASource(b, actions, slot);
      if last.Migrate? && slot in Fold(b, front) && slot != last.slotId {
        MigrantsKeepApart(b, front, last, slot);
      }
    }
  }

  lemma NoTargetIsASource(b: Bindings, actions: seq<Action>, slot: SlotId)
    requires Applicable(b, actions)
    ensures LeavesFrom(actions, slot) ==> LastTo(actions, slot).None?
  {
    LastToIsAMigration(actions, slot);
  }

  /** Nobody else holds the connection the next migration carries. */
  lemma MigrantsKeepApart(b: Bindings, front: seq<Action>, last: Action, slot: SlotId)
    requires Applicable(b, front + [last]) && slot in Fold(b, front) && slot != last.slotId
    requires LastTo(front, slot).Some? || slot in b
    requires Fold(b, front)[slot] == if LastTo(front, slot).Some? then LastTo(front, slot).value else b[slot]
    ensures Fold(b, front)[slot] != last.connId
  {
    var all := front + [last];
    assert all[|front|] == last;
    if LastTo(front, slot).Some? {
      LastToIsAMigration(front, slot);
      var i :| 0 <= i < |front| && front[i] == Migrate(front[i].slotId, slot, LastTo(front, slot).value);
      assert all[i] == front[i];
    }
  }

  /** An action's binding still stands when its turn comes. */
  lemma StandsUntilItsTurn(b: Bindings, actions: seq<Action>, i: nat)
    requires Applicable(b, actions) && i < |actions|
    ensures actions[i].slotId in Fold(b, actions[..i])
  {
    var front := actions[..i];
    assert forall k :: 0 <= k < i ==> front[k] == actions[k];
    FoldClosed(b, front, actions[i].slotId);
  }

  function Unbinds(actions: seq<Action>): nat {
    if actions == [] then 0
    else Unbinds(actions[..|actions| - 1]) + if actions[|actions| - 1].Unbind? then 1 else 0
  }

  lemma DoneShrinks(b: Bindings, action: Action)
    requires action.slotId in b
    ensures |Done(b, action)| + (if action.Unbind? then 1 else 0) <= |b|
  {
    var left := b - {action.slotId};
    assert left.Keys == b.Keys - {action.slotId};
    assert |left.Keys| == |b.Keys| - 1;
    if action.Migrate? {
      var kept := map s | s in left && left[s] != action.connId :: left[s];
      assert kept.Keys <= left.Keys;
      Fewer(kept.Keys, left.Keys);
      assert Done(b, action).Keys == kept.Keys + {action.toSlotId};
      assert |Done(b, action).Keys| <= |kept.Keys| + 1;
    }
  }

  lemma {:induction false} Fewer(a: set<SlotId>, b: set<SlotId>)
    requires a <= b
    ensures |a| <= |b|
  {
    if a != {} {
      var x :| x in a;
      Fewer(a - {x}, b - {x});
    }
  }

  /** Every unbind leaves a binding fewer, and no migration adds one. */
  lemma {:induction false} FoldShrinks(b: Bindings, actions: seq<Action>)
    requires Applicable(b, actions)
    ensures |Fold(b, actions)| + Unbinds(actions) <= |b|
    decreases actions
  {
    if actions != [] {
      var n := |actions| - 1;
      assert forall k :: 0 <= k < n ==> actions[..n][k] == actions[k];
      FoldShrinks(b, actions[..n]);
      StandsUntilItsTurn(b, actions, n);
      DoneShrinks(Fold(b, actions[..n]), actions[n]);
    }
  }

  // ----- the pass over the standing bindings -----

  // What the enumerations show during a pass: the slots on screen, and for each bound slot the devices SDL
  // listed when its row was made, twins hidden by a claim included.
  datatype Scene = Scene(pads: seq<PresentSlot>, lists: map<SlotId, seq<PresentSlot>>) {
    function Listed(id: SlotId): seq<PresentSlot> {
      if id in lists then lists[id] else []
    }
  }

  function IdentityIn(slots: seq<PresentSlot>, id: SlotId): Option<Option<Identity>> {
    if slots == [] then None
    else if slots[0].id == id then Some(PadIdentityOf(Some((slots[0].vendorId, slots[0].productId))))
    else IdentityIn(slots[1..], id)
  }

  /** The pad behind a bound slot: as the screen shows it, as SDL lists it, or as its id packs it. */
  function BoundPadIdentity(scene: Scene, id: SlotId): Option<Identity> {
    match IdentityIn(scene.pads, id)
    case Some(Some(shown)) => Some(shown)
    case _ =>
      match IdentityIn(scene.Listed(id), id)
      case Some(listed) => listed
      case None => PadIdentityOf(PackedKeys.ParseSyntheticSlotId(id))
  }

  function RowFor(scene: Scene, b: Bindings, id: SlotId): BoundSlot
    requires id in b
  {
    BoundSlot(id, b[id], BoundPadIdentity(scene, id))
  }

  function RowsOf(scene: Scene, b: Bindings): (rows: map<SlotId, BoundSlot>)
    ensures rows.Keys == b.Keys
  {
    map id | id in b :: RowFor(scene, b, id)
  }

  ghost function ActionsFor(scene: Scene, b: Bindings): seq<Action> {
    Walk(scene.pads, RowsOf(scene, b), b.Keys)
  }

  ghost function Settled(scene: Scene, b: Bindings): Bindings {
    Fold(b, ActionsFor(scene, b))
  }

  lemma ActionsResolve(scene: Scene, b: Bindings)
    requires OneSlotEach(b)
    ensures IsResolution(scene.pads, RowsOf(scene, b), b.Keys, ActionsFor(scene, b))
    ensures Applicable(b, ActionsFor(scene, b))
    ensures forall id :: LeavesFrom(ActionsFor(scene, b), id) <==> id in b && id !in PresentIds(scene.pads)
  {
    var rows, actions := RowsOf(scene, b), ActionsFor(scene, b);
    WalkResolves(scene.pads, rows, b.Keys);
    forall i, j | 0 <= i < j < |actions| ensures actions[i].slotId != actions[j].slotId {
      BeforeIsTotal(actions[i].slotId, actions[j].slotId);
    }
    forall id | id in b && id !in PresentIds(scene.pads) ensures LeavesFrom(actions, id) {
      assert Departed(scene.pads, rows, id);
    }
  }

  lemma {:induction false} FoldKeepsOneSlotEach(b: Bindings, actions: seq<Action>)
    requires OneSlotEach(b)
    ensures OneSlotEach(Fold(b, actions))
    decreases actions
  {
    if actions != [] {
      FoldKeepsOneSlotEach(b, actions[..|actions| - 1]);
      DoneKeepsOneSlotEach(Fold(b, actions[..|actions| - 1]), actions[|actions| - 1]);
    }
  }

  /** The bindings a pass leaves: every slot still shown keeps its connection, and every free twin
      chosen has the connection of the last slot, in slot order, that moved onto it. */
  lemma SettledClosed(scene: Scene, b: Bindings, slot: SlotId)
    requires OneSlotEach(b)
    ensures OneSlotEach(Settled(scene, b))
    ensures var moved := LastTo(ActionsFor(scene, b), slot);
            var shown := slot in PresentIds(scene.pads);
            && (slot in Settled(scene, b) <==> shown && (slot in b || moved.Some?))
            && (slot in Settled(scene, b) ==> Settled(scene, b)[slot] == if slot in b then b[slot] else moved.value)
  {
    var actions := ActionsFor(scene, b);
    ActionsResolve(scene, b);
    FoldClosed(b, actions, slot);
    FoldKeepsOneSlotEach(b, actions);
    LastToIsAMigration(actions, slot);
    assert slot in b && slot !in PresentIds(scene.pads) ==> LeavesFrom(actions, slot);
  }

  /** A pass over what a pass left finds nothing to do while the screen stays the same. */
  lemma SettledIsSettled(scene: Scene, later: Scene, b: Bindings)
    requires OneSlotEach(b) && later.pads == scene.pads
    ensures ActionsFor(later, Settled(scene, b)) == []
  {
    var after := Settled(scene, b);
    forall slot | slot in after ensures slot in PresentIds(scene.pads) {
      SettledClosed(scene, b, slot);
    }
    WalkOfShown(later.pads, RowsOf(later, after), after.Keys);
  }

  lemma {:induction false} WalkOfShown(present: seq<PresentSlot>, rows: map<SlotId, BoundSlot>, left: set<SlotId>)
    requires left <= rows.Keys && left <= PresentIds(present)
    ensures Walk(present, rows, left) == []
    decreases |left|
  {
    if left != {} { WalkOfShown(present, rows, left - {Least(left)}); }
  }

  // ----- migrations that keep their connection, and the ones that do not -----

  /** The free twin a departed binding's pad shows now. */
  function TwinOf(scene: Scene, b: Bindings, id: SlotId): Option<SlotId>
    requires id in b
  {
    match PadIdentityOf(BoundPadIdentity(scene, id))
    case None => None
    case Some(pad) => FreeTwin(scene.pads, b.Keys, pad)
  }

  ghost predicate Moving(scene: Scene, b: Bindings, id: SlotId) {
    id in b && id !in PresentIds(scene.pads) && TwinOf(scene, b, id).Some?
  }

  /** Each action of a pass is about its slot's own connection: a move to the pad's free twin if it shows one, and else
      an unbind. */
  lemma ActionsNameTheirConnection(scene: Scene, b: Bindings, i: nat)
    requires OneSlotEach(b) && i < |ActionsFor(scene, b)|
    ensures var id := ActionsFor(scene, b)[i].slotId;
            && id in b && id !in PresentIds(scene.pads)
            && ActionsFor(scene, b)[i] == match TwinOf(scene, b, id)
                                          case None => Unbind(id, b[id])
                                          case Some(twin) => Migrate(id, twin, b[id])
  {
    ActionsResolve(scene, b);
  }

  lemma {:induction false} UnlistedHasNoIdentity(slots: seq<PresentSlot>, id: SlotId)
    requires id !in PresentIds(slots)
    ensures IdentityIn(slots, id).None?
  {
    if slots != [] {
      assert slots[0].id in PresentIds(slots);
      assert forall i :: 0 <= i < |slots| - 1 ==> slots[1..][i] == slots[i + 1];
      UnlistedHasNoIdentity(slots[1..], id);
    }
  }

  lemma {:induction false} ListedHasItsIdentity(slots: seq<PresentSlot>, i: nat)
    requires i < |slots| && forall j :: 0 <= j < i ==> slots[j].id != slots[i].id
    ensures IdentityIn(slots, slots[i].id) == Some(PadIdentityOf(Some((slots[i].vendorId, slots[i].productId))))
  {
    if i > 0 {
      assert forall j :: 0 <= j < |slots| - 1 ==> slots[1..][j] == slots[j + 1];
      ListedHasItsIdentity(slots[1..], i - 1);
    }
  }

  /** A claim hides a pad's twin, which SDL still lists: its binding looks for the pad's new slot by those ids. */
  lemma HiddenTwinLooksForItsPad(scene: Scene, b: Bindings, id: SlotId, i: nat)
    requires var list := scene.Listed(id);
             i < |list| && list[i].id == id && forall j :: 0 <= j < i ==> list[j].id != id
    requires id in b && id !in PresentIds(scene.pads)
    ensures var d := scene.Listed(id)[i];
            TwinOf(scene, b, id) ==
            if d.vendorId == 0 && d.productId == 0 then None
            else FreeTwin(scene.pads, b.Keys, (d.vendorId, d.productId))
  {
    UnlistedHasNoIdentity(scene.pads, id);
    ListedHasItsIdentity(scene.Listed(id), i);
  }

  /** A released claim leaves a synthetic slot nobody lists: its binding finds the pad again exactly for
      vendor ids below 0x8000, and is dropped for the others although the pad is there. */
  lemma ReleasedClaimLooksForItsPad(scene: Scene, b: Bindings, vendorId: int, productId: int)
    requires PackedKeys.Is16Bit(vendorId) && PackedKeys.Is16Bit(productId) && (vendorId != 0 || productId != 0)
    requires var id := PackedKeys.ToString(PackedKeys.Pack(vendorId, productId));
             id in b && id !in PresentIds(scene.pads) && id !in PresentIds(scene.Listed(id))
    ensures var id := PackedKeys.ToString(PackedKeys.Pack(vendorId, productId));
            TwinOf(scene, b, id) ==
            if vendorId < 0x8000 then FreeTwin(scene.pads, b.Keys, (vendorId, productId)) else None
  {
    var id := PackedKeys.ToString(PackedKeys.Pack(vendorId, productId));
    UnlistedHasNoIdentity(scene.pads, id);
    UnlistedHasNoIdentity(scene.Listed(id), id);
    PackedKeys.SyntheticIdRoundTrip(vendorId, productId);
  }

  /** The binding's slot left the screen, and the pad it was made for shows at place i, free. */
  ghost predicate ShownAt(scene: Scene, b: Bindings, id: SlotId, i: int) {
    && id in b && id !in PresentIds(scene.pads)
    && match PadIdentityOf(BoundPadIdentity(scene, id))
       case None => false
       case Some(pad) => FirstFit(scene.pads, b.Keys, pad, i)
  }

  /** Two departed bindings name pads whose first free slots are one. */
  ghost predicate Collide(scene: Scene, b: Bindings) {
    exists id, other, i, j ::
      && id != other && ShownAt(scene, b, id, i) && ShownAt(scene, b, other, j)
      && scene.pads[i].id == scene.pads[j].id
  }

  lemma TwinIsShown(scene: Scene, b: Bindings, id: SlotId)
    requires id in b && id !in PresentIds(scene.pads)
    ensures TwinOf(scene, b, id).Some? ==>
      exists i :: ShownAt(scene, b, id, i) && scene.pads[i].id == TwinOf(scene, b, id).value
    ensures forall i :: ShownAt(scene, b, id, i) ==> TwinOf(scene, b, id) == Some(scene.pads[i].id)
  {
    var pad := PadIdentityOf(BoundPadIdentity(scene, id));
    if pad.Some? {
      FreeTwinIsTheFirstFit(scene.pads, b.Keys, pad.value);
      if TwinOf(scene, b, id).Some? {
        var i :| FirstFit(scene.pads, b.Keys, pad.value, i)
                 && scene.pads[i].id == FreeTwin(scene.pads, b.Keys, pad.value).value;
        assert ShownAt(scene, b, id, i);
      }
    }
  }

  /** Every binding whose pad moved is on the pad's twin after the pass. */
  ghost predicate MovesKeepTheirConnection(scene: Scene, b: Bindings) {
    forall id :: Moving(scene, b, id) ==>
      var twin := TwinOf(scene, b, id).value;
      twin in Settled(scene, b) && Settled(scene, b)[twin] == b[id]
  }

  lemma MovingIsMigrated(scene: Scene, b: Bindings, id: SlotId) returns (i: nat)
    requires OneSlotEach(b) && Moving(scene, b, id)
    ensures i < |ActionsFor(scene, b)|
    ensures ActionsFor(scene, b)[i] == Migrate(id, TwinOf(scene, b, id).value, b[id])
  {
    var actions := ActionsFor(scene, b);
    ActionsResolve(scene, b);
    assert LeavesFrom(actions, id);
    i :| 0 <= i < |actions| && actions[i].slotId == id;
  }

  lemma MigratedIsMoving(scene: Scene, b: Bindings, i: nat)
    requires OneSlotEach(b) && i < |ActionsFor(scene, b)| && ActionsFor(scene, b)[i].Migrate?
    ensures var a := ActionsFor(scene, b)[i];
            Moving(scene, b, a.slotId) && TwinOf(scene, b, a.slotId) == Some(a.toSlotId) && b[a.slotId] == a.connId
  {
    ActionsResolve(scene, b);
  }

  lemma MovesOntoOneTwinCollide(scene: Scene, b: Bindings, id: SlotId, other: SlotId)
    requires Moving(scene, b, id) && Moving(scene, b, other) && id != other
    requires TwinOf(scene, b, id) == TwinOf(scene, b, other)
    ensures Collide(scene, b)
  {
    TwinIsShown(scene, b, id);
    TwinIsShown(scene, b, other);
    var i :| ShownAt(scene, b, id, i) && scene.pads[i].id == TwinOf(scene, b, id).value;
    var j :| ShownAt(scene, b, other, j) && scene.pads[j].id == TwinOf(scene, b, other).value;
  }

  lemma MoveKeepsItsConnection(scene: Scene, b: Bindings, id: SlotId)
    requires OneSlotEach(b) && Moving(scene, b, id) && !Collide(scene, b)
    ensures var twin := TwinOf(scene, b, id).value; twin in Settled(scene, b) && Settled(scene, b)[twin] == b[id]
  {
    var actions, twin := ActionsFor(scene, b), TwinOf(scene, b, id).value;
    var i := MovingIsMigrated(scene, b, id);
    LastToIsAMigration(actions, twin);
    var j :| 0 <= j < |actions| && actions[j] == Migrate(actions[j].slotId, twin, LastTo(actions, twin).value);
    MigratedIsMoving(scene, b, j);
    if actions[j].slotId != id { MovesOntoOneTwinCollide(scene, b, id, actions[j].slotId); }
    SettledClosed(scene, b, twin);
  }

  /** In any scene at all, every migration keeps its connection exactly when the pads of no two departed bindings
      have the same first free slot. */
  lemma MovesKeepTheirConnectionUnlessTheyCollide(scene: Scene, b: Bindings)
    requires OneSlotEach(b)
    ensures MovesKeepTheirConnection(scene, b) <==> !Collide(scene, b)
  {
    if Collide(scene, b) {
      var id, other, i, j :| id != other && ShownAt(scene, b, id, i) && ShownAt(scene, b, other, j)
                             && scene.pads[i].id == scene.pads[j].id;
      TwinIsShown(scene, b, id);
      TwinIsShown(scene, b, other);
      assert b[id] != b[other];
      assert Moving(scene, b, id) && Moving(scene, b, other);
    } else {
      forall id | Moving(scene, b, id)
        ensures var twin := TwinOf(scene, b, id).value; twin in Settled(scene, b) && Settled(scene, b)[twin] == b[id]
      {
        MoveKeepsItsConnection(scene, b, id);
      }
    }
  }
}

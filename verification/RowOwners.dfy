/**
 Whose route a device's reports leave by.

 A row of the route table is filled by build on the GUI thread, one listed slot after another, from the row add answers
 at that moment. The bridge adds and removes pads on its own thread meanwhile, and a report sends by whatever route its
 row has in the table it loaded. The registry and the build run here beside the publication protocol, step by step.
 */
module RowOwners {
  import opened Basics
  import opened Routes
  import Publication
  import PublicationProgress
  import PublicationSafety
  import PublicationTheorems

  /** A build under way: the first n listed slots are done, and owners says which slot each row was last filled for. */
  datatype Draft = Draft(
    world: World, slots: seq<SlotId>, n: nat, inputs: seq<Option<InputRoute>>, owners: seq<Option<SlotId>>)

  /** built[k] is the build that made the k-th table. */
  datatype State = State(router: Publication.State, rows: Records, draft: Option<Draft>, built: seq<Draft>)

  const Initial := State(Publication.Initial, Publication.Repeat(MAX_DEVICES, None), None, [])

  const NoInputs: seq<Option<InputRoute>> := Publication.Repeat(MAX_DEVICES, None)

  datatype Step =
    | Router(step: Publication.Step)
    // the bridge's registerPad and releasePad, and everyone else who adds an id
    | Take(id: SlotId) | Leave(id: SlotId)
    // republish up to its lock
    | BuildStart(world: World, slots: seq<SlotId>) | BuildNext | BuildDone(table: RouteTable)

  function Filled(d: Draft, id: SlotId, index: Option<nat>): Draft {
    if TargetOf(d.world, id).None? || index.None? || index.value >= |d.inputs| || index.value >= |d.owners|
    then d.(n := d.n + 1)
    else d.(n := d.n + 1,
            inputs := d.inputs[index.value := Some(InputRoute(TargetOf(d.world, id).value, id in d.world.motionOn))],
            owners := d.owners[index.value := Some(id)])
  }

  predicate Enabled(x: State, step: Step) {
    match step
    case Router(Begin(_)) => false
    // A report is made by the device that has the row.
    case Router(Enter(Device(i))) => Publication.Enabled(x.router, step.step) && i < |x.rows| && x.rows[i].Some?
    case Router(s) => Publication.Enabled(x.router, s)
    case Take(_) => true
    // The thread that reports for a pad is the one that removes it.
    case Leave(id) =>
      forall i: nat :: i < |x.rows| && x.rows[i] == Some(id) ==> Publication.Device(i) !in x.router.grace.brackets
    case BuildStart(_, _) => x.draft.None?
    case BuildNext => x.draft.Some? && x.draft.value.n < |x.draft.value.slots|
    case BuildDone(table) =>
      && x.draft.Some? && x.draft.value.n == |x.draft.value.slots| && table.inputs == x.draft.value.inputs
      && Publication.Enabled(x.router, Publication.Begin(table))
  }

  function Apply(x: State, step: Step): State
    requires Enabled(x, step)
  {
    match step
    case Router(s) => x.(router := Publication.Apply(x.router, s))
    case Take(id) => x.(rows := Added(x.rows, id).0)
    case Leave(id) =>
      (match FirstRow(x.rows, Some(id), 0)
       case None => x
       case Some(i) => x.(rows := x.rows[i := None]))
    case BuildStart(w, slots) =>
      x.(draft := Some(Draft(w, slots, 0, NoInputs, Initial.rows)))
    case BuildNext =>
      var d := x.draft.value;
      var (rows, index) := Added(x.rows, d.slots[d.n]);
      x.(rows := rows, draft := Some(Filled(d, d.slots[d.n], index)))
    case BuildDone(table) =>
      x.(router := Publication.Apply(x.router, Publication.Begin(table)),
         draft := None,
         built := x.built + [x.draft.value])
  }

  predicate Legal(x: State, run: seq<Step>)
    decreases run
  {
    run == [] || (Enabled(x, run[0]) && Legal(Apply(x, run[0]), run[1..]))
  }

  function After(x: State, run: seq<Step>): State
    requires Legal(x, run)
    decreases run
  {
    if run == [] then x else After(Apply(x, run[0]), run[1..])
  }

  // ----- the protocol underneath -----

  function RouterPart(step: Step): seq<Publication.Step> {
    match step
    case Router(s) => [s]
    case BuildDone(table) => [Publication.Begin(table)]
    case _ => []
  }

  function RouterRun(run: seq<Step>): seq<Publication.Step> {
    if run == [] then [] else RouterPart(run[0]) + RouterRun(run[1..])
  }

  /** Every run is a run of the publication protocol, with the registry's steps left out. */
  lemma {:induction false} RunsThePublication(x: State, run: seq<Step>)
    requires Legal(x, run)
    ensures Publication.Legal(x.router, RouterRun(run))
    ensures Publication.After(x.router, RouterRun(run)) == After(x, run).router
    decreases run
  {
    if run != [] {
      RunsThePublication(Apply(x, run[0]), run[1..]);
      var part, rest := RouterPart(run[0]), RouterRun(run[1..]);
      if part == [] {
        assert part + rest == rest;
      } else {
        assert (part + rest)[0] == part[0] && (part + rest)[1..] == rest;
      }
    }
  }

  // ----- what a build leaves -----

  /** Row `row` of the build carries exactly the route of the slot it was filled for. */
  predicate RowAccounted(d: Draft, row: nat)
    requires row < |d.inputs| == |d.owners|
  {
    match d.owners[row]
    case None => d.inputs[row] == None
    case Some(o) =>
      && o in d.slots && TargetOf(d.world, o).Some?
      && d.inputs[row] == Some(InputRoute(TargetOf(d.world, o).value, o in d.world.motionOn))
  }

  ghost predicate Accounted(d: Draft) {
    && |d.inputs| == |d.owners| == MAX_DEVICES && d.n <= |d.slots|
    && forall row: nat :: row < MAX_DEVICES ==> RowAccounted(d, row)
  }

  ghost predicate Recorded(tables: seq<RouteTable>, built: seq<Draft>) {
    && |tables| == |built|
    && forall k :: 0 <= k < |built| ==> Accounted(built[k]) && built[k].inputs == tables[k].inputs
  }

  ghost predicate ReportersOwn(rows: Records, brackets: map<Publication.Reader, Publication.Bracket>) {
    forall i: nat :: Publication.Device(i) in brackets ==> i < |rows| && rows[i].Some?
  }

  ghost predicate Inv(x: State) {
    && PublicationSafety.Inv(x.router)
    && OneRowEach(x.rows)
    && Recorded(x.router.memory.tables, x.built)
    && (x.draft.Some? ==> Accounted(x.draft.value))
    && ReportersOwn(x.rows, x.router.grace.brackets)
  }

  lemma AddedKeepsRows(rs: Records, id: SlotId)
    requires OneRowEach(rs)
    ensures OneRowEach(Added(rs, id).0) && Extends(rs, Added(rs, id).0)
    ensures Added(rs, id).1.Some? ==> Holds(Added(rs, id).0, id, Added(rs, id).1.value)
  {
  }

  lemma TablesAfter(s: Publication.State, step: Publication.Step)
    requires Publication.Enabled(s, step)
    ensures Publication.Apply(s, step).memory.tables == s.memory.tables + if step.Begin? then [step.table] else []
    ensures forall r ::
      r in Publication.Apply(s, step).grace.brackets ==> r in s.grace.brackets || step == Publication.Enter(r)
  {
  }

  lemma FilledIsAccounted(d: Draft, id: SlotId, index: Option<nat>)
    requires Accounted(d) && d.n < |d.slots| && id == d.slots[d.n]
    ensures Accounted(Filled(d, id, index))
  {
    forall row: nat | row < MAX_DEVICES ensures RowAccounted(Filled(d, id, index), row) {
      assert RowAccounted(d, row);
    }
  }

  lemma StepKeeps(x: State, step: Step)
    requires Inv(x) && Enabled(x, step)
    ensures Inv(Apply(x, step))
  {
    match step
    case Router(s) =>
      PublicationSafety.StepKeeps(x.router, s);
      TablesAfter(x.router, s);
    case Take(id) => AddedKeepsRows(x.rows, id);
    case Leave(_) =>
    case BuildStart(_, _) =>
    case BuildNext =>
      var d := x.draft.value;
      AddedKeepsRows(x.rows, d.slots[d.n]);
      FilledIsAccounted(d, d.slots[d.n], Added(x.rows, d.slots[d.n]).1);
    case BuildDone(table) =>
      PublicationSafety.StepKeeps(x.router, Publication.Begin(table));
      TablesAfter(x.router, Publication.Begin(table));
  }

  lemma {:induction false} RunKeeps(x: State, run: seq<Step>)
    requires Inv(x) && Legal(x, run)
    ensures Inv(After(x, run))
    decreases run
  {
    if run != [] {
      StepKeeps(x, run[0]);
      RunKeeps(Apply(x, run[0]), run[1..]);
    }
  }

  ghost predicate Reaches(run: seq<Step>, x: State) {
    Legal(Initial, run) && After(Initial, run) == x
  }

  ghost predicate Reachable(x: State) {
    exists run :: Reaches(run, x)
  }

  lemma ReachableInv(x: State)
    requires Reachable(x)
    ensures Inv(x) && PublicationTheorems.Reachable(x.router)
  {
    var run :| Reaches(run, x);
    PublicationSafety.InitialInv();
    RunKeeps(Initial, run);
    RunsThePublication(Initial, run);
    assert PublicationTheorems.Reaches(RouterRun(run), x.router);
  }

  // ----- whose route a report leaves by -----

  /** No two slots have one send target, as one slot a connection and one target a connection give. */
  ghost predicate OwnTargets(w: World) {
    forall a, b :: TargetOf(w, a).Some? && TargetOf(w, a) == TargetOf(w, b) ==> a == b
  }

  /** Where a device's packet goes: the route of its row in the table its thread has loaded. */
  function SentTo(x: State, row: nat, k: Publication.Address): Option<Target> {
    if 0 < k <= |x.router.memory.tables| && row < |x.router.memory.tables[k - 1].inputs|
       && x.router.memory.tables[k - 1].inputs[row].Some?
    then Some(x.router.memory.tables[k - 1].inputs[row].value.target) else None
  }

  /** A table's row carries the route of the slot it was filled for, and no route if it was filled for none. */
  lemma RouteOfRow(x: State, row: nat, k: Publication.Address)
    requires Recorded(x.router.memory.tables, x.built) && 0 < k <= |x.built| && row < MAX_DEVICES
    ensures var d := x.built[k - 1];
            && |d.owners| == MAX_DEVICES
            && (d.owners[row].None? ==> SentTo(x, row, k).None?)
            && (d.owners[row].Some? ==>
                  var o := d.owners[row].value;
                  o in d.slots && SentTo(x, row, k).Some? && SentTo(x, row, k) == TargetOf(d.world, o))
  {
    assert RowAccounted(x.built[k - 1], row);
  }

  lemma ReachableRecords(x: State)
    requires Reachable(x)
    ensures Recorded(x.router.memory.tables, x.built) && OneRowEach(x.rows)
    ensures ReportersOwn(x.rows, x.router.grace.brackets) && PublicationTheorems.Reachable(x.router)
  {
    ReachableInv(x);
  }

  /** A packet leaves by the route the reporting device's own slot had exactly when that slot is the one the row was
      filled for; either way it leaves by the route of some listed slot. */
  lemma OwnRouteIffOwnRow(x: State, row: nat, kind: Publication.Kind)
    requires Reachable(x) && Enabled(x, Router(Publication.Use(Publication.Device(row), kind)))
    ensures var k := x.router.grace.brackets[Publication.Device(row)].table;
            && 0 < k <= |x.built| && row < |x.rows| && row < |x.built[k - 1].owners|
            && x.rows[row].Some? && x.built[k - 1].owners[row].Some?
            && var d, id, o := x.built[k - 1], x.rows[row].value, x.built[k - 1].owners[row].value;
               && o in d.slots && SentTo(x, row, k) == TargetOf(d.world, o) && SentTo(x, row, k).Some?
               && (OwnTargets(d.world) ==> (SentTo(x, row, k) == TargetOf(d.world, id) <==> id == o))
  {
    ReachableRecords(x);
    RouteOfRow(x, row, x.router.grace.brackets[Publication.Device(row)].table);
  }

  // ----- a device that keeps its row -----

  /** The build gave the row to the slot if it has come by it and it has a target, and else to nobody. */
  predicate GaveRowTo(d: Draft, row: nat, id: SlotId) {
    && row < |d.owners| && d.n <= |d.slots|
    && d.owners[row] == if id in d.slots[..d.n] && TargetOf(d.world, id).Some? then Some(id) else None
  }

  ghost predicate RowStays(x: State, row: nat, id: SlotId, first: nat) {
    && Holds(x.rows, id, row)
    && (x.draft.Some? ==> GaveRowTo(x.draft.value, row, id))
    && forall k :: first <= k + 1 <= |x.built| && 0 <= k ==>
         GaveRowTo(x.built[k], row, id) && x.built[k].n == |x.built[k].slots|
  }

  lemma FilledGivesTheRow(d: Draft, rows: Records, row: nat, id: SlotId)
    requires Accounted(d) && OneRowEach(rows) && Holds(rows, id, row) && d.n < |d.slots| && GaveRowTo(d, row, id)
    ensures GaveRowTo(Filled(d, d.slots[d.n], Added(rows, d.slots[d.n]).1), row, id)
  {
    AddedKeepsRows(rows, d.slots[d.n]);
    assert d.slots[..d.n + 1] == d.slots[..d.n] + [d.slots[d.n]];
  }

  lemma RowStaysStep(x: State, step: Step, row: nat, id: SlotId, first: nat)
    requires Inv(x) && Enabled(x, step) && RowStays(x, row, id, first) && step != Leave(id)
    ensures RowStays(Apply(x, step), row, id, first)
  {
    match step
    case Router(_) =>
    case Take(other) => AddedKeepsRows(x.rows, other);
    case Leave(_) =>
    case BuildStart(_, _) =>
    case BuildNext =>
      var d := x.draft.value;
      AddedKeepsRows(x.rows, d.slots[d.n]);
      FilledGivesTheRow(d, x.rows, row, id);
    case BuildDone(_) =>
  }

  lemma {:induction false} RowStaysRun(x: State, run: seq<Step>, row: nat, id: SlotId, first: nat)
    requires Inv(x) && Legal(x, run) && RowStays(x, row, id, first) && Leave(id) !in run
    ensures RowStays(After(x, run), row, id, first)
    decreases run
  {
    if run != [] {
      StepKeeps(x, run[0]);
      RowStaysStep(x, run[0], row, id, first);
      RowStaysRun(Apply(x, run[0]), run[1..], row, id, first);
    }
  }

  /** A packet of the run from the row goes by a table published since, which has a route for the row. */
  lemma PacketsSince(x: State, run: seq<Step>, row: nat, j: nat)
    requires Reachable(x) && x.router.memory.writer.Idle? && Legal(x, run)
    requires |x.router.log| <= j < |After(x, run).router.log|
    requires PublicationTheorems.FromDevice(After(x, run).router.log[j], row)
    ensures var later := After(x, run);
            && Recorded(later.router.memory.tables, later.built) && row < MAX_DEVICES
            && 0 < later.router.log[j].table <= |later.built|
            && x.router.memory.published <= later.router.log[j].table
            && SentTo(later, row, later.router.log[j].table).Some?
  {
    ReachableInv(x);
    RunKeeps(x, run);
    RunsThePublication(x, run);
    PublicationTheorems.RunSends(x.router, RouterRun(run), j);
    PublicationTheorems.CutOff(x.router, RouterRun(run), row, j);
  }

  /** From an idle router whose published table, and whose build under way, gave the row to the device that has it, for
      as long as that device stays: every packet from the row leaves by that device's own route, whoever else comes and
      goes; and every table built meanwhile has a route for it exactly when it is listed and bound to a target. */
  lemma ResidentsUseTheirOwnRoute(x: State, run: seq<Step>, row: nat, id: SlotId, j: nat)
    requires Reachable(x) && x.router.memory.writer.Idle? && RowStays(x, row, id, x.router.memory.published)
    requires Legal(x, run) && Leave(id) !in run
    requires |x.router.log| <= j < |After(x, run).router.log|
    requires PublicationTheorems.FromDevice(After(x, run).router.log[j], row)
    ensures var later := After(x, run);
            var k := later.router.log[j].table;
            && 0 < k <= |later.built|
            && id in later.built[k - 1].slots && SentTo(later, row, k).Some?
            && SentTo(later, row, k) == TargetOf(later.built[k - 1].world, id)
  {
    PacketsSince(x, run, row, j);
    ReachableInv(x);
    RowStaysRun(x, run, row, id, x.router.memory.published);
    var later := After(x, run);
    var d := later.built[later.router.log[j].table - 1];
    assert d.slots[..d.n] == d.slots;
    RouteOfRow(later, row, later.router.log[j].table);
  }

  // ----- a device that takes over a row -----

  lemma {:induction false} Joined(x: State, a: seq<Step>, b: seq<Step>)
    requires Legal(x, a) && Legal(After(x, a), b)
    ensures Legal(x, a + b) && After(x, a + b) == After(After(x, a), b)
    decreases a
  {
    if a == [] {
      assert a + b == b;
    } else {
      Joined(Apply(x, a[0]), a[1..], b);
      assert (a + b)[0] == a[0] && (a + b)[1..] == a[1..] + b;
    }
  }

  lemma OneMore(x: State, run: seq<Step>, step: Step)
    requires Legal(x, run) && Enabled(After(x, run), step)
    ensures Legal(x, run + [step]) && After(x, run + [step]) == Apply(After(x, run), step)
  {
    assert [step][1..] == [];
    Joined(x, run, [step]);
  }

  /** The router's publication finishes with nothing else happening. */
  lemma {:induction false} PublisherAlone(x: State, steps: seq<Publication.Step>) returns (run: seq<Step>)
    requires Publication.Legal(x.router, steps) && PublicationProgress.ByPublisher(steps)
    ensures Legal(x, run) && After(x, run) == x.(router := Publication.After(x.router, steps))
    decreases steps
  {
    if steps == [] {
      run := [];
    } else {
      var rest := PublisherAlone(Apply(x, Router(steps[0])), steps[1..]);
      run := [Router(steps[0])] + rest;
      assert run[1..] == rest;
    }
  }

  /** The row's device sends by the route of `departed`, with the publication long done. */
  ghost predicate SendsByTheRouteOf(x: State, row: nat, id: SlotId, w: World, departed: SlotId) {
    && x.router.memory.writer.Idle? && Holds(x.rows, id, row)
    && Enabled(x, Router(Publication.Use(Publication.Device(row), Publication.Report)))
    && SentTo(x, row, x.router.grace.brackets[Publication.Device(row)].table) == TargetOf(w, departed)
    && TargetOf(w, departed).Some?
  }

  /** One pad leaves and another comes: it gets the lowest free row. */
  lemma RowChangesHands(x: State, row: nat, departed: SlotId, id: SlotId) returns (run: seq<Step>)
    requires Inv(x) && Holds(x.rows, departed, row) && Publication.Device(row) !in x.router.grace.brackets
    requires |id| <= MAX_ID_BYTES && !Known(x.rows, id) && forall i :: 0 <= i < row ==> x.rows[i].Some?
    ensures Legal(x, run) && After(x, run) == x.(rows := x.rows[row := Some(id)])
  {
    var x1 := Apply(x, Leave(departed));
    assert x1.rows == x.rows[row := None];
    assert x1.rows[row] == None && forall i :: 0 <= i < row ==> x1.rows[i] != None;
    assert FirstRow(x1.rows, None, 0) == Some(row);
    forall i | 0 <= i < |x1.rows| ensures x1.rows[i] != Some(id) { assert !Holds(x.rows, id, i); }
    assert x1.rows[row := Some(id)] == x.rows[row := Some(id)];
    OneMore(x, [], Leave(departed));
    OneMore(x, [Leave(departed)], Take(id));
    run := [Leave(departed)] + [Take(id)];
  }

  /** A device reads the table the atomic points at. */
  lemma DeviceLoads(x: State, row: nat) returns (run: seq<Step>)
    requires Inv(x) && row < MAX_DEVICES && x.rows[row].Some? && Publication.Device(row) !in x.router.grace.brackets
    requires !Publication.Closing(x.router.memory)
    ensures Legal(x, run)
    ensures var y := After(x, run);
            && y.rows == x.rows && y.router.memory == x.router.memory && y.router.threads == x.router.threads
            && Publication.Device(row) in y.router.grace.brackets
            && y.router.grace.brackets[Publication.Device(row)] == Publication.Loaded(x.router.memory.hotPointer)
  {
    var device := Publication.Device(row);
    var enter, load := Router(Publication.Enter(device)), Router(Publication.Load(device));
    OneMore(x, [], enter);
    OneMore(x, [enter], load);
    run := [enter] + [load];
  }

  lemma RowIsReported(x: State, row: nat, departed: SlotId, id: SlotId) returns (run: seq<Step>)
    requires Inv(x) && Holds(x.rows, departed, row) && Publication.Device(row) !in x.router.grace.brackets
    requires |id| <= MAX_ID_BYTES && !Known(x.rows, id) && forall i :: 0 <= i < row ==> x.rows[i].Some?
    requires !Publication.Closing(x.router.memory)
    ensures Legal(x, run)
    ensures var y := After(x, run);
            && Holds(y.rows, id, row) && y.router.memory == x.router.memory
            && Publication.Device(row) in y.router.grace.brackets
            && y.router.grace.brackets[Publication.Device(row)] == Publication.Loaded(x.router.memory.hotPointer)
  {
    var change := RowChangesHands(x, row, departed, id);
    RunKeeps(x, change);
    var read := DeviceLoads(After(x, change), row);
    Joined(x, change, read);
    run := change + read;
  }

  lemma CanReport(x: State, row: nat, k: Publication.Address)
    requires row < MAX_DEVICES && Publication.Device(row) in x.router.grace.brackets
    requires x.router.grace.brackets[Publication.Device(row)] == Publication.Loaded(k) && SentTo(x, row, k).Some?
    ensures Enabled(x, Router(Publication.Use(Publication.Device(row), Publication.Report)))
  {
  }

  /** Whenever a routed pad leaves, the next one to arrive takes over the lowest free row together with the route in
      the published table, and reports by it. */
  lemma NewcomerInheritsTheRoute(x: State, row: nat, departed: SlotId, id: SlotId) returns (run: seq<Step>)
    requires Reachable(x) && x.router.memory.writer.Idle? && 0 < x.router.memory.published <= |x.built|
    requires Holds(x.rows, departed, row) && Publication.Device(row) !in x.router.grace.brackets
    requires var owners := x.built[x.router.memory.published - 1].owners;
             row < |owners| && owners[row] == Some(departed)
    requires |id| <= MAX_ID_BYTES && !Known(x.rows, id) && forall i :: 0 <= i < row ==> x.rows[i].Some?
    ensures Legal(x, run)
    ensures SendsByTheRouteOf(After(x, run), row, id, x.built[x.router.memory.published - 1].world, departed)
  {
    ReachableInv(x);
    PublicationTheorems.PointersAgree(x.router);
    RouteOfRow(x, row, x.router.memory.published);
    run := RowIsReported(x, row, departed, id);
    CanReport(After(x, run), row, x.router.memory.published);
  }

  function OneSlotRows(id: SlotId): (rows: Records)
    ensures |rows| == MAX_DEVICES
  {
    Initial.rows[0 := Some(id)]
  }

  lemma OneSlotDrafted(w: World, id: SlotId) returns (x: State)
    requires TargetOf(w, id).Some? && |id| <= MAX_ID_BYTES
    ensures Legal(Initial, [BuildStart(w, [id])] + [BuildNext])
    ensures x == After(Initial, [BuildStart(w, [id])] + [BuildNext])
    ensures x.router == Publication.Initial && x.rows == OneSlotRows(id) && x.built == []
    ensures x.draft.Some? && x.draft.value.world == w && x.draft.value.slots == [id] && x.draft.value.n == 1
    ensures |x.draft.value.owners| == MAX_DEVICES && x.draft.value.owners[0] == Some(id)
  {
    OneMore(Initial, [], BuildStart(w, [id]));
    var x1 := Apply(Initial, BuildStart(w, [id]));
    assert FirstRow(x1.rows, None, 0) == Some(0);
    forall i | 0 <= i < |x1.rows| ensures x1.rows[i] != Some(id) {}
    OneMore(Initial, [BuildStart(w, [id])], BuildNext);
    x := Apply(x1, BuildNext);
  }

  lemma OneSlotBuilt(w: World, id: SlotId) returns (run: seq<Step>, x: State)
    requires TargetOf(w, id).Some? && |id| <= MAX_ID_BYTES
    ensures Reaches(run, x) && !Publication.Closing(x.router.memory) && x.router.grace.brackets == map[]
    ensures x.rows == OneSlotRows(id) && |x.built| == 1 && x.built[0].world == w
    ensures |x.built[0].owners| == MAX_DEVICES && x.built[0].owners[0] == Some(id)
  {
    x := OneSlotDrafted(w, id);
    var table := RouteTable(x.draft.value.inputs, [], []);
    run := [BuildStart(w, [id])] + [BuildNext];
    OneMore(Initial, run, BuildDone(table));
    run, x := run + [BuildDone(table)], Apply(x, BuildDone(table));
  }

  /** One slot listed and bound, its table published: the router is idle and the slot has the first row. */
  lemma OneSlotPublished(w: World, id: SlotId) returns (run: seq<Step>, x: State)
    requires TargetOf(w, id).Some? && |id| <= MAX_ID_BYTES
    ensures Reaches(run, x) && Inv(x)
    ensures x.router.memory.writer.Idle? && x.router.memory.published == |x.built| == 1
    ensures x.built[0].owners[0] == Some(id) && x.built[0].world == w
    ensures x.rows == OneSlotRows(id) && x.router.grace.brackets == map[]
  {
    var start, x0 := OneSlotBuilt(w, id);
    ReachableInv(x0);
    var steps := PublicationProgress.EmptyRouterFinishes(x0.router);
    var rest := PublisherAlone(x0, steps);
    Joined(Initial, start, rest);
    run, x := start + rest, After(x0, rest);
    assert Reaches(run, x);
    ReachableInv(x);
    PublicationTheorems.PointersAgree(x.router);
  }

  /** So a device's reports can leave by another slot's route, for every pair of ids and every bound slot. */
  lemma ReportsCanLeaveByAnothersRoute(w: World, departed: SlotId, id: SlotId)
    requires TargetOf(w, departed).Some? && |departed| <= MAX_ID_BYTES && |id| <= MAX_ID_BYTES && id != departed
    ensures exists x :: Reachable(x) && SendsByTheRouteOf(x, 0, id, w, departed)
  {
    var run, x := OneSlotPublished(w, departed);
    forall i: nat ensures !Holds(x.rows, id, i) {}
    var more := NewcomerInheritsTheRoute(x, 0, departed, id);
    Joined(Initial, run, more);
    assert Reaches(run + more, After(x, more));
  }

  // ----- a list that is behind -----

  lemma {:induction false} KeptUntilItLeaves(x: State, run: seq<Step>, id: SlotId, row: nat)
    requires Inv(x) && Legal(x, run) && Holds(x.rows, id, row) && Leave(id) !in run
    ensures Holds(After(x, run).rows, id, row)
    decreases run
  {
    if run != [] {
      StepKeeps(x, run[0]);
      if run[0].Take? { AddedKeepsRows(x.rows, run[0].id); }
      if run[0].BuildNext? { AddedKeepsRows(x.rows, x.draft.value.slots[x.draft.value.n]); }
      KeptUntilItLeaves(Apply(x, run[0]), run[1..], id, row);
    }
  }

  /** A build over a list that still shows a departed pad gives it a row again, and it keeps that row until somebody
      removes the id once more. */
  lemma DepartedIsAddedBack(x: State, id: SlotId, later: seq<Step>)
    requires Reachable(x) && Enabled(x, BuildNext) && x.draft.value.slots[x.draft.value.n] == id
    requires |id| <= MAX_ID_BYTES && !Known(x.rows, id) && exists i :: 0 <= i < |x.rows| && x.rows[i] == None
    requires Legal(Apply(x, BuildNext), later) && Leave(id) !in later
    ensures Known(After(Apply(x, BuildNext), later).rows, id)
  {
    ReachableInv(x);
    StepKeeps(x, BuildNext);
    forall i | 0 <= i < |x.rows| ensures x.rows[i] != Some(id) { assert !Holds(x.rows, id, i); }
    var y, row := Apply(x, BuildNext), Added(x.rows, id).1.value;
    assert Holds(y.rows, id, row);
    KeptUntilItLeaves(y, later, id, row);
    assert Holds(After(y, later).rows, id, row);
  }
}

/**
 Threads that introduce devices at once. Each looks an id up, claims the first free row by a compare-and-swap,
 makes it live, and then gives it back if a lower row turns out to hold the same id. Every access to a row's
 state is one step, and steps of different threads interleave in any order.
 */
module DeviceClaims {
  import opened Basics

  datatype Row = Free | Claimed(id: SlotId) | Live(id: SlotId)

  // Where a call of add is. `introduced` tells a row the call claimed, or gave back, from one its look-up found.
  datatype Pc =
    | Finding(id: SlotId, pos: nat)
    | Claiming(id: SlotId, pos: nat)
    | Writing(id: SlotId, row: nat)
    | Checking(id: SlotId, row: nat, pos: nat)
    | Done(id: SlotId, index: Option<nat>, introduced: bool)

  datatype State = State(rows: seq<Row>, calls: map<nat, Pc>)

  datatype Step = Start(call: nat, id: SlotId) | Go(call: nat) | Remove(row: nat)

  // ----- steps -----

  predicate Enabled(s: State, step: Step) {
    match step
    case Start(call, _) => call !in s.calls
    case Go(call) =>
      call in s.calls && !s.calls[call].Done?
      && (s.calls[call].Writing? || s.calls[call].Checking? ==> s.calls[call].row < |s.rows|)
    case Remove(row) => row < |s.rows| && s.rows[row].Live?
  }

  /** The next step of one call: what it does to the rows, and where it is then. */
  function Next(rows: seq<Row>, pc: Pc): (seq<Row>, Pc)
    requires !pc.Done? && (pc.Writing? || pc.Checking? ==> pc.row < |rows|)
  {
    match pc
    case Finding(id, pos) =>
      if pos >= |rows| then (rows, Claiming(id, 0))
      else if rows[pos] == Live(id) then (rows, Done(id, Some(pos), false))
      else (rows, Finding(id, pos + 1))
    case Claiming(id, pos) =>
      if pos >= |rows| then (rows, Done(id, None, true))
      else if rows[pos].Free? then (rows[pos := Claimed(id)], Writing(id, pos))
      else (rows, Claiming(id, pos + 1))
    case Writing(id, row) => (rows[row := Live(id)], Checking(id, row, 0))
    case Checking(id, row, pos) =>
      if pos >= row then (rows, Done(id, Some(row), true))
      else if rows[pos].Claimed? then (rows, pc)
      else if rows[pos] == Live(id) then (rows[row := Free], Done(id, Some(pos), true))
      else (rows, Checking(id, row, pos + 1))
  }

  function Apply(s: State, step: Step): State
    requires Enabled(s, step)
  {
    match step
    case Start(call, id) => s.(calls := s.calls[call := Finding(id, 0)])
    case Go(call) =>
      var (rows, pc) := Next(s.rows, s.calls[call]);
      State(rows, s.calls[call := pc])
    case Remove(row) => s.(rows := s.rows[row := Free])
  }

  predicate Legal(s: State, run: seq<Step>)
    decreases run
  {
    run == [] || (Enabled(s, run[0]) && Legal(Apply(s, run[0]), run[1..]))
  }

  function After(s: State, run: seq<Step>): State
    requires Legal(s, run)
    decreases run
  {
    if run == [] then s else After(Apply(s, run[0]), run[1..])
  }

  // ----- runs in which no row of another id is freed -----

  /** The call is past a row it is about to give back. */
  predicate GivesBack(rows: seq<Row>, pc: Pc) {
    pc.Checking? && pc.pos < pc.row < |rows| && rows[pc.pos] == Live(pc.id)
  }

  /** The step removes no device and gives no row of another id back. */
  predicate Quiet(s: State, step: Step, id: SlotId)
    requires Enabled(s, step)
  {
    !step.Remove? && (step.Go? && GivesBack(s.rows, s.calls[step.call]) ==> s.calls[step.call].id == id)
  }

  predicate Undisturbed(s: State, run: seq<Step>, id: SlotId)
    requires Legal(s, run)
    decreases run
  {
    run == [] || (Quiet(s, run[0], id) && Undisturbed(Apply(s, run[0]), run[1..], id))
  }

  predicate Holds(pc: Pc) {
    pc.Writing? || pc.Checking?
  }

  /** Between its claim and its answer a call holds its row. */
  predicate Own(rows: seq<Row>, pc: Pc) {
    && (pc.Writing? ==> pc.row < |rows| && rows[pc.row] == Claimed(pc.id))
    && (pc.Checking? ==> pc.row < |rows| && rows[pc.row] == Live(pc.id))
  }

  /** Each such call holds a row of its own. */
  ghost predicate Holding(s: State) {
    && (forall t :: t in s.calls ==> Own(s.rows, s.calls[t]))
    && (forall t, u :: t in s.calls && u in s.calls && t != u && Holds(s.calls[t]) && Holds(s.calls[u]) ==>
          s.calls[t].row != s.calls[u].row)
  }

  predicate Held(row: Row, id: SlotId) {
    !row.Free? && row.id == id
  }

  predicate Busy(rows: seq<Row>, n: nat) {
    forall i :: 0 <= i < n && i < |rows| ==> !rows[i].Free?
  }

  /** Nobody has introduced the id yet. */
  ghost predicate Untouched(s: State, id: SlotId) {
    && (forall i :: 0 <= i < |s.rows| ==> !Held(s.rows[i], id))
    && (forall t :: t in s.calls && s.calls[t].id == id ==>
          !Holds(s.calls[t]) && (s.calls[t].Done? ==> s.calls[t].index.None?))
    && (forall t :: t in s.calls && s.calls[t].Claiming? && s.calls[t].id == id ==> Busy(s.rows, s.calls[t].pos))
  }

  predicate HoldsRow(s: State, t: nat, id: SlotId, i: int) {
    t in s.calls && Holds(s.calls[t]) && s.calls[t].id == id && s.calls[t].row == i
  }

  /** Every row of the id above L is some call's yet. */
  ghost predicate Attended(s: State, id: SlotId, L: nat) {
    forall i :: L < i < |s.rows| && Held(s.rows[i], id) ==> exists t :: HoldsRow(s, t, id, i)
  }

  /** The id's lowest row is L, everything below it belongs to others, and every call that introduced the id is
      going to answer L or has done so. */
  ghost predicate Agreed(s: State, id: SlotId, L: nat) {
    && L < |s.rows| && Held(s.rows[L], id)
    && (forall i :: 0 <= i < L ==> !s.rows[i].Free? && s.rows[i].id != id)
    && (forall t :: t in s.calls && s.calls[t].id == id ==>
          && (Holds(s.calls[t]) ==> s.calls[t].row >= L)
          && (s.calls[t].Checking? ==> s.calls[t].pos <= L)
          && (s.calls[t].Done? && s.calls[t].introduced && s.calls[t].index.Some? ==>
                s.calls[t].index == Some(L) && s.rows[L] == Live(id)))
  }

  /** The row a step of the call writes: a free one it claims, or its own. */
  predicate Writes(rows: seq<Row>, pc: Pc, i: int) {
    || (pc.Claiming? && i == pc.pos && i < |rows| && rows[i].Free?)
    || (Holds(pc) && i == pc.row)
  }

  lemma NextWrites(rows: seq<Row>, pc: Pc)
    requires !pc.Done? && Own(rows, pc)
    ensures var (rows', pc') := Next(rows, pc);
            && |rows'| == |rows| && Own(rows', pc') && pc'.id == pc.id
            && (Holds(pc') ==> if Holds(pc) then pc'.row == pc.row else Writes(rows, pc, pc'.row))
            && (forall i :: 0 <= i < |rows| && !Writes(rows, pc, i) ==> rows'[i] == rows[i])
            && (forall i :: 0 <= i < |rows| && rows'[i].Free? && !rows[i].Free? ==> GivesBack(rows, pc) && i == pc.row)
            && (forall i :: 0 <= i < |rows| && !rows'[i].Free? && Writes(rows, pc, i) ==> rows'[i].id == pc.id)
  {
  }

  lemma HoldingStep(s: State, step: Step)
    requires Holding(s) && Enabled(s, step) && !step.Remove?
    ensures Holding(Apply(s, step))
  {
    if step.Go? { NextWrites(s.rows, s.calls[step.call]); }
  }

  lemma OtherCallLeavesUntouched(s: State, call: nat, id: SlotId)
    requires Holding(s) && Untouched(s, id) && Enabled(s, Go(call))
    requires s.calls[call].id != id && !GivesBack(s.rows, s.calls[call])
    ensures Untouched(Apply(s, Go(call)), id)
  {
    NextWrites(s.rows, s.calls[call]);
  }

  /** The first claim of an id fixes its row. */
  lemma UntouchedStep(s: State, step: Step, id: SlotId) returns (L: nat)
    requires Holding(s) && Untouched(s, id) && Enabled(s, step) && Quiet(s, step, id)
    ensures Untouched(Apply(s, step), id) || (Agreed(Apply(s, step), id, L) && Attended(Apply(s, step), id, L))
  {
    L := 0;
    if step.Go? {
      var pc := s.calls[step.call];
      if pc.id != id {
        OtherCallLeavesUntouched(s, step.call, id);
      } else if pc.Claiming? {
        L := pc.pos;
      }
    }
  }

  /** From then on nothing moves it. */
  lemma AgreedStep(s: State, step: Step, id: SlotId, L: nat)
    requires Holding(s) && Agreed(s, id, L) && Enabled(s, step) && Quiet(s, step, id)
    ensures Agreed(Apply(s, step), id, L)
  {
    if step.Go? { NextWrites(s.rows, s.calls[step.call]); }
  }

  lemma CallKeepsAttended(s: State, call: nat, id: SlotId, L: nat, i: int)
    requires Holding(s) && Agreed(s, id, L) && Attended(s, id, L) && Enabled(s, Go(call)) && Quiet(s, Go(call), id)
    requires L < i < |s.rows| && Held(Apply(s, Go(call)).rows[i], id)
    ensures exists t :: HoldsRow(Apply(s, Go(call)), t, id, i)
  {
    var pc := s.calls[call];
    NextWrites(s.rows, pc);
    if Writes(s.rows, pc, i) {
      assert HoldsRow(Apply(s, Go(call)), call, id, i);
    } else {
      var t :| HoldsRow(s, t, id, i);
      assert HoldsRow(Apply(s, Go(call)), t, id, i);
    }
  }

  lemma AttendedStep(s: State, step: Step, id: SlotId, L: nat)
    requires Holding(s) && Agreed(s, id, L) && Attended(s, id, L) && Enabled(s, step) && Quiet(s, step, id)
    ensures Attended(Apply(s, step), id, L)
  {
    var next := Apply(s, step);
    forall i | L < i < |next.rows| && Held(next.rows[i], id) ensures exists t :: HoldsRow(next, t, id, i) {
      if step.Go? {
        NextWrites(s.rows, s.calls[step.call]);
        CallKeepsAttended(s, step.call, id, L, i);
      } else {
        var t :| HoldsRow(s, t, id, i);
        assert HoldsRow(next, t, id, i);
      }
    }
  }

  lemma {:induction false} AgreedRun(s: State, run: seq<Step>, id: SlotId, L: nat)
    requires Holding(s) && Agreed(s, id, L) && Attended(s, id, L) && Legal(s, run) && Undisturbed(s, run, id)
    ensures Agreed(After(s, run), id, L) && Attended(After(s, run), id, L)
    decreases run
  {
    if run != [] {
      HoldingStep(s, run[0]);
      AgreedStep(s, run[0], id, L);
      AttendedStep(s, run[0], id, L);
      AgreedRun(Apply(s, run[0]), run[1..], id, L);
    }
  }

  lemma {:induction false} UntouchedRun(s: State, run: seq<Step>, id: SlotId) returns (L: nat)
    requires Holding(s) && Untouched(s, id) && Legal(s, run) && Undisturbed(s, run, id)
    ensures Untouched(After(s, run), id) || (Agreed(After(s, run), id, L) && Attended(After(s, run), id, L))
    decreases run
  {
    L := 0;
    if run != [] {
      HoldingStep(s, run[0]);
      L := UntouchedStep(s, run[0], id);
      if Untouched(Apply(s, run[0]), id) {
        L := UntouchedRun(Apply(s, run[0]), run[1..], id);
      } else {
        AgreedRun(Apply(s, run[0]), run[1..], id, L);
      }
    }
  }

  /** A call that introduced the id has its row. */
  predicate Answered(pc: Pc, id: SlotId) {
    pc.Done? && pc.id == id && pc.introduced && pc.index.Some?
  }

  /** However many calls introduce an id at once, all that get a row end on the same one, and it is live and the
      lowest of that id, as long as no row of another id is freed meanwhile. */
  lemma IntroducersAgree(s: State, run: seq<Step>, id: SlotId, t: nat, u: nat)
    requires Holding(s) && Untouched(s, id) && Legal(s, run) && Undisturbed(s, run, id)
    requires t in After(s, run).calls && u in After(s, run).calls
    requires Answered(After(s, run).calls[t], id) && Answered(After(s, run).calls[u], id)
    ensures var k := After(s, run).calls[t].index.value;
            && After(s, run).calls[u].index == Some(k)
            && k < |After(s, run).rows| && After(s, run).rows[k] == Live(id)
            && forall i :: 0 <= i < k ==> !Held(After(s, run).rows[i], id)
  {
    var L := UntouchedRun(s, run, id);
  }

  /** Once they have all answered, that row is the id's only one; a look-up that answered another one meanwhile
      answered a row that was then given back. */
  lemma OneRowInTheEnd(s: State, run: seq<Step>, id: SlotId, t: nat)
    requires Holding(s) && Untouched(s, id) && Legal(s, run) && Undisturbed(s, run, id)
    requires forall c, i :: !HoldsRow(After(s, run), c, id, i)
    requires t in After(s, run).calls
    requires Answered(After(s, run).calls[t], id)
    ensures var k := After(s, run).calls[t].index.value;
            forall i :: 0 <= i < |After(s, run).rows| ==> (Held(After(s, run).rows[i], id) <==> i == k)
  {
    var L := UntouchedRun(s, run, id);
  }

  // ----- what callers have to do -----

  ghost predicate LiveAbove(rows: seq<Row>, id: SlotId, n: nat) {
    exists i: nat :: n <= i < |rows| && rows[i] == Live(id)
  }

  /** Nobody is introducing the id: its calls have all answered, or it has a row already. */
  ghost predicate Clear(s: State, id: SlotId) {
    LiveAbove(s.rows, id, 0) || forall c :: c in s.calls && s.calls[c].id == id ==> s.calls[c].Done?
  }

  /** No device is removed, and a call for another id starts only while nobody is introducing that one. */
  ghost predicate Considerate(s: State, step: Step, id: SlotId) {
    match step
    case Start(_, other) => other == id || Clear(s, other)
    case Go(_) => true
    case Remove(_) => false
  }

  ghost predicate ConsiderateRun(s: State, run: seq<Step>, id: SlotId)
    requires Legal(s, run)
    decreases run
  {
    run == [] || (Considerate(s, run[0], id) && ConsiderateRun(Apply(s, run[0]), run[1..], id))
  }

  /** The call is going to introduce its id or is doing so: it will not come upon a live row. */
  ghost predicate Introducing(rows: seq<Row>, pc: Pc) {
    !pc.Done? && !(pc.Finding? && LiveAbove(rows, pc.id, pc.pos))
  }

  ghost predicate Introduces(s: State, c: nat, id: SlotId) {
    c in s.calls && s.calls[c].id == id && Introducing(s.rows, s.calls[c])
  }

  ghost predicate Unheld(s: State, id: SlotId) {
    forall i :: 0 <= i < |s.rows| ==> !Held(s.rows[i], id)
  }

  /** At most one call introduces the id, and while it seeks a row the id has none; otherwise the id has one at most,
      and a row that is not live yet is some call's. */
  ghost predicate Single(s: State, id: SlotId) {
    && (forall i, j :: 0 <= i < j < |s.rows| && Held(s.rows[i], id) ==> !Held(s.rows[j], id))
    && (forall i :: 0 <= i < |s.rows| && s.rows[i] == Claimed(id) ==> exists c :: HoldsRow(s, c, id, i))
    && (forall c :: Introduces(s, c, id) && !Holds(s.calls[c]) ==> Unheld(s, id))
    && (forall c, d :: Introduces(s, c, id) && Introduces(s, d, id) ==> c == d)
  }

  /** A call that introduces its id alone finds no lower row of it. */
  lemma AloneKeepsItsRow(s: State, call: nat)
    requires Holding(s) && call in s.calls && Single(s, s.calls[call].id)
    ensures !GivesBack(s.rows, s.calls[call])
  {
  }

  lemma LiveStays(rows: seq<Row>, rows': seq<Row>, id: SlotId, n: nat)
    requires |rows| == |rows'| && forall i :: 0 <= i < |rows| && rows[i] == Live(id) ==> rows'[i] == Live(id)
    ensures LiveAbove(rows, id, n) ==> LiveAbove(rows', id, n)
  {
    if LiveAbove(rows, id, n) {
      var i: nat :| n <= i < |rows| && rows[i] == Live(id);
      assert rows'[i] == Live(id);
    }
  }

  lemma LiveFromHere(rows: seq<Row>, id: SlotId, n: nat)
    requires n < |rows|
    ensures LiveAbove(rows, id, n) <==> rows[n] == Live(id) || LiveAbove(rows, id, n + 1)
  {
    if LiveAbove(rows, id, n) {
      var i: nat :| n <= i < |rows| && rows[i] == Live(id);
      assert i != n ==> n + 1 <= i;
    }
  }

  lemma SingleStart(s: State, call: nat, id: SlotId, other: SlotId)
    requires Single(s, other) && Enabled(s, Start(call, id)) && (id == other ==> Clear(s, other))
    ensures Single(Apply(s, Start(call, id)), other)
  {
    var next := Apply(s, Start(call, id));
    forall i | 0 <= i < |s.rows| && s.rows[i] == Claimed(other) ensures exists c :: HoldsRow(next, c, other, i) {
      var c :| HoldsRow(s, c, other, i);
      assert HoldsRow(next, c, other, i);
    }
    assert forall c :: c != call && Introduces(next, c, other) ==> Introduces(s, c, other);
    assert forall i: nat :: i < |s.rows| && s.rows[i] == Live(other) ==> LiveAbove(s.rows, other, 0);
  }

  lemma SingleOtherCall(s: State, call: nat, other: SlotId)
    requires Holding(s) && Single(s, other) && Enabled(s, Go(call)) && s.calls[call].id != other
    ensures Single(Apply(s, Go(call)), other)
  {
    var next := Apply(s, Go(call));
    NextWrites(s.rows, s.calls[call]);
    assert forall i :: 0 <= i < |s.rows| && Held(next.rows[i], other) ==> next.rows[i] == s.rows[i];
    assert forall i :: 0 <= i < |s.rows| && s.rows[i] == Live(other) ==> !Writes(s.rows, s.calls[call], i);
    forall i | 0 <= i < |s.rows| && next.rows[i] == Claimed(other) ensures exists c :: HoldsRow(next, c, other, i) {
      var c :| HoldsRow(s, c, other, i);
      assert HoldsRow(next, c, other, i);
    }
    forall c | Introduces(next, c, other) ensures Introduces(s, c, other) {
      if s.calls[c].Finding? { LiveStays(s.rows, next.rows, other, s.calls[c].pos); }
    }
  }

  lemma OwnCallKeepsLive(s: State, call: nat)
    requires Holding(s) && Enabled(s, Go(call)) && !GivesBack(s.rows, s.calls[call])
    ensures var id, rows := s.calls[call].id, Apply(s, Go(call)).rows;
            |rows| == |s.rows| && forall i :: 0 <= i < |rows| && s.rows[i] == Live(id) ==> rows[i] == Live(id)
  {
    NextWrites(s.rows, s.calls[call]);
  }

  lemma OwnCallIntroduces(s: State, call: nat, c: nat)
    requires Holding(s) && Enabled(s, Go(call)) && !GivesBack(s.rows, s.calls[call])
    requires Introduces(Apply(s, Go(call)), c, s.calls[call].id)
    ensures Introduces(s, c, s.calls[call].id)
  {
    OwnCallKeepsLive(s, call);
    var rows := Apply(s, Go(call)).rows;
    if s.calls[c].Finding? {
      LiveStays(s.rows, rows, s.calls[c].id, s.calls[c].pos);
      if s.calls[c].pos < |s.rows| { LiveFromHere(s.rows, s.calls[c].id, s.calls[c].pos); }
    }
  }

  /** While a call seeks a row for an id it is the only one under way for it. */
  lemma SeekerIsAlone(s: State, c: nat, call: nat, id: SlotId)
    requires Single(s, id) && Introduces(s, c, id) && !Holds(s.calls[c])
    requires call in s.calls && s.calls[call].id == id && !s.calls[call].Done?
    ensures call == c
  {
    assert forall i: nat :: i < |s.rows| ==> !Held(s.rows[i], id) && s.rows[i] != Live(id);
  }

  lemma SingleOwnCall(s: State, call: nat)
    requires Holding(s) && Enabled(s, Go(call)) && Single(s, s.calls[call].id)
    ensures Single(Apply(s, Go(call)), s.calls[call].id)
  {
    var id, next := s.calls[call].id, Apply(s, Go(call));
    AloneKeepsItsRow(s, call);
    NextWrites(s.rows, s.calls[call]);
    forall c | Introduces(next, c, id) ensures Introduces(s, c, id) {
      OwnCallIntroduces(s, call, c);
    }
    forall c | Introduces(next, c, id) && !Holds(next.calls[c]) ensures Unheld(next, id) {
      OwnCallIntroduces(s, call, c);
      if c != call { SeekerIsAlone(s, c, call, id); }
    }
    forall i | 0 <= i < |s.rows| && next.rows[i] == Claimed(id) ensures exists c :: HoldsRow(next, c, id, i) {
      if Writes(s.rows, s.calls[call], i) {
        assert HoldsRow(next, call, id, i);
      } else {
        var c :| HoldsRow(s, c, id, i);
        assert HoldsRow(next, c, id, i);
      }
    }
  }

  /** The other ids each have one row at most, and one call at most that introduces them. */
  ghost predicate OthersSingle(s: State, id: SlotId) {
    forall other :: other != id ==> Single(s, other)
  }

  /** Callers that take care disturb nobody. */
  lemma ConsiderateIsQuiet(s: State, step: Step, id: SlotId)
    requires Holding(s) && OthersSingle(s, id) && Enabled(s, step) && Considerate(s, step, id)
    ensures Quiet(s, step, id) && OthersSingle(Apply(s, step), id)
  {
    if step.Go? && s.calls[step.call].id != id { AloneKeepsItsRow(s, step.call); }
    forall other | other != id ensures Single(Apply(s, step), other) {
      if step.Start? {
        SingleStart(s, step.call, step.id, other);
      } else if s.calls[step.call].id == other {
        SingleOwnCall(s, step.call);
      } else {
        SingleOtherCall(s, step.call, other);
      }
    }
  }

  lemma {:induction false} ConsiderateRunIsUndisturbed(s: State, run: seq<Step>, id: SlotId)
    requires Holding(s) && OthersSingle(s, id) && Legal(s, run) && ConsiderateRun(s, run, id)
    ensures Undisturbed(s, run, id)
    decreases run
  {
    if run != [] {
      ConsiderateIsQuiet(s, run[0], id);
      HoldingStep(s, run[0]);
      ConsiderateRunIsUndisturbed(Apply(s, run[0]), run[1..], id);
    }
  }

  /** A table at rest: nobody is adding, and each row is free or some device's own. */
  predicate AtRest(s: State) {
    && s.calls == map[]
    && (forall i :: 0 <= i < |s.rows| ==> !s.rows[i].Claimed?)
    && (forall i, j :: 0 <= i < j < |s.rows| && s.rows[i].Live? ==> s.rows[i] != s.rows[j])
  }

  /** However many calls introduce an id at once, all that get a row end on the same one, live and the lowest of that
      id, as long as no device is removed and no two calls introduce another id at once. */
  lemma CarefulIntroducersAgree(s: State, run: seq<Step>, id: SlotId, t: nat, u: nat)
    requires AtRest(s) && Untouched(s, id) && Legal(s, run) && ConsiderateRun(s, run, id)
    requires t in After(s, run).calls && u in After(s, run).calls
    requires Answered(After(s, run).calls[t], id) && Answered(After(s, run).calls[u], id)
    ensures var k := After(s, run).calls[t].index.value;
            && After(s, run).calls[u].index == Some(k)
            && k < |After(s, run).rows| && After(s, run).rows[k] == Live(id)
            && forall i :: 0 <= i < k ==> !Held(After(s, run).rows[i], id)
  {
    ConsiderateRunIsUndisturbed(s, run, id);
    IntroducersAgree(s, run, id, t, u);
  }

  lemma CarefulIntroducersLeaveOneRow(s: State, run: seq<Step>, id: SlotId, t: nat)
    requires AtRest(s) && Untouched(s, id) && Legal(s, run) && ConsiderateRun(s, run, id)
    requires forall c, i :: !HoldsRow(After(s, run), c, id, i)
    requires t in After(s, run).calls && Answered(After(s, run).calls[t], id)
    ensures var k := After(s, run).calls[t].index.value;
            forall i :: 0 <= i < |After(s, run).rows| ==> (Held(After(s, run).rows[i], id) <==> i == k)
  {
    ConsiderateRunIsUndisturbed(s, run, id);
    OneRowInTheEnd(s, run, id, t);
  }

  // ----- one thread introduces a given id -----

  /** As the table is meant to be used: the call t alone introduces the id, the id is not removed meanwhile, and no
      device is removed while it is being introduced. */
  ghost predicate Orderly(s: State, step: Step, id: SlotId, t: nat)
    requires Enabled(s, step)
  {
    match step
    case Start(_, _) => true
    case Go(call) => call != t && s.calls[call].id == id ==> s.calls[call].Finding? && s.calls[call].pos < |s.rows|
    case Remove(row) =>
      !Held(s.rows[row], id) && forall c :: c in s.calls && Holds(s.calls[c]) ==> s.calls[c].row != row
  }

  ghost predicate OrderlyRun(s: State, run: seq<Step>, id: SlotId, t: nat)
    requires Legal(s, run)
    decreases run
  {
    run == [] || (Orderly(s, run[0], id, t) && OrderlyRun(Apply(s, run[0]), run[1..], id, t))
  }

  /** The row the call has made the id's, if it has come that far. */
  function RowOf(pc: Pc): Option<nat> {
    match pc
    case Finding(_, _) => None
    case Claiming(_, _) => None
    case Writing(_, row) => Some(row)
    case Checking(_, row, _) => Some(row)
    case Done(_, index, _) => index
  }

  /** The id is in that row and in no other, and whoever has an answer has that one. */
  ghost predicate Sole(s: State, id: SlotId, t: nat) {
    && t in s.calls && s.calls[t].id == id
    && (forall i :: 0 <= i < |s.rows| ==> (Held(s.rows[i], id) <==> RowOf(s.calls[t]) == Some(i)))
    && (RowOf(s.calls[t]).Some? ==> RowOf(s.calls[t]).value < |s.rows|)
    && (s.calls[t].Done? && s.calls[t].index.Some? ==> s.rows[s.calls[t].index.value] == Live(id))
    && (forall c :: c in s.calls && c != t && s.calls[c].id == id ==>
          s.calls[c].Finding? || (s.calls[c].Done? && s.calls[c].index.Some? && s.calls[c].index == RowOf(s.calls[t])))
  }

  lemma OrderlyHolding(s: State, step: Step, id: SlotId, t: nat)
    requires Holding(s) && Enabled(s, step) && Orderly(s, step, id, t)
    ensures Holding(Apply(s, step))
  {
    if !step.Remove? { HoldingStep(s, step); }
  }

  lemma SoleStep(s: State, step: Step, id: SlotId, t: nat)
    requires Holding(s) && Sole(s, id, t) && Enabled(s, step) && Orderly(s, step, id, t)
    ensures Sole(Apply(s, step), id, t)
  {
    if step.Go? { NextWrites(s.rows, s.calls[step.call]); }
  }

  /** Whatever else is added, given back or removed, the one call that introduces an id gives it one row, keeps it,
      and everyone who looks the id up meanwhile is answered that row. */
  lemma {:induction false} OneIntroducerIsEnough(s: State, run: seq<Step>, id: SlotId, t: nat)
    requires Holding(s) && Sole(s, id, t) && Legal(s, run) && OrderlyRun(s, run, id, t)
    ensures Sole(After(s, run), id, t)
    decreases run
  {
    if run != [] {
      OrderlyHolding(s, run[0], id, t);
      SoleStep(s, run[0], id, t);
      OneIntroducerIsEnough(Apply(s, run[0]), run[1..], id, t);
    }
  }

  // ----- where the promise ends -----

  ghost predicate Reaches(s0: State, run: seq<Step>, s: State) {
    Legal(s0, run) && After(s0, run) == s
  }

  lemma {:induction false} OneMore(s0: State, run: seq<Step>, step: Step, id: SlotId)
    requires Legal(s0, run) && Enabled(After(s0, run), step)
    ensures Legal(s0, run + [step]) && After(s0, run + [step]) == Apply(After(s0, run), step)
    ensures Undisturbed(s0, run, id) && Quiet(After(s0, run), step, id) ==> Undisturbed(s0, run + [step], id)
    decreases run
  {
    if run == [] {
      assert run + [step] == [step] && [step][1..] == [];
    } else {
      assert (run + [step])[0] == run[0] && (run + [step])[1..] == run[1..] + [step];
      OneMore(Apply(s0, run[0]), run[1..], step, id);
    }
  }

  predicate Leads(rows: seq<Row>, pc: Pc, rows': seq<Row>, pc': Pc)
    requires !pc.Done? && (pc.Writing? || pc.Checking? ==> pc.row < |rows|)
  {
    var next := Next(rows, pc);
    |next.0| == |rows'| && (forall i :: 0 <= i < |rows'| ==> next.0[i] == rows'[i]) && next.1 == pc'
  }

  /** The run, one step longer, and where it leads. */
  lemma Goes(s0: State, run: seq<Step>, s: State, call: nat, rows: seq<Row>, pc: Pc)
    returns (longer: seq<Step>, next: State)
    requires Reaches(s0, run, s) && Enabled(s, Go(call)) && Leads(s.rows, s.calls[call], rows, pc)
    ensures next == State(rows, s.calls[call := pc]) && Reaches(s0, longer, next)
    ensures Undisturbed(s0, run, pc.id) ==> Undisturbed(s0, longer, pc.id)
  {
    assert Next(s.rows, s.calls[call]).0 == rows;
    OneMore(s0, run, Go(call), pc.id);
    longer, next := run + [Go(call)], Apply(s, Go(call));
  }

  lemma Starts(s0: State, run: seq<Step>, s: State, call: nat, id: SlotId) returns (longer: seq<Step>, next: State)
    requires Reaches(s0, run, s) && call !in s.calls
    ensures next == s.(calls := s.calls[call := Finding(id, 0)]) && Reaches(s0, longer, next)
    ensures Undisturbed(s0, run, id) ==> Undisturbed(s0, longer, id)
  {
    OneMore(s0, run, Start(call, id), id);
    longer, next := run + [Start(call, id)], Apply(s, Start(call, id));
  }

  /** A look-up that finds no live row of the id from some row on goes on to claim. */
  lemma {:induction false} LooksOn(s0: State, run: seq<Step>, s: State, call: nat, id: SlotId, pos: nat)
    returns (longer: seq<Step>, next: State)
    requires Reaches(s0, run, s) && call in s.calls && s.calls[call] == Finding(id, pos) && pos <= |s.rows|
    requires forall i :: pos <= i < |s.rows| ==> s.rows[i] != Live(id)
    ensures next == s.(calls := s.calls[call := Claiming(id, 0)]) && Reaches(s0, longer, next)
    ensures Undisturbed(s0, run, id) ==> Undisturbed(s0, longer, id)
    decreases |s.rows| - pos
  {
    if pos == |s.rows| {
      longer, next := Goes(s0, run, s, call, s.rows, Claiming(id, 0));
    } else {
      longer, next := Goes(s0, run, s, call, s.rows, Finding(id, pos + 1));
      longer, next := LooksOn(s0, longer, next, call, id, pos + 1);
      assert s.calls[call := Finding(id, pos + 1)][call := Claiming(id, 0)] == s.calls[call := Claiming(id, 0)];
    }
  }

  /** A new call that finds none at all. */
  lemma LooksInVain(s0: State, run: seq<Step>, s: State, call: nat, id: SlotId)
    returns (longer: seq<Step>, next: State)
    requires Reaches(s0, run, s) && call !in s.calls && forall i :: 0 <= i < |s.rows| ==> s.rows[i] != Live(id)
    ensures next == s.(calls := s.calls[call := Claiming(id, 0)]) && Reaches(s0, longer, next)
    ensures Undisturbed(s0, run, id) ==> Undisturbed(s0, longer, id)
  {
    longer, next := Starts(s0, run, s, call, id);
    longer, next := LooksOn(s0, longer, next, call, id, 0);
    assert s.calls[call := Finding(id, 0)][call := Claiming(id, 0)] == s.calls[call := Claiming(id, 0)];
  }

  /** Two calls claim one id, and the second's row is live before the first's. */
  lemma SecondIsLiveFirst(id: SlotId) returns (run: seq<Step>, s: State)
    ensures var s0 := State([Free, Free], map[]);
            Reaches(s0, run, s) && Undisturbed(s0, run, id)
    ensures s == State([Claimed(id), Live(id)], map[0 := Writing(id, 0), 1 := Checking(id, 1, 0)])
  {
    var s0 := State([Free, Free], map[]);
    run, s := LooksInVain(s0, [], s0, 0, id);
    run, s := Goes(s0, run, s, 0, [Claimed(id), Free], Writing(id, 0));
    run, s := LooksInVain(s0, run, s, 1, id);
    run, s := Goes(s0, run, s, 1, [Claimed(id), Free], Claiming(id, 1));
    run, s := Goes(s0, run, s, 1, [Claimed(id), Claimed(id)], Writing(id, 1));
    run, s := Goes(s0, run, s, 1, [Claimed(id), Live(id)], Checking(id, 1, 0));
  }

  /** Three calls and no removal: the third looks the id up while the second's row is live and the first's is not
      yet, and is left with a row that was given back. */
  lemma LookUpsCanGoStale(id: SlotId)
    ensures var s0 := State([Free, Free], map[]);
            exists run, s :: Reaches(s0, run, s) && Undisturbed(s0, run, id)
              && 2 in s.calls && s.calls[2] == Done(id, Some(1), false) && s.rows == [Live(id), Free]
  {
    var s0 := State([Free, Free], map[]);
    var run, s := SecondIsLiveFirst(id);
    run, s := Starts(s0, run, s, 2, id);
    run, s := Goes(s0, run, s, 2, [Claimed(id), Live(id)], Finding(id, 1));
    run, s := Goes(s0, run, s, 2, [Claimed(id), Live(id)], Done(id, Some(1), false));
    run, s := Goes(s0, run, s, 0, [Live(id), Live(id)], Checking(id, 0, 0));
    run, s := Goes(s0, run, s, 1, [Live(id), Free], Done(id, Some(0), true));
  }

  /** One call has its row above another device's, and a second is about to claim. */
  lemma OneHasItsRow(id: SlotId, other: SlotId) returns (run: seq<Step>, s: State)
    requires id != other
    ensures Reaches(State([Live(other), Free], map[]), run, s)
    ensures s == State([Live(other), Live(id)], map[0 := Done(id, Some(1), true), 1 := Claiming(id, 0)])
  {
    var s0 := State([Live(other), Free], map[]);
    run, s := LooksInVain(s0, [], s0, 0, id);
    run, s := Goes(s0, run, s, 0, [Live(other), Free], Claiming(id, 1));
    run, s := Goes(s0, run, s, 0, [Live(other), Claimed(id)], Writing(id, 1));
    run, s := LooksInVain(s0, run, s, 1, id);
    run, s := Goes(s0, run, s, 0, [Live(other), Live(id)], Checking(id, 1, 0));
    run, s := Goes(s0, run, s, 0, [Live(other), Live(id)], Checking(id, 1, 1));
    run, s := Goes(s0, run, s, 0, [Live(other), Live(id)], Done(id, Some(1), true));
  }

  /** Two calls and one removal: the row removed below the first call's is claimed by the second, and both rows
      stay live with the id. */
  lemma RemovalCanLeaveTwoRows(id: SlotId, other: SlotId)
    requires id != other
    ensures var s0 := State([Live(other), Free], map[]);
            exists run, s :: Reaches(s0, run, s) && s.rows == [Live(id), Live(id)]
              && 0 in s.calls && s.calls[0] == Done(id, Some(1), true)
              && 1 in s.calls && s.calls[1] == Done(id, Some(0), true)
  {
    var s0 := State([Live(other), Free], map[]);
    var run, s := OneHasItsRow(id, other);
    OneMore(s0, run, Remove(0), id);
    run, s := run + [Remove(0)], Apply(s, Remove(0));
    run, s := Goes(s0, run, s, 1, [Claimed(id), Live(id)], Writing(id, 0));
    run, s := Goes(s0, run, s, 1, [Live(id), Live(id)], Checking(id, 0, 0));
    run, s := Goes(s0, run, s, 1, [Live(id), Live(id)], Done(id, Some(0), true));
  }

  /** Two calls for another id hold two rows. */
  lemma TwoUnderWay(other: SlotId) returns (run: seq<Step>, s: State)
    ensures Reaches(State([Free, Free, Free], map[]), run, s)
    ensures s.rows == [Claimed(other), Claimed(other), Free]
    ensures s.calls == map[0 := Writing(other, 0), 1 := Writing(other, 1)]
  {
    var s0 := State([Free, Free, Free], map[]);
    run, s := LooksInVain(s0, [], s0, 0, other);
    run, s := Goes(s0, run, s, 0, [Claimed(other), Free, Free], Writing(other, 0));
    run, s := LooksInVain(s0, run, s, 1, other);
    run, s := Goes(s0, run, s, 1, [Claimed(other), Free, Free], Claiming(other, 1));
    run, s := Goes(s0, run, s, 1, [Claimed(other), Claimed(other), Free], Writing(other, 1));
  }

  /** A call for the id holds the third, and one more has looked in vain. */
  lemma FourUnderWay(id: SlotId, other: SlotId) returns (run: seq<Step>, s: State)
    requires id != other
    ensures Reaches(State([Free, Free, Free], map[]), run, s)
    ensures s.rows == [Claimed(other), Claimed(other), Claimed(id)]
    ensures s.calls == map[0 := Writing(other, 0), 1 := Writing(other, 1), 2 := Writing(id, 2), 3 := Claiming(id, 0)]
  {
    var s0 := State([Free, Free, Free], map[]);
    run, s := TwoUnderWay(other);
    run, s := LooksInVain(s0, run, s, 2, id);
    run, s := Goes(s0, run, s, 2, [Claimed(other), Claimed(other), Free], Claiming(id, 1));
    run, s := Goes(s0, run, s, 2, [Claimed(other), Claimed(other), Free], Claiming(id, 2));
    run, s := Goes(s0, run, s, 2, [Claimed(other), Claimed(other), Claimed(id)], Writing(id, 2));
    run, s := LooksInVain(s0, run, s, 3, id);
  }

  /** All three rows are live. */
  lemma ThreeLive(id: SlotId, other: SlotId) returns (run: seq<Step>, s: State)
    requires id != other
    ensures Reaches(State([Free, Free, Free], map[]), run, s)
    ensures s.rows == [Live(other), Live(other), Live(id)]
    ensures s.calls == map[0 := Checking(other, 0, 0), 1 := Checking(other, 1, 0), 2 := Checking(id, 2, 0),
                           3 := Claiming(id, 1)]
  {
    var s0 := State([Free, Free, Free], map[]);
    run, s := FourUnderWay(id, other);
    run, s := Goes(s0, run, s, 3, [Claimed(other), Claimed(other), Claimed(id)], Claiming(id, 1));
    run, s := Goes(s0, run, s, 0, [Live(other), Claimed(other), Claimed(id)], Checking(other, 0, 0));
    run, s := Goes(s0, run, s, 1, [Live(other), Live(other), Claimed(id)], Checking(other, 1, 0));
    run, s := Goes(s0, run, s, 2, [Live(other), Live(other), Live(id)], Checking(id, 2, 0));
  }

  /** The id's first call has its answer: the third row. */
  lemma ThirdRowAnswered(id: SlotId, other: SlotId) returns (run: seq<Step>, s: State)
    requires id != other
    ensures Reaches(State([Free, Free, Free], map[]), run, s)
    ensures s.rows == [Live(other), Live(other), Live(id)]
    ensures s.calls == map[0 := Checking(other, 0, 0), 1 := Checking(other, 1, 0), 2 := Done(id, Some(2), true),
                           3 := Claiming(id, 1)]
  {
    var s0 := State([Free, Free, Free], map[]);
    run, s := ThreeLive(id, other);
    run, s := Goes(s0, run, s, 2, [Live(other), Live(other), Live(id)], Checking(id, 2, 1));
    run, s := Goes(s0, run, s, 2, [Live(other), Live(other), Live(id)], Checking(id, 2, 2));
    run, s := Goes(s0, run, s, 2, [Live(other), Live(other), Live(id)], Done(id, Some(2), true));
  }

  /** No removal, two calls for another id and two for the id: the row the other id gives back is claimed between,
      and the id keeps two live rows with two answers. */
  lemma GivingBackCanLeaveTwoRows(id: SlotId, other: SlotId)
    requires id != other
    ensures var s0 := State([Free, Free, Free], map[]);
            exists run, s :: Reaches(s0, run, s) && s.rows == [Live(other), Live(id), Live(id)]
              && 2 in s.calls && s.calls[2] == Done(id, Some(2), true)
              && 3 in s.calls && s.calls[3] == Done(id, Some(1), true)
  {
    var s0 := State([Free, Free, Free], map[]);
    var run, s := ThirdRowAnswered(id, other);
    run, s := Goes(s0, run, s, 1, [Live(other), Free, Live(id)], Done(other, Some(0), true));
    run, s := Goes(s0, run, s, 3, [Live(other), Claimed(id), Live(id)], Writing(id, 1));
    run, s := Goes(s0, run, s, 3, [Live(other), Live(id), Live(id)], Checking(id, 1, 0));
    run, s := Goes(s0, run, s, 3, s.rows, Checking(id, 1, 1));
    run, s := Goes(s0, run, s, 3, s.rows, Done(id, Some(1), true));
  }
}

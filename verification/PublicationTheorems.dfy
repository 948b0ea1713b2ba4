/**
 The promises of the slot router, over every run of the publication protocol: any number of
 publications, readers, heartbeats, installs and mic senders, interleaved step by step.
 */
module PublicationTheorems {
  import opened Basics
  import opened Routes
  import opened Publication
  import opened PublicationSafety

  ghost predicate Reachable(s: State) {
    exists run :: Reaches(run, s)
  }

  ghost predicate Reaches(run: seq<Step>, s: State) {
    Legal(Initial, run) && After(Initial, run) == s
  }

  lemma ReachableInv(s: State)
    requires Reachable(s)
    ensures Inv(s)
  {
    var run :| Reaches(run, s);
    InitialInv();
    RunKeeps(Initial, run);
  }

  // ----- reclamation -----

  /** No reader inside a bracket ever holds a table that was freed or is about to be. */
  lemma NoReaderHoldsAFreedTable(s: State, r: Reader)
    requires Reachable(s) && r in s.grace.brackets && s.grace.brackets[r].Loaded?
    ensures var t := s.grace.brackets[r].table;
            t != 0 ==> t <= |s.memory.tables| && t !in s.memory.freed && t !in s.memory.retired
  {
    ReachableInv(s);
    ReadersNeverShare(s.threads, r, r);
    assert s.grace.brackets[r].table != 0 ==> s.grace.brackets[r].table !in s.memory.retired + s.memory.freed;
  }

  /** Tables are freed once each: what is freed is never current or retired again, and when the
      router is gone every table it ever published has been freed. */
  lemma EveryTableIsFreedOnce(s: State, t: Address)
    requires Reachable(s)
    ensures var m := s.memory;
            && (t in m.freed ==> 0 < t <= |m.tables| && t !in m.retired && t != m.published
                                 && t != m.hotPointer && t != m.micPointer)
            && (m.writer.Gone? ==> (t in m.freed <==> 0 < t <= |m.tables|))
  {
    ReachableInv(s);
    var m := s.memory;
    assert t in m.freed ==> t in m.retired + m.freed;
    assert m.writer.Gone? ==> m.retired + m.freed == m.freed;
  }

  // ----- the two atomics and the owner -----

  /** With the lock free, or held by a heartbeat, the owner and both atomics are one table, and it
      is neither retired nor freed; during a publication the atomics are at most one apart. */
  lemma PointersAgree(s: State)
    requires Reachable(s)
    ensures var m := s.memory;
            && (m.writer.Idle? || m.writer.Beating? ==>
                  m.hotPointer == m.micPointer == m.published == |m.tables|
                  && m.published !in m.retired + m.freed)
            && (m.writer.Busy? && m.writer.job.Republish? ==>
                  m.micPointer <= m.hotPointer <= m.micPointer + 1 && m.hotPointer <= |m.tables|)
  {
    ReachableInv(s);
  }

  /** Publication order, with null after everything once the destructor has stored it. */
  function Order(m: Memory, d: Domain): nat {
    if Closing(m) && Pointer(m, d) == 0 then |m.tables| + 1 else Pointer(m, d)
  }

  lemma WriterAdvances(m: Memory, g: Grace, step: Step, d: Domain)
    requires Pointed(m) && WriterEnabled(m, g, step)
    ensures Order(m, d) <= Order(WriterApply(m, g, step), d)
    ensures Oldest(m) <= Oldest(WriterApply(m, g, step))
    ensures m.tables <= WriterApply(m, g, step).tables
  {
  }

  lemma StepAdvances(s: State, step: Step, d: Domain)
    requires Inv(s) && Enabled(s, step)
    ensures Order(s.memory, d) <= Order(Apply(s, step).memory, d)
    ensures Oldest(s.memory) <= Oldest(Apply(s, step).memory)
    ensures s.memory.tables <= Apply(s, step).memory.tables
    ensures s.log <= Apply(s, step).log
  {
    if WriterEnabled(s.memory, s.grace, step) { WriterAdvances(s.memory, s.grace, step, d); }
  }

  lemma {:induction false} RunAdvances(s: State, run: seq<Step>, d: Domain)
    requires Inv(s) && Legal(s, run)
    ensures Order(s.memory, d) <= Order(After(s, run).memory, d)
    ensures Oldest(s.memory) <= Oldest(After(s, run).memory)
    ensures s.memory.tables <= After(s, run).memory.tables
    ensures s.log <= After(s, run).log
    decreases run
  {
    if run != [] {
      StepKeeps(s, run[0]);
      StepAdvances(s, run[0], d);
      RunAdvances(Apply(s, run[0]), run[1..], d);
    }
  }

  /** The destructor has stored null. */
  predicate Nulled(m: Memory, d: Domain) {
    Closing(m) && Pointer(m, d) == 0
  }

  lemma ClosingStep(s: State, step: Step, d: Domain)
    requires Enabled(s, step)
    ensures Closing(s.memory) ==> Closing(Apply(s, step).memory)
    ensures Nulled(s.memory, d) ==> Nulled(Apply(s, step).memory, d)
  {
  }

  lemma {:induction false} ClosingPersists(s: State, run: seq<Step>, d: Domain)
    requires Legal(s, run)
    ensures Closing(s.memory) ==> Closing(After(s, run).memory)
    ensures Nulled(s.memory, d) ==> Nulled(After(s, run).memory, d)
    decreases run
  {
    if run != [] {
      ClosingStep(s, run[0], d);
      ClosingPersists(Apply(s, run[0]), run[1..], d);
    }
  }

  /** What a reader loads at one time and what it loads later. */
  ghost predicate Later(first: Address, second: Address, closed: bool, closing: bool) {
    && (second != 0 ==> first <= second)
    && (second == 0 ==> first == 0 || closing)
    && (first == 0 && closed ==> second == 0)
  }

  lemma PointerNeverGoesBack(s: State, run: seq<Step>, d: Domain)
    requires Inv(s) && Legal(s, run)
    ensures var m := After(s, run).memory;
            Later(Pointer(s.memory, d), Pointer(m, d), Closing(s.memory), Closing(m))
  {
    RunAdvances(s, run, d);
    ClosingPersists(s, run, d);
    RunKeeps(s, run);
  }

  /** A reader's successive loads never go back to an earlier table: a null follows a table only once the router is
      being destroyed, and after a null loaded while it is there is no table again. */
  lemma LoadsNeverGoBack(s: State, r: Reader, between: seq<Step>)
    requires Reachable(s) && Enabled(s, Load(r))
    requires Legal(Apply(s, Load(r)), between)
    requires Enabled(After(Apply(s, Load(r)), between), Load(r))
    ensures var first, later := Apply(s, Load(r)), After(Apply(s, Load(r)), between);
            Later(first.grace.brackets[r].table, Apply(later, Load(r)).grace.brackets[r].table,
                  Closing(s.memory), Closing(later.memory))
  {
    ReachableInv(s);
    StepKeeps(s, Load(r));
    PointerNeverGoesBack(Apply(s, Load(r)), between, DomainOf(r));
  }

  // ----- cut-off -----

  /** What a send says about the table it was made from. */
  ghost predicate Justified(tables: seq<RouteTable>, e: Sent) {
    && 0 < e.table <= |tables|
    && var t := tables[e.table - 1];
       match e
       case Heartbeat(i, _) => i < |t.inputs| && t.inputs[i].Some?
       case Sent(Device(i), kind, _) =>
         i < |t.inputs| && t.inputs[i].Some? && (kind.Motion? ==> t.inputs[i].value.motion)
       case Sent(Session(c), _, _) => FeedbackFor(t, c).Some?
       case Sent(Sender(_), _, _) => false
       case MicSent(slot, _) => MicFor(t, slot).Some?
  }

  lemma StepSends(s: State, step: Step)
    requires Inv(s) && Enabled(s, step)
    ensures forall k :: |s.log| <= k < |Apply(s, step).log| ==>
              Oldest(s.memory) <= Apply(s, step).log[k].table && Justified(s.memory.tables, Apply(s, step).log[k])
  {
    if SendEnabled(s, step) { SendIsJustified(s, step); }
  }

  lemma SendIsJustified(s: State, step: Step)
    requires Inv(s) && SendEnabled(s, step)
    ensures Oldest(s.memory) <= SendApply(s, step).table && Justified(s.memory.tables, SendApply(s, step))
  {
    if step.Use? { ReadersNeverShare(s.threads, step.r, step.r); }
  }

  /** Every send of a run goes by a table no older than the ones in use when the run began. */
  lemma {:induction false} RunSends(s: State, run: seq<Step>, k: nat)
    requires Inv(s) && Legal(s, run) && |s.log| <= k < |After(s, run).log|
    ensures Oldest(s.memory) <= After(s, run).log[k].table
    ensures Justified(After(s, run).memory.tables, After(s, run).log[k])
    decreases run
  {
    if run != [] {
      var s' := Apply(s, run[0]);
      StepKeeps(s, run[0]);
      StepSends(s, run[0]);
      StepAdvances(s, run[0], Hot);
      RunAdvances(s', run[1..], Hot);
      if |s'.log| <= k { RunSends(s', run[1..], k); }
    }
  }

  ghost predicate FromDevice(e: Sent, row: nat) {
    e == Heartbeat(row, e.table) || (e.Sent? && e.reader == Device(row))
  }

  /** No table published as number `first` or later routes the row. */
  ghost predicate NoRouteSince(tables: seq<RouteTable>, first: Address, row: nat) {
    forall n :: 0 <= n < |tables| && first <= n + 1 && row < |tables[n].inputs| ==> tables[n].inputs[row].None?
  }

  ghost predicate NoMotionSince(tables: seq<RouteTable>, first: Address, row: nat) {
    forall n :: 0 <= n < |tables| && first <= n + 1 && row < |tables[n].inputs| && tables[n].inputs[row].Some? ==>
      !tables[n].inputs[row].value.motion
  }

  /** Once a publication has returned, nothing more is sent for a row under an older table, and
      nothing at all until a table with a route for the row is published. */
  lemma CutOff(s: State, run: seq<Step>, row: nat, k: nat)
    requires Reachable(s) && s.memory.writer.Idle? && Legal(s, run)
    requires |s.log| <= k < |After(s, run).log|
    ensures s.memory.published <= After(s, run).log[k].table
    ensures NoRouteSince(After(s, run).memory.tables, s.memory.published, row) ==>
              !FromDevice(After(s, run).log[k], row)
  {
    ReachableInv(s);
    RunSends(s, run, k);
  }

  /** The same for one row's motion stream and its switch. */
  lemma MotionCutOff(s: State, run: seq<Step>, row: nat, k: nat)
    requires Reachable(s) && s.memory.writer.Idle? && Legal(s, run)
    requires |s.log| <= k < |After(s, run).log|
    requires NoMotionSince(After(s, run).memory.tables, s.memory.published, row)
    ensures After(s, run).log[k] != Sent(Device(row), Motion, After(s, run).log[k].table)
  {
    ReachableInv(s);
    RunSends(s, run, k);
  }

  /** No send is in flight under a table older than the one whose publication has returned. */
  lemma NothingInFlight(s: State, r: Reader)
    requires Reachable(s) && (s.memory.writer.Idle? || s.memory.writer.Beating?)
    requires r in s.grace.brackets && s.grace.brackets[r].Loaded?
    ensures s.grace.brackets[r].table == 0 || s.grace.brackets[r].table == s.memory.published
  {
    ReachableInv(s);
    ReadersNeverShare(s.threads, r, r);
  }

  /** The tables from `first` on were built while no listed slot of the row was bound to a
      connection with a send target. */
  ghost predicate UnboundSince(tables: seq<RouteTable>, first: Address, row: nat,
                               worlds: seq<World>, lists: seq<seq<SlotId>>, registries: seq<Records>) {
    && |worlds| == |lists| == |registries| == |tables|
    && forall n :: 0 <= n < |tables| && first <= n + 1 ==>
         && Refines(worlds[n], lists[n], registries[n], tables[n])
         && forall slot, target :: slot in lists[n] && Holds(registries[n], slot, row) ==>
              !SendsTo(worlds[n], slot, target)
  }

  /** From the bindings to the wire: after a republish that found the row's slot unbound has
      returned, no report, motion, touch or battery packet leaves for the row while it stays so. */
  lemma UnboundSlotFallsSilent(s: State, run: seq<Step>, row: nat, k: nat,
                               worlds: seq<World>, lists: seq<seq<SlotId>>, registries: seq<Records>)
    requires Reachable(s) && s.memory.writer.Idle? && Legal(s, run) && row < MAX_DEVICES
    requires UnboundSince(After(s, run).memory.tables, s.memory.published, row, worlds, lists, registries)
    requires |s.log| <= k < |After(s, run).log|
    ensures !FromDevice(After(s, run).log[k], row)
  {
    ReachableInv(s);
    var tables := After(s, run).memory.tables;
    forall n | 0 <= n < |tables| && s.memory.published <= n + 1 ensures tables[n].inputs[row].None? {
      NoTargetNoRoute(worlds[n], lists[n], registries[n], tables[n], row);
    }
    CutOff(s, run, row, k);
  }

  /** The same for the slot's mic frames, whichever sender carries them. */
  lemma UnboundMicFallsSilent(s: State, run: seq<Step>, slot: SlotId, k: nat,
                              worlds: seq<World>, lists: seq<seq<SlotId>>, registries: seq<Records>)
    requires Reachable(s) && s.memory.writer.Idle? && Legal(s, run)
    requires |worlds| == |lists| == |registries| == |After(s, run).memory.tables|
    requires forall n :: 0 <= n < |worlds| && s.memory.published <= n + 1 ==>
               && Refines(worlds[n], lists[n], registries[n], After(s, run).memory.tables[n])
               && forall target :: slot in lists[n] ==> !SendsTo(worlds[n], slot, target)
    requires |s.log| <= k < |After(s, run).log|
    ensures After(s, run).log[k] != MicSent(slot, After(s, run).log[k].table)
  {
    ReachableInv(s);
    RunSends(s, run, k);
    var n := After(s, run).log[k].table - 1;
    if After(s, run).log[k] == MicSent(slot, n + 1) {
      NoTargetNoMic(worlds[n], lists[n], After(s, run).memory.tables[n].mics, slot);
    }
  }

  // ----- the destructor -----

  lemma GoneStepsSendNothing(s: State, step: Step)
    requires Inv(s) && s.memory.writer.Gone? && Enabled(s, step)
    ensures Apply(s, step).memory == s.memory && Apply(s, step).log == s.log
  {
    if step.Use? { ReadersNeverShare(s.threads, step.r, step.r); }
  }

  lemma {:induction false} GoneRunsSendNothing(s: State, run: seq<Step>)
    requires Inv(s) && s.memory.writer.Gone? && Legal(s, run)
    ensures After(s, run).memory == s.memory && After(s, run).log == s.log
    ensures forall r :: r in After(s, run).grace.brackets ==>
              r.Sender? && (After(s, run).grace.brackets[r].Entered? || After(s, run).grace.brackets[r] == Loaded(0))
    decreases run
  {
    if run == [] {
      forall r | r in s.grace.brackets
        ensures r.Sender? && (s.grace.brackets[r].Entered? || s.grace.brackets[r] == Loaded(0))
      {
        ReadersNeverShare(s.threads, r, r);
      }
    } else {
      StepKeeps(s, run[0]);
      GoneStepsSendNothing(s, run[0]);
      GoneRunsSendNothing(Apply(s, run[0]), run[1..]);
    }
  }

  /** Once the destructor has returned, device and session threads are outside their brackets, and
      a mic sender kept past the router loads null, touches no table and sends nothing. */
  lemma SendersKeptPastTheRouterSendNothing(s: State, run: seq<Step>)
    requires Reachable(s) && s.memory.writer.Gone? && Legal(s, run)
    ensures After(s, run).memory == s.memory && After(s, run).log == s.log
    ensures forall r :: r in After(s, run).grace.brackets ==>
              r.Sender? && (After(s, run).grace.brackets[r].Entered? || After(s, run).grace.brackets[r] == Loaded(0))
  {
    ReachableInv(s);
    GoneRunsSendNothing(s, run);
  }

  // ----- session participants -----

  /** In every interleaving a session keeps the participant it was given. */
  lemma {:induction false} SessionsKeepTheirParticipant(s: State, run: seq<Step>, conn: ConnId)
    requires Legal(s, run) && conn in s.threads.sessions
    ensures conn in After(s, run).threads.sessions
    ensures After(s, run).threads.sessions[conn] == s.threads.sessions[conn]
    decreases run
  {
    if run != [] { SessionsKeepTheirParticipant(Apply(s, run[0]), run[1..], conn); }
  }

  // ----- mic participants -----

  /** How many entries an injective map has is how many values it has. */
  lemma {:induction false} InjectiveSize(owners: map<nat, nat>)
    requires forall id, other :: id in owners && other in owners && owners[id] == owners[other] ==> id == other
    ensures |owners.Values| == |owners|
    decreases |owners|
  {
    if owners != map[] {
      var id :| id in owners;
      var rest := owners - {id};
      assert |rest.Keys| == |owners.Keys| - 1 by { assert rest.Keys == owners.Keys - {id}; }
      InjectiveSize(rest);
      assert owners.Values == rest.Values + {owners[id]} by {
        forall v | v in owners.Values ensures v in rest.Values + {owners[id]} {
          var o :| o in owners && owners[o] == v;
          if o != id { assert rest[o] == v; }
        }
        forall v | v in rest.Values ensures v in owners.Values {
          var o :| o in rest && rest[o] == v;
          assert owners[o] == v;
        }
      }
      assert owners[id] !in rest.Values;
    }
  }

  function Below(n: nat): (all: set<nat>)
    ensures |all| == n
    ensures forall b :: b in all <==> 0 <= b < n
  {
    if n == 0 then {} else Below(n - 1) + {n - 1}
  }

  lemma SizeOfFull(bits: set<nat>, n: nat)
    requires forall b :: b in bits ==> b < n
    ensures |bits| <= n
    ensures |bits| == n <==> forall b :: 0 <= b < n ==> b in bits
  {
    var all := Below(n);
    SubsetSize(bits, all);
    if b :| 0 <= b < n && b !in bits {
      SubsetSize(bits, all - {b});
    } else {
      assert bits == all;
    }
  }

  lemma FullWordMeansAllOwned(taken: seq<bool>, owners: map<nat, nat>)
    requires BitsMatch(taken, owners)
    ensures |owners| <= SENDERS
    ensures Full(taken) <==> |owners| == SENDERS
  {
    InjectiveSize(owners);
    SizeOfFull(owners.Values, SENDERS);
    assert forall b :: 0 <= b < SENDERS ==> (taken[b] <==> b in owners.Values);
  }

  /** The word is full exactly while all 64 participants belong to senders alive. */
  lemma FullWordMeansSixtyFourSenders(s: State)
    requires Reachable(s)
    ensures |Owners(s.threads.senders)| <= 64
    ensures Full(s.threads.taken) <==> |Owners(s.threads.senders)| == 64
  {
    ReachableInv(s);
    FullWordMeansAllOwned(s.threads.taken, Owners(s.threads.senders));
  }

  lemma {:induction false} SubsetSize(a: set<nat>, b: set<nat>)
    requires a <= b
    ensures |a| <= |b|
  {
    if a != {} {
      var x :| x in a;
      SubsetSize(a - {x}, b - {x});
    }
  }

  /** Senders alive own pairwise distinct participants, and a bit is set exactly when one owns it. */
  lemma SendersOwnTheirParticipants(s: State, bit: nat)
    requires Reachable(s) && bit < SENDERS
    ensures var owners := Owners(s.threads.senders);
            && |s.threads.taken| == SENDERS
            && (s.threads.taken[bit] <==> exists id :: id in owners && owners[id] == bit)
            && (forall id, other ::
                  id in owners && other in owners && owners[id] == owners[other] == bit ==> id == other)
  {
    ReachableInv(s);
  }

  /** A run up to a step, and on from there. */
  lemma {:induction false} RunSplits(s: State, run: seq<Step>, k: nat)
    requires Legal(s, run) && k <= |run|
    ensures Legal(s, run[..k]) && Legal(After(s, run[..k]), run[k..])
    ensures After(After(s, run[..k]), run[k..]) == After(s, run)
    decreases run
  {
    if k == 0 {
      assert run[..0] == [] && run[0..] == run;
    } else {
      RunSplits(Apply(s, run[0]), run[1..], k - 1);
      assert run[..k][0] == run[0] && run[..k][1..] == run[1..][..k - 1] && run[1..][k - 1..] == run[k..];
    }
  }

  lemma LastStep(s: State, run: seq<Step>)
    requires Legal(s, run) && run != []
    ensures var n := |run| - 1;
            && Legal(s, run[..n]) && Enabled(After(s, run[..n]), run[n])
            && After(s, run) == Apply(After(s, run[..n]), run[n])
  {
    var n := |run| - 1;
    RunSplits(s, run, n);
    assert run[n..] == [run[n]] && [run[n]][1..] == [];
  }

  /** A step of the sender call `id`. */
  predicate StepOf(step: Step, id: nat) {
    match step
    case Observe(i, _) => i == id
    case CasWin(i) => i == id
    case CasLose(i) => i == id
    case Refuse(i) => i == id
    case MakeLease(i) => i == id
    case Release(i) => i == id
    case _ => false
  }

  /** The call `id` read the shared word at step k of the run and has done nothing since. */
  ghost predicate LastRead(s: State, run: seq<Step>, id: nat, k: nat) {
    && k < |run| && Legal(s, run[..k])
    && StepOf(run[k], id) && (run[k].Observe? || run[k].CasLose?)
    && forall m :: k < m < |run| ==> !StepOf(run[m], id)
  }

  lemma OtherStepsKeepTheCall(s: State, step: Step, id: nat)
    requires Enabled(s, step) && id in Apply(s, step).threads.senders && Apply(s, step).threads.senders[id].Observed?
    ensures StepOf(step, id) ==>
      && (step.Observe? || step.CasLose?)
      && Apply(s, step).threads.senders[id].word == s.threads.taken
    ensures !StepOf(step, id) ==>
      id in s.threads.senders && s.threads.senders[id] == Apply(s, step).threads.senders[id]
  {
  }

  /** The word a sender call is working with is the one the shared word held at the call's own last read, after
      which the call has done nothing. */
  lemma {:induction false} ObservedWordWasReal(s: State, run: seq<Step>, id: nat) returns (k: nat)
    requires Legal(s, run) && id in After(s, run).threads.senders && After(s, run).threads.senders[id].Observed?
    requires id !in s.threads.senders || s.threads.senders[id] != After(s, run).threads.senders[id]
    ensures LastRead(s, run, id, k)
    ensures After(s, run[..k]).threads.taken == After(s, run).threads.senders[id].word
    decreases |run|
  {
    var n := |run| - 1;
    LastStep(s, run);
    OtherStepsKeepTheCall(After(s, run[..n]), run[n], id);
    if StepOf(run[n], id) {
      k := n;
    } else {
      k := ObservedWordWasReal(s, run[..n], id);
      assert run[..n][..k] == run[..k];
    }
  }

  /** A call returns the empty sender only if all 64 participants were in use at its own last read of the word. */
  lemma RefusedOnlyWhenAllAreTaken(run: seq<Step>, id: nat) returns (k: nat)
    requires Legal(Initial, run) && Enabled(After(Initial, run), Refuse(id))
    ensures LastRead(Initial, run, id, k)
    ensures |Owners(After(Initial, run[..k]).threads.senders)| == SENDERS
  {
    k := ObservedWordWasReal(Initial, run, id);
    assert Reaches(run[..k], After(Initial, run[..k]));
    FullWordMeansSixtyFourSenders(After(Initial, run[..k]));
  }
}

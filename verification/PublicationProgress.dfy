/**
 The grace wait ends: what a poll can miss, and that no reachable state is stuck.
 */
module PublicationProgress {
  import opened Basics
  import opened Counters
  import opened Publication
  import opened PublicationSafety
  import opened PublicationTheorems

  // ----- what a poll sees -----

  predicate Moves(t: Threads, step: Step, d: Domain, p: nat) {
    (step.Enter? || step.Exit?) && Registered(t, step.r) && DomainOf(step.r) == d && Participant(t, step.r) == p
  }

  /** How often a participant's bracket opened or closed during a run. */
  function Moved(s: State, run: seq<Step>, d: Domain, p: nat): nat
    requires Legal(s, run)
    decreases run
  {
    if run == [] then 0
    else (if Moves(s.threads, run[0], d, p) then 1 else 0) + Moved(Apply(s, run[0]), run[1..], d, p)
  }

  lemma StepCounts(s: State, step: Step, d: Domain, p: nat)
    requires Shaped(s.grace) && Enabled(s, step) && p < Size(d)
    ensures Shaped(Apply(s, step).grace)
    ensures Epochs(s.grace, d)[p] < COUNTER_MODULUS ==> Epochs(Apply(s, step).grace, d)[p] < COUNTER_MODULUS
    ensures Epochs(Apply(s, step).grace, d)[p] ==
            if Moves(s.threads, step, d, p) then Wrapped(Epochs(s.grace, d)[p] + 1) else Epochs(s.grace, d)[p]
  {
  }

  lemma {:induction false} EpochCounts(s: State, run: seq<Step>, d: Domain, p: nat)
    requires Shaped(s.grace) && Legal(s, run) && p < Size(d) && Epochs(s.grace, d)[p] < COUNTER_MODULUS
    ensures Shaped(After(s, run).grace)
    ensures Epochs(After(s, run).grace, d)[p] == Wrapped(Epochs(s.grace, d)[p] + Moved(s, run, d, p))
    decreases run
  {
    if run != [] {
      StepCounts(s, run[0], d, p);
      var s' := Apply(s, run[0]);
      EpochCounts(s', run[1..], d, p);
      WrapsOnce(Epochs(s.grace, d)[p], Moved(s', run[1..], d, p));
    }
  }

  /** A poll tells that the participant moved since its epoch was read, whatever bracket it is in
      now, unless it moved an exact multiple of 2^64 times. */
  lemma PollSeesEveryMove(s: State, run: seq<Step>)
    requires Shaped(s.grace) && Scanning(s.memory, s.grace) && s.memory.writer.stage.seen.Some?
    requires Legal(s, run) && After(s, run).memory.writer == s.memory.writer
    requires var w := s.memory.writer.stage;
             Epochs(s.grace, w.domain)[w.pos] == w.seen.value < COUNTER_MODULUS
    ensures var w := s.memory.writer.stage;
            && Scanning(After(s, run).memory, After(s, run).grace)
            && (Apply(After(s, run), ScanPoll).memory.writer.stage.pos == w.pos + 1
                <==> Wrapped(Moved(s, run, w.domain, w.pos)) != 0)
  {
    var w := s.memory.writer.stage;
    EpochCounts(s, run, w.domain, w.pos);
    BackAtStart(w.seen.value, Moved(s, run, w.domain, w.pos));
  }

  // ----- readers cannot starve the wait -----

  /** The writer waits on one participant, whose epoch it has read. */
  ghost predicate WaitsOn(s: State, w: Stage) {
    && Shaped(s.grace) && Scanning(s.memory, s.grace) && s.memory.writer.stage == w && w.seen.Some?
    && Epochs(s.grace, w.domain)[w.pos] == w.seen.value < COUNTER_MODULUS
  }

  /** While it waits on a participant, only a poll moves the writer, and only on to the next one. */
  lemma OnlyAPollMovesOn(s: State, step: Step)
    requires Shaped(s.grace) && Scanning(s.memory, s.grace) && s.memory.writer.stage.seen.Some? && Enabled(s, step)
    requires Apply(s, step).memory.writer != s.memory.writer
    ensures var w := s.memory.writer.stage;
            step == ScanPoll
            && Apply(s, step).memory.writer == s.memory.writer.(stage := Waiting(w.domain, w.pos + 1, None))
  {
  }

  /** The writer passed the participant it was waiting on at step n of the run. */
  ghost predicate PassedAt(s: State, run: seq<Step>, n: nat) {
    && n < |run| && run[n] == ScanPoll && Legal(s, run[..n]) && Legal(s, run[..n + 1])
    && After(s, run[..n]).memory.writer == s.memory.writer
    && s.memory.writer.Busy? && s.memory.writer.stage.Waiting?
    && var w := s.memory.writer.stage;
       After(s, run[..n + 1]).memory.writer == s.memory.writer.(stage := Waiting(w.domain, w.pos + 1, None))
  }

  lemma {:induction false} MovedOn(s: State, run: seq<Step>, w: Stage) returns (n: nat)
    requires WaitsOn(s, w) && Legal(s, run) && After(s, run).memory.writer != s.memory.writer
    ensures PassedAt(s, run, n)
    decreases |run|
  {
    var m := |run| - 1;
    LastStep(s, run);
    var front := run[..m];
    if After(s, front).memory.writer == s.memory.writer {
      n := m;
      EpochCounts(s, front, w.domain, w.pos);
      OnlyAPollMovesOn(After(s, front), run[m]);
      assert run[..m + 1] == run;
    } else {
      n := MovedOn(s, front, w);
      assert front[..n] == run[..n] && front[..n + 1] == run[..n + 1];
    }
  }

  /** The poll after a move moves on. */
  lemma PollPasses(s: State, run: seq<Step>, w: Stage)
    requires WaitsOn(s, w) && Legal(s, run) && After(s, run).memory.writer == s.memory.writer
    requires 0 < Moved(s, run, w.domain, w.pos) < COUNTER_MODULUS
    ensures Enabled(After(s, run), ScanPoll)
    ensures Apply(After(s, run), ScanPoll).memory.writer ==
            s.memory.writer.(stage := Waiting(w.domain, w.pos + 1, None))
  {
    var later := After(s, run);
    EpochCounts(s, run, w.domain, w.pos);
    PollSeesEveryMove(s, run);
    OnlyAPollMovesOn(later, ScanPoll);
  }

  /** However its readers keep entering and leaving, the writer has passed a participant by the first poll that
      follows a move of it, be that participant inside a new bracket again. */
  lemma ReadersCannotStarveTheWait(s: State, run: seq<Step>, k: nat, w: Stage) returns (n: nat)
    requires WaitsOn(s, w) && Legal(s, run) && k < |run| && run[k] == ScanPoll && Legal(s, run[..k])
    requires 0 < Moved(s, run[..k], w.domain, w.pos) < COUNTER_MODULUS
    ensures n <= k && PassedAt(s, run, n)
  {
    var front := run[..k];
    if After(s, front).memory.writer == s.memory.writer {
      n := k;
      PollPasses(s, front, w);
      RunSplits(s, run, k + 1);
      assert run[..k + 1][..k] == front;
      LastStep(s, run[..k + 1]);
    } else {
      n := MovedOn(s, front, w);
      assert front[..n] == run[..n] && front[..n + 1] == run[..n + 1];
    }
  }

  /** Every other step of a publication brings it nearer its end, whatever its readers do. */
  lemma OnlyAnIdlePollStands(m: Memory, g: Grace, step: Step)
    requires m.writer.Busy? && WriterEnabled(m, g, step) && !step.Free?
    ensures StepsLeft(WriterApply(m, g, step)) < StepsLeft(m)
      || (step == ScanPoll && WriterApply(m, g, step) == m
          && Epochs(g, m.writer.stage.domain)[m.writer.stage.pos] == m.writer.stage.seen.value)
  {
  }

  // ----- nothing is stuck -----

  lemma {:induction false} Concatenated(s: State, a: seq<Step>, b: seq<Step>)
    requires Legal(s, a) && Legal(After(s, a), b)
    ensures Legal(s, a + b) && After(s, a + b) == After(After(s, a), b)
    decreases a
  {
    if a == [] {
      assert a + b == b;
    } else {
      assert (a + b)[0] == a[0] && (a + b)[1..] == a[1..] + b;
      Concatenated(Apply(s, a[0]), a[1..], b);
    }
  }

  lemma CanExit(s: State, r: Reader)
    requires Inv(s) && r in s.grace.brackets && s.grace.brackets[r].Loaded?
    ensures Enabled(s, Exit(r)) && Inv(Apply(s, Exit(r))) && Apply(s, Exit(r)).memory == s.memory
    ensures Apply(s, Exit(r)).grace.brackets == s.grace.brackets - {r}
  {
    ReadersNeverShare(s.threads, r, r);
    StepKeeps(s, Exit(r));
  }

  lemma CanLoad(s: State, r: Reader)
    requires Inv(s) && r in s.grace.brackets && s.grace.brackets[r].Entered?
    ensures Enabled(s, Load(r)) && Inv(Apply(s, Load(r))) && Apply(s, Load(r)).memory == s.memory
    ensures Apply(s, Load(r)).grace.brackets == s.grace.brackets[r := Loaded(Pointer(s.memory, DomainOf(r)))]
    ensures Apply(s, Load(r)).threads == s.threads && Apply(s, Load(r)).log == s.log
  {
    StepKeeps(s, Load(r));
  }

  lemma OneStep(s: State, step: Step)
    requires Enabled(s, step)
    ensures Legal(s, [step]) && After(s, [step]) == Apply(s, step)
  {
    assert [step][1..] == [];
  }

  /** A reader inside its bracket can leave it. */
  lemma ReaderCanLeave(s: State, r: Reader) returns (run: seq<Step>)
    requires Inv(s) && r in s.grace.brackets
    ensures Legal(s, run) && Inv(After(s, run)) && After(s, run).memory == s.memory
    ensures After(s, run).grace.brackets.Keys == s.grace.brackets.Keys - {r}
  {
    if s.grace.brackets[r].Entered? {
      CanLoad(s, r);
      OneStep(s, Load(r));
      CanExit(Apply(s, Load(r)), r);
      OneStep(Apply(s, Load(r)), Exit(r));
      Concatenated(s, [Load(r)], [Exit(r)]);
      run := [Load(r)] + [Exit(r)];
    } else {
      CanExit(s, r);
      OneStep(s, Exit(r));
      run := [Exit(r)];
    }
  }

  /** All readers can. */
  lemma {:induction false} ReadersCanLeave(s: State) returns (run: seq<Step>)
    requires Inv(s)
    ensures Legal(s, run) && Inv(After(s, run))
    ensures After(s, run).memory == s.memory && After(s, run).grace.brackets == map[]
    decreases |s.grace.brackets.Keys|
  {
    if s.grace.brackets == map[] {
      run := [];
    } else {
      var r :| r in s.grace.brackets;
      var first := ReaderCanLeave(s, r);
      var rest := ReadersCanLeave(After(s, first));
      Concatenated(s, first, rest);
      run := first + rest;
    }
  }

  /** Steps left before the publisher or the destructor is done, with nobody inside a bracket. */
  function StepsLeft(m: Memory): nat {
    match m.writer
    case Idle => 0
    case Gone => 0
    case Beating => 1
    case Busy(_, _, stage) =>
      match stage
      case Begun => 1000
      case HotStored => 999
      case MicStored => 998
      case Waiting(d, pos, seen) =>
        (if d.Hot? then 500 else 10) + 2 * (if pos <= Size(d) then Size(d) - pos else 0) + (if seen.None? then 1 else 0)
      case Drained => 1
  }

  function NextStep(m: Memory): Step
    requires !m.writer.Idle? && !m.writer.Gone?
  {
    match m.writer
    case Beating => BeatUnlock
    case Busy(job, _, stage) =>
      match stage
      case Begun => StoreHot
      case HotStored => StoreMic
      case MicStored => Exchange
      case Waiting(d, pos, seen) => if pos >= Size(d) then ScanNext else if seen.None? then ScanRead else ScanPoll
      case Drained => if job.Republish? then Unlock else FreeLast
  }

  /** With no bracket open the next step of the publisher is enabled and brings it nearer its end. */
  lemma NextStepAdvances(s: State)
    requires Inv(s) && s.grace.brackets == map[] && !s.memory.writer.Idle? && !s.memory.writer.Gone?
    ensures Enabled(s, NextStep(s.memory))
    ensures StepsLeft(Apply(s, NextStep(s.memory)).memory) < StepsLeft(s.memory)
    ensures Apply(s, NextStep(s.memory)).grace == s.grace
    ensures Apply(s, NextStep(s.memory)).memory.tables == s.memory.tables
    ensures Closing(Apply(s, NextStep(s.memory)).memory) <==> Closing(s.memory)
  {
    if Scanning(s.memory, s.grace) {
      var w := s.memory.writer.stage;
      assert Epochs(s.grace, w.domain)[w.pos] % 2 == 0;
    }
  }

  /** The publisher alone: no table is begun and no bracket entered. */
  predicate ByPublisher(run: seq<Step>) {
    forall n :: 0 <= n < |run| ==> !run[n].Begin? && !run[n].Enter?
  }

  lemma {:induction false} EmptyRouterFinishes(s: State) returns (run: seq<Step>)
    requires Inv(s) && s.grace.brackets == map[]
    ensures Legal(s, run) && ByPublisher(run)
    ensures if Closing(s.memory) then After(s, run).memory.writer.Gone? else After(s, run).memory.writer.Idle?
    ensures After(s, run).grace == s.grace && After(s, run).memory.tables == s.memory.tables
    decreases StepsLeft(s.memory)
  {
    if s.memory.writer.Idle? || s.memory.writer.Gone? {
      run := [];
    } else {
      NextStepAdvances(s);
      StepKeeps(s, NextStep(s.memory));
      var rest := EmptyRouterFinishes(Apply(s, NextStep(s.memory)));
      run := [NextStep(s.memory)] + rest;
    }
  }

  /** From every reachable state the publication or the destructor in progress can complete. */
  lemma NoReachableStateIsStuck(s: State) returns (run: seq<Step>)
    requires Reachable(s)
    ensures Legal(s, run)
    ensures After(s, run).memory.writer.Idle? || After(s, run).memory.writer.Gone?
  {
    ReachableInv(s);
    var leave := ReadersCanLeave(s);
    var finish := EmptyRouterFinishes(After(s, leave));
    Concatenated(s, leave, finish);
    run := leave + finish;
  }
}

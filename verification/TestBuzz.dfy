/**
 The Diagnostics bench's test buzz: a buzz drives the motors until its own timer stops them, and a
 timer stops them only while its ticket is the pad's latest.
 */
module TestBuzzes {
  import opened Basics
  import opened Counters

  datatype Command = Command(strong: nat, weak: nat)
  const Stop := Command(0, 0)

  datatype Timer = Timer(slot: SlotId, ticket: nat)

  // ----- tickets -----

  function Latest(latest: map<SlotId, nat>, slot: SlotId): nat {
    if slot in latest then latest[slot] else 0
  }

  class TestBuzzTickets {
    var latest: map<SlotId, nat>

    constructor ()
      ensures latest == map[]
    {
      latest := map[];
    }

    method Issue(slot: SlotId) returns (ticket: nat)
      modifies this
      ensures ticket == Wrapped(Latest(old(latest), slot) + 1)
      ensures latest == old(latest)[slot := ticket]
      ensures forall t :: IsLatest(slot, t) <==> t == ticket
      ensures forall other, t :: other != slot ==> (IsLatest(other, t) <==> old(IsLatest(other, t)))
    {
      ticket := Wrapped(Latest(latest, slot) + 1);
      latest := latest[slot := ticket];
    }

    predicate IsLatest(slot: SlotId, ticket: nat)
      reads this
    {
      slot in latest && latest[slot] == ticket
    }
  }

  // ----- buzzes and timers, interleaved -----

  datatype Step = Buzz(slot: SlotId, command: Command) | Fire(timer: Timer)

  // `motors` is the last command written to each pad.
  datatype Bench = Bench(latest: map<SlotId, nat>, pending: multiset<Timer>, motors: map<SlotId, Command>)

  function Apply(b: Bench, step: Step): Bench {
    match step
    case Buzz(slot, command) =>
      var ticket := Wrapped(Latest(b.latest, slot) + 1);
      Bench(b.latest[slot := ticket], b.pending + multiset{Timer(slot, ticket)}, b.motors[slot := command])
    case Fire(timer) =>
      var left := b.pending - multiset{timer};
      if timer.slot in b.latest && b.latest[timer.slot] == timer.ticket
      then b.(pending := left, motors := b.motors[timer.slot := Stop])
      else b.(pending := left)
  }

  function After(run: seq<Step>): Bench {
    if run == [] then Bench(map[], multiset{}, map[]) else Apply(After(run[..|run| - 1]), run[|run| - 1])
  }

  /** Only timers that were started fire, in any order. */
  predicate Legal(run: seq<Step>) {
    run == [] ||
    (Legal(run[..|run| - 1])
     && (run[|run| - 1].Fire? ==> run[|run| - 1].timer in After(run[..|run| - 1]).pending))
  }

  function Issued(run: seq<Step>, slot: SlotId): nat {
    if run == [] then 0
    else Issued(run[..|run| - 1], slot) + if run[|run| - 1].Buzz? && run[|run| - 1].slot == slot then 1 else 0
  }

  /** The command of the latest buzz on a slot. */
  function LastBuzz(run: seq<Step>, slot: SlotId): Command {
    if run == [] then Stop
    else if run[|run| - 1].Buzz? && run[|run| - 1].slot == slot then run[|run| - 1].command
    else LastBuzz(run[..|run| - 1], slot)
  }

  /** The timer of the latest buzz on a slot has yet to fire. */
  predicate LatestPending(run: seq<Step>, slot: SlotId) {
    Timer(slot, Issued(run, slot)) in After(run).pending
  }

  /** `n` buzzes on the slot so far: the last ticket is `n`, and the pending ones are no later. */
  ghost predicate Ordered(b: Bench, slot: SlotId, n: nat) {
    && Latest(b.latest, slot) == n
    && (slot in b.latest <==> n > 0)
    && (forall t :: t in b.pending && t.slot == slot ==> 0 < t.ticket <= n)
    && b.pending[Timer(slot, n)] <= 1
  }

  lemma OrderedAfterBuzz(b: Bench, slot: SlotId, n: nat, command: Command)
    requires Ordered(b, slot, n) && n + 1 < COUNTER_MODULUS
    ensures Ordered(Apply(b, Buzz(slot, command)), slot, n + 1)
  {
    assert Wrapped(n + 1) == n + 1;
    assert Timer(slot, n + 1) !in b.pending;
  }

  lemma OrderedElsewhere(b: Bench, slot: SlotId, n: nat, step: Step)
    requires Ordered(b, slot, n) && (step.Buzz? ==> step.slot != slot)
    ensures Ordered(Apply(b, step), slot, n)
  {
  }

  lemma {:induction false} TimersStayInOrder(run: seq<Step>, slot: SlotId)
    requires Legal(run) && Issued(run, slot) < COUNTER_MODULUS
    ensures Ordered(After(run), slot, Issued(run, slot))
    decreases run
  {
    if run != [] {
      var front, last := run[..|run| - 1], run[|run| - 1];
      TimersStayInOrder(front, slot);
      if last.Buzz? && last.slot == slot {
        OrderedAfterBuzz(After(front), slot, Issued(front, slot), last.command);
      } else {
        OrderedElsewhere(After(front), slot, Issued(front, slot), last);
      }
    }
  }

  /** After n buzzes the motors run the last command while its timer is pending, and are stopped after. */
  ghost predicate Following(b: Bench, slot: SlotId, n: nat, command: Command) {
    && (slot in b.motors <==> n > 0)
    && (n > 0 ==> b.motors[slot] == if Timer(slot, n) in b.pending then command else Stop)
  }

  lemma FollowingAfterBuzz(b: Bench, slot: SlotId, n: nat, command: Command)
    requires Ordered(b, slot, n) && n + 1 < COUNTER_MODULUS
    ensures Following(Apply(b, Buzz(slot, command)), slot, n + 1, command)
  {
    assert Wrapped(n + 1) == n + 1;
  }

  lemma FollowingElsewhere(b: Bench, slot: SlotId, n: nat, command: Command, step: Step)
    requires Ordered(b, slot, n) && Following(b, slot, n, command)
    requires (step.Buzz? ==> step.slot != slot) && (step.Fire? ==> step.timer in b.pending)
    ensures Following(Apply(b, step), slot, n, command)
  {
  }

  lemma {:induction false} MotorsFollow(run: seq<Step>, slot: SlotId)
    requires Legal(run) && Issued(run, slot) < COUNTER_MODULUS
    ensures Following(After(run), slot, Issued(run, slot), LastBuzz(run, slot))
    decreases run
  {
    if run != [] {
      var front, last := run[..|run| - 1], run[|run| - 1];
      TimersStayInOrder(front, slot);
      if last.Buzz? && last.slot == slot {
        FollowingAfterBuzz(After(front), slot, Issued(front, slot), last.command);
      } else {
        MotorsFollow(front, slot);
        FollowingElsewhere(After(front), slot, Issued(front, slot), LastBuzz(front, slot), last);
      }
    }
  }

  /** In every interleaving of fewer than 2^64 buzzes on a pad with their timers, the motors run the
      latest buzz exactly while its timer is pending, and are stopped otherwise. */
  lemma MotorsFollowTheLatestBuzz(run: seq<Step>, slot: SlotId)
    requires Legal(run) && Issued(run, slot) < COUNTER_MODULUS
    ensures slot in After(run).motors <==> Issued(run, slot) > 0
    ensures Issued(run, slot) > 0 ==>
              After(run).motors[slot] == if LatestPending(run, slot) then LastBuzz(run, slot) else Stop
  {
    MotorsFollow(run, slot);
  }

  /** Once every timer has fired, every pad that was driven was last told to stop. */
  lemma AllStoppedInTheEnd(run: seq<Step>, slot: SlotId)
    requires Legal(run) && Issued(run, slot) < COUNTER_MODULUS && After(run).pending == multiset{}
    ensures slot in After(run).motors ==> After(run).motors[slot].strong == 0 && After(run).motors[slot].weak == 0
  {
    MotorsFollowTheLatestBuzz(run, slot);
  }

  // ----- where 64 bits end -----

  lemma WrapsTwice(n: nat)
    ensures Wrapped(Wrapped(n) + 1) == Wrapped(n + 1)
  {
  }

  lemma TicketCountsOn(b: Bench, step: Step, slot: SlotId, n: nat)
    requires Latest(b.latest, slot) == Wrapped(n) && (slot in b.latest <==> n > 0)
    ensures var more := if step.Buzz? && step.slot == slot then 1 else 0;
            var next := Apply(b, step).latest;
            Latest(next, slot) == Wrapped(n + more) && (slot in next <==> n + more > 0)
  {
    WrapsTwice(n);
  }

  /** On every run, however long, a slot's latest ticket is its number of buzzes modulo 2^64. */
  lemma {:induction false} TicketsCountBuzzes(run: seq<Step>, slot: SlotId)
    requires Legal(run)
    ensures Latest(After(run).latest, slot) == Wrapped(Issued(run, slot)) == Issued(run, slot) % 0x1_0000_0000_0000_0000
    ensures slot in After(run).latest <==> Issued(run, slot) > 0
    decreases run
  {
    if run != [] {
      var front := run[..|run| - 1];
      TicketsCountBuzzes(front, slot);
      TicketCountsOn(After(front), run[|run| - 1], slot, Issued(front, slot));
    }
  }

  /** The timer of a slot's n-th buzz. */
  function TimerOf(slot: SlotId, n: nat): Timer {
    Timer(slot, Wrapped(n))
  }

  lemma BuzzAdds(b: Bench, slot: SlotId, command: Command, n: nat)
    requires Latest(b.latest, slot) == Wrapped(n)
    ensures Apply(b, Buzz(slot, command)).pending == b.pending + multiset{TimerOf(slot, n + 1)}
  {
    WrapsTwice(n);
  }

  /** What a slot's n-th timer writes when it fires: a stop exactly when a multiple of 2^64 buzzes followed. */
  ghost predicate StopsAtTheWrap(b: Bench, slot: SlotId, n: nat, total: nat)
    requires n <= total
  {
    Apply(b, Fire(TimerOf(slot, n))).motors ==
    if Wrapped(total - n) == 0 then b.motors[slot := Stop] else b.motors
  }

  lemma FireWrites(b: Bench, slot: SlotId, n: nat, total: nat)
    requires 0 < n <= total && Latest(b.latest, slot) == Wrapped(total) && (slot in b.latest <==> total > 0)
    ensures StopsAtTheWrap(b, slot, n, total)
  {
    SameTicket(n, total - n);
  }

  /** After every run a buzz starts the timer of its number. */
  lemma BuzzStartsItsTimer(run: seq<Step>, slot: SlotId, command: Command)
    requires Legal(run)
    ensures Apply(After(run), Buzz(slot, command)).pending ==
            After(run).pending + multiset{TimerOf(slot, Issued(run, slot) + 1)}
  {
    TicketsCountBuzzes(run, slot);
    BuzzAdds(After(run), slot, command, Issued(run, slot));
  }

  /** After every run the timer of a slot's n-th buzz, firing, stops the motors exactly when the buzzes that
      followed on the slot are a multiple of 2^64; otherwise it writes nothing. */
  lemma StaleTimerStopsOnlyAtTheWrap(run: seq<Step>, slot: SlotId, n: nat)
    requires Legal(run) && 0 < n <= Issued(run, slot)
    ensures StopsAtTheWrap(After(run), slot, n, Issued(run, slot))
  {
    TicketsCountBuzzes(run, slot);
    FireWrites(After(run), slot, n, Issued(run, slot));
  }

  lemma SameTicket(n: nat, more: nat)
    ensures Wrapped(n + more) == Wrapped(n) <==> Wrapped(more) == 0
  {
    BackAtStart(Wrapped(n), more);
    var q := n / COUNTER_MODULUS;
    assert n + more == q * COUNTER_MODULUS + (Wrapped(n) + more);
  }
}

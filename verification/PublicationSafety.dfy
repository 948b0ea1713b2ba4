/**
 What every step of the publication protocol keeps, and what that gives over whole runs.
 */
module PublicationSafety {
  import opened Publication

  // ----- the invariant -----

  ghost predicate Shaped(g: Grace) {
    |g.hot| == Size(Hot) && |g.mic| == Size(Mic)
  }

  /** The mic participants in use: each belongs to a sender that is leased or just past its CAS. */
  function Owners(senders: map<nat, SenderPc>): map<nat, nat> {
    map id | id in senders && !senders[id].Observed? :: senders[id].participant
  }

  /** A bit is set exactly when a sender owns it, and no two senders own the same. */
  ghost predicate BitsMatch(taken: seq<bool>, owners: map<nat, nat>) {
    && |taken| == SENDERS
    && (forall id :: id in owners ==> owners[id] < SENDERS && taken[owners[id]])
    && (forall id, other :: id in owners && other in owners && owners[id] == owners[other] ==> id == other)
    && (forall bit :: 0 <= bit < SENDERS && taken[bit] ==> bit in owners.Values)
  }

  ghost predicate Allotted(t: Threads) {
    && OneEach(t.sessions)
    && BitsMatch(t.taken, Owners(t.senders))
  }

  ghost predicate Inside(t: Threads, g: Grace, r: Reader, d: Domain, p: nat) {
    r in g.brackets && Registered(t, r) && DomainOf(r) == d && Participant(t, r) == p
  }

  /** A participant's epoch is odd exactly while a reader is inside its bracket. */
  ghost predicate Bracketed(t: Threads, g: Grace)
    requires Shaped(g)
  {
    && (forall r :: r in g.brackets ==> Registered(t, r))
    && (forall r :: r in g.brackets && Registered(t, r) && Participant(t, r) < Size(DomainOf(r)) ==>
          Epochs(g, DomainOf(r))[Participant(t, r)] % 2 == 1)
    && (forall d: Domain, p: nat {:trigger Epochs(g, d)[p]} ::
          p < Size(d) && Epochs(g, d)[p] % 2 == 1 ==> exists r :: Inside(t, g, r, d, p))
  }

  /** Where the two atomics and the owner stand at each point of a publication. */
  ghost predicate Pointed(m: Memory) {
    match m.writer
    case Gone => m.hotPointer == m.micPointer == m.published == 0
    case Busy(job, previous, stage) =>
      && previous == (if job.Republish? then |m.tables| - 1 else |m.tables|)
      && m.hotPointer == (if stage.Begun? then previous else NextAddress(m))
      && m.micPointer == (if stage.Begun? || stage.HotStored? then previous else NextAddress(m))
      && m.published == (if job.Republish? && (stage.Waiting? || stage.Drained?) then NextAddress(m) else previous)
      && (stage.Waiting? ==> stage.pos <= Size(stage.domain) && (stage.seen.Some? ==> stage.seen.value % 2 == 1))
    case _ => m.hotPointer == m.micPointer == m.published == |m.tables|
  }

  /** The oldest table a thread may still use; every one before it is retired or freed. */
  function Oldest(m: Memory): Address {
    match m.writer
    case Gone => |m.tables| + 1
    case Busy(_, previous, _) => previous
    case _ => m.published
  }

  ghost predicate Accounted(m: Memory) {
    && m.retired !! m.freed
    && (forall t :: t in m.retired + m.freed <==> 0 < t < Oldest(m))
    && (Closing(m) ==> m.retired == {})
  }

  /** The running wait has seen participant `p`, now at `epoch`, outside the bracket it was in
      when the wait began. */
  predicate Passed(writer: Writer, d: Domain, p: nat, epoch: nat) {
    && writer.Busy?
    && match writer.stage
       case Waiting(scanned, pos, seen) =>
         if d != scanned then scanned.Mic?
         else p < pos || (p == pos && seen.Some? && epoch != seen.value)
       case Drained => true
       case _ => false
  }

  /** Inside a bracket a reader holds the newest table or the one a wait has yet to pass it for. */
  predicate MayHold(m: Memory, d: Domain, p: nat, epoch: nat, table: Address) {
    || table == 0 || table == Pointer(m, d)
    || (m.writer.Busy? && table == m.writer.previous && !Passed(m.writer, d, p, epoch))
  }

  ghost predicate Held(t: Threads, g: Grace, m: Memory)
    requires Shaped(g)
  {
    forall r ::
      r in g.brackets && Registered(t, r) && g.brackets[r].Loaded? && Participant(t, r) < Size(DomainOf(r)) ==>
      MayHold(m, DomainOf(r), Participant(t, r), Epochs(g, DomainOf(r))[Participant(t, r)], g.brackets[r].table)
  }

  /** Once the destructor's wait has passed a device or session thread, that thread is outside. */
  ghost predicate Vacated(t: Threads, g: Grace, m: Memory)
    requires Shaped(g)
  {
    Closing(m) ==>
      forall r :: r in g.brackets && Registered(t, r) && DomainOf(r).Hot? && Participant(t, r) < Size(Hot) ==>
        m.writer.Busy? && !Passed(m.writer, Hot, Participant(t, r), g.hot[Participant(t, r)])
  }

  ghost predicate Inv(s: State) {
    && Allotted(s.threads)
    && Shaped(s.grace)
    && Bracketed(s.threads, s.grace)
    && Pointed(s.memory)
    && Accounted(s.memory)
    && Held(s.threads, s.grace, s.memory)
    && Vacated(s.threads, s.grace, s.memory)
  }

  lemma InitialInv()
    ensures Inv(Initial)
  {
  }

  // ----- readers never share a participant -----

  /** No two reader threads ever bracket on the same participant. */
  lemma ReadersNeverShare(t: Threads, r: Reader, q: Reader)
    requires Allotted(t) && Registered(t, r) && Registered(t, q)
    ensures Participant(t, r) < Size(DomainOf(r))
    ensures DomainOf(r) == DomainOf(q) && Participant(t, r) == Participant(t, q) ==> r == q
  {
    if r.Sender? { assert r.id in Owners(t.senders); }
    if q.Sender? { assert q.id in Owners(t.senders); }
  }

  // ----- steps of a reader -----

  lemma BumpFlips(g: Grace, d: Domain, p: nat)
    requires Shaped(g) && p < Size(d)
    ensures Shaped(Bump(g, d, p))
    ensures Epochs(Bump(g, d, p), d)[p] % 2 != Epochs(g, d)[p] % 2
    ensures forall e: Domain, i: nat {:trigger Epochs(g, e)[i]} {:trigger Epochs(Bump(g, d, p), e)[i]} ::
              i < Size(e) && !(e == d && i == p) ==> Epochs(Bump(g, d, p), e)[i] == Epochs(g, e)[i]
  {
  }

  lemma BracketedAfterBump(t: Threads, g: Grace, r: Reader, brackets: map<Reader, Bracket>)
    requires Allotted(t) && Shaped(g) && Bracketed(t, g) && Registered(t, r)
    requires Participant(t, r) < Size(DomainOf(r))
    requires forall q :: q != r ==> (q in g.brackets <==> q in brackets)
    requires r in g.brackets <==> r !in brackets
    ensures Shaped(Bump(g, DomainOf(r), Participant(t, r)))
    ensures Bracketed(t, Bump(g, DomainOf(r), Participant(t, r)).(brackets := brackets))
  {
    var d, p := DomainOf(r), Participant(t, r);
    BumpFlips(g, d, p);
    var g' := Bump(g, d, p).(brackets := brackets);
    forall q | q in g'.brackets && Participant(t, q) < Size(DomainOf(q))
      ensures Epochs(g', DomainOf(q))[Participant(t, q)] % 2 == 1
    {
      ReadersNeverShare(t, r, q);
      if q == r && Epochs(g, d)[p] % 2 == 1 {
        var o :| Inside(t, g, o, d, p);
        ReadersNeverShare(t, r, o);
        assert false;
      }
    }
    forall e: Domain, i: nat | i < Size(e) && Epochs(g', e)[i] % 2 == 1
      ensures exists q :: Inside(t, g', q, e, i)
    {
      if e == d && i == p {
        assert r !in g.brackets;
        assert Inside(t, g', r, e, i);
      } else {
        assert Epochs(g, e)[i] % 2 == 1;
        var o :| Inside(t, g, o, e, i);
        assert Inside(t, g', o, e, i);
      }
    }
  }

  lemma HeldAfterBump(t: Threads, g: Grace, m: Memory, r: Reader, brackets: map<Reader, Bracket>)
    requires Allotted(t) && Shaped(g) && Held(t, g, m) && Registered(t, r)
    requires Participant(t, r) < Size(DomainOf(r))
    requires forall q :: q != r && q in brackets ==> q in g.brackets && g.brackets[q] == brackets[q]
    requires r in brackets ==> brackets[r].Entered?
    ensures Shaped(Bump(g, DomainOf(r), Participant(t, r)))
    ensures Held(t, Bump(g, DomainOf(r), Participant(t, r)).(brackets := brackets), m)
  {
    var d, p := DomainOf(r), Participant(t, r);
    BumpFlips(g, d, p);
    var g' := Bump(g, d, p).(brackets := brackets);
    forall q | q in g'.brackets && Registered(t, q) && g'.brackets[q].Loaded? && Participant(t, q) < Size(DomainOf(q))
      ensures MayHold(m, DomainOf(q), Participant(t, q),
                      Epochs(g', DomainOf(q))[Participant(t, q)], g'.brackets[q].table)
    {
      ReadersNeverShare(t, r, q);
    }
  }

  lemma VacatedAfterBump(t: Threads, g: Grace, m: Memory, r: Reader, brackets: map<Reader, Bracket>)
    requires Allotted(t) && Shaped(g) && Vacated(t, g, m) && Registered(t, r)
    requires Participant(t, r) < Size(DomainOf(r))
    requires forall q :: q != r && q in brackets ==> q in g.brackets
    requires r in brackets && DomainOf(r).Hot? ==> !Closing(m)
    ensures Shaped(Bump(g, DomainOf(r), Participant(t, r)))
    ensures Vacated(t, Bump(g, DomainOf(r), Participant(t, r)).(brackets := brackets), m)
  {
    var d, p := DomainOf(r), Participant(t, r);
    BumpFlips(g, d, p);
    var g' := Bump(g, d, p).(brackets := brackets);
    forall q | Closing(m) && q in g'.brackets && Registered(t, q) && DomainOf(q).Hot? && Participant(t, q) < Size(Hot)
      ensures m.writer.Busy? && !Passed(m.writer, Hot, Participant(t, q), g'.hot[Participant(t, q)])
    {
      ReadersNeverShare(t, r, q);
    }
  }

  lemma BracketedAfterLoad(t: Threads, g: Grace, brackets: map<Reader, Bracket>)
    requires Shaped(g) && Bracketed(t, g) && g.brackets.Keys == brackets.Keys
    ensures Bracketed(t, g.(brackets := brackets))
  {
    var g' := g.(brackets := brackets);
    forall d: Domain, p: nat | p < Size(d) && Epochs(g', d)[p] % 2 == 1
      ensures exists q :: Inside(t, g', q, d, p)
    {
      assert Epochs(g, d)[p] % 2 == 1;
      var q :| Inside(t, g, q, d, p);
      assert Inside(t, g', q, d, p);
    }
  }

  lemma HeldAfterLoad(t: Threads, g: Grace, m: Memory, r: Reader)
    requires Shaped(g) && Held(t, g, m) && r in g.brackets
    ensures Held(t, g.(brackets := g.brackets[r := Loaded(Pointer(m, DomainOf(r)))]), m)
  {
  }

  lemma ReaderKeeps(s: State, step: Step)
    requires Inv(s) && ReaderEnabled(s, step)
    ensures Inv(s.(grace := ReaderApply(s, step)))
  {
    var t, g, m, r := s.threads, s.grace, s.memory, step.r;
    ReadersNeverShare(t, r, r);
    if step.Load? {
      BracketedAfterLoad(t, g, g.brackets[r := Loaded(Pointer(m, DomainOf(r)))]);
      HeldAfterLoad(t, g, m, r);
    } else {
      var brackets := if step.Enter? then g.brackets[r := Entered] else g.brackets - {r};
      BracketedAfterBump(t, g, r, brackets);
      HeldAfterBump(t, g, m, r, brackets);
      VacatedAfterBump(t, g, m, r, brackets);
    }
  }

  // ----- steps of the publisher and the destructor -----

  lemma WriterKeepsMemory(m: Memory, g: Grace, step: Step)
    requires Pointed(m) && Accounted(m) && WriterEnabled(m, g, step)
    ensures Pointed(WriterApply(m, g, step)) && Accounted(WriterApply(m, g, step))
  {
    WriterKeepsPointers(m, g, step);
    WriterKeepsAccounts(m, g, step);
  }

  lemma WriterKeepsPointers(m: Memory, g: Grace, step: Step)
    requires Pointed(m) && WriterEnabled(m, g, step)
    ensures Pointed(WriterApply(m, g, step))
  {
  }

  lemma WriterKeepsAccounts(m: Memory, g: Grace, step: Step)
    requires Pointed(m) && Accounted(m) && WriterEnabled(m, g, step)
    ensures Accounted(WriterApply(m, g, step))
  {
  }

  /** What one reader may hold survives a step of the publisher. */
  lemma WriterKeepsHold(m: Memory, g: Grace, step: Step, d: Domain, p: nat, table: Address)
    requires Shaped(g) && Pointed(m) && WriterEnabled(m, g, step) && p < Size(d)
    requires MayHold(m, d, p, Epochs(g, d)[p], table)
    requires Epochs(g, d)[p] % 2 == 1
    ensures MayHold(WriterApply(m, g, step), d, p, Epochs(g, d)[p], table)
  {
  }

  /** A thread inside its bracket is one the destructor's wait has not passed. */
  lemma WriterKeepsOut(m: Memory, g: Grace, step: Step, p: nat)
    requires Shaped(g) && Pointed(m) && WriterEnabled(m, g, step) && p < Size(Hot) && g.hot[p] % 2 == 1
    requires Closing(m) ==> m.writer.Busy? && !Passed(m.writer, Hot, p, g.hot[p])
    ensures var m' := WriterApply(m, g, step);
            Closing(m') ==> m'.writer.Busy? && !Passed(m'.writer, Hot, p, g.hot[p])
  {
  }

  lemma WriterKeeps(s: State, step: Step)
    requires Inv(s) && WriterEnabled(s.memory, s.grace, step)
    ensures Inv(s.(memory := WriterApply(s.memory, s.grace, step)))
  {
    var t, g, m := s.threads, s.grace, s.memory;
    WriterKeepsMemory(m, g, step);
    var m' := WriterApply(m, g, step);
    forall r | r in g.brackets && Registered(t, r) && g.brackets[r].Loaded? && Participant(t, r) < Size(DomainOf(r))
      ensures MayHold(m', DomainOf(r), Participant(t, r),
                      Epochs(g, DomainOf(r))[Participant(t, r)], g.brackets[r].table)
    {
      WriterKeepsHold(m, g, step, DomainOf(r), Participant(t, r), g.brackets[r].table);
    }
    forall r | r in g.brackets && Registered(t, r) && DomainOf(r).Hot? && Participant(t, r) < Size(Hot)
      ensures Closing(m') ==> m'.writer.Busy? && !Passed(m'.writer, Hot, Participant(t, r), g.hot[Participant(t, r)])
    {
      WriterKeepsOut(m, g, step, Participant(t, r));
    }
  }

  // ----- steps that register readers -----

  lemma BitTaken(taken: seq<bool>, owners: map<nat, nat>, id: nat, bit: nat)
    requires BitsMatch(taken, owners) && id !in owners && bit < SENDERS && !taken[bit]
    ensures BitsMatch(taken[bit := true], owners[id := bit])
  {
    var word, next := taken[bit := true], owners[id := bit];
    assert next[id] == bit;
    forall b | 0 <= b < SENDERS && word[b] ensures b in next.Values {
      if b != bit {
        var o :| o in owners && owners[o] == b;
        assert next[o] == b;
      }
    }
  }

  lemma BitGivenBack(taken: seq<bool>, owners: map<nat, nat>, id: nat)
    requires BitsMatch(taken, owners) && id in owners
    ensures BitsMatch(taken[owners[id] := false], owners - {id})
  {
    var word, next := taken[owners[id] := false], owners - {id};
    forall b | 0 <= b < SENDERS && word[b] ensures b in next.Values {
      var o :| o in owners && owners[o] == b;
      assert next[o] == b;
    }
  }

  lemma OwnersMove(senders: map<nat, SenderPc>, id: nat, pc: SenderPc)
    ensures Owners(senders[id := pc]) ==
            if pc.Observed? then Owners(senders) - {id} else Owners(senders)[id := pc.participant]
    ensures Owners(senders - {id}) == Owners(senders) - {id}
    ensures id !in Owners(senders) ==> Owners(senders) - {id} == Owners(senders)
    ensures id in Owners(senders) ==> Owners(senders)[id := senders[id].participant] == Owners(senders)
  {
  }

  lemma ThreadKeepsAllotted(s: State, step: Step)
    requires Allotted(s.threads) && ThreadEnabled(s, step)
    ensures Allotted(ThreadApply(s, step))
  {
    var t := s.threads;
    match step
    case InstallHandlers(conn) => InstallKeepsOneEach(t.sessions, conn);
    case Observe(id, slot) => OwnersMove(t.senders, id, Observed(slot, t.taken));
    case CasWin(id) =>
      OwnersMove(t.senders, id, Won(t.senders[id].slot, CountrOne(t.taken)));
      BitTaken(t.taken, Owners(t.senders), id, CountrOne(t.taken));
    case CasLose(id) => OwnersMove(t.senders, id, Observed(t.senders[id].slot, t.taken));
    case Refuse(id) => OwnersMove(t.senders, id, t.senders[id]);
    case MakeLease(id) => OwnersMove(t.senders, id, Leased(t.senders[id].slot, t.senders[id].participant));
    case Release(id) =>
      OwnersMove(t.senders, id, t.senders[id]);
      BitGivenBack(t.taken, Owners(t.senders), id);
  }

  /** Readers inside a bracket stay registered where they are. */
  lemma ThreadKeepsReaders(s: State, step: Step, r: Reader)
    requires ThreadEnabled(s, step) && Registered(s.threads, r) && r in s.grace.brackets
    ensures Registered(ThreadApply(s, step), r)
    ensures Participant(ThreadApply(s, step), r) == Participant(s.threads, r)
  {
  }

  lemma ThreadKeeps(s: State, step: Step)
    requires Inv(s) && ThreadEnabled(s, step)
    ensures Inv(s.(threads := ThreadApply(s, step)))
  {
    var t, g, t' := s.threads, s.grace, ThreadApply(s, step);
    ThreadKeepsAllotted(s, step);
    forall r | r in g.brackets ensures Registered(t', r) && Participant(t', r) == Participant(t, r) {
      ThreadKeepsReaders(s, step, r);
    }
    forall d: Domain, p: nat | p < Size(d) && Epochs(g, d)[p] % 2 == 1
      ensures exists q :: Inside(t', g, q, d, p)
    {
      var q :| Inside(t, g, q, d, p);
      assert Inside(t', g, q, d, p);
    }
  }

  // ----- every run -----

  lemma StepKeeps(s: State, step: Step)
    requires Inv(s) && Enabled(s, step)
    ensures Inv(Apply(s, step))
  {
    if ReaderEnabled(s, step) {
      ReaderKeeps(s, step);
    } else if SendEnabled(s, step) {
    } else if WriterEnabled(s.memory, s.grace, step) {
      WriterKeeps(s, step);
    } else {
      ThreadKeeps(s, step);
    }
  }

  lemma {:induction false} RunKeeps(s: State, run: seq<Step>)
    requires Inv(s) && Legal(s, run)
    ensures Inv(After(s, run))
    decreases run
  {
    if run != [] {
      StepKeeps(s, run[0]);
      RunKeeps(Apply(s, run[0]), run[1..]);
    }
  }
}

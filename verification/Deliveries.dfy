/**
 What leaves the router, and what may happen in it at all: the other half of the promises. A packet leaves exactly when
 the table its thread has loaded routes it; readers get to a table, tables get published, senders get participants.
 */
module Deliveries {
  import opened Basics
  import opened Routes
  import opened Publication
  import opened PublicationSafety
  import opened PublicationTheorems
  import opened PublicationProgress

  // ----- when a packet leaves -----

  lemma {:induction false} FeedbackIsFound(routes: seq<FeedbackRoute>, conn: ConnId)
    ensures FeedbackIn(routes, conn).Some? <==> exists route :: route in routes && route.connectionId == conn
    decreases routes
  {
    if routes != [] {
      FeedbackIsFound(routes[1..], conn);
      assert routes == [routes[0]] + routes[1..];
    }
  }

  lemma {:induction false} MicIsFound(routes: seq<MicRoute>, slot: SlotId)
    ensures MicIn(routes, slot).Some? <==> exists route :: route in routes && route.slotId == slot
    decreases routes
  {
    if routes != [] {
      MicIsFound(routes[1..], slot);
      assert routes == [routes[0]] + routes[1..];
    }
  }

  /** The table routes what the reader sends: a device's row has a route, with its switch on for motion; the session's
      connection has a feedback route; the sender's slot has a mic route. */
  ghost predicate Carries(table: RouteTable, r: Reader, slot: SlotId, kind: Kind) {
    match r
    case Device(i) =>
      && i < |table.inputs| && table.inputs[i].Some?
      && (kind == Report || kind == Battery || kind == Touchpad || (kind == Motion && table.inputs[i].value.motion))
    case Session(c) => kind == Feedback && exists route :: route in table.feedback && route.connectionId == c
    case Sender(_) => kind == MicFrame && exists route :: route in table.mics && route.slotId == slot
  }

  function SlotOfReader(t: Threads, r: Reader): SlotId {
    if r.Sender? && r.id in t.senders then t.senders[r.id].slot else ""
  }

  /** The packet as the log has it. */
  function Packet(r: Reader, slot: SlotId, kind: Kind, table: Address): Sent {
    if r.Sender? then MicSent(slot, table) else Sent(r, kind, table)
  }

  lemma LoadedIsRegistered(s: State, r: Reader)
    requires Inv(s) && r in s.grace.brackets && s.grace.brackets[r].Loaded?
    ensures Registered(s.threads, r) && s.grace.brackets[r].table <= |s.memory.tables|
  {
    ReadersNeverShare(s.threads, r, r);
  }

  lemma RoutedIffCarried(t: Threads, r: Reader, kind: Kind, table: RouteTable)
    requires Registered(t, r)
    ensures Routed(t, r, kind, table) <==> Carries(table, r, SlotOfReader(t, r), kind)
  {
    match r
    case Device(_) =>
    case Session(c) => FeedbackIsFound(table.feedback, c);
    case Sender(id) => MicIsFound(table.mics, t.senders[id].slot);
  }

  /** A reader that has loaded a table sends exactly what the table carries, and nothing else changes by it. */
  lemma LeavesIffCarried(s: State, r: Reader, kind: Kind)
    requires Inv(s) && r in s.grace.brackets && s.grace.brackets[r].Loaded? && s.grace.brackets[r].table > 0
    ensures var k, slot := s.grace.brackets[r].table, SlotOfReader(s.threads, r);
            && k <= |s.memory.tables|
            && (Enabled(s, Use(r, kind)) <==> Carries(s.memory.tables[k - 1], r, slot, kind))
            && (Enabled(s, Use(r, kind)) ==>
                  Apply(s, Use(r, kind)) == s.(log := s.log + [Packet(r, slot, kind, k)]))
  {
    LoadedIsRegistered(s, r);
    RoutedIffCarried(s.threads, r, kind, s.memory.tables[s.grace.brackets[r].table - 1]);
  }

  /** In terms of the bindings: the device of a listed slot sends all but motion exactly when the slot is bound to a
      connection with a target, whatever its motion switch says, and motion exactly when that is on too. */
  lemma BoundSlotSends(s: State, row: nat, slot: SlotId, kind: Kind, w: World, slots: seq<SlotId>, rs: Records)
    requires Inv(s) && row < MAX_DEVICES && Device(row) in s.grace.brackets
    requires s.grace.brackets[Device(row)].Loaded? && s.grace.brackets[Device(row)].table > 0
    requires var k := s.grace.brackets[Device(row)].table;
             k <= |s.memory.tables| && Refines(w, slots, rs, s.memory.tables[k - 1])
    requires slot in slots && Holds(rs, slot, row)
    ensures Enabled(s, Use(Device(row), kind)) <==>
            && (exists target :: SendsTo(w, slot, target))
            && (kind == Report || kind == Battery || kind == Touchpad || (kind == Motion && slot in w.motionOn))
  {
    LeavesIffCarried(s, Device(row), kind);
    var table := s.memory.tables[s.grace.brackets[Device(row)].table - 1];
    RowIsItsOwners(w, slots, rs, table.inputs, row);
    assert forall target :: SendsTo(w, slot, target) <==> TargetOf(w, slot) == Some(target);
  }

  /** Likewise the capture thread of a listed slot's mic. */
  lemma BoundMicSends(s: State, id: nat, w: World, slots: seq<SlotId>, rs: Records)
    requires Inv(s) && Sender(id) in s.grace.brackets
    requires s.grace.brackets[Sender(id)].Loaded? && s.grace.brackets[Sender(id)].table > 0
    requires var k := s.grace.brackets[Sender(id)].table;
             k <= |s.memory.tables| && Refines(w, slots, rs, s.memory.tables[k - 1])
    ensures id in s.threads.senders
    ensures Enabled(s, Use(Sender(id), MicFrame)) <==>
            s.threads.senders[id].slot in slots && exists target :: SendsTo(w, s.threads.senders[id].slot, target)
  {
    LeavesIffCarried(s, Sender(id), MicFrame);
    var mics, slot := s.memory.tables[s.grace.brackets[Sender(id)].table - 1].mics, s.threads.senders[id].slot;
    MicIsFound(mics, slot);
    if MicIn(mics, slot).Some? { MicLeadsToItsTarget(w, slots, mics, slot); }
  }

  // ----- how a reader gets to a table -----

  lemma CanEnter(s: State, r: Reader)
    requires Inv(s) && Registered(s.threads, r) && r !in s.grace.brackets && (r.Sender? || !Closing(s.memory))
    ensures Enabled(s, Enter(r)) && Inv(Apply(s, Enter(r)))
    ensures var s' := Apply(s, Enter(r));
            && s'.memory == s.memory && s'.threads == s.threads && s'.log == s.log
            && s'.grace.brackets == s.grace.brackets[r := Entered]
  {
    ReadersNeverShare(s.threads, r, r);
    StepKeeps(s, Enter(r));
  }

  lemma TwoSteps(s: State, a: Step, b: Step)
    requires Enabled(s, a) && Enabled(Apply(s, a), b)
    ensures Legal(s, [a] + [b]) && After(s, [a] + [b]) == Apply(Apply(s, a), b)
  {
    OneStep(s, a);
    OneStep(Apply(s, a), b);
    Concatenated(s, [a], [b]);
  }

  lemma OverwritesItsBracket(brackets: map<Reader, Bracket>, r: Reader, b: Bracket)
    ensures brackets[r := Entered][r := b] == brackets[r := b]
  {
  }

  /** Outside a bracket a reader can open one and load; what it loads is the table its atomic points at. */
  lemma ReaderGetsThrough(s: State, r: Reader)
    requires Inv(s) && Registered(s.threads, r) && r !in s.grace.brackets && (r.Sender? || !Closing(s.memory))
    ensures Legal(s, [Enter(r)] + [Load(r)])
    ensures var s' := After(s, [Enter(r)] + [Load(r)]);
            && Inv(s') && s'.memory == s.memory && s'.threads == s.threads && s'.log == s.log
            && s'.grace.brackets == s.grace.brackets[r := Loaded(Pointer(s.memory, DomainOf(r)))]
  {
    CanEnter(s, r);
    CanLoad(Apply(s, Enter(r)), r);
    TwoSteps(s, Enter(r), Load(r));
    OverwritesItsBracket(s.grace.brackets, r, Loaded(Pointer(s.memory, DomainOf(r))));
  }

  /** Whatever the table its atomic points at carries for a reader, the reader can send. */
  lemma CarriedIsSent(s: State, r: Reader, kind: Kind) returns (run: seq<Step>)
    requires Inv(s) && Registered(s.threads, r) && r !in s.grace.brackets && (r.Sender? || !Closing(s.memory))
    requires var k := Pointer(s.memory, DomainOf(r));
             0 < k <= |s.memory.tables| && Carries(s.memory.tables[k - 1], r, SlotOfReader(s.threads, r), kind)
    ensures Legal(s, run)
    ensures After(s, run).log ==
            s.log + [Packet(r, SlotOfReader(s.threads, r), kind, Pointer(s.memory, DomainOf(r)))]
  {
    var steps := [Enter(r)] + [Load(r)];
    ReaderGetsThrough(s, r);
    LeavesIffCarried(After(s, steps), r, kind);
    OneStep(After(s, steps), Use(r, kind));
    Concatenated(s, steps, [Use(r, kind)]);
    run := steps + [Use(r, kind)];
  }

  /** With the router idle, every registered reader can send what the published table carries for it. */
  lemma PublishedRoutesAreUsed(s: State, r: Reader, kind: Kind) returns (run: seq<Step>)
    requires Reachable(s) && s.memory.writer.Idle? && 0 < s.memory.published <= |s.memory.tables|
    requires Registered(s.threads, r) && r !in s.grace.brackets
    requires Carries(s.memory.tables[s.memory.published - 1], r, SlotOfReader(s.threads, r), kind)
    ensures Legal(s, run)
    ensures After(s, run).log == s.log + [Packet(r, SlotOfReader(s.threads, r), kind, s.memory.published)]
  {
    PointersAgree(s);
    ReachableInv(s);
    run := CarriedIsSent(s, r, kind);
  }

  /** Within a bracket a reader keeps to the one table it loaded. */
  lemma {:induction false} HoldsOneTable(s: State, run: seq<Step>, r: Reader)
    requires Legal(s, run) && r in s.grace.brackets && s.grace.brackets[r].Loaded? && Exit(r) !in run
    ensures r in After(s, run).grace.brackets && After(s, run).grace.brackets[r] == s.grace.brackets[r]
    decreases run
  {
    if run != [] { HoldsOneTable(Apply(s, run[0]), run[1..], r); }
  }

  // ----- heartbeats -----

  /** With the router idle the lock is there to take, and a battery heartbeat leaves for exactly the rows the published
      table routes. */
  lemma HeartbeatLeavesIffRouted(s: State, row: nat)
    requires Reachable(s) && s.memory.writer.Idle?
    ensures Enabled(s, BeatLock)
    ensures var locked := Apply(s, BeatLock);
            var m := s.memory;
            && locked == s.(memory := m.(writer := Beating)) && Enabled(locked, BeatUnlock)
            && Apply(locked, BeatUnlock) == s
            && m.published <= |m.tables|
            && (Enabled(locked, BeatSend(row)) <==>
                  && m.published > 0 && row < |m.tables[m.published - 1].inputs|
                  && m.tables[m.published - 1].inputs[row].Some?)
            && (Enabled(locked, BeatSend(row)) ==>
                  Apply(locked, BeatSend(row)) == locked.(log := s.log + [Heartbeat(row, m.published)]))
  {
    PointersAgree(s);
  }

  // ----- publication -----

  /** From every reachable idle state any table can be published: some run stores it in both atomics and with the
      owner, retires the one before it, and leaves the router idle. */
  lemma AnyTableGoesOut(s: State, table: RouteTable) returns (run: seq<Step>)
    requires Reachable(s) && s.memory.writer.Idle?
    ensures Legal(s, run)
    ensures var m := After(s, run).memory;
            && m.writer.Idle? && m.tables == s.memory.tables + [table]
            && m.published == m.hotPointer == m.micPointer == |m.tables|
  {
    ReachableInv(s);
    var leave := ReadersCanLeave(s);
    var s1 := After(s, leave);
    OneStep(s1, Begin(table));
    StepKeeps(s1, Begin(table));
    var s2 := Apply(s1, Begin(table));
    var finish := EmptyRouterFinishes(s2);
    Concatenated(s1, [Begin(table)], finish);
    Concatenated(s, leave, [Begin(table)] + finish);
    run := leave + ([Begin(table)] + finish);
    RunKeeps(s, run);
  }

  /** Handlers can be installed for any connection until the router is being destroyed; the connection then has a
      participant unless 64 others have one. */
  lemma HandlersGoIn(s: State, conn: ConnId)
    requires Inv(s) && !Closing(s.memory)
    ensures Enabled(s, InstallHandlers(conn))
    ensures var t := Apply(s, InstallHandlers(conn)).threads;
            && (conn in t.sessions <==> conn in s.threads.sessions || |s.threads.sessions| < SESSIONS)
            && forall c :: c != conn ==> (c in t.sessions <==> c in s.threads.sessions)
  {
  }

  // ----- the end -----

  lemma {:induction false} RetiredCanBeFreed(s: State) returns (run: seq<Step>)
    requires Inv(s) && s.memory.writer.Idle?
    ensures Legal(s, run) && Inv(After(s, run))
    ensures After(s, run).memory.writer.Idle? && After(s, run).memory.retired == {}
    ensures After(s, run).grace == s.grace
    decreases |s.memory.retired|
  {
    if s.memory.retired == {} {
      run := [];
    } else {
      var t :| t in s.memory.retired;
      StepKeeps(s, Free(t));
      OneStep(s, Free(t));
      var rest := RetiredCanBeFreed(Apply(s, Free(t)));
      Concatenated(s, [Free(t)], rest);
      run := [Free(t)] + rest;
    }
  }

  /** From every reachable idle state the router can be destroyed: some run ends with it gone. */
  lemma RouterCanBeDestroyed(s: State) returns (run: seq<Step>)
    requires Reachable(s) && s.memory.writer.Idle?
    ensures Legal(s, run) && After(s, run).memory.writer.Gone?
  {
    ReachableInv(s);
    var leave := ReadersCanLeave(s);
    var s1 := After(s, leave);
    var free := RetiredCanBeFreed(s1);
    var s2 := After(s1, free);
    OneStep(s2, Close);
    StepKeeps(s2, Close);
    var finish := EmptyRouterFinishes(Apply(s2, Close));
    Concatenated(s2, [Close], finish);
    Concatenated(s1, free, [Close] + finish);
    Concatenated(s, leave, free + ([Close] + finish));
    run := leave + (free + ([Close] + finish));
  }

  // ----- mic senders -----

  lemma WinnerIsLeased(s: State, id: nat)
    requires id in s.threads.senders && s.threads.senders[id].Observed? && !Full(s.threads.taken)
    requires s.threads.senders[id].word == s.threads.taken
    ensures Legal(s, [CasWin(id)] + [MakeLease(id)])
    ensures var t, p := After(s, [CasWin(id)] + [MakeLease(id)]).threads, CountrOne(s.threads.taken);
            && t.taken == s.threads.taken[p := true]
            && t.senders == s.threads.senders[id := Leased(s.threads.senders[id].slot, p)]
  {
    TwoSteps(s, CasWin(id), MakeLease(id));
  }

  /** The lowest clear bit. */
  ghost predicate Lowest(taken: seq<bool>, p: nat) {
    p < |taken| && !taken[p] && forall bit :: 0 <= bit < p ==> taken[bit]
  }

  ghost predicate GivenOn(t: Threads, id: nat, slot: SlotId, p: nat, t': Threads) {
    && Lowest(t.taken, p)
    && t'.senders == t.senders[id := Leased(slot, p)] && t'.taken == t.taken[p := true]
  }

  /** A call that finds a clear bit, with nobody between, gets a sender on the lowest one. */
  lemma ClearBitIsGiven(s: State, id: nat, slot: SlotId) returns (p: nat)
    requires id !in s.threads.senders && !Closing(s.memory)
    requires exists bit :: 0 <= bit < |s.threads.taken| && !s.threads.taken[bit]
    ensures Enabled(s, Observe(id, slot))
    ensures var seen := Apply(s, Observe(id, slot));
            && Legal(seen, [CasWin(id)] + [MakeLease(id)])
            && GivenOn(s.threads, id, slot, p, After(seen, [CasWin(id)] + [MakeLease(id)]).threads)
  {
    var seen := Apply(s, Observe(id, slot));
    WinnerIsLeased(seen, id);
    p := CountrOne(s.threads.taken);
    assert seen.threads.senders[id := Leased(slot, p)] == s.threads.senders[id := Leased(slot, p)];
  }

  /** A call is refused exactly when the word it read has no clear bit. */
  lemma RefusedIffNoneIsClear(s: State, id: nat)
    requires id in s.threads.senders && s.threads.senders[id].Observed?
    ensures var word := s.threads.senders[id].word;
            Enabled(s, Refuse(id)) <==> forall bit :: 0 <= bit < |word| ==> word[bit]
  {
  }

  /** A call whose word has moved looks again, at the word as it is now. */
  lemma LoserLooksAgain(s: State, id: nat)
    requires Inv(s) && id in s.threads.senders && s.threads.senders[id].Observed?
    requires s.threads.senders[id].word != s.threads.taken && !Full(s.threads.senders[id].word)
    ensures !Enabled(s, CasWin(id)) && !Enabled(s, Refuse(id)) && Enabled(s, CasLose(id))
    ensures Apply(s, CasLose(id)).threads.senders[id] == Observed(s.threads.senders[id].slot, s.threads.taken)
    ensures Apply(s, CasLose(id)).threads.taken == s.threads.taken
  {
  }

  /** The last copy of a sender gives its participant back, and it alone. */
  lemma SenderGivesItsParticipantBack(s: State, id: nat)
    requires Inv(s) && id in s.threads.senders && s.threads.senders[id].Leased? && Sender(id) !in s.grace.brackets
    ensures Enabled(s, Release(id))
    ensures var t := Apply(s, Release(id)).threads;
            id !in t.senders && t.taken == s.threads.taken[s.threads.senders[id].participant := false]
  {
    assert id in Owners(s.threads.senders);
  }
}

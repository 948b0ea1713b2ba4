/**
 The publication protocol of the slot router as a step system.

 The GUI publishes an immutable table by storing it in two atomics, swaps the owner, waits for
 the readers' brackets in two grace epochs, and frees the table it replaced. Device, session and
 mic-capture threads read the table inside a bracket on a participant of their own. Every atomic
 access is one step, and steps of different threads interleave in any order.
 */
module Publication {
  import opened Basics
  import opened Counters
  import opened Routes

  const SESSIONS := 64
  const SENDERS := 64

  // The two pairs of an atomic pointer and the grace epoch that guards it.
  datatype Domain = Hot | Mic

  // A thread that reads tables: a device's publisher, a session's receiver, a mic sender's capture.
  datatype Reader = Device(index: nat) | Session(conn: ConnId) | Sender(id: nat)

  // A pointer value: 0 is null, k is the k-th table handed to publication.
  type Address = nat

  datatype Bracket = Entered | Loaded(table: Address)

  datatype Kind = Report | Motion | Battery | Touchpad | Feedback | MicFrame
  // What left the router, and the table it was routed by.
  datatype Sent =
    | Sent(reader: Reader, kind: Kind, table: Address)
    | MicSent(slot: SlotId, table: Address)
    | Heartbeat(index: nat, table: Address)

  // One call of micSenderForSlot and, once it won, the lease it made.
  datatype SenderPc =
    | Observed(slot: SlotId, word: seq<bool>)
    | Won(slot: SlotId, participant: nat)
    | Leased(slot: SlotId, participant: nat)

  // What the holder of the publishers' lock, or the destructor, is doing.
  datatype Job = Republish | Destroy
  datatype Stage =
    | Begun
    | HotStored
    | MicStored
    | Waiting(domain: Domain, pos: nat, seen: Option<nat>)
    | Drained
  datatype Writer = Idle | Beating | Busy(job: Job, previous: Address, stage: Stage) | Gone

  // The reader threads that have a participant, and the word mic participants come from.
  datatype Threads = Threads(sessions: map<ConnId, nat>, taken: seq<bool>, senders: map<nat, SenderPc>)

  // The two grace epochs, and the bracket each reader inside one is in.
  datatype Grace = Grace(hot: seq<nat>, mic: seq<nat>, brackets: map<Reader, Bracket>)

  // The tables published so far, who points at them, and what became of the replaced ones.
  datatype Memory = Memory(
    tables: seq<RouteTable>,
    hotPointer: Address,
    micPointer: Address,
    published: Address,
    retired: set<Address>,
    freed: set<Address>,
    writer: Writer)

  datatype State = State(threads: Threads, grace: Grace, memory: Memory, log: seq<Sent>)

  function Repeat<T>(n: nat, x: T): seq<T> {
    seq(n, _ => x)
  }

  const Initial := State(
    Threads(map[], Repeat(SENDERS, false), map[]),
    Grace(Repeat(MAX_DEVICES + SESSIONS, 0), Repeat(SENDERS, 0), map[]),
    Memory([], 0, 0, 0, {}, {}, Idle),
    [])

  // ----- participants -----

  function Size(d: Domain): nat {
    if d.Hot? then MAX_DEVICES + SESSIONS else SENDERS
  }

  function DomainOf(r: Reader): Domain {
    if r.Sender? then Mic else Hot
  }

  function Pointer(m: Memory, d: Domain): Address {
    if d.Hot? then m.hotPointer else m.micPointer
  }

  function Epochs(g: Grace, d: Domain): seq<nat> {
    if d.Hot? then g.hot else g.mic
  }

  /** The reader has a participant: a device row, an installed session, a live lease. */
  predicate Registered(t: Threads, r: Reader) {
    match r
    case Device(i) => i < MAX_DEVICES
    case Session(c) => c in t.sessions
    case Sender(id) => id in t.senders && t.senders[id].Leased?
  }

  function Participant(t: Threads, r: Reader): nat
    requires Registered(t, r)
  {
    match r
    case Device(i) => i
    case Session(c) => t.sessions[c]
    case Sender(id) => t.senders[id].participant
  }

  // ----- session participants -----

  /** The participants after handlers are installed for a connection: a known one keeps its own,
      a new one takes the next, and past the last nothing is installed. */
  function Install(sessions: map<ConnId, nat>, conn: ConnId): map<ConnId, nat> {
    if conn in sessions || |sessions| >= SESSIONS then sessions
    else sessions[conn := MAX_DEVICES + |sessions|]
  }

  ghost predicate OneEach(sessions: map<ConnId, nat>) {
    && |sessions| <= SESSIONS
    && (forall c :: c in sessions ==> MAX_DEVICES <= sessions[c] < MAX_DEVICES + |sessions|)
    && (forall c, c' :: c in sessions && c' in sessions && sessions[c] == sessions[c'] ==> c == c')
  }

  class SessionParticipants {
    var sessions: map<ConnId, nat>

    constructor ()
      ensures OneEach(sessions) && sessions == map[]
    {
      sessions := map[];
    }

    /** The participant the session's receive thread brackets on, or none when handlers are refused. */
    method InstallFeedbackHandlers(conn: ConnId) returns (participant: Option<nat>)
      requires OneEach(sessions)
      modifies this
      ensures OneEach(sessions) && sessions == Install(old(sessions), conn)
      ensures forall c :: c in old(sessions) ==> c in sessions && sessions[c] == old(sessions)[c]
      ensures participant == if conn in sessions then Some(sessions[conn]) else None
      ensures participant.None? <==> conn !in old(sessions) && |old(sessions)| == 64
      ensures participant.Some? ==> 64 <= participant.value < 128
    {
      if conn in sessions { return Some(sessions[conn]); }
      if |sessions| >= SESSIONS { return None; }
      InstallKeepsOneEach(sessions, conn);
      participant := Some(MAX_DEVICES + |sessions|);
      sessions := sessions[conn := MAX_DEVICES + |sessions|];
    }
  }

  lemma InstallKeepsOneEach(sessions: map<ConnId, nat>, conn: ConnId)
    requires OneEach(sessions)
    ensures OneEach(Install(sessions, conn))
  {
    if conn !in sessions && |sessions| < SESSIONS {
      var next := Install(sessions, conn);
      assert next.Keys == sessions.Keys + {conn};
    }
  }

  function InstallAll(sessions: map<ConnId, nat>, conns: seq<ConnId>): map<ConnId, nat>
    decreases conns
  {
    if conns == [] then sessions else InstallAll(Install(sessions, conns[0]), conns[1..])
  }

  /** Over every sequence of installs the participants stay one each, and whoever has one keeps it. */
  lemma {:induction false} InstallsKeepOneEach(sessions: map<ConnId, nat>, conns: seq<ConnId>)
    requires OneEach(sessions)
    ensures OneEach(InstallAll(sessions, conns))
    ensures forall c :: c in sessions ==>
      c in InstallAll(sessions, conns) && InstallAll(sessions, conns)[c] == sessions[c]
    decreases conns
  {
    if conns != [] {
      InstallKeepsOneEach(sessions, conns[0]);
      InstallsKeepOneEach(Install(sessions, conns[0]), conns[1..]);
    }
  }

  // ----- the word that hands out mic participants -----

  predicate Full(word: seq<bool>) {
    forall b :: 0 <= b < |word| ==> word[b]
  }

  /** std::countr_one: how many low bits are set before the first clear one. */
  function CountrOne(word: seq<bool>): (n: nat)
    ensures n <= |word|
    ensures forall b :: 0 <= b < n ==> word[b]
    ensures n < |word| ==> !word[n]
    ensures n == |word| <==> Full(word)
  {
    if word == [] || !word[0] then 0 else
      var rest := CountrOne(word[1..]);
      assert forall b :: 0 < b < |word| ==> word[b] == word[1..][b - 1];
      assert Full(word) <==> Full(word[1..]) by {
        if Full(word[1..]) {
          forall b | 0 <= b < |word| ensures word[b] { if b > 0 { assert word[1..][b - 1]; } }
        }
      }
      1 + rest
  }

  // ----- steps -----

  datatype Step =
    // a reader's bracket: GraceEpoch::enter, the pointer load, the send, GraceEpoch::exit
    | Enter(r: Reader) | Load(r: Reader) | Use(r: Reader, kind: Kind) | Exit(r: Reader)
    // republish under the lock, and the destructor
    | Begin(table: RouteTable) | Close | StoreHot | StoreMic | Exchange
    | ScanRead | ScanPoll | ScanNext | Unlock | Free(address: Address) | FreeLast
    // sendBattery under the lock
    | BeatLock | BeatSend(index: nat) | BeatUnlock
    // installFeedbackHandlers
    | InstallHandlers(conn: ConnId)
    // micSenderForSlot and the lease's destructor
    | Observe(id: nat, slot: SlotId) | CasWin(id: nat) | CasLose(id: nat) | Refuse(id: nat)
    | MakeLease(id: nat) | Release(id: nat)

  /** The table a reader holds has a route for what it sends. */
  predicate Routed(t: Threads, r: Reader, kind: Kind, table: RouteTable)
    requires Registered(t, r)
  {
    match r
    case Device(i) =>
      i < |table.inputs| && table.inputs[i].Some? && !kind.Feedback? && !kind.MicFrame?
      && (kind.Motion? ==> table.inputs[i].value.motion)
    case Session(c) => kind.Feedback? && FeedbackFor(table, c).Some?
    case Sender(id) => kind.MicFrame? && MicFor(table, t.senders[id].slot).Some?
  }

  /** The address a publication stores; the destructor stores null. */
  function NextAddress(m: Memory): Address
    requires m.writer.Busy?
  {
    if m.writer.job.Republish? then |m.tables| else 0
  }

  predicate WriterAt(m: Memory, stage: Stage) {
    m.writer.Busy? && m.writer.stage == stage
  }

  predicate Closing(m: Memory) {
    m.writer.Gone? || (m.writer.Busy? && m.writer.job.Destroy?)
  }

  // Each thread's steps touch one part of the state: the readers the grace epochs, the publisher
  // and the destructor the memory, the installs and the sender calls the threads.

  predicate ReaderEnabled(s: State, step: Step) {
    match step
    case Enter(r) =>
      // Whoever owns the router stops its device and session threads before destroying it.
      Registered(s.threads, r) && r !in s.grace.brackets && (DomainOf(r).Hot? ==> !Closing(s.memory))
      && Participant(s.threads, r) < |Epochs(s.grace, DomainOf(r))|
    case Load(r) => r in s.grace.brackets && s.grace.brackets[r].Entered?
    case Exit(r) =>
      r in s.grace.brackets && s.grace.brackets[r].Loaded? && Registered(s.threads, r)
      && Participant(s.threads, r) < |Epochs(s.grace, DomainOf(r))|
    case _ => false
  }

  /** GraceEpoch::enter and exit: the participant's own counter, one up. */
  function Bump(g: Grace, d: Domain, p: nat): Grace
    requires p < |Epochs(g, d)|
  {
    if d.Hot? then g.(hot := g.hot[p := Wrapped(g.hot[p] + 1)])
    else g.(mic := g.mic[p := Wrapped(g.mic[p] + 1)])
  }

  function ReaderApply(s: State, step: Step): Grace
    requires ReaderEnabled(s, step)
  {
    match step
    case Enter(r) =>
      Bump(s.grace, DomainOf(r), Participant(s.threads, r)).(brackets := s.grace.brackets[r := Entered])
    case Load(r) =>
      s.grace.(brackets := s.grace.brackets[r := Loaded(Pointer(s.memory, DomainOf(r)))])
    case Exit(r) =>
      Bump(s.grace, DomainOf(r), Participant(s.threads, r)).(brackets := s.grace.brackets - {r})
  }

  predicate WriterEnabled(m: Memory, g: Grace, step: Step) {
    match step
    case Begin(_) => m.writer.Idle?
    case Close => m.writer.Idle? && m.retired == {}
    case StoreHot => WriterAt(m, Begun)
    case StoreMic => WriterAt(m, HotStored)
    case Exchange => WriterAt(m, MicStored)
    case ScanRead => Scanning(m, g) && m.writer.stage.seen.None?
    case ScanPoll => Scanning(m, g) && m.writer.stage.seen.Some?
    case ScanNext =>
      m.writer.Busy? && m.writer.stage.Waiting? && m.writer.stage.pos == Size(m.writer.stage.domain)
    case Unlock => WriterAt(m, Drained) && m.writer.job.Republish?
    case FreeLast => WriterAt(m, Drained) && m.writer.job.Destroy?
    case Free(t) => t in m.retired
    case BeatLock => m.writer.Idle?
    case BeatUnlock => m.writer.Beating?
    case _ => false
  }

  predicate Scanning(m: Memory, g: Grace) {
    m.writer.Busy? && m.writer.stage.Waiting? && m.writer.stage.pos < Size(m.writer.stage.domain)
    && |Epochs(g, m.writer.stage.domain)| == Size(m.writer.stage.domain)
  }

  function ToStage(m: Memory, stage: Stage): Memory
    requires m.writer.Busy?
  {
    m.(writer := m.writer.(stage := stage))
  }

  function Nonnull(t: Address): set<Address> {
    if t == 0 then {} else {t}
  }

  function WriterApply(m: Memory, g: Grace, step: Step): Memory
    requires WriterEnabled(m, g, step)
  {
    match step
    case Begin(table) => m.(tables := m.tables + [table], writer := Busy(Republish, m.published, Begun))
    case Close => m.(writer := Busy(Destroy, m.published, Begun))
    case StoreHot => ToStage(m, HotStored).(hotPointer := NextAddress(m))
    case StoreMic => ToStage(m, MicStored).(micPointer := NextAddress(m))
    case Exchange =>
      // The destructor swaps nothing in: its table goes with the owner.
      ToStage(m, Waiting(Hot, 0, None)).(
      published := if m.writer.job.Republish? then NextAddress(m) else m.published)
    case ScanRead =>
      var w := m.writer.stage;
      var e := Epochs(g, w.domain)[w.pos];
      ToStage(m, if e % 2 == 0 then w.(pos := w.pos + 1) else w.(seen := Some(e)))
    case ScanPoll =>
      var w := m.writer.stage;
      if Epochs(g, w.domain)[w.pos] == w.seen.value then m
      else ToStage(m, Waiting(w.domain, w.pos + 1, None))
    case ScanNext =>
      ToStage(m, if m.writer.stage.domain.Hot? then Waiting(Mic, 0, None) else Drained)
    case Unlock => m.(writer := Idle, retired := m.retired + Nonnull(m.writer.previous))
    case FreeLast => m.(writer := Gone, published := 0, freed := m.freed + Nonnull(m.writer.previous))
    case Free(t) => m.(retired := m.retired - {t}, freed := m.freed + {t})
    case BeatLock => m.(writer := Beating)
    case BeatUnlock => m.(writer := Idle)
  }

  predicate ThreadEnabled(s: State, step: Step) {
    var t := s.threads;
    match step
    case InstallHandlers(_) => !Closing(s.memory)
    case Observe(id, _) => id !in t.senders && !Closing(s.memory)
    case CasWin(id) => id in t.senders && t.senders[id].Observed? && !Full(t.taken) && t.senders[id].word == t.taken
    // The word moved, or compare_exchange_weak failed spuriously.
    case CasLose(id) => id in t.senders && t.senders[id].Observed? && !Full(t.senders[id].word)
    case Refuse(id) => id in t.senders && t.senders[id].Observed? && Full(t.senders[id].word)
    case MakeLease(id) => id in t.senders && t.senders[id].Won?
    case Release(id) =>
      // The last copy of a sender does not go while one of its calls is running.
      id in t.senders && t.senders[id].Leased? && Sender(id) !in s.grace.brackets
      && t.senders[id].participant < |t.taken|
    case _ => false
  }

  function ThreadApply(s: State, step: Step): Threads
    requires ThreadEnabled(s, step)
  {
    var t := s.threads;
    match step
    case InstallHandlers(conn) => t.(sessions := Install(t.sessions, conn))
    case Observe(id, slot) => t.(senders := t.senders[id := Observed(slot, t.taken)])
    case CasWin(id) =>
      var p := CountrOne(t.taken);
      t.(taken := t.taken[p := true], senders := t.senders[id := Won(t.senders[id].slot, p)])
    case CasLose(id) => t.(senders := t.senders[id := t.senders[id].(word := t.taken)])
    case Refuse(id) => t.(senders := t.senders - {id})
    case MakeLease(id) =>
      t.(senders := t.senders[id := Leased(t.senders[id].slot, t.senders[id].participant)])
    case Release(id) =>
      t.(taken := t.taken[t.senders[id].participant := false], senders := t.senders - {id})
  }

  predicate SendEnabled(s: State, step: Step) {
    match step
    case Use(r, kind) =>
      r in s.grace.brackets && s.grace.brackets[r].Loaded?
      && 0 < s.grace.brackets[r].table <= |s.memory.tables| && Registered(s.threads, r)
      && Routed(s.threads, r, kind, s.memory.tables[s.grace.brackets[r].table - 1])
    case BeatSend(i) =>
      s.memory.writer.Beating? && 0 < s.memory.published <= |s.memory.tables|
      && i < |s.memory.tables[s.memory.published - 1].inputs|
      && s.memory.tables[s.memory.published - 1].inputs[i].Some?
    case _ => false
  }

  function SendApply(s: State, step: Step): Sent
    requires SendEnabled(s, step)
  {
    match step
    case Use(r, kind) =>
      var table := s.grace.brackets[r].table;
      if r.Sender? then MicSent(s.threads.senders[r.id].slot, table) else Sent(r, kind, table)
    case BeatSend(i) => Heartbeat(i, s.memory.published)
  }

  predicate Enabled(s: State, step: Step) {
    ReaderEnabled(s, step) || SendEnabled(s, step) || WriterEnabled(s.memory, s.grace, step) || ThreadEnabled(s, step)
  }

  function Apply(s: State, step: Step): State
    requires Enabled(s, step)
  {
    if ReaderEnabled(s, step) then s.(grace := ReaderApply(s, step))
    else if SendEnabled(s, step) then s.(log := s.log + [SendApply(s, step)])
    else if WriterEnabled(s.memory, s.grace, step) then s.(memory := WriterApply(s.memory, s.grace, step))
    else s.(threads := ThreadApply(s, step))
  }

  // ----- runs -----

  predicate Legal(s: State, run: seq<Step>)
    decreases run
  {
    run == [] || (Enabled(s, run[0]) && Legal(Apply(s, run[0]), run[1..]))
  }

  function After(s: State, run: seq<Step>): State
    requires Legal(s, run)
    decreases run
  {
    if run == [] then s else After(Apply(s, run[0]), run[1..])
  }
}

/**
 The touchpad gate: a stream of reports becomes an edge at once, a move at most once an interval,
 and two heals of the last frame once the stream falls still.
 */
module TouchGates {
  import opened Basics

  const MOVE_INTERVAL_NS := 8_000_000
  const HEAL_RESENDS := 2
  const NS_PER_MS := 1_000_000
  const STAMP_MODULUS := 0x1_0000_0000

  // The nine fields sameTouch compares; the event time a sample carries besides them is ignored.
  datatype Touch = Touch(
    finger0Active: bool, finger0Id: nat, finger0X: int, finger0Y: int,
    finger1Active: bool, finger1Id: nat, finger1X: int, finger1Y: int,
    buttonPressed: bool)

  datatype Send = Skip | Fresh | Heal
  datatype Verdict = Verdict(send: Send, eventTimeMs: nat)

  datatype Gate = Gate(last: Touch, lastSentNs: int, eventTimeMs: nat, healsLeft: nat)

  const NoTouch := Touch(false, 0, 0, 0, false, 0, 0, 0, false)
  const NewGate := Gate(NoTouch, 0, 0, 0)

  /** A contact, the click or a tracking id changed. */
  predicate IsEdge(last: Touch, next: Touch) {
    var contactChanged := next.finger0Active != last.finger0Active || next.finger1Active != last.finger1Active;
    var clickChanged := next.buttonPressed != last.buttonPressed;
    var trackingIdChanged := next.finger0Id != last.finger0Id || next.finger1Id != last.finger1Id;
    contactChanged || clickChanged || trackingIdChanged
  }

  /** Milliseconds, rounded towards zero and cut to 32 bits. */
  function Stamp(nowNs: int): nat {
    (if nowNs < 0 then -((-nowNs) / NS_PER_MS) else nowNs / NS_PER_MS) % STAMP_MODULUS
  }

  // ----- the gate as a function of its state -----

  function Decided(g: Gate, touch: Touch, nowNs: int): (Gate, Verdict) {
    var elapsed := nowNs - g.lastSentNs >= MOVE_INTERVAL_NS;
    if touch == g.last then
      if g.healsLeft == 0 || !elapsed then (g, Verdict(Skip, 0))
      else (g.(healsLeft := g.healsLeft - 1, lastSentNs := nowNs), Verdict(Heal, g.eventTimeMs))
    else if !IsEdge(g.last, touch) && !elapsed then (g, Verdict(Skip, 0))
    else (Gate(touch, nowNs, Stamp(nowNs), HEAL_RESENDS), Verdict(Fresh, Stamp(nowNs)))
  }

  class TouchGate {
    var last: Touch
    var lastSentNs: int
    var eventTimeMs: nat
    var healsLeft: nat

    constructor ()
      ensures State() == NewGate
    {
      last, lastSentNs, eventTimeMs, healsLeft := NoTouch, 0, 0, 0;
    }

    function State(): Gate
      reads this
    {
      Gate(last, lastSentNs, eventTimeMs, healsLeft)
    }

    method Decide(touch: Touch, nowNs: int) returns (verdict: Verdict)
      modifies this
      ensures (State(), verdict) == Decided(old(State()), touch, nowNs)
    {
      if touch == last {
        verdict := HealNow(nowNs);
      } else {
        verdict := Change(touch, nowNs);
      }
    }

    method Change(touch: Touch, nowNs: int) returns (verdict: Verdict)
      requires touch != last
      modifies this
      ensures (State(), verdict) == Decided(old(State()), touch, nowNs)
    {
      var insideTheMoveInterval := nowNs - lastSentNs < MOVE_INTERVAL_NS;
      if !IsEdge(last, touch) && insideTheMoveInterval { return Verdict(Skip, 0); }
      last := touch;
      lastSentNs := nowNs;
      eventTimeMs := Stamp(nowNs);
      healsLeft := HEAL_RESENDS;
      return Verdict(Fresh, eventTimeMs);
    }

    method HealNow(nowNs: int) returns (verdict: Verdict)
      modifies this
      ensures (State(), verdict) == Decided(old(State()), old(last), nowNs)
    {
      var theIntervalElapsed := nowNs - lastSentNs >= MOVE_INTERVAL_NS;
      if healsLeft == 0 || !theIntervalElapsed { return Verdict(Skip, 0); }
      healsLeft := healsLeft - 1;
      lastSentNs := nowNs;
      return Verdict(Heal, eventTimeMs);
    }
  }

  // ----- runs -----

  datatype Report = Report(touch: Touch, nowNs: int)

  function After(g: Gate, reports: seq<Report>): Gate
    decreases reports
  {
    if reports == [] then g
    else After(Decided(g, reports[0].touch, reports[0].nowNs).0, reports[1..])
  }

  function Verdicts(g: Gate, reports: seq<Report>): (vs: seq<Verdict>)
    ensures |vs| == |reports|
    decreases reports
  {
    if reports == [] then []
    else
      var (next, verdict) := Decided(g, reports[0].touch, reports[0].nowNs);
      [verdict] + Verdicts(next, reports[1..])
  }

  // How many frames of each kind a run sends.
  datatype Count = Count(edges: nat, moves: nat, heals: nat)

  function Counted(g: Gate, reports: seq<Report>): Count
    decreases reports
  {
    if reports == [] then Count(0, 0, 0)
    else
      var (next, verdict) := Decided(g, reports[0].touch, reports[0].nowNs);
      var rest := Counted(next, reports[1..]);
      match verdict.send
      case Skip => rest
      case Heal => rest.(heals := rest.heals + 1)
      case Fresh =>
        if IsEdge(g.last, reports[0].touch) then rest.(edges := rest.edges + 1) else rest.(moves := rest.moves + 1)
  }

  predicate Clocked(start: int, reports: seq<Report>)
    decreases reports
  {
    reports == [] || (start <= reports[0].nowNs && Clocked(reports[0].nowNs, reports[1..]))
  }

  // ----- agreement -----

  lemma {:induction false} LastReportDecides(g: Gate, reports: seq<Report>)
    requires reports != []
    ensures var n := |reports| - 1;
            After(g, reports) == Decided(After(g, reports[..n]), reports[n].touch, reports[n].nowNs).0
    decreases reports
  {
    var n := |reports| - 1;
    if n > 0 {
      assert reports[1..][..n - 1] == reports[..n][1..];
      LastReportDecides(Decided(g, reports[0].touch, reports[0].nowNs).0, reports[1..]);
    }
  }

  /** The fingers that are down, their tracking ids and the click; what is left of a touch is positions. */
  predicate SameContacts(a: Touch, b: Touch) {
    && a.finger0Active == b.finger0Active && a.finger1Active == b.finger1Active
    && a.finger0Id == b.finger0Id && a.finger1Id == b.finger1Id
    && a.buttonPressed == b.buttonPressed
  }

  lemma DecisionAgrees(g: Gate, touch: Touch, nowNs: int)
    ensures var next := Decided(g, touch, nowNs).0;
            SameContacts(next.last, touch) && (next.last != touch ==> nowNs - next.lastSentNs < MOVE_INTERVAL_NS)
  {
  }

  // The receiver's side: the content of the last frame that arrived, and when it was sent.
  datatype Frame = Frame(touch: Touch, sentNs: int)

  function LastSent(before: Frame, reports: seq<Report>, verdicts: seq<Verdict>): Frame
    requires |verdicts| == |reports|
    decreases reports
  {
    if reports == [] then before
    else LastSent(if verdicts[0].send.Skip? then before else Frame(reports[0].touch, reports[0].nowNs),
                  reports[1..], verdicts[1..])
  }

  /** What the gate remembers is what it last sent, a heal included. */
  lemma {:induction false} GateRemembersTheLastFrame(g: Gate, reports: seq<Report>)
    ensures LastSent(Frame(g.last, g.lastSentNs), reports, Verdicts(g, reports)) ==
            Frame(After(g, reports).last, After(g, reports).lastSentNs)
    decreases reports
  {
    if reports != [] {
      var (next, verdict) := Decided(g, reports[0].touch, reports[0].nowNs);
      assert Verdicts(g, reports)[1..] == Verdicts(next, reports[1..]);
      GateRemembersTheLastFrame(next, reports[1..]);
    }
  }

  /** After every report the last frame sent agrees with the pad on contacts, click and tracking
      ids; what may still differ is a position, and then the last send is under an interval old. */
  lemma AgreesAfterEveryReport(reports: seq<Report>)
    requires reports != []
    ensures var sent := LastSent(Frame(NoTouch, 0), reports, Verdicts(NewGate, reports));
            var now := reports[|reports| - 1];
            && sent.touch.finger0Active == now.touch.finger0Active
            && sent.touch.finger1Active == now.touch.finger1Active
            && sent.touch.finger0Id == now.touch.finger0Id && sent.touch.finger1Id == now.touch.finger1Id
            && sent.touch.buttonPressed == now.touch.buttonPressed
            && (sent.touch != now.touch ==> now.nowNs - sent.sentNs < MOVE_INTERVAL_NS)
  {
    var n := |reports| - 1;
    LastReportDecides(NewGate, reports);
    DecisionAgrees(After(NewGate, reports[..n]), reports[n].touch, reports[n].nowNs);
    GateRemembersTheLastFrame(NewGate, reports);
  }

  // ----- every verdict from what was sent before it -----

  lemma {:induction false} VerdictAt(g: Gate, reports: seq<Report>, i: nat)
    requires i < |reports|
    ensures Verdicts(g, reports)[i] == Decided(After(g, reports[..i]), reports[i].touch, reports[i].nowNs).1
    ensures Verdicts(g, reports)[..i] == Verdicts(g, reports[..i])
    decreases reports
  {
    if i > 0 {
      var next := Decided(g, reports[0].touch, reports[0].nowNs).0;
      assert reports[..i][1..] == reports[1..][..i - 1];
      VerdictAt(next, reports[1..], i - 1);
      assert Verdicts(g, reports)[..i] == [Verdicts(g, reports)[0]] + Verdicts(next, reports[1..])[..i - 1];
    }
  }

  /** How many heals followed the last fresh frame, if there was one. */
  function HealsSince(verdicts: seq<Verdict>): Option<nat> {
    if verdicts == [] then None
    else
      var front := HealsSince(verdicts[..|verdicts| - 1]);
      match verdicts[|verdicts| - 1].send
      case Skip => front
      case Fresh => Some(0)
      case Heal => if front.Some? then Some(front.value + 1) else None
  }

  /** What a new gate still owes: nothing before the first fresh frame, and then two heals less those sent. */
  lemma {:induction false} OwesTheRest(reports: seq<Report>)
    ensures var since := HealsSince(Verdicts(NewGate, reports));
            After(NewGate, reports).healsLeft ==
            if since.Some? && since.value <= HEAL_RESENDS then HEAL_RESENDS - since.value else 0
    ensures HealsSince(Verdicts(NewGate, reports)).Some? ==>
              HealsSince(Verdicts(NewGate, reports)).value <= HEAL_RESENDS
    decreases |reports|
  {
    if reports != [] {
      var n := |reports| - 1;
      OwesTheRest(reports[..n]);
      LastReportDecides(NewGate, reports);
      VerdictAt(NewGate, reports, n);
    }
  }

  lemma DecidedBy(g: Gate, touch: Touch, nowNs: int)
    ensures var send, late := Decided(g, touch, nowNs).1.send, nowNs - g.lastSentNs >= 8_000_000;
            && (send.Fresh? <==> !SameContacts(g.last, touch) || (touch != g.last && late))
            && (send.Heal? <==> touch == g.last && late && g.healsLeft > 0)
  {
  }

  /** Every verdict of every run, from the frames that went before it: a report goes out fresh exactly when a finger
      went down or up, a tracking id or the click changed, or it differs at all from the last frame and that is
      8 ms old; the last frame is repeated exactly when it is 8 ms old, still true, and was repeated less than twice;
      nothing else goes. */
  lemma VerdictFollowsFromTheFrames(reports: seq<Report>, i: nat)
    requires i < |reports|
    ensures var vs := Verdicts(NewGate, reports);
            var sent := LastSent(Frame(NoTouch, 0), reports[..i], vs[..i]);
            var touch, late := reports[i].touch, reports[i].nowNs - sent.sentNs >= 8_000_000;
            && (vs[i].send.Fresh? <==>
                  || touch.finger0Active != sent.touch.finger0Active || touch.finger1Active != sent.touch.finger1Active
                  || touch.finger0Id != sent.touch.finger0Id || touch.finger1Id != sent.touch.finger1Id
                  || touch.buttonPressed != sent.touch.buttonPressed
                  || (touch != sent.touch && late))
            && (vs[i].send.Heal? <==>
                  touch == sent.touch && late && HealsSince(vs[..i]).Some? && HealsSince(vs[..i]).value < 2)
  {
    var before := reports[..i];
    VerdictAt(NewGate, reports, i);
    GateRemembersTheLastFrame(NewGate, before);
    OwesTheRest(before);
    DecidedBy(After(NewGate, before), reports[i].touch, reports[i].nowNs);
  }

  // ----- rate -----

  /** With a clock that never goes back, every move and heal advances the last send by an interval. */
  lemma {:induction false} SendsAreSpaced(g: Gate, reports: seq<Report>)
    requires Clocked(g.lastSentNs, reports)
    ensures var c := Counted(g, reports);
            (c.moves + c.heals) * MOVE_INTERVAL_NS <= After(g, reports).lastSentNs - g.lastSentNs
    ensures reports != [] ==> After(g, reports).lastSentNs <= reports[|reports| - 1].nowNs
    decreases reports
  {
    if reports != [] {
      var next := Decided(g, reports[0].touch, reports[0].nowNs).0;
      ClockedEarlier(next.lastSentNs, reports[0].nowNs, reports[1..]);
      SendsAreSpaced(next, reports[1..]);
    }
  }

  lemma ClockedEarlier(start: int, later: int, reports: seq<Report>)
    requires start <= later && Clocked(later, reports)
    ensures Clocked(start, reports)
  {
  }

  /** Over any window the frames sent are the edges, one more, and one an interval elapsed. */
  lemma {:induction false} RateBound(g: Gate, reports: seq<Report>)
    requires reports != [] && Clocked(g.lastSentNs, reports)
    ensures var c := Counted(g, reports);
            c.moves + c.heals <= 1 + (reports[|reports| - 1].nowNs - reports[0].nowNs) / MOVE_INTERVAL_NS
    decreases reports
  {
    var (next, verdict) := Decided(g, reports[0].touch, reports[0].nowNs);
    var rest := reports[1..];
    ClockedEarlier(next.lastSentNs, reports[0].nowNs, rest);
    SendsAreSpaced(next, rest);
    if rest != [] {
      RateBound(next, rest);
      EndNotBeforeStart(reports[0].nowNs, rest);
    }
  }

  lemma {:induction false} EndNotBeforeStart(start: int, reports: seq<Report>)
    requires reports != [] && Clocked(start, reports)
    ensures start <= reports[0].nowNs <= reports[|reports| - 1].nowNs
    decreases reports
  {
    if |reports| > 1 { EndNotBeforeStart(reports[0].nowNs, reports[1..]); }
  }

  // ----- quiescence -----

  predicate Still(touch: Touch, reports: seq<Report>) {
    forall i :: 0 <= i < |reports| ==> reports[i].touch == touch
  }

  /** However long the touch stays the same, at most one fresh frame goes, and after it at most the
      heals it armed; without a fresh frame, at most the heals still owed. */
  lemma {:induction false} StillnessIsQuiet(g: Gate, touch: Touch, reports: seq<Report>)
    requires Still(touch, reports)
    ensures var c := Counted(g, reports);
            && (g.last == touch ==> c.edges + c.moves == 0 && After(g, reports).last == touch
                                    && c.heals + After(g, reports).healsLeft == g.healsLeft)
            && (g.last != touch ==> c.edges + c.moves <= 1 && c.heals <= HEAL_RESENDS
                                    && (c.edges + c.moves == 0 ==> c.heals == 0))
    decreases reports
  {
    if reports != [] {
      StillnessIsQuiet(Decided(g, touch, reports[0].nowNs).0, touch, reports[1..]);
    }
  }

  /** A gate never owes more heals than a fresh frame arms. */
  lemma {:induction false} HealsOwedAreBounded(g: Gate, reports: seq<Report>)
    requires g.healsLeft <= HEAL_RESENDS
    ensures After(g, reports).healsLeft <= HEAL_RESENDS
    decreases reports
  {
    if reports != [] { HealsOwedAreBounded(Decided(g, reports[0].touch, reports[0].nowNs).0, reports[1..]); }
  }

  lemma {:induction false} KnownTouchIsNotFresh(g: Gate, reports: seq<Report>, j: nat)
    requires Still(g.last, reports) && j < |reports|
    ensures !Verdicts(g, reports)[j].send.Fresh?
    decreases reports
  {
    if j > 0 { KnownTouchIsNotFresh(Decided(g, reports[0].touch, reports[0].nowNs).0, reports[1..], j - 1); }
  }

  /** While the touch stays the same, nothing goes before the fresh frame. */
  lemma {:induction false} FreshGoesFirst(g: Gate, touch: Touch, reports: seq<Report>, i: nat, j: nat)
    requires Still(touch, reports) && i < j < |reports| && Verdicts(g, reports)[j].send.Fresh?
    ensures Verdicts(g, reports)[i].send.Skip?
    decreases reports
  {
    var (next, verdict) := Decided(g, touch, reports[0].nowNs);
    if verdict.send.Skip? {
      if i > 0 { FreshGoesFirst(next, touch, reports[1..], i - 1, j - 1); }
    } else {
      KnownTouchIsNotFresh(next, reports[1..], j - 1);
    }
  }

  /** After any reports at all, a touch that stays the same sends at most one fresh frame, then at most two
      heals, then nothing, however long it stays. */
  lemma StillTailIsQuiet(before: seq<Report>, touch: Touch, tail: seq<Report>)
    requires Still(touch, tail)
    ensures var g := After(NewGate, before);
            var c, vs := Counted(g, tail), Verdicts(g, tail);
            && c.edges + c.moves <= 1 && c.heals <= HEAL_RESENDS
            && (g.last == touch ==> c.edges + c.moves == 0)
            && forall i, j :: 0 <= i < j < |tail| && vs[j].send.Fresh? ==> vs[i].send.Skip?
  {
    var g := After(NewGate, before);
    HealsOwedAreBounded(NewGate, before);
    StillnessIsQuiet(g, touch, tail);
    forall i, j | 0 <= i < j < |tail| && Verdicts(g, tail)[j].send.Fresh? ensures Verdicts(g, tail)[i].send.Skip? {
      FreshGoesFirst(g, touch, tail, i, j);
    }
  }

  predicate Spaced(reports: seq<Report>) {
    forall i :: 0 < i < |reports| ==> reports[i].nowNs - reports[i - 1].nowNs >= MOVE_INTERVAL_NS
  }

  function Min(a: nat, b: nat): nat {
    if a < b then a else b
  }

  lemma {:induction false} HealsDrain(g: Gate, reports: seq<Report>)
    requires Still(g.last, reports) && Spaced(reports)
    requires reports != [] ==> reports[0].nowNs - g.lastSentNs >= MOVE_INTERVAL_NS
    ensures Counted(g, reports) == Count(0, 0, Min(g.healsLeft, |reports|))
    decreases reports
  {
    if reports != [] {
      var next := Decided(g, reports[0].touch, reports[0].nowNs).0;
      assert forall i :: 0 <= i < |reports[1..]| ==> reports[1..][i] == reports[i + 1];
      if g.healsLeft == 0 {
        StillnessIsQuiet(g, g.last, reports);
      } else {
        HealsDrain(next, reports[1..]);
      }
    }
  }

  lemma StillTail(touch: Touch, reports: seq<Report>)
    requires reports != [] && Still(touch, reports) && Spaced(reports)
    ensures Still(touch, reports[1..]) && Spaced(reports[1..])
  {
    assert forall i :: 0 <= i < |reports[1..]| ==> reports[1..][i] == reports[i + 1];
  }

  /** If reports of the same touch keep coming an interval apart, everything owed is sent: the
      fresh frame when the touch is new, and then every heal. */
  lemma StillnessIsHealed(g: Gate, touch: Touch, reports: seq<Report>)
    requires Still(touch, reports) && Spaced(reports) && |reports| >= 2 + HEAL_RESENDS
    requires g.lastSentNs <= reports[0].nowNs && g.healsLeft <= HEAL_RESENDS
    ensures var c := Counted(g, reports);
            if g.last == touch then c == Count(0, 0, g.healsLeft)
            else c.edges + c.moves == 1 && c.heals == HEAL_RESENDS
    ensures After(g, reports).last == touch && After(g, reports).healsLeft == 0
  {
    var (g1, v1) := Decided(g, touch, reports[0].nowNs);
    var rest := reports[1..];
    StillTail(touch, reports);
    StillnessIsQuiet(g, touch, reports);
    StillnessIsQuiet(g1, touch, rest);
    if g1.last == touch {
      HealsDrain(g1, rest);
    } else {
      var (g2, v2) := Decided(g1, touch, rest[0].nowNs);
      StillTail(touch, rest);
      HealsDrain(g2, rest[1..]);
      StillnessIsQuiet(g2, touch, rest[1..]);
    }
  }

  function LastTime(reports: seq<Report>): int {
    if reports == [] then 0 else reports[|reports| - 1].nowNs
  }

  /** After any reports, four of one touch an interval apart leave nothing owed: the receiver has the touch, sent
      fresh if it was new, and every heal of it. */
  lemma StillTailIsHealed(before: seq<Report>, touch: Touch, tail: seq<Report>)
    requires Clocked(0, before) && Still(touch, tail) && Spaced(tail) && |tail| >= 2 + HEAL_RESENDS
    requires LastTime(before) <= tail[0].nowNs
    ensures var g := After(NewGate, before);
            var c := Counted(g, tail);
            && (if g.last == touch then c == Count(0, 0, g.healsLeft)
                else c.edges + c.moves == 1 && c.heals == HEAL_RESENDS)
            && After(g, tail).last == touch && After(g, tail).healsLeft == 0
  {
    HealsOwedAreBounded(NewGate, before);
    SendsAreSpaced(NewGate, before);
    StillnessIsHealed(After(NewGate, before), touch, tail);
  }

  // ----- heals -----

  /** Every heal repeats the content and the event time of the last fresh frame before it; `j` is
      that frame, or -1 when it was sent before the run. */
  lemma {:induction false} HealRepeatsTheLastFresh(g: Gate, reports: seq<Report>, i: nat) returns (j: int)
    requires i < |reports| && Verdicts(g, reports)[i].send.Heal?
    ensures -1 <= j < i
    ensures forall k :: j < k < i ==> !Verdicts(g, reports)[k].send.Fresh?
    ensures 0 <= j ==> && Verdicts(g, reports)[j].send.Fresh?
                       && reports[j].touch == reports[i].touch
                       && Verdicts(g, reports)[j].eventTimeMs == Verdicts(g, reports)[i].eventTimeMs
    ensures j == -1 ==> && g.healsLeft > 0
                        && g.last == reports[i].touch
                        && g.eventTimeMs == Verdicts(g, reports)[i].eventTimeMs
    decreases reports
  {
    if i == 0 {
      j := -1;
    } else {
      var (next, verdict) := Decided(g, reports[0].touch, reports[0].nowNs);
      var later := HealRepeatsTheLastFresh(next, reports[1..], i - 1);
      j := if later >= 0 then later + 1 else if verdict.send.Fresh? then 0 else -1;
      assert forall k :: 0 < k < |reports| ==> Verdicts(g, reports)[k] == Verdicts(next, reports[1..])[k - 1];
      forall k | j < k < i ensures !Verdicts(g, reports)[k].send.Fresh? {
        if k > 0 { assert !Verdicts(next, reports[1..])[k - 1].send.Fresh?; }
      }
    }
  }

  /** A new gate heals nothing before its first fresh frame. */
  lemma NoHealBeforeTheFirstFresh(reports: seq<Report>, i: nat)
    requires i < |reports| && Verdicts(NewGate, reports)[i].send.Heal?
    ensures exists j :: 0 <= j < i && Verdicts(NewGate, reports)[j].send.Fresh?
  {
    var j := HealRepeatsTheLastFresh(NewGate, reports, i);
    assert 0 <= j;
  }

  // ----- event times -----

  /** Two frames carry the same event time exactly when their milliseconds agree modulo 2^32. */
  lemma SameStamp(a: int, b: int)
    requires 0 <= a <= b
    ensures Stamp(a) == Stamp(b) <==> (b / NS_PER_MS - a / NS_PER_MS) % STAMP_MODULUS == 0
  {
    var x, y := a / NS_PER_MS, b / NS_PER_MS;
    CongruentApart(x, y);
  }

  lemma CongruentApart(x: nat, y: nat)
    requires x <= y
    ensures x % STAMP_MODULUS == y % STAMP_MODULUS <==> (y - x) % STAMP_MODULUS == 0
  {
    assert y % STAMP_MODULUS == (x % STAMP_MODULUS + (y - x) % STAMP_MODULUS) % STAMP_MODULUS by {
      var qx, qd := x / STAMP_MODULUS, (y - x) / STAMP_MODULUS;
      assert x == qx * STAMP_MODULUS + x % STAMP_MODULUS;
      assert y - x == qd * STAMP_MODULUS + (y - x) % STAMP_MODULUS;
    }
  }

  /** Frames at least a millisecond and less than 49 days apart never share an event time. */
  lemma StampsDiffer(a: int, b: int)
    requires 0 <= a && NS_PER_MS <= b - a < (STAMP_MODULUS - 1) * NS_PER_MS
    ensures Stamp(a) != Stamp(b)
  {
    SameStamp(a, b);
    var d := b / NS_PER_MS - a / NS_PER_MS;
    assert 1 <= d < STAMP_MODULUS;
  }

  /** Two edges inside one millisecond are two fresh frames with one event time. */
  lemma EdgesInOneMillisecondShareAStamp()
    ensures var down := NoTouch.(buttonPressed := true);
            var vs := Verdicts(NewGate, [Report(down, 1), Report(NoTouch, 2)]);
            vs[0].send.Fresh? && vs[1].send.Fresh? && vs[0].eventTimeMs == vs[1].eventTimeMs
  {
    var down := NoTouch.(buttonPressed := true);
    var rs := [Report(down, 1), Report(NoTouch, 2)];
    assert rs[1..] == [Report(NoTouch, 2)];
  }

  /** What the router puts on the wire: the frame's own stamp, or the clock for a zero one. */
  function WireStamp(eventTimeMs: nat, uptimeMs: nat): nat {
    if eventTimeMs != 0 then eventTimeMs else uptimeMs
  }

  lemma {:induction false} FreshIsStampedNow(g: Gate, reports: seq<Report>, j: nat)
    requires j < |reports| && Verdicts(g, reports)[j].send.Fresh?
    ensures Verdicts(g, reports)[j].eventTimeMs == Stamp(reports[j].nowNs)
    decreases reports
  {
    if j > 0 { FreshIsStampedNow(Decided(g, reports[0].touch, reports[0].nowNs).0, reports[1..], j - 1); }
  }

  /** A fresh frame carries its own millisecond, for the first 49 days. */
  lemma {:induction false} FreshCarriesItsMillisecond(reports: seq<Report>, j: nat)
    requires j < |reports| && Verdicts(NewGate, reports)[j].send.Fresh?
    requires 0 <= reports[j].nowNs < 0x1_0000_0000 * 1_000_000
    ensures Verdicts(NewGate, reports)[j].eventTimeMs == reports[j].nowNs / 1_000_000
  {
    FreshIsStampedNow(NewGate, reports, j);
  }

  /** The fresh frame j is the one the heal i repeats. */
  ghost predicate Repeats(reports: seq<Report>, i: nat, j: nat) {
    && j < i < |reports| && Verdicts(NewGate, reports)[i].send.Heal? && Verdicts(NewGate, reports)[j].send.Fresh?
    && forall k :: j < k < i ==> !Verdicts(NewGate, reports)[k].send.Fresh?
  }

  /** On the wire a heal carries the stamp of the frame it repeats, whatever the clock read at either send,
      exactly when the gate took that frame at a time whose stamp is not zero. */
  lemma HealKeepsItsStampOnTheWire(reports: seq<Report>, i: nat, j: nat)
    requires Repeats(reports, i, j)
    ensures var vs := Verdicts(NewGate, reports);
            (forall sent, healed :: WireStamp(vs[j].eventTimeMs, sent) == WireStamp(vs[i].eventTimeMs, healed))
            <==> Stamp(reports[j].nowNs) != 0
  {
    var vs := Verdicts(NewGate, reports);
    var repeated := HealRepeatsTheLastFresh(NewGate, reports, i);
    FreshIsStampedNow(NewGate, reports, j);
    if Stamp(reports[j].nowNs) == 0 {
      assert WireStamp(vs[j].eventTimeMs, 0) != WireStamp(vs[i].eventTimeMs, 1);
    }
  }

  /** A press in the clock's first millisecond, and its heal: two stamps for one frame. */
  lemma FirstMillisecondIsRestamped()
    ensures var down := NoTouch.(buttonPressed := true);
            var reports := [Report(down, 0), Report(down, MOVE_INTERVAL_NS)];
            var vs := Verdicts(NewGate, reports);
            && Repeats(reports, 1, 0) && Stamp(reports[0].nowNs) == 0
            && WireStamp(vs[0].eventTimeMs, reports[0].nowNs / NS_PER_MS)
               != WireStamp(vs[1].eventTimeMs, reports[1].nowNs / NS_PER_MS)
  {
    var down := NoTouch.(buttonPressed := true);
    var reports := [Report(down, 0), Report(down, MOVE_INTERVAL_NS)];
    assert reports[1..] == [Report(down, MOVE_INTERVAL_NS)];
    assert Verdicts(NewGate, reports)[0].send.Fresh? && Verdicts(NewGate, reports)[1].send.Heal?;
  }
}

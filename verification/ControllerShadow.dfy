/**
 A game controller's state kept from its own events, against a full read of the pad.
 */
module ControllerShadows {
  const AXIS_MAX := 6
  const BUTTON_MAX := 21
  const SDL_PRESSED := 1

  // A machine word, one entry a bit, the lowest first.
  type Word = seq<bool>
  const BUTTON_WORD := 32
  const XUSB_WORD := 16

  datatype Event =
    | AxisMotion(axis: nat, value: int)
    | ButtonDown(button: nat, state: nat)
    | ButtonUp(button: nat, state: nat)
    | OtherEvent

  // What SDL's getters answer for a pad.
  datatype Pad = Pad(axes: seq<int>, pressed: seq<bool>)

  datatype Snapshot = Snapshot(
    wButtons: Word, leftX: int, leftY: int, rightX: int, rightY: int, leftTrigger: int, rightTrigger: int)

  predicate Real(pad: Pad) {
    |pad.axes| == AXIS_MAX && |pad.pressed| == BUTTON_MAX
  }

  // ----- the pad moved by an event -----

  predicate InRange(ev: Event) {
    match ev
    case AxisMotion(axis, _) => axis < AXIS_MAX
    case ButtonDown(button, _) => button < BUTTON_MAX
    case ButtonUp(button, _) => button < BUTTON_MAX
    case OtherEvent => false
  }

  /** The getters' answers after an event: the event's own axis or button, as its state says. */
  function Moved(pad: Pad, ev: Event): (moved: Pad)
    requires Real(pad)
    ensures Real(moved)
  {
    match ev
    case AxisMotion(axis, value) => if axis < AXIS_MAX then pad.(axes := pad.axes[axis := value]) else pad
    case ButtonDown(button, state) => HeldAs(pad, button, state == SDL_PRESSED)
    case ButtonUp(button, state) => HeldAs(pad, button, state == SDL_PRESSED)
    case OtherEvent => pad
  }

  function HeldAs(pad: Pad, button: nat, held: bool): (moved: Pad)
    requires Real(pad)
    ensures Real(moved)
  {
    if button < BUTTON_MAX then pad.(pressed := pad.pressed[button := held]) else pad
  }

  function MovedAll(pad: Pad, events: seq<Event>): (moved: Pad)
    requires Real(pad)
    ensures Real(moved)
    decreases events
  {
    if events == [] then pad else Moved(MovedAll(pad, events[..|events| - 1]), events[|events| - 1])
  }

  // ----- the XUSB word -----

  const ROWS := 15

  // SDL button to XUSB bit, one row each: the four directions, Start, Back, the two stick clicks,
  // the two shoulders, Guide, then A, B, X and Y after the unused bit 11.
  function Button(row: nat): nat
    requires row < ROWS
  {
    [11, 12, 13, 14, 6, 4, 7, 8, 9, 10, 5, 0, 1, 2, 3][row]
  }

  function Bit(row: nat): nat
    requires row < ROWS
  {
    if row < 11 then row else row + 1
  }

  function Power2(n: nat): nat {
    if n == 0 then 1 else 2 * Power2(n - 1)
  }

  /** The bits are the wire's, which must not be renumbered. */
  lemma WireValues()
    ensures Power2(Bit(0)) == 0x0001 && Power2(Bit(1)) == 0x0002 && Power2(Bit(2)) == 0x0004 && Power2(Bit(3)) == 0x0008
    ensures Power2(Bit(4)) == 0x0010 && Power2(Bit(5)) == 0x0020 && Power2(Bit(6)) == 0x0040 && Power2(Bit(7)) == 0x0080
    ensures Power2(Bit(8)) == 0x0100 && Power2(Bit(9)) == 0x0200 && Power2(Bit(10)) == 0x0400
    ensures Power2(Bit(11)) == 0x1000 && Power2(Bit(12)) == 0x2000
    ensures Power2(Bit(13)) == 0x4000 && Power2(Bit(14)) == 0x8000
  {
  }

  /** The word's bits of the rows below `rows` say which buttons are held, and no other bit is set. */
  ghost predicate SaysPressed(word: Word, pressed: seq<bool>, rows: nat)
    requires |pressed| == BUTTON_MAX
  {
    && |word| == XUSB_WORD
    && (forall r :: 0 <= r < ROWS ==> (word[Bit(r)] <==> r < rows && pressed[Button(r)]))
    && !word[11]
  }

  /** The rows determine the word. */
  lemma WordIsUnique(a: Word, b: Word, pressed: seq<bool>)
    requires |pressed| == BUTTON_MAX && SaysPressed(a, pressed, ROWS) && SaysPressed(b, pressed, ROWS)
    ensures a == b
  {
    forall i | 0 <= i < XUSB_WORD ensures a[i] == b[i] {
      if i != 11 {
        var r := if i < 11 then i else i - 1;
        assert Bit(r) == i;
      }
    }
  }

  /** What a snapshot says of a pad: each XUSB bit its own button, each field its own axis. */
  ghost predicate Reads(snap: Snapshot, pad: Pad)
    requires Real(pad)
  {
    && SaysPressed(snap.wButtons, pad.pressed, ROWS)
    && snap.leftX == pad.axes[0] && snap.leftY == pad.axes[1]
    && snap.rightX == pad.axes[2] && snap.rightY == pad.axes[3]
    && snap.leftTrigger == pad.axes[4] && snap.rightTrigger == pad.axes[5]
  }

  lemma ReadsIsUnique(a: Snapshot, pad: Pad)
    requires Real(pad) && Reads(a, pad)
    ensures forall b :: Reads(b, pad) ==> b == a
  {
    forall b | Reads(b, pad) ensures b == a { WordIsUnique(a.wButtons, b.wButtons, pad.pressed); }
  }

  /** A full read, straight from the getters. */
  method ReadGamepad(pad: Pad) returns (snap: Snapshot)
    requires Real(pad)
    ensures Reads(snap, pad)
  {
    var buttons := seq(XUSB_WORD, _ => false);
    for row := 0 to ROWS
      invariant SaysPressed(buttons, pad.pressed, row)
    {
      if pad.pressed[Button(row)] { buttons := buttons[Bit(row) := true]; }
    }
    snap := Snapshot(buttons, pad.axes[0], pad.axes[1], pad.axes[2], pad.axes[3], pad.axes[4], pad.axes[5]);
  }

  // ----- the shadow -----

  class ControllerShadow {
    const axes: array<int>
    var buttons: Word

    constructor ()
      ensures axes.Length == AXIS_MAX && fresh(axes)
      ensures buttons == seq(BUTTON_WORD, _ => false) && forall i :: 0 <= i < AXIS_MAX ==> axes[i] == 0
    {
      axes := new int[AXIS_MAX](_ => 0);
      buttons := seq(BUTTON_WORD, _ => false);
    }

    /** The shadow holds what the pad's getters would answer. */
    ghost predicate Mirrors(pad: Pad)
      reads this, axes
    {
      && Real(pad)
      && axes[..] == pad.axes
      && |buttons| == BUTTON_WORD
      && buttons[..BUTTON_MAX] == pad.pressed
    }

    method Seed(pad: Pad)
      requires Real(pad) && axes.Length == AXIS_MAX
      modifies this, axes
      ensures Mirrors(pad)
    {
      for axis := 0 to AXIS_MAX
        invariant forall i :: 0 <= i < axis ==> axes[i] == pad.axes[i]
      {
        axes[axis] := pad.axes[axis];
      }
      buttons := seq(BUTTON_WORD, _ => false);
      for button := 0 to BUTTON_MAX
        invariant |buttons| == BUTTON_WORD && axes[..] == pad.axes
        invariant forall b :: 0 <= b < BUTTON_WORD ==> (buttons[b] <==> b < button && pad.pressed[b])
      {
        if pad.pressed[button] { buttons := buttons[button := true]; }
      }
    }

    /** Moves the shadow as the event moves the pad; an event it does not keep changes nothing. */
    method Apply(ev: Event, ghost pad: Pad) returns (kept: bool)
      requires Mirrors(pad)
      modifies this, axes
      ensures Mirrors(Moved(pad, ev))
      ensures kept <==> InRange(ev)
      ensures !kept ==> axes[..] == old(axes[..]) && buttons == old(buttons)
    {
      match ev
      case AxisMotion(axis, value) =>
        if axis >= AXIS_MAX { return false; }
        axes[axis] := value;
        return true;
      case ButtonDown(button, state) =>
        kept := SetButton(button, state, pad);
      case ButtonUp(button, state) =>
        kept := SetButton(button, state, pad);
      case OtherEvent =>
        return false;
    }

    /** A button event's state decides, not whether it came as a down or an up. */
    method SetButton(button: nat, state: nat, ghost pad: Pad) returns (kept: bool)
      requires Mirrors(pad)
      modifies this
      ensures kept <==> button < BUTTON_MAX
      ensures Mirrors(HeldAs(pad, button, state == SDL_PRESSED))
      ensures !kept ==> buttons == old(buttons)
    {
      if button >= BUTTON_MAX { return false; }
      if state == SDL_PRESSED {
        buttons := buttons[button := true];
      } else {
        buttons := buttons[button := false];
      }
      return true;
    }

    predicate Pressed(button: nat)
      requires |buttons| == BUTTON_WORD
      reads this
    {
      button < BUTTON_MAX && buttons[button]
    }

    method TakeSnapshot(ghost pad: Pad) returns (snap: Snapshot)
      requires Mirrors(pad)
      ensures Reads(snap, pad)
    {
      var word := seq(XUSB_WORD, _ => false);
      for row := 0 to ROWS
        invariant SaysPressed(word, pad.pressed, row)
      {
        assert pad.pressed[Button(row)] == buttons[Button(row)];
        if Pressed(Button(row)) { word := word[Bit(row) := true]; }
      }
      snap := Snapshot(word, axes[0], axes[1], axes[2], axes[3], axes[4], axes[5]);
    }
  }

  /** Seeded once and moved by events, the shadow's snapshot is the one full read of the pad those
      events moved, whatever the pad and the events. */
  method ReplayMatchesRead(pad: Pad, events: seq<Event>) returns (shadowed: Snapshot)
    requires Real(pad)
    ensures Reads(shadowed, MovedAll(pad, events))
    ensures forall read :: Reads(read, MovedAll(pad, events)) ==> read == shadowed
  {
    var shadow := new ControllerShadow();
    shadow.Seed(pad);
    for i := 0 to |events|
      invariant fresh(shadow) && fresh(shadow.axes)
      invariant shadow.Mirrors(MovedAll(pad, events[..i]))
    {
      assert events[..i + 1][..i] == events[..i];
      var kept := shadow.Apply(events[i], MovedAll(pad, events[..i]));
    }
    assert events[..|events|] == events;
    shadowed := shadow.TakeSnapshot(MovedAll(pad, events));
    ReadsIsUnique(shadowed, MovedAll(pad, events));
  }

  // ----- each bit and its button -----

  /** What the last event of a button said, or the seed when it had none. */
  function LastSaid(seeded: bool, events: seq<Event>, button: nat): bool {
    if events == [] then seeded
    else
      var ev := events[|events| - 1];
      if (ev.ButtonDown? || ev.ButtonUp?) && ev.button == button then ev.state == SDL_PRESSED
      else LastSaid(seeded, events[..|events| - 1], button)
  }

  lemma {:induction false} HeldAsLastSaid(pad: Pad, events: seq<Event>, button: nat)
    requires Real(pad) && button < BUTTON_MAX
    ensures MovedAll(pad, events).pressed[button] == LastSaid(pad.pressed[button], events, button)
    decreases events
  {
    if events != [] { HeldAsLastSaid(pad, events[..|events| - 1], button); }
  }

  /** Each XUSB bit follows its own button's last event, or the seed. */
  lemma EachBitFollowsItsButton(pad: Pad, events: seq<Event>, snap: Snapshot, row: nat)
    requires Real(pad) && row < ROWS && Reads(snap, MovedAll(pad, events))
    ensures snap.wButtons[Bit(row)] == LastSaid(pad.pressed[Button(row)], events, Button(row))
  {
    HeldAsLastSaid(pad, events, Button(row));
  }

  // ----- by name -----

  // SDL_GameControllerButton.
  const SDL_A := 0
  const SDL_B := 1
  const SDL_X := 2
  const SDL_Y := 3
  const SDL_BACK := 4
  const SDL_GUIDE := 5
  const SDL_START := 6
  const SDL_LEFTSTICK := 7
  const SDL_RIGHTSTICK := 8
  const SDL_LEFTSHOULDER := 9
  const SDL_RIGHTSHOULDER := 10
  const SDL_DPAD_UP := 11
  const SDL_DPAD_DOWN := 12
  const SDL_DPAD_LEFT := 13
  const SDL_DPAD_RIGHT := 14

  // SDL_GameControllerAxis.
  const SDL_LEFTX := 0
  const SDL_LEFTY := 1
  const SDL_RIGHTX := 2
  const SDL_RIGHTY := 3
  const SDL_TRIGGERLEFT := 4
  const SDL_TRIGGERRIGHT := 5

  /** The fifteen buttons and the six axes by name: bit n of the word is the wire's value 2^n. */
  ghost predicate Names(snap: Snapshot, p: seq<bool>, axes: seq<int>)
    requires |p| == BUTTON_MAX && |axes| == AXIS_MAX
  {
    var w := snap.wButtons;
    && |w| == XUSB_WORD
    && w[0] == p[SDL_DPAD_UP] && w[1] == p[SDL_DPAD_DOWN] && w[2] == p[SDL_DPAD_LEFT] && w[3] == p[SDL_DPAD_RIGHT]
    && w[4] == p[SDL_START] && w[5] == p[SDL_BACK] && w[6] == p[SDL_LEFTSTICK] && w[7] == p[SDL_RIGHTSTICK]
    && w[8] == p[SDL_LEFTSHOULDER] && w[9] == p[SDL_RIGHTSHOULDER] && w[10] == p[SDL_GUIDE] && !w[11]
    && w[12] == p[SDL_A] && w[13] == p[SDL_B] && w[14] == p[SDL_X] && w[15] == p[SDL_Y]
    && snap.leftX == axes[SDL_LEFTX] && snap.leftY == axes[SDL_LEFTY]
    && snap.rightX == axes[SDL_RIGHTX] && snap.rightY == axes[SDL_RIGHTY]
    && snap.leftTrigger == axes[SDL_TRIGGERLEFT] && snap.rightTrigger == axes[SDL_TRIGGERRIGHT]
  }

  /** A full read says of each named button and axis what the getters answer for it. */
  lemma ReadsByName(snap: Snapshot, pad: Pad)
    requires Real(pad) && Reads(snap, pad)
    ensures Names(snap, pad.pressed, pad.axes)
  {
    var w := snap.wButtons;
    assert w[Bit(0)] == pad.pressed[Button(0)] && w[Bit(1)] == pad.pressed[Button(1)];
    assert w[Bit(2)] == pad.pressed[Button(2)] && w[Bit(3)] == pad.pressed[Button(3)];
    assert w[Bit(4)] == pad.pressed[Button(4)] && w[Bit(5)] == pad.pressed[Button(5)];
    assert w[Bit(6)] == pad.pressed[Button(6)] && w[Bit(7)] == pad.pressed[Button(7)];
    assert w[Bit(8)] == pad.pressed[Button(8)] && w[Bit(9)] == pad.pressed[Button(9)];
    assert w[Bit(10)] == pad.pressed[Button(10)] && w[Bit(11)] == pad.pressed[Button(11)];
    assert w[Bit(12)] == pad.pressed[Button(12)] && w[Bit(13)] == pad.pressed[Button(13)];
    assert w[Bit(14)] == pad.pressed[Button(14)];
  }

  /** What the last event of an axis said, or the seed when it had none. */
  function LastMoved(seeded: int, events: seq<Event>, axis: nat): int {
    if events == [] then seeded
    else
      var ev := events[|events| - 1];
      if ev.AxisMotion? && ev.axis == axis then ev.value else LastMoved(seeded, events[..|events| - 1], axis)
  }

  lemma {:induction false} MovedAsLastSaid(pad: Pad, events: seq<Event>, axis: nat)
    requires Real(pad) && axis < AXIS_MAX
    ensures MovedAll(pad, events).axes[axis] == LastMoved(pad.axes[axis], events, axis)
    decreases events
  {
    if events != [] { MovedAsLastSaid(pad, events[..|events| - 1], axis); }
  }

  /** What a seeded pad and its events leave: each named button as its last event, or its seed, says; each named
      axis at its last event's value, or its seed's. */
  lemma SnapshotByName(pad: Pad, events: seq<Event>, snap: Snapshot)
    requires Real(pad) && Reads(snap, MovedAll(pad, events))
    ensures Names(snap,
                  seq(BUTTON_MAX, b requires 0 <= b < BUTTON_MAX => LastSaid(pad.pressed[b], events, b)),
                  seq(AXIS_MAX, a requires 0 <= a < AXIS_MAX => LastMoved(pad.axes[a], events, a)))
  {
    var moved := MovedAll(pad, events);
    ReadsByName(snap, moved);
    forall b: nat | b < BUTTON_MAX ensures moved.pressed[b] == LastSaid(pad.pressed[b], events, b) {
      HeldAsLastSaid(pad, events, b);
    }
    forall a: nat | a < AXIS_MAX ensures moved.axes[a] == LastMoved(pad.axes[a], events, a) {
      MovedAsLastSaid(pad, events, a);
    }
    assert seq(BUTTON_MAX, b requires 0 <= b < BUTTON_MAX => LastSaid(pad.pressed[b], events, b)) == moved.pressed;
    assert seq(AXIS_MAX, a requires 0 <= a < AXIS_MAX => LastMoved(pad.axes[a], events, a)) == moved.axes;
  }
}

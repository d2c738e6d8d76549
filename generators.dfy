/**
 * The pure event generators of Connection.kt: each maps one input sample to
 * a fixed, ordered list of events. The samples arrive already rounded to
 * integers.
 */
module Generators {
  import opened Events
  import opened Evdev

  /** `gyroscopeEvents`: one relative event per axis, X then Y then Z. */
  function GyroscopeEvents(x: i32, y: i32, z: i32): (events: seq<Event>)
    ensures |events| == 3 && forall e <- events :: e.eventType == EV_REL
  {
    [Event(EV_REL, REL_X, x), Event(EV_REL, REL_Y, y), Event(EV_REL, REL_Z, z)]
  }

  /** The key code of button `index`: `(BTN_0 + index.toUShort()).toUShort()`. */
  function ButtonCode(index: i32): (code: u16)
    ensures 0 <= index < 0x1_0000 - BTN_0 ==> code == BTN_0 + index
    ensures code == (BTN_0 as int + index) % 0x1_0000
  {
    (BTN_0 as int + index % 0x1_0000) % 0x1_0000
  }

  /** `buttonEvents`: one key event, 1 for pressed and 0 for released. */
  function ButtonEvents(down: bool, index: i32): (events: seq<Event>)
    ensures |events| == 1 && events[0].eventType == EV_KEY && events[0].code == ButtonCode(index)
    ensures events[0].value == 1 <==> down
  {
    [Event(EV_KEY, ButtonCode(index), if down then 1 else 0)]
  }

  /** `scrollEvents`: one relative event on each scroll axis, RX then RY. */
  function ScrollEvents(dx: i32, dy: i32): (events: seq<Event>)
    ensures |events| == 2 && forall e <- events :: e.eventType == EV_REL
  {
    [Event(EV_REL, REL_RX, dx), Event(EV_REL, REL_RY, dy)]
  }

  /**
   * A gyroscope sample is three relative events on X, Y and Z in that order;
   * the receiver moves by exactly (x, y, z) and by nothing on any other axis.
   */
  lemma GyroscopeMoves(x: i32, y: i32, z: i32, code: u16)
    ensures var events := GyroscopeEvents(x, y, z);
      && |events| == 3
      && (forall e <- events :: e.eventType == EV_REL)
      && [events[0].code, events[1].code, events[2].code] == [REL_X, REL_Y, REL_Z]
      && RelDelta(events, REL_X) == x && RelDelta(events, REL_Y) == y && RelDelta(events, REL_Z) == z
      && (code !in {REL_X, REL_Y, REL_Z} ==> RelDelta(events, code) == 0)
  {
    var events := GyroscopeEvents(x, y, z);
    forall c: u16
      ensures RelDelta(events, c) == (if c == REL_X then x else 0) + (if c == REL_Y then y else 0) + (if c == REL_Z then z else 0)
    {
      assert events == [events[0]] + [events[1]] + [events[2]];
      RelDeltaAppend([events[0]] + [events[1]], [events[2]], c);
      RelDeltaAppend([events[0]], [events[1]], c);
      RelDeltaSingle(events[0], c);
      RelDeltaSingle(events[1], c);
      RelDeltaSingle(events[2], c);
    }
  }

  /**
   * A button transition is one key event; afterwards the receiver holds key
   * `BTN_0 + index` (truncated to 16 bits) down exactly when `down`, and no
   * other key changed.
   */
  lemma ButtonPresses(down: bool, index: i32, keys: map<u16, i32>)
    ensures var events := ButtonEvents(down, index);
      && |events| == 1 && events[0].eventType == EV_KEY
      && KeyState(keys, events) == keys[ButtonCode(index) := if down then 1 else 0]
  {
  }

  /**
   * A scroll sample is two relative events, RX then RY; the receiver scrolls
   * by exactly (dx, dy) and the pointer does not move.
   */
  lemma ScrollMoves(dx: i32, dy: i32, code: u16)
    ensures var events := ScrollEvents(dx, dy);
      && |events| == 2
      && events[0].eventType == EV_REL && events[1].eventType == EV_REL
      && events[0].code == REL_RX && events[1].code == REL_RY
      && RelDelta(events, REL_RX) == dx && RelDelta(events, REL_RY) == dy
      && (code !in {REL_RX, REL_RY} ==> RelDelta(events, code) == 0)
  {
    var events := ScrollEvents(dx, dy);
    forall c: u16
      ensures RelDelta(events, c) == (if c == REL_RX then dx else 0) + (if c == REL_RY then dy else 0)
    {
      assert events == [events[0]] + [events[1]];
      RelDeltaAppend([events[0]], [events[1]], c);
      RelDeltaSingle(events[0], c);
      RelDeltaSingle(events[1], c);
    }
  }
}

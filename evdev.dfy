/**
 * How the receiving side reads the event stream, fitted to the client's own
 * numbering of the event types (in which EV_ABS is 0, the number of EV_SYN):
 * relative-axis events are deltas that add up, key events set a key's state,
 * and absolute-axis events follow the type-B multitouch slot protocol (a slot
 * event selects the slot that the later events of the frame update). The
 * event `{0, 0, 0}` is read as the SYN report that ends a frame, not as
 * absolute axis 0 set to 0. This is the reference against which the
 * generators and the slot tracker are stated.
 */
module Evdev {
  import opened Events

  /** The total movement the relative-axis events report on axis `code`. */
  function RelDelta(events: seq<Event>, code: u16): int
  {
    if events == [] then 0
    else (if events[0].eventType == EV_REL && events[0].code == code then events[0].value else 0)
         + RelDelta(events[1..], code)
  }

  /** The state of every key after the key events of `events`. */
  function KeyState(keys: map<u16, i32>, events: seq<Event>): map<u16, i32>
    decreases events
  {
    if events == [] then keys
    else
      var e := events[0];
      KeyState(if e.eventType == EV_KEY then keys[e.code := e.value] else keys, events[1..])
  }

  /**
   * The receiving side of the type-B protocol: the selected slot, the
   * tracking id of each slot (-1 for no contact) and each slot's axes.
   */
  datatype MtState = MtState(slot: int, trackingId: map<int, int>, axes: map<(int, u16), int>)

  /**
   * One event applied to the multitouch state: only absolute-axis events
   * change it, and the SYN report, which shares their type number, does not.
   */
  function ApplyMt(s: MtState, e: Event): MtState
  {
    if e.eventType != EV_ABS || e == SynReport then s
    else if e.code == ABS_MT_SLOT then s.(slot := e.value)
    else if e.code == ABS_MT_TRACKING_ID then s.(trackingId := s.trackingId[s.slot := e.value])
    else s.(axes := s.axes[(s.slot, e.code) := e.value])
  }

  /** The multitouch state after the events, in order. */
  function ReplayMt(s: MtState, events: seq<Event>): MtState
    decreases events
  {
    if events == [] then s else ReplayMt(ApplyMt(s, events[0]), events[1..])
  }

  /** Replaying a list that starts with `e` applies `e` first. */
  lemma ReplayMtCons(s: MtState, e: Event, rest: seq<Event>)
    ensures ReplayMt(s, [e] + rest) == ReplayMt(ApplyMt(s, e), rest)
  {
    assert ([e] + rest)[0] == e;
    assert ([e] + rest)[1..] == rest;
  }

  /** Replaying two event lists one after the other is replaying their concatenation. */
  lemma {:induction false} ReplayMtAppend(s: MtState, a: seq<Event>, b: seq<Event>)
    ensures ReplayMt(s, a + b) == ReplayMt(ReplayMt(s, a), b)
    decreases a
  {
    if a == [] {
      assert a + b == b;
    } else {
      assert (a + b)[0] == a[0];
      assert (a + b)[1..] == a[1..] + b;
      ReplayMtAppend(ApplyMt(s, a[0]), a[1..], b);
    }
  }

  /** The movement one event reports on axis `code`. */
  lemma RelDeltaSingle(e: Event, code: u16)
    ensures RelDelta([e], code) == if e.eventType == EV_REL && e.code == code then e.value else 0
  {
    assert [e][1..] == [];
  }

  /** The SYN report that ends a frame leaves the multitouch state as the frame left it. */
  lemma SynReportEndsFrame(s: MtState, events: seq<Event>)
    ensures ReplayMt(s, events + [SynReport]) == ReplayMt(s, events)
  {
    ReplayMtAppend(s, events, [SynReport]);
    ReplayMtCons(ReplayMt(s, events), SynReport, []);
    assert [SynReport] + [] == [SynReport];
  }

  /** Relative deltas add up over concatenation. */
  lemma {:induction false} RelDeltaAppend(a: seq<Event>, b: seq<Event>, code: u16)
    ensures RelDelta(a + b, code) == RelDelta(a, code) + RelDelta(b, code)
  {
    if a == [] {
      assert a + b == b;
    } else {
      assert (a + b)[0] == a[0];
      assert (a + b)[1..] == a[1..] + b;
      RelDeltaAppend(a[1..], b, code);
    }
  }
}

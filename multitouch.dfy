/**
 * The type-B multitouch slot tracker (`MultitouchEventGenerator` in
 * Connection.kt). Every contact the touch screen reports is given a small
 * reusable slot number; each touch sample becomes a slot event that selects
 * the contact's slot, followed by that slot's data.
 *
 * The functions on `Table` values below specify the tracker; the class
 * `MultitouchEventGenerator` implements it in place and is proved against
 * them. The last part of the module models the scans exactly as the client
 * writes them, with a range that includes the table's size.
 */
module Multitouch {
  import opened Wrappers
  import opened Events
  import opened Evdev

  /**
   * `MotionEvent.getActionMasked()`. `Move` stands for every action the
   * tracker has no branch for: it gets a slot and geometry, nothing else.
   */
  datatype Action = Down | PointerDown | Move | PointerUp | Up | Cancel

  /**
   * One touch sample: the action, the pointer id of the contact at the
   * action index, and that contact's geometry, already rounded.
   */
  datatype TouchSample = TouchSample(
    action: Action, pointerId: i32,
    touchMajor: i32, touchMinor: i32, orientation: i32, x: i32, y: i32, pressure: i32)

  /** The slot table: entry `i` is the pointer id registered in slot `i`, or `None`. */
  type Table = seq<Option<i32>>

  /** `Int.MAX_VALUE`: no JVM list holds more entries. */
  const MaxSlots := 0x7fff_ffff

  /** `ABS_MT_SLOT = slot`. */
  function SlotSelect(slot: i32): Event
  {
    Event(EV_ABS, ABS_MT_SLOT, slot)
  }

  /** `ABS_MT_TRACKING_ID = id`; -1 ends the contact in the selected slot. */
  function TrackingId(id: i32): Event
  {
    Event(EV_ABS, ABS_MT_TRACKING_ID, id)
  }

  /** Size, orientation, position and pressure, in this order. */
  function Geometry(s: TouchSample): seq<Event>
  {
    [Event(EV_ABS, ABS_MT_TOUCH_MAJOR, s.touchMajor),
     Event(EV_ABS, ABS_MT_TOUCH_MINOR, s.touchMinor),
     Event(EV_ABS, ABS_MT_ORIENTATION, s.orientation),
     Event(EV_ABS, ABS_MT_POSITION_X, s.x),
     Event(EV_ABS, ABS_MT_POSITION_Y, s.y),
     Event(EV_ABS, ABS_MT_PRESSURE, s.pressure)]
  }

  // The specification of the tracker, on table values

  /**
   * The table after `ensureSize(n)`: at least `n` entries, the old entries
   * unchanged, every added entry empty.
   */
  function Padded(t: Table, n: int): (r: Table)
    ensures |r| == if |t| < n then n else |t|
    ensures forall i :: 0 <= i < |t| ==> r[i] == t[i]
    ensures forall i :: |t| <= i < |r| ==> r[i] == None
  {
    if |t| < n then t + seq(n - |t|, _ => None) else t
  }

  /** The first slot at or after `from` registered to `id`, if any. */
  function FindId(t: Table, id: i32, from: nat): (r: Option<nat>)
    ensures r.Some? ==> from <= r.value < |t| && t[r.value] == Some(id)
    ensures r.Some? ==> forall j :: from <= j < r.value ==> t[j] != Some(id)
    ensures r.None? ==> forall j :: from <= j < |t| ==> t[j] != Some(id)
    decreases |t| - from
  {
    if from >= |t| then None
    else if t[from] == Some(id) then Some(from)
    else FindId(t, id, from + 1)
  }

  /** The first empty slot at or after `from`, if any. */
  function FindFree(t: Table, from: nat): (r: Option<nat>)
    ensures r.Some? ==> from <= r.value < |t| && t[r.value] == None
    ensures r.Some? ==> forall j :: from <= j < r.value ==> t[j].Some?
    ensures r.None? ==> forall j :: from <= j < |t| ==> t[j].Some?
    decreases |t| - from
  {
    if from >= |t| then None
    else if t[from] == None then Some(from)
    else FindFree(t, from + 1)
  }

  /**
   * `newSlot(id, minId)`: register `id` in the first empty slot at or after
   * `minId` of the padded table, or in a new slot at its end when there is
   * none. Returns the new table and the slot.
   */
  function Allocate(t: Table, id: i32, minId: nat): (r: (Table, nat))
    ensures var p := Padded(t, minId + 1);
      && minId <= r.1 <= |p| <= |r.0|
      && r.1 < |r.0|
      && r.0[r.1] == Some(id)
      && (forall j :: minId <= j < r.1 ==> p[j].Some?)
      && (forall j :: 0 <= j < |p| && j != r.1 ==> r.0[j] == p[j])
      && (r.1 < |p| ==> p[r.1] == None && |r.0| == |p|)
      && (r.1 == |p| ==> |r.0| == |p| + 1)
  {
    var p := Padded(t, minId + 1);
    match FindFree(p, minId)
    case Some(i) => (p[i := Some(id)], i)
    case None => (p + [Some(id)], |p|)
  }

  /**
   * `getSlot(id, minId)`: the first slot at or after `minId` that holds
   * `id`, in the padded table; otherwise a slot allocated for `id`. No
   * registered id is ever overwritten.
   */
  function Resolve(t: Table, id: i32, minId: nat): (r: (Table, nat))
    ensures minId <= r.1 < |r.0| && r.0[r.1] == Some(id)
    ensures |Padded(t, minId + 1)| <= |r.0| <= |Padded(t, minId + 1)| + 1
    ensures forall j :: 0 <= j < |t| && t[j].Some? ==> r.0[j] == t[j]
    ensures var p := Padded(t, minId + 1);
      (exists j :: minId <= j < |p| && p[j] == Some(id)) ==>
        r.0 == p && forall j :: minId <= j < r.1 ==> p[j] != Some(id)
    ensures var p := Padded(t, minId + 1);
      (forall j :: minId <= j < |p| ==> p[j] != Some(id)) ==> r == Allocate(t, id, minId)
  {
    var p := Padded(t, minId + 1);
    match FindId(p, id, minId)
    case Some(i) => (p, i)
    case None => Allocate(t, id, minId)
  }

  /** `clearSlot(id)`: no slot holds `id` afterwards and nothing else changes. */
  function ClearId(t: Table, id: i32): (r: Table)
    ensures |r| == |t|
    ensures forall i :: 0 <= i < |t| ==> r[i] != Some(id)
    ensures forall i :: 0 <= i < |t| && t[i] != Some(id) ==> r[i] == t[i]
  {
    seq(|t|, i requires 0 <= i < |t| => if t[i] == Some(id) then None else t[i])
  }

  /**
   * The events a cancellation emits for the first `n` slots: for every
   * registered slot, in ascending order, the slot event and then
   * `ABS_MT_TRACKING_ID = -1`.
   */
  function Releases(t: Table, n: nat): (r: seq<Event>)
    requires n <= |t| <= MaxSlots
    ensures |r| % 2 == 0
    ensures forall j :: 0 <= j < |r| && j % 2 == 1 ==> r[j] == TrackingId(-1)
    ensures forall j :: 0 <= j < |r| && j % 2 == 0 ==>
      r[j].eventType == EV_ABS && r[j].code == ABS_MT_SLOT && 0 <= r[j].value < n && t[r[j].value].Some?
    ensures forall j, k :: 0 <= j < k < |r| && j % 2 == 0 && k % 2 == 0 ==> r[j].value < r[k].value
  {
    if n == 0 then []
    else
      var prev := Releases(t, n - 1);
      if t[n - 1].Some? then prev + [SlotSelect(n - 1), TrackingId(-1)] else prev
  }

  /** Every registered slot among the first `n` gets its release pair. */
  lemma {:induction false} ReleasesComplete(t: Table, n: nat, i: nat)
    requires n <= |t| <= MaxSlots
    requires i < n && t[i].Some?
    ensures exists j :: 0 <= j < |Releases(t, n)| && j % 2 == 0 && Releases(t, n)[j] == SlotSelect(i)
  {
    var prev := Releases(t, n - 1);
    if i == n - 1 {
      assert Releases(t, n)[|prev|] == SlotSelect(i);
    } else {
      ReleasesComplete(t, n - 1, i);
      var j :| 0 <= j < |prev| && j % 2 == 0 && prev[j] == SlotSelect(i);
      assert Releases(t, n)[j] == prev[j];
    }
  }

  /** The minimum slot for a sample: a secondary pointer never takes slot 0. */
  function MinSlot(action: Action): nat
  {
    if action == PointerDown then 1 else 0
  }

  /**
   * `multitouchEvents`: the new table and the events of one touch sample:
   * the slot event, the tracking id for a new contact, the six geometry
   * events, then -1 for an ended contact; a cancellation instead ends every
   * registered contact and empties the table.
   */
  function TouchFrame(t: Table, s: TouchSample): (r: (Table, seq<Event>))
    requires |t| < MaxSlots
    ensures |r.1| >= 7 && r.1[0].eventType == EV_ABS && r.1[0].code == ABS_MT_SLOT
    ensures r.1[0].value >= MinSlot(s.action)
    ensures forall e <- r.1 :: e.eventType == EV_ABS
    ensures s.action == Cancel ==> r.0 == []
    ensures s.action != Cancel ==>
      && r.1[0].value < |r.0| && r.0[r.1[0].value] == Some(s.pointerId)
      && |r.0| >= |t|
      && (forall j :: 0 <= j < |t| && t[j].Some? ==> r.0[j] == t[j])
    ensures r.1[0] == SlotSelect(Resolve(t, s.pointerId, MinSlot(s.action)).1)
    ensures s.action != Cancel ==> r.0 == Resolve(t, s.pointerId, MinSlot(s.action)).0
  {
    var (t1, slot) := Resolve(t, s.pointerId, MinSlot(s.action));
    assert |t1| <= MaxSlots;
    var head := [SlotSelect(slot)] + Opening(s) + Geometry(s);
    var events := head + Closing(t1, s);
    assert events[0] == SlotSelect(slot);
    (if s.action == Cancel then [] else t1, events)
  }

  // What the receiving side makes of the tracker's events

  /**
   * Replaying the releases ends every registered slot among the first `n`
   * and leaves every other slot's tracking id, and every axis, as it was.
   */
  lemma {:induction false} ReleasesReplay(t: Table, n: nat, s: MtState)
    requires n <= |t| <= MaxSlots
    ensures var s' := ReplayMt(s, Releases(t, n));
      && s'.axes == s.axes
      && (forall i :: 0 <= i < n && t[i].Some? ==> i in s'.trackingId && s'.trackingId[i] == -1)
      && (forall i :: !(0 <= i < n && t[i].Some?) ==>
            (i in s'.trackingId <==> i in s.trackingId) &&
            (i in s.trackingId ==> s'.trackingId[i] == s.trackingId[i]))
  {
    if n > 0 {
      ReleasesReplay(t, n - 1, s);
      if t[n - 1].Some? {
        var prev := Releases(t, n - 1);
        ReplayMtAppend(s, prev, [SlotSelect(n - 1), TrackingId(-1)]);
        ReleasePairReplay(ReplayMt(s, prev), n - 1);
      }
    }
  }

  /** One release pair selects its slot and ends the contact there. */
  lemma ReleasePairReplay(s: MtState, i: i32)
    ensures ReplayMt(s, [SlotSelect(i), TrackingId(-1)]) == s.(slot := i, trackingId := s.trackingId[i := -1])
  {
    var pair := [SlotSelect(i), TrackingId(-1)];
    ReplayMtCons(s, pair[0], [pair[1]]);
    ReplayMtCons(ApplyMt(s, pair[0]), pair[1], []);
    assert [pair[0]] + [pair[1]] == pair;
    assert [pair[1]] + [] == [pair[1]];
  }

  /** The geometry events write the six axes of the selected slot and nothing else. */
  lemma GeometryReplay(s: MtState, sample: TouchSample)
    ensures var s' := ReplayMt(s, Geometry(sample));
      && s'.slot == s.slot && s'.trackingId == s.trackingId
      && s'.axes == s.axes[(s.slot, ABS_MT_TOUCH_MAJOR) := sample.touchMajor]
                          [(s.slot, ABS_MT_TOUCH_MINOR) := sample.touchMinor]
                          [(s.slot, ABS_MT_ORIENTATION) := sample.orientation]
                          [(s.slot, ABS_MT_POSITION_X) := sample.x]
                          [(s.slot, ABS_MT_POSITION_Y) := sample.y]
                          [(s.slot, ABS_MT_PRESSURE) := sample.pressure]
  {
    var g := Geometry(sample);
    var s0 := s;
    var s1 := ApplyMt(s0, g[0]);
    var s2 := ApplyMt(s1, g[1]);
    var s3 := ApplyMt(s2, g[2]);
    var s4 := ApplyMt(s3, g[3]);
    var s5 := ApplyMt(s4, g[4]);
    var s6 := ApplyMt(s5, g[5]);
    ReplayMtCons(s0, g[0], g[1..]);
    ReplayMtCons(s1, g[1], g[2..]);
    ReplayMtCons(s2, g[2], g[3..]);
    ReplayMtCons(s3, g[3], g[4..]);
    ReplayMtCons(s4, g[4], g[5..]);
    ReplayMtCons(s5, g[5], []);
    assert g == [g[0]] + g[1..];
    assert g[1..] == [g[1]] + g[2..];
    assert g[2..] == [g[2]] + g[3..];
    assert g[3..] == [g[3]] + g[4..];
    assert g[4..] == [g[4]] + g[5..];
    assert g[5..] == [g[5]] + [];
  }

  /** The tracking event that opens a contact, for the actions that open one. */
  function Opening(s: TouchSample): seq<Event>
  {
    if s.action == Down || s.action == PointerDown then [TrackingId(s.pointerId)] else []
  }

  /**
   * The receiving side after the slot event, the opening event and the
   * geometry: the slot is selected, its axes hold the sample's geometry,
   * and its tracking id is the pointer id if the action opened a contact.
   */
  lemma HeadReplay(s: MtState, slot: i32, sample: TouchSample)
    ensures var s' := ReplayMt(s, [SlotSelect(slot)] + Opening(sample) + Geometry(sample));
      && s'.slot == slot
      && s'.trackingId == (if Opening(sample) == [] then s.trackingId else s.trackingId[slot := sample.pointerId])
      && s'.axes == s.axes[(slot, ABS_MT_TOUCH_MAJOR) := sample.touchMajor]
                          [(slot, ABS_MT_TOUCH_MINOR) := sample.touchMinor]
                          [(slot, ABS_MT_ORIENTATION) := sample.orientation]
                          [(slot, ABS_MT_POSITION_X) := sample.x]
                          [(slot, ABS_MT_POSITION_Y) := sample.y]
                          [(slot, ABS_MT_PRESSURE) := sample.pressure]
  {
    var s1 := ApplyMt(s, SlotSelect(slot));
    ReplayMtAppend(s, [SlotSelect(slot)] + Opening(sample), Geometry(sample));
    ReplayMtAppend(s, [SlotSelect(slot)], Opening(sample));
    ReplayMtCons(s, SlotSelect(slot), []);
    assert [SlotSelect(slot)] + [] == [SlotSelect(slot)];
    if Opening(sample) != [] {
      ReplayMtCons(s1, Opening(sample)[0], []);
      assert [Opening(sample)[0]] + [] == Opening(sample);
    }
    GeometryReplay(ReplayMt(s1, Opening(sample)), sample);
  }

  /**
   * Proof helper that only unfolds the definition of `TouchFrame` into its
   * head and closing events; `TouchFrameOrder` states the order itself.
   */
  lemma TouchFrameSplit(t: Table, sample: TouchSample)
    requires |t| < MaxSlots
    ensures var (t1, slot) := Resolve(t, sample.pointerId, MinSlot(sample.action));
      && TouchFrame(t, sample).1[0].value == slot
      && TouchFrame(t, sample).1 == [SlotSelect(slot)] + Opening(sample) + Geometry(sample) + Closing(t1, sample)
  {
  }

  /** The events that close a frame. */
  function Closing(t1: Table, s: TouchSample): (r: seq<Event>)
    requires |t1| <= MaxSlots
    ensures forall e <- r :: e.eventType == EV_ABS
  {
    if s.action == PointerUp || s.action == Up then [TrackingId(-1)]
    else if s.action == Cancel then Releases(t1, |t1|)
    else []
  }

  /**
   * The order of a frame's events, position by position: the slot event;
   * the new tracking id exactly for DOWN and POINTER_DOWN; the six geometry
   * events; then nothing more for DOWN, POINTER_DOWN and MOVE, one -1 for UP
   * and POINTER_UP, and the release pairs of the table for CANCEL.
   */
  lemma TouchFrameOrder(t: Table, s: TouchSample)
    requires |t| < MaxSlots
    ensures var r := Resolve(t, s.pointerId, MinSlot(s.action));
      var events := TouchFrame(t, s).1;
      var opens := s.action == Down || s.action == PointerDown;
      var g := if opens then 2 else 1;
      && |events| >= g + 6
      && events[0] == SlotSelect(r.1)
      && (events[1] == TrackingId(s.pointerId) <==> opens)
      && events[g] == Event(EV_ABS, ABS_MT_TOUCH_MAJOR, s.touchMajor)
      && events[g + 1] == Event(EV_ABS, ABS_MT_TOUCH_MINOR, s.touchMinor)
      && events[g + 2] == Event(EV_ABS, ABS_MT_ORIENTATION, s.orientation)
      && events[g + 3] == Event(EV_ABS, ABS_MT_POSITION_X, s.x)
      && events[g + 4] == Event(EV_ABS, ABS_MT_POSITION_Y, s.y)
      && events[g + 5] == Event(EV_ABS, ABS_MT_PRESSURE, s.pressure)
      && (opens || s.action == Move ==> |events| == g + 6)
      && (s.action == Up || s.action == PointerUp ==> events[g + 6..] == [TrackingId(-1)])
      && (s.action == Cancel ==> events[g + 6..] == Releases(r.0, |r.0|))
  {
    var r := Resolve(t, s.pointerId, MinSlot(s.action));
    TouchFrameSplit(t, s);
    var head := [SlotSelect(r.1)] + Opening(s) + Geometry(s);
    var events := TouchFrame(t, s).1;
    var g := |Opening(s)| + 1;
    assert events == head + Closing(r.0, s);
    assert events[..g + 6] == head;
    assert events[g + 6..] == Closing(r.0, s);
    assert head[g..] == Geometry(s);
  }

  /**
   * What one frame does to the axes on the receiving side: the contact's
   * slot is selected (unless a cancellation moved on to release others)
   * and carries the sample's geometry.
   */
  lemma TouchFrameGeometry(t: Table, sample: TouchSample, s: MtState)
    requires |t| < MaxSlots
    ensures var events := TouchFrame(t, sample).1;
      var slot := events[0].value;
      var s' := ReplayMt(s, events);
      && (sample.action != Cancel ==> s'.slot == slot)
      && (slot, ABS_MT_TOUCH_MAJOR) in s'.axes && s'.axes[(slot, ABS_MT_TOUCH_MAJOR)] == sample.touchMajor
      && (slot, ABS_MT_TOUCH_MINOR) in s'.axes && s'.axes[(slot, ABS_MT_TOUCH_MINOR)] == sample.touchMinor
      && (slot, ABS_MT_ORIENTATION) in s'.axes && s'.axes[(slot, ABS_MT_ORIENTATION)] == sample.orientation
      && (slot, ABS_MT_POSITION_X) in s'.axes && s'.axes[(slot, ABS_MT_POSITION_X)] == sample.x
      && (slot, ABS_MT_POSITION_Y) in s'.axes && s'.axes[(slot, ABS_MT_POSITION_Y)] == sample.y
      && (slot, ABS_MT_PRESSURE) in s'.axes && s'.axes[(slot, ABS_MT_PRESSURE)] == sample.pressure
  {
    var (t1, slot) := Resolve(t, sample.pointerId, MinSlot(sample.action));
    TouchFrameSplit(t, sample);
    var head := [SlotSelect(slot)] + Opening(sample) + Geometry(sample);
    HeadReplay(s, slot, sample);
    ReplayMtAppend(s, head, Closing(t1, sample));
    ClosingKeepsAxes(t1, sample, ReplayMt(s, head));
  }

  /** The closing events write no axis, and only a cancellation moves the selected slot. */
  lemma ClosingKeepsAxes(t1: Table, sample: TouchSample, s: MtState)
    requires |t1| <= MaxSlots
    ensures var s' := ReplayMt(s, Closing(t1, sample));
      && s'.axes == s.axes
      && (sample.action != Cancel ==> s'.slot == s.slot)
  {
    var closing := Closing(t1, sample);
    if sample.action == Cancel {
      ReleasesReplay(t1, |t1|, s);
    } else if closing != [] {
      ReplayMtCons(s, closing[0], []);
      assert [closing[0]] + [] == closing;
    }
  }

  /**
   * What one frame does to the contacts on the receiving side: a new
   * contact's slot carries its pointer id; an ended contact's slot carries
   * -1; a move changes no tracking id; a cancellation ends every slot
   * registered once the contact's slot was resolved, its own included.
   */
  lemma TouchFrameTracking(t: Table, sample: TouchSample, s: MtState)
    requires |t| < MaxSlots
    ensures var events := TouchFrame(t, sample).1;
      var slot := events[0].value;
      var s' := ReplayMt(s, events);
      && (sample.action == Down || sample.action == PointerDown ==>
            slot in s'.trackingId && s'.trackingId[slot] == sample.pointerId)
      && (sample.action == PointerUp || sample.action == Up || sample.action == Cancel ==>
            slot in s'.trackingId && s'.trackingId[slot] == -1)
      && (sample.action == Move ==> s'.trackingId == s.trackingId)
      && (sample.action == Cancel ==>
            var t1 := Resolve(t, sample.pointerId, 0).0;
            forall i :: 0 <= i < |t1| && t1[i].Some? ==> i in s'.trackingId && s'.trackingId[i] == -1)
  {
    var (t1, slot) := Resolve(t, sample.pointerId, MinSlot(sample.action));
    TouchFrameSplit(t, sample);
    var head := [SlotSelect(slot)] + Opening(sample) + Geometry(sample);
    var closing := Closing(t1, sample);
    HeadReplay(s, slot, sample);
    var s3 := ReplayMt(s, head);
    ReplayMtAppend(s, head, closing);
    if sample.action == Cancel {
      ReleasesReplay(t1, |t1|, s3);
    } else if closing != [] {
      ReplayMtCons(s3, closing[0], []);
      assert [closing[0]] + [] == closing;
    }
  }

  // The tracker, updating its table in place

  /** `MultitouchEventGenerator`: one per touch surface. */
  class MultitouchEventGenerator {
    /** Entry `i` is the pointer id registered in slot `i`, or `None` once cleared. */
    var slots: Table

    constructor ()
      ensures slots == []
    {
      slots := [];
    }

    /** `ensureSize`: append empty slots until there are `size` of them. */
    method EnsureSize(size: int)
      modifies this
      ensures slots == Padded(old(slots), size)
    {
      while |slots| < size
        invariant |old(slots)| <= |slots|
        invariant |old(slots)| < size ==> |slots| <= size
        invariant size <= |old(slots)| ==> slots == old(slots)
        invariant slots[..|old(slots)|] == old(slots)
        invariant forall i :: |old(slots)| <= i < |slots| ==> slots[i] == None
        decreases size - |slots|
      {
        slots := slots + [None];
      }
      var p := Padded(old(slots), size);
      assert |slots| == |p|;
      forall i | 0 <= i < |slots|
        ensures slots[i] == p[i]
      {
        if i < |old(slots)| {
          assert slots[i] == slots[..|old(slots)|][i];
        }
      }
    }

    /** `newSlot`: register `id` in the first empty slot at or after `minId`, or in a new one. */
    method NewSlot(id: i32, minId: nat) returns (slot: nat)
      modifies this
      ensures (slots, slot) == Allocate(old(slots), id, minId)
    {
      EnsureSize(minId + 1);
      for i := minId to |slots|
        invariant slots == Padded(old(slots), minId + 1)
        invariant forall j :: minId <= j < i ==> slots[j].Some?
      {
        if slots[i] == None {
          slots := slots[i := Some(id)];
          return i;
        }
      }
      slots := slots + [Some(id)];
      slot := |slots| - 1;
    }

    /** `getSlot`: the slot at or after `minId` that holds `id`, or a new one for it. */
    method GetSlot(id: i32, minId: nat) returns (slot: nat)
      modifies this
      ensures (slots, slot) == Resolve(old(slots), id, minId)
    {
      EnsureSize(minId + 1);
      for i := minId to |slots|
        invariant slots == Padded(old(slots), minId + 1)
        invariant forall j :: minId <= j < i ==> slots[j] != Some(id)
      {
        if slots[i] == Some(id) {
          return i;
        }
      }
      slot := NewSlot(id, minId);
    }

    /** `clearSlot`: empty every slot that holds `id`. */
    method ClearSlot(id: i32)
      modifies this
      ensures slots == ClearId(old(slots), id)
    {
      for i := 0 to |slots|
        invariant |slots| == |old(slots)|
        invariant forall j :: 0 <= j < i ==> slots[j] == ClearId(old(slots), id)[j]
        invariant forall j :: i <= j < |slots| ==> slots[j] == old(slots)[j]
      {
        if slots[i] == Some(id) {
          slots := slots[i := None];
        }
      }
    }

    /**
     * `multitouchEvents`: resolve the contact's slot, then produce the
     * frame's events in order; a cancellation ends every registered
     * contact and empties the table.
     */
    method MultitouchEvents(sample: TouchSample) returns (events: seq<Event>)
      requires |slots| < MaxSlots
      modifies this
      ensures (slots, events) == TouchFrame(old(slots), sample)
    {
      var slot := GetSlot(sample.pointerId, if sample.action == PointerDown then 1 else 0);
      ghost var t1 := slots;
      assert (t1, slot) == Resolve(old(slots), sample.pointerId, MinSlot(sample.action));
      events := [SlotSelect(slot)];
      if sample.action == Down || sample.action == PointerDown {
        events := events + [TrackingId(sample.pointerId)];
      }
      events := events + Geometry(sample);
      ghost var head := events;
      assert head == [SlotSelect(slot)] + Opening(sample) + Geometry(sample);
      if sample.action == PointerUp || sample.action == Up {
        events := events + [TrackingId(-1)];
      } else if sample.action == Cancel {
        var releases := CancelEvents();
        events := events + releases;
        slots := [];
      }
      assert events == head + Closing(t1, sample);
      TouchFrameSplit(old(slots), sample);
    }

    /**
     * The loop of the cancellation branch: for every registered slot, in
     * ascending order, select it and end its contact.
     */
    method CancelEvents() returns (events: seq<Event>)
      requires |slots| <= MaxSlots
      ensures events == Releases(slots, |slots|)
    {
      events := [];
      for i := 0 to |slots|
        invariant events == Releases(slots, i)
      {
        if slots[i] != None {
          events := events + [SlotSelect(i), TrackingId(-1)];
        }
      }
    }
  }

  // The scans as the client writes them

  /**
   * How a scan `for (i in from..t.size)` ends: at a matching index, by
   * reading index `t.size`, which is out of range and throws, or, for an
   * empty range, by falling through.
   */
  datatype Scan = Hit(index: nat) | Overrun(index: nat) | Exhausted

  /** The scan of `getSlot`, with the range that includes the table's size. */
  function InclusiveFindId(t: Table, id: i32, from: nat): (r: Scan)
    ensures r.Hit? ==> from <= r.index < |t| && t[r.index] == Some(id)
    ensures r.Overrun? ==> r.index == |t|
    decreases |t| + 1 - from
  {
    if from > |t| then Exhausted
    else if from == |t| then Overrun(from)
    else if t[from] == Some(id) then Hit(from)
    else InclusiveFindId(t, id, from + 1)
  }

  /** The scan of `newSlot`, with the range that includes the table's size. */
  function InclusiveFindFree(t: Table, from: nat): (r: Scan)
    ensures r.Hit? ==> from <= r.index < |t| && t[r.index] == None
    ensures r.Overrun? ==> r.index == |t|
    decreases |t| + 1 - from
  {
    if from > |t| then Exhausted
    else if from == |t| then Overrun(from)
    else if t[from] == None then Hit(from)
    else InclusiveFindFree(t, from + 1)
  }

  /**
   * A scan with the inclusive range finds what the bounds-safe scan finds,
   * and where that finds nothing it reads the index one past the end.
   */
  lemma {:induction false} InclusiveFindIdOverruns(t: Table, id: i32, from: nat)
    requires from <= |t|
    ensures InclusiveFindId(t, id, from) == if FindId(t, id, from).Some? then Hit(FindId(t, id, from).value) else Overrun(|t|)
    decreases |t| - from
  {
    if from < |t| && t[from] != Some(id) {
      InclusiveFindIdOverruns(t, id, from + 1);
    }
  }

  /** The same for the scan for an empty slot. */
  lemma {:induction false} InclusiveFindFreeOverruns(t: Table, from: nat)
    requires from <= |t|
    ensures InclusiveFindFree(t, from) == if FindFree(t, from).Some? then Hit(FindFree(t, from).value) else Overrun(|t|)
    decreases |t| - from
  {
    if from < |t| && t[from] != None {
      InclusiveFindFreeOverruns(t, from + 1);
    }
  }

  /**
   * What a tracker operation does as written: it returns a value with the
   * table in a new state, or throws `IndexOutOfBoundsException` at the
   * given index, leaving the table as it was at that point.
   */
  datatype Run<T> = Returned(table: Table, value: T) | Thrown(table: Table, index: nat)

  /** `newSlot` as written. */
  function AsWrittenNewSlot(t: Table, id: i32, minId: nat): (r: Run<nat>)
    ensures r.Returned? ==> minId <= r.value < |r.table| && r.table[r.value] == Some(id)
    ensures r.Thrown? ==> r.index == |r.table| == |Padded(t, minId + 1)|
  {
    var p := Padded(t, minId + 1);
    match InclusiveFindFree(p, minId)
    case Hit(i) => Returned(p[i := Some(id)], i)
    case Overrun(k) => Thrown(p, k)
    case Exhausted => Returned(p + [Some(id)], |p|)
  }

  /** `getSlot` as written. */
  function AsWrittenGetSlot(t: Table, id: i32, minId: nat): (r: Run<nat>)
    ensures r.Returned? ==> minId <= r.value < |r.table| && r.table[r.value] == Some(id)
    ensures r.Thrown? ==> r.index == |r.table| == |Padded(t, minId + 1)|
  {
    var p := Padded(t, minId + 1);
    match InclusiveFindId(p, id, minId)
    case Hit(i) => Returned(p, i)
    case Overrun(k) => Thrown(p, k)
    case Exhausted => AsWrittenNewSlot(t, id, minId)
  }

  /** `clearSlot` as written: the loop from `i` on, over the range that includes the size. */
  function AsWrittenClearFrom(t: Table, id: i32, i: nat): (r: Run<()>)
    ensures |r.table| == |t|
    ensures i <= |t| ==> r.Thrown? && r.index == |t|
    decreases |t| + 1 - i
  {
    if i > |t| then Returned(t, ())
    else if i == |t| then Thrown(t, i)
    else AsWrittenClearFrom(t[i := if t[i] == Some(id) then None else t[i]], id, i + 1)
  }

  /**
   * The cancellation loop as written, from index `i` on: the pairs it
   * yields before it reads index `t.size`, and that index.
   */
  function AsWrittenCancelFrom(t: Table, i: nat): (r: (seq<Event>, nat))
    requires |t| <= MaxSlots
    ensures |r.0| % 2 == 0
    ensures r.1 == if i <= |t| then |t| else i
    decreases |t| + 1 - i
  {
    if i >= |t| then ([], i)
    else
      var rest := AsWrittenCancelFrom(t, i + 1);
      ((if t[i] != None then [SlotSelect(i), TrackingId(-1)] else []) + rest.0, rest.1)
  }

  /**
   * One touch sample as written: the events the lazy sequence yielded (and
   * the sender sent) before it stopped, the table afterwards, and the index
   * whose read threw, if one did. When it throws, the trailing SYN report
   * is not sent.
   */
  datatype FrameRun = FrameRun(table: Table, emitted: seq<Event>, thrown: Option<nat>)

  /**
   * `getSlot` as written agrees with the bounds-safe `getSlot` when the id
   * is registered at or after `minId`; otherwise it reads the index one
   * past the end of the padded table and throws, and never allocates.
   */
  lemma AsWrittenGetSlotOverruns(t: Table, id: i32, minId: nat)
    ensures var p := Padded(t, minId + 1);
      var r := Resolve(t, id, minId);
      && ((exists j :: minId <= j < |p| && p[j] == Some(id)) ==> AsWrittenGetSlot(t, id, minId) == Returned(r.0, r.1))
      && ((forall j :: minId <= j < |p| ==> p[j] != Some(id)) ==> AsWrittenGetSlot(t, id, minId) == Thrown(p, |p|))
  {
    InclusiveFindIdOverruns(Padded(t, minId + 1), id, minId);
  }

  /** `multitouchEvents` as written. */
  function AsWrittenTouchFrame(t: Table, s: TouchSample): (f: FrameRun)
    requires |t| < MaxSlots
    ensures f.thrown.None? ==> s.action != Cancel && |f.emitted| >= 7
    ensures f.thrown.Some? ==> f.thrown.value == |f.table|
  {
    match AsWrittenGetSlot(t, s.pointerId, MinSlot(s.action))
    case Thrown(p, k) => FrameRun(p, [], Some(k))
    case Returned(t1, slot) =>
      assert slot < |t1| <= MaxSlots by {
        AsWrittenGetSlotOverruns(t, s.pointerId, MinSlot(s.action));
      }
      var head := [SlotSelect(slot)] + Opening(s) + Geometry(s);
      if s.action == Cancel then
        var (pairs, k) := AsWrittenCancelFrom(t1, 0);
        FrameRun(t1, head + pairs, Some(k))
      else FrameRun(t1, head + Closing(t1, s), None)
  }

  /**
   * `newSlot` as written agrees with the bounds-safe `newSlot` when there is
   * an empty slot at or after `minId`; otherwise it throws at the index one
   * past the end, so the table never grows by an append.
   */
  lemma AsWrittenNewSlotNeverAppends(t: Table, id: i32, minId: nat)
    ensures var p := Padded(t, minId + 1);
      var a := Allocate(t, id, minId);
      && ((exists j :: minId <= j < |p| && p[j] == None) ==> AsWrittenNewSlot(t, id, minId) == Returned(a.0, a.1))
      && ((forall j :: minId <= j < |p| ==> p[j].Some?) ==> AsWrittenNewSlot(t, id, minId) == Thrown(p, |p|) && |a.0| == |p| + 1)
      && |AsWrittenNewSlot(t, id, minId).table| == |p|
  {
    InclusiveFindFreeOverruns(Padded(t, minId + 1), minId);
  }

  /** The loop of `clearSlot` as written empties the slots that hold `id`, then throws. */
  lemma {:induction false} AsWrittenClearFromThrows(t: Table, id: i32, i: nat)
    requires i <= |t|
    ensures AsWrittenClearFrom(t, id, i) == Thrown(t[..i] + ClearId(t[i..], id), |t|)
    decreases |t| - i
  {
    if i == |t| {
      assert t[i..] == [] && t[..i] == t;
      assert ClearId([], id) == [];
    } else {
      var u := t[i := if t[i] == Some(id) then None else t[i]];
      AsWrittenClearFromThrows(u, id, i + 1);
      assert u[..i + 1] + ClearId(u[i + 1..], id) == t[..i] + ClearId(t[i..], id);
    }
  }

  /** `clearSlot` as written throws on every table, after clearing it. */
  lemma AsWrittenClearSlotThrows(t: Table, id: i32)
    ensures AsWrittenClearFrom(t, id, 0) == Thrown(ClearId(t, id), |t|)
  {
    AsWrittenClearFromThrows(t, id, 0);
    assert t[..0] + ClearId(t[0..], id) == ClearId(t, id);
  }

  /**
   * The cancellation loop as written yields exactly the pairs of the
   * bounds-safe loop and then reads index `t.size`.
   */
  lemma {:induction false} AsWrittenCancelFromOverruns(t: Table, i: nat)
    requires i <= |t| <= MaxSlots
    ensures Releases(t, i) + AsWrittenCancelFrom(t, i).0 == Releases(t, |t|)
    ensures AsWrittenCancelFrom(t, i).1 == |t|
    decreases |t| - i
  {
    if i < |t| {
      AsWrittenCancelFromOverruns(t, i + 1);
      var pair := if t[i] != None then [SlotSelect(i), TrackingId(-1)] else [];
      assert Releases(t, i + 1) == Releases(t, i) + pair;
      assert AsWrittenCancelFrom(t, i).0 == pair + AsWrittenCancelFrom(t, i + 1).0;
    } else {
      assert AsWrittenCancelFrom(t, i).0 == [];
    }
  }

  /**
   * One sample as written, when its pointer id is not registered at or
   * after the minimum slot: `getSlot` throws before anything is yielded,
   * where the bounds-safe tracker allocates a slot.
   */
  lemma AsWrittenTouchFrameThrowsOnMiss(t: Table, sample: TouchSample)
    requires |t| < MaxSlots
    requires var p := Padded(t, MinSlot(sample.action) + 1);
      forall j :: MinSlot(sample.action) <= j < |p| ==> p[j] != Some(sample.pointerId)
    ensures var p := Padded(t, MinSlot(sample.action) + 1);
      AsWrittenTouchFrame(t, sample) == FrameRun(p, [], Some(|p|))
  {
    AsWrittenGetSlotOverruns(t, sample.pointerId, MinSlot(sample.action));
  }

  /**
   * One sample as written, when its pointer id is registered at or after
   * the minimum slot: the events are those of the bounds-safe tracker; but
   * a cancellation then throws at the end of its loop, so the table is not
   * emptied and no SYN report follows.
   */
  lemma AsWrittenTouchFrameOnHit(t: Table, sample: TouchSample)
    requires |t| < MaxSlots
    requires var p := Padded(t, MinSlot(sample.action) + 1);
      exists j :: MinSlot(sample.action) <= j < |p| && p[j] == Some(sample.pointerId)
    ensures var p := Padded(t, MinSlot(sample.action) + 1);
      var f := TouchFrame(t, sample);
      AsWrittenTouchFrame(t, sample) ==
        if sample.action == Cancel then FrameRun(p, f.1, Some(|p|)) else FrameRun(f.0, f.1, None)
  {
    var minId := MinSlot(sample.action);
    AsWrittenGetSlotOverruns(t, sample.pointerId, minId);
    var r := Resolve(t, sample.pointerId, minId);
    assert AsWrittenGetSlot(t, sample.pointerId, minId) == Returned(r.0, r.1);
    assert r.0 == Padded(t, minId + 1);
    TouchFrameSplit(t, sample);
    if sample.action == Cancel {
      AsWrittenCancelFromOverruns(r.0, 0);
      var pairs := AsWrittenCancelFrom(r.0, 0).0;
      assert Releases(r.0, 0) + pairs == pairs;
      assert AsWrittenCancelFrom(r.0, 0) == (Releases(r.0, |r.0|), |r.0|);
    }
  }

  /**
   * The first touch on a fresh tracker throws as written: its pointer id
   * is in no slot, so `getSlot` reads index 1 of the one-slot table.
   */
  lemma FirstTouchThrows(sample: TouchSample)
    requires sample.action == Down
    ensures AsWrittenTouchFrame([], sample) == FrameRun([None], [], Some(1))
  {
    AsWrittenTouchFrameThrowsOnMiss([], sample);
  }

  /**
   * As written, no touch ever registers: from a table with no registered
   * id, such as the fresh tracker's, every sample throws before yielding
   * anything and leaves a table with no registered id.
   */
  lemma NoTouchRegistersAsWritten(t: Table, sample: TouchSample)
    requires |t| < MaxSlots
    requires forall j :: 0 <= j < |t| ==> t[j] == None
    ensures var f := AsWrittenTouchFrame(t, sample);
      && f.emitted == [] && f.thrown.Some?
      && forall j :: 0 <= j < |f.table| ==> f.table[j] == None
  {
    AsWrittenTouchFrameThrowsOnMiss(t, sample);
  }

  // The tracker on concrete sequences of touches

  /** The first touch on a fresh tracker takes slot 0. */
  lemma FirstTouchTakesSlotZero(sample: TouchSample)
    requires sample.action == Down
    ensures TouchFrame([], sample).0 == [Some(sample.pointerId)]
    ensures TouchFrame([], sample).1[0] == SlotSelect(0)
  {
  }

  /** A second pointer going down while slot 0 is taken gets slot 1, never slot 0. */
  lemma SecondPointerTakesSlotOne(first: i32, sample: TouchSample)
    requires sample.action == PointerDown && sample.pointerId != first
    ensures TouchFrame([Some(first)], sample).0 == [Some(first), Some(sample.pointerId)]
    ensures TouchFrame([Some(first)], sample).1[0] == SlotSelect(1)
  {
  }

  /**
   * Ending a contact does not free its slot: after `up` for pointer 7, a
   * new contact with pointer id 3 gets a new slot and the table grows.
   */
  lemma EndedContactKeepsItsSlot(up: TouchSample, down: TouchSample)
    requires up.action == Up && up.pointerId == 7
    requires down.action == Down && down.pointerId == 3
    ensures TouchFrame([Some(7)], up).0 == [Some(7)]
    ensures TouchFrame([Some(7)], down).0 == [Some(7), Some(3)]
    ensures TouchFrame([Some(7)], down).1[0] == SlotSelect(1)
  {
  }

  /**
   * Cancelling with slots 0 and 1 registered ends slot 0 then slot 1,
   * empties the table, and the next touch starts again at slot 0.
   */
  lemma CancelEndsEverySlot(cancel: TouchSample, next: TouchSample)
    requires cancel.action == Cancel && cancel.pointerId == 5
    requires next.action == Down
    ensures var f := TouchFrame([Some(5), Some(8)], cancel);
      && f.0 == []
      && f.1[7..] == [SlotSelect(0), TrackingId(-1), SlotSelect(1), TrackingId(-1)]
    ensures TouchFrame([], next).1[0] == SlotSelect(0)
  {
    var t: Table := [Some(5), Some(8)];
    assert Resolve(t, 5, 0) == (t, 0);
    assert Releases(t, 2) == [SlotSelect(0), TrackingId(-1), SlotSelect(1), TrackingId(-1)];
    TouchFrameSplit(t, cancel);
  }

  /**
   * A pointer id that comes back as a secondary pointer while its ended
   * contact still holds slot 0 is registered a second time; its later
   * moves are reported on slot 0, not on the slot it went down in.
   */
  lemma ReturningPointerIsRegisteredTwice(down: TouchSample, move: TouchSample)
    requires down.action == PointerDown && down.pointerId == 0
    requires move.action == Move && move.pointerId == 0
    ensures TouchFrame([Some(0), Some(1)], down).0 == [Some(0), Some(1), Some(0)]
    ensures TouchFrame([Some(0), Some(1)], down).1[0] == SlotSelect(2)
    ensures TouchFrame([Some(0), Some(1), Some(0)], move).1[0] == SlotSelect(0)
  {
  }
}

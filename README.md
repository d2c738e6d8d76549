# gyroaim client core, in Dafny

gyroaim turns an Android phone into an input device for a desktop. The client
reads the gyroscope, buttons, scroll gestures and the touch screen. It
translates each sample into Linux input events (`type`, `code`, `value`) and
sends every event as its own 8-byte UDP datagram. Each batch ends with a SYN
report. The receiving side replays the events into a virtual input device.

This project models the client's core and proves what it promises:

- `events.dfy` (module `Events`): the event codes, exactly as the client
  defines them. It also holds the 8-byte little-endian encoding of an event
  and a decoder that is its inverse. Last come the senders. `sendEvent`,
  `sendAll` and `sendAllWithSyn` are methods on a datagram socket whose ghost
  log records every payload it sent.
- `evdev.dfy` (module `Evdev`): how the receiving side reads the stream. It
  is the reference the generators and the slot tracker are stated against.
  The receiver is not part of the client, so this model is an assumption. It
  follows the Linux input conventions, fitted to the client's own numbering of
  the event types:
  - Relative events add up.
  - Key events set a key.
  - Absolute-axis events follow the type-B multitouch protocol: a slot event
    selects the slot that later events update.
  - The client numbers `EV_ABS` 0, the same as `EV_SYN` (in Linux, `EV_ABS`
    is 3). So the SYN report `{0, 0, 0}` could be read as "absolute axis 0
    := 0". The model instead reads it as the end of a frame, which changes
    nothing (`Evdev.SynReportEndsFrame`).
- `generators.dfy` (module `Generators`): the pure generators for gyroscope,
  button and scroll samples.
- `multitouch.dfy` (module `Multitouch`): the type-B multitouch slot tracker
  (`MultitouchEventGenerator`).
  - A class whose `slots` table its methods update in place. Each method is
    proved against a function on table values.
  - A model of the tracker's scans exactly as written, which exposes the
    findings below.
  - Concrete touch scenarios.
- `connection.dfy` (module `Connections`): `Connection` and
  `ReusableConnection`.
- `wrappers.dfy`: `Option` and `Outcome`.

The code differs from its own doc comment on `slots` (Connection.kt:70-72).
That comment says an entry is null once its touch has ended. The model
follows the code:

- Ending a contact does not free its slot. `multitouchEvents` emits
  `ABS_MT_TRACKING_ID = -1` on up, but never calls `clearSlot`, which has no
  caller. The pointer id therefore stays in the table. If contact 7 ends in
  slot 0, a new contact with id 3 gets slot 1 and the table grows
  (`Multitouch.EndedContactKeepsItsSlot`).
- A consequence of the code: a pointer id can come back as a secondary
  pointer while its ended contact still holds slot 0. Its scan starts at
  slot 1, so it is registered a second time. Its later moves resolve to
  slot 0 (`Multitouch.ReturningPointerIsRegisteredTwice`).

The bounds of the tracker's scans are treated differently. As written, every
scan runs one index past the end of the table and throws. That is a bug, not
a behaviour to keep; see "## Findings".
- The tracker and the frame functions use bounds-safe scans. These are
  `Resolve`, `Allocate`, `ClearId`, `TouchFrame`, and the methods proved
  against them.
- A scan that finds nothing falls through to allocation, or to the end of the
  loop. This is what the doc comments of `newSlot`, `getSlot` and `clearSlot`
  describe.
- The scans exactly as written are modelled separately, with lemmas that show
  where they throw.

## Model

Paths are relative to the repository root. `Connection.kt` and `events.kt`
are `app/src/main/kotlin/net/eyanje/gyroaim/Connection.kt` and `.../events.kt`.

| member | source | states |
|---|---|---|
| Events.ToByteArray | app/src/main/kotlin/net/eyanje/gyroaim/events.kt:44-53 | always 8 bytes; bytes 0-1 are the type little-endian, bytes 2-3 the code, bytes 4-7 the value as 32-bit two's complement |
| Events.Signed32 | app/src/main/kotlin/net/eyanje/gyroaim/events.kt:49-52 | the signed value whose two's complement pattern is the given 32-bit number, i.e. equal to it modulo 2^32 |
| Events.FromByteArray | app/src/main/kotlin/net/eyanje/gyroaim/events.kt:44-53 | the receiver's decoder: an event exactly when the payload has 8 bytes |
| Events.DecodeEncode | app/src/main/kotlin/net/eyanje/gyroaim/events.kt:44-53 | round trip: decoding an encoded event gives back its type, code and value for every u16 type and code and every i32 value |
| Events.EncodeDecode | app/src/main/kotlin/net/eyanje/gyroaim/events.kt:44-53 | the other direction: every 8-byte payload is the encoding of the event it decodes to, so the encoding is a bijection onto 8-byte payloads |
| Events.SynReportIsZeros | app/src/main/kotlin/net/eyanje/gyroaim/events.kt:74 | the trailing `{EV_SYN, 0, 0}` encodes to eight zero bytes |
| Events.AbsEventsStartWithZeros | app/src/main/kotlin/net/eyanje/gyroaim/events.kt:7-10 | because `EV_ABS` is 0, like `EV_SYN`, the first two bytes of every absolute-axis event are zero |
| Events.Encodings | app/src/main/kotlin/net/eyanje/gyroaim/events.kt:63-67 | one payload per event |
| Events.EncodingsAt | app/src/main/kotlin/net/eyanje/gyroaim/events.kt:63-67 | the i-th payload is the encoding of the i-th event |
| Events.EncodingsAppend | app/src/main/kotlin/net/eyanje/gyroaim/events.kt:63-67 | sending a concatenation sends the payloads of each part in order |
| Events.FrameLayout | app/src/main/kotlin/net/eyanje/gyroaim/events.kt:72-75 | a frame over N events is N+1 payloads: the encodings of the events in order, then eight zero bytes; the receiver decodes payload i back into event i |
| Events.DatagramSocket.Send | app/src/main/kotlin/net/eyanje/gyroaim/events.kt:60 | a send on a closed or unconnected socket fails; a successful send appends exactly its payload to the log; a failed one appends nothing |
| Events.SendEvent | app/src/main/kotlin/net/eyanje/gyroaim/events.kt:58-61 | on success the log grows by exactly `toByteArray()` of the event; on failure it is unchanged |
| Events.SendAll | app/src/main/kotlin/net/eyanje/gyroaim/events.kt:63-67 | on success the log grows by one payload per event, in order, and nothing else; on failure by the payloads of a strict prefix, since the failed send throws and ends the loop |
| Events.SendAllWithSyn | app/src/main/kotlin/net/eyanje/gyroaim/events.kt:72-75 | on success the log grows by exactly one frame (the N encodings, then the SYN encoding); on failure by a prefix of the events and no SYN |
| Evdev.ReplayMtAppend | app/src/main/kotlin/net/eyanje/gyroaim/Connection.kt:64-68 | a law of the receiver-side reference model, not of the client: replaying a concatenation of type-B events replays the parts in order |
| Evdev.RelDeltaAppend | app/src/main/kotlin/net/eyanje/gyroaim/Connection.kt:25-36 | a law of the receiver-side reference model, not of the client: relative movement over a concatenation is the sum of the parts |
| Evdev.SynReportEndsFrame | app/src/main/kotlin/net/eyanje/gyroaim/events.kt:72-75 | a choice of the receiver-side reference model: the SYN report `(0, 0, 0)` that ends every frame leaves the multitouch state as the frame left it, although its type number is that of `EV_ABS` |
| Generators.GyroscopeEvents | app/src/main/kotlin/net/eyanje/gyroaim/Connection.kt:25-36 | three `EV_REL` events; their codes, order and values, and the receiver's movement, are stated in `Generators.GyroscopeMoves` |
| Generators.ButtonEvents | app/src/main/kotlin/net/eyanje/gyroaim/Connection.kt:41-48 | one `EV_KEY` event with code `ButtonCode(index)` and value 1 exactly when down; its effect on the receiver is stated in `Generators.ButtonPresses` |
| Generators.ScrollEvents | app/src/main/kotlin/net/eyanje/gyroaim/Connection.kt:53-62 | two `EV_REL` events; their codes, order and values, and the receiver's scroll, are stated in `Generators.ScrollMoves` |
| Generators.ButtonCode | app/src/main/kotlin/net/eyanje/gyroaim/Connection.kt:45 | the key code is `BTN_0 + index` truncated to 16 bits, and exactly `BTN_0 + index` when that fits |
| Generators.GyroscopeMoves | app/src/main/kotlin/net/eyanje/gyroaim/Connection.kt:25-36 | exactly three `EV_REL` events with codes `REL_X`, `REL_Y`, `REL_Z` in that order; the receiver moves by x, y, z on them and by nothing on any other axis |
| Generators.ButtonPresses | app/src/main/kotlin/net/eyanje/gyroaim/Connection.kt:41-48 | exactly one `EV_KEY` event; afterwards the receiver holds key `ButtonCode(index)` at 1 if down and 0 if up, and no other key changed |
| Generators.ScrollMoves | app/src/main/kotlin/net/eyanje/gyroaim/Connection.kt:53-62 | exactly two `EV_REL` events, `REL_RX` then `REL_RY`; the receiver scrolls by dx, dy and moves nothing else |
| Multitouch.Padded | app/src/main/kotlin/net/eyanje/gyroaim/Connection.kt:76-80 | the padded table has `max(size, n)` entries; old entries are unchanged and new ones are empty |
| Multitouch.FindId | app/src/main/kotlin/net/eyanje/gyroaim/Connection.kt:108-112 | a found index is at or after the start, in range, holds the id, and is the first such |
| Multitouch.FindFree | app/src/main/kotlin/net/eyanje/gyroaim/Connection.kt:88-95 | a found index is at or after the start, in range, empty, and is the first such |
| Multitouch.Allocate | app/src/main/kotlin/net/eyanje/gyroaim/Connection.kt:85-99 | the result is the first empty slot at or after `minId` in the padded table, or, if there is none, the old size, with the id appended; the slot is `>= minId` and in range, holds the id, and no other entry changes |
| Multitouch.Resolve | app/src/main/kotlin/net/eyanje/gyroaim/Connection.kt:105-115 | if the id is registered at or after `minId`, the first such slot, with the table only padded; otherwise exactly what `Allocate` does; registered entries are never overwritten |
| Multitouch.ClearId | app/src/main/kotlin/net/eyanje/gyroaim/Connection.kt:117-126 | same size; no slot holds the id afterwards; every other entry is unchanged |
| Multitouch.Releases | app/src/main/kotlin/net/eyanje/gyroaim/Connection.kt:193-199 | pairs of (slot event, tracking id -1); every slot event names a registered slot among the first `n`, in strictly ascending order |
| Multitouch.ReleasesComplete | app/src/main/kotlin/net/eyanje/gyroaim/Connection.kt:193-199 | every registered slot among the first `n` gets its slot event at an even position, so no registered slot is skipped |
| Multitouch.Closing | app/src/main/kotlin/net/eyanje/gyroaim/Connection.kt:182-204 | the closing events are all absolute-axis events |
| Multitouch.TouchFrame | app/src/main/kotlin/net/eyanje/gyroaim/Connection.kt:128-205 | at least 7 events, the first a slot event with the slot `Resolve` gives (`>= 1` for a secondary pointer); all `EV_ABS`; on cancel the table is emptied; otherwise the table is exactly the one slot resolution left, the slot holds the pointer id, and every registered entry survives |
| Multitouch.TouchFrameOrder | app/src/main/kotlin/net/eyanje/gyroaim/Connection.kt:137-204 | position by position: event 0 selects the resolved slot; event 1 is the new tracking id exactly for DOWN and POINTER_DOWN; the next six are TOUCH_MAJOR, TOUCH_MINOR, ORIENTATION, POSITION_X, POSITION_Y, PRESSURE with the sample's values; the frame ends there for DOWN, POINTER_DOWN and MOVE, ends with a single -1 for UP and POINTER_UP, and continues with the release pairs of the table for CANCEL |
| Multitouch.ReleasesReplay | app/src/main/kotlin/net/eyanje/gyroaim/Connection.kt:193-199 | on the receiver, the releases end every registered slot and leave every other slot's tracking id and every axis unchanged |
| Multitouch.GeometryReplay | app/src/main/kotlin/net/eyanje/gyroaim/Connection.kt:157-180 | the six geometry events write the six axes of the selected slot and nothing else |
| Multitouch.HeadReplay | app/src/main/kotlin/net/eyanje/gyroaim/Connection.kt:143-180 | the head of a frame selects the slot, sets its tracking id iff a new contact starts, and writes its geometry |
| Multitouch.ClosingKeepsAxes | app/src/main/kotlin/net/eyanje/gyroaim/Connection.kt:182-204 | the closing events write no axis, and only a cancellation changes the selected slot |
| Multitouch.TouchFrameGeometry | app/src/main/kotlin/net/eyanje/gyroaim/Connection.kt:128-205 | on the receiver, after one frame, the contact's slot carries the sample's six geometry values |
| Multitouch.TouchFrameTracking | app/src/main/kotlin/net/eyanje/gyroaim/Connection.kt:128-205 | on the receiver, after one frame: a new contact's slot carries its pointer id; an ended or cancelled contact's slot carries -1; a move changes no tracking id; a cancellation ends every registered slot |
| Multitouch.MultitouchEventGenerator.constructor | app/src/main/kotlin/net/eyanje/gyroaim/Connection.kt:74 | a new tracker has an empty table |
| Multitouch.MultitouchEventGenerator.EnsureSize | app/src/main/kotlin/net/eyanje/gyroaim/Connection.kt:76-80 | the new table is the old one padded with empty slots to the size (unchanged if it was already that long) |
| Multitouch.MultitouchEventGenerator.NewSlot | app/src/main/kotlin/net/eyanje/gyroaim/Connection.kt:85-99 | new table and result are those of `Allocate` |
| Multitouch.MultitouchEventGenerator.GetSlot | app/src/main/kotlin/net/eyanje/gyroaim/Connection.kt:105-115 | new table and result are those of `Resolve` |
| Multitouch.MultitouchEventGenerator.ClearSlot | app/src/main/kotlin/net/eyanje/gyroaim/Connection.kt:120-126 | the new table is `ClearId` of the old |
| Multitouch.MultitouchEventGenerator.MultitouchEvents | app/src/main/kotlin/net/eyanje/gyroaim/Connection.kt:128-205 | new table and emitted events are those of `TouchFrame` |
| Multitouch.MultitouchEventGenerator.CancelEvents | app/src/main/kotlin/net/eyanje/gyroaim/Connection.kt:194-199 | the cancellation loop yields exactly `Releases` of the whole table and changes nothing |
| Multitouch.InclusiveFindId | app/src/main/kotlin/net/eyanje/gyroaim/Connection.kt:108-112 | a hit of the scan as written holds the id and is in range; an overrun is at index `slots.size` |
| Multitouch.InclusiveFindFree | app/src/main/kotlin/net/eyanje/gyroaim/Connection.kt:88-95 | a hit of the scan as written is empty and in range; an overrun is at index `slots.size` |
| Multitouch.InclusiveFindIdOverruns | app/src/main/kotlin/net/eyanje/gyroaim/Connection.kt:108 | with the inclusive range, the scan finds what the bounds-safe scan finds; where that finds nothing, it reads index `slots.size` |
| Multitouch.InclusiveFindFreeOverruns | app/src/main/kotlin/net/eyanje/gyroaim/Connection.kt:88 | the same for the scan for an empty slot |
| Multitouch.AsWrittenNewSlot | app/src/main/kotlin/net/eyanje/gyroaim/Connection.kt:85-99 | `newSlot` as written: a returned slot is at or after `minId`, in range, and holds the id; a throw is at index `slots.size` of the padded table; the comparison with `Allocate` is `Multitouch.AsWrittenNewSlotNeverAppends` |
| Multitouch.AsWrittenGetSlot | app/src/main/kotlin/net/eyanje/gyroaim/Connection.kt:105-115 | `getSlot` as written: a returned slot is at or after `minId`, in range, and holds the id; a throw is at index `slots.size` of the padded table; the comparison with `Resolve` is `Multitouch.AsWrittenGetSlotOverruns` |
| Multitouch.AsWrittenClearFrom | app/src/main/kotlin/net/eyanje/gyroaim/Connection.kt:120-126 | the loop of `clearSlot` as written keeps the table's size and, started at any index up to the size, throws at index `slots.size`; what it clears first is `Multitouch.AsWrittenClearSlotThrows` |
| Multitouch.AsWrittenCancelFrom | app/src/main/kotlin/net/eyanje/gyroaim/Connection.kt:194-199 | the cancellation loop as written yields whole pairs and stops by reading index `slots.size`; that the pairs are `Releases` is `Multitouch.AsWrittenCancelFromOverruns` |
| Multitouch.AsWrittenTouchFrame | app/src/main/kotlin/net/eyanje/gyroaim/Connection.kt:128-205 | `multitouchEvents` as written: a run that does not throw is not a cancel and yields at least 7 events; a throw is at index `slots.size` of the table it left; the comparisons with `TouchFrame` are `Multitouch.AsWrittenTouchFrameThrowsOnMiss` and `Multitouch.AsWrittenTouchFrameOnHit` |
| Multitouch.AsWrittenGetSlotOverruns | app/src/main/kotlin/net/eyanje/gyroaim/Connection.kt:105-115 | as written, `getSlot` agrees with `Resolve` when the id is registered at or after `minId`; otherwise it throws at index `slots.size` and never reaches `newSlot` |
| Multitouch.AsWrittenNewSlotNeverAppends | app/src/main/kotlin/net/eyanje/gyroaim/Connection.kt:85-99 | as written, `newSlot` agrees with `Allocate` when an empty slot exists at or after `minId`; otherwise it throws at index `slots.size`; the table never grows by the append |
| Multitouch.AsWrittenClearSlotThrows | app/src/main/kotlin/net/eyanje/gyroaim/Connection.kt:120-126 | as written, `clearSlot` empties the slots holding the id, then throws at index `slots.size`, on every table |
| Multitouch.AsWrittenCancelFromOverruns | app/src/main/kotlin/net/eyanje/gyroaim/Connection.kt:194-199 | as written, the cancellation loop yields exactly `Releases` of the table, then reads index `slots.size` |
| Multitouch.AsWrittenTouchFrameThrowsOnMiss | app/src/main/kotlin/net/eyanje/gyroaim/Connection.kt:128-143 | as written, a sample whose id is not registered at or after the minimum slot yields nothing and throws, leaving only the padding |
| Multitouch.AsWrittenTouchFrameOnHit | app/src/main/kotlin/net/eyanje/gyroaim/Connection.kt:128-205 | as written, a sample whose id is registered yields the events of `TouchFrame`; a cancellation then throws instead of clearing the table |
| Multitouch.FirstTouchThrows | app/src/main/kotlin/net/eyanje/gyroaim/Connection.kt:105-115 | as written, the first DOWN on a fresh tracker reads index 1 of the one-slot table and yields no event |
| Multitouch.NoTouchRegistersAsWritten | app/src/main/kotlin/net/eyanje/gyroaim/Connection.kt:105-143 | as written, from any table with no registered id (the fresh tracker's included) every sample throws, yields nothing, and leaves a table with no registered id, so no touch ever registers |
| Multitouch.FirstTouchTakesSlotZero | app/src/main/kotlin/net/eyanje/gyroaim/Connection.kt:137-143 | the first DOWN on a fresh tracker registers its id in slot 0 |
| Multitouch.SecondPointerTakesSlotOne | app/src/main/kotlin/net/eyanje/gyroaim/Connection.kt:135-138 | a POINTER_DOWN while slot 0 is taken gets slot 1 |
| Multitouch.EndedContactKeepsItsSlot | app/src/main/kotlin/net/eyanje/gyroaim/Connection.kt:182-189 | UP leaves the table unchanged, so a later contact gets a new slot |
| Multitouch.CancelEndsEverySlot | app/src/main/kotlin/net/eyanje/gyroaim/Connection.kt:190-203 | CANCEL with slots 0 and 1 registered emits (slot 0, -1, slot 1, -1) after the common events, empties the table, and the next touch starts at slot 0 |
| Multitouch.ReturningPointerIsRegisteredTwice | app/src/main/kotlin/net/eyanje/gyroaim/Connection.kt:105-115 | a pointer id returning as a secondary pointer while slot 0 still holds it gets a new slot; its later moves go to slot 0 |
| Connections.Connection.constructor | app/src/main/kotlin/net/eyanje/gyroaim/Connection.kt:213-215 | a fresh, unconnected socket with an empty log, and a fresh tracker with an empty table |
| Connections.Connection.Connect | app/src/main/kotlin/net/eyanje/gyroaim/Connection.kt:217-242 | the socket is connected on success; on failure nothing changes |
| Connections.Connection.Close | app/src/main/kotlin/net/eyanje/gyroaim/Connection.kt:244-246 | the socket is closed and nothing else changes |
| Connections.Connection.SendGyroscopeEvent | app/src/main/kotlin/net/eyanje/gyroaim/Connection.kt:248-250 | the socket log grows by one gyroscope frame, or by a prefix of it without SYN on failure |
| Connections.Connection.SendButtonEvent | app/src/main/kotlin/net/eyanje/gyroaim/Connection.kt:252-254 | the same for one button frame |
| Connections.Connection.SendMultitouchEvent | app/src/main/kotlin/net/eyanje/gyroaim/Connection.kt:256-258 | the tracker's table moves to that of `TouchFrame` and the log grows by its frame, or by a prefix on failure |
| Connections.Connection.SendScrollEvent | app/src/main/kotlin/net/eyanje/gyroaim/Connection.kt:260-262 | the same for one scroll frame |
| Connections.ReusableConnection.constructor | app/src/main/kotlin/net/eyanje/gyroaim/Connection.kt:267 | starts with no connection, which satisfies the invariant `Valid()`: a held connection's socket is connected and not closed |
| Connections.ReusableConnection.Connect | app/src/main/kotlin/net/eyanje/gyroaim/Connection.kt:269-273 | on success the field holds a fresh, connected, open connection with an empty log and table, so `Valid()` holds; on failure the field is unchanged and `Valid()` is kept; the replaced connection is not closed |
| Connections.ReusableConnection.Close | app/src/main/kotlin/net/eyanje/gyroaim/Connection.kt:275-279 | the field is null afterwards (so `Valid()` holds) and the previous connection's socket is closed; with no connection it changes nothing, so closing twice is the same as once |
| Connections.ReusableConnection.IsConnected | app/src/main/kotlin/net/eyanje/gyroaim/Connection.kt:281 | true exactly when a connection is held; under `Valid()`, exactly when a held socket is connected and open |
| Connections.ReusableConnection.SendGyroscopeEvent | app/src/main/kotlin/net/eyanje/gyroaim/Connection.kt:283-285 | without a connection, nothing is modified; with one, the socket stays connected and open as it was, and its log grows as `SentFrame` says for one gyroscope frame; `Valid()` is kept |
| Connections.ReusableConnection.SendButtonEvent | app/src/main/kotlin/net/eyanje/gyroaim/Connection.kt:287-289 | the same for a button frame |
| Connections.ReusableConnection.SendMultitouchEvent | app/src/main/kotlin/net/eyanje/gyroaim/Connection.kt:291-293 | the same for a touch frame, and the tracker's table becomes that of `TouchFrame` |
| Connections.ReusableConnection.SendScrollEvent | app/src/main/kotlin/net/eyanje/gyroaim/Connection.kt:295-297 | the same for a scroll frame |

## Left out

- `floatToInt` and every `roundToInt` (Connection.kt:16-18, :55, :157-180):
  float rounding is not modelled. The generators take the already-rounded
  `Int` values.
- `MotionEvent`: the action index, `getActionMasked` and the geometry
  accessors become the fields of a `TouchSample`. Actions other than the six
  named ones behave like MOVE in the source and are modelled as `Move`.
- Laziness of Kotlin sequences: `multitouchEvents` is a lazy sequence that
  `sendAll` consumes one event at a time. The model builds the whole frame,
  then sends it. The two agree except when a send fails part-way through a
  CANCEL frame. In the source, the rest of the sequence, and with it
  `slots.clear()`, is then never run, so the table is not emptied. In the
  model it is emptied.
- Connections.Connection.Connect: parsing the port (`String.toInt`),
  resolving the host (`InetAddress.getByName`) and `DatagramSocket.connect`
  are library and network calls. They are modelled as steps that may fail
  with the exception they throw, not by what they compute. An
  `IllegalArgumentException` for a port out of range is folded into "may
  fail". So is a `SocketException` from creating the socket in
  `Connection()`.
- Events.DatagramSocket.Send: the network is a nondeterministic choice of
  success or failure. Only the payloads are logged, not the destination
  address. A failed send is a `false` result that ends the frame, where the
  source throws an `IOException` to its caller.
- Multitouch.MultitouchEventGenerator.MultitouchEvents: requires fewer than
  2^31 - 1 slots, the largest `MutableList` size. This keeps every slot
  number a 32-bit `Int`, which the source assumes without checking.
- Kotlin's `Byte` is signed, while the model's bytes are octets 0..255. The
  8-bit patterns are the same.
- The UI (GyroaimPanel.kt), the view model's coroutines and error posting
  (GyroaimViewModel.kt), sensor registration (MainActivity.kt) and the build
  files are not part of this model.

## Findings

Every scan of the tracker uses the inclusive Kotlin range `from..slots.size`.
When no index before `slots.size` matches, the loop reads `slots[slots.size]`
and throws `IndexOutOfBoundsException`. The doc comments state the intended
behaviour: fall through to a new slot, or finish the loop.

| source | as written | input that shows it | evidently intended | confidence | as-written member | corrected member |
|---|---|---|---|---|---|---|
| app/src/main/kotlin/net/eyanje/gyroaim/Connection.kt:105-115 | `for (i in minId..slots.size)` in `getSlot` reads `slots[slots.size]` whenever the id is not registered, so `newSlot` is never reached | the first DOWN on a fresh tracker: `getSlot(id)` pads the table to `[null]`, then reads index 1 | return the first slot holding the id, else allocate one with `newSlot` | not executed | Multitouch.AsWrittenGetSlotOverruns | Multitouch.Resolve |
| app/src/main/kotlin/net/eyanje/gyroaim/Connection.kt:85-99 | `for (i in minId..slots.size)` in `newSlot` throws when no slot is empty, so the append at :97-98 is unreachable | `newSlot(5)` on the table `[3]` reads index 1 | return the first empty slot at or after `minId`, else append one | not executed | Multitouch.AsWrittenNewSlotNeverAppends | Multitouch.Allocate |
| app/src/main/kotlin/net/eyanje/gyroaim/Connection.kt:120-126 | `for (i in 0..slots.size)` in `clearSlot` throws on every table, after clearing | `clearSlot(1)` on the empty table reads index 0 | empty every slot holding the id, then return | not executed | Multitouch.AsWrittenClearSlotThrows | Multitouch.ClearId |
| app/src/main/kotlin/net/eyanje/gyroaim/Connection.kt:190-203 | `for (i in 0..slots.size)` in the CANCEL branch yields its pairs, then throws, so `slots.clear()` and the SYN report never happen | CANCEL for pointer 5 with table `[5, 8]`: after (slot 0, -1, slot 1, -1) it reads index 2 | release every registered slot, clear the table, end the frame with SYN | not executed | Multitouch.AsWrittenTouchFrameOnHit | Multitouch.TouchFrame |
| app/src/main/kotlin/net/eyanje/gyroaim/Connection.kt:128-143 | a sample whose pointer id is in no slot at or after its minimum throws in `getSlot` before anything is yielded, so no touch can ever register | DOWN for pointer 0 on a fresh tracker leaves the table `[null]` and sends nothing | allocate a slot and send its frame | not executed | Multitouch.NoTouchRegistersAsWritten | Multitouch.FirstTouchTakesSlotZero |

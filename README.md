# BLE advertising queue and DirAct telemetry codec

This project models the two pieces of logic that the Espruino Puck.js sketches in this repository share:

- **`BLEQueue`.** A priority-preemptive queue of advertising items. Each tick of `pollQueue`:
  - never interrupts a priority-1 broadcast;
  - lets a queued priority-1 item take the radio at once;
  - otherwise starts the next item in (priority, entry time) order, but only when no broadcast timer is pending.

  A broadcast lasts for its item's `interval` and is then ended by a timer.
- **The telemetry codec.** It builds a 9-byte reelyActive DirAct proximity frame with these steps:
  - fold each acceleration axis into a 6-bit sign/magnitude code;
  - map the battery voltage onto 0..63;
  - pack the four 6-bit fields most-significant-bit first into 3 bytes;
  - derive the 4-byte instance id from the device address string.

## Modules

- `wrappers.dfy` (`Wrappers`): the `Option` type.
- `queue_store.dfy` (`QueueStore`): items and the pending-item list as values. It covers:
  - the three duplicate policies of `addToQueue`;
  - the (priority, entry time) order and the sort;
  - the sort-and-shift of `getNextQueueItem`.
- `scheduler.dfy` (`Scheduler`): the queue object's state as a value. This is the pending items, `currentBroadcastItem`, the pending timer and a log of outward effects. The module defines `broadcast`, `endBroadcast`, one `pollQueue` tick and timer expiry as functions on that value, and proves the scheduling properties about them.
- `ble_queue.dfy` (`BleQueue`): the `BLEQueue` class itself.
  - Its fields are updated in place, and `addToQueue` searches with a loop as `Array.prototype.find` does.
  - Each method is proved to leave the object in the state the matching `Scheduler` function computes from the old state.
- `bits.dfy` (`Bits`): the low 16 bits of an operand's 32-bit JavaScript integer, as a `bv16`, and the fact that a 6-bit value keeps its value there.
- `codec.dfy` (`Codec`): `encodeAcceleration`, `encodeBatteryPercentage` and `compileAccelerationData`. The bit packing works on the `bv16` view from `Bits`. The masks keep only bits 0-9 of each operand, so those 16 bits determine every byte.
- `instance_id.dfy` (`InstanceId`): `autoInstanceId`. It spells out the JavaScript built-ins it uses: `String.prototype.substring`, `parseInt(_, 16)` and storage into a `Uint8Array`.

The repository keeps several copies of the queue, and they differ only in how `broadcast` transmits. `Scheduler.Variant` names the three behaviours:

- **`PerItemTransmitter`**: call the item's own `setAdvertisingCallback` if it has one, else default advertising. This is `puck_report_everything/bleQ.js` and the inline copies in `puck_report_everything_use_module.js` and `puck_report_everythingv2.js`.
- **`DefaultAdvertisingOnly`**: always use default advertising. This is `puck_report_everything.old.js`.
- **`TimerOnly`**: transmit nothing and only arm the timer. This is `webtesting/bletimer.js`.

The two copies without a transmitter callback simply never supply one. The codec functions appear with the same text in three files. `puck_report_everything_use_module.js` and `puck_report_everything.js` hold them at the same lines, and `puck_report_everythingv2.js` holds them at other lines.

Time, randomness and the radio are parameters:

- the clock reading `new Date().getTime()` is the `now` argument of `AddToQueue`;
- a data producer's answer during a tick is `env(producer)`;
- the `setTimeout` handle is the hold duration it was armed with, and `Expire` fires it;
- radio updates and producer calls are appended to an effects log;
- the battery voltage is passed in as integer millivolts and the address as a string.

A zero acceleration reading encodes as code 0: the rounded magnitude is 0 and the reading is not negative.

## Model

| member | source | states |
|---|---|---|
| QueueStore.FirstWithId | puck_report_everything/bleQ.js:126-137 | the index `find` stops at is the first entry with the id; there is none exactly when no entry has the id |
| QueueStore.Admit | puck_report_everything/bleQ.js:124-143 | "add" always appends; any other mode appends when the id is absent; a mode other than "add"/"replace" leaves the queue unchanged when the id is present; "replace" overwrites only the first entry with the id, takes the new fields, keeps that entry's old entry time and leaves the length unchanged |
| QueueStore.AdmitCount | puck_report_everything/puck_report_everything.old.js:84-102 | entries with the id: "add" adds one even when duplicates exist; any other mode leaves exactly one if there were none and leaves the count unchanged otherwise |
| QueueStore.ReplaceKeepsFirstEntrytime | puck_report_everything/puck_report_everything_use_module.js:331-335 | a run of "replace" calls for an id not yet queued appends exactly one entry and changes nothing else; that entry carries the fields of the last call and the clock reading of the first |
| QueueStore.ReplaceAllInPlace | puck_report_everything/bleQ.js:128-132 | a run of "replace" calls on a queue with a single entry for the id rewrites that entry where it stands, with the fields of the last call and its original entry time; every other entry is untouched |
| QueueStore.Insert | puck_report_everything/bleQ.js:220-225 | inserting into a list sorted by (priority, entry time) gives a sorted permutation with one more element |
| QueueStore.SortByKey | puck_report_everything/bleQ.js:220-225 | the sort returns a permutation of the queue ordered by priority, then entry time |
| QueueStore.PopNext | puck_report_everything/bleQ.js:219-231 | nothing is popped exactly when the queue is empty; otherwise the popped item was queued and precedes every queued item in (priority, entry time) order, and the rest is the old multiset minus it, sorted and one shorter |
| QueueStore.SuccessivePopsOrdered | puck_report_everything/puck_report_everything.old.js:176-188 | two successive pops come out in (priority, entry time) order, so equal priorities leave in non-decreasing entry time |
| Scheduler.Initial | puck_report_everything/bleQ.js:104-110 | a new queue is empty, has no session and no timer, and has done nothing |
| Scheduler.AddToQueue | puck_report_everything/bleQ.js:112-144 | `addToQueue` stamps the new item with the clock reading and admits it under the duplicate policy of `Admit`; it touches neither the session, the timer nor the effects, so the session invariant is kept |
| Scheduler.EndBroadcast | puck_report_everything/bleQ.js:213-217 | afterwards there is neither a current item nor a timer; the queue and the effects are untouched |
| Scheduler.EndBroadcastIdempotent | webtesting/bletimer.js:223-228 | ending a session twice is the same as ending it once, so it is safe whether or not a session exists |
| Scheduler.Transmit | puck_report_everything/bleQ.js:198-207 | one radio update per broadcast: the item's own transmitter when it has one, else the default record with manufacturer 0x0590, the item's data and the interval; always the default record in the .old copy; nothing in the browser copy; never a producer call |
| Scheduler.Broadcast | puck_report_everything/bleQ.js:194-211 | afterwards the item is current and the timer is pending for the given interval, whatever session existed before; the queue is untouched and the effects gain exactly that item's transmission |
| Scheduler.Dispatch | puck_report_everything/bleQ.js:185-190 | an empty queue changes nothing; otherwise the first item in (priority, entry time) order leaves the queue, its producer is called exactly once, the answer becomes its data and it is broadcast for its own interval |
| Scheduler.DispatchEffects | puck_report_everything/bleQ.js:185-190 | a dispatch keeps the past effects, adds exactly one producer call and takes exactly one item off the queue |
| Scheduler.PollQueue | puck_report_everything/bleQ.js:147-192 | a current priority-1 item blocks every change; with no priority-1 item queued and a timer pending nothing happens; a session exists exactly when a timer is pending, before and after; past effects are kept, at most one producer call is added and at most one item leaves the queue |
| Scheduler.Expire | puck_report_everything/bleQ.js:208-210 | the timer firing ends the session and leaves the queue and the effects alone: no radio update and no producer call |
| Scheduler.PriorityOnePreempts | puck_report_everything/bleQ.js:170-179 | with all priorities at least 1, a queued priority-1 item and no priority-1 broadcast, the tick dispatches the oldest priority-1 item, replacing any session |
| Scheduler.IdleTickDispatchesNext | puck_report_everything/bleQ.js:180-190 | with no session, no timer and no priority-1 item, the tick dispatches the next item in (priority, entry time) order, or does nothing on an empty queue |
| Scheduler.AdmitPriorityOne | webtesting/bletimer.js:133-153 | admitting a priority-1 item under "add", under "replace", or under any mode for an absent id leaves a priority-1 item queued and keeps all priorities at least 1 |
| Scheduler.AdmitPriorityOneThenTick | webtesting/bletimer.js:184-193 | right after such an admission, a tick without a priority-1 broadcast puts a priority-1 item on the air, with its timer pending |
| Scheduler.PriorityOneWaitsForPriorityOne | puck_report_everything/puck_report_everything.old.js:122-138 | a queued priority-1 item never preempts a priority-1 broadcast, and is dispatched on the first tick after that broadcast's timer fires |
| BleQueue.BLEQueue.constructor | puck_report_everything/bleQ.js:104-110 | the new object is in the initial state |
| BleQueue.BLEQueue.AddToQueue | puck_report_everything/bleQ.js:112-144 | the in-place `find`/overwrite/`push` leaves the object exactly as `Admit` specifies and keeps the session invariant |
| BleQueue.BLEQueue.GetNextQueueItem | puck_report_everything/bleQ.js:219-231 | the in-place sort and `shift` return `PopNext`'s item and leave its rest as the queue; nothing else changes |
| BleQueue.BLEQueue.EndBroadcast | puck_report_everything/bleQ.js:213-217 | the object ends in the state `Scheduler.EndBroadcast` gives |
| BleQueue.BLEQueue.Broadcast | puck_report_everything/bleQ.js:194-211 | the object ends in the state `Scheduler.Broadcast` gives for its variant |
| BleQueue.BLEQueue.DispatchNext | puck_report_everything/bleQ.js:185-190 | the pop, producer call and broadcast leave the object in the state `Scheduler.Dispatch` gives |
| BleQueue.BLEQueue.PollQueue | puck_report_everything/bleQ.js:147-192 | one tick leaves the object in the state `Scheduler.PollQueue` gives and keeps the session invariant |
| BleQueue.BLEQueue.Expire | puck_report_everything/bleQ.js:208-210 | the timer callback leaves the object in the state `Scheduler.Expire` gives |
| Codec.Magnitude | puck_report_everything/puck_report_everything_use_module.js:209-213 | the magnitude code lies in 0..31; below the cap, it is the nearest integer to 31·\|raw\|/16384 with halves rounded up; it is capped at 31 exactly when that rounded value reaches 31 |
| Codec.AxisCode | puck_report_everything/puck_report_everything_use_module.js:209-217 | the axis code lies in 0..63; it is 32 or more exactly when the reading is negative; a non-negative reading gets the magnitude code and a negative one gets 0x3f minus it |
| Codec.AxisCodeDecodes | puck_report_everything/puck_report_everything_use_module.js:209-216 | the sign/magnitude code reads back as the signed magnitude, and within ±2 g that lies within half a step (a step is 2/31 g) of the reading |
| Codec.AxisCodeEdges | puck_report_everything/puck_report_everything.js:209-216 | a zero reading gives 0; a tiny negative reading gives 63; at 2 g or more the code saturates at 31, and at -2 g or less at 32 |
| Codec.MagnitudeMonotone | puck_report_everything/puck_report_everythingv2.js:83-86 | a larger absolute reading never gets a smaller magnitude code |
| Codec.EncodeAcceleration | puck_report_everything/puck_report_everything_use_module.js:201-222 | x, y and z start at the invalid code 0x20; with the accelerometer enabled, every axis present in the reading is replaced by its axis code and every other entry keeps 0x20; every value lies in 0..63 |
| Codec.EncodeBattery | puck_report_everything/puck_report_everything_use_module.js:228-240 | at 2.0 V or below the code is 0; at 3.0 V or above it is 63; in between it is the nearest integer to 63·(V-2.0), with halves rounded up; it always lies in 0..63 |
| Codec.EncodeBatteryMonotone | puck_report_everything/puck_report_everythingv2.js:102-114 | a higher voltage never gets a lower battery code |
| Codec.SensorBytes | puck_report_everything/puck_report_everything_use_module.js:267-273 | the masked shifts give three values, each in 0..255 |
| Codec.SensorBytesOfCodes | puck_report_everything/puck_report_everything.js:268-273 | for 6-bit fields the bytes are the 6/2, 4/4 and 2/6 bit splits of x, y, z and battery, most significant first |
| Codec.SensorBytesRoundTrip | puck_report_everything/puck_report_everythingv2.js:139-144 | unpacking the 24 bits most significant first recovers all four 6-bit fields |
| Codec.CompileAccelerationData | puck_report_everything/puck_report_everything_use_module.js:265-281 | the frame is 9 bytes: frame type 0x01, length 0x07, the 4 instance-id bytes, then the three sensor bytes of x, y, z and the battery code |
| Codec.FrameRoundTrip | puck_report_everything/puck_report_everythingv2.js:136-152 | parsing the frame gives back the instance id, the three axis codes and the battery code |
| InstanceId.Substring | puck_report_everything/puck_report_everything_use_module.js:290-291 | `substring` clamps both indices to the length, giving at most end-start characters; it is the exact slice when the string is long enough |
| InstanceId.TrimStart | puck_report_everything/puck_report_everything_use_module.js:290-291 | `parseInt` drops a prefix of white space and starts at a character that is not white space |
| InstanceId.HexRun | puck_report_everything/puck_report_everything_use_module.js:290-291 | `parseInt` reads the longest prefix of hex digits and stops at the first other character |
| InstanceId.ParseIntHex | puck_report_everything/puck_report_everything_use_module.js:290-291 | `parseInt(_, 16)`; its contract is stated by `ParseIntHexNaN` (NaN exactly when no hex digit follows the skipped prefix), `ParseIntHexSign` (a negative result only after a leading "-") and `ParseHexDigits` (an all-hex string parses as its value) |
| InstanceId.DigitsOfSkips | puck_report_everything/puck_report_everything_use_module.js:290-291 | the text `parseInt` reads digits from is a suffix of the string with its leading white space removed, at most three characters (a sign and "0x") shorter |
| InstanceId.ParseIntHexNaN | puck_report_everything/puck_report_everything_use_module.js:290-291 | `parseInt(_, 16)` gives NaN exactly when no hex digit follows the skipped white space, sign and "0x" prefix |
| InstanceId.ParseIntHexSign | puck_report_everything/puck_report_everything_use_module.js:290-291 | without a leading "-" the result is never negative, and a negative result always comes from a leading "-" |
| InstanceId.ParseHexDigits | puck_report_everything/puck_report_everything_use_module.js:290-291 | a non-empty string made only of hex digits parses as their value, most significant digit first |
| InstanceId.ToUint8 | puck_report_everything/puck_report_everything_use_module.js:290-291 | storing into a `Uint8Array` gives a value in 0..255 that equals the number when it is already in range |
| InstanceId.AutoInstanceId | puck_report_everything/puck_report_everything_use_module.js:287-292 | the id is 4 bytes, each in 0..255, and the first two are 0 |
| InstanceId.ParseTwoHexDigits | puck_report_everything/puck_report_everything.js:290-291 | `parseInt(_, 16)` of two hex digits with values d0 and d1 is 16·d0 + d1 |
| InstanceId.OctetAtDigits | puck_report_everything/puck_report_everything_use_module.js:290-291 | when the two address characters at a position are hex digits d0 and d1 in either case, the id byte read there is 16·d0 + d1 |
| InstanceId.AutoInstanceIdHexDigits | puck_report_everything/puck_report_everythingv2.js:42-47 | when address characters 12, 13, 15 and 16 are hex digits in either case, the last two id bytes are their two-digit values |
| InstanceId.AutoInstanceIdOfAddress | puck_report_everything/puck_report_everything_use_module.js:287-292 | an address whose fifth and sixth octets print as a and b in lower-case hex gives the id [0, 0, a, b] |
| InstanceId.ShortAddressGivesZeroId | puck_report_everything/puck_report_everything.js:287-292 | an address of 12 characters or fewer parses as NaN twice, and the id is [0, 0, 0, 0] |

## Left out

- Device and radio I/O are not modelled:
  - `NRF.setAdvertising`, `NRF.getBattery` and `NRF.getAddress`;
  - `Puck.accelOn`, `Puck.on`, LEDs and `console.log`;
  - the `setInterval` sensor and poll loops, and `startup`.

  Transmissions are entries in an effects log, and the battery value and the address are parameters.
- Real time is not modelled. The timer is a pending flag holding its duration, and `Expire` fires it. Timer ids are assumed never to be falsy.
- `JSON.stringify` of the default advertising payload is not modelled: the payload is an opaque blob of integers.
- Callbacks are opaque names. A producer's answer is a parameter (`env`). A callback that throws, or one that re-enters the queue, is not modelled.
- `buttonval` and `pollIntervalMS` are set by the constructor, and the queue's own methods never read them. The browser page in `webtesting/bletimer.js` uses `pollIntervalMS` (100 ms) as the period of its `pollQueue` `setInterval`. That loop is real-time plumbing, so neither field is modelled: each `Scheduler.PollQueue` call stands for one tick of it.
- `if(!this.queue) return;` in `pollQueue` cannot fire, because the queue is always an array. It is not modelled.
- JavaScript loose equality (`priority == 1` with a string priority) is not modelled. Priorities are integers. In the preemption branch, an item with priority below 1 sorts ahead of the priority-1 items and is dispatched instead. `PriorityOnePreempts` therefore assumes all priorities are at least 1.
- QueueStore.SortByKey: it is a stable insertion sort. The engine's `Array.prototype.sort` may order two items with equal priority and equal entry time differently.
- Codec.EncodeBattery: takes integer millivolts instead of floating-point volts, so readings finer than 1 mV are not modelled.
- Codec.EncodeAcceleration: axis readings are integers in device units. Floating-point readings, non-numeric values and non-finite values are not modelled. The accelerometer switch `ENABLE_ACCELEROMETER` is the `enabled` parameter.
- Codec.CompileAccelerationData: the packet data is a map from axis name to integer code. A missing field reads as 0, as JavaScript's `undefined << 2` does. When no acceleration has arrived yet, the packet is `false`; the model treats this as a map with no fields.
- InstanceId.ParseIntHex: follows the ECMAScript `parseInt` with radix 16. Espruino's own parser is not part of this model. Results beyond 2^53 are exact integers here, where JavaScript would round them.
- The `dynScale` class, the jQuery page helpers in `webtesting/bletimer.js`, and the unused DIGEST and Eddystone constants are not part of this model.

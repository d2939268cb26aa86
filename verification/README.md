# Halo Keyboard, verified model

Halo Keyboard turns the touch surface of the Yoga Book into two virtual devices. This project
models the parts that decide what those devices report, in Dafny, and proves what they promise:

- the **multi-touch decoder** (`StateMachine.dfy`, `DecoderLog.dfy`), which turns raw events of the
  kernel's multi-touch protocol type B into snapshots and resynchronises after lost events;
- the **fake keyboard** (`Keyboard*.dfy`, `FakeKeyboard.dfy`, `Timespecs.dfy`), a scheduler that
  holds every key press back for 50 ms so that it can still be revoked;
- the **fake touchpad** (`Touchpad*.dfy`, `FakeTouchpad.dfy`), which re-encodes a rectangle of the
  surface, possibly turned, as a touch device of its own;
- the **geometry** all of them and the haptics share (`Geometry.dfy`, `KeyboardLayout.dfy`).

`MtStateMachine`, `FakeKeyboard` and `FakeTouchpad` are classes that update their fields in place,
as in the program. Each of their methods is proved equal to a function on values, and the theorems
are about those functions and about runs of them. A walk of a hash table picks any entry it has not
visited; the functions take the order of the walk as an argument, so the theorems hold for all
orders.

## How to read the model

*Contacts.* A tracking id may be used by many contacts over time. The model names a contact by its
tracking id and the number of earlier contacts with that id, and carries the name along in finger
data and queued events. No branch reads it. A `Stroke` is a key event that was sent or is pending,
with its deadline and its contact.

*Readings.* What a frame reports of a contact is a reading. `KeyboardReadings` tells what becomes of a
contact by its readings and the clock readings alone: on which key it is, how long it is held, and
what it types.

*The invariant.* `KeyboardInvariant.Inv` says, for every contact, what was sent for it and what is
pending for it, together: a Down that waits, a Down that was sent, nothing, or one whole press. It
holds in every state of every run (`KeyboardRuns.RunsKeepInvariant`); most theorems follow from it.

*The receiver.* What the touchpad writes is judged by a second decoder that is fed all of it. A slot
is mirrored (`TouchpadMirror.Mirrors`) if the receiver shows the source's contact there, or none
outside the region, and inside holds exactly the source's supported values, turned.

*Environment.* A run is any sequence of passes of `Consume`, over any raw events and timeouts, with
these assumptions, stated in `AdmissibleTurn` and `AdmissibleFrame`: clock readings are normalised
and never go back; no contact uses -999, the id reserved for Up events; and a new contact does not
reuse the id of an event still pending from a contact that has left. Doubles are reals, a conversion
to int truncates toward zero, and ints are unbounded.

## Findings

- **A contact can stay on the virtual touchpad after it is gone.** After SYN_DROPPED the slots are
  emptied, and the kernel then reports only changes. If a finger that was on the touchpad stays down
  and the next frame reports only its motion inside the region, the slot has a position but no
  tracking id. It still counts as a member, so nothing is written about its id: the receiver goes on
  showing the old contact, while BTN_TOUCH and the tool buttons no longer count it.
- **A contact can have values it never reported.** The receiver is never told that a value is gone.
  After SYN_DROPPED a new contact in the same slot that has not reported, say, its pressure is shown
  with the pressure of the contact before it.
- These are the only ways: `TouchpadMirror.FrameMirrorsIff` proves that a frame is mirrored exactly if
  no slot is stale (the first case) and none has a leftover value (the second), and
  `TouchpadRuns.RunsMirror` that without SYN_DROPPED neither ever happens.
  `TouchpadRuns.LostContactStays` and `TouchpadRuns.LostPressureStays` are runs from the start that
  end in each, and `TouchpadRuns.EveryLogRuns` shows that such runs exist.
- With five to ten contacts on the touchpad BTN_TOUCH is down and no tool button is. Touch and tool
  buttons agree exactly if there are fewer than five (`TouchpadButtons.RunButtons`);
  `TouchpadButtons.ManyContacts` has runs from the start for every number.
- The error "No finger data for event that should have some" is never logged, and the branch of
  `HandleLeavingFinger` that finds a guaranteed Up and then schedules none is never taken
  (`FakeKeyboardDevice.FakeKeyboard.FireFront`, `KeyboardSteps.LeaveEnds`).
- `RejectFinger` scans for all pending events of a finger; called from the firing loop it never finds
  another one (`KeyboardDrain.FrontIsAlone`).
- The order of the hash tables can decide which code is sent, or whether Fn stays on.
  `KeyboardConfluence.OrderMattersIff` says exactly when two walks of a snapshot end differently: Fn is
  off, a new contact lands on an Fn key and another on a key with an Fn code of its own; or Fn is on, a
  finger slides off an Fn key and a new contact lands on a key with an Fn code of its own; or a finger
  slides off an Fn key, a new contact lands on one, and no other Fn finger has left.
  `KeyboardConfluence.FnArrivalDependsOnOrder` is an instance. In all other runs the order decides
  nothing but which of two keys due at the same instant is sent first
  (`KeyboardDeterminism.OutputIsDetermined`).

## Model

| member | source | states |
|---|---|---|
| `Timespecs.AddMs` | src/fake_keyboard.cc:142-151 | the added milliseconds are exact in nanoseconds and a normalised time stays normalised |
| `Timespecs.AddMsToTimespec` | src/fake_keyboard.cc:142-151 | the carry loop terminates with that exact, normalised sum |
| `Timespecs.LaterIsInstantOrder` | src/fake_keyboard.cc:153-157 | comparing seconds and then nanoseconds is the order of instants, and equal instants are equal timespecs |
| `Timespecs.WaitBound` | src/fake_keyboard.cc:364-379 | the wait is never negative, strictly longer than the time left, less than 2 ms too long unless the deadline has passed, at most 51 ms for deadlines within the delay, at most 1 ms for one that has passed and exactly that if it passed 2 ms ago |
| `Timespecs.SelectTimeoutIsExact` | src/evdev_source.cc:52-53 | the split into seconds and microseconds loses nothing |
| `StateMachine.MtStateMachine.AddEvent` | src/multitouch/state_machine.cc:11-43 | one event changes the decoder as the step function says; it answers true exactly for type 0, code 0 outside a dropped stretch, and then replaces the caller's map |
| `StateMachine.MtStateMachine.FillSnapshot` | src/multitouch/state_machine.cc:45-61 | the loop over the slots computes the snapshot function |
| `StateMachine.MtStateMachine.Reset` | src/multitouch/state_machine.cc:70-76 | all slots empty, slot 0 selected, not dropping |
| `DecoderLog.DecoderRefinesScan` | src/multitouch/state_machine.cc:18-42 | after any log, a slot holds for a key exactly the last value written while the slot was selected since the last resynchronisation; out-of-range selections write nowhere; the decoder drops exactly while no report has followed the last SYN_DROPPED |
| `DecoderLog.CompletesIff` | src/multitouch/state_machine.cc:18-39 | for any log, a frame is complete at an event if and only if it is a report (type 0, code 0) that neither lies in a dropped stretch nor ends one |
| `DecoderLog.SnapshotMeaning` | src/multitouch/state_machine.cc:45-61 | a snapshot lists exactly the tracking ids other than -1, and the highest-indexed slot wins a shared id |
| `DecoderLog.SnapshotReadsLog` | src/multitouch/state_machine.cc:45-61 | for any log, a snapshot has a tracking id exactly if it is not -1 and a slot carries it by the log, and gives it the position, pressure and diameter last written, under codes 0x35, 0x36, 0x3a and 0x30, to the highest such slot, or -1 |
| `DecoderLog.ResyncForgetsHistory` | src/multitouch/state_machine.cc:18-28 | no frame completes between SYN_DROPPED and its report, and afterwards state and answers are those of a fresh decoder on the suffix |
| `KeyboardModel.FindKey` | src/fake_keyboard.cc:163-180 | the scan finds the first key that contains the point, or none contains it |
| `KeyboardSteps.InsertIsStable` | src/fake_keyboard.cc:345-358 | insertion keeps deadline order and puts an event behind those with the same deadline |
| `KeyboardSteps.EnqueueAppends` | src/fake_keyboard.cc:345-358 | on every reachable queue, inserting an event due in 50 ms appends it |
| `KeyboardSteps.ArriveKeeps` | src/fake_keyboard.cc:271-303 | an arriving contact keeps the invariant and changes no finished contact |
| `KeyboardSteps.UpdateKeeps` | src/fake_keyboard.cc:304-323 | so does a moving contact, including a slide-off before or after its Down was sent |
| `KeyboardSteps.LeaveEnds` | src/fake_keyboard.cc:183-215 | a live contact that leaves always gets its Up: whatever is pending for it is its Down, which becomes guaranteed |
| `KeyboardSteps.LeaveKeeps` | src/fake_keyboard.cc:183-215 | leaving keeps the invariant and changes no finished contact |
| `KeyboardSteps.FireKeeps` | src/fake_keyboard.cc:408-467 | so does one turn of the firing loop, whether it sends or rejects |
| `KeyboardRuns.SnapKeeps` | src/fake_keyboard.cc:258-343 | a whole snapshot keeps the invariant in any order, and afterwards the known fingers are exactly those reported |
| `KeyboardRuns.RunsKeepInvariant` | src/fake_keyboard.cc:360-474 | the invariant holds in every state of every run over raw events; what was sent only grows; finished contacts keep their history |
| `KeyboardDrain.FrontIsAlone` | src/fake_keyboard.cc:248-255 | the front event is the only pending one of its finger, so rejecting it erases nothing else |
| `KeyboardDrain.DrainIsDecided` | src/fake_keyboard.cc:400-468 | the firing loop terminates and equals a loop-free description: the due prefix leaves the queue, each of its events is decided by its own finger alone |
| `KeyboardDrain.DrainComplete` | src/fake_keyboard.cc:400-409 | what is left is not yet due and nothing was sent before its deadline |
| `KeyboardDrain.TimeoutMakesProgress` | src/fake_keyboard.cc:364-409 | a select timeout comes after at most 51 ms and the pass that follows takes at least the front event off the queue |
| `KeyboardTheorems.QueueMirrorsFingers` | src/fake_keyboard.cc:192-255 | a live finger has either its Down sent and nothing pending, or exactly one pending event, its Down; a rejected finger has none; an event without a finger is guaranteed; a live finger's starting key is in the layout |
| `KeyboardTheorems.ContactOutputIsPress` | src/fake_keyboard.cc:183-256 | at every point of the output each contact has produced a prefix of a Down and the Up of the same key |
| `KeyboardTheorems.FateIsSealedOverRuns` | src/fake_keyboard.cc:236-256 | a contact rejected before its Down fires never produces anything; one that ended later produces exactly one Down and one Up, in every continuation |
| `KeyboardTheorems.Conservation` | src/fake_keyboard.cc:183-256 | Downs sent less Ups sent of a key are the fingers holding it, plus pending Ups, less pending Downs of fingers that have left |
| `KeyboardTheorems.ReleasesNeverLead` | src/fake_keyboard.cc:400-468 | at every point of the output each key was pressed at least as often as released |
| `KeyboardTheorems.Quiescence` | src/fake_keyboard.cc:326-342 | once all contacts have left and 50 ms have passed, no finger and no event is left, Fn is off, and every key was released as often as pressed |
| `KeyboardTheorems.LeaveKeepsDuration` | src/fake_keyboard.cc:217-222 | the Up follows the Down by exactly the time the contact lasted |
| `KeyboardTheorems.SlideOffRevokesOrReleases` | src/fake_keyboard.cc:308-320 | sliding off revokes a pending Down without trace; after the Down it schedules the one Up, with the exact duration |
| `KeyboardTheorems.FiringDecidesByRange` | src/fake_keyboard.cc:411-467 | a finger's Down is sent once it is due and its pressure or diameter is in range, with no upper limit on the space bar; due and out of range, nothing it caused remains; not due, nothing changes |
| `KeyboardTheorems.EveryRun` | src/fake_keyboard.cc:360-474 | all of this in every state of every run from an empty keyboard: deadline order, prefixes of presses, balance, conservation, Fn only with a live Fn finger, only enabled codes |
| `KeyboardTiming.PressIsShifted` | src/fake_keyboard.cc:360-474 | over any run, a contact that arrives in one turn and ends in another causes nothing or one press of the key settled in its first turn, whose Down and Up are due exactly 50 ms after the clock readings of those two turns |
| `KeyboardTiming.SentWhenDue` | src/fake_keyboard.cc:400-409 | over any run, nothing is sent in a turn before that turn's clock reading reaches its deadline |
| `KeyboardFates.LifeOfContact` | src/fake_keyboard.cc:360-474 | over any run, once 50 ms have passed after a contact ended, what was sent for it is one press of its key, with both deadlines, exactly if its Down had been sent before or it went missing from a frame, and nothing otherwise |
| `KeyboardFates.PressedIff` | src/fake_keyboard.cc:183-256 | a contact that ends is pressed if and only if its Down had been sent before the turn or it ends because it is no longer reported |
| `KeyboardFates.CodeIsSettledOnArrival` | src/fake_keyboard.cc:159-181 | over any run, a contact has the code of the key it landed on, with the Fn flag as the walk of its first snapshot finds it |
| `KeyboardFates.WhatEndedIsSent` | src/fake_keyboard.cc:400-468 | no stuck key while other fingers stay down: 50 ms after a contact ended, any pass that fires has sent all it caused, which is nothing or a whole press |
| `KeyboardReadings.TypedExactly` | src/fake_keyboard.cc:258-474 | over any run, told by frames and clock alone: what a contact types is one press of its key, with both deadlines, exactly if a firing pass came 50 ms after it arrived or the frame it ends in no longer reports it |
| `KeyboardReadings.HeldExactly` | src/fake_keyboard.cc:258-474 | over any run, a contact is held exactly until the first frame that does not report it on its key's half-open rectangle, or the first firing pass 50 ms after it arrived that finds its readings unfit |
| `KeyboardReadings.EndsExactly` | src/fake_keyboard.cc:304-323 | the same for one turn: the exact condition under which a contact ends in it |
| `KeyboardReadings.HeldTells` | src/fake_keyboard.cc:301-314 | over any run, the pressure and diameter kept for a held contact are the largest that the frames since its arrival reported, every one of which reported it on its key, and its Down was sent exactly if a firing pass came 50 ms after it arrived |
| `KeyboardReadings.LandingTells` | src/fake_keyboard.cc:159-181 | over any run, a new contact is held exactly if some key contains its first reading; its key is the first that does; otherwise it is rejected as off any key |
| `KeyboardReadings.InRangeIsFits` | src/fake_keyboard.cc:422-446 | the range check is one on the readings: if none has a pressure, a diameter of 300 or more and none above 3000; otherwise a pressure of 50 or more and none above 110; no upper limit on key 57 |
| `KeyboardReadings.PressedExactly` | src/fake_keyboard.cc:183-256 | the condition for a press, by frames and clock, before anything is sent |
| `KeyboardReadings.EndedBecause` | src/fake_keyboard.cc:236-256 | over any run, the reason kept for a contact that ended is the one the frames and readings give |
| `KeyboardTyping.TypesItsRow` | src/fake_keyboard.cc:69-181 | over any run with a layout file, a contact first reported at the image of a user point in a row's rectangle is held as that row's code, or its Fn code if Fn is on when the walk comes to it |
| `KeyboardOutput.RecordsGrow` | src/fake_keyboard.cc:400-473 | each pass adds to the key events of the output just what it adds to the record of sent strokes |
| `KeyboardOutput.ReportCloses` | src/fake_keyboard.cc:457-472 | a pass that sends nothing writes nothing; one that sends n strokes writes n key events and then one report; so the output never has a key event after its last report, nor a report without keys |
| `KeyboardOutput.OutputNeverLeads` | src/fake_keyboard.cc:400-473 | at every point of the device's whole output no key has been released more often than pressed |
| `KeyboardOutput.OutputAtRest` | src/fake_keyboard.cc:400-473 | with no finger and no event left, every key has been released as often as pressed over the whole output |
| `KeyboardConfluence.OrderMattersIff` | src/fake_keyboard.cc:258-343 | two walks of the hash tables end differently if and only if a contact reads an Fn flag that another sets or drops, or one sets and another drops it and none that has left drops it afterwards |
| `KeyboardConfluence.SnapshotOrderIrrelevant` | src/fake_keyboard.cc:258-343 | in all other cases any two walks give the same fingers, Fn flag and queue, but for the order of new events that share a deadline |
| `KeyboardConfluence.WalkFlag` | src/fake_keyboard.cc:166-169 | along any walk the last contact that sets or drops the Fn flag decides it, and contacts not yet reached are as they were |
| `KeyboardConfluence.FnArrivalDependsOnOrder` | src/fake_keyboard.cc:166-169 | a layout and a snapshot with an Fn contact for which the order decides the code sent |
| `KeyboardDeterminism.OutputIsDetermined` | src/fake_keyboard.cc:360-474 | two runs over the same events and clock readings with different walks send the same strokes, deadline by deadline and contact by contact, as long as no frame of one depends on the order |
| `KeyboardDeterminism.SnapAlike` | src/fake_keyboard.cc:258-343 | a snapshot whose order does not matter keeps states alike, whichever way each of them walks it |
| `KeyboardDeterminism.DrainAlike` | src/fake_keyboard.cc:400-468 | the firing loop keeps states alike that differ in the order of pending events and of what was sent |
| `FakeKeyboardDevice.FakeKeyboard.EnableKeyboardEvents` | src/fake_keyboard.cc:125-140 | succeeds exactly if the kernel accepts key events and every code of the layout and every non-zero Fn code, which are then the codes enabled |
| `FakeKeyboardDevice.FakeKeyboard.EnqueueEvent` | src/fake_keyboard.cc:345-358 | the list loop is the sorted insertion |
| `FakeKeyboardDevice.FakeKeyboard.GenerateEventForArrivingFinger` | src/fake_keyboard.cc:159-181 | the key and the Fn-resolved code under the point, and its Down scheduled |
| `FakeKeyboardDevice.FakeKeyboard.HandleLeavingFinger` | src/fake_keyboard.cc:183-215 | the loop with its two flags is the leaving function |
| `FakeKeyboardDevice.FakeKeyboard.RejectFinger` | src/fake_keyboard.cc:236-256 | the status, the Fn flag and the erasing loop are the rejecting function |
| `FakeKeyboardDevice.FakeKeyboard.ProcessTouch` | src/fake_keyboard.cc:266-323 | one contact of a snapshot, new or known, whose effect on the maxima is stated by `KeyboardReadings.HeldTells`; the haptics are told of a new one on a key, where it is |
| `KeyboardHaptics.FeltExactly` | src/fake_keyboard.cc:288-292 | in any walk of a frame the haptics are told once of each new contact on a key, at its reported position, and of nothing else |
| `KeyboardHaptics.FeltOnUsersSide` | src/haptics/touch_ff_manager.cc:70-98 | a new contact on a key at a user point runs the motor on the user's own side |
| `FakeKeyboardDevice.FakeKeyboard.ProcessIncomingSnapshot` | src/fake_keyboard.cc:258-343 | both loops, for whatever order the hash tables are walked in |
| `FakeKeyboardDevice.FakeKeyboard.FireFront` | src/fake_keyboard.cc:411-467 | one turn of the firing loop, in bounds and without the error case |
| `FakeKeyboardDevice.FakeKeyboard.ConsumeOnce` | src/fake_keyboard.cc:361-473 | one pass: the wait, the decoder, the snapshot, the firing, the events written, literally, with one report after the keys sent, if any, and the haptics told of each new contact on a key; over all passes the key events of the output are the strokes sent and each batch is closed by a report |
| `KeyboardLayout.LoadLayout` | src/fake_keyboard.cc:69-122 | every row becomes a key with its codes on the image of its rectangle, or the first bad row decides the error |
| `KeyboardLayout.LoadsIff` | src/fake_keyboard.cc:69-117 | a row loads if and only if it has a size, codes in range and a supported rotation, and its key contains a position |
| `KeyboardLayout.KeyLiesOnItsRow` | src/fake_keyboard.cc:82-106 | for every rotation each bound of a key, in sensor units, is the matching bound of the image of its row's rectangle, cut toward zero by less than a unit |
| `KeyboardLayout.TouchTypesRow` | src/fake_keyboard.cc:159-181 | a touch at the image of a user point well inside one row's rectangle resolves to that row's code, or to its Fn code if Fn is on and it has one |
| `KeyboardLayout.ApartStaysApart` | src/fake_keyboard.cc:82-119 | rows that do not overlap become keys that do not overlap, for every rotation, in spite of truncation |
| `KeyboardLayout.KeyIsUnique` | include/halo_keyboard/fake_keyboard.h:40-42 | at most one such key contains a point, and the scan finds it |
| `KeyboardLayout.RowOrderIrrelevant` | src/fake_keyboard.cc:163-180 | the order of the rows in the layout file never changes the code of a touch |
| `KeyboardLayout.KeySpansItsImage` | src/fake_keyboard.cc:82-106 | a key's bounds in millimetres are those of its rectangle's image under the rotation the touchpad undoes |
| `Geometry.RotationRoundTrip` | src/fake_touchpad.cc:223-256 | a user point carried to the sensor comes back as its offset from the touchpad's corner, scaled by the pitches, for all four rotations |
| `Geometry.SensorRoundTrip` | src/fake_touchpad.cc:59-91 | and a sensor point is where the user point read off the touchpad lies |
| `Geometry.HapticsFollowUser` | src/haptics/touch_ff_manager.cc:70-98 | the position that picks the motor is the user's own distance from the left edge; the left motor runs only in the left half, the right one only in the right half or less than a unit from it |
| `TouchpadGeometry.LoadLayout` | src/fake_touchpad.cc:46-96 | the region in two truncating stages and the exact size, or the error |
| `TouchpadGeometry.StoredBound` | src/fake_touchpad.cc:59-91 | a stored bound is at most the exact one and less than one millimetre of pitch plus one unit below it |
| `TouchpadGeometry.CornersCutTwice` | src/fake_touchpad.cc:59-91 | the region's corners are the user's corners on the sensor, cut toward zero to whole millimetres and then to whole units |
| `TouchpadGeometry.CutTwiceOnce` | src/fake_touchpad.cc:59-91 | which leaves only one region |
| `TouchpadGeometry.RegionIsOrdered` | src/fake_touchpad.cc:59-91 | the region is never inside out, so the declared ranges are not negative |
| `TouchpadGeometry.DeclaredSizeIsClose` | src/fake_touchpad.cc:117-133 | the declared size is within that distance of the exact size |
| `TouchpadGeometry.WrittenInRange` | src/fake_touchpad.cc:185-256 | every position in every frame written lies in the declared range of its axis, whatever the source's slots hold |
| `TouchpadGeometry.TransformUndoesLayout` | src/fake_touchpad.cc:223-256 | for any loaded region and rotation a contact at a user point is reported at that point's scaled offset, off by less than one millimetre of pitch and one unit on each axis, and exactly when the corner was not rounded |
| `TouchpadGeometry.TransformIsRotation` | src/fake_touchpad.cc:223-256 | the integer transform is the rotation that undoes the layout's, with the region's own bounds |
| `TouchpadGeometry.CornersAreExact` | src/fake_touchpad.cc:223-256 | the integer rectangle's corners go exactly to the origin and the declared extent, and no two positions share an image |
| `TouchpadGeometry.CornersAreUsers` | src/fake_touchpad.cc:59-91 | those corners are the stored images of the area's own corners |
| `TouchpadMirror.FrameFeeds` | src/fake_touchpad.cc:265-305 | a frame fed to a decoder updates each slot from the matching source slot and nothing else |
| `TouchpadMirror.OverlayMeaning` | src/fake_touchpad.cc:207-259 | every supported value arrives under its turned key with its turned value, in any order of the hash table |
| `TouchpadMirror.OverlayIsMerge` | src/fake_touchpad.cc:207-259 | a whole walk, in any order, lays exactly the turned supported values over what the receiver's slot had |
| `TouchpadMirror.SlotMirrorsIff` | src/fake_touchpad.cc:275-302 | one slot holds the source's contact with exactly its turned values if and only if it was not stale and the receiver had no value the source lacks |
| `TouchpadMirror.MirroredFinger` | src/fake_touchpad.cc:207-259 | a mirrored contact has the source's id, pressure and both diameters, under codes 0x39, 0x3a, 0x30 and 0x31, at the turned position, and no other value |
| `TouchpadMirror.ShownExactly` | src/fake_touchpad.cc:185-195 | the contacts shown are those between the region's bounds, the bounds included |
| `TouchpadMirror.SlotFrameTells` | src/fake_touchpad.cc:275-296 | what is written for a slot selects it; entering is announced by the tracking id before any value, leaving by -1 and nothing else |
| `TouchpadMirror.FrameMirrorsIff` | src/fake_touchpad.cc:265-305 | a frame is mirrored in every slot if and only if no slot is stale and none has a leftover value; the touch count is the number of contacts the receiver shows if and only if no slot is stale; slots outside the region show nothing in any case |
| `TouchpadRuns.RunsMirror` | src/fake_touchpad.cc:152-170 | from the start and while no events are lost, every completed frame is mirrored, with no value the source does not have, for any orders |
| `TouchpadRuns.MirrorFailsAfterDrop` | src/fake_touchpad.cc:283-296 | from any state that shows a contact, lost events followed by motion alone leave a contact at the receiver that neither source nor count has |
| `TouchpadRuns.EveryLogRuns` | src/fake_touchpad.cc:152-170 | every log of events has a run from the start |
| `TouchpadRuns.LostContactStays` | src/fake_touchpad.cc:283-296 | every run from the start over one such log ends with that contact at the receiver and a count of zero |
| `TouchpadRuns.LostPressureStays` | src/fake_touchpad.cc:207-259 | a log over which no slot is stale, and every run from the start ends with a contact that has another's pressure |
| `FakeTouchpadDevice.FakeTouchpad.Rewrite` | src/fake_touchpad.cc:223-256 | the stepwise rewriting of a value and its code is the turned key and value |
| `FakeTouchpadDevice.FakeTouchpad.PassEventsThrough` | src/fake_touchpad.cc:197-263 | the loop over a slot writes its supported values and tells whether it has a contact |
| `FakeTouchpadDevice.FakeTouchpad.SyncTouchEvents` | src/fake_touchpad.cc:265-305 | the loop over the slots writes the frame, updates the memberships and counts the contacts |
| `TouchpadButtons.FrameButtons` | src/fake_touchpad.cc:172-183 | after a frame touch is down exactly if some contact is in the region, at most one tool is, one is exactly for one to four contacts, and touch and tools agree exactly for fewer than five |
| `TouchpadButtons.FrameCloses` | src/fake_touchpad.cc:152-183 | each frame adds slot values, then the five buttons, then exactly one report |
| `TouchpadButtons.RunButtons` | src/fake_touchpad.cc:152-183 | the same for the whole output of any run, lost events or not |
| `TouchpadButtons.OutputFeedsReceiver` | src/fake_touchpad.cc:152-170 | the receiver of a run is a decoder that was fed its whole output |
| `TouchpadButtons.ManyContacts` | src/fake_touchpad.cc:172-183 | runs from the start in which any number of contacts up to ten land: touch is down for any, a tool only for one to four |
| `FakeTouchpadDevice.FakeTouchpad.SendTouchpadBtnEvents` | src/fake_touchpad.cc:172-183 | whatever was written before, the five buttons are left telling the count |
| `FakeTouchpadDevice.FakeTouchpad.ConsumeOnce` | src/fake_touchpad.cc:152-170 | one pass: the source is decoded; the end of a frame writes the slots, the buttons and one report, in this order, and nothing else does; every position ever written is in its range; a receiver of the whole output is brought up to date |

## Left out

- StateMachine.MtStateMachine.AddEvent: takes the caller's map and a flag instead of a pointer that may be null.
- Geometry.HapticsFollowUser: is about contacts exactly at a sensor unit and the rotations the constructor accepts; checking the constructor's other arguments is not modelled.
- Reusing a tracking id while an event of its previous contact is pending; the program then takes one contact's event for the other's.
- When events fire while raw events that end no snapshot keep arriving; such passes skip the firing loop, and the model has them do so.
- The axis resolution declared with the touchpad's ranges, which is rounded from the ranges and the size in millimetres.
- Opening devices, ioctl, select, read, write and their errors, but for the kernel's answers when key codes are enabled, which are an input; what GetNextEvent returns is an input of a pass, and what SendEvent writes is appended to a sequence.
- Reading the CSV files; rows and the hardware configuration are taken as parsed, and NaN and infinities do not exist among reals.
- Rounding of doubles and overflow of ints.
- Force-feedback effects beyond where they are asked for and which motor that picks, logging, options, the two supervised processes, and the packaging.
- The bounds check of the slot accessor, since the touchpad's loop stays below the number of slots.

# Gaze cursor controller and cursor-event pool, modelled in Dafny

This project models two pieces of the GearVR framework's input handling.

- **`CursorEvent` and its recycling pool.** A cursor event is a short-lived object that
  carries the state of a 3D cursor to its listeners. Events are recycled through a static,
  intrusive, singly linked free list of at most five events: `obtain` pops the head or
  allocates, and `recycle` pushes unless the list is full. A reused event is not cleared.
  The setters and getters are field stores and reads.
- **`GVRGazeCursorController`.** The gaze controller turns touch-pad motion into synthetic
  BUTTON_1 key events. A press schedules a button-down on a worker thread's message queue,
  due one tap timeout (60) after the gesture started. Every move moves the cursor's depth by
  a tenth of the horizontal offset from the press, clamped to the near and far depths; a
  move beyond the touch slop (squared distance 64) also cancels the pending button-down. A release cancels a pending button-down and, if a
  button-down was already reported, queues a button-up. The worker handles its messages one
  at a time. Reference counting registers the draw-frame listener and starts the worker on
  the first attach, and unregisters it on the last detach; `close` detaches everything.

## Structure

- `host_types.dfy` (`HostTypes`): the Android and engine values the core passes around,
  reduced to what it looks at (`KeyEvent` is action and key code, `MotionEvent` is action,
  x, y and down time, coordinates are `real`).
- `cursor_event.dfy` (`CursorEvents`): the `CursorEvent` class with its setters and getters,
  and the static pool as a `Recycler` object whose ghost `chain` is the list the `next`
  links spell out.
- `gaze_messages.dfy` (`GazeMessages`): the worker's message kinds, its queue in posting
  order, `removeMessages` by tag, and the worker thread as a value (lifecycle status,
  whether its handler exists, pending messages).
- `gaze_cursor.dfy` (`GazeCursor`): the controller state `Gaze`, one pure function per
  operation (`Incremented`, `Decremented`, `Closed`, `AfterMotion`, `AfterKey`,
  `AfterSetPosition`, `AfterHandle`), and the `GazeCursorController` class. Its methods
  update the fields step by step, as the Java does, and each is proved to produce exactly
  its function's state. Calls into the base controller and the context are recorded in
  logs (`baseCalls`, `contextCalls`).
- `gaze_properties.dfy` (`GazeProperties`): what each operation does, stated on those
  functions, plus the `threadStarted` finding below.
- `gaze_pairing.dfy` (`GazeButtonPairing`): a run is any interleaving of input calls and
  worker steps. Over a run in which every press is released before the next one, the
  reported button events alternate down, up, down, up. A run dispatches motion as written
  or, with `cancelReleases`, with a cancelled gesture ending the press as a release does. The proof is an invariant relating
  the reported events, the queued ones and the `buttonDownSent` flag.

The controller takes the base controller's near and far depths as parameters. Before the
first attach the worker has no handler, so the Java throws a `NullPointerException` on any
call that uses the handler (posts or removes messages): a key event, `setPosition`, and a
press, a release or a move beyond the slop. The model states this as a precondition (the
handler exists) on exactly those calls. A move inside the slop, or another action, does
not touch the handler and needs none.

## Model

| member | source | states |
|---|---|---|
| CursorEvents.CursorEvent.constructor | GVRf/Extensions/3DCursor/3DCursorLibrary/src/main/java/org/gearvrf/io/cursor3d/CursorEvent.java:57-59 | a new event carries the pristine payload (hit point at the origin, flags false, references null) and no link |
| CursorEvents.CursorEvent.SetActive | GVRf/Extensions/3DCursor/3DCursorLibrary/src/main/java/org/gearvrf/io/cursor3d/CursorEvent.java:66-68 | only `isActive` changes, and `IsActive()` then returns the value set |
| CursorEvents.CursorEvent.SetColliding | GVRf/Extensions/3DCursor/3DCursorLibrary/src/main/java/org/gearvrf/io/cursor3d/CursorEvent.java:75-77 | only `isColliding` changes, and `IsColliding()` returns the value set |
| CursorEvents.CursorEvent.SetCursor | GVRf/Extensions/3DCursor/3DCursorLibrary/src/main/java/org/gearvrf/io/cursor3d/CursorEvent.java:84-86 | only the cursor changes, and `GetCursor()` returns the value set |
| CursorEvents.CursorEvent.SetHitPoint | GVRf/Extensions/3DCursor/3DCursorLibrary/src/main/java/org/gearvrf/io/cursor3d/CursorEvent.java:99-101 | only the hit point changes, and `GetHitX/Y/Z()` return the three coordinates set |
| CursorEvents.CursorEvent.SetKeyEvent | GVRf/Extensions/3DCursor/3DCursorLibrary/src/main/java/org/gearvrf/io/cursor3d/CursorEvent.java:110-112 | only the key event changes, and `GetKeyEvent()` returns the value set |
| CursorEvents.CursorEvent.SetObject | GVRf/Extensions/3DCursor/3DCursorLibrary/src/main/java/org/gearvrf/io/cursor3d/CursorEvent.java:119-121 | only the scene object changes, and `GetObject()` returns the value set |
| CursorEvents.CursorEvent.SetOver | GVRf/Extensions/3DCursor/3DCursorLibrary/src/main/java/org/gearvrf/io/cursor3d/CursorEvent.java:129-131 | only `isOver` changes, and `IsOver()` returns the value set |
| CursorEvents.CursorEvent.SetMotionEvents | GVRf/Extensions/3DCursor/3DCursorLibrary/src/main/java/org/gearvrf/io/cursor3d/CursorEvent.java:296-298 | only the motion-event list changes, and `GetMotionEvents()` returns the value set |
| CursorEvents.CursorEvent.GetHitPoint | GVRf/Extensions/3DCursor/3DCursorLibrary/src/main/java/org/gearvrf/io/cursor3d/CursorEvent.java:219-221 | returns a newly allocated array `[x, y, z]` of the current hit coordinates |
| CursorEvents.Recycler.constructor | GVRf/Extensions/3DCursor/3DCursorLibrary/src/main/java/org/gearvrf/io/cursor3d/CursorEvent.java:52-53 | the free list starts empty: no head, count 0, invariant established |
| CursorEvents.Recycler.Obtain | GVRf/Extensions/3DCursor/3DCursorLibrary/src/main/java/org/gearvrf/io/cursor3d/CursorEvent.java:267-279 | never null; on an empty list a fresh pristine event and the list unchanged; otherwise the old head, the head becomes its `next`, the count drops by one, the returned event's link is cleared and its payload is left as it was; the free-list invariant (count = chain length <= 5, links end in null, no event twice) is preserved |
| CursorEvents.Recycler.Recycle | GVRf/Extensions/3DCursor/3DCursorLibrary/src/main/java/org/gearvrf/io/cursor3d/CursorEvent.java:286-294 | below the cap the event is pushed on the front (chain, head, count + 1, its link to the old head); at the cap nothing changes, the event's own link included; the invariant is preserved |
| CursorEvents.RecycleThenObtain | GVRf/Extensions/3DCursor/3DCursorLibrary/src/main/java/org/gearvrf/io/cursor3d/CursorEvent.java:267-294 | LIFO round trip: recycling into a non-full pool and obtaining returns the same event with its payload untouched and the pool exactly as before |
| GazeMessages.RemoveMessages | GVRf/Framework/framework/src/main/java/org/gearvrf/io/GVRGazeCursorController.java:118 | removing by tag keeps exactly the messages with another tag, never grows the queue, and is the identity when no message has the tag |
| GazeCursor.ClampDepth | GVRf/Framework/framework/src/main/java/org/gearvrf/io/GVRGazeCursorController.java:126-133 | the near-then-far clamp: within `[far, near]` when `far <= near`, the identity inside that range, `near` at or above it, `far` below it, and always `far` when `near < far` (the second clamp overrides the first) |
| GazeCursor.GazeCursorController.constructor | GVRf/Framework/framework/src/main/java/org/gearvrf/io/GVRGazeCursorController.java:53-61 | count 0, no button reported, position at the origin, a worker not yet started and without handler, nothing registered or recorded |
| GazeCursor.GazeCursorController.IncrementReferenceCount | GVRf/Framework/framework/src/main/java/org/gearvrf/io/GVRGazeCursorController.java:67-77 | the new state and the outcome (returned, or `IllegalThreadStateException` from starting a started thread) are those of `Incremented` on the old state |
| GazeCursor.GazeCursorController.DecrementReferenceCount | GVRf/Framework/framework/src/main/java/org/gearvrf/io/GVRGazeCursorController.java:83-94 | the new state is `Decremented` of the old |
| GazeCursor.GazeCursorController.Close | GVRf/Framework/framework/src/main/java/org/gearvrf/io/GVRGazeCursorController.java:164-173 | the new state is `Closed` of the old |
| GazeCursor.GazeCursorController.DispatchKeyEvent | GVRf/Framework/framework/src/main/java/org/gearvrf/io/GVRGazeCursorController.java:96-100 | returns true, and the new state is `AfterKey` of the old |
| GazeCursor.GazeCursorController.DispatchMotionEvent | GVRf/Framework/framework/src/main/java/org/gearvrf/io/GVRGazeCursorController.java:102-145 | returns true, and the new state is `AfterMotion` of the old (with the depth clamped in place as the code does) |
| GazeCursor.GazeCursorController.SetPosition | GVRf/Framework/framework/src/main/java/org/gearvrf/io/GVRGazeCursorController.java:147-151 | the new state is `AfterSetPosition` of the old |
| GazeCursor.GazeCursorController.HandleMessage | GVRf/Framework/framework/src/main/java/org/gearvrf/io/GVRGazeCursorController.java:194-213 | one worker step: the new state is `AfterHandle` of the old |
| GazeProperties.MotionKeepsLifecycle | GVRf/Framework/framework/src/main/java/org/gearvrf/io/GVRGazeCursorController.java:143-144 | every motion event is passed to the base controller once, and the count, the listener registrations and the worker's lifecycle are untouched |
| GazeProperties.ActionDownSchedulesButtonDown | GVRf/Framework/framework/src/main/java/org/gearvrf/io/GVRGazeCursorController.java:109-115 | a press anchors x, y at the event and z at the current depth, and appends exactly one button-down due at down time + 60; flag and position unchanged |
| GazeProperties.ActionUpSettlesButton | GVRf/Framework/framework/src/main/java/org/gearvrf/io/GVRGazeCursorController.java:116-122 | after a release no button-down is pending, a button-up was appended if and only if a button-down had been reported, the flag is false, and anchor and position are unchanged |
| GazeProperties.ActionMoveSetsDepth | GVRf/Framework/framework/src/main/java/org/gearvrf/io/GVRGazeCursorController.java:123-137 | a drag sets the depth to anchor depth + 0.1 * horizontal offset, clamped near then far, inside `[far, near]` when `far <= near`; x, y, anchor and flag unchanged |
| GazeProperties.ActionMoveCancelsDrag | GVRf/Framework/framework/src/main/java/org/gearvrf/io/GVRGazeCursorController.java:138-141 | beyond a squared displacement of 64 every pending button-down is removed, otherwise the queue is untouched; a move never adds a message |
| GazeProperties.OtherActionsOnlyRecord | GVRf/Framework/framework/src/main/java/org/gearvrf/io/GVRGazeCursorController.java:102-145 | any other action only passes the event to the base controller |
| GazeProperties.CancelUndoesPost | GVRf/Framework/framework/src/main/java/org/gearvrf/io/GVRGazeCursorController.java:114-118 | posting a button-down and then removing the pending button-downs gives back the worker as it was |
| GazeProperties.PressThenDrag | GVRf/Framework/framework/src/main/java/org/gearvrf/io/GVRGazeCursorController.java:109-141 | a press followed by a drag out of the touch slop leaves the worker and the flag as before the press |
| GazeProperties.DragSuppressesButton | GVRf/Framework/framework/src/main/java/org/gearvrf/io/GVRGazeCursorController.java:109-141 | press, drag out of the slop and release before the worker runs leave the queue as it was and no button reported: a drag is not a click |
| GazeProperties.KeyEventForwarded | GVRf/Framework/framework/src/main/java/org/gearvrf/io/GVRGazeCursorController.java:222-225 | a key event is queued as exactly one message carrying it, and nothing else changes |
| GazeProperties.SetPositionForwarded | GVRf/Framework/framework/src/main/java/org/gearvrf/io/GVRGazeCursorController.java:147-151 | the relative position becomes `(x, y, z)` and exactly one position message with that triple is queued |
| GazeProperties.HandleMessageEffects | GVRf/Framework/framework/src/main/java/org/gearvrf/io/GVRGazeCursorController.java:194-211 | the whole new state: the head message is consumed; a button-down sets the flag and reports the BUTTON_1 down event, a button-up reports the BUTTON_1 up event, position and key messages pass their payloads on; no other field changes |
| GazeProperties.IncrementRegistersOnFirstAttach | GVRf/Framework/framework/src/main/java/org/gearvrf/io/GVRGazeCursorController.java:67-77 | the count goes up by one; the listener is registered exactly on the 0-to-1 transition unless starting the worker throws, which happens exactly when the worker already ran but is not marked started |
| GazeProperties.DecrementUnregistersOnLastDetach | GVRf/Framework/framework/src/main/java/org/gearvrf/io/GVRGazeCursorController.java:83-94 | the count goes down by one; the listener is unregistered exactly on the 1-to-0 transition |
| GazeProperties.CloseUnregistersIfAttached | GVRf/Framework/framework/src/main/java/org/gearvrf/io/GVRGazeCursorController.java:164-173 | the count becomes 0 and the listener is unregistered exactly when the count was positive |
| GazeProperties.AsWrittenWorkerNeverReplaced | GVRf/Framework/framework/src/main/java/org/gearvrf/io/GVRGazeCursorController.java:83-94 | as written, every operation keeps `threadStarted` false, so the worker is never replaced and never quit |
| GazeProperties.AsWrittenReattachThrows | GVRf/Framework/framework/src/main/java/org/gearvrf/io/GVRGazeCursorController.java:67-77 | as written, once the worker runs, a new first attach throws and does not register the listener |
| GazeProperties.ReattachThrows | GVRf/Framework/framework/src/main/java/org/gearvrf/io/GVRGazeCursorController.java:67-94 | attach, detach, attach: the second attach throws and the listener stays unregistered |
| GazeProperties.IntendedLifecycle | GVRf/Framework/framework/src/main/java/org/gearvrf/io/GVRGazeCursorController.java:67-94 | with the flag set on start, no attach throws, every first attach registers, the last detach installs a fresh worker, close quits a started one, and the flag matches the worker throughout |
| GazeProperties.ReattachIntended | GVRf/Framework/framework/src/main/java/org/gearvrf/io/GVRGazeCursorController.java:67-94 | with the flag set on start, attach, detach, attach registers again on a second, running worker |
| GazeButtonPairing.PressKeepsPaired | GVRf/Framework/framework/src/main/java/org/gearvrf/io/GVRGazeCursorController.java:109-115 | a press from an idle button keeps the pairing invariant, now with a press in progress |
| GazeButtonPairing.ReleaseKeepsPaired | GVRf/Framework/framework/src/main/java/org/gearvrf/io/GVRGazeCursorController.java:116-122 | the release branch followed by recording the event keeps the pairing invariant, with no press in progress (used for a release, and with the fix for a cancel) |
| GazeButtonPairing.DragKeepsPaired | GVRf/Framework/framework/src/main/java/org/gearvrf/io/GVRGazeCursorController.java:138-141 | cancelling the pending button-down keeps the pairing invariant |
| GazeButtonPairing.QuietMotionKeepsPaired | GVRf/Framework/framework/src/main/java/org/gearvrf/io/GVRGazeCursorController.java:123-145 | a move inside the slop or any other action keeps the pairing invariant |
| GazeButtonPairing.PostKeepsPaired | GVRf/Framework/framework/src/main/java/org/gearvrf/io/GVRGazeCursorController.java:217-225 | queueing a position or a non-button key message keeps the pairing invariant |
| GazeButtonPairing.HandleKeepsPaired | GVRf/Framework/framework/src/main/java/org/gearvrf/io/GVRGazeCursorController.java:194-211 | one worker step keeps the pairing invariant |
| GazeButtonPairing.ApplyKeepsPaired | GVRf/Framework/framework/src/main/java/org/gearvrf/io/GVRGazeCursorController.java:96-151 | every admissible input call or worker step keeps the pairing invariant, for the dispatch as written and with the cancel fix |
| GazeButtonPairing.RunKeepsPaired | GVRf/Framework/framework/src/main/java/org/gearvrf/io/GVRGazeCursorController.java:96-213 | every well-formed interleaving of input calls and worker steps keeps the pairing invariant, for either dispatch |
| GazeButtonPairing.SyntheticButtonsAlternate | GVRf/Framework/framework/src/main/java/org/gearvrf/io/GVRGazeCursorController.java:109-122 | over any well-formed run from an idle button, the reported BUTTON_1 events alternate down, up, down, ...: no button-up without its button-down, no two button-downs without a button-up; as written a press ends only with a release, with the cancel fix also with a cancel |
| GazeButtonPairing.ButtonsAlternateAfterAttach | GVRf/Framework/framework/src/main/java/org/gearvrf/io/GVRGazeCursorController.java:67-77 | the same for every well-formed run started right after the first attach |
| GazeProperties.CancelLeavesButtonAsWritten | GVRf/Framework/framework/src/main/java/org/gearvrf/io/GVRGazeCursorController.java:109-145 | as written, `ACTION_CANCEL` falls through all three branches: the worker's queue and the button flag stay as they were |
| GazeProperties.CancelSettlesButtonIntended | GVRf/Framework/framework/src/main/java/org/gearvrf/io/GVRGazeCursorController.java:116-122 | with the fix, a cancel settles the button as a release does: no button-down pending, a button-up queued exactly when one was reported, the flag cleared |
| GazeButtonPairing.PressCancelPressReports | GVRf/Framework/framework/src/main/java/org/gearvrf/io/GVRGazeCursorController.java:109-122 | from an idle controller, press, worker step, cancel, press, two worker steps report down, down as written and down, up, down with the fix |
| GazeButtonPairing.PressCancelPressWellFormed | GVRf/Framework/framework/src/main/java/org/gearvrf/io/GVRGazeCursorController.java:109-145 | that run is not well formed as written (the second press comes while the first is in progress) and is well formed with the fix |
| GazeButtonPairing.CancelThenPressReportsTwoDowns | GVRf/Framework/framework/src/main/java/org/gearvrf/io/GVRGazeCursorController.java:109-145 | as written, right after the first attach that run reports two button-downs with no button-up between them |
| GazeButtonPairing.CancelThenPressIntended | GVRf/Framework/framework/src/main/java/org/gearvrf/io/GVRGazeCursorController.java:116-122 | with the fix, right after the first attach the same run is well formed and reports down, up, down |

## Left out

- Locks (`synchronized` on the recycler lock and on the position lock): the model is single-threaded, and the worker's concurrency is reduced to interleaving whole worker steps with whole input calls.
- Message timing: the queue is in posting order. The button-down's due time is kept in the message but no clock is modelled, so delivery order by due time and the tap timeout's delay are not modelled.
- `onDrawFrame`: a float 4x4 transform through the camera rig, which is engine code outside this model.
- Float rounding: coordinates and depths are `real`, not IEEE 754 single precision.
- `MotionEvent.obtain` cloning, `setMotionEvent`, `setKeyEvent`, `super.setPosition`, `getNearDepth`, `getFarDepth` and the context's listener calls are not executed; they are entries in the `baseCalls` and `contextCalls` logs, or parameters.
- `GazeCursor.GazeCursorController.DispatchKeyEvent`, `GazeCursor.GazeCursorController.DispatchMotionEvent`, `GazeCursor.GazeCursorController.SetPosition`: before the first attach the Java dereferences a null handler. The model requires the handler instead of modelling the `NullPointerException`.
- `CursorEvents.Recycler.Recycle`: requires that the event is not already in the free list. The Java does not check this, and a second `recycle` of a pooled event links it into a cycle.
- `GazeCursor.GazeCursorController.DecrementReferenceCount`: when a started worker is replaced, the model drops its pending messages with it. `quitSafely` would still deliver those already due. As written the worker is never replaced (see Findings).
- `GazeButtonPairing.SyntheticButtonsAlternate`: excludes key events equal to the synthetic BUTTON_1 down and up events. The base controller could not tell a forwarded one from a synthetic one.
- `GazeButtonPairing.SyntheticButtonsAlternate`: for the code as written, covers only runs in which each press ends with `ACTION_UP` before the next press. A gesture ended by `ACTION_CANCEL` is outside the result, and it does break alternation (see Findings).
- `GazeButtonPairing.SyntheticButtonsAlternate`: treats each worker step as atomic. On the device the looper takes the button-down message off the queue before `handleMessage` sets `buttonDownSent` (line 201). An `ACTION_UP` on the input thread in between (lines 118-121) finds neither the message nor the flag, so no button-up follows that button-down.
- `GazeButtonPairing.ButtonsAlternateAfterAttach`: has the same exclusions as `SyntheticButtonsAlternate`: forwarded key events equal to the synthetic ones, a gesture ended by `ACTION_CANCEL` in the code as written, and worker steps that interleave with input calls.
- The getters (`GetObject`, `IsOver`, `IsColliding`, `GetHitX/Y/Z`, `GetKeyEvent`, `IsActive`, `GetCursor`, `GetMotionEvents`) are field-reading functions with no contract of their own; the setters' contracts state them.
- `KeyEvent` and `MotionEvent` keep only the fields the core reads; scene objects and cursors are opaque identities.

## Findings

The field `threadStarted` is read when attaching, detaching and closing, but nothing ever sets it to true. `dispatchMotionEvent` handles `ACTION_DOWN`, `ACTION_UP` and `ACTION_MOVE` only, so a gesture that Android ends with `ACTION_CANCEL` leaves its button pressed.

| source | as written | input that shows it | evidently intended | confidence | as-written member | corrected member |
|---|---|---|---|---|---|---|
| GVRf/Framework/framework/src/main/java/org/gearvrf/io/GVRGazeCursorController.java:51 | `incrementReferenceCount` starts the worker on every 0-to-1 transition because `threadStarted` stays false; `decrementReferenceCount` and `close` therefore never replace or quit the worker | attach, detach, attach: the second attach calls `start()` on the already started worker, which throws `IllegalThreadStateException` before the listener is registered again | set `threadStarted` when the worker is started, so the last detach quits and replaces it and the next attach starts the new one | not executed | `GazeProperties.ReattachThrows` (and `GazeProperties.AsWrittenReattachThrows` on `GazeCursor.Incremented`) | `GazeCursor.IncrementedIntended`, with `GazeProperties.IntendedLifecycle` and `GazeProperties.ReattachIntended` |
| GVRf/Framework/framework/src/main/java/org/gearvrf/io/GVRGazeCursorController.java:109-145 | `ACTION_CANCEL` matches none of the three branches: a pending button-down stays queued and a reported button-down stays reported, with no button-up | press, let the worker report the button-down, cancel, press again: the worker reports two button-downs with no button-up between them | end the press on a cancel as on a release: drop the pending button-down and queue a button-up if one was reported | not executed | `GazeButtonPairing.CancelThenPressReportsTwoDowns` (with `GazeProperties.CancelLeavesButtonAsWritten`) | `GazeCursor.AfterMotionIntended`, with `GazeProperties.CancelSettlesButtonIntended`, `GazeButtonPairing.SyntheticButtonsAlternate` for `cancelReleases` and `GazeButtonPairing.CancelThenPressIntended` |

The controller class follows the code as written, with `Incremented` and `AfterMotion`. The corrected functions are used only by the lemmas named in the last column. In a run, `cancelReleases` chooses between the as-written dispatch and the corrected one.

/** What each controller operation does to the controller's state, stated on the
    functions that the controller's methods are proved against. */
module GazeProperties {
  import opened HostTypes
  import opened GazeMessages
  import opened GazeCursor

  /** No synthetic button-down is pending. */
  predicate NoPendingDown(q: seq<Message>) {
    forall i :: 0 <= i < |q| ==> q[i].What() != SET_KEY_DOWN
  }

  // ---- dispatchMotionEvent ----

  /** Every motion event is recorded with the base controller and leaves the
      reference count, the listener registration and the worker's lifecycle alone. */
  lemma MotionKeepsLifecycle(g: Gaze, ev: MotionEvent, near: real, far: real)
    requires g.thread.hasHandler || !UsesHandler(g, ev)
    ensures var t := AfterMotion(g, ev, near, far);
      t.baseCalls == g.baseCalls + [SetMotionEventCall(ev)] &&
      t.referenceCount == g.referenceCount && t.threadStarted == g.threadStarted &&
      t.contextCalls == g.contextCalls &&
      t.thread.generation == g.thread.generation && t.thread.status == g.thread.status &&
      t.thread.hasHandler == g.thread.hasHandler
  {
  }

  /** A press records its anchor and schedules exactly one button-down, due one tap timeout
      after the gesture's down time. */
  lemma ActionDownSchedulesButtonDown(g: Gaze, ev: MotionEvent, near: real, far: real)
    requires ev.action == ACTION_DOWN && g.thread.hasHandler && g.thread.status != Quitting
    ensures var t := AfterMotion(g, ev, near, far);
      t.actionDownX == ev.x && t.actionDownY == ev.y && t.actionDownZ == g.setPosition.z &&
      t.thread.queue == g.thread.queue + [SetKeyDownMsg(ev.downTime + TAP_TIMEOUT)] &&
      t.buttonDownSent == g.buttonDownSent && t.setPosition == g.setPosition
  {
  }

  /** A release leaves no button-down pending, posts a button-up exactly when a
      button-down had been reported, and clears that flag. */
  lemma ActionUpSettlesButton(g: Gaze, ev: MotionEvent, near: real, far: real)
    requires ev.action == ACTION_UP && g.thread.hasHandler && g.thread.status != Quitting
    ensures var t := AfterMotion(g, ev, near, far);
      NoPendingDown(t.thread.queue) &&
      t.thread.queue == RemoveMessages(g.thread.queue, SET_KEY_DOWN) + (if g.buttonDownSent then [SetKeyUpMsg] else []) &&
      !t.buttonDownSent &&
      t.actionDownX == g.actionDownX && t.actionDownY == g.actionDownY && t.actionDownZ == g.actionDownZ &&
      t.setPosition == g.setPosition
  {
  }

  /** As written, a cancelled gesture is an "other action": a button-down stays pending
      and a reported one stays reported. */
  lemma CancelLeavesButtonAsWritten(g: Gaze, ev: MotionEvent, near: real, far: real)
    requires ev.action == ACTION_CANCEL
    ensures var t := AfterMotion(g, ev, near, far);
      t.thread == g.thread && t.buttonDownSent == g.buttonDownSent
  {
  }

  /** With the fix, a cancel settles the button as a release does. */
  lemma CancelSettlesButtonIntended(g: Gaze, ev: MotionEvent, near: real, far: real)
    requires ev.action == ACTION_CANCEL && g.thread.hasHandler && g.thread.status != Quitting
    ensures var t := AfterMotionIntended(g, ev, near, far);
      NoPendingDown(t.thread.queue) &&
      t.thread.queue == RemoveMessages(g.thread.queue, SET_KEY_DOWN) + (if g.buttonDownSent then [SetKeyUpMsg] else []) &&
      !t.buttonDownSent && t.baseCalls == g.baseCalls + [SetMotionEventCall(ev)]
  {
  }

  /** A drag moves the cursor's depth by the horizontal distance from the anchor, clamped
      to the near and far depths; the other two coordinates stay. */
  lemma ActionMoveSetsDepth(g: Gaze, ev: MotionEvent, near: real, far: real)
    requires ev.action == ACTION_MOVE && (g.thread.hasHandler || !UsesHandler(g, ev))
    ensures var t := AfterMotion(g, ev, near, far);
      t.setPosition.x == g.setPosition.x && t.setPosition.y == g.setPosition.y &&
      t.setPosition.z == ClampDepth(g.actionDownZ + (ev.x - g.actionDownX) * DEPTH_SENSITIVITY, near, far) &&
      (far <= near ==> far <= t.setPosition.z <= near) &&
      t.actionDownX == g.actionDownX && t.actionDownY == g.actionDownY && t.actionDownZ == g.actionDownZ &&
      t.buttonDownSent == g.buttonDownSent
  {
  }

  /** A drag beyond the touch slop cancels the pending button-down; a smaller one leaves the
      queue as it was; no move adds a message. */
  lemma ActionMoveCancelsDrag(g: Gaze, ev: MotionEvent, near: real, far: real)
    requires ev.action == ACTION_MOVE && (g.thread.hasHandler || !UsesHandler(g, ev))
    ensures var t := AfterMotion(g, ev, near, far);
      t.thread.queue == (if Displacement(g, ev) > TOUCH_SQUARE then RemoveMessages(g.thread.queue, SET_KEY_DOWN)
                         else g.thread.queue) &&
      (Displacement(g, ev) > TOUCH_SQUARE ==> NoPendingDown(t.thread.queue)) &&
      (forall m :: m in t.thread.queue ==> m in g.thread.queue)
  {
  }

  /** Any other action only hands the event to the base controller. */
  lemma OtherActionsOnlyRecord(g: Gaze, ev: MotionEvent, near: real, far: real)
    requires ev.action != ACTION_DOWN && ev.action != ACTION_UP && ev.action != ACTION_MOVE
    ensures AfterMotion(g, ev, near, far) == g.(baseCalls := g.baseCalls + [SetMotionEventCall(ev)])
  {
  }

  /** Cancelling pending button-downs right after posting one gives back the worker as it
      was, when no button-down was pending before. */
  lemma CancelUndoesPost(t: EventHandlerThread, when: int)
    requires t.hasHandler && t.status != Quitting && NoPendingDown(t.queue)
    ensures WithoutPendingDown(Post(t, SetKeyDownMsg(when))) == t
  {
    RemoveMessagesAppend(t.queue, [SetKeyDownMsg(when)], SET_KEY_DOWN);
    assert RemoveMessages([SetKeyDownMsg(when)], SET_KEY_DOWN) == [];
  }

  /** A press followed by a drag beyond the touch slop, before the worker has handled the
      press, leaves the worker and the button flag as they were. */
  lemma PressThenDrag(g: Gaze, down: MotionEvent, move: MotionEvent, near: real, far: real)
    requires g.thread.hasHandler && g.thread.status != Quitting && NoPendingDown(g.thread.queue)
    requires down.action == ACTION_DOWN && move.action == ACTION_MOVE
    requires Displacement(AfterMotion(g, down, near, far), move) > TOUCH_SQUARE
    ensures var b := AfterMotion(AfterMotion(g, down, near, far), move, near, far);
      b.thread == g.thread && b.buttonDownSent == g.buttonDownSent
  {
    var a := AfterMotion(g, down, near, far);
    assert a.thread == Post(g.thread, SetKeyDownMsg(down.downTime + TAP_TIMEOUT));
    assert AfterMotion(a, move, near, far).thread == WithoutPendingDown(a.thread);
    CancelUndoesPost(g.thread, down.downTime + TAP_TIMEOUT);
  }

  /** A press, a drag beyond the touch slop and a release, before the worker has handled the
      press, leave the queue as it was: the scheduled button-down is cancelled and no
      button-up follows, so the gesture reports no button at all. */
  lemma DragSuppressesButton(g: Gaze, down: MotionEvent, move: MotionEvent, up: MotionEvent, near: real, far: real)
    requires g.thread.hasHandler && g.thread.status != Quitting
    requires !g.buttonDownSent && NoPendingDown(g.thread.queue)
    requires down.action == ACTION_DOWN && move.action == ACTION_MOVE && up.action == ACTION_UP
    requires Displacement(AfterMotion(g, down, near, far), move) > TOUCH_SQUARE
    ensures var t := AfterMotion(AfterMotion(AfterMotion(g, down, near, far), move, near, far), up, near, far);
      t.thread.queue == g.thread.queue && !t.buttonDownSent
  {
    PressThenDrag(g, down, move, near, far);
  }

  // ---- dispatchKeyEvent, setPosition ----

  /** A key event is forwarded as exactly one message and changes nothing else. */
  lemma KeyEventForwarded(g: Gaze, key: KeyEvent)
    requires g.thread.hasHandler && g.thread.status != Quitting
    ensures AfterKey(g, key) == g.(thread := g.thread.(queue := g.thread.queue + [SetKeyEventMsg(key)]))
  {
  }

  /** `setPosition` stores the relative position and forwards the same triple as one message. */
  lemma SetPositionForwarded(g: Gaze, x: real, y: real, z: real)
    requires g.thread.hasHandler && g.thread.status != Quitting
    ensures AfterSetPosition(g, x, y, z) ==
      g.(setPosition := Vec3(x, y, z), thread := g.thread.(queue := g.thread.queue + [SetPositionMsg(x, y, z)]))
  {
  }

  // ---- handleMessage ----

  /** The worker consumes the head message; a button-down marks the button as reported and
      emits the gaze button-down, a button-up emits the gaze button-up, and position and
      key messages pass their payload on unchanged. */
  lemma HandleMessageEffects(g: Gaze)
    requires g.thread.queue != []
    ensures var t := AfterHandle(g); var m := g.thread.queue[0];
      (m.SetPositionMsg? ==> Delivered(m) == SetPositionCall(m.x, m.y, m.z)) &&
      (m.SetKeyDownMsg? ==> Delivered(m) == SetKeyEventCall(BUTTON_GAZE_DOWN)) &&
      (m.SetKeyUpMsg? ==> Delivered(m) == SetKeyEventCall(BUTTON_GAZE_UP)) &&
      (m.SetKeyEventMsg? ==> Delivered(m) == SetKeyEventCall(m.key)) &&
      t == g.(thread := g.thread.(queue := g.thread.queue[1..]),
              buttonDownSent := m.SetKeyDownMsg? || g.buttonDownSent,
              baseCalls := g.baseCalls + [Delivered(m)])
  {
  }

  // ---- reference counting and close ----

  /** The listener is registered on the 0-to-1 transition of the count, unless starting the
      worker throws, which happens exactly when the worker was started before but not marked so. */
  lemma IncrementRegistersOnFirstAttach(g: Gaze)
    ensures var (t, outcome) := Incremented(g);
      t.referenceCount == g.referenceCount + 1 &&
      (outcome == ThrewIllegalThreadState <==>
        g.referenceCount == 0 && !g.threadStarted && g.thread.status != NotStarted) &&
      t.contextCalls == g.contextCalls + (if g.referenceCount == 0 && outcome == Returned then [RegisterDrawFrameListener] else [])
  {
  }

  /** The listener is unregistered exactly on the 1-to-0 transition of the count. */
  lemma DecrementUnregistersOnLastDetach(g: Gaze)
    ensures var t := Decremented(g);
      t.referenceCount == g.referenceCount - 1 &&
      t.contextCalls == g.contextCalls + (if g.referenceCount == 1 then [UnregisterDrawFrameListener] else [])
  {
  }

  /** `close` zeroes the count and unregisters only if it was positive. */
  lemma CloseUnregistersIfAttached(g: Gaze)
    ensures var t := Closed(g);
      t.referenceCount == 0 &&
      t.contextCalls == g.contextCalls + (if g.referenceCount > 0 then [UnregisterDrawFrameListener] else [])
  {
  }

  /** The states the code as written can reach: the worker is never marked started, so it is
      never replaced or quit; it has a handler exactly once it runs. */
  ghost predicate AsWrittenReachable(g: Gaze) {
    !g.threadStarted && g.thread.generation == 0 && g.thread.status != Quitting &&
    (g.thread.hasHandler <==> g.thread.status == Running) &&
    (g.thread.queue != [] ==> g.thread.hasHandler)
  }

  /** Every operation as written keeps the worker unmarked, unreplaced and unquit. */
  lemma AsWrittenWorkerNeverReplaced(g: Gaze, ev: MotionEvent, near: real, far: real, key: KeyEvent, x: real, y: real, z: real)
    requires AsWrittenReachable(g)
    ensures AsWrittenReachable(Initial())
    ensures AsWrittenReachable(Incremented(g).0)
    ensures AsWrittenReachable(Decremented(g)) && Decremented(g).thread == g.thread
    ensures AsWrittenReachable(Closed(g)) && Closed(g).thread == g.thread
    ensures g.thread.hasHandler || !UsesHandler(g, ev) ==> AsWrittenReachable(AfterMotion(g, ev, near, far))
    ensures g.thread.hasHandler ==> AsWrittenReachable(AfterKey(g, key)) && AsWrittenReachable(AfterSetPosition(g, x, y, z))
    ensures g.thread.queue != [] ==> AsWrittenReachable(AfterHandle(g))
  {
  }

  /** As written, once the worker has been started, every later 0-to-1 transition of the
      count calls `start()` on it again: it throws and the listener is not registered. */
  lemma AsWrittenReattachThrows(g: Gaze)
    requires AsWrittenReachable(g) && g.referenceCount == 0 && g.thread.status == Running
    ensures Incremented(g).1 == ThrewIllegalThreadState
    ensures Incremented(g).0.contextCalls == g.contextCalls
  {
  }

  /** The concrete case: attach, detach, attach again. */
  lemma ReattachThrows()
    ensures var attached := Incremented(Initial()).0;
            var (again, outcome) := Incremented(Decremented(attached));
      outcome == ThrewIllegalThreadState &&
      again.contextCalls == [RegisterDrawFrameListener, UnregisterDrawFrameListener] &&
      again.referenceCount == 1
  {
  }

  /** With the intended flag update: the flag says whether the current worker was started,
      and a started worker has a handler. */
  ghost predicate LifecycleConsistent(g: Gaze) {
    g.threadStarted == (g.thread.status != NotStarted) &&
    (g.thread.hasHandler <==> g.thread.status != NotStarted)
  }

  /** With the intended flag update no attach throws, every 0-to-1 transition registers the
      listener, the last detach installs a fresh worker, and all operations keep the flag
      consistent with the worker. */
  lemma IntendedLifecycle(g: Gaze)
    requires LifecycleConsistent(g)
    ensures LifecycleConsistent(Initial())
    ensures var (t, outcome) := IncrementedIntended(g);
      outcome == Returned && LifecycleConsistent(t) &&
      t.contextCalls == g.contextCalls + (if g.referenceCount == 0 then [RegisterDrawFrameListener] else [])
    ensures LifecycleConsistent(Decremented(g))
    ensures g.referenceCount == 1 && g.threadStarted ==>
      Decremented(g).thread == NewThread(g.thread.generation + 1)
    ensures LifecycleConsistent(Closed(g))
    ensures g.threadStarted ==> Closed(g).thread.status == Quitting
  {
  }

  /** The concrete case with the intended flag update: attach, detach, attach again
      registers the listener again, on a second, running worker. */
  lemma ReattachIntended()
    ensures var attached := IncrementedIntended(Initial()).0;
            var (again, outcome) := IncrementedIntended(Decremented(attached));
      outcome == Returned &&
      again.contextCalls == [RegisterDrawFrameListener, UnregisterDrawFrameListener, RegisterDrawFrameListener] &&
      again.thread.generation == 1 && again.thread.status == Running && again.thread.hasHandler &&
      again.thread.queue == []
  {
  }
}

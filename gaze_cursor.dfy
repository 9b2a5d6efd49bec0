/** The gaze cursor controller: turns touch-pad motion into a cursor depth and into
    synthetic button events, and hands everything to its worker thread as messages.
    `Gaze` is the controller's state as a value; the `After...` functions give the
    state after each operation, and `GazeCursorController` is the object whose methods
    perform those operations step by step. */
module GazeCursor {
  import opened HostTypes
  import opened GazeMessages

  /** Delay (ms after the gesture's down time) before a press is reported as a button-down. */
  const TAP_TIMEOUT: int := 60
  /** Squared screen distance beyond which a press becomes a drag. */
  const TOUCH_SQUARE: real := 64.0
  /** Depth change per unit of horizontal drag. */
  const DEPTH_SENSITIVITY: real := 0.1

  /** Calls into the base controller, recorded in order: they are its outputs. */
  datatype BaseCall =
    | SetKeyEventCall(key: KeyEvent)
    | SetPositionCall(x: real, y: real, z: real)
    | SetMotionEventCall(event: MotionEvent)

  /** Calls into the engine context, recorded in order. */
  datatype ContextCall = RegisterDrawFrameListener | UnregisterDrawFrameListener

  /** How an operation ended: normally, or with the `IllegalThreadStateException`
      that `Thread.start()` throws for a thread that was started before. */
  datatype Outcome = Returned | ThrewIllegalThreadState

  datatype Gaze = Gaze(
    referenceCount: int,
    buttonDownSent: bool,
    actionDownX: real,
    actionDownY: real,
    actionDownZ: real,
    setPosition: Vec3,
    thread: EventHandlerThread,
    threadStarted: bool,
    contextCalls: seq<ContextCall>,
    baseCalls: seq<BaseCall>)

  /** A newly constructed controller. */
  function Initial(): Gaze {
    Gaze(0, false, 0.0, 0.0, 0.0, Vec3(0.0, 0.0, 0.0), NewThread(0), false, [], [])
  }

  /** The depth clamp of a drag: first against the near depth, then against the far depth.
      With the far bound at or below the near bound the result stays between them and a
      depth already between them is kept; with the bounds the other way round the far
      bound wins. */
  function ClampDepth(z: real, near: real, far: real): (r: real)
    ensures far <= near ==> far <= r <= near
    ensures far <= near && far <= z <= near ==> r == z
    ensures z < far ==> r == far
    ensures far <= near && near <= z ==> r == near
    ensures near < far ==> r == far
  {
    var toNear := if z >= near then near else z;
    if toNear <= far then far else toNear
  }

  /** Squared screen distance of the event from where the press went down. */
  function Displacement(g: Gaze, ev: MotionEvent): real {
    (ev.x - g.actionDownX) * (ev.x - g.actionDownX) + (ev.y - g.actionDownY) * (ev.y - g.actionDownY)
  }

  /** Whether handling the motion event goes through the worker's handler. */
  predicate UsesHandler(g: Gaze, ev: MotionEvent) {
    ev.action == ACTION_DOWN || ev.action == ACTION_UP ||
    (ev.action == ACTION_MOVE && Displacement(g, ev) > TOUCH_SQUARE)
  }

  function WithoutPendingDown(t: EventHandlerThread): EventHandlerThread {
    t.(queue := RemoveMessages(t.queue, SET_KEY_DOWN))
  }

  // ---- The controller's operations as functions of its state ----

  /** `incrementReferenceCount`, as written: the flag `threadStarted` is read but never set. */
  function Incremented(g: Gaze): (Gaze, Outcome) {
    var count := g.referenceCount + 1;
    if count != 1 then (g.(referenceCount := count), Returned)
    else if !g.threadStarted && g.thread.status != NotStarted then
      (g.(referenceCount := count), ThrewIllegalThreadState)
    else
      var t := if g.threadStarted then g.thread else g.thread.(status := Running, hasHandler := true);
      (g.(referenceCount := count, thread := t,
          contextCalls := g.contextCalls + [RegisterDrawFrameListener]), Returned)
  }

  /** `decrementReferenceCount`: the last detach unregisters, and replaces the worker if it was started. */
  function Decremented(g: Gaze): Gaze {
    var count := g.referenceCount - 1;
    if count != 0 then g.(referenceCount := count)
    else
      var unregistered := g.(referenceCount := count,
                             contextCalls := g.contextCalls + [UnregisterDrawFrameListener]);
      if g.threadStarted then unregistered.(thread := NewThread(g.thread.generation + 1), threadStarted := false)
      else unregistered
  }

  /** `close`. */
  function Closed(g: Gaze): Gaze {
    var calls := if g.referenceCount > 0 then g.contextCalls + [UnregisterDrawFrameListener] else g.contextCalls;
    var t := if g.threadStarted then g.thread.(status := Quitting) else g.thread;
    g.(referenceCount := 0, contextCalls := calls, thread := t)
  }

  /** The `ACTION_DOWN` branch: anchor the gesture and schedule the button-down. */
  function Pressed(g: Gaze, ev: MotionEvent): Gaze
    requires g.thread.hasHandler
  {
    g.(actionDownX := ev.x, actionDownY := ev.y, actionDownZ := g.setPosition.z,
       thread := Post(g.thread, SetKeyDownMsg(ev.downTime + TAP_TIMEOUT)))
  }

  /** The `ACTION_UP` branch: cancel a pending button-down, and release a reported one. */
  function Released(g: Gaze): Gaze
    requires g.thread.hasHandler
  {
    if g.buttonDownSent then
      g.(thread := Post(WithoutPendingDown(g.thread), SetKeyUpMsg), buttonDownSent := false)
    else g.(thread := WithoutPendingDown(g.thread))
  }

  /** The `ACTION_MOVE` branch: move the depth, and cancel a pending button-down once the
      drag leaves the touch slop. */
  function Dragged(g: Gaze, ev: MotionEvent, near: real, far: real): Gaze
    requires g.thread.hasHandler || Displacement(g, ev) <= TOUCH_SQUARE
  {
    var z := ClampDepth(g.actionDownZ + (ev.x - g.actionDownX) * DEPTH_SENSITIVITY, near, far);
    var moved := g.(setPosition := g.setPosition.(z := z));
    if Displacement(g, ev) > TOUCH_SQUARE then moved.(thread := WithoutPendingDown(g.thread))
    else moved
  }

  /** `dispatchMotionEvent`, with the base controller's near and far depths as parameters:
      the action's branch, then the event goes to the base controller. */
  function AfterMotion(g: Gaze, ev: MotionEvent, near: real, far: real): Gaze
    requires g.thread.hasHandler || !UsesHandler(g, ev)
  {
    var handled :=
      if ev.action == ACTION_DOWN then Pressed(g, ev)
      else if ev.action == ACTION_UP then Released(g)
      else if ev.action == ACTION_MOVE then Dragged(g, ev, near, far)
      else g;
    handled.(baseCalls := handled.baseCalls + [SetMotionEventCall(ev)])
  }

  /** `dispatchKeyEvent`. */
  function AfterKey(g: Gaze, key: KeyEvent): Gaze
    requires g.thread.hasHandler
  {
    g.(thread := Post(g.thread, SetKeyEventMsg(key)))
  }

  /** `setPosition`. */
  function AfterSetPosition(g: Gaze, x: real, y: real, z: real): Gaze
    requires g.thread.hasHandler
  {
    g.(setPosition := Vec3(x, y, z), thread := Post(g.thread, SetPositionMsg(x, y, z)))
  }

  /** What the worker's `handleMessage` hands to the base controller for a message: the
      gaze button events for the synthetic button messages, the payload for the others. */
  function Delivered(m: Message): BaseCall {
    match m
    case SetPositionMsg(x, y, z) => SetPositionCall(x, y, z)
    case SetKeyDownMsg(_) => SetKeyEventCall(BUTTON_GAZE_DOWN)
    case SetKeyUpMsg => SetKeyEventCall(BUTTON_GAZE_UP)
    case SetKeyEventMsg(key) => SetKeyEventCall(key)
  }

  /** The worker's `handleMessage` applied to the message at the head of the queue;
      only a button-down marks the button as reported. */
  function AfterHandle(g: Gaze): Gaze
    requires g.thread.queue != []
  {
    var m := g.thread.queue[0];
    g.(thread := g.thread.(queue := g.thread.queue[1..]),
       buttonDownSent := m.SetKeyDownMsg? || g.buttonDownSent,
       baseCalls := g.baseCalls + [Delivered(m)])
  }

  /** `incrementReferenceCount` as evidently intended: the worker is marked started once
      it has been started, so that the last detach replaces it and `close` quits it. */
  function IncrementedIntended(g: Gaze): (Gaze, Outcome) {
    var (h, outcome) := Incremented(g);
    if g.referenceCount + 1 == 1 && !g.threadStarted && outcome == Returned then (h.(threadStarted := true), outcome)
    else (h, outcome)
  }

  /** `dispatchMotionEvent` as evidently intended: a cancelled gesture ends the press as a
      release does, so a pending button-down is dropped and a reported one is released. */
  function AfterMotionIntended(g: Gaze, ev: MotionEvent, near: real, far: real): Gaze
    requires g.thread.hasHandler || (!UsesHandler(g, ev) && ev.action != ACTION_CANCEL)
  {
    if ev.action == ACTION_CANCEL then Released(g).(baseCalls := g.baseCalls + [SetMotionEventCall(ev)])
    else AfterMotion(g, ev, near, far)
  }

  // ---- The controller object ----

  class GazeCursorController {
    var referenceCount: int
    var buttonDownSent: bool
    var actionDownX: real
    var actionDownY: real
    var actionDownZ: real
    /** The cursor position relative to the camera. */
    var setPosition: Vec3
    var thread: EventHandlerThread
    var threadStarted: bool
    var contextCalls: seq<ContextCall>
    var baseCalls: seq<BaseCall>

    function State(): Gaze
      reads this
    {
      Gaze(referenceCount, buttonDownSent, actionDownX, actionDownY, actionDownZ,
           setPosition, thread, threadStarted, contextCalls, baseCalls)
    }

    constructor ()
      ensures State() == Initial()
    {
      referenceCount := 0;
      buttonDownSent := false;
      actionDownX, actionDownY, actionDownZ := 0.0, 0.0, 0.0;
      setPosition := Vec3(0.0, 0.0, 0.0);
      thread := NewThread(0);
      threadStarted := false;
      contextCalls, baseCalls := [], [];
    }

    method IncrementReferenceCount() returns (outcome: Outcome)
      modifies this
      ensures (State(), outcome) == Incremented(old(State()))
    {
      referenceCount := referenceCount + 1;
      if referenceCount == 1 {
        if !threadStarted {
          if thread.status != NotStarted {
            // thread.start() on a thread that has been started before
            outcome := ThrewIllegalThreadState;
            return;
          }
          thread := thread.(status := Running);   // thread.start()
          thread := thread.(hasHandler := true);  // thread.prepareHandler()
        }
        contextCalls := contextCalls + [RegisterDrawFrameListener];
      }
      outcome := Returned;
    }

    method DecrementReferenceCount()
      modifies this
      ensures State() == Decremented(old(State()))
    {
      referenceCount := referenceCount - 1;
      if referenceCount == 0 {
        contextCalls := contextCalls + [UnregisterDrawFrameListener];
        if threadStarted {
          thread := NewThread(thread.generation + 1);  // quitSafely, then a new thread
          threadStarted := false;
        }
      }
    }

    method Close()
      modifies this
      ensures State() == Closed(old(State()))
    {
      if referenceCount > 0 {
        contextCalls := contextCalls + [UnregisterDrawFrameListener];
      }
      referenceCount := 0;
      if threadStarted {
        thread := thread.(status := Quitting);  // quitSafely
      }
    }

    method DispatchKeyEvent(key: KeyEvent) returns (handled: bool)
      requires thread.hasHandler
      modifies this
      ensures handled && State() == AfterKey(old(State()), key)
    {
      thread := Post(thread, SetKeyEventMsg(key));
      handled := true;
    }

    method DispatchMotionEvent(ev: MotionEvent, near: real, far: real) returns (handled: bool)
      requires thread.hasHandler || !UsesHandler(State(), ev)
      modifies this
      ensures handled && State() == AfterMotion(old(State()), ev, near, far)
    {
      ghost var g := State();
      if ev.action == ACTION_DOWN {
        actionDownX := ev.x;
        actionDownY := ev.y;
        actionDownZ := setPosition.z;
        thread := Post(thread, SetKeyDownMsg(ev.downTime + TAP_TIMEOUT));
        assert State() == Pressed(g, ev);
      } else if ev.action == ACTION_UP {
        thread := thread.(queue := RemoveMessages(thread.queue, SET_KEY_DOWN));
        if buttonDownSent {
          thread := Post(thread, SetKeyUpMsg);
          buttonDownSent := false;
        }
        assert State() == Released(g);
      } else if ev.action == ACTION_MOVE {
        var deltaX := ev.x - actionDownX;
        var deltaY := ev.y - actionDownY;
        var eventZ := actionDownZ + deltaX * DEPTH_SENSITIVITY;
        if eventZ >= near {
          eventZ := near;
        }
        if eventZ <= far {
          eventZ := far;
        }
        assert eventZ == ClampDepth(g.actionDownZ + (ev.x - g.actionDownX) * DEPTH_SENSITIVITY, near, far);
        setPosition := setPosition.(z := eventZ);
        var distance := deltaX * deltaX + deltaY * deltaY;
        assert distance == Displacement(g, ev);
        if distance > TOUCH_SQUARE {
          thread := thread.(queue := RemoveMessages(thread.queue, SET_KEY_DOWN));
        }
        assert State() == Dragged(g, ev, near, far);
      }
      baseCalls := baseCalls + [SetMotionEventCall(ev)];
      handled := true;
    }

    method SetPosition(x: real, y: real, z: real)
      requires thread.hasHandler
      modifies this
      ensures State() == AfterSetPosition(old(State()), x, y, z)
    {
      setPosition := Vec3(x, y, z);
      thread := Post(thread, SetPositionMsg(x, y, z));
    }

    /** One step of the worker: take the message at the head of the queue and handle it. */
    method HandleMessage()
      requires thread.queue != []
      modifies this
      ensures State() == AfterHandle(old(State()))
    {
      var msg := thread.queue[0];
      thread := thread.(queue := thread.queue[1..]);
      match msg
      case SetPositionMsg(x, y, z) =>
        baseCalls := baseCalls + [SetPositionCall(x, y, z)];
      case SetKeyDownMsg(_) =>
        buttonDownSent := true;
        baseCalls := baseCalls + [SetKeyEventCall(BUTTON_GAZE_DOWN)];
      case SetKeyUpMsg =>
        baseCalls := baseCalls + [SetKeyEventCall(BUTTON_GAZE_UP)];
      case SetKeyEventMsg(key) =>
        baseCalls := baseCalls + [SetKeyEventCall(key)];
    }
  }
}

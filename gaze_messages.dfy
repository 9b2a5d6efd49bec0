/** The gaze controller's worker: its message kinds, its handler's queue and the
    queue operations the controller uses (post, and remove by tag). */
module GazeMessages {
  import opened HostTypes

  /** The `what` tags of the worker's messages. */
  const SET_POSITION: int := 0
  const SET_KEY_EVENT: int := 1
  const SET_KEY_DOWN: int := 2
  const SET_KEY_UP: int := 3

  /** The synthetic button events the worker reports. */
  const BUTTON_GAZE_DOWN: KeyEvent := KeyEvent(KEY_ACTION_DOWN, KEYCODE_BUTTON_1)
  const BUTTON_GAZE_UP: KeyEvent := KeyEvent(KEY_ACTION_UP, KEYCODE_BUTTON_1)

  /** A message on the worker's queue. Only the synthetic button-down is posted for a
      later time (`when`); the others are posted to be handled as soon as possible. */
  datatype Message =
    | SetPositionMsg(x: real, y: real, z: real)
    | SetKeyEventMsg(key: KeyEvent)
    | SetKeyDownMsg(when: int)
    | SetKeyUpMsg
  {
    function What(): int {
      match this
      case SetPositionMsg(_, _, _) => SET_POSITION
      case SetKeyEventMsg(_) => SET_KEY_EVENT
      case SetKeyDownMsg(_) => SET_KEY_DOWN
      case SetKeyUpMsg => SET_KEY_UP
    }
  }

  /** The handler's `removeMessages(what)`: drops every pending message with that tag
      and keeps the others in their order. */
  function RemoveMessages(q: seq<Message>, what: int): (r: seq<Message>)
    ensures |r| <= |q|
    ensures forall i :: 0 <= i < |r| ==> r[i].What() != what
    ensures forall m :: m in r <==> m in q && m.What() != what
    ensures (forall i :: 0 <= i < |q| ==> q[i].What() != what) ==> r == q
  {
    if q == [] then []
    else if q[0].What() == what then RemoveMessages(q[1..], what)
    else [q[0]] + RemoveMessages(q[1..], what)
  }

  /** Removing by tag distributes over concatenation of queues. */
  lemma {:induction false} RemoveMessagesAppend(a: seq<Message>, b: seq<Message>, what: int)
    ensures RemoveMessages(a + b, what) == RemoveMessages(a, what) + RemoveMessages(b, what)
  {
    if a == [] {
      assert a + b == b;
    } else {
      assert (a + b)[0] == a[0];
      assert (a + b)[1..] == a[1..] + b;
      RemoveMessagesAppend(a[1..], b, what);
    }
  }

  datatype ThreadStatus = NotStarted | Running | Quitting

  /** One `EventHandlerThread` object: which one it is (`generation` counts the threads
      the controller has created), its lifecycle, whether `prepareHandler` has created
      its handler, and the messages pending on its looper, in the order they were posted. */
  datatype EventHandlerThread =
    EventHandlerThread(generation: nat, status: ThreadStatus, hasHandler: bool, queue: seq<Message>)

  /** `new EventHandlerThread()`: not started, no handler, nothing pending. */
  function NewThread(generation: nat): EventHandlerThread {
    EventHandlerThread(generation, NotStarted, false, [])
  }

  /** Sending through the handler: a looper that is quitting refuses the message;
      otherwise it joins the end of the queue. */
  function Post(t: EventHandlerThread, m: Message): EventHandlerThread
    requires t.hasHandler
  {
    if t.status == Quitting then t else t.(queue := t.queue + [m])
  }
}

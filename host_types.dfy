/** Values of the host runtime (Android input events) and of the engine (scene objects,
    cursors, JOML vectors) that the cursor code only stores, compares and passes on. */
module HostTypes {

  /** Java's nullable reference, for the fields that may hold null. */
  datatype Option<T> = None | Some(value: T)

  /** A JOML `Vector3f` as a value; float coordinates are modelled as reals. */
  datatype Vec3 = Vec3(x: real, y: real, z: real)

  /** `android.view.KeyEvent`, reduced to the action and key code its two-argument constructor takes. */
  datatype KeyEvent = KeyEvent(action: int, keyCode: int)

  const KEY_ACTION_DOWN: int := 0
  const KEY_ACTION_UP: int := 1
  const KEYCODE_BUTTON_1: int := 188

  /** `android.view.MotionEvent`: the value of `getAction()`, the screen coordinates and
      the down time (milliseconds) of the gesture it belongs to. */
  datatype MotionEvent = MotionEvent(action: int, x: real, y: real, downTime: int)

  const ACTION_DOWN: int := 0
  const ACTION_UP: int := 1
  const ACTION_MOVE: int := 2
  const ACTION_CANCEL: int := 3

  /** Engine objects an event refers to; only their identity matters here. */
  datatype SceneObject = SceneObject(id: nat)
  datatype Cursor = Cursor(id: nat)
}

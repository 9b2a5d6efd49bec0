/** The short-lived cursor event and the bounded, intrusive free list that recycles it. */
module CursorEvents {
  import opened HostTypes

  /** At most this many events are kept for reuse. */
  const MAX_RECYCLED: int := 5

  /** Everything an event carries for its listener; `Obtain` hands it back as it was left. */
  datatype Payload = Payload(
    isActive: bool,
    isColliding: bool,
    hitPoint: Vec3,
    isOver: bool,
    sceneObject: Option<SceneObject>,
    cursor: Option<Cursor>,
    keyEvent: Option<KeyEvent>,
    motionEvents: Option<seq<MotionEvent>>)

  /** The payload of a newly constructed event: hit point at the origin, flags false, references null. */
  const PRISTINE: Payload :=
    Payload(false, false, Vec3(0.0, 0.0, 0.0), false, None, None, None, None)

  class CursorEvent {
    var isActive: bool
    var isColliding: bool
    var hitPoint: Vec3
    var isOver: bool
    var sceneObject: Option<SceneObject>
    var cursor: Option<Cursor>
    var keyEvent: Option<KeyEvent>
    var motionEvents: Option<seq<MotionEvent>>
    /** The intrusive link of the free list. */
    var next: CursorEvent?

    function GetPayload(): Payload
      reads this
    {
      Payload(isActive, isColliding, hitPoint, isOver, sceneObject, cursor, keyEvent, motionEvents)
    }

    constructor ()
      ensures GetPayload() == PRISTINE && next == null
    {
      isActive, isColliding, isOver := false, false, false;
      hitPoint := Vec3(0.0, 0.0, 0.0);
      sceneObject, cursor, keyEvent, motionEvents := None, None, None, None;
      next := null;
    }

    // Setters: each one writes its own field and nothing else (the field frames say so).

    method SetActive(value: bool)
      modifies this`isActive
      ensures IsActive() == value
    {
      isActive := value;
    }

    method SetColliding(value: bool)
      modifies this`isColliding
      ensures IsColliding() == value
    {
      isColliding := value;
    }

    method SetCursor(value: Option<Cursor>)
      modifies this`cursor
      ensures GetCursor() == value
    {
      cursor := value;
    }

    method SetHitPoint(hitX: real, hitY: real, hitZ: real)
      modifies this`hitPoint
      ensures GetHitX() == hitX && GetHitY() == hitY && GetHitZ() == hitZ
    {
      hitPoint := Vec3(hitX, hitY, hitZ);
    }

    method SetKeyEvent(value: Option<KeyEvent>)
      modifies this`keyEvent
      ensures GetKeyEvent() == value
    {
      keyEvent := value;
    }

    method SetObject(value: Option<SceneObject>)
      modifies this`sceneObject
      ensures GetObject() == value
    {
      sceneObject := value;
    }

    method SetOver(value: bool)
      modifies this`isOver
      ensures IsOver() == value
    {
      isOver := value;
    }

    method SetMotionEvents(value: Option<seq<MotionEvent>>)
      modifies this`motionEvents
      ensures GetMotionEvents() == value
    {
      motionEvents := value;
    }

    // Getters: plain reads of one field each.

    function GetObject(): Option<SceneObject> reads this`sceneObject { sceneObject }
    predicate IsOver() reads this`isOver { isOver }
    predicate IsColliding() reads this`isColliding { isColliding }
    function GetHitX(): real reads this`hitPoint { hitPoint.x }
    function GetHitY(): real reads this`hitPoint { hitPoint.y }
    function GetHitZ(): real reads this`hitPoint { hitPoint.z }
    function GetKeyEvent(): Option<KeyEvent> reads this`keyEvent { keyEvent }
    predicate IsActive() reads this`isActive { isActive }
    function GetCursor(): Option<Cursor> reads this`cursor { cursor }
    function GetMotionEvents(): Option<seq<MotionEvent>> reads this`motionEvents { motionEvents }

    /** The deprecated array form of the hit point: a new three-element array on every call. */
    method GetHitPoint() returns (a: array<real>)
      ensures fresh(a)
      ensures a[..] == [GetHitX(), GetHitY(), GetHitZ()]
    {
      a := new real[3];
      a[0], a[1], a[2] := hitPoint.x, hitPoint.y, hitPoint.z;
    }
  }

  /** The static recycling state of `CursorEvent`: the head of the free list and its length.
      `chain` is the list the links spell out, head first. */
  class Recycler {
    var recyclerTop: CursorEvent?
    var recyclerUsed: int
    ghost var chain: seq<CursorEvent>

    /** The count equals the length of the chain from the head, never exceeds
        the cap, and the links run through distinct events and end in null. */
    ghost predicate Valid()
      reads this, chain
    {
      0 <= recyclerUsed <= MAX_RECYCLED && recyclerUsed == |chain| &&
      recyclerTop == (if chain == [] then null else chain[0]) &&
      (forall i :: 0 <= i < |chain| - 1 ==> chain[i].next == chain[i + 1]) &&
      (chain != [] ==> chain[|chain| - 1].next == null) &&
      (forall i, j :: 0 <= i < j < |chain| ==> chain[i] != chain[j])
    }

    /** The class initialiser: an empty free list. */
    constructor ()
      ensures Valid() && chain == [] && recyclerTop == null && recyclerUsed == 0
    {
      recyclerTop := null;
      recyclerUsed := 0;
      chain := [];
    }

    /** Hands out an event: the head of the free list, or a new one when the list is empty.
        A reused event keeps every payload field from its previous use. */
    method Obtain() returns (e: CursorEvent)
      requires Valid()
      modifies this, (if chain == [] then [] else chain[..1])`next
      ensures Valid() && e !in chain && e.next == null
      ensures old(chain) == [] ==>
        fresh(e) && e.GetPayload() == PRISTINE &&
        chain == [] && recyclerTop == null && recyclerUsed == old(recyclerUsed)
      ensures old(chain) != [] ==>
        e == old(chain[0]) && chain == old(chain[1..]) &&
        recyclerTop == old(chain[0].next) && recyclerUsed == old(recyclerUsed) - 1 &&
        e.GetPayload() == old(chain[0].GetPayload())
    {
      var top := recyclerTop;
      if top == null {
        e := new CursorEvent();
        return;
      }
      ghost var c := chain;
      assert c[0] == top;
      assert forall i :: 1 <= i < |c| ==> c[i] != top;
      recyclerTop := top.next;
      recyclerUsed := recyclerUsed - 1;
      chain := c[1..];
      top.next := null;
      e := top;
    }

    /** Returns an event to the free list if the list is below the cap; otherwise drops it. */
    method Recycle(e: CursorEvent)
      requires Valid() && e !in chain
      modifies this, e`next
      ensures Valid()
      ensures old(recyclerUsed) < MAX_RECYCLED ==>
        chain == [e] + old(chain) && recyclerTop == e &&
        recyclerUsed == old(recyclerUsed) + 1 && e.next == old(recyclerTop)
      ensures old(recyclerUsed) >= MAX_RECYCLED ==>
        chain == old(chain) && recyclerTop == old(recyclerTop) &&
        recyclerUsed == old(recyclerUsed) && e.next == old(e.next)
    {
      if recyclerUsed < MAX_RECYCLED {
        recyclerUsed := recyclerUsed + 1;
        e.next := recyclerTop;
        recyclerTop := e;
        chain := [e] + chain;
        assert forall i :: 1 <= i < |chain| ==> chain[i] == old(chain[i - 1]) && chain[i] != e;
      }
    }
  }

  /** Recycling an event into a pool below the cap and obtaining again gives back the
      same event, with its payload untouched and the pool as it was before. */
  method RecycleThenObtain(pool: Recycler, e: CursorEvent) returns (r: CursorEvent)
    requires pool.Valid() && e !in pool.chain && pool.recyclerUsed < MAX_RECYCLED
    modifies pool, e`next
    ensures pool.Valid() && r == e && r.next == null
    ensures pool.chain == old(pool.chain) && pool.recyclerTop == old(pool.recyclerTop)
    ensures pool.recyclerUsed == old(pool.recyclerUsed)
    ensures r.GetPayload() == old(e.GetPayload())
  {
    pool.Recycle(e);
    r := pool.Obtain();
  }
}

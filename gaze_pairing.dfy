/** Button pairing over whole runs: whatever the interleaving of input calls and worker
    steps, the synthetic button events the worker reports alternate down, up, down, up, ...
    as long as every press is released before the next one. */
module GazeButtonPairing {
  import opened HostTypes
  import opened GazeMessages
  import opened GazeCursor

  datatype Button = Down | Up

  /** The synthetic button events pending in a queue, in order. */
  function QueuedButtons(q: seq<Message>): seq<Button> {
    if q == [] then [] else MessageButtons(q[0]) + QueuedButtons(q[1..])
  }

  function MessageButtons(m: Message): seq<Button> {
    match m
    case SetKeyDownMsg(_) => [Down]
    case SetKeyUpMsg => [Up]
    case _ => []
  }

  /** The synthetic button events already reported to the base controller, in order. */
  function EmittedButtons(calls: seq<BaseCall>): seq<Button> {
    if calls == [] then [] else EmittedButtons(calls[..|calls| - 1]) + CallButtons(calls[|calls| - 1])
  }

  function CallButtons(c: BaseCall): seq<Button> {
    if c == SetKeyEventCall(BUTTON_GAZE_DOWN) then [Down]
    else if c == SetKeyEventCall(BUTTON_GAZE_UP) then [Up]
    else []
  }

  /** Down first, then strictly alternating. */
  predicate Alternating(s: seq<Button>) {
    forall i :: 0 <= i < |s| ==> s[i] == if i % 2 == 0 then Down else Up
  }

  /** The drop of every Down, as removing the pending button-downs does to the queue. */
  function DropDowns(s: seq<Button>): seq<Button> {
    if s == [] then [] else (if s[0] == Down then [] else [s[0]]) + DropDowns(s[1..])
  }

  // ---- Runs ----

  /** One step of a run: an input call on the controller, or one worker step. */
  datatype Step =
    | Motion(event: MotionEvent, near: real, far: real)
    | Key(key: KeyEvent)
    | Position(x: real, y: real, z: real)
    | WorkerStep

  /** One step of a run, with motion dispatched as written or, when `cancelReleases`,
      as evidently intended; a worker step with nothing pending leaves the state as it is. */
  function Apply(g: Gaze, s: Step, cancelReleases: bool): (t: Gaze)
    requires g.thread.hasHandler
    ensures t.thread.hasHandler && t.thread.status == g.thread.status
  {
    match s
    case Motion(ev, near, far) =>
      if cancelReleases then AfterMotionIntended(g, ev, near, far) else AfterMotion(g, ev, near, far)
    case Key(k) => AfterKey(g, k)
    case Position(x, y, z) => AfterSetPosition(g, x, y, z)
    case WorkerStep => if g.thread.queue == [] then g else AfterHandle(g)
  }

  function Run(g: Gaze, steps: seq<Step>, cancelReleases: bool): Gaze
    requires g.thread.hasHandler
    decreases |steps|
  {
    if steps == [] then g else Run(Apply(g, steps[0], cancelReleases), steps[1..], cancelReleases)
  }

  /** Whether a press is in progress after the step: a release ends it, and so does a
      cancel when the dispatch treats a cancel as a release. */
  function PressedAfter(s: Step, pressed: bool, cancelReleases: bool): bool {
    match s
    case Motion(ev, _, _) =>
      if ev.action == ACTION_DOWN then true
      else if ev.action == ACTION_UP || (cancelReleases && ev.action == ACTION_CANCEL) then false
      else pressed
    case _ => pressed
  }

  /** No press while a press is in progress, and no forwarded key event that equals a
      synthetic button event (the base controller could not tell the two apart). */
  predicate Admissible(s: Step, pressed: bool) {
    match s
    case Motion(ev, _, _) => !(ev.action == ACTION_DOWN && pressed)
    case Key(k) => k != BUTTON_GAZE_DOWN && k != BUTTON_GAZE_UP
    case _ => true
  }

  predicate WellFormed(steps: seq<Step>, pressed: bool, cancelReleases: bool)
    decreases |steps|
  {
    steps == [] ||
    (Admissible(steps[0], pressed) &&
     WellFormed(steps[1..], PressedAfter(steps[0], pressed, cancelReleases), cancelReleases))
  }

  function PressedAfterAll(steps: seq<Step>, pressed: bool, cancelReleases: bool): bool
    decreases |steps|
  {
    if steps == [] then pressed
    else PressedAfterAll(steps[1..], PressedAfter(steps[0], pressed, cancelReleases), cancelReleases)
  }

  // ---- The invariant ----

  function Pending(g: Gaze): seq<Button> { QueuedButtons(g.thread.queue) }

  function Reported(g: Gaze): seq<Button> { EmittedButtons(g.baseCalls) }

  /** The button state in terms of what was reported, what is pending and the controller's
      flag: the reported events followed by the pending ones alternate, and the state is one of
      - idle: no button-down pending or reported (a button-up may still be queued);
      - down pending: a press whose button-down is still queued;
      - down reported: a press whose button-down has been reported and not yet released.
      Only a press in progress can be in the last two. */
  ghost predicate Balanced(reported: seq<Button>, pending: seq<Button>, down: bool, pressed: bool) {
    var all := reported + pending;
    Alternating(all) &&
    (((pending == [] || pending == [Up]) && !down && |all| % 2 == 0) ||
     (pressed && (pending == [Down] || pending == [Up, Down]) && !down && |all| % 2 == 1) ||
     (pressed && pending == [] && down && |all| % 2 == 1))
  }

  /** No forwarded key event on the queue poses as a synthetic button event. */
  predicate Unforged(q: seq<Message>) {
    SetKeyEventMsg(BUTTON_GAZE_DOWN) !in q && SetKeyEventMsg(BUTTON_GAZE_UP) !in q
  }

  ghost predicate Paired(g: Gaze, pressed: bool) {
    g.thread.hasHandler && g.thread.status != Quitting && Unforged(g.thread.queue) &&
    Balanced(Reported(g), Pending(g), g.buttonDownSent, pressed)
  }

  // ---- The invariant on button sequences ----

  lemma AlternatingPrefix(s: seq<Button>, k: nat)
    requires Alternating(s) && k <= |s|
    ensures Alternating(s[..k])
  {
  }

  /** A press queues a button-down behind whatever is pending. */
  lemma BalancedPress(reported: seq<Button>, pending: seq<Button>, down: bool)
    requires Balanced(reported, pending, down, false)
    ensures Balanced(reported, pending + [Down], down, true)
  {
    assert reported + (pending + [Down]) == (reported + pending) + [Down];
  }

  lemma DropDownsSmall()
    ensures DropDowns([]) == [] && DropDowns([Up]) == [Up]
    ensures DropDowns([Down]) == [] && DropDowns([Up, Down]) == [Up]
  {
    assert [Up][1..] == [];
    assert [Down][1..] == [];
    assert [Up, Down][1..] == [Down];
  }

  /** Cancelling the pending button-down (a drag) returns a press to idle. */
  lemma BalancedCancel(reported: seq<Button>, pending: seq<Button>, down: bool, pressed: bool)
    requires Balanced(reported, pending, down, pressed)
    ensures Balanced(reported, DropDowns(pending), down, pressed)
  {
    DropDownsSmall();
    var all := reported + pending;
    if pending == [Down] || pending == [Up, Down] {
      assert reported + DropDowns(pending) == all[..|all| - 1];
      AlternatingPrefix(all, |all| - 1);
    }
  }

  /** A release cancels the pending button-down and, if the button-down was reported,
      queues the matching button-up. */
  lemma BalancedRelease(reported: seq<Button>, pending: seq<Button>, down: bool, pressed: bool)
    requires Balanced(reported, pending, down, pressed)
    ensures Balanced(reported, DropDowns(pending) + (if down then [Up] else []), false, false)
  {
    DropDownsSmall();
    var all := reported + pending;
    if down {
      assert pending == [];
      assert reported + ([] + [Up]) == all + [Up];
    } else {
      assert DropDowns(pending) + [] == DropDowns(pending);
      BalancedCancel(reported, pending, down, pressed);
    }
  }

  /** The worker moving the head of the queue into the reported events. */
  lemma BalancedHandle(reported: seq<Button>, head: seq<Button>, rest: seq<Button>, down: bool, pressed: bool)
    requires head == [] || head == [Down] || head == [Up]
    requires Balanced(reported, head + rest, down, pressed)
    ensures Balanced(reported + head, rest, down || head == [Down], pressed)
  {
    assert (reported + head) + rest == reported + (head + rest);
    if head == [Down] {
      assert (head + rest)[0] == Down;
      assert head + rest == [Down];
      assert rest == [];
    } else if head == [Up] {
      assert (head + rest)[1..] == rest;
    } else {
      assert head + rest == rest;
    }
  }

  // ---- Facts about the projections ----

  lemma QueuedButtonsCons(m: Message, q: seq<Message>)
    ensures QueuedButtons([m] + q) == MessageButtons(m) + QueuedButtons(q)
  {
    assert ([m] + q)[1..] == q;
  }

  lemma {:induction false} QueuedButtonsAppend(a: seq<Message>, b: seq<Message>)
    ensures QueuedButtons(a + b) == QueuedButtons(a) + QueuedButtons(b)
    decreases |a|
  {
    if a == [] {
      assert a + b == b;
    } else {
      assert a + b == [a[0]] + (a[1..] + b);
      QueuedButtonsCons(a[0], a[1..] + b);
      QueuedButtonsAppend(a[1..], b);
    }
  }

  lemma QueuedButtonsPost(q: seq<Message>, m: Message)
    ensures QueuedButtons(q + [m]) == QueuedButtons(q) + MessageButtons(m)
  {
    QueuedButtonsAppend(q, [m]);
    QueuedButtonsCons(m, []);
    assert [m] + [] == [m];
  }

  lemma DropDownsCons(b: Button, s: seq<Button>)
    ensures DropDowns([b] + s) == (if b == Down then [] else [b]) + DropDowns(s)
  {
    assert ([b] + s)[1..] == s;
  }

  lemma {:induction false} QueuedButtonsRemoveDowns(q: seq<Message>)
    ensures QueuedButtons(RemoveMessages(q, SET_KEY_DOWN)) == DropDowns(QueuedButtons(q))
    decreases |q|
  {
    if q != [] {
      var m := q[0];
      var r := RemoveMessages(q[1..], SET_KEY_DOWN);
      QueuedButtonsRemoveDowns(q[1..]);
      assert QueuedButtons(q) == MessageButtons(m) + QueuedButtons(q[1..]);
      if m.What() == SET_KEY_DOWN {
        assert MessageButtons(m) == [Down];
        DropDownsCons(Down, QueuedButtons(q[1..]));
      } else {
        assert RemoveMessages(q, SET_KEY_DOWN) == [m] + r;
        QueuedButtonsCons(m, r);
        if MessageButtons(m) == [Up] {
          DropDownsCons(Up, QueuedButtons(q[1..]));
        } else {
          assert MessageButtons(m) == [];
          assert QueuedButtons(q) == QueuedButtons(q[1..]);
          assert QueuedButtons([m] + r) == QueuedButtons(r);
        }
      }
    }
  }

  lemma EmittedButtonsAppend(calls: seq<BaseCall>, c: BaseCall)
    ensures EmittedButtons(calls + [c]) == EmittedButtons(calls) + CallButtons(c)
  {
    assert (calls + [c])[..|calls|] == calls;
  }

  /** Handing a motion event to the base controller reports no button event. */
  lemma EmittedButtonsMotion(calls: seq<BaseCall>, ev: MotionEvent)
    ensures EmittedButtons(calls + [SetMotionEventCall(ev)]) == EmittedButtons(calls)
  {
    EmittedButtonsAppend(calls, SetMotionEventCall(ev));
    assert EmittedButtons(calls) + [] == EmittedButtons(calls);
  }

  // ---- Preservation, step by step ----

  lemma PressKeepsPaired(g: Gaze, ev: MotionEvent, near: real, far: real)
    requires Paired(g, false) && ev.action == ACTION_DOWN
    ensures Paired(AfterMotion(g, ev, near, far), true)
  {
    var t := AfterMotion(g, ev, near, far);
    var m := SetKeyDownMsg(ev.downTime + TAP_TIMEOUT);
    assert t.thread.queue == g.thread.queue + [m];
    QueuedButtonsPost(g.thread.queue, m);
    assert t.baseCalls == g.baseCalls + [SetMotionEventCall(ev)];
    EmittedButtonsMotion(g.baseCalls, ev);
    BalancedPress(Reported(g), Pending(g), g.buttonDownSent);
  }

  lemma DragKeepsPaired(g: Gaze, ev: MotionEvent, near: real, far: real, pressed: bool)
    requires Paired(g, pressed) && ev.action == ACTION_MOVE && Displacement(g, ev) > TOUCH_SQUARE
    ensures Paired(AfterMotion(g, ev, near, far), pressed)
  {
    var t := AfterMotion(g, ev, near, far);
    assert t.thread.queue == RemoveMessages(g.thread.queue, SET_KEY_DOWN);
    QueuedButtonsRemoveDowns(g.thread.queue);
    assert t.baseCalls == g.baseCalls + [SetMotionEventCall(ev)];
    EmittedButtonsMotion(g.baseCalls, ev);
    BalancedCancel(Reported(g), Pending(g), g.buttonDownSent, pressed);
  }

  /** Settling the button (the release branch), followed by recording the motion event. */
  lemma ReleaseKeepsPaired(g: Gaze, ev: MotionEvent, pressed: bool)
    requires Paired(g, pressed)
    ensures Paired(Released(g).(baseCalls := g.baseCalls + [SetMotionEventCall(ev)]), false)
  {
    var t := Released(g).(baseCalls := g.baseCalls + [SetMotionEventCall(ev)]);
    var removed := RemoveMessages(g.thread.queue, SET_KEY_DOWN);
    var up := if g.buttonDownSent then [SetKeyUpMsg] else [];
    assert t.thread.queue == removed + up && !t.buttonDownSent;
    assert t.thread.hasHandler && t.thread.status == g.thread.status;
    QueuedButtonsRemoveDowns(g.thread.queue);
    QueuedButtonsAppend(removed, up);
    assert QueuedButtons(up) == if g.buttonDownSent then [Up] else [] by {
      if g.buttonDownSent {
        QueuedButtonsCons(SetKeyUpMsg, []);
      }
    }
    assert Pending(t) == DropDowns(Pending(g)) + (if g.buttonDownSent then [Up] else []);
    EmittedButtonsMotion(g.baseCalls, ev);
    assert Reported(t) == Reported(g);
    BalancedRelease(Reported(g), Pending(g), g.buttonDownSent, pressed);
    assert Unforged(t.thread.queue);
  }

  lemma QuietMotionKeepsPaired(g: Gaze, ev: MotionEvent, near: real, far: real, pressed: bool)
    requires Paired(g, pressed) && ev.action != ACTION_DOWN && ev.action != ACTION_UP
    requires !(ev.action == ACTION_MOVE && Displacement(g, ev) > TOUCH_SQUARE)
    ensures Paired(AfterMotion(g, ev, near, far), pressed)
  {
    var t := AfterMotion(g, ev, near, far);
    assert t.thread.queue == g.thread.queue && t.buttonDownSent == g.buttonDownSent;
    assert t.baseCalls == g.baseCalls + [SetMotionEventCall(ev)];
    EmittedButtonsMotion(g.baseCalls, ev);
  }

  lemma PostKeepsPaired(g: Gaze, t: Gaze, m: Message, pressed: bool)
    requires Paired(g, pressed) && !m.SetKeyDownMsg? && !m.SetKeyUpMsg?
    requires m != SetKeyEventMsg(BUTTON_GAZE_DOWN) && m != SetKeyEventMsg(BUTTON_GAZE_UP)
    requires t.thread == g.thread.(queue := g.thread.queue + [m])
    requires t.baseCalls == g.baseCalls && t.buttonDownSent == g.buttonDownSent
    ensures Paired(t, pressed)
  {
    QueuedButtonsPost(g.thread.queue, m);
    assert MessageButtons(m) == [];
    assert Pending(g) + [] == Pending(g);
    assert Pending(t) == Pending(g);
  }

  /** The event the worker reports for a message is the message's own button event. */
  lemma DeliveredButtons(m: Message)
    requires m != SetKeyEventMsg(BUTTON_GAZE_DOWN) && m != SetKeyEventMsg(BUTTON_GAZE_UP)
    ensures CallButtons(Delivered(m)) == MessageButtons(m)
  {
  }

  lemma HandleKeepsPaired(g: Gaze, pressed: bool)
    requires Paired(g, pressed) && g.thread.queue != []
    ensures Paired(AfterHandle(g), pressed)
  {
    var t := AfterHandle(g);
    var q := g.thread.queue;
    var m := q[0];
    assert q == [m] + q[1..];
    QueuedButtonsCons(m, q[1..]);
    assert m in q;
    DeliveredButtons(m);
    EmittedButtonsAppend(g.baseCalls, Delivered(m));
    assert Reported(t) == Reported(g) + MessageButtons(m);
    assert Pending(g) == MessageButtons(m) + Pending(t);
    assert t.buttonDownSent == (g.buttonDownSent || MessageButtons(m) == [Down]);
    BalancedHandle(Reported(g), MessageButtons(m), Pending(t), g.buttonDownSent, pressed);
    assert forall x :: x in q[1..] ==> x in q;
  }

  lemma ApplyKeepsPaired(g: Gaze, s: Step, pressed: bool, cancelReleases: bool)
    requires Paired(g, pressed) && Admissible(s, pressed)
    ensures Paired(Apply(g, s, cancelReleases), PressedAfter(s, pressed, cancelReleases))
  {
    match s
    case Motion(ev, near, far) =>
      if cancelReleases && ev.action == ACTION_CANCEL {
        ReleaseKeepsPaired(g, ev, pressed);
      } else if ev.action == ACTION_DOWN {
        PressKeepsPaired(g, ev, near, far);
      } else if ev.action == ACTION_UP {
        ReleaseKeepsPaired(g, ev, pressed);
      } else if ev.action == ACTION_MOVE && Displacement(g, ev) > TOUCH_SQUARE {
        DragKeepsPaired(g, ev, near, far, pressed);
      } else {
        QuietMotionKeepsPaired(g, ev, near, far, pressed);
      }
    case Key(k) =>
      PostKeepsPaired(g, AfterKey(g, k), SetKeyEventMsg(k), pressed);
    case Position(x, y, z) =>
      PostKeepsPaired(g, AfterSetPosition(g, x, y, z), SetPositionMsg(x, y, z), pressed);
    case WorkerStep =>
      if g.thread.queue != [] {
        HandleKeepsPaired(g, pressed);
      }
  }

  lemma {:induction false} RunKeepsPaired(g: Gaze, steps: seq<Step>, pressed: bool, cancelReleases: bool)
    requires Paired(g, pressed) && WellFormed(steps, pressed, cancelReleases)
    ensures Paired(Run(g, steps, cancelReleases), PressedAfterAll(steps, pressed, cancelReleases))
    decreases |steps|
  {
    if steps != [] {
      ApplyKeepsPaired(g, steps[0], pressed, cancelReleases);
      RunKeepsPaired(Apply(g, steps[0], cancelReleases), steps[1..],
                     PressedAfter(steps[0], pressed, cancelReleases), cancelReleases);
    }
  }

  /** From a controller that is idle with respect to its button, every well-formed run
      reports synthetic button events that alternate, starting with a button-down:
      every button-up follows exactly one button-down, and no two button-downs are
      reported without a button-up between them. As written only a release ends a press;
      with the fix a cancel ends it too. */
  lemma SyntheticButtonsAlternate(g: Gaze, steps: seq<Step>, cancelReleases: bool)
    requires Paired(g, false) && WellFormed(steps, false, cancelReleases)
    ensures Alternating(EmittedButtons(Run(g, steps, cancelReleases).baseCalls))
  {
    RunKeepsPaired(g, steps, false, cancelReleases);
    var t := Run(g, steps, cancelReleases);
    AlternatingPrefix(Reported(t) + Pending(t), |Reported(t)|);
    assert (Reported(t) + Pending(t))[..|Reported(t)|] == Reported(t);
  }

  /** The same for a controller fresh from its first attach. */
  lemma ButtonsAlternateAfterAttach(steps: seq<Step>, cancelReleases: bool)
    requires WellFormed(steps, false, cancelReleases)
    ensures Incremented(Initial()).0.thread.hasHandler
    ensures Alternating(EmittedButtons(Run(Incremented(Initial()).0, steps, cancelReleases).baseCalls))
  {
    var g := Incremented(Initial()).0;
    assert Pending(g) == [] && Reported(g) == [];
    SyntheticButtonsAlternate(g, steps, cancelReleases);
  }

  // ---- A gesture ended by a cancel ----

  /** Press, let the worker report the button-down, cancel the gesture, press again, and
      let the worker run twice more. */
  function PressCancelPress(): seq<Step> {
    [Motion(MotionEvent(ACTION_DOWN, 0.0, 0.0, 0), 0.0, 0.0), WorkerStep,
     Motion(MotionEvent(ACTION_CANCEL, 0.0, 0.0, 0), 0.0, 0.0),
     Motion(MotionEvent(ACTION_DOWN, 0.0, 0.0, 100), 0.0, 0.0), WorkerStep, WorkerStep]
  }

  /** What a step does to the queue, the flag and the reported buttons, one kind at a time. */
  lemma PressStep(g: Gaze, when: int, cancelReleases: bool)
    requires g.thread.hasHandler && g.thread.status != Quitting
    ensures var t := Apply(g, Motion(MotionEvent(ACTION_DOWN, 0.0, 0.0, when), 0.0, 0.0), cancelReleases);
      t.thread.queue == g.thread.queue + [SetKeyDownMsg(when + TAP_TIMEOUT)] &&
      t.buttonDownSent == g.buttonDownSent && Reported(t) == Reported(g)
  {
    EmittedButtonsMotion(g.baseCalls, MotionEvent(ACTION_DOWN, 0.0, 0.0, when));
  }

  lemma CancelStep(g: Gaze, cancelReleases: bool)
    requires g.thread.hasHandler && g.thread.status != Quitting
    ensures var t := Apply(g, Motion(MotionEvent(ACTION_CANCEL, 0.0, 0.0, 0), 0.0, 0.0), cancelReleases);
      (!cancelReleases ==> t.thread.queue == g.thread.queue && t.buttonDownSent == g.buttonDownSent) &&
      (cancelReleases ==>
        (!t.buttonDownSent &&
         t.thread.queue == RemoveMessages(g.thread.queue, SET_KEY_DOWN) + (if g.buttonDownSent then [SetKeyUpMsg] else []))) &&
      Reported(t) == Reported(g)
  {
    EmittedButtonsMotion(g.baseCalls, MotionEvent(ACTION_CANCEL, 0.0, 0.0, 0));
  }

  lemma WorkerStepEffect(g: Gaze, cancelReleases: bool)
    requires g.thread.hasHandler && g.thread.status != Quitting && Unforged(g.thread.queue)
    ensures var t := Apply(g, WorkerStep, cancelReleases);
      (g.thread.queue == [] ==> t == g) &&
      (g.thread.queue != [] ==>
        t.thread.queue == g.thread.queue[1..] &&
        t.buttonDownSent == (g.buttonDownSent || g.thread.queue[0].SetKeyDownMsg?) &&
        Reported(t) == Reported(g) + MessageButtons(g.thread.queue[0]))
  {
    if g.thread.queue != [] {
      var m := g.thread.queue[0];
      assert m in g.thread.queue;
      DeliveredButtons(m);
      EmittedButtonsAppend(g.baseCalls, Delivered(m));
    }
  }

  /** Running six steps is applying them in turn. */
  lemma RunSix(g: Gaze, steps: seq<Step>, c: bool)
    requires g.thread.hasHandler && |steps| == 6
    ensures var g1 := Apply(g, steps[0], c);
            var g2 := Apply(g1, steps[1], c);
            var g3 := Apply(g2, steps[2], c);
            var g4 := Apply(g3, steps[3], c);
            var g5 := Apply(g4, steps[4], c);
      Run(g, steps, c) == Apply(g5, steps[5], c)
  {
    var g1 := Apply(g, steps[0], c);
    var g2 := Apply(g1, steps[1], c);
    var g3 := Apply(g2, steps[2], c);
    var g4 := Apply(g3, steps[3], c);
    var g5 := Apply(g4, steps[4], c);
    var s1 := steps[1..];
    var s2 := s1[1..];
    var s3 := s2[1..];
    var s4 := s3[1..];
    var s5 := s4[1..];
    assert s1[0] == steps[1] && s2[0] == steps[2] && s3[0] == steps[3];
    assert s4[0] == steps[4] && s5[0] == steps[5] && s5[1..] == [];
    assert Run(g, steps, c) == Run(g1, s1, c);
    assert Run(g1, s1, c) == Run(g2, s2, c);
    assert Run(g2, s2, c) == Run(g3, s3, c);
    assert Run(g3, s3, c) == Run(g4, s4, c);
    assert Run(g4, s4, c) == Run(g5, s5, c);
    assert Run(g5, s5, c) == Run(Apply(g5, steps[5], c), [], c);
  }

  /** The first press and worker step, from an idle controller: the button-down is reported. */
  lemma PressAndReport(g: Gaze, c: bool)
    requires g.thread.hasHandler && g.thread.status != Quitting
    requires g.thread.queue == [] && !g.buttonDownSent && Reported(g) == []
    ensures var t := Apply(Apply(g, PressCancelPress()[0], c), WorkerStep, c);
      t.thread.hasHandler && t.thread.status == g.thread.status &&
      t.thread.queue == [] && t.buttonDownSent && Reported(t) == [Down]
  {
    PressStep(g, 0, c);
    var g1 := Apply(g, PressCancelPress()[0], c);
    assert g1.thread.queue == [SetKeyDownMsg(TAP_TIMEOUT)];
    WorkerStepEffect(g1, c);
  }

  /** The rest of the run as written: the cancel leaves the button reported, and the second
      press reports a second button-down. */
  lemma CancelAndPressAsWritten(g: Gaze)
    requires g.thread.hasHandler && g.thread.status != Quitting
    requires g.thread.queue == [] && g.buttonDownSent && Reported(g) == [Down]
    ensures var s0 := PressCancelPress();
      var t := Apply(Apply(Apply(Apply(g, s0[2], false), s0[3], false), WorkerStep, false), WorkerStep, false);
      Reported(t) == [Down, Down]
  {
    var s0 := PressCancelPress();
    var g3 := Apply(g, s0[2], false);
    CancelStep(g, false);
    var g4 := Apply(g3, s0[3], false);
    PressStep(g3, 100, false);
    assert g4.thread.queue == [SetKeyDownMsg(100 + TAP_TIMEOUT)];
    var g5 := Apply(g4, WorkerStep, false);
    WorkerStepEffect(g4, false);
    assert g5.thread.queue == [];
    WorkerStepEffect(g5, false);
  }

  /** The rest of the run with the fix: the cancel releases the button, and the second press
      is reported after the release. */
  lemma CancelAndPressIntended(g: Gaze)
    requires g.thread.hasHandler && g.thread.status != Quitting
    requires g.thread.queue == [] && g.buttonDownSent && Reported(g) == [Down]
    ensures var s0 := PressCancelPress();
      var t := Apply(Apply(Apply(Apply(g, s0[2], true), s0[3], true), WorkerStep, true), WorkerStep, true);
      Reported(t) == [Down, Up, Down]
  {
    var s0 := PressCancelPress();
    var kd := SetKeyDownMsg(100 + TAP_TIMEOUT);
    var g3 := Apply(g, s0[2], true);
    CancelStep(g, true);
    assert RemoveMessages([], SET_KEY_DOWN) == [];
    assert g3.thread.queue == [SetKeyUpMsg];
    var g4 := Apply(g3, s0[3], true);
    PressStep(g3, 100, true);
    assert g4.thread.queue == [SetKeyUpMsg, kd];
    var g5 := Apply(g4, WorkerStep, true);
    WorkerStepEffect(g4, true);
    assert g5.thread.queue == [kd] && Reported(g5) == [Down, Up];
    WorkerStepEffect(g5, true);
  }

  /** From an idle controller, the run reports down, down as written, and down, up, down
      with the fix. */
  lemma PressCancelPressReports(g: Gaze, c: bool)
    requires g.thread.hasHandler && g.thread.status != Quitting
    requires g.thread.queue == [] && !g.buttonDownSent && Reported(g) == []
    ensures Reported(Run(g, PressCancelPress(), c)) == if c then [Down, Up, Down] else [Down, Down]
  {
    var s0 := PressCancelPress();
    RunSix(g, s0, c);
    PressAndReport(g, c);
    var g2 := Apply(Apply(g, s0[0], c), WorkerStep, c);
    assert s0[1] == WorkerStep && s0[4] == WorkerStep && s0[5] == WorkerStep;
    if c {
      CancelAndPressIntended(g2);
    } else {
      CancelAndPressAsWritten(g2);
    }
  }

  /** As written, a cancel does not end the press, so the second press is outside the
      well-formed runs; with the fix the run is well formed. */
  lemma PressCancelPressWellFormed()
    ensures !WellFormed(PressCancelPress(), false, false)
    ensures WellFormed(PressCancelPress(), false, true)
  {
    var s0 := PressCancelPress();
    assert !WellFormed(s0[1..][1..][1..], true, false);
    assert WellFormed(s0[1..][1..][1..][1..][1..][1..], true, true);
  }

  /** As written the run reports a second button-down without a button-up in between,
      outside the well-formed runs that `SyntheticButtonsAlternate` covers. */
  lemma CancelThenPressReportsTwoDowns()
    ensures Incremented(Initial()).0.thread.hasHandler
    ensures !WellFormed(PressCancelPress(), false, false)
    ensures EmittedButtons(Run(Incremented(Initial()).0, PressCancelPress(), false).baseCalls) == [Down, Down]
    ensures !Alternating(EmittedButtons(Run(Incremented(Initial()).0, PressCancelPress(), false).baseCalls))
  {
    var g0 := Incremented(Initial()).0;
    assert g0.thread.queue == [] && !g0.buttonDownSent && Reported(g0) == [];
    PressCancelPressReports(g0, false);
    PressCancelPressWellFormed();
    assert [Down, Down][1] != Up;
  }

  /** With the fix, the same run is well formed and the worker reports down, up, down. */
  lemma CancelThenPressIntended()
    ensures Incremented(Initial()).0.thread.hasHandler
    ensures WellFormed(PressCancelPress(), false, true)
    ensures EmittedButtons(Run(Incremented(Initial()).0, PressCancelPress(), true).baseCalls) == [Down, Up, Down]
  {
    var g0 := Incremented(Initial()).0;
    assert g0.thread.queue == [] && !g0.buttonDownSent && Reported(g0) == [];
    PressCancelPressReports(g0, true);
    PressCancelPressWellFormed();
  }
}

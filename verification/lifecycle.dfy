/** Whole pointer sequences run through one drag reference and the registry
    it shares: the threshold keeps small moves inert, and the emissions of a
    sequence follow `started`, `moved`*, `released`, `ended`. */
module Lifecycle {
  import opened Common
  import opened Geometry
  import opened DragMath
  import opened DragDropRegistry
  import opened Draggable

  datatype World = World(s: Session, reg: Registry)

  /** What reaches the reference: a press on its element, a document
      pointer-move or pointer-up of some input kind, the end of the release
      animation, or a drop zone accepting it. */
  datatype Input =
    | Down(ev: PointerEvent, env: Env)
    | Move(ev: PointerEvent, env: Env)
    | Up(kind: InputKind)
    | AnimationEnd
    | DropOn(zone: ZoneId)

  datatype Outcome = Outcome(w: World, log: seq<DragEvent>, faulted: bool)

  /** A document pointer event reaches the reference only when the document
      forwards that event to the registry's subject and the reference holds a
      live subscription to the subject. Other inputs always arrive. */
  predicate Delivered(w: World, i: Input)
  {
    match i
    case Move(ev, _) => w.s.subs.Live() > 0 && Forwards(w.reg, MoveEvent(ev.kind))
    case Up(kind) => w.s.subs.Live() > 0 && Forwards(w.reg, UpEvent(kind))
    case _ => true
  }

  /** One input. Only a move of a started drag can throw, and moves and
      drops leave the registry alone. */
  function Dispatch(w: World, i: Input): (r: Result<(World, seq<DragEvent>), Fault>)
    ensures !Delivered(w, i) ==> r == Success((w, []))
    ensures r.Failure? ==> i.Move? && Delivered(w, i) && w.s.hasStarted
    ensures r.Success? && (i.Move? || i.DropOn?) ==> r.value.0.reg == w.reg
  {
    if !Delivered(w, i) then Success((w, []))
    else
      match i
      case Down(ev, env) =>
        var st := PointerDown(w.s, w.reg, ev, env);
        Success((World(st.s, st.reg), st.log))
      case Move(ev, env) =>
        (match PointerMove(w.s, ev, env)
         case Failure(e) => Failure(e)
         case Success((s', log)) => Success((World(s', w.reg), log)))
      case Up(_) =>
        var st := PointerUp(w.s, w.reg);
        Success((World(st.s, st.reg), st.log))
      case AnimationEnd =>
        var st := AnimationDone(w.s, w.reg);
        Success((World(st.s, st.reg), st.log))
      case DropOn(z) =>
        var (s', log) := Drop(w.s, z);
        Success((World(s', w.reg), log))
  }

  /** Runs inputs in order. A handler that throws fails only its own call:
      the state stays as it was, the run goes on with the next input, and the
      outcome records that something threw. */
  function Run(w: World, inputs: seq<Input>): Outcome
    decreases |inputs|
  {
    if |inputs| == 0 then Outcome(w, [], false)
    else
      match Dispatch(w, inputs[0])
      case Failure(_) =>
        var o := Run(w, inputs[1..]);
        Outcome(o.w, o.log, true)
      case Success((w1, log1)) =>
        var o := Run(w1, inputs[1..]);
        Outcome(o.w, log1 + o.log, o.faulted)
  }

  /** Only a move can make a run fault: a run without moves never records a
      throw. */
  lemma {:induction false} OnlyMovesFault(w: World, inputs: seq<Input>)
    ensures Run(w, inputs).faulted ==> exists k :: 0 <= k < |inputs| && inputs[k].Move?
    decreases |inputs|
  {
    if |inputs| > 0 && Run(w, inputs).faulted && !inputs[0].Move? {
      var w1 := Dispatch(w, inputs[0]).value.0;
      OnlyMovesFault(w1, inputs[1..]);
      var k :| 0 <= k < |inputs[1..]| && inputs[1..][k].Move?;
      assert inputs[k + 1] == inputs[1..][k];
    }
  }

  predicate NoDown(inputs: seq<Input>)
  {
    forall i :: 0 <= i < |inputs| ==> !inputs[i].Down?
  }

  /** Moves that all stay below the start threshold (Manhattan distance from
      the pickup point) leave an armed reference exactly as it was and emit
      nothing. */
  lemma {:induction false} SmallMovesStayArmed(w: World, inputs: seq<Input>)
    requires !w.s.hasStarted
    requires forall i :: 0 <= i < |inputs| ==>
               inputs[i].Move? &&
               !ReachesStartThreshold(PositionOnPage(inputs[i].ev.page, w.s.scroll), w.s.pickupOnPage,
                                      w.s.config.dragStartThreshold)
    ensures Run(w, inputs) == Outcome(w, [], false)
    decreases |inputs|
  {
    if |inputs| > 0 {
      assert Dispatch(w, inputs[0]) == Success((w, []));
      SmallMovesStayArmed(w, inputs[1..]);
    }
  }

  /** The order of a sequence's emissions as an automaton: phase 0 armed,
      1 started, 2 released, 3 ended. Drops may come in any phase. */
  function Next(phase: nat, e: DragEvent): Option<nat>
  {
    match e
    case Dropped(_) => Some(phase)
    case BeforeStarted => None
    case Started(_) => if phase == 0 then Some(1) else None
    case Moved(_, _) => if phase == 1 then Some(1) else None
    case Released => if phase == 1 then Some(2) else None
    case Ended => if phase == 2 then Some(3) else None
  }

  function Walk(phase: nat, log: seq<DragEvent>): Option<nat>
    decreases |log|
  {
    if |log| == 0 then Some(phase)
    else match Next(phase, log[0])
      case None => None
      case Some(q) => Walk(q, log[1..])
  }

  lemma {:induction false} WalkAppend(phase: nat, a: seq<DragEvent>, b: seq<DragEvent>)
    ensures Walk(phase, a + b) == (match Walk(phase, a) case None => None case Some(q) => Walk(q, b))
    decreases |a|
  {
    if |a| == 0 {
      assert a + b == b;
    } else {
      assert (a + b)[0] == a[0];
      assert (a + b)[1..] == a[1..] + b;
      match Next(phase, a[0])
      case None =>
      case Some(q) => WalkAppend(q, a[1..], b);
    }
  }

  /** How the reference's state reads in each phase. */
  predicate InPhase(w: World, phase: nat)
  {
    match phase
    case 0 => !w.s.hasStarted && !w.s.animating && w.s.subs.orphans == 0
    case 1 => w.s.hasStarted && !w.s.animating && w.s.subs.orphans == 0
    case 2 => w.s.animating && w.s.subs.Live() == 0
    case 3 => !w.s.animating && w.s.subs.Live() == 0
    case _ => false
  }

  /** One input moves the automaton along the emissions it makes and lands
      in a phase that matches the new state. */
  lemma StepPhase(w: World, i: Input, phase: nat) returns (q: nat)
    requires InPhase(w, phase) && !i.Down?
    requires Dispatch(w, i).Success?
    ensures Walk(phase, Dispatch(w, i).value.1) == Some(q)
    ensures InPhase(Dispatch(w, i).value.0, q)
  {
    match i
    case Move(ev, env) =>
      q := StepMove(w, ev, env, phase);
    case Up(kind) =>
      q := StepUp(w, kind, phase);
    case AnimationEnd =>
      q := if w.s.animating then 3 else phase;
    case DropOn(z) =>
      q := phase;
  }

  /** `StepPhase` for a move: before the threshold it either changes nothing
      or emits `started`; after it, it emits at most `moved`. */
  lemma StepMove(w: World, ev: PointerEvent, env: Env, phase: nat) returns (q: nat)
    requires InPhase(w, phase)
    requires Dispatch(w, Move(ev, env)).Success?
    ensures Walk(phase, Dispatch(w, Move(ev, env)).value.1) == Some(q)
    ensures InPhase(Dispatch(w, Move(ev, env)).value.0, q)
  {
    var log := Dispatch(w, Move(ev, env)).value.1;
    if !Delivered(w, Move(ev, env)) || w.s.hasStarted {
      q := phase;
    } else {
      q := if log == [] then phase else 1;
    }
  }

  /** `StepPhase` for a release: a started drag emits `released`, then
      `ended` unless helpers wait for the animation. */
  lemma StepUp(w: World, kind: InputKind, phase: nat) returns (q: nat)
    requires InPhase(w, phase)
    ensures Walk(phase, Dispatch(w, Up(kind)).value.1) == Some(q)
    ensures InPhase(Dispatch(w, Up(kind)).value.0, q)
  {
    var log := Dispatch(w, Up(kind)).value.1;
    if !Delivered(w, Up(kind)) || !DragDropRegistry.IsDragging(w.reg, w.s.id) || !w.s.hasStarted {
      q := phase;
    } else if w.s.helpers {
      q := 2;
    } else {
      assert log == [Released, Ended];
      assert Walk(phase, log) == Walk(2, [Ended]);
      q := 3;
    }
  }

  /** In a run with no new press, starting from any phase the state is in,
      the emissions are accepted by the automaton: `started` comes first,
      `moved` only between `started` and `released`, and `ended` only after
      `released`. */
  lemma {:induction false} RunFollowsPhases(w: World, inputs: seq<Input>, phase: nat)
    requires InPhase(w, phase) && NoDown(inputs)
    ensures Walk(phase, Run(w, inputs).log).Some?
    decreases |inputs|
  {
    if |inputs| > 0 {
      match Dispatch(w, inputs[0])
      case Failure(_) =>
        RunFollowsPhases(w, inputs[1..], phase);
      case Success((w1, log1)) =>
        var q := StepPhase(w, inputs[0], phase);
        RunFollowsPhases(w1, inputs[1..], q);
        WalkAppend(phase, log1, Run(w1, inputs[1..]).log);
    }
  }

  /** A move that throws does not swallow the release after it: the
      pointer-up still reaches the reference, which emits `released` and
      `ended` and lets the registry go. */
  lemma FaultKeepsRelease(w: World, ev: PointerEvent, env: Env, up: InputKind)
    requires Dispatch(w, Move(ev, env)).Failure?
    requires Forwards(w.reg, UpEvent(up)) && DragDropRegistry.IsDragging(w.reg, w.s.id) && !w.s.helpers
    ensures var o := Run(w, [Move(ev, env), Up(up)]);
            && o.faulted && o.log == [Released, Ended]
            && !DragDropRegistry.IsDragging(o.w.reg, w.s.id)
  {
    var st := PointerUp(w.s, w.reg);
    assert st.reg.active == w.reg.active - {w.s.id};
    var w1 := World(st.s, st.reg);
    assert Dispatch(w, Up(up)) == Success((w1, [Released, Ended]));
    assert [Up(up)][1..] == [];
    assert Run(w, [Up(up)]) == Outcome(w1, [Released, Ended], false);
    assert [Move(ev, env), Up(up)][1..] == [Up(up)];
  }

  function CountStarted(log: seq<DragEvent>): nat
    decreases |log|
  {
    if |log| == 0 then 0 else (if log[0].Started? then 1 else 0) + CountStarted(log[1..])
  }

  function CountEnded(log: seq<DragEvent>): nat
    decreases |log|
  {
    if |log| == 0 then 0 else (if log[0].Ended? then 1 else 0) + CountEnded(log[1..])
  }

  /** Any log the automaton accepts from a phase holds at most one `started`
      (none once past phase 0) and at most one `ended` (none once in phase 3). */
  lemma {:induction false} AcceptedCounts(phase: nat, log: seq<DragEvent>)
    requires Walk(phase, log).Some?
    ensures CountStarted(log) <= (if phase == 0 then 1 else 0)
    ensures CountEnded(log) <= (if phase <= 2 then 1 else 0)
    decreases |log|
  {
    if |log| > 0 {
      var q := Next(phase, log[0]).value;
      AcceptedCounts(q, log[1..]);
    }
  }

  /** A press that arms a sequence on a reference with no pending animation
      and no live subscription is followed, in any run without another
      press, by at most one `started` and at most one `ended`, in order. */
  lemma SequenceAfterDown(s: Session, reg: Registry, ev: PointerEvent, env: Env, inputs: seq<Input>)
    requires !s.animating && s.subs.Live() == 0 && NoDown(inputs)
    requires Reaches(s, ev, env) && !Refused(s, reg, ev, env)
    ensures var st := PointerDown(s, reg, ev, env);
            var log := Run(World(st.s, st.reg), inputs).log;
            Walk(0, log).Some? && CountStarted(log) <= 1 && CountEnded(log) <= 1
  {
    var st := PointerDown(s, reg, ev, env);
    assert InPhase(World(st.s, st.reg), 0);
    RunFollowsPhases(World(st.s, st.reg), inputs, 0);
    AcceptedCounts(0, Run(World(st.s, st.reg), inputs).log);
  }

  /** A standalone drag with the `'invalid'` policy, moved past the start
      threshold, moved again and released with no zone having accepted it,
      returns to its original place: both transforms are zero, and the last
      two emissions are `released` then `ended`. */
  lemma RevertOnInvalidDrop(w: World, cross: PointerEvent, e1: Env, p: PointerEvent, e2: Env, up: InputKind)
    requires Forwards(w.reg, MoveEvent(cross.kind)) && Forwards(w.reg, MoveEvent(p.kind)) && Forwards(w.reg, UpEvent(up))
    requires !w.s.hasStarted && w.s.subs.current && DragDropRegistry.IsDragging(w.reg, w.s.id)
    requires !w.s.helpers && w.s.boundaryRect.None? && w.s.dropped == {}
    requires w.s.revert == RevertOnInvalid
    requires ReachesStartThreshold(PositionOnPage(cross.page, w.s.scroll), w.s.pickupOnPage, w.s.config.dragStartThreshold)
    ensures var o := Run(w, [Move(cross, e1), Move(p, e2), Up(up)]);
            && !o.faulted && o.w.s.active == Origin && o.w.s.passive == Origin
            && |o.log| >= 2 && o.log[|o.log| - 2..] == [Released, Ended]
            && !DragDropRegistry.IsDragging(o.w.reg, w.s.id)
  {
    var inputs := [Move(cross, e1), Move(p, e2), Up(up)];
    var w1, l1, w2, l2 := RevertMoves(w, cross, e1, p, e2);
    ReleaseReverts(w2, w.s.id, up);
    assert inputs[1..][0] == Move(p, e2) && inputs[1..][1..] == [Up(up)];
    RunStep(w1, inputs[1..], w2, l2);
    RunStep(w, inputs, w1, l1);
    assert Run(w, inputs).log == l1 + (l2 + [Released, Ended]);
  }

  /** The two moves of `RevertOnInvalidDrop`: the first starts the drag and
      the second moves it; neither touches what the release reads. */
  lemma RevertMoves(w: World, cross: PointerEvent, e1: Env, p: PointerEvent, e2: Env)
    returns (w1: World, l1: seq<DragEvent>, w2: World, l2: seq<DragEvent>)
    requires Forwards(w.reg, MoveEvent(cross.kind)) && Forwards(w.reg, MoveEvent(p.kind))
    requires !w.s.hasStarted && w.s.subs.current
    requires !w.s.helpers && w.s.boundaryRect.None?
    requires ReachesStartThreshold(PositionOnPage(cross.page, w.s.scroll), w.s.pickupOnPage, w.s.config.dragStartThreshold)
    ensures Dispatch(w, Move(cross, e1)) == Success((w1, l1))
    ensures Dispatch(w1, Move(p, e2)) == Success((w2, l2))
    ensures w2.reg == w.reg && w2.s.id == w.s.id && w2.s.subs == w.s.subs && w2.s.hasStarted
    ensures !w2.s.helpers && w2.s.dropped == w.s.dropped && w2.s.revert == w.s.revert
  {
    var m1 := PointerMove(w.s, cross, e1);
    w1, l1 := World(m1.value.0, w.reg), m1.value.1;
    var m2 := PointerMove(w1.s, p, e2);
    w2, l2 := World(m2.value.0, w.reg), m2.value.1;
  }

  /** The release at the end of `RevertOnInvalidDrop`. */
  lemma ReleaseReverts(w: World, id: DragId, up: InputKind)
    requires w.s.id == id && Forwards(w.reg, UpEvent(up)) && w.s.subs.Live() > 0
    requires w.s.hasStarted && DragDropRegistry.IsDragging(w.reg, id)
    requires !w.s.helpers && w.s.dropped == {} && w.s.revert == RevertOnInvalid
    ensures var o := Run(w, [Up(up)]);
            && !o.faulted && o.log == [Released, Ended]
            && o.w.s.active == Origin && o.w.s.passive == Origin
            && !DragDropRegistry.IsDragging(o.w.reg, id)
  {
    var st := PointerUp(w.s, w.reg);
    assert st.reg.active == w.reg.active - {id};
    var w1 := World(st.s, st.reg);
    assert Dispatch(w, Up(up)) == Success((w1, [Released, Ended]));
    assert [Up(up)][1..] == [];
    assert Run(w, [Up(up)]) == Outcome(w1, [Released, Ended], false);
  }

  /** A press is always delivered and logs only `beforeStarted`. */
  lemma DispatchDown(w: World, ev: PointerEvent, env: Env)
    ensures var d := PointerDown(w.s, w.reg, ev, env);
            Dispatch(w, Down(ev, env)) == Success((World(d.s, d.reg), [BeforeStarted]))
  {
  }

  /** Running a non-empty sequence: the first input's log comes before
      the rest's. */
  lemma RunStep(w: World, inputs: seq<Input>, w1: World, log1: seq<DragEvent>)
    requires |inputs| > 0 && Dispatch(w, inputs[0]) == Success((w1, log1))
    ensures var o := Run(w1, inputs[1..]);
            Run(w, inputs) == Outcome(o.w, log1 + o.log, o.faulted)
  {
  }
}

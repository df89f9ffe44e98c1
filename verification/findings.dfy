/** Sequences through one drag reference and the registry that show where the
    code as written departs from what it evidently intends, each next to the
    corrected behaviour. */
module Findings {
  import opened Common
  import opened DragMath
  import opened DragDropRegistry
  import opened Draggable
  import opened Lifecycle

  /** A press that arms a sequence and a release before the threshold is
      crossed leave the drag in the registry: the reference says it is not
      dragging, yet the registry holds it and keeps suppressing wheel and
      text selection page-wide. */
  lemma ClickLeavesDragRegistered(s: Session, reg: Registry, ev: PointerEvent, env: Env)
    requires Reaches(s, ev, env) && !Refused(s, reg, ev, env)
    ensures var d := PointerDown(s, reg, ev, env);
            var u := PointerUp(d.s, d.reg);
            && u.log == []
            && !Draggable.IsDragging(u.s, u.reg)
            && DragDropRegistry.IsDragging(u.reg, s.id)
            && PreventsDefault(u.reg)
  {
    var d := PointerDown(s, reg, ev, env);
    StartedIsDragging(reg, s.id, s.id, ev.kind);
    assert DragDropRegistry.IsDragging(d.reg, s.id);
    assert !d.s.hasStarted;
  }

  /** With the registry released on the early path, the same click leaves
      no trace in it when no other drag was active. */
  lemma ClickReleasesDragFixed(s: Session, reg: Registry, ev: PointerEvent, env: Env)
    requires Reaches(s, ev, env) && !Refused(s, reg, ev, env) && reg.active == {}
    ensures var d := PointerDown(s, reg, ev, env);
            var u := PointerUpFixed(d.s, d.reg);
            && u.log == []
            && !DragDropRegistry.IsDragging(u.reg, s.id)
            && u.reg.active == {}
            && !PreventsDefault(u.reg)
  {
    var d := PointerDown(s, reg, ev, env);
    StartedIsDragging(reg, s.id, s.id, ev.kind);
    assert d.reg.active == {s.id};
    assert !d.s.hasStarted;
  }

  /** A click followed by a press on the same reference: the second press
      finds the drag already the sole active one and rebuilds the listener
      table, so the first press's move forwarder stays on the document with
      nothing left to remove it. */
  lemma ClickThenPressLeaksListener(s: Session, ev: PointerEvent, env: Env, ev2: PointerEvent, env2: Env)
    requires Reaches(s, ev, env) && !Refused(s, Initial, ev, env)
    requires Reaches(s, ev2, env2) && !IsAuxiliaryButton(ev2) && !IsSynthetic(s, ev2, env2.now)
    requires ev2.kind == ev.kind
    ensures var d := PointerDown(s, Initial, ev, env);
            var u := PointerUp(d.s, d.reg);
            var d2 := PointerDown(u.s, u.reg, ev2, env2);
            && (MoveEvent(ev.kind), Forward(0)) in d2.reg.document
            && (MoveEvent(ev.kind), Forward(0)) !in Pairs(d2.reg.listeners)
            && (MoveEvent(ev.kind), Forward(0)) in StopDragging(d2.reg, s.id).document
  {
    var d := PointerDown(s, Initial, ev, env);
    ClickLeavesDragRegistered(s, Initial, ev, env);
    var u := PointerUp(d.s, d.reg);
    assert u.reg == d.reg && d.reg == StartDragging(Initial, s.id, ev.kind);
    assert d.reg.active == {s.id};
    assert (MoveEvent(ev.kind), Forward(0)) in d.reg.document;
    assert !u.s.hasStarted && u.s.lastTouchTime == s.lastTouchTime;
    assert Reaches(u.s, ev2, env2) && !Refused(u.s, u.reg, ev2, env2);
    var d2 := PointerDown(u.s, u.reg, ev2, env2);
    assert d2.reg == StartDragging(u.reg, s.id, ev.kind);
    assert d2.reg.listeners[MoveEvent(ev.kind)] == Forward(1);
  }

  /** Two presses before the threshold subscribe twice; the first pair is
      orphaned while still live. */
  lemma TwoPressesOrphanPair(s: Session, reg: Registry, ev1: PointerEvent, ev2: PointerEvent, env: Env)
    requires s.subs.Live() == 0
    requires Reaches(s, ev1, env) && !Refused(s, reg, ev1, env)
    requires Reaches(s, ev2, env) && !IsAuxiliaryButton(ev2) && !IsSynthetic(s, ev2, env.now)
    ensures var d1 := PointerDown(s, reg, ev1, env);
            var d2 := PointerDown(d1.s, d1.reg, ev2, env);
            && d1.log == [BeforeStarted] && d2.log == [BeforeStarted]
            && d2.s.subs == Subscriptions(1, true) && !d2.s.hasStarted
            && d2.s.pickupOnPage == PositionOnPage(ev2.page, env.scroll) && d2.s.scroll == env.scroll
            && DragDropRegistry.IsDragging(d2.reg, s.id)
  {
    var d1 := PointerDown(s, reg, ev1, env);
    assert d1.s.subs == Subscriptions(0, true);
    assert !d1.s.hasStarted && d1.s.lastTouchTime == s.lastTouchTime;
    assert Reaches(d1.s, ev2, env) && !Refused(d1.s, d1.reg, ev2, env);
    StartedIsDragging(d1.reg, s.id, s.id, ev2.kind);
  }

  /** The second press finds its drag the sole active one and rebuilds the
      listener table for its own input kind, so the document forwards that
      kind's moves and releases. */
  lemma SecondPressForwards(s: Session, reg: Registry, ev1: PointerEvent, ev2: PointerEvent, env: Env)
    requires s.subs.Live() == 0 && reg.active == {}
    requires Reaches(s, ev1, env) && !Refused(s, reg, ev1, env)
    requires Reaches(s, ev2, env) && !IsAuxiliaryButton(ev2) && !IsSynthetic(s, ev2, env.now)
    ensures var d1 := PointerDown(s, reg, ev1, env);
            var d2 := PointerDown(d1.s, d1.reg, ev2, env);
            && d2.s.subs == Subscriptions(1, true) && !d2.s.hasStarted
            && d2.s.id == s.id && d2.s.config == s.config
            && d2.s.pickupOnPage == PositionOnPage(ev2.page, env.scroll) && d2.s.scroll == env.scroll
            && DragDropRegistry.IsDragging(d2.reg, s.id)
            && Forwards(d2.reg, MoveEvent(ev2.kind)) && Forwards(d2.reg, UpEvent(ev2.kind))
  {
    TwoPressesOrphanPair(s, reg, ev1, ev2, env);
    var d1 := PointerDown(s, reg, ev1, env);
    assert d1.reg.active == {s.id};
    assert !d1.s.hasStarted && d1.s.lastTouchTime == s.lastTouchTime;
    assert Reaches(d1.s, ev2, env) && !Refused(d1.s, d1.reg, ev2, env);
    var d2 := PointerDown(d1.s, d1.reg, ev2, env);
    assert d2.reg == StartDragging(d1.reg, s.id, ev2.kind);
    assert d2.reg == Build(d1.reg, ev2.kind);
    BuildForwards(d1.reg, ev2.kind);
  }

  /** After the release the orphaned pair still forwards moves: one that
      reaches the threshold starts a drag. */
  lemma ReleaseThenMoveStarts(w: World, up: InputKind, mv: PointerEvent, envm: Env)
    requires w.s.subs == Subscriptions(1, true) && !w.s.hasStarted && DragDropRegistry.IsDragging(w.reg, w.s.id)
    requires Forwards(w.reg, UpEvent(up)) && Forwards(w.reg, MoveEvent(mv.kind))
    requires ReachesStartThreshold(PositionOnPage(mv.page, w.s.scroll), w.s.pickupOnPage, w.s.config.dragStartThreshold)
    ensures var o := Run(w, [Up(up), Move(mv, envm)]);
            && !o.faulted && o.log == [Started(PositionOnPage(mv.page, w.s.scroll))]
            && o.w.s.hasStarted && o.w.s.subs == Subscriptions(1, false)
  {
    var u := PointerUp(w.s, w.reg);
    var w3 := World(u.s, u.reg);
    assert u.s == w.s.(subs := Subscriptions(1, false)) && u.reg == w.reg && u.log == [];
    assert Dispatch(w, Up(up)) == Success((w3, []));
    var m := PointerMove(u.s, mv, envm);
    assert m.Success? && m.value.1 == [Started(PositionOnPage(mv.page, w.s.scroll))];
    var w4 := World(m.value.0, w3.reg);
    assert Dispatch(w3, Move(mv, envm)) == Success((w4, m.value.1));
    var all := [Up(up), Move(mv, envm)];
    assert all[1..][1..] == [];
    RunStep(w3, all[1..], w4, m.value.1);
    RunStep(w, all, w3, []);
  }

  /** Two presses before the threshold (a second touch, say) subscribe twice;
      the first pair is never cancelled. After the release, that orphaned
      subscription still forwards document moves, so merely moving the
      pointer far enough starts a drag with no button held. The exact log
      rests on each document event reaching the reference at most once; in
      the source the leaked forwarder and the orphaned pair can each call the
      handler again, which would add emissions but not remove `started`. */
  lemma OrphanStartsDragAfterRelease(s: Session, reg: Registry, ev1: PointerEvent, ev2: PointerEvent, env: Env,
                                     mv: PointerEvent, envm: Env)
    requires s.subs.Live() == 0 && reg.active == {}
    requires Reaches(s, ev1, env) && !Refused(s, reg, ev1, env)
    requires Reaches(s, ev2, env) && !IsAuxiliaryButton(ev2) && !IsSynthetic(s, ev2, env.now)
    requires mv.kind == ev2.kind
    requires ReachesStartThreshold(PositionOnPage(mv.page, env.scroll), PositionOnPage(ev2.page, env.scroll),
                                   s.config.dragStartThreshold)
    ensures var o := Run(World(s, reg), [Down(ev1, env), Down(ev2, env), Up(ev2.kind), Move(mv, envm)]);
            && !o.faulted
            && o.log == [BeforeStarted, BeforeStarted, Started(PositionOnPage(mv.page, env.scroll))]
            && o.w.s.hasStarted && o.w.s.subs.orphans == 1 && !o.w.s.subs.current
  {
    var d1 := PointerDown(s, reg, ev1, env);
    var d2 := PointerDown(d1.s, d1.reg, ev2, env);
    var w1 := World(d1.s, d1.reg);
    var w2 := World(d2.s, d2.reg);
    var rest := [Up(ev2.kind), Move(mv, envm)];
    var all := [Down(ev1, env), Down(ev2, env), Up(ev2.kind), Move(mv, envm)];
    SecondPressThenRelease(s, reg, ev1, ev2, env, mv, envm);
    DispatchDown(World(s, reg), ev1, env);
    DispatchDown(w1, ev2, env);
    assert all[1..][1..] == rest;
    RunStep(w1, all[1..], w2, [BeforeStarted]);
    RunStep(World(s, reg), all, w1, [BeforeStarted]);
    assert [BeforeStarted] + ([BeforeStarted] + Run(w2, rest).log)
        == [BeforeStarted, BeforeStarted, Started(PositionOnPage(mv.page, env.scroll))];
  }

  /** The release and move that follow the two presses. */
  lemma SecondPressThenRelease(s: Session, reg: Registry, ev1: PointerEvent, ev2: PointerEvent, env: Env,
                               mv: PointerEvent, envm: Env)
    requires s.subs.Live() == 0 && reg.active == {}
    requires Reaches(s, ev1, env) && !Refused(s, reg, ev1, env)
    requires Reaches(s, ev2, env) && !IsAuxiliaryButton(ev2) && !IsSynthetic(s, ev2, env.now)
    requires mv.kind == ev2.kind
    requires ReachesStartThreshold(PositionOnPage(mv.page, env.scroll), PositionOnPage(ev2.page, env.scroll),
                                   s.config.dragStartThreshold)
    ensures var d1 := PointerDown(s, reg, ev1, env);
            var d2 := PointerDown(d1.s, d1.reg, ev2, env);
            var o := Run(World(d2.s, d2.reg), [Up(ev2.kind), Move(mv, envm)]);
            && !o.faulted && o.log == [Started(PositionOnPage(mv.page, env.scroll))]
            && o.w.s.hasStarted && o.w.s.subs == Subscriptions(1, false)
  {
    SecondPressForwards(s, reg, ev1, ev2, env);
    var d1 := PointerDown(s, reg, ev1, env);
    var d2 := PointerDown(d1.s, d1.reg, ev2, env);
    ReleaseThenMoveStarts(World(d2.s, d2.reg), ev2.kind, mv, envm);
  }

  /** With the pair replaced rather than added to, repeated presses never
      hold more than one live pair, and the release ends it. */
  lemma FixedPressesKeepOnePair(s: Session, reg: Registry, ref1: ElementId, ev1: PointerEvent,
                                ref2: ElementId, ev2: PointerEvent, env: Env)
    requires s.subs.orphans == 0
    ensures var (s1, reg1) := InitializeFixed(s, reg, ref1, ev1, env);
            var (s2, reg2) := InitializeFixed(s1, reg1, ref2, ev2, env);
            s2.subs.Live() <= 1 && RemoveSubscriptions(s2.subs).Live() == 0
  {
    var (s1, reg1) := InitializeFixed(s, reg, ref1, ev1, env);
    assert s1.subs.orphans == 0;
  }
}

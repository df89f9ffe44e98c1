/** The drag reference (`DraggableRef`): one draggable element's session as an
    immutable record, with one step function per pointer event and per public
    operation. Events the session emits are appended to a log. DOM mutation,
    styles, preview/placeholder creation and animation are outside the model;
    whether helpers exist is a flag, and the end of the preview animation is
    its own step. */
module Draggable {
  import opened Common
  import opened Geometry
  import opened DragMath
  import opened DragDropRegistry

  /** `DragRefConfig`. */
  datatype DragConfig = DragConfig(dragStartThreshold: int, pointerDirectionChangeThreshold: int)

  /** The configuration `createDrag` uses when none is given. */
  const DefaultConfig := DragConfig(5, 5)

  /** A mouse event arriving within this many milliseconds of the last touch
      is taken as the browser's emulation of that touch. */
  const MouseEventIgnoreTime := 800

  /** `_revert`: `true`/`false`, `'invalid'` or `'valid'`. An unset value
      behaves as `false` and is modelled so. */
  datatype RevertPolicy = RevertFlag(on: bool) | RevertOnInvalid | RevertOnValid

  /** The pointer-move/pointer-up subscription pair taken on the registry at
      each sequence start: `current` is the pair whose handles the session
      keeps; `orphans` counts earlier pairs whose handles were overwritten
      while still live. */
  datatype Subscriptions = Subscriptions(orphans: nat, current: bool) {
    function Live(): nat { orphans + (if current then 1 else 0) }
  }

  /** A pointer event as the session reads it. */
  datatype PointerEvent = PointerEvent(kind: InputKind, button: int, page: Point, target: Option<ElementId>)

  /** What the session asks of its environment while handling one event: the
      clock, the viewport scroll, element geometry, the preview's rectangle and
      DOM containment. */
  datatype Env = Env(
    now: int,
    scroll: Point,
    rectOf: ElementId -> Rect,
    previewRect: Rect,
    contains: (ElementId, ElementId) -> bool)

  /** Emissions of the session's subjects, in order. */
  datatype DragEvent =
    | BeforeStarted
    | Started(pointer: Point)
    | Moved(pointer: Point, delta: Point)
    | Released
    | Ended
    | Dropped(zone: ZoneId)

  datatype Session = Session(
    id: DragId,
    config: DragConfig,
    root: ElementId,                  // `_rootElement`
    handles: seq<ElementId>,          // `_handles`
    disabledHandles: set<ElementId>,  // `_disabledHandles`
    disabled: bool,
    lockAxis: Axis,
    revert: RevertPolicy,
    boundaryElement: Option<ElementId>,
    previewTemplate: bool,            // a preview template with a template ref is set
    helpers: bool,                    // a preview or a placeholder exists (`_dropContainer`)
    animating: bool,                  // the release animation has not finished
    lastTouchTime: Option<int>,
    passive: Point,                   // `_passiveTransform`
    active: Point,                    // `_activeTransform`
    previewPosition: Point,           // translation last given to the preview
    hasStarted: bool,                 // `_hasStartedDragging`
    hasMoved: bool,
    scroll: Point,                    // `_scrollPosition`
    boundaryRect: Option<Rect>,
    previewRect: Option<Rect>,
    pickupInElement: Point,
    pickupOnPage: Point,
    moveObservers: nat,               // `_moveEventSubscriptions`
    direction: DirectionState,        // delta and position at last direction change
    dropped: set<ZoneId>,             // `_dropedInternals`
    subs: Subscriptions)

  /** A step of the session together with the registry it shares. */
  datatype Step = Step(s: Session, reg: Registry, log: seq<DragEvent>)

  /** A freshly created drag reference for `root`. */
  function NewSession(id: DragId, root: ElementId, config: DragConfig): (s: Session)
    ensures !s.hasStarted && s.subs.Live() == 0 && s.dropped == {} && s.moveObservers == 0
    ensures s.passive == Origin && s.active == Origin && !s.helpers && !s.animating
  {
    Session(id, config, root, [], {}, false, NoLock, RevertFlag(false), None, false, false, false,
            None, Origin, Origin, Origin, false, false, Origin, None, None, Origin, Origin, 0,
            DirectionState(Origin, Origin), {}, Subscriptions(0, false))
  }

  /** `isDragging()`: the threshold was crossed and the registry holds it. */
  predicate IsDragging(s: Session, reg: Registry)
  {
    s.hasStarted && DragDropRegistry.IsDragging(reg, s.id)
  }

  /** `hasDroped`. */
  predicate HasDropped(s: Session)
  {
    s.dropped != {}
  }

  /** `withHandles`: replaces the handle list. The disabled-handle set is
      left as it was. */
  function WithHandles(s: Session, handles: seq<ElementId>): (r: Session)
    ensures r.handles == handles && r.disabledHandles == s.disabledHandles
    ensures r.(handles := s.handles) == s
  {
    s.(handles := handles)
  }

  /** `withBoundaryElement`. */
  function WithBoundaryElement(s: Session, boundary: Option<ElementId>): (r: Session)
    ensures r.boundaryElement == boundary && r.(boundaryElement := s.boundaryElement) == s
  {
    s.(boundaryElement := boundary)
  }

  /** `withRootElement`: the root becomes `e`; rebinding the pointer-down
      listeners to it is outside the model. */
  function WithRootElement(s: Session, e: ElementId): (r: Session)
    ensures r.root == e && r.(root := s.root) == s
  {
    s.(root := e)
  }

  /** The `disabled` setter: only the flag changes, and only when the coerced
      value differs from it. */
  function SetDisabled(s: Session, value: RawValue, coerce: Coercion): (r: Session)
    ensures r.disabled == coerce(value)
    ensures r.(disabled := s.disabled) == s
  {
    var v := coerce(value);
    if v != s.disabled then s.(disabled := v) else s
  }

  /** `disableHandle`: an element that is not one of the handles is ignored. */
  function DisableHandle(s: Session, h: ElementId): (r: Session)
    ensures forall e :: e in r.disabledHandles <==> e in s.disabledHandles || (e == h && h in s.handles)
    ensures r.(disabledHandles := s.disabledHandles) == s
  {
    if h in s.handles then s.(disabledHandles := s.disabledHandles + {h}) else s
  }

  /** `enableHandle`: removes the element whether or not it is a handle. */
  function EnableHandle(s: Session, h: ElementId): (r: Session)
    ensures forall e :: e in r.disabledHandles <==> e in s.disabledHandles && e != h
    ensures r.(disabledHandles := s.disabledHandles) == s
  {
    s.(disabledHandles := s.disabledHandles - {h})
  }

  /** Disabling then enabling a handle restores the set it started from when
      the handle was not disabled before. */
  lemma DisableThenEnable(s: Session, h: ElementId)
    requires h !in s.disabledHandles
    ensures EnableHandle(DisableHandle(s, h), h) == s
  {
    assert s.disabledHandles + {h} - {h} == s.disabledHandles;
    assert s.disabledHandles - {h} == s.disabledHandles;
  }

  /** `revert()`: both transforms return to the origin. */
  function Revert(s: Session): (r: Session)
    ensures r.active == Origin && r.passive == Origin
    ensures r.(active := s.active, passive := s.passive) == s
  {
    s.(active := Origin, passive := Origin)
  }

  /** `drop(dropRef)`: records the zone and emits `dropped`. */
  function Drop(s: Session, z: ZoneId): (r: (Session, seq<DragEvent>))
    ensures r.0.dropped == s.dropped + {z} && HasDropped(r.0)
    ensures r.0.(dropped := s.dropped) == s
    ensures r.1 == [Dropped(z)]
  {
    (s.(dropped := s.dropped + {z}), [Dropped(z)])
  }

  /** The revert rule applied on release without helpers. */
  predicate ShouldRevert(policy: RevertPolicy, hasDropped: bool)
  {
    || (policy == RevertOnInvalid && !hasDropped)
    || (policy == RevertOnValid && hasDropped)
    || policy == RevertFlag(true)
  }

  /** The rule read per policy: a flag reverts iff it is set, `'invalid'`
      reverts iff nothing accepted the drop, `'valid'` iff something did. */
  lemma RevertTable(policy: RevertPolicy, hasDropped: bool)
    ensures policy.RevertFlag? ==> (ShouldRevert(policy, hasDropped) <==> policy.on)
    ensures policy == RevertOnInvalid ==> (ShouldRevert(policy, hasDropped) <==> !hasDropped)
    ensures policy == RevertOnValid ==> (ShouldRevert(policy, hasDropped) <==> hasDropped)
  {
  }

  /** Subscribing to `moved` counts an observer; the teardown of such a
      subscription uncounts it. */
  function SubscribeMoved(s: Session): (r: Session)
    ensures r.moveObservers == s.moveObservers + 1 && r.(moveObservers := s.moveObservers) == s
  {
    s.(moveObservers := s.moveObservers + 1)
  }

  function UnsubscribeMoved(s: Session): (r: Session)
    requires s.moveObservers > 0
    ensures r.moveObservers + 1 == s.moveObservers && r.(moveObservers := s.moveObservers) == s
  {
    s.(moveObservers := s.moveObservers - 1)
  }

  /** `initDragHelpers`: the session creates both a preview and a
      placeholder, which switches it to helper mode. */
  function InitDragHelpers(s: Session): (r: Session)
    ensures r.helpers && r.(helpers := s.helpers) == s
  {
    s.(helpers := true)
  }

  /** Whether a pressed target lies in handle `h`. */
  predicate Hits(h: ElementId, target: Option<ElementId>, contains: (ElementId, ElementId) -> bool)
  {
    target.Some? && (target.value == h || contains(h, target.value))
  }

  /** `_handles.find(...)`: the first handle the target lies in. */
  function FindHandle(handles: seq<ElementId>, target: Option<ElementId>,
                      contains: (ElementId, ElementId) -> bool): (r: Option<ElementId>)
    ensures r.None? <==> forall j :: 0 <= j < |handles| ==> !Hits(handles[j], target, contains)
    ensures r.Some? ==> exists k :: 0 <= k < |handles| && handles[k] == r.value
                          && Hits(handles[k], target, contains)
                          && forall j :: 0 <= j < k ==> !Hits(handles[j], target, contains)
    decreases |handles|
  {
    if |handles| == 0 then None
    else if Hits(handles[0], target, contains) then Some(handles[0])
    else
      var r := FindHandle(handles[1..], target, contains);
      if r.Some? then
        ghost var k :| 0 <= k < |handles[1..]| && handles[1..][k] == r.value
                       && Hits(handles[1..][k], target, contains)
                       && forall j :: 0 <= j < k ==> !Hits(handles[1..][j], target, contains);
        assert handles[k + 1] == r.value;
        assert forall j :: 0 < j < k + 1 ==> handles[j] == handles[1..][j - 1];
        r
      else
        assert forall j :: 0 < j < |handles| ==> handles[j] == handles[1..][j - 1];
        r
  }

  /** The handle gate of `_pointerDown`: with handles configured, the press
      must land in a handle, and the first such handle must be enabled. */
  predicate HandleAllows(s: Session, ev: PointerEvent, env: Env)
  {
    |s.handles| == 0 ||
    (var h := FindHandle(s.handles, ev.target, env.contains); h.Some? && h.value !in s.disabledHandles)
  }

  /** The element the sequence is initialised against: the handle pressed,
      or the root when there are no handles. */
  function ReferenceElement(s: Session, ev: PointerEvent, env: Env): ElementId
    requires HandleAllows(s, ev, env)
  {
    if |s.handles| == 0 then s.root else FindHandle(s.handles, ev.target, env.contains).value
  }

  predicate IsAuxiliaryButton(ev: PointerEvent) { ev.kind == Mouse && ev.button != 0 }

  /** A mouse event shortly after a touch is the browser's emulation of it;
      an unset (or zero) last-touch time never counts. */
  predicate IsSynthetic(s: Session, ev: PointerEvent, now: int)
  {
    ev.kind == Mouse && s.lastTouchTime.Some? && s.lastTouchTime.value != 0
    && s.lastTouchTime.value + MouseEventIgnoreTime > now
  }

  /** The refusals of `_initializeDragSequence`. */
  predicate Refused(s: Session, reg: Registry, ev: PointerEvent, env: Env)
  {
    IsDragging(s, reg) || IsAuxiliaryButton(ev) || IsSynthetic(s, ev, env.now)
  }

  /** Taking a new registry subscription pair: as written, the handles of a
      pair that is still live are overwritten, orphaning it. */
  function Subscribe(subs: Subscriptions): (r: Subscriptions)
    ensures r.current && r.Live() == subs.Live() + 1
  {
    Subscriptions(subs.orphans + (if subs.current then 1 else 0), true)
  }

  /** Unsubscribing before subscribing, which keeps one live pair at most. */
  function SubscribeFixed(subs: Subscriptions): (r: Subscriptions)
    ensures r.current && r.orphans == subs.orphans && r.Live() == subs.orphans + 1
  {
    Subscriptions(subs.orphans, true)
  }

  /** `_removeSubscriptions`: only the pair whose handles are kept is ended. */
  function RemoveSubscriptions(subs: Subscriptions): (r: Subscriptions)
    ensures !r.current && r.orphans == subs.orphans
  {
    subs.(current := false)
  }

  /** The part of `_initializeDragSequence` after the refusal checks, apart
      from the subscription: capture scroll and boundary, compute pickup
      points and reset the per-sequence flags and direction tracker. */
  function Arm(s: Session, reference: ElementId, ev: PointerEvent, env: Env): (r: Session)
    ensures !r.hasStarted && !r.hasMoved && r.dropped == {}
    ensures r.pickupOnPage == PositionOnPage(ev.page, env.scroll)
    ensures r.direction == DirectionState(Origin, r.pickupOnPage)
    ensures s.previewTemplate ==> r.pickupInElement == Origin
    ensures !s.previewTemplate ==> r.pickupInElement == Sub(Sub(ev.page, Point(env.rectOf(s.root).left, env.rectOf(s.root).top)), env.scroll)
    ensures s.boundaryElement.Some? ==> r.boundaryRect == Some(env.rectOf(s.boundaryElement.value))
    ensures s.boundaryElement.None? ==> r.boundaryRect == s.boundaryRect
    ensures r.passive == s.passive && r.active == s.active && r.subs == s.subs
  {
    var pickupOnPage := PositionOnPage(ev.page, env.scroll);
    s.(
      dropped := {},
      hasStarted := false,
      hasMoved := false,
      scroll := env.scroll,
      boundaryRect := if s.boundaryElement.Some? then Some(env.rectOf(s.boundaryElement.value)) else s.boundaryRect,
      pickupInElement := if s.previewTemplate then Origin
                         else PointerInElement(ev.page, env.scroll, env.rectOf(s.root), env.rectOf(reference)),
      pickupOnPage := pickupOnPage,
      direction := DirectionState(Origin, pickupOnPage))
  }

  /** `_initializeDragSequence` as written. The drop set is cleared first,
      whether or not the sequence is refused. */
  function InitializeDragSequence(s: Session, reg: Registry, reference: ElementId,
                                  ev: PointerEvent, env: Env): (r: (Session, Registry))
    ensures Refused(s, reg, ev, env) ==> r == (s.(dropped := {}), reg)
    ensures !Refused(s, reg, ev, env) ==>
              && r.0 == Arm(s, reference, ev, env).(subs := Subscribe(s.subs))
              && r.1 == StartDragging(reg, s.id, ev.kind)
  {
    if Refused(s, reg, ev, env) then (s.(dropped := {}), reg)
    else (Arm(s, reference, ev, env).(subs := Subscribe(s.subs)), StartDragging(reg, s.id, ev.kind))
  }

  /** `_initializeDragSequence` that ends the previous subscription pair
      before taking a new one. */
  function InitializeFixed(s: Session, reg: Registry, reference: ElementId,
                           ev: PointerEvent, env: Env): (r: (Session, Registry))
    ensures Refused(s, reg, ev, env) ==> r == (s.(dropped := {}), reg)
    ensures !Refused(s, reg, ev, env) ==> r.0.subs.Live() == s.subs.orphans + 1
    ensures r.0.subs.orphans == s.subs.orphans
  {
    if Refused(s, reg, ev, env) then (s.(dropped := {}), reg)
    else (Arm(s, reference, ev, env).(subs := SubscribeFixed(s.subs)), StartDragging(reg, s.id, ev.kind))
  }

  /** Whether a pointer-down reaches `_initializeDragSequence`. */
  predicate Reaches(s: Session, ev: PointerEvent, env: Env)
  {
    !s.disabled && HandleAllows(s, ev, env)
  }

  /** `_pointerDown` on a reference whose `beforeStarted` observers do not
      reconfigure it. `beforeStarted` is the only emission, and it comes
      before every gate. A disabled reference or a press outside an enabled
      handle changes nothing; otherwise the sequence is initialised against
      the pressed handle or the root. */
  function PointerDown(s: Session, reg: Registry, ev: PointerEvent, env: Env): (r: Step)
    ensures r.log == [BeforeStarted]
    ensures !Reaches(s, ev, env) ==> r.s == s && r.reg == reg
    ensures Reaches(s, ev, env) ==>
              (r.s, r.reg) == InitializeDragSequence(s, reg, ReferenceElement(s, ev, env), ev, env)
  {
    var (s', reg') := PointerDownGate(s, reg, ev, env);
    Step(s', reg', [BeforeStarted])
  }

  /** The gates of `_pointerDown` after `beforeStarted` has fired. */
  function PointerDownGate(s: Session, reg: Registry, ev: PointerEvent, env: Env): (Session, Registry)
  {
    if s.disabled then (s, reg)
    else if |s.handles| > 0 then
      var h := FindHandle(s.handles, ev.target, env.contains);
      if h.Some? && h.value !in s.disabledHandles then InitializeDragSequence(s, reg, h.value, ev, env)
      else (s, reg)
    else InitializeDragSequence(s, reg, s.root, ev, env)
  }

  /** A pointer-down can only start a sequence the registry then holds, with
      the start flag down; it never starts one while the reference is
      dragging. */
  lemma DownStartsArmedSequence(s: Session, reg: Registry, ev: PointerEvent, env: Env)
    ensures var r := PointerDown(s, reg, ev, env);
            r.reg != reg ==> Reaches(s, ev, env) && !Refused(s, reg, ev, env)
                             && DragDropRegistry.IsDragging(r.reg, s.id) && !r.s.hasStarted && r.s.subs.current
    ensures IsDragging(s, reg) ==> PointerDown(s, reg, ev, env).reg == reg
  {
  }

  /** The preview rectangle a move sample works with: re-read when a
      boundary element is set and no non-empty rectangle is recorded. */
  function SampleRect(s: Session, env: Env): (r: Option<Rect>)
    ensures s.boundaryElement.None? ==> r == s.previewRect
    ensures s.boundaryElement.Some? ==> r.Some?
  {
    if s.boundaryElement.Some? &&
       (s.previewRect.None? || (s.previewRect.value.width == 0 && s.previewRect.value.height == 0))
    then Some(if s.helpers then env.previewRect else env.rectOf(s.root))
    else s.previewRect
  }

  /** `_pointerMove`. Before the start threshold a sample only checks the
      threshold: below it nothing changes; at or above it the start flag is
      raised and `started` fires with the page position (a touch also records
      the touch time). After the threshold a sample constrains the pointer,
      updates the direction tracker and either translates the element by the
      pointer's travel from pickup on top of the passive transform, or, with
      helpers, places the preview at the pointer minus the pickup offset;
      `moved` fires only when someone observes it. */
  function PointerMove(s: Session, ev: PointerEvent, env: Env): (r: Result<(Session, seq<DragEvent>), Fault>)
    ensures (!s.hasStarted && !ReachesStartThreshold(PositionOnPage(ev.page, s.scroll), s.pickupOnPage, s.config.dragStartThreshold))
              ==> r == Success((s, []))
    ensures (!s.hasStarted && ReachesStartThreshold(PositionOnPage(ev.page, s.scroll), s.pickupOnPage, s.config.dragStartThreshold))
              ==> r.Success? && r.value.1 == [Started(PositionOnPage(ev.page, s.scroll))]
                  && r.value.0.hasStarted && r.value.0.(hasStarted := false, lastTouchTime := s.lastTouchTime) == s
                  && r.value.0.lastTouchTime == (if ev.kind == Touch then Some(env.now) else s.lastTouchTime)
    ensures s.hasStarted ==>
              var c := Constrain(PositionOnPage(ev.page, s.scroll), s.pickupOnPage, s.lockAxis,
                                 s.boundaryRect, SampleRect(s, env), s.pickupInElement);
              && (c.Failure? <==> r.Failure?)
              && (r.Success? ==>
                    var (s', log) := r.value;
                    && s'.hasStarted && s'.hasMoved
                    && s'.direction == UpdateDelta(s.direction, c.value, s.config.pointerDirectionChangeThreshold)
                    && (!s.helpers ==> s'.active == Point(c.value.x - s.pickupOnPage.x + s.passive.x,
                                                          c.value.y - s.pickupOnPage.y + s.passive.y))
                    && (s.helpers ==> s'.active == s.active && s'.previewPosition == Sub(c.value, s.pickupInElement))
                    && s'.passive == s.passive && s'.subs == s.subs && s'.dropped == s.dropped
                    && (s.moveObservers > 0 ==> log == [Moved(c.value, s'.direction.delta)])
                    && (s.moveObservers == 0 ==> log == []))
  {
    if !s.hasStarted then
      var pos := PositionOnPage(ev.page, s.scroll);
      if ReachesStartThreshold(pos, s.pickupOnPage, s.config.dragStartThreshold) then
        var s' := s.(hasStarted := true,
                     lastTouchTime := if ev.kind == Touch then Some(env.now) else s.lastTouchTime);
        Success((s', [Started(pos)]))
      else Success((s, []))
    else
      var previewRect := SampleRect(s, env);
      var c := Constrain(PositionOnPage(ev.page, s.scroll), s.pickupOnPage, s.lockAxis,
                         s.boundaryRect, previewRect, s.pickupInElement);
      match c
      case Failure(e) => Failure(e)
      case Success(p) =>
        var direction := UpdateDelta(s.direction, p, s.config.pointerDirectionChangeThreshold);
        var s1 := s.(previewRect := previewRect, hasMoved := true, direction := direction);
        var s2 := if s.helpers then s1.(previewPosition := Sub(p, s.pickupInElement))
                  else s1.(active := Point(p.x - s.pickupOnPage.x + s.passive.x, p.y - s.pickupOnPage.y + s.passive.y));
        Success((s2, if s.moveObservers > 0 then [Moved(p, direction.delta)] else []))
  }

  /** Without helpers, a drag that has moved sits at the pickup-relative
      pointer travel: the element's translation minus the passive transform
      equals the constrained pointer minus the pickup point. */
  lemma MoveTracksPointer(s: Session, ev: PointerEvent, env: Env)
    requires s.hasStarted && !s.helpers && s.boundaryRect.None?
    ensures var r := PointerMove(s, ev, env);
            r.Success? &&
            Sub(r.value.0.active, s.passive) == Sub(LockToAxis(PositionOnPage(ev.page, s.scroll), s.pickupOnPage, s.lockAxis), s.pickupOnPage)
  {
  }

  /** `_pointerUp` as written. A release the registry does not hold does
      nothing. Otherwise the current subscription pair ends; before the start
      threshold nothing else happens (in particular the registry keeps the
      drag). After it, `released` fires and the registry lets the drag go;
      without helpers the passive transform takes the active one, the revert
      rule may reset both, and `ended` fires; with helpers `ended` waits for
      the end of the animation. */
  function PointerUp(s: Session, reg: Registry): (r: Step)
    ensures !DragDropRegistry.IsDragging(reg, s.id) ==> r == Step(s, reg, [])
    ensures DragDropRegistry.IsDragging(reg, s.id) && !s.hasStarted ==>
              r == Step(s.(subs := RemoveSubscriptions(s.subs)), reg, [])
    ensures DragDropRegistry.IsDragging(reg, s.id) && s.hasStarted ==>
              && r.reg == StopDragging(reg, s.id)
              && !r.s.subs.current && r.s.subs.orphans == s.subs.orphans
              && (!s.helpers ==> r.log == [Released, Ended] && r.s.animating == s.animating
                                 && (ShouldRevert(s.revert, HasDropped(s)) ==> r.s.active == Origin && r.s.passive == Origin)
                                 && (!ShouldRevert(s.revert, HasDropped(s)) ==> r.s.active == s.active && r.s.passive == s.active))
              && (s.helpers ==> r.log == [Released] && r.s.animating && r.s.active == s.active && r.s.passive == s.passive)
  {
    if !DragDropRegistry.IsDragging(reg, s.id) then Step(s, reg, [])
    else
      var s1 := s.(subs := RemoveSubscriptions(s.subs));
      if !s1.hasStarted then Step(s1, reg, [])
      else
        var reg1 := StopDragging(reg, s.id);
        if !s1.helpers then
          var s2 := s1.(passive := s1.active);
          var s3 := if ShouldRevert(s.revert, HasDropped(s)) then Revert(s2) else s2;
          StopIdempotent(reg, s.id);
          Step(s3, StopDragging(reg1, s.id), [Released, Ended])
        else Step(s1.(animating := true), reg1, [Released])
  }

  /** The end of the release animation: the helpers are destroyed, the
      boundary and preview rectangles forgotten, `ended` fires and the
      registry lets the drag go (again). Nothing happens when no animation is
      pending. */
  function AnimationDone(s: Session, reg: Registry): (r: Step)
    ensures !s.animating ==> r == Step(s, reg, [])
    ensures s.animating ==> r.log == [Ended] && !r.s.animating && !r.s.helpers
                            && r.s.boundaryRect.None? && r.s.previewRect.None?
                            && r.reg == StopDragging(reg, s.id)
                            && r.s.active == s.active && r.s.passive == s.passive && r.s.subs == s.subs
  {
    if !s.animating then Step(s, reg, [])
    else
      Step(s.(animating := false, helpers := false, boundaryRect := None, previewRect := None),
           StopDragging(reg, s.id), [Ended])
  }

  /** `_pointerUp` with the registry released right after the subscriptions
      end, as the commented-out call on the early path intends: after any
      release the registry no longer holds the drag. */
  function PointerUpFixed(s: Session, reg: Registry): (r: Step)
    ensures !DragDropRegistry.IsDragging(r.reg, s.id)
    ensures !DragDropRegistry.IsDragging(reg, s.id) ==> r == Step(s, reg, [])
    ensures DragDropRegistry.IsDragging(reg, s.id) && !s.hasStarted ==> r.log == [] && r.reg == StopDragging(reg, s.id)
    ensures DragDropRegistry.IsDragging(reg, s.id) && s.hasStarted ==> r == PointerUp(s, reg)
  {
    if !DragDropRegistry.IsDragging(reg, s.id) then Step(s, reg, [])
    else if !s.hasStarted then Step(s.(subs := RemoveSubscriptions(s.subs)), StopDragging(reg, s.id), [])
    else
      StopIdempotent(reg, s.id);
      PointerUp(s, reg)
  }
}

/** The drag-drop registry service: the set of drag references currently
    dragging, the table of global listeners it installs on the document while
    that set is non-empty, and the document's own record of attached listeners
    (the table can lose track of what it attached; see `StartDraggingFixed`). */
module DragDropRegistry {
  import opened Common

  /** The kind of pointer input that started a drag. */
  datatype InputKind = Mouse | Touch

  /** The document events the registry listens to. */
  datatype EventName = MouseMove | MouseUp | TouchMove | TouchEnd | SelectStart | Wheel

  /** A listener function. The move/up forwarders are fresh closures every
      time the table is built, told apart by the generation that built them;
      `PreventWhileDragging` is one shared bound method. */
  datatype Handler = Forward(generation: nat) | PreventWhileDragging

  datatype Registry = Registry(
    active: set<DragId>,                 // `_activeDragInstances`
    listeners: map<EventName, Handler>,  // `_globalListeners`
    document: set<(EventName, Handler)>, // listeners attached to the document
    generation: nat                      // closures built so far
  )

  const Initial := Registry({}, map[], {}, 0)

  function MoveEvent(kind: InputKind): EventName { if kind == Touch then TouchMove else MouseMove }
  function UpEvent(kind: InputKind): EventName { if kind == Touch then TouchEnd else MouseUp }

  /** The listener names one table build installs for an input kind. */
  function Installed(kind: InputKind): set<EventName>
  {
    if kind == Touch then {TouchMove, TouchEnd, SelectStart}
    else {MouseMove, MouseUp, SelectStart, Wheel}
  }

  /** The (name, handler) pairs a table stands for. */
  function Pairs(t: map<EventName, Handler>): set<(EventName, Handler)>
  {
    set n | n in t :: (n, t[n])
  }

  /** Reference-count invariant: the table is filled iff some drag is active. */
  ghost predicate Inv(r: Registry)
  {
    (r.listeners == map[]) <==> (r.active == {})
  }

  /** The document holds exactly the listeners the table records. */
  ghost predicate InSync(r: Registry)
  {
    r.document == Pairs(r.listeners)
  }

  /** `isDragging(drag)`. */
  predicate IsDragging(r: Registry, d: DragId)
  {
    d in r.active
  }

  /** Whether a document event called `name` reaches the registry's
      subjects: some forwarder closure, current or left behind by an earlier
      build, is attached to the document under that name. */
  predicate Forwards(r: Registry, name: EventName)
  {
    exists p :: p in r.document && p.0 == name && p.1.Forward?
  }

  /** The table build of `startDragging`: `Map.set` for move, up, selectstart
      and (mouse only) wheel, then every table entry is added to the document. */
  function Build(r: Registry, kind: InputKind): (r': Registry)
    ensures r'.listeners.Keys == r.listeners.Keys + Installed(kind)
    ensures r'.listeners[MoveEvent(kind)] == Forward(r.generation)
    ensures r'.listeners[UpEvent(kind)] == Forward(r.generation)
    ensures r'.listeners[SelectStart] == PreventWhileDragging
    ensures kind == Mouse ==> r'.listeners[Wheel] == PreventWhileDragging
    ensures forall n :: n in r.listeners && n !in Installed(kind) ==> r'.listeners[n] == r.listeners[n]
    ensures r'.document == r.document + Pairs(r'.listeners)
    ensures r'.active == r.active && r'.generation == r.generation + 1
  {
    var g := Forward(r.generation);
    var t := r.listeners[MoveEvent(kind) := g][UpEvent(kind) := g][SelectStart := PreventWhileDragging];
    var t' := if kind == Mouse then t[Wheel := PreventWhileDragging] else t;
    r.(listeners := t', document := r.document + Pairs(t'), generation := r.generation + 1)
  }

  /** After a build, the document forwards the move and up events of the
      input kind it was built for. */
  lemma BuildForwards(r: Registry, kind: InputKind)
    ensures Forwards(Build(r, kind), MoveEvent(kind)) && Forwards(Build(r, kind), UpEvent(kind))
  {
    var r' := Build(r, kind);
    assert MoveEvent(kind) in r'.listeners && UpEvent(kind) in r'.listeners;
    assert (MoveEvent(kind), Forward(r.generation)) in r'.document;
    assert (UpEvent(kind), Forward(r.generation)) in r'.document;
  }

  /** `startDragging(drag, event)` as written: the table is (re)built whenever
      the active set has exactly one member after the add. */
  function StartDragging(r: Registry, d: DragId, kind: InputKind): (r': Registry)
    ensures r'.active == r.active + {d}
    ensures |r'.active| == 1 ==> r' == Build(r.(active := r'.active), kind)
    ensures |r'.active| != 1 ==> r'.listeners == r.listeners && r'.document == r.document
  {
    var active := r.active + {d};
    var r1 := r.(active := active);
    if |active| == 1 then Build(r1, kind) else r1
  }

  /** `_clearGlobalListeners`: every table entry is removed from the document
      and the table is emptied. */
  function ClearGlobalListeners(r: Registry): (r': Registry)
    ensures r'.listeners == map[]
    ensures r'.document == r.document - Pairs(r.listeners)
    ensures r'.active == r.active && r'.generation == r.generation
  {
    r.(listeners := map[], document := r.document - Pairs(r.listeners))
  }

  /** `stopDragging(drag)`. */
  function StopDragging(r: Registry, d: DragId): (r': Registry)
    ensures r'.active == r.active - {d}
    ensures r'.active == {} ==> r'.listeners == map[]
    ensures r'.active != {} ==> r'.listeners == r.listeners && r'.document == r.document
  {
    var r1 := r.(active := r.active - {d});
    if |r1.active| == 0 then ClearGlobalListeners(r1) else r1
  }

  /** `_preventDefaultWhileDragging`: whether the handler cancels the event. */
  function PreventsDefault(r: Registry): (prevent: bool)
    ensures prevent <==> exists d :: IsDragging(r, d)
  {
    if |r.active| > 0 then
      var d :| d in r.active;
      assert IsDragging(r, d);
      true
    else false
  }

  lemma StartedIsDragging(r: Registry, d: DragId, e: DragId, kind: InputKind)
    ensures IsDragging(StartDragging(r, d, kind), e) <==> e == d || IsDragging(r, e)
  {
  }

  /** Starting from an empty table, a mouse start installs exactly
      mousemove, mouseup, selectstart and wheel, and a touch start exactly
      touchmove, touchend and selectstart. */
  lemma FirstStartInstalls(r: Registry, d: DragId, kind: InputKind)
    requires r.active == {} && r.listeners == map[]
    ensures StartDragging(r, d, kind).listeners.Keys == Installed(kind)
    ensures kind == Touch ==> Wheel !in StartDragging(r, d, kind).listeners
  {
    assert |r.active + {d}| == 1;
  }

  /** A second, distinct drag starting while one is active leaves the table
      and the document alone. */
  lemma SecondStartKeepsTable(r: Registry, d: DragId, kind: InputKind)
    requires r.active != {} && d !in r.active
    ensures StartDragging(r, d, kind).listeners == r.listeners
    ensures StartDragging(r, d, kind).document == r.document
  {
    var e :| e in r.active;
    assert {d, e} <= r.active + {d};
    assert |{d, e}| == 2;
    SubsetCard({d, e}, r.active + {d});
  }

  lemma SubsetCard<T>(a: set<T>, b: set<T>)
    requires a <= b
    ensures |a| <= |b|
  {
    assert b == a + (b - a);
  }

  /** The reference-count invariant survives both operations. */
  lemma StartKeepsInv(r: Registry, d: DragId, kind: InputKind)
    requires Inv(r)
    ensures Inv(StartDragging(r, d, kind))
  {
    var r' := StartDragging(r, d, kind);
    assert r.active == {} ==> r'.active == {d};
    if |r'.active| == 1 {
      assert MoveEvent(kind) in r'.listeners;
    }
  }

  lemma StopKeepsInv(r: Registry, d: DragId)
    requires Inv(r)
    ensures Inv(StopDragging(r, d))
  {
  }

  /** `stopDragging` is idempotent, which matters because one release calls
      it twice; on a registry in its invariant, stopping a drag that is not
      active changes nothing. */
  lemma StopIdempotent(r: Registry, d: DragId)
    ensures StopDragging(StopDragging(r, d), d) == StopDragging(r, d)
  {
    var r1 := StopDragging(r, d);
    assert r1.active - {d} == r1.active;
    if r1.active == {} {
      assert Pairs(r1.listeners) == {};
      assert r1.document - Pairs(r1.listeners) == r1.document;
    }
  }

  lemma StopNonMember(r: Registry, d: DragId)
    requires Inv(r) && d !in r.active
    ensures StopDragging(r, d) == r
  {
    assert r.active - {d} == r.active;
    if r.active == {} {
      assert Pairs(r.listeners) == {};
      assert r.document - Pairs(r.listeners) == r.document;
    }
  }

  /** Registry operations as a sequence of calls. */
  datatype Op = Start(d: DragId, kind: InputKind) | Stop(d: DragId)

  function Apply(r: Registry, op: Op): Registry
  {
    match op
    case Start(d, kind) => StartDragging(r, d, kind)
    case Stop(d) => StopDragging(r, d)
  }

  function Replay(r: Registry, ops: seq<Op>): Registry
    decreases |ops|
  {
    if |ops| == 0 then r else Replay(Apply(r, ops[0]), ops[1..])
  }

  /** From the initial registry, after any sequence of calls, the listener
      table is non-empty iff some drag is active, and wheel/selectstart are
      cancelled exactly then. */
  lemma {:induction false} ReplayKeepsInv(r: Registry, ops: seq<Op>)
    requires Inv(r)
    ensures Inv(Replay(r, ops))
    decreases |ops|
  {
    if |ops| > 0 {
      match ops[0] {
        case Start(d, kind) => StartKeepsInv(r, d, kind);
        case Stop(d) => StopKeepsInv(r, d);
      }
      ReplayKeepsInv(Apply(r, ops[0]), ops[1..]);
    }
  }

  lemma ReachableTableIffActive(ops: seq<Op>)
    ensures var r := Replay(Initial, ops);
            (r.listeners != map[] <==> r.active != {}) && (PreventsDefault(r) <==> r.active != {})
  {
    ReplayKeepsInv(Initial, ops);
  }

  /** `startDragging` with the evidently intended guard: the table is built
      only when the add took the active set from empty to one member. */
  function StartDraggingFixed(r: Registry, d: DragId, kind: InputKind): (r': Registry)
    ensures r'.active == r.active + {d}
    ensures r.active == {} ==> r'.listeners.Keys == r.listeners.Keys + Installed(kind)
    ensures r.active != {} ==> r'.listeners == r.listeners && r'.document == r.document
  {
    var r1 := r.(active := r.active + {d});
    if r.active == {} then Build(r1, kind) else r1
  }

  /** With the fixed guard, the document never holds a listener the table has
      forgotten: every start and stop keeps them in step. */
  lemma FixedStartKeepsInSync(r: Registry, d: DragId, kind: InputKind)
    requires Inv(r) && InSync(r)
    ensures Inv(StartDraggingFixed(r, d, kind)) && InSync(StartDraggingFixed(r, d, kind))
  {
    var r' := StartDraggingFixed(r, d, kind);
    if r.active == {} {
      assert r.listeners == map[] && r.document == {};
      assert MoveEvent(kind) in r'.listeners;
    }
  }

  lemma StopKeepsInSync(r: Registry, d: DragId)
    requires InSync(r)
    ensures InSync(StopDragging(r, d))
  {
    var r' := StopDragging(r, d);
    if r'.active == {} {
      assert r'.document == {};
    }
  }

  /** Replaying calls with the fixed guard keeps the document clean: once no
      drag is active, no listener is left on the document. */
  function ApplyFixed(r: Registry, op: Op): Registry
  {
    match op
    case Start(d, kind) => StartDraggingFixed(r, d, kind)
    case Stop(d) => StopDragging(r, d)
  }

  function ReplayFixed(r: Registry, ops: seq<Op>): Registry
    decreases |ops|
  {
    if |ops| == 0 then r else ReplayFixed(ApplyFixed(r, ops[0]), ops[1..])
  }

  lemma {:induction false} ReplayFixedKeepsDocumentClean(r: Registry, ops: seq<Op>)
    requires Inv(r) && InSync(r)
    ensures var r' := ReplayFixed(r, ops);
            Inv(r') && InSync(r') && (r'.active == {} ==> r'.document == {})
    decreases |ops|
  {
    if |ops| == 0 {
    } else {
      match ops[0] {
        case Start(d, kind) => FixedStartKeepsInSync(r, d, kind);
        case Stop(d) => StopKeepsInv(r, d); StopKeepsInSync(r, d);
      }
      ReplayFixedKeepsDocumentClean(ApplyFixed(r, ops[0]), ops[1..]);
    }
  }

  /** As written, re-starting the sole active drag orphans the first
      generation's mousemove listener: after a stop, no drag is active and
      the table is empty, yet the document still forwards mousemove. */
  lemma RestartLeaksListener(d: DragId)
    ensures var r := StopDragging(StartDragging(StartDragging(Initial, d, Mouse), d, Mouse), d);
            r.active == {} && r.listeners == map[] && (MouseMove, Forward(0)) in r.document
  {
    var r1 := StartDragging(Initial, d, Mouse);
    assert |r1.active| == 1;
    var r2 := StartDragging(r1, d, Mouse);
    assert r2.active == {d} && |r2.active| == 1;
    assert (MouseMove, Forward(0)) in r1.document;
    assert r2.listeners[MouseMove] == Forward(1);
    assert (MouseMove, Forward(0)) !in Pairs(r2.listeners);
  }
}

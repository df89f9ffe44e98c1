# ng-drag-drop pointer-drag engine in Dafny

This project models the pointer-drag engine of ng-drag-drop (`src/app/drag-drop/`). It is written as immutable records with pure step functions over integer page coordinates. The emissions of the RxJS subjects are modelled as an appended event log.

The project has these modules:

- `Common`: optional values, results with a fault, element/drag/zone identities, and raw template inputs.
- `Geometry`: points, rectangles, `clamp` and the Manhattan distance.
- `DragDropRegistry`: `DragDropRegistryService`. This is the set of active drags and the global-listener table. It also records what is actually attached to the document, so a listener the table forgets stays visible.
- `DragMath`: the per-sample arithmetic of `DraggableRef`. This covers the page position, the pickup offset, the axis lock, the boundary clamp and the thresholded direction delta.
- `Draggable`: the `DraggableRef` session. It has one step function for each pointer event (press, move, release), for the end of the release animation, and for each public operation.
- `Lifecycle`: whole input sequences through one reference and the shared registry. These give the threshold and emission-order properties.
- `Sortable`: `SortableRef`. This covers the membership filter, the per-drag subscriptions, the rectangle cache and the `_sort` shift decision.
- `Droppable`: `DroppableRef`. This covers acceptance, the activation flag, `disabled` and `despose`.
- `DraggableDirective`: the directive's ancestor walk, root and boundary resolution, input sync with its skip guard, handle filtering and handle state changes.
- `Findings`: input sequences that show where the code as written departs from what it evidently intends.

The main model follows the code as written. Each corrected behaviour under "## Findings" is a separate member beside the as-written one, with its intended property proved.

The environment is passed in as parameters:

- DOM geometry is `Env.rectOf` and `Env.previewRect`.
- Containment is `Env.contains`.
- The clock is `Env.now`.
- The viewport scroll is `Env.scroll`.
- Selector matching is a `matches` function.
- The parent chain is `Dom.ancestors`.
- `coerceBooleanProperty` is a `Coercion` function.

The registry's `startDragging$` broadcast is an explicit "any drag started" call on the container or the zone.

## Model

| member | source | states |
|---|---|---|
| Geometry.Clamp | src/app/drag-drop/draggable-ref.ts:819-821 | the result lies in [lo, hi] when lo ≤ hi; a value already inside is unchanged; below lo gives lo; above hi gives hi; lo > hi gives lo |
| Geometry.Manhattan | src/app/drag-drop/draggable-ref.ts:310-313 | the distance is zero exactly when the two points coincide |
| DragDropRegistry.IsDragging | src/app/drag-drop/drag-drop-registry.service.ts:41-43 | a drag counts as dragging iff it is in the active set; `StartedIsDragging` and `StopDragging` say how that set moves |
| DragDropRegistry.Forwards | src/app/drag-drop/drag-drop-registry.service.ts:53-60 | a document event reaches the `pointerMove`/`pointerUp` subject iff some forwarder closure is attached under its name, left-over ones from earlier builds included |
| DragDropRegistry.Build | src/app/drag-drop/drag-drop-registry.service.ts:49-78 | a table build adds move, up and selectstart (plus wheel for a mouse), with move/up as fresh forwarders of a new generation; other entries are kept; every entry is added to the document; the active set is untouched |
| DragDropRegistry.BuildForwards | src/app/drag-drop/drag-drop-registry.service.ts:49-78 | after a table build, the document forwards the move event and the up event of the input kind the build was for |
| DragDropRegistry.StartDragging | src/app/drag-drop/drag-drop-registry.service.ts:45-80 | the drag joins the active set; the table is rebuilt exactly when the set then has one member; otherwise the table and the document are unchanged |
| DragDropRegistry.ClearGlobalListeners | src/app/drag-drop/drag-drop-registry.service.ts:96-102 | every table entry is removed from the document and the table is emptied |
| DragDropRegistry.StopDragging | src/app/drag-drop/drag-drop-registry.service.ts:82-88 | the drag leaves the active set; an empty set leaves an empty table; a non-empty set leaves the table and the document as they were |
| DragDropRegistry.PreventsDefault | src/app/drag-drop/drag-drop-registry.service.ts:90-94 | selectstart/wheel are cancelled iff some drag is active |
| DragDropRegistry.StartedIsDragging | src/app/drag-drop/drag-drop-registry.service.ts:41-46 | after `startDragging(d)`, `isDragging(e)` holds iff e is d or e was already active |
| DragDropRegistry.FirstStartInstalls | src/app/drag-drop/drag-drop-registry.service.ts:49-72 | from an empty table, a mouse start installs exactly mousemove, mouseup, selectstart, wheel, and a touch start exactly touchmove, touchend, selectstart |
| DragDropRegistry.SecondStartKeepsTable | src/app/drag-drop/drag-drop-registry.service.ts:48 | starting a second, distinct drag while one is active leaves the table and the document unchanged |
| DragDropRegistry.StartKeepsInv | src/app/drag-drop/drag-drop-registry.service.ts:45-80 | start preserves "table non-empty iff some drag active" |
| DragDropRegistry.StopKeepsInv | src/app/drag-drop/drag-drop-registry.service.ts:82-88 | stop preserves the same invariant |
| DragDropRegistry.StopIdempotent | src/app/drag-drop/drag-drop-registry.service.ts:82-88 | stopping twice equals stopping once (a single release calls it twice, at draggable-ref.ts:381 and 395) |
| DragDropRegistry.StopNonMember | src/app/drag-drop/drag-drop-registry.service.ts:82-88 | under the invariant, stopping a drag that is not active changes nothing |
| DragDropRegistry.ReplayKeepsInv | src/app/drag-drop/drag-drop-registry.service.ts:45-102 | any sequence of start/stop calls preserves the reference-count invariant |
| DragDropRegistry.ReachableTableIffActive | src/app/drag-drop/drag-drop-registry.service.ts:45-102 | from the initial registry, the table is non-empty iff the active set is, and default-prevention holds exactly then |
| DragDropRegistry.StartDraggingFixed | src/app/drag-drop/drag-drop-registry.service.ts:45-80 | corrected start: the table is built only on the empty-to-one transition, otherwise the table and the document are unchanged |
| DragDropRegistry.FixedStartKeepsInSync | src/app/drag-drop/drag-drop-registry.service.ts:45-80 | with the corrected start, the document holds exactly the table's listeners, and the invariant is kept |
| DragDropRegistry.StopKeepsInSync | src/app/drag-drop/drag-drop-registry.service.ts:82-102 | a stop keeps the document equal to the table's listeners |
| DragDropRegistry.ReplayFixedKeepsDocumentClean | src/app/drag-drop/drag-drop-registry.service.ts:45-102 | with the corrected start, every call sequence keeps document and table in step, and no listener remains once no drag is active |
| DragDropRegistry.RestartLeaksListener | src/app/drag-drop/drag-drop-registry.service.ts:45-102 | as written, start, start again and stop on one drag leave no active drag and an empty table, yet the first mousemove forwarder is still on the document |
| DragMath.PositionOnPage | src/app/drag-drop/draggable-ref.ts:702-710 | the page position plus the captured scroll gives the event's page coordinates back |
| DragMath.PointerInElement | src/app/drag-drop/draggable-ref.ts:687-700 | the pickup offset is the pointer's offset from the root's corner minus scroll, whatever handle rectangle it was computed through |
| DragMath.LockToAxis | src/app/drag-drop/draggable-ref.ts:718-722 | lock 'x' pins y to the pickup y, 'y' pins x to the pickup x, no lock passes both through |
| DragMath.Constrain | src/app/drag-drop/draggable-ref.ts:713-738 | without a boundary the locked point passes; with one, each coordinate is clamped to [boundary.left+pickupX, boundary.right−(width−pickupX)] (same for y); a boundary with no preview rect throws |
| DragMath.ConstrainKeepsPreviewInside | src/app/drag-drop/draggable-ref.ts:724-735 | when the preview fits the boundary, the preview box placed at the constrained pointer lies inside the boundary on both axes |
| DragMath.AxisDelta | src/app/drag-drop/draggable-ref.ts:747-762 | an axis changes only when movement since its last change strictly exceeds the threshold, and then becomes +1/−1 by direction with its reference reset |
| DragMath.UpdateDelta | src/app/drag-drop/draggable-ref.ts:741-765 | each axis independently follows that rule; only the changed axis's reference is reset; unit components stay unit |
| DragMath.TrackStaysUnit | src/app/drag-drop/draggable-ref.ts:449-450 | starting from {0,0}, the delta stays in {−1,0,1} over any sample sequence |
| DragMath.JitterIgnored | src/app/drag-drop/draggable-ref.ts:754-762 | samples that all stay within the threshold of the reference leave the tracker exactly as it was |
| Draggable.NewSession | src/app/drag-drop/draggable-ref.ts:47-87 | a new reference has no transforms, no drops, no subscriptions, no helpers and zero `moved` observers |
| Draggable.IsDragging | src/app/drag-drop/draggable-ref.ts:165-167 | the reference is dragging iff it has crossed the start threshold and the registry holds it |
| Draggable.HasDropped | src/app/drag-drop/draggable-ref.ts:149-151 | `hasDroped` holds iff some zone was recorded by `drop` and not yet cleared by a press |
| Draggable.WithHandles | src/app/drag-drop/draggable-ref.ts:191-196 | the handle list is replaced; disabled handles are kept |
| Draggable.WithBoundaryElement | src/app/drag-drop/draggable-ref.ts:186-189 | only the boundary element changes |
| Draggable.WithRootElement | src/app/drag-drop/draggable-ref.ts:169-184 | only the root element changes |
| Draggable.SetDisabled | src/app/drag-drop/draggable-ref.ts:97-104 | the flag becomes the coerced value; nothing else changes |
| Draggable.DisableHandle | src/app/drag-drop/draggable-ref.ts:208-212 | an element becomes disabled only if it is one of the handles |
| Draggable.EnableHandle | src/app/drag-drop/draggable-ref.ts:214-216 | the element is no longer disabled; other disabled handles stay |
| Draggable.DisableThenEnable | src/app/drag-drop/draggable-ref.ts:208-216 | enabling undoes disabling for a handle that was enabled |
| Draggable.Revert | src/app/drag-drop/draggable-ref.ts:232-236 | both transforms become zero; nothing else changes |
| Draggable.Drop | src/app/drag-drop/draggable-ref.ts:256-263 | the zone is recorded, `hasDroped` then holds, and `dropped` is emitted |
| Draggable.RevertTable | src/app/drag-drop/draggable-ref.ts:386-390 | a flag reverts iff set, 'invalid' iff nothing was dropped, 'valid' iff something was |
| Draggable.SubscribeMoved | src/app/drag-drop/draggable-ref.ts:134-137 | subscribing to `moved` counts one observer more |
| Draggable.UnsubscribeMoved | src/app/drag-drop/draggable-ref.ts:138-141 | a teardown counts one observer less |
| Draggable.InitDragHelpers | src/app/drag-drop/draggable-ref.ts:269-283 | creating the preview and the placeholder switches the reference to helper mode and changes nothing else |
| Draggable.FindHandle | src/app/drag-drop/draggable-ref.ts:291-294 | the result is the first handle equal to or containing the target, or none iff no handle does |
| Draggable.Subscribe | src/app/drag-drop/draggable-ref.ts:436-437 | a new pair becomes current and the live count grows by one (an earlier current pair is orphaned) |
| Draggable.SubscribeFixed | src/app/drag-drop/draggable-ref.ts:436-437 | corrected subscribe: the previous current pair is replaced, so the orphan count is unchanged |
| Draggable.RemoveSubscriptions | src/app/drag-drop/draggable-ref.ts:767-770 | only the current pair ends; orphans are untouched |
| Draggable.Arm | src/app/drag-drop/draggable-ref.ts:434-451 | the flags are reset; pickup is the page position; the delta is zeroed with its reference at pickup; the pickup offset is zero with a preview template and is computed otherwise; the boundary rect is resampled when there is a boundary element |
| Draggable.Refused | src/app/drag-drop/draggable-ref.ts:408-422 | a press is refused iff the reference is already dragging, or it is a mouse press with a non-primary button, or it is a mouse press within 800 ms of a recorded non-zero touch time |
| Draggable.InitializeDragSequence | src/app/drag-drop/draggable-ref.ts:405-452 | a refusal (already dragging, non-primary button, mouse within 800 ms of a touch) only clears the drops; otherwise the reference is armed, subscribes, and the registry starts it |
| Draggable.InitializeFixed | src/app/drag-drop/draggable-ref.ts:405-452 | corrected initialisation: an accepted press leaves exactly one live pair besides the earlier orphans, and no press adds an orphan |
| Draggable.PointerDown | src/app/drag-drop/draggable-ref.ts:285-304 | `beforeStarted` always fires; a disabled reference or a press outside the enabled handles changes nothing; otherwise the sequence is initialised against the pressed handle or the root |
| Draggable.DownStartsArmedSequence | src/app/drag-drop/draggable-ref.ts:285-304 | a press that touches the registry was gated through, leaves the drag registered and armed with a current pair; a dragging reference leaves the registry alone |
| Draggable.SampleRect | src/app/drag-drop/draggable-ref.ts:321-325 | without a boundary the recorded preview rect is used as it is; with one a rect is always available |
| Draggable.PointerMove | src/app/drag-drop/draggable-ref.ts:306-362 | before the threshold, a move either does nothing or, at Manhattan distance ≥ threshold, sets the started flag and emits `started` once; after it, the sample is constrained, the delta updated, the transform set to constrained − pickup + passive (without helpers) or the preview moved (with helpers), and `moved` emitted iff it has observers; a failing constraint throws |
| Draggable.MoveTracksPointer | src/app/drag-drop/draggable-ref.ts:332-339 | without helpers or boundary, the active transform minus the passive one equals the locked pointer displacement from pickup |
| Draggable.PointerUp | src/app/drag-drop/draggable-ref.ts:364-403 | when the registry does not hold the drag, nothing; before the threshold, the pair ends and nothing is emitted or stopped; otherwise the registry stops it, and without helpers `released` then `ended` fire with passive := active and the revert rule applied, while with helpers only `released` fires and the animation is pending |
| Draggable.AnimationDone | src/app/drag-drop/draggable-ref.ts:400-403 | a pending animation ends with `ended`, the helpers and the cached rects dropped, and the registry stopping the drag |
| Draggable.PointerUpFixed | src/app/drag-drop/draggable-ref.ts:364-378 | corrected release: after any release the registry no longer holds the drag |
| Lifecycle.Dispatch | src/app/drag-drop/drag-drop-registry.service.ts:53-78 | a move or a release reaches the reference only while it holds a live subscription and the document forwards that event name; an undelivered one changes nothing; only a delivered move of a started drag can throw; moves and drops leave the registry alone |
| Lifecycle.Run | src/app/drag-drop/draggable-ref.ts:306-403 | inputs are handled in order and a throwing handler fails only its own call; its properties are the lemmas below, `OnlyMovesFault` and `FaultKeepsRelease` among them |
| Lifecycle.OnlyMovesFault | src/app/drag-drop/draggable-ref.ts:713-738 | a run records a throw only if it contains a move (the boundary clamp with no preview rectangle is the only throwing step) |
| Lifecycle.FaultKeepsRelease | src/app/drag-drop/draggable-ref.ts:364-394 | after a move that throws, the next delivered release still emits `released` and `ended` and the registry lets the drag go |
| Lifecycle.DispatchDown | src/app/drag-drop/draggable-ref.ts:177-178 | a press on the element always reaches the reference and logs only `beforeStarted` |
| Lifecycle.RunStep | src/app/drag-drop/draggable-ref.ts:306-403 | when the first input is handled without a throw, a run is that input's log followed by the run of the rest from the new state |
| Lifecycle.SmallMovesStayArmed | src/app/drag-drop/draggable-ref.ts:308-319 | moves that all stay below the start threshold leave an armed reference unchanged and emit nothing |
| Lifecycle.WalkAppend | src/app/drag-drop/draggable-ref.ts:306-403 | the emission automaton reads a concatenated log as the two parts in turn |
| Lifecycle.StepPhase | src/app/drag-drop/draggable-ref.ts:306-403 | every input other than a press moves the automaton along its own emissions into a phase matching the new state |
| Lifecycle.StepMove | src/app/drag-drop/draggable-ref.ts:306-362 | a move keeps the phase, or takes an armed reference to phase 1 by emitting `started` |
| Lifecycle.StepUp | src/app/drag-drop/draggable-ref.ts:364-403 | a release of a started drag goes to phase 2 with helpers and to phase 3 without; any other release keeps the phase |
| Lifecycle.RunFollowsPhases | src/app/drag-drop/draggable-ref.ts:306-403 | in any run without a press, `started` precedes `moved`, which precedes `released`, which precedes `ended` |
| Lifecycle.AcceptedCounts | src/app/drag-drop/draggable-ref.ts:313-316 | an accepted log holds at most one `started` and at most one `ended` |
| Lifecycle.SequenceAfterDown | src/app/drag-drop/draggable-ref.ts:313-316 | after an accepted press, `started` fires at most once and `ended` at most once, in order |
| Lifecycle.RevertOnInvalidDrop | src/app/drag-drop/draggable-ref.ts:380-394 | a standalone 'invalid' drag released with no drop ends with `released`, `ended`, zero transforms and the registry released |
| Lifecycle.RevertMoves | src/app/drag-drop/draggable-ref.ts:306-362 | a move past the threshold starts the drag and a second move moves it, leaving the registry, the subscriptions, the helper flag, the drops and the revert policy as they were |
| Lifecycle.ReleaseReverts | src/app/drag-drop/draggable-ref.ts:380-394 | a delivered release of a started standalone 'invalid' drag with no drops emits `released` then `ended`, zeroes both transforms and lets the registry go |
| Sortable.NewContainer | src/app/drag-drop/sortable-ref.ts:18-33 | a new container is subscribed to the broadcasts and has no members, subscriptions or cache |
| Sortable.WithItems | src/app/drag-drop/sortable-ref.ts:35-38 | only the items change |
| Sortable.RemoveDragSubscriptions | src/app/drag-drop/sortable-ref.ts:121-125 | every entry is unsubscribed and the array keeps its length |
| Sortable.AnyDragStarted | src/app/drag-drop/sortable-ref.ts:47-59 | a non-member leaves everything unchanged; for a member, every earlier subscription ends and then live `started` and `moved` subscriptions for it are appended |
| Sortable.BroadcastsTrackOne | src/app/drag-drop/sortable-ref.ts:47-59 | over any sequence of broadcasts, all live subscriptions belong to one drag and only the last two can be live |
| Sortable.HandleDragStart | src/app/drag-drop/sortable-ref.ts:66-70 | the cache has one rect per item, the rect of that item |
| Sortable.Despose | src/app/drag-drop/sortable-ref.ts:40-45 | the broadcast subscriptions and every drag subscription end, each entry keeping its drag and channel; items, cached rects and offsets stay |
| Sortable.IndexOf | src/app/drag-drop/sortable-ref.ts:80 | −1 iff the drag is absent; otherwise the first position holding it |
| Sortable.Offset | src/app/drag-drop/sortable-ref.ts:104-105 | the offset is +36 for a neighbour before and −36 for one after |
| Sortable.SortWrites | src/app/drag-drop/sortable-ref.ts:85-116 | a position is written iff it is not the dragged item's own and it is shifted (before and pointer strictly before its midpoint, or after and strictly past it, on x for horizontal neighbours and y otherwise); the value is its offset |
| Sortable.VisitInOrder | src/app/drag-drop/sortable-ref.ts:83-117 | the visit over any order covering every rect makes exactly those writes, because the callback always returns false |
| Sortable.Sort | src/app/drag-drop/sortable-ref.ts:76-119 | items, cache and subscriptions are untouched; translations only gain writes; a missing cache throws; with a full cache and a member source it succeeds and applies those writes |
| Sortable.Shifts | src/app/drag-drop/sortable-ref.ts:90-102 | a neighbour before the dragged item shifts iff the pointer is before its midpoint, and one after iff the pointer is past it, along x in the same row and along y otherwise |
| Sortable.OwnRowShiftsNothing | src/app/drag-drop/sortable-ref.ts:90-114 | in a column of non-overlapping rows, a pointer over the dragged item's own row shifts no neighbour |
| Sortable.ColumnNeighbourShift | src/app/drag-drop/sortable-ref.ts:90-114 | in a column, a row below shifts up 36 iff the pointer passes its midpoint, and a row above shifts down 36 iff the pointer passes above its midpoint |
| Droppable.NewZone | src/app/drag-drop/droppable-ref.ts:23-28 | a new zone has accept unset, the always-true enter predicate, inactive and enabled |
| Droppable.CanEnter | src/app/drag-drop/droppable-ref.ts:79-96 | a selector accepts iff it matches the root or the element; a function decides alone; an unset accept refuses; the enter predicate is consulted only after a positive accept and can only veto |
| Droppable.AnyDragStarted | src/app/drag-drop/droppable-ref.ts:62-73 | as written, the zone becomes active iff it can NOT enter the drag; nothing else changes |
| Droppable.ConstructedZoneAlwaysActive | src/app/drag-drop/droppable-ref.ts:62-73 | with accept never assigned, every broadcast makes the zone active |
| Droppable.AcceptingZoneGoesInactive | src/app/drag-drop/droppable-ref.ts:62-73 | latent until an accept input exists: a zone whose accept function returns true ends up inactive |
| Droppable.AnyDragStartedFixed | src/app/drag-drop/droppable-ref.ts:62-73 | corrected activation: the zone is active iff it can enter the drag |
| Droppable.SetDisabled | src/app/drag-drop/droppable-ref.ts:34-41 | the coerced value is stored, and the zone is unchanged when it equals the current one |
| Droppable.Despose | src/app/drag-drop/droppable-ref.ts:58-60 | only `_subscriptions` end, each entry turned off and the length kept; accept, enter predicate, activation, disabled flag, id and the broadcast subscriptions stay |
| Droppable.DisposedZoneStillListens | src/app/drag-drop/droppable-ref.ts:54-60 | after `despose` the zone is still subscribed, and a broadcast still flips it active |
| Droppable.DesposeFixed | src/app/drag-drop/droppable-ref.ts:54-60 | corrected disposal also ends the broadcast subscriptions |
| DraggableDirective.FirstMatch | src/app/drag-drop/directives/draggable.directive.ts:225-235 | the nearest matching entry of the parent chain, or none iff no entry matches |
| DraggableDirective.GetClosestMatchingAncestor | src/app/drag-drop/directives/draggable.directive.ts:222-236 | the walk from the parent returns the nearest matching ancestor or null, and never the element itself |
| DraggableDirective.BoundaryElement | src/app/drag-drop/directives/draggable.directive.ts:201-204 | no selector gives no boundary; otherwise the closest matching ancestor |
| DraggableDirective.ResolveRoot | src/app/drag-drop/directives/draggable.directive.ts:206-216 | no selector gives the element; no matching ancestor falls back to the element without a check; a picked non-element node throws with its name |
| DraggableDirective.UpdateRootElement | src/app/drag-drop/directives/draggable.directive.ts:206-217 | the reference's root becomes the resolved root, or the call throws and nothing is set |
| DraggableDirective.CoerceRevert | src/app/drag-drop/directives/draggable.directive.ts:159 | 'valid' and 'invalid' pass through; every other value becomes the coerced flag |
| DraggableDirective.SyncInputs | src/app/drag-drop/directives/draggable.directive.ts:142-166 | skipped entirely while dragging; otherwise revert, disabled, lock axis, boundary and preview are copied and nothing else changes |
| DraggableDirective.DirectivePointerDown | src/app/drag-drop/directives/draggable.directive.ts:142-146 | the press is judged on the synced settings: when the synced session fails the disabled or handle gate, the result is the synced session with the registry untouched; otherwise the drag sequence is initialised from the synced session against the pressed handle or the root |
| DraggableDirective.DisabledInputBlocksPress | src/app/drag-drop/directives/draggable.directive.ts:159-160 | a disabled input takes effect on the very press that follows: the registry and the subscriptions are untouched |
| DraggableDirective.FilterHandles | src/app/drag-drop/directives/draggable.directive.ts:102-106 | exactly the elements of handles whose parent drag is this directive, no more elements than handles |
| DraggableDirective.FilterHandlesSingle | src/app/drag-drop/directives/draggable.directive.ts:102-106 | one handle is kept exactly when its parent drag is this directive |
| DraggableDirective.FilterHandlesAppend | src/app/drag-drop/directives/draggable.directive.ts:102-106 | filtering distributes over concatenation, so the kept elements stay in query-list order with their multiplicity |
| DraggableDirective.OnHandleStateChange | src/app/drag-drop/directives/draggable.directive.ts:112-116 | a disabled handle is disabled on the reference (if it is one of its handles), an enabled one enabled; other handles are untouched |
| DraggableDirective.AfterViewInit | src/app/drag-drop/directives/draggable.directive.ts:93-118 | the root is resolved and then the filtered handles are installed; a non-element root throws before that |
| Findings.ClickLeavesDragRegistered | src/app/drag-drop/draggable-ref.ts:364-378 | press then release before the threshold: nothing is emitted and the reference is not dragging, yet the registry holds it and keeps cancelling wheel/selectstart |
| Findings.ClickReleasesDragFixed | src/app/drag-drop/draggable-ref.ts:364-378 | with the corrected release, the same click leaves no active drag and no default-prevention |
| Findings.ClickThenPressLeaksListener | src/app/drag-drop/drag-drop-registry.service.ts:45-80 | a click then a press rebuilds the table; the first move forwarder stays on the document, is no longer in the table, and survives the stop |
| Findings.TwoPressesOrphanPair | src/app/drag-drop/draggable-ref.ts:436-437 | two accepted presses before the threshold leave two live pairs, one of them orphaned |
| Findings.SecondPressForwards | src/app/drag-drop/drag-drop-registry.service.ts:45-80 | from an idle registry, the second of two presses rebuilds the table for its own input kind, so the document forwards its moves and releases; the two live pairs remain |
| Findings.ReleaseThenMoveStarts | src/app/drag-drop/draggable-ref.ts:306-378 | after the release, the orphaned pair still forwards moves, and one that reaches the threshold emits `started` |
| Findings.SecondPressThenRelease | src/app/drag-drop/draggable-ref.ts:364-378 | after the two presses, a release and a far enough move of the second press's kind emit only `started` |
| Findings.OrphanStartsDragAfterRelease | src/app/drag-drop/draggable-ref.ts:405-452 | press, press, release, move: the drag starts although the only release came before the move |
| Findings.FixedPressesKeepOnePair | src/app/drag-drop/draggable-ref.ts:436-437 | with the corrected subscription, repeated presses keep at most one live pair, and the release ends it |

## Left out

- DOM mutation and animation are not modelled. This covers preview/placeholder creation and cloning, moving the root into `body`, `_cleanupDragArtifacts`, `_destroyPreview`/`_destroyPlaceholder` and `_animatePreviewToPlaceholder`. They are host-side and asynchronous. Whether helpers exist is a flag, and the end of the animation is the `AnimationDone` step.
- Transform strings, `_initialTransform`, `Math.round`, the SVG `transform` attribute and `distanct`'s square root are not modelled, because they are floats or styles. Coordinates are integers, midpoints are compared doubled, and the visit order of `_sort` is any order that covers every rectangle.
- `event.preventDefault`, `stopPropagation`, `_toggleNativeDragInteractions` and passive-listener options are not modelled, because they change no state the model tracks.
- RxJS and NgZone are not modelled. Emissions are an event log. Subscriptions are counts and flags. Event payloads keep only the pointer position and the delta.
- Lifecycle.Dispatch delivers each document pointer event to the reference at most once. In the source, every forwarder on the document calls `next`, and every live subscription (orphans included) calls the handler, so with left-over forwarders or orphans the handler can run more than once per event.
- Lifecycle.Run keeps the state and the subscriptions after a handler throws, which is how RxJS 7 treats an error thrown inside a subscriber's callback. RxJS 6 instead closes the throwing subscriber, so there the move subscription of that pair ends while its up subscription stays live. The RxJS version is not part of this model, and the model keeps the subscription pair as one unit, so the RxJS 6 behaviour is not modelled.
- A placeholder created alone through `getPlaceholder` (draggable-ref.ts:249-254) is not modelled. It makes `_dropContainer` true with no preview, so the next move measures the root (line 323) and then throws on `this._preview.style` (line 539). In the model, helper mode always means that `initDragHelpers` created both helpers.
- Draggable.UnsubscribeMoved requires a positive observer count, because the teardown runs only after a subscribe.
- Touch point lists are not modelled. Each event carries one page point, standing for `touches[0]`/`changedTouches[0]`/`targetTouches[0]`.
- Selector matching and `coerceBooleanProperty` are parameters, so an invalid selector that throws in `matches` is not modelled.
- The placeholder template input affects only helper creation, so it is not modelled.
- `dispose`, `registerDragItem`/`removeDragItem`, `startDragging$`/`stopDragging$` and the empty `_anyDragStoped` handlers are not modelled, because their code is not part of this model or is empty. The broadcasts are explicit calls.
- `getNextSibling`, `getRootElement` and the directive's re-emission of events (`_handleEvents`) are not modelled. They are accessors and glue.
- Cross-container transfer, sort events, `moveItemInArray`, tolerance modes, greedy zones, scope and zone enter/leave/drop are not modelled, because they have no implementing code.
- Sortable.Sort records translations by item position; the shift of one element is the write at its position.
- Sortable.NewContainer starts with an empty item list where the source leaves `_items` undefined. Lodash's `includes` treats both the same way, and `_sort` cannot run before a member starts.

## Findings

| source | as written | input that shows it | evidently intended | confidence | as-written member | corrected member |
|---|---|---|---|---|---|---|
| src/app/drag-drop/draggable-ref.ts:364-378 | a release before the start threshold returns without `stopDragging` (the call is commented out) | press the element and release it without moving | every release lets the registry forget the drag | high, not executed | Findings.ClickLeavesDragRegistered | Draggable.PointerUpFixed |
| src/app/drag-drop/drag-drop-registry.service.ts:45-80 | the listener table is rebuilt whenever the active set has one member after the add, including when that member was already there | click the element (see above), then press it again | build only when the set goes from empty to one member | high, not executed | Findings.ClickThenPressLeaksListener | DragDropRegistry.StartDraggingFixed |
| src/app/drag-drop/draggable-ref.ts:436-437 | each accepted press subscribes a new move/up pair without ending the previous one | two touches start on the element before it moves, both lift, then a new touch moves to a point at least 5 px (Manhattan) from the second press's pickup | at most one live pair per reference | medium, not executed | Findings.OrphanStartsDragAfterRelease | Draggable.InitializeFixed |
| src/app/drag-drop/droppable-ref.ts:62-73 | `_isActive` is set to the negation of `_canEnter` | a freshly constructed zone (`_accept` has no setter and stays unset, so the zone can take no drag), then a drag start: the zone becomes active | a zone is active iff it can take the drag | medium, not executed | Droppable.ConstructedZoneAlwaysActive | Droppable.AnyDragStartedFixed |
| src/app/drag-drop/droppable-ref.ts:54-60 | the constructor's broadcast subscriptions are not stored, so `despose` cannot end them | `despose`, then a drag start | disposal ends the broadcast subscriptions, as `SortableRef.despose` does | medium, not executed | Droppable.DisposedZoneStillListens | Droppable.DesposeFixed |

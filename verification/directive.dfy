/** The draggable directive (`DraggableDirective`): how it resolves the root
    and boundary elements from selectors by walking up the parent chain, how
    it turns its template inputs into the drag reference's settings just
    before each press, and which handles it hands over. */
module DraggableDirective {
  import opened Common
  import opened DragMath
  import opened DragDropRegistry
  import opened Draggable

  /** The DOM as the directive reads it: each node's parent chain, nearest
      first (finite, since the DOM is a tree), whether a node is an element,
      its node name, and the selector test. */
  datatype Dom = Dom(
    ancestors: ElementId -> seq<ElementId>,
    isElement: ElementId -> bool,
    nodeName: ElementId -> string,
    matches: (ElementId, string) -> bool)

  /** A template input that holds a selector; the empty string and a missing
      value are both falsy. */
  predicate Truthy(sel: Option<string>) { sel.Some? && sel.value != "" }

  /** The directive's inputs. */
  datatype Inputs = Inputs(
    revert: RawValue,              // `npDragRevert`
    disabled: bool,                // `npDragDisabled`, already coerced by its own setter
    lockAxis: Axis,                // `npLockAxis`
    rootSelector: Option<string>,  // `npDragRootElement`
    boundarySelector: Option<string>, // `npDragBoundary`
    hasPreview: bool)              // a preview template child exists

  /** A content-child handle directive. */
  datatype HandleDirective = HandleDirective(element: ElementId, parentDrag: Option<DragId>, disabled: bool)

  /** The nearest entry of `chain` that matches `sel`. */
  function FirstMatch(chain: seq<ElementId>, sel: string, matches: (ElementId, string) -> bool): (r: Option<ElementId>)
    ensures r.None? <==> forall i :: 0 <= i < |chain| ==> !matches(chain[i], sel)
    ensures r.Some? ==> exists k :: 0 <= k < |chain| && chain[k] == r.value && matches(chain[k], sel)
                                   && forall i :: 0 <= i < k ==> !matches(chain[i], sel)
    decreases |chain|
  {
    if |chain| == 0 then None
    else if matches(chain[0], sel) then Some(chain[0])
    else
      var r := FirstMatch(chain[1..], sel, matches);
      if r.Some? then
        ghost var k :| 0 <= k < |chain[1..]| && chain[1..][k] == r.value && matches(chain[1..][k], sel)
                       && forall i :: 0 <= i < k ==> !matches(chain[1..][i], sel);
        assert chain[k + 1] == r.value;
        assert forall i :: 0 <= i < k + 1 ==> !matches(chain[i], sel) by {
          forall i | 0 <= i < k + 1 ensures !matches(chain[i], sel) {
            if i > 0 { assert chain[i] == chain[1..][i - 1]; }
          }
        }
        r
      else
        assert forall i :: 1 <= i < |chain| ==> chain[i] == chain[1..][i - 1];
        r
  }

  /** `getClosestMatchingAncestor`: walks up from the parent, returning the
      first ancestor that matches, or nothing. */
  method GetClosestMatchingAncestor(dom: Dom, element: ElementId, sel: string) returns (r: Option<ElementId>)
    ensures r == FirstMatch(dom.ancestors(element), sel, dom.matches)
    ensures r.Some? ==> r.value in dom.ancestors(element) && dom.matches(r.value, sel)
    ensures element !in dom.ancestors(element) ==> r != Some(element)
  {
    var chain := dom.ancestors(element);
    var k := 0;
    while k < |chain|
      invariant 0 <= k <= |chain|
      invariant FirstMatch(chain, sel, dom.matches) == FirstMatch(chain[k..], sel, dom.matches)
    {
      if dom.matches(chain[k], sel) {
        return Some(chain[k]);
      }
      assert chain[k..][1..] == chain[k + 1..];
      k := k + 1;
    }
    return None;
  }

  /** `_getBoundaryElement`: nothing without a selector, otherwise the
      closest matching ancestor (which may be nothing). */
  function BoundaryElement(dom: Dom, element: ElementId, sel: Option<string>): (r: Option<ElementId>)
    ensures !Truthy(sel) ==> r.None?
    ensures Truthy(sel) ==> r == FirstMatch(dom.ancestors(element), sel.value, dom.matches)
  {
    if Truthy(sel) then FirstMatch(dom.ancestors(element), sel.value, dom.matches) else None
  }

  /** The root element `_updateRootElement` picks: the element itself without
      a selector; otherwise the closest matching ancestor, falling back to the
      element when none matches. A picked node that is not an element throws;
      the fallback is never checked. */
  function ResolveRoot(dom: Dom, element: ElementId, sel: Option<string>): (r: Result<ElementId, Fault>)
    ensures !Truthy(sel) ==>
              (if dom.isElement(element) then r == Success(element) else r == Failure(NotAnElement(dom.nodeName(element))))
    ensures Truthy(sel) && FirstMatch(dom.ancestors(element), sel.value, dom.matches).None? ==> r == Success(element)
    ensures Truthy(sel) && FirstMatch(dom.ancestors(element), sel.value, dom.matches).Some? ==>
              var a := FirstMatch(dom.ancestors(element), sel.value, dom.matches).value;
              (if dom.isElement(a) then r == Success(a) else r == Failure(NotAnElement(dom.nodeName(a))))
    ensures r.Success? && r.value != element ==> r.value in dom.ancestors(element) && dom.isElement(r.value)
  {
    var picked := if Truthy(sel) then FirstMatch(dom.ancestors(element), sel.value, dom.matches) else Some(element);
    if picked.Some? && !dom.isElement(picked.value) then Failure(NotAnElement(dom.nodeName(picked.value)))
    else if picked.Some? then Success(picked.value)
    else Success(element)
  }

  /** `_updateRootElement`: the drag reference's root becomes the resolved
      root; a throw leaves the reference as it was. */
  function UpdateRootElement(s: Session, dom: Dom, element: ElementId, sel: Option<string>): (r: Result<Session, Fault>)
    ensures r.Success? <==> ResolveRoot(dom, element, sel).Success?
    ensures r.Success? ==> r.value == WithRootElement(s, ResolveRoot(dom, element, sel).value)
    ensures r.Failure? ==> r.error == ResolveRoot(dom, element, sel).error
  {
    match ResolveRoot(dom, element, sel)
    case Success(root) => Success(WithRootElement(s, root))
    case Failure(e) => Failure(e)
  }

  /** The revert coercion: `'valid'` and `'invalid'` pass through, every
      other value becomes a boolean flag. */
  function CoerceRevert(v: RawValue, coerce: Coercion): (r: RevertPolicy)
    ensures v == RawString("valid") <==> r == RevertOnValid
    ensures v == RawString("invalid") <==> r == RevertOnInvalid
    ensures r.RevertFlag? ==> r.on == coerce(v)
  {
    if v == RawString("valid") then RevertOnValid
    else if v == RawString("invalid") then RevertOnInvalid
    else RevertFlag(coerce(v))
  }

  /** The `beforeStarted` handler `_syncInputs` installs: nothing while the
      reference is dragging; otherwise revert, disabled, lock axis, boundary
      and preview template are copied over from the inputs. */
  function SyncInputs(s: Session, reg: Registry, inputs: Inputs, dom: Dom, element: ElementId, coerce: Coercion): (r: Session)
    ensures Draggable.IsDragging(s, reg) ==> r == s
    ensures !Draggable.IsDragging(s, reg) ==>
              && r.revert == CoerceRevert(inputs.revert, coerce)
              && r.disabled == coerce(RawBool(inputs.disabled))
              && r.lockAxis == inputs.lockAxis
              && r.boundaryElement == BoundaryElement(dom, element, inputs.boundarySelector)
              && r.previewTemplate == inputs.hasPreview
              && r.(revert := s.revert, disabled := s.disabled, lockAxis := s.lockAxis,
                    boundaryElement := s.boundaryElement, previewTemplate := s.previewTemplate) == s
  {
    if Draggable.IsDragging(s, reg) then s
    else
      var s1 := SetDisabled(s.(revert := CoerceRevert(inputs.revert, coerce)), RawBool(inputs.disabled), coerce);
      WithBoundaryElement(s1.(lockAxis := inputs.lockAxis), BoundaryElement(dom, element, inputs.boundarySelector))
        .(previewTemplate := inputs.hasPreview)
  }

  /** A press as the directive sees it: `beforeStarted` fires first, so the
      inputs are synced before the reference reads them, and the disabled
      and handle gates judge the synced settings. */
  function DirectivePointerDown(s: Session, reg: Registry, ev: PointerEvent, env: Env,
                                inputs: Inputs, dom: Dom, element: ElementId, coerce: Coercion): (r: Step)
    ensures r.log == [BeforeStarted]
    ensures var s1 := SyncInputs(s, reg, inputs, dom, element, coerce);
            !Reaches(s1, ev, env) ==> r.s == s1 && r.reg == reg
    ensures var s1 := SyncInputs(s, reg, inputs, dom, element, coerce);
            Reaches(s1, ev, env) ==>
              (r.s, r.reg) == InitializeDragSequence(s1, reg, ReferenceElement(s1, ev, env), ev, env)
  {
    var d := PointerDown(SyncInputs(s, reg, inputs, dom, element, coerce), reg, ev, env);
    Step(d.s, d.reg, [BeforeStarted])
  }

  /** A disabled input takes effect on the very press that follows it: the
      registry is left alone and the press arms nothing. */
  lemma DisabledInputBlocksPress(s: Session, reg: Registry, ev: PointerEvent, env: Env,
                                 inputs: Inputs, dom: Dom, element: ElementId, coerce: Coercion)
    requires !Draggable.IsDragging(s, reg) && coerce(RawBool(inputs.disabled))
    ensures var r := DirectivePointerDown(s, reg, ev, env, inputs, dom, element, coerce);
            r.reg == reg && r.s == SyncInputs(s, reg, inputs, dom, element, coerce) && r.s.subs == s.subs
  {
    var s1 := SyncInputs(s, reg, inputs, dom, element, coerce);
    assert s1.disabled;
  }

  /** The handles `ngAfterViewInit` hands over: the elements of the handle
      directives whose parent drag is this one, and no others. */
  function FilterHandles(handles: seq<HandleDirective>, self: DragId): (r: seq<ElementId>)
    ensures |r| <= |handles|
    ensures forall e :: e in r <==> exists h :: h in handles && h.parentDrag == Some(self) && h.element == e
    decreases |handles|
  {
    if |handles| == 0 then []
    else
      var rest := FilterHandles(handles[1..], self);
      assert forall h :: h in handles[1..] ==> h in handles;
      assert forall h :: h in handles ==> h == handles[0] || h in handles[1..];
      if handles[0].parentDrag == Some(self) then [handles[0].element] + rest else rest
  }

  /** A single handle is kept exactly when its parent drag is this one. */
  lemma FilterHandlesSingle(h: HandleDirective, self: DragId)
    ensures FilterHandles([h], self) == (if h.parentDrag == Some(self) then [h.element] else [])
  {
    assert [h][1..] == [];
  }

  /** Filtering keeps the query-list order and multiplicity: the filter of
      two lists one after the other is the two filters one after the other,
      so, with `FilterHandlesSingle`, the result is the matching elements in
      their original order. */
  lemma {:induction false} FilterHandlesAppend(a: seq<HandleDirective>, b: seq<HandleDirective>, self: DragId)
    ensures FilterHandles(a + b, self) == FilterHandles(a, self) + FilterHandles(b, self)
    decreases |a|
  {
    if |a| == 0 {
      assert a + b == b;
    } else {
      assert (a + b)[0] == a[0];
      assert (a + b)[1..] == a[1..] + b;
      FilterHandlesAppend(a[1..], b, self);
    }
  }

  /** A handle's state change: disabled handles are disabled on the
      reference, others enabled. */
  function OnHandleStateChange(s: Session, h: HandleDirective): (r: Session)
    ensures h.disabled && h.element in s.handles ==> h.element in r.disabledHandles
    ensures !h.disabled ==> h.element !in r.disabledHandles
    ensures forall e :: e != h.element ==> (e in r.disabledHandles <==> e in s.disabledHandles)
    ensures r.(disabledHandles := s.disabledHandles) == s
  {
    if h.disabled then DisableHandle(s, h.element) else EnableHandle(s, h.element)
  }

  /** The first stable-zone callback of `ngAfterViewInit`: the root is
      resolved, then the filtered handles are installed. A root that is not an
      element throws before the handles are installed. */
  function AfterViewInit(s: Session, dom: Dom, element: ElementId, rootSelector: Option<string>,
                         handles: seq<HandleDirective>): (r: Result<Session, Fault>)
    ensures r.Failure? <==> ResolveRoot(dom, element, rootSelector).Failure?
    ensures r.Success? ==>
              && r.value.root == ResolveRoot(dom, element, rootSelector).value
              && r.value.handles == FilterHandles(handles, s.id)
              && r.value.(root := s.root, handles := s.handles) == s
  {
    match UpdateRootElement(s, dom, element, rootSelector)
    case Success(s1) => Success(WithHandles(s1, FilterHandles(handles, s.id)))
    case Failure(e) => Failure(e)
  }
}

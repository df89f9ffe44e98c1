/** The drop zone (`DroppableRef`): its acceptance test and the activation
    flag it sets on every drag-start broadcast. */
module Droppable {
  import opened Common

  /** What a zone sees of a drag: its identity, its root element and its own
      element. */
  datatype DragView = DragView(id: DragId, root: ElementId, element: ElementId)

  /** `_accept`: a selector string, a predicate over (drag, zone), or unset
      (it has no setter, so a constructed zone always has it unset). */
  datatype Accept =
    | AcceptUnset
    | AcceptSelector(selector: string)
    | AcceptPredicate(test: (DragId, ZoneId) -> bool)

  datatype Zone = Zone(
    id: ZoneId,
    accept: Accept,
    enterPredicate: Option<(DragId, ZoneId) -> bool>,  // `_enterPredicate`; None when not a function
    active: bool,                                      // `_isActive`
    disabled: bool,
    broadcastSubs: bool,                               // the constructor's start/stop subscriptions are live
    subscriptions: seq<bool>)                          // `_subscriptions`, live flags

  /** A zone as constructed. */
  function NewZone(id: ZoneId): (z: Zone)
    ensures z.accept.AcceptUnset? && z.enterPredicate.Some? && !z.active && !z.disabled
    ensures z.broadcastSubs && z.subscriptions == []
    ensures forall d :: z.enterPredicate.value(d, id)
  {
    Zone(id, AcceptUnset, Some((d: DragId, zid: ZoneId) => true), false, false, true, [])
  }

  /** The `accept` half of `_canEnter`: a selector must match the drag's root
      element or, failing that, its element; a predicate decides alone;
      anything else refuses. */
  predicate Accepts(z: Zone, drag: DragView, matches: (ElementId, string) -> bool)
  {
    match z.accept
    case AcceptUnset => false
    case AcceptSelector(sel) => matches(drag.root, sel) || matches(drag.element, sel)
    case AcceptPredicate(test) => test(drag.id, z.id)
  }

  /** `_canEnter`: the enter-predicate is consulted only after a positive
      accept, and can only veto it. */
  function CanEnter(z: Zone, drag: DragView, matches: (ElementId, string) -> bool): (r: bool)
    ensures r ==> Accepts(z, drag, matches)
    ensures z.enterPredicate.None? ==> (r <==> Accepts(z, drag, matches))
    ensures z.enterPredicate.Some? ==> (r <==> Accepts(z, drag, matches) && z.enterPredicate.value(drag.id, z.id))
    ensures z.accept.AcceptUnset? ==> !r
  {
    var isAccept := Accepts(z, drag, matches);
    if isAccept && z.enterPredicate.Some? then z.enterPredicate.value(drag.id, z.id) else isAccept
  }

  /** `_anyDragStarted` as written: a zone that can take the drag becomes
      inactive, and one that cannot becomes active. Nothing else changes. */
  function AnyDragStarted(z: Zone, drag: DragView, matches: (ElementId, string) -> bool): (r: Zone)
    ensures r.active <==> !CanEnter(z, drag, matches)
    ensures r.(active := z.active) == z
  {
    if CanEnter(z, drag, matches) then z.(active := false) else z.(active := true)
  }

  /** A zone as constructed cannot enter any drag, so every broadcast makes
      it active. */
  lemma ConstructedZoneAlwaysActive(id: ZoneId, drag: DragView, matches: (ElementId, string) -> bool)
    ensures AnyDragStarted(NewZone(id), drag, matches).active
  {
    assert !CanEnter(NewZone(id), drag, matches);
  }

  /** A zone whose predicate accepts the drag ends up inactive. Nothing can
      set `_accept` yet, so this stays latent. */
  lemma AcceptingZoneGoesInactive(id: ZoneId, drag: DragView, matches: (ElementId, string) -> bool)
    ensures var z := NewZone(id).(accept := AcceptPredicate((d: DragId, zid: ZoneId) => true));
            CanEnter(z, drag, matches) && !AnyDragStarted(z, drag, matches).active
  {
    var z := NewZone(id).(accept := AcceptPredicate((d: DragId, zid: ZoneId) => true));
    assert Accepts(z, drag, matches);
  }

  /** The activation the zone's own comments describe: active exactly when it
      can take the drag. */
  function AnyDragStartedFixed(z: Zone, drag: DragView, matches: (ElementId, string) -> bool): (r: Zone)
    ensures r.active <==> CanEnter(z, drag, matches)
    ensures r.(active := z.active) == z
  {
    z.(active := CanEnter(z, drag, matches))
  }

  /** The `disabled` setter: the coerced value is stored when it differs. */
  function SetDisabled(z: Zone, value: RawValue, coerce: Coercion): (r: Zone)
    ensures r.disabled == coerce(value)
    ensures r.(disabled := z.disabled) == z
    ensures coerce(value) == z.disabled ==> r == z
  {
    var v := coerce(value);
    if v != z.disabled then z.(disabled := v) else z
  }

  /** `despose` as written: only `_subscriptions` (never filled) end; the
      constructor's broadcast subscriptions were never stored and stay live. */
  function Despose(z: Zone): (r: Zone)
    ensures |r.subscriptions| == |z.subscriptions| && forall i :: 0 <= i < |r.subscriptions| ==> !r.subscriptions[i]
    ensures r.broadcastSubs == z.broadcastSubs && r.active == z.active
    ensures r.(subscriptions := z.subscriptions) == z
  {
    z.(subscriptions := seq(|z.subscriptions|, i => false))
  }

  /** A disposed zone still reacts to broadcasts. */
  lemma DisposedZoneStillListens(id: ZoneId, drag: DragView, matches: (ElementId, string) -> bool)
    ensures var z := Despose(NewZone(id));
            z.broadcastSubs && !z.active && AnyDragStarted(z, drag, matches).active
  {
    assert !CanEnter(Despose(NewZone(id)), drag, matches);
  }

  /** Disposal as the sortable container does it: the broadcast
      subscriptions end too, so nothing of the zone stays live. */
  function DesposeFixed(z: Zone): (r: Zone)
    ensures !r.broadcastSubs
    ensures |r.subscriptions| == |z.subscriptions| && forall i :: 0 <= i < |r.subscriptions| ==> !r.subscriptions[i]
    ensures r.(broadcastSubs := z.broadcastSubs, subscriptions := z.subscriptions) == z
  {
    Despose(z).(broadcastSubs := false)
  }
}

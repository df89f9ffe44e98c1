/** The sortable container (`SortableRef`): its member filter on drag-start
    broadcasts, the per-drag subscriptions it keeps, the rectangle cache taken
    when a member starts, and the `_sort` decision that shifts neighbours by
    36 pixels on the vertical axis. */
module Sortable {
  import opened Common
  import opened Geometry

  /** The vertical translation `_sort` gives a shifted neighbour. */
  const ShiftPixels := 36

  datatype Channel = StartedChannel | MovedChannel

  /** One entry of `_dragSubscriptions`. */
  datatype DragSubscription = DragSubscription(drag: DragId, channel: Channel, live: bool)

  datatype Container = Container(
    items: seq<DragId>,                 // `_items`
    rects: Option<seq<Rect>>,           // `_clientRects`, unset until a member starts
    dragSubs: seq<DragSubscription>,    // `_dragSubscriptions`
    broadcastSubs: bool,                // the start/stop broadcast subscriptions are live
    offsets: map<nat, int>)             // translateY written by `_sort`, by item position

  /** A container as constructed: subscribed to the broadcasts, with no
      members yet (`_items` is unset, and lodash's `includes` finds nothing in
      it, exactly as in an empty list). */
  function NewContainer(): (c: Container)
    ensures c.broadcastSubs && c.dragSubs == [] && c.rects.None? && c.items == [] && c.offsets == map[]
  {
    Container([], None, [], true, map[])
  }

  /** `withItems`. */
  function WithItems(c: Container, items: seq<DragId>): (r: Container)
    ensures r.items == items && r.(items := c.items) == c
  {
    c.(items := items)
  }

  /** `_removeDragSubscriptions`: every entry is unsubscribed; the array is
      kept as it is. */
  function RemoveDragSubscriptions(c: Container): (r: Container)
    ensures |r.dragSubs| == |c.dragSubs|
    ensures forall i :: 0 <= i < |r.dragSubs| ==> r.dragSubs[i] == c.dragSubs[i].(live := false)
    ensures r.(dragSubs := c.dragSubs) == c
  {
    c.(dragSubs := seq(|c.dragSubs|, i requires 0 <= i < |c.dragSubs| => c.dragSubs[i].(live := false)))
  }

  /** All live drag subscriptions belong to one drag, and there are at most
      two of them (its `started` and its `moved`). */
  ghost predicate TracksAtMostOne(c: Container)
  {
    && (forall i, j :: 0 <= i < |c.dragSubs| && 0 <= j < |c.dragSubs| && c.dragSubs[i].live && c.dragSubs[j].live
          ==> c.dragSubs[i].drag == c.dragSubs[j].drag)
    && (forall i :: 0 <= i < |c.dragSubs| - 2 ==> !c.dragSubs[i].live)
  }

  /** `_anyDragStarted`: a drag that is not a member is ignored. For a member,
      every earlier drag subscription is ended first and then its `started`
      and `moved` are subscribed to, so the container tracks that drag
      alone. */
  function AnyDragStarted(c: Container, d: DragId): (r: Container)
    ensures d !in c.items ==> r == c
    ensures d in c.items ==>
              && |r.dragSubs| == |c.dragSubs| + 2
              && (forall i :: 0 <= i < |c.dragSubs| ==> r.dragSubs[i] == c.dragSubs[i].(live := false))
              && r.dragSubs[|c.dragSubs|..] == [DragSubscription(d, StartedChannel, true), DragSubscription(d, MovedChannel, true)]
              && r.(dragSubs := c.dragSubs) == c
    ensures TracksAtMostOne(r) || r == c
  {
    if d !in c.items then c
    else
      var c1 := RemoveDragSubscriptions(c);
      var r := c1.(dragSubs := c1.dragSubs + [DragSubscription(d, StartedChannel, true), DragSubscription(d, MovedChannel, true)]);
      assert forall i :: 0 <= i < |c.dragSubs| ==> !r.dragSubs[i].live;
      r
  }

  /** The live-subscription invariant holds after any sequence of
      broadcasts from a fresh container. */
  function Broadcasts(c: Container, ds: seq<DragId>): Container
    decreases |ds|
  {
    if |ds| == 0 then c else Broadcasts(AnyDragStarted(c, ds[0]), ds[1..])
  }

  lemma {:induction false} BroadcastsTrackOne(c: Container, ds: seq<DragId>)
    requires TracksAtMostOne(c)
    ensures TracksAtMostOne(Broadcasts(c, ds))
    ensures |Broadcasts(c, ds).dragSubs| >= |c.dragSubs|
    decreases |ds|
  {
    if |ds| > 0 {
      BroadcastsTrackOne(AnyDragStarted(c, ds[0]), ds[1..]);
    }
  }

  /** `_handleDragStart`: the cache holds each member's current rectangle,
      position for position. */
  function HandleDragStart(c: Container, rectOf: DragId -> Rect): (r: Container)
    ensures r.rects.Some? && |r.rects.value| == |c.items|
    ensures forall i :: 0 <= i < |c.items| ==> r.rects.value[i] == rectOf(c.items[i])
    ensures r.(rects := c.rects) == c
  {
    c.(rects := Some(seq(|c.items|, i requires 0 <= i < |c.items| => rectOf(c.items[i]))))
  }

  /** `despose`: the broadcast subscriptions and every drag subscription end. */
  function Despose(c: Container): (r: Container)
    ensures !r.broadcastSubs
    ensures |r.dragSubs| == |c.dragSubs| && forall i :: 0 <= i < |r.dragSubs| ==> !r.dragSubs[i].live
    ensures forall i :: 0 <= i < |r.dragSubs| ==> r.dragSubs[i] == c.dragSubs[i].(live := false)
    ensures r.(broadcastSubs := c.broadcastSubs, dragSubs := c.dragSubs) == c
  {
    RemoveDragSubscriptions(c).(broadcastSubs := false)
  }

  /** `indexOf`: the first position of `d`, or -1. */
  function IndexOf(items: seq<DragId>, d: DragId): (r: int)
    ensures r == -1 <==> d !in items
    ensures r != -1 ==> 0 <= r < |items| && items[r] == d
    ensures forall i :: 0 <= i < r ==> items[i] != d
    decreases |items|
  {
    if |items| == 0 then -1
    else if items[0] == d then 0
    else
      var k := IndexOf(items[1..], d);
      if k == -1 then -1
      else
        assert forall i :: 1 <= i < |items| ==> items[i] == items[1..][i - 1];
        k + 1
  }

  /** A neighbour is horizontal when it shares the dragged item's top. */
  predicate IsHorizontal(rect: Rect, current: Rect) { rect.top == current.top }

  /** It is before the dragged item when its left (horizontal) or its top
      (vertical) is smaller. */
  predicate IsBefore(rect: Rect, current: Rect)
  {
    if IsHorizontal(rect, current) then rect.left < current.left else rect.top < current.top
  }

  /** Twice the pointer coordinate and twice the neighbour's midpoint on the
      axis the neighbour is compared on. */
  function Pointer2(rect: Rect, current: Rect, p: Point): int
  {
    if IsHorizontal(rect, current) then 2 * p.x else 2 * p.y
  }

  function Mid2(rect: Rect, current: Rect): int
  {
    if IsHorizontal(rect, current) then 2 * rect.left + rect.width else 2 * rect.top + rect.height
  }

  /** `moveBack || moveForward`: a neighbour before the dragged item shifts
      when the pointer is strictly before its midpoint, one after it when the
      pointer is strictly past its midpoint. */
  predicate Shifts(rect: Rect, current: Rect, p: Point)
  {
    if IsBefore(rect, current) then Pointer2(rect, current, p) < Mid2(rect, current)
    else Pointer2(rect, current, p) > Mid2(rect, current)
  }

  /** The translation a shifted neighbour gets: down for one before, up for
      one after, on the vertical axis even for a horizontal neighbour. */
  function Offset(rect: Rect, current: Rect): (r: int)
    ensures r == ShiftPixels || r == -ShiftPixels
    ensures r > 0 <==> IsBefore(rect, current)
  {
    ShiftPixels * (if IsBefore(rect, current) then 1 else -1)
  }

  /** The writes `_sort` makes, by position: every rectangle other than the
      dragged item's own is examined, independently of the others. */
  function SortWrites(rects: seq<Rect>, cur: nat, p: Point): (w: map<nat, int>)
    requires cur < |rects|
    ensures forall j: int :: j in w <==> 0 <= j < |rects| && j != cur && Shifts(rects[j], rects[cur], p)
    ensures forall j :: j in w ==> w[j] == Offset(rects[j], rects[cur])
  {
    map j: nat | j < |rects| && j != cur && Shifts(rects[j], rects[cur], p) :: Offset(rects[j], rects[cur])
  }

  /** The visit of `_sort`: a callback run over the rectangles in some order
      (the source sorts a copy by distance), writing a translation for every
      neighbour that shifts and always answering `false` so the visit never
      stops early. Whatever the order, as long as it visits every rectangle,
      the writes are the same. */
  method VisitInOrder(rects: seq<Rect>, cur: nat, p: Point, order: seq<nat>) returns (writes: map<nat, int>)
    requires cur < |rects|
    requires forall i :: 0 <= i < |order| ==> order[i] < |rects|
    requires forall j :: 0 <= j < |rects| ==> j in order
    ensures writes == SortWrites(rects, cur, p)
  {
    writes := map[];
    var k := 0;
    while k < |order|
      invariant 0 <= k <= |order|
      invariant forall j: int :: j in writes <==> j in order[..k] && j != cur && 0 <= j < |rects| && Shifts(rects[j], rects[cur], p)
      invariant forall j :: j in writes ==> j < |rects| && writes[j] == Offset(rects[j], rects[cur])
    {
      var j := order[k];
      if j != cur && Shifts(rects[j], rects[cur], p) {
        writes := writes[j := Offset(rects[j], rects[cur])];
      }
      assert order[..k + 1] == order[..k] + [order[k]];
      k := k + 1;
    }
    assert order[..k] == order;
  }

  /** `_sort` for a `moved` event of `source` at pointer `p`. Reading the
      cache before any start, or the dragged item's rectangle when the source
      is not a member, throws (unless there is no rectangle to visit); so
      does writing to a position past the end of `_items`. Otherwise the
      writes land on the items' translations and nothing else changes. */
  function Sort(c: Container, source: DragId, p: Point): (r: Result<Container, Fault>)
    ensures c.rects.None? ==> r.Failure?
    ensures r.Success? ==> r.value.items == c.items && r.value.rects == c.rects && r.value.dragSubs == c.dragSubs
    ensures r.Success? ==> c.offsets.Keys <= r.value.offsets.Keys
    ensures r.Success? && c.rects.Some? && source in c.items && IndexOf(c.items, source) < |c.rects.value| ==>
              r.value.offsets == c.offsets + SortWrites(c.rects.value, IndexOf(c.items, source), p)
    ensures c.rects.Some? && |c.rects.value| == |c.items| && source in c.items ==> r.Success?
  {
    match c.rects
    case None => Failure(TypeError("_clientRects is undefined"))
    case Some(rects) =>
      var cur := IndexOf(c.items, source);
      if cur < 0 || cur >= |rects| then
        if |rects| == 0 then Success(c) else Failure(TypeError("currentRect is undefined"))
      else
        var writes := SortWrites(rects, cur, p);
        if exists j :: j in writes && j >= |c.items| then Failure(TypeError("item is undefined"))
        else Success(c.(offsets := c.offsets + writes))
  }

  /** Rectangles form a column when no two overlap vertically. */
  predicate Column(rects: seq<Rect>)
  {
    && (forall i :: 0 <= i < |rects| ==> rects[i].height >= 0)
    && (forall i, j :: 0 <= i < |rects| && 0 <= j < |rects| && i != j ==>
          rects[i].Bottom() <= rects[j].top || rects[j].Bottom() <= rects[i].top)
  }

  /** In a column of non-empty rows, holding the pointer over the dragged
      item's own row shifts no neighbour. */
  lemma OwnRowShiftsNothing(rects: seq<Rect>, cur: nat, p: Point)
    requires cur < |rects| && Column(rects)
    requires forall i :: 0 <= i < |rects| ==> rects[i].height > 0
    requires rects[cur].top <= p.y < rects[cur].Bottom()
    ensures SortWrites(rects, cur, p) == map[]
  {
    forall j | 0 <= j < |rects| && j != cur
      ensures !Shifts(rects[j], rects[cur], p)
    {
      var r, c := rects[j], rects[cur];
      assert r.top != c.top;
    }
  }

  /** In a column, a neighbour below the dragged item shifts up exactly when
      the pointer passes its midpoint, and one above shifts down exactly when
      the pointer passes above its midpoint. */
  lemma ColumnNeighbourShift(rects: seq<Rect>, cur: nat, j: nat, p: Point)
    requires cur < |rects| && j < |rects| && j != cur && Column(rects) && rects[j].height > 0 && rects[cur].height > 0
    ensures rects[j].top > rects[cur].top ==>
              (j in SortWrites(rects, cur, p) <==> 2 * p.y > 2 * rects[j].top + rects[j].height)
              && (j in SortWrites(rects, cur, p) ==> SortWrites(rects, cur, p)[j] == -ShiftPixels)
    ensures rects[j].top < rects[cur].top ==>
              (j in SortWrites(rects, cur, p) <==> 2 * p.y < 2 * rects[j].top + rects[j].height)
              && (j in SortWrites(rects, cur, p) ==> SortWrites(rects, cur, p)[j] == ShiftPixels)
  {
    assert rects[j].top != rects[cur].top;
  }
}

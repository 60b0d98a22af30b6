/**
 * Zone discovery: the widget operation that walks the widget tree and
 * collects the identified containers whose bounds pass a filter
 * (`find_zones` / `FindDropZone` in src/widget/operation/drop.rs).
 *
 * The operation keeps three pieces of state for the whole walk: the zones
 * found so far, a depth counter `c_depth` that grows by one with every zone
 * and is never decremented, and the scroll offset, which every scrollable
 * whose bounds pass the filter adds its translation to and which is never
 * subtracted back. The functions below give the effect of one walk on that
 * state; the class `FindDropZone` is the operation itself.
 */
module Drop {
  import opened Wrappers
  import opened Geometry
  import opened Widget

  /** The parameters of one discovery: `filter`, `options` and `depth`. */
  datatype Query = Query(filter: Rect -> bool, options: Option<seq<Id>>, maxDepth: Option<nat>)

  /** An id is eligible when there is no allow-list or the allow-list holds it. */
  predicate IsOption(q: Query, id: Id)
  {
    q.options.None? || id in q.options.value
  }

  /** A snapshot of the operation's mutable state. */
  datatype Discovery = Discovery(zones: seq<(Id, Rect)>, cDepth: nat, offset: Vector)

  /** The state `find_zones` starts from. */
  const Initial := Discovery([], 0, Zero)

  /** What every state the operation reaches satisfies. */
  ghost predicate Consistent(q: Query, st: Discovery)
  {
    && |st.zones| == st.cDepth
    && forall k | 0 <= k < |st.zones| :: IsOption(q, st.zones[k].0) && q.filter(st.zones[k].1)
  }

  /** The first half of `container`: record the node when it has an eligible id and its corrected bounds pass. */
  function Record(q: Query, st: Discovery, id: Option<Id>, bounds: Rect): Discovery
  {
    match id
    case None => st
    case Some(i) =>
      var b := bounds.Minus(st.offset);
      if IsOption(q, i) && q.filter(b) then Discovery(st.zones + [(i, b)], st.cDepth + 1, st.offset)
      else st
  }

  /** The second half of `container`: whether the children are visited. */
  predicate GoToNext(q: Query, st: Discovery)
  {
    q.maxDepth.None? || st.cDepth < q.maxDepth.value
  }

  /** `scrollable`: the translation is added when the filter holds on the scrollable's own bounds. */
  function Scroll(q: Query, st: Discovery, bounds: Rect, translation: Vector): Discovery
  {
    if q.filter(bounds) then st.(offset := st.offset.Plus(translation)) else st
  }

  /** The state after the operation has walked `w`. */
  function Walk<S>(q: Query, st: Discovery, w: Widget<S>): Discovery
    decreases Size(w), 0
  {
    match w
    case Container(id, bounds, children) =>
      var st1 := Record(q, st, id, bounds);
      if GoToNext(q, st1) then WalkAll(q, st1, children) else st1
    case Scrollable(bounds, translation, content) =>
      Walk(q, Scroll(q, st, bounds, translation), content)
    case Custom(_, _) => st
  }

  function WalkAll<S>(q: Query, st: Discovery, ws: seq<Widget<S>>): Discovery
    decreases SizeAll(ws), 1
  {
    if ws == [] then st else WalkAll(q, Walk(q, st, ws[0]), ws[1..])
  }

  /** The operation `find_zones(filter, options, depth)` returns. */
  class FindDropZone {
    const filter: Rect -> bool
    const options: Option<seq<Id>>
    const maxDepth: Option<nat>
    var zones: seq<(Id, Rect)>
    var cDepth: nat
    var offset: Vector

    function AsQuery(): Query
    {
      Query(filter, options, maxDepth)
    }

    function State(): Discovery
      reads this
    {
      Discovery(zones, cDepth, offset)
    }

    ghost predicate Valid()
      reads this
    {
      Consistent(AsQuery(), State())
    }

    /** `find_zones`: no zones, depth 0, offset (0, 0). */
    constructor (filter: Rect -> bool, options: Option<seq<Id>>, depth: Option<nat>)
      ensures this.filter == filter && this.options == options && maxDepth == depth
      ensures State() == Initial
      ensures Valid()
    {
      this.filter := filter;
      this.options := options;
      maxDepth := depth;
      zones := [];
      cDepth := 0;
      offset := Zero;
    }

    /**
     * `container`: record the node if it qualifies, then hand the children to
     * the walk unless the depth counter has reached the maximum depth.
     */
    method Container<S>(id: Option<Id>, bounds: Rect, children: seq<Widget<S>>)
      requires Valid()
      modifies this
      ensures Valid()
      ensures State() == Walk(AsQuery(), old(State()), Widget.Container(id, bounds, children))
      ensures old(zones) <= zones
      ensures id.Some? && IsOption(AsQuery(), id.value) && filter(bounds.Minus(old(offset))) ==>
                |zones| > |old(zones)| && zones[|old(zones)|] == (id.value, bounds.Minus(old(offset)))
      ensures !(id.Some? && IsOption(AsQuery(), id.value) && filter(bounds.Minus(old(offset)))) ==>
                State() == WalkAll(AsQuery(), old(State()), children) || State() == old(State())
      decreases SizeAll(children), 2
    {
      match id {
        case Some(i) =>
          var isOption := match options case Some(opts) => i in opts case None => true;
          var b := bounds.Minus(offset);
          if isOption && filter(b) {
            cDepth := cDepth + 1;
            zones := zones + [(i, b)];
          }
        case None =>
      }
      var gotoNext := match maxDepth case Some(m) => cDepth < m case None => true;
      if gotoNext {
        ghost var st1 := State();
        OperateOnChildren(children);
        WalkAllExtends(AsQuery(), st1, children);
      }
    }

    /** `scrollable`: accumulate the translation when the scrollable's bounds pass the filter. */
    method Scrollable(bounds: Rect, translation: Vector)
      modifies this`offset
      ensures offset == if filter(bounds) then old(offset).Plus(translation) else old(offset)
      ensures State() == Scroll(AsQuery(), old(State()), bounds, translation)
    {
      if filter(bounds) {
        offset := offset.Plus(translation);
      }
    }

    /** `finish`: the zones in the order they were recorded. */
    method Finish() returns (r: seq<(Id, Rect)>)
      requires Valid()
      ensures r == zones
      ensures |r| == cDepth
      ensures forall k | 0 <= k < |r| :: IsOption(AsQuery(), r[k].0) && filter(r[k].1)
    {
      r := zones;
    }

    /** The walk the layout engine drives: one callback per node, in pre-order. */
    method Operate<S>(w: Widget<S>)
      requires Valid()
      modifies this
      ensures Valid()
      ensures State() == Walk(AsQuery(), old(State()), w)
      decreases Size(w), 0
    {
      match w
      case Container(id, bounds, children) =>
        Container(id, bounds, children);
      case Scrollable(bounds, translation, content) =>
        Scrollable(bounds, translation);
        Operate(content);
      case Custom(_, _) =>
    }

    method OperateOnChildren<S>(ws: seq<Widget<S>>)
      requires Valid()
      modifies this
      ensures Valid()
      ensures State() == WalkAll(AsQuery(), old(State()), ws)
      decreases SizeAll(ws), 1
    {
      if ws != [] {
        Operate(ws[0]);
        OperateOnChildren(ws[1..]);
      }
    }
  }

  /** Walking never removes or reorders a zone, and the counter grows with the zones. */
  lemma {:induction false} WalkExtends<S>(q: Query, st: Discovery, w: Widget<S>)
    requires |st.zones| == st.cDepth
    ensures var r := Walk(q, st, w); st.zones <= r.zones && |r.zones| == r.cDepth
    decreases Size(w), 0
  {
    match w
    case Container(id, bounds, children) =>
      var st1 := Record(q, st, id, bounds);
      if GoToNext(q, st1) {
        WalkAllExtends(q, st1, children);
      }
    case Scrollable(bounds, translation, content) =>
      WalkExtends(q, Scroll(q, st, bounds, translation), content);
    case Custom(_, _) =>
  }

  lemma {:induction false} WalkAllExtends<S>(q: Query, st: Discovery, ws: seq<Widget<S>>)
    requires |st.zones| == st.cDepth
    ensures var r := WalkAll(q, st, ws); st.zones <= r.zones && |r.zones| == r.cDepth
    decreases SizeAll(ws), 1
  {
    if ws != [] {
      WalkExtends(q, st, ws[0]);
      WalkAllExtends(q, Walk(q, st, ws[0]), ws[1..]);
    }
  }
}

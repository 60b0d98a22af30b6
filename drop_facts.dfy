/**
 * Properties of zone discovery (src/widget/operation/drop.rs): what every
 * reachable state satisfies, how the depth limit cuts the walk short, and,
 * for a walk without a depth limit, exactly which zones are found and with
 * which bounds.
 */
module DropFacts {
  import opened Wrappers
  import opened Geometry
  import opened Widget
  import opened Drop

  /** Every recorded zone has an eligible id and bounds that pass the filter, and there is one per counter step. */
  lemma {:induction false} WalkConsistent<S>(q: Query, st: Discovery, w: Widget<S>)
    requires Consistent(q, st)
    ensures Consistent(q, Walk(q, st, w))
    decreases Size(w), 0
  {
    match w
    case Container(id, bounds, children) =>
      var st1 := Record(q, st, id, bounds);
      assert Consistent(q, st1);
      if GoToNext(q, st1) {
        WalkAllConsistent(q, st1, children);
      }
    case Scrollable(bounds, translation, content) =>
      WalkConsistent(q, Scroll(q, st, bounds, translation), content);
    case Custom(_, _) =>
  }

  lemma {:induction false} WalkAllConsistent<S>(q: Query, st: Discovery, ws: seq<Widget<S>>)
    requires Consistent(q, st)
    ensures Consistent(q, WalkAll(q, st, ws))
    decreases SizeAll(ws), 1
  {
    if ws != [] {
      WalkConsistent(q, st, ws[0]);
      WalkAllConsistent(q, Walk(q, st, ws[0]), ws[1..]);
    }
  }

  /** The depth counter is never decremented. */
  lemma {:induction false} CounterNeverDecreases<S>(q: Query, st: Discovery, w: Widget<S>)
    ensures Walk(q, st, w).cDepth >= st.cDepth
    decreases Size(w), 0
  {
    match w
    case Container(id, bounds, children) =>
      var st1 := Record(q, st, id, bounds);
      if GoToNext(q, st1) {
        CounterNeverDecreasesAll(q, st1, children);
      }
    case Scrollable(bounds, translation, content) =>
      CounterNeverDecreases(q, Scroll(q, st, bounds, translation), content);
    case Custom(_, _) =>
  }

  lemma {:induction false} CounterNeverDecreasesAll<S>(q: Query, st: Discovery, ws: seq<Widget<S>>)
    ensures WalkAll(q, st, ws).cDepth >= st.cDepth
    decreases SizeAll(ws), 1
  {
    if ws != [] {
      CounterNeverDecreases(q, st, ws[0]);
      CounterNeverDecreasesAll(q, Walk(q, st, ws[0]), ws[1..]);
    }
  }

  /**
   * Once the counter has reached the maximum depth, a container is still
   * recorded when it qualifies but its children are not visited, so walking any
   * node, through any chain of scrollables, adds at most one zone.
   */
  lemma {:induction false} DepthCutoff<S>(q: Query, st: Discovery, w: Widget<S>)
    requires q.maxDepth.Some? && st.cDepth >= q.maxDepth.value
    ensures w.Container? ==> Walk(q, st, w) == Record(q, st, w.id, w.bounds)
    ensures |Walk(q, st, w).zones| <= |st.zones| + 1
    ensures st.zones <= Walk(q, st, w).zones
    decreases Size(w)
  {
    match w
    case Container(id, bounds, children) =>
    case Scrollable(bounds, translation, content) =>
      DepthCutoff(q, Scroll(q, st, bounds, translation), content);
    case Custom(_, _) =>
  }

  /** One callback of the walk, as a flat event. */
  datatype Event = ContainerEvent(id: Option<Id>, bounds: Rect) | ScrollEvent(bounds: Rect, translation: Vector)

  /** The callbacks of a walk that visits every node, in pre-order. */
  function Flatten<S>(w: Widget<S>): seq<Event>
    decreases Size(w), 0
  {
    match w
    case Container(id, bounds, children) => [ContainerEvent(id, bounds)] + FlattenAll(children)
    case Scrollable(bounds, translation, content) => [ScrollEvent(bounds, translation)] + Flatten(content)
    case Custom(_, _) => []
  }

  function FlattenAll<S>(ws: seq<Widget<S>>): seq<Event>
    decreases SizeAll(ws), 1
  {
    if ws == [] then [] else Flatten(ws[0]) + FlattenAll(ws[1..])
  }

  function Step(q: Query, st: Discovery, e: Event): Discovery
  {
    match e
    case ContainerEvent(id, bounds) => Record(q, st, id, bounds)
    case ScrollEvent(bounds, translation) => Scroll(q, st, bounds, translation)
  }

  /** The state after a sequence of callbacks. */
  function Replay(q: Query, st: Discovery, evs: seq<Event>): Discovery
    decreases |evs|
  {
    if evs == [] then st else Replay(q, Step(q, st, evs[0]), evs[1..])
  }

  lemma {:induction false} ReplayAppend(q: Query, st: Discovery, a: seq<Event>, b: seq<Event>)
    ensures Replay(q, st, a + b) == Replay(q, Replay(q, st, a), b)
    decreases |a|
  {
    if a == [] {
      assert a + b == b;
    } else {
      assert (a + b)[0] == a[0];
      assert (a + b)[1..] == a[1..] + b;
      ReplayAppend(q, Step(q, st, a[0]), a[1..], b);
    }
  }

  /** Without a depth limit, the operation sees every container and every scrollable, in pre-order. */
  lemma {:induction false} FullWalkIsReplay<S>(q: Query, st: Discovery, w: Widget<S>)
    requires q.maxDepth.None?
    ensures Walk(q, st, w) == Replay(q, st, Flatten(w))
    decreases Size(w), 0
  {
    match w
    case Container(id, bounds, children) =>
      var evs := Flatten(w);
      assert evs[0] == ContainerEvent(id, bounds) && evs[1..] == FlattenAll(children);
      FullWalkAllIsReplay(q, Record(q, st, id, bounds), children);
    case Scrollable(bounds, translation, content) =>
      var evs := Flatten(w);
      assert evs[0] == ScrollEvent(bounds, translation) && evs[1..] == Flatten(content);
      FullWalkIsReplay(q, Scroll(q, st, bounds, translation), content);
    case Custom(_, _) =>
  }

  lemma {:induction false} FullWalkAllIsReplay<S>(q: Query, st: Discovery, ws: seq<Widget<S>>)
    requires q.maxDepth.None?
    ensures WalkAll(q, st, ws) == Replay(q, st, FlattenAll(ws))
    decreases SizeAll(ws), 1
  {
    if ws != [] {
      FullWalkIsReplay(q, st, ws[0]);
      FullWalkAllIsReplay(q, Walk(q, st, ws[0]), ws[1..]);
      ReplayAppend(q, st, Flatten(ws[0]), FlattenAll(ws[1..]));
    }
  }

  /** Sum of the translations of the scrollables among `evs` whose bounds pass the filter. */
  function Shift(q: Query, evs: seq<Event>): Vector
    decreases |evs|
  {
    if evs == [] then Zero
    else
      var e := evs[|evs| - 1];
      var s := Shift(q, evs[..|evs| - 1]);
      if e.ScrollEvent? && q.filter(e.bounds) then s.Plus(e.translation) else s
  }

  /** The zone one container callback contributes when the accumulated offset is `off`. */
  function ZoneFor(q: Query, off: Vector, e: Event): seq<(Id, Rect)>
  {
    match e
    case ContainerEvent(Some(i), bounds) =>
      var r := bounds.Minus(off);
      if IsOption(q, i) && q.filter(r) then [(i, r)] else []
    case _ => []
  }

  /**
   * Reference definition of the zones found: every container event, with its
   * bounds corrected by the translations of ALL the qualifying scrollables that
   * come before it in pre-order, kept when it has an eligible id and the
   * corrected bounds pass the filter.
   */
  function Qualifying(q: Query, off: Vector, evs: seq<Event>): seq<(Id, Rect)>
    decreases |evs|
  {
    if evs == [] then []
    else
      var init := evs[..|evs| - 1];
      Qualifying(q, off, init) + ZoneFor(q, off.Plus(Shift(q, init)), evs[|evs| - 1])
  }

  lemma {:induction false} ReplayCharacterized(q: Query, st: Discovery, evs: seq<Event>)
    ensures var z := Qualifying(q, st.offset, evs);
            Replay(q, st, evs) == Discovery(st.zones + z, st.cDepth + |z|, st.offset.Plus(Shift(q, evs)))
    decreases |evs|
  {
    if evs == [] {
    } else {
      var init := evs[..|evs| - 1];
      var e := evs[|evs| - 1];
      assert evs == init + [e];
      ReplayCharacterized(q, st, init);
      ReplayAppend(q, st, init, [e]);
      var mid := Replay(q, st, init);
      assert Replay(q, mid, [e]) == Step(q, mid, e);
    }
  }

  lemma {:induction false} QualifyingMembers(q: Query, off: Vector, evs: seq<Event>, z: (Id, Rect))
    ensures z in Qualifying(q, off, evs) <==>
            exists k | 0 <= k < |evs| :: z in ZoneFor(q, off.Plus(Shift(q, evs[..k])), evs[k])
    decreases |evs|
  {
    if evs != [] {
      var n := |evs| - 1;
      var init := evs[..n];
      var last := ZoneFor(q, off.Plus(Shift(q, init)), evs[n]);
      assert Qualifying(q, off, evs) == Qualifying(q, off, init) + last;
      QualifyingMembers(q, off, init, z);
      if z in Qualifying(q, off, evs) {
        if z in Qualifying(q, off, init) {
          var k :| 0 <= k < |init| && z in ZoneFor(q, off.Plus(Shift(q, init[..k])), init[k]);
          assert init[..k] == evs[..k];
        } else {
          assert z in ZoneFor(q, off.Plus(Shift(q, evs[..n])), evs[n]);
        }
      }
      if exists k | 0 <= k < |evs| :: z in ZoneFor(q, off.Plus(Shift(q, evs[..k])), evs[k]) {
        var k :| 0 <= k < |evs| && z in ZoneFor(q, off.Plus(Shift(q, evs[..k])), evs[k]);
        if k < n {
          assert init[..k] == evs[..k];
          assert z in ZoneFor(q, off.Plus(Shift(q, init[..k])), init[k]);
        } else {
          assert evs[..k] == init;
        }
      }
    }
  }

  /** Without a depth limit, walking a tree appends its qualifying containers and adds its qualifying translations. */
  lemma {:induction false} DiscoveryFrom<S>(q: Query, st: Discovery, w: Widget<S>)
    requires q.maxDepth.None?
    ensures var z := Qualifying(q, st.offset, Flatten(w));
            Walk(q, st, w) == Discovery(st.zones + z, st.cDepth + |z|, st.offset.Plus(Shift(q, Flatten(w))))
  {
    FullWalkIsReplay(q, st, w);
    ReplayCharacterized(q, st, Flatten(w));
  }

  /**
   * Without a depth limit, discovery from the initial state finds the
   * qualifying container events of the pre-order walk, in order, and ends with
   * the offset of every qualifying scrollable added up: the offset is never
   * subtracted back.
   */
  lemma {:induction false} FullDiscovery<S>(q: Query, w: Widget<S>)
    requires q.maxDepth.None?
    ensures Walk(q, Initial, w).zones == Qualifying(q, Zero, Flatten(w))
    ensures Walk(q, Initial, w).offset == Shift(q, Flatten(w))
  {
    var evs := Flatten(w);
    var z := Qualifying(q, Zero, evs);
    DiscoveryFrom(q, Initial, w);
    assert [] + z == z;
    assert Zero.Plus(Shift(q, evs)) == Shift(q, evs);
  }
}

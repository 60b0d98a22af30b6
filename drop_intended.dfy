/**
 * Zone discovery as its documentation describes it: `depth` bounds how deep
 * into NESTED drop zones the walk goes, and a scrollable's translation applies
 * to the widgets inside it. The operation as written keeps one depth counter
 * and one offset for the whole walk, so a branch is affected by what its
 * earlier siblings found or scrolled (see the two counterexamples below).
 * `Zones` keeps both per branch; with it, the zones of a row of siblings are
 * the zones of each sibling, one after the other.
 */
module DropIntended {
  import opened Wrappers
  import opened Geometry
  import opened Widget
  import opened Drop

  /** The zone a container contributes under offset `off`, if any. */
  function Own(q: Query, off: Vector, id: Option<Id>, bounds: Rect): (r: seq<(Id, Rect)>)
    ensures |r| <= 1
    ensures r != [] <==> id.Some? && IsOption(q, id.value) && q.filter(bounds.Minus(off))
    ensures r != [] ==> r[0] == (id.value, bounds.Minus(off))
  {
    match id
    case None => []
    case Some(i) =>
      var b := bounds.Minus(off);
      if IsOption(q, i) && q.filter(b) then [(i, b)] else []
  }

  /**
   * The zones under `w`, where `level` counts the zones recorded on the path
   * from the root and `off` adds up the translations of the enclosing
   * scrollables whose bounds pass the filter.
   */
  function Zones<S>(q: Query, level: nat, off: Vector, w: Widget<S>): seq<(Id, Rect)>
    decreases Size(w), 0
  {
    match w
    case Container(id, bounds, children) =>
      var own := Own(q, off, id, bounds);
      var lvl := level + |own|;
      own + (if q.maxDepth.None? || lvl < q.maxDepth.value then ZonesAll(q, lvl, off, children) else [])
    case Scrollable(bounds, translation, content) =>
      Zones(q, level, if q.filter(bounds) then off.Plus(translation) else off, content)
    case Custom(_, _) => []
  }

  function ZonesAll<S>(q: Query, level: nat, off: Vector, ws: seq<Widget<S>>): seq<(Id, Rect)>
    decreases SizeAll(ws), 1
  {
    if ws == [] then [] else Zones(q, level, off, ws[0]) + ZonesAll(q, level, off, ws[1..])
  }

  /** Siblings do not affect one another: the zones of a row are the zones of its parts. */
  lemma {:induction false} SiblingsIndependent<S>(q: Query, level: nat, off: Vector, a: seq<Widget<S>>, b: seq<Widget<S>>)
    ensures ZonesAll(q, level, off, a + b) == ZonesAll(q, level, off, a) + ZonesAll(q, level, off, b)
    decreases |a|
  {
    if a == [] {
      assert a + b == b;
    } else {
      assert (a + b)[0] == a[0];
      assert (a + b)[1..] == a[1..] + b;
      SiblingsIndependent(q, level, off, a[1..], b);
    }
  }

  /** Every zone found has an eligible id and bounds that pass the filter. */
  lemma {:induction false} ZonesQualify<S>(q: Query, level: nat, off: Vector, w: Widget<S>)
    ensures forall z | z in Zones(q, level, off, w) :: IsOption(q, z.0) && q.filter(z.1)
    decreases Size(w), 0
  {
    match w
    case Container(id, bounds, children) =>
      var lvl := level + |Own(q, off, id, bounds)|;
      if q.maxDepth.None? || lvl < q.maxDepth.value {
        ZonesAllQualify(q, lvl, off, children);
      }
    case Scrollable(bounds, translation, content) =>
      ZonesQualify(q, level, if q.filter(bounds) then off.Plus(translation) else off, content);
    case Custom(_, _) =>
  }

  lemma {:induction false} ZonesAllQualify<S>(q: Query, level: nat, off: Vector, ws: seq<Widget<S>>)
    ensures forall z | z in ZonesAll(q, level, off, ws) :: IsOption(q, z.0) && q.filter(z.1)
    decreases SizeAll(ws), 1
  {
    if ws != [] {
      ZonesQualify(q, level, off, ws[0]);
      ZonesAllQualify(q, level, off, ws[1..]);
    }
  }

  /** A zone is found only at a nesting level within the maximum depth. */
  lemma {:induction false} ZonesWithinDepth<S>(q: Query, level: nat, off: Vector, w: Widget<S>)
    requires q.maxDepth.Some? && level >= q.maxDepth.value
    ensures |Zones(q, level, off, w)| <= 1
    decreases Size(w)
  {
    match w
    case Container(id, bounds, children) =>
    case Scrollable(bounds, translation, content) =>
      ZonesWithinDepth(q, level, if q.filter(bounds) then off.Plus(translation) else off, content);
    case Custom(_, _) =>
  }

  predicate NoScrollable<S>(w: Widget<S>)
    decreases Size(w), 0
  {
    match w
    case Container(_, _, children) => NoScrollableAll(children)
    case Scrollable(_, _, _) => false
    case Custom(_, _) => true
  }

  predicate NoScrollableAll<S>(ws: seq<Widget<S>>)
    decreases SizeAll(ws), 1
  {
    ws == [] || (NoScrollable(ws[0]) && NoScrollableAll(ws[1..]))
  }

  /**
   * Where neither defect can show, that is with no depth limit and no
   * scrollable, the operation as written finds exactly these zones.
   */
  lemma {:induction false} AgreesWithoutScrollOrLimit<S>(q: Query, st: Discovery, w: Widget<S>, level: nat)
    requires q.maxDepth.None? && NoScrollable(w)
    ensures Walk(q, st, w).zones == st.zones + Zones(q, level, st.offset, w)
    ensures Walk(q, st, w).offset == st.offset
    decreases Size(w), 0
  {
    match w
    case Container(id, bounds, children) =>
      var own := Own(q, st.offset, id, bounds);
      var st1 := Record(q, st, id, bounds);
      assert st1.zones == st.zones + own && st1.offset == st.offset;
      AgreesAll(q, st1, children, level + |own|);
    case Custom(_, _) =>
  }

  lemma {:induction false} AgreesAll<S>(q: Query, st: Discovery, ws: seq<Widget<S>>, level: nat)
    requires q.maxDepth.None? && NoScrollableAll(ws)
    ensures WalkAll(q, st, ws).zones == st.zones + ZonesAll(q, level, st.offset, ws)
    ensures WalkAll(q, st, ws).offset == st.offset
    decreases SizeAll(ws), 1
  {
    if ws != [] {
      var off := st.offset;
      var z0 := Zones(q, level, off, ws[0]);
      var rest := ZonesAll(q, level, off, ws[1..]);
      AgreesWithoutScrollOrLimit(q, st, ws[0], level);
      var st1 := Walk(q, st, ws[0]);
      AgreesAll(q, st1, ws[1..], level);
      assert WalkAll(q, st, ws) == WalkAll(q, st1, ws[1..]);
      assert ZonesAll(q, level, off, ws) == z0 + rest;
      assert (st.zones + z0) + rest == st.zones + (z0 + rest);
    }
  }

  // Witnesses of the two defects of the operation as written, on every tree of
  // the shapes below, under a query that accepts every id and every bounds.

  ghost predicate AcceptsAll(q: Query)
  {
    q.options.None? && forall r: Rect :: q.filter(r)
  }

  /** A container with no id and `cs` as children. */
  function Row(bounds: Rect, cs: seq<Widget<int>>): Widget<int>
  {
    Widget.Container(None, bounds, cs)
  }

  /**
   * A scrollable with translation `t` and empty content, followed by a sibling
   * zone `(i, r)` outside it: as written, the sibling is recorded with bounds
   * `r - t`, moved by the translation of a scrollable it is not inside.
   */
  lemma {:induction false} OffsetLeaksToSibling(q: Query, outer: Rect, sb: Rect, t: Vector, i: Id, r: Rect)
    requires AcceptsAll(q) && q.maxDepth.None?
    ensures Walk(q, Initial, Row(outer, [Widget.Scrollable(sb, t, Widget.Custom(None, None)), Widget.Container(Some(i), r, [])])).zones
            == [(i, r.Minus(t))]
  {
    var s: Widget<int> := Widget.Scrollable(sb, t, Widget.Custom(None, None));
    var z: Widget<int> := Widget.Container(Some(i), r, []);
    var cs := [s, z];
    var st1 := Discovery([], 0, t);
    assert Zero.Plus(t) == t;
    assert Walk(q, Initial, s) == st1 by {
      assert q.filter(sb);
    }
    assert WalkAll(q, st1, cs[1..]) == Discovery([(i, r.Minus(t))], 1, t) by {
      assert cs[1..] == [z];
      assert q.filter(r.Minus(t));
      var st2 := Record(q, st1, Some(i), r);
      assert st2 == Discovery([(i, r.Minus(t))], 1, t) by {
        assert [] + [(i, r.Minus(t))] == [(i, r.Minus(t))];
      }
      assert Walk(q, st1, z) == st2;
      assert WalkAll(q, st1, [z]) == WalkAll<int>(q, st2, []);
    }
  }

  /** With the offset scoped to the scrollable's content, the sibling keeps its bounds `r`. */
  lemma {:induction false} OffsetScoped(q: Query, outer: Rect, sb: Rect, t: Vector, i: Id, r: Rect)
    requires AcceptsAll(q) && q.maxDepth.None?
    ensures Zones(q, 0, Zero, Row(outer, [Widget.Scrollable(sb, t, Widget.Custom(None, None)), Widget.Container(Some(i), r, [])]))
            == [(i, r)]
  {
    var s: Widget<int> := Widget.Scrollable(sb, t, Widget.Custom(None, None));
    var z: Widget<int> := Widget.Container(Some(i), r, []);
    var cs := [s, z];
    assert r.Minus(Zero) == r;
    assert Zones(q, 0, Zero, s) == [] by {
      assert Zones(q, 0, if q.filter(sb) then Zero.Plus(t) else Zero, s.content) == [];
    }
    assert ZonesAll(q, 0, Zero, cs[1..]) == [(i, r)] by {
      assert cs[1..] == [z];
      assert q.filter(r);
      ZonesOfLeaf<int>(q, 0, Zero, Some(i), r);
    }
  }

  /** Two top-level zones, `(i1, r1)` and `(i3, r3)`, holding the nested zones `(i2, r2)` and `(i4, r4)`. */
  function TwoBranches(outer: Rect, i1: Id, r1: Rect, i2: Id, r2: Rect, i3: Id, r3: Rect, i4: Id, r4: Rect): Widget<int>
  {
    Row(outer, [Widget.Container(Some(i1), r1, [Widget.Container(Some(i2), r2, [])]),
                Widget.Container(Some(i3), r3, [Widget.Container(Some(i4), r4, [])])])
  }

  /**
   * Walked with depth 2, the counter already stands at 2 when the second
   * top-level zone is reached, so as written its nested zone is never visited.
   */
  lemma {:induction false} DepthSharedAcrossBranches(q: Query, outer: Rect, i1: Id, r1: Rect, i2: Id, r2: Rect, i3: Id, r3: Rect, i4: Id, r4: Rect)
    requires AcceptsAll(q) && q.maxDepth == Some(2)
    ensures Walk(q, Initial, TwoBranches(outer, i1, r1, i2, r2, i3, r3, i4, r4)).zones == [(i1, r1), (i2, r2), (i3, r3)]
  {
    var a2: Widget<int> := Widget.Container(Some(i2), r2, []);
    var b2: Widget<int> := Widget.Container(Some(i4), r4, []);
    var a: Widget<int> := Widget.Container(Some(i1), r1, [a2]);
    var b: Widget<int> := Widget.Container(Some(i3), r3, [b2]);
    var cs := [a, b];
    assert r1.Minus(Zero) == r1 && r2.Minus(Zero) == r2 && r3.Minus(Zero) == r3;
    assert q.filter(r1) && q.filter(r2) && q.filter(r3);
    var s1 := Discovery([(i1, r1)], 1, Zero);
    var s2 := Discovery([(i1, r1), (i2, r2)], 2, Zero);
    var s3 := Discovery([(i1, r1), (i2, r2), (i3, r3)], 3, Zero);
    assert Walk(q, Initial, a) == s2 by {
      assert Record(q, Initial, Some(i1), r1) == s1;
      assert Walk(q, s1, a2) == s2;
      assert [a2][1..] == [];
      assert WalkAll(q, s1, [a2]) == s2;
    }
    assert Walk(q, s2, b) == s3 by {
      assert Record(q, s2, Some(i3), r3) == s3;
    }
    assert WalkAll(q, s2, cs[1..]) == s3 by {
      assert cs[1..] == [b];
    }
  }

  /** With the depth kept per branch, both nested zones are found. */
  lemma {:induction false} DepthPerBranch(q: Query, outer: Rect, i1: Id, r1: Rect, i2: Id, r2: Rect, i3: Id, r3: Rect, i4: Id, r4: Rect)
    requires AcceptsAll(q) && q.maxDepth == Some(2)
    ensures Zones(q, 0, Zero, TwoBranches(outer, i1, r1, i2, r2, i3, r3, i4, r4)) == [(i1, r1), (i2, r2), (i3, r3), (i4, r4)]
  {
    var a2: Widget<int> := Widget.Container(Some(i2), r2, []);
    var b2: Widget<int> := Widget.Container(Some(i4), r4, []);
    var a: Widget<int> := Widget.Container(Some(i1), r1, [a2]);
    var b: Widget<int> := Widget.Container(Some(i3), r3, [b2]);
    assert r1.Minus(Zero) == r1 && r2.Minus(Zero) == r2 && r3.Minus(Zero) == r3 && r4.Minus(Zero) == r4;
    assert q.filter(r1) && q.filter(r2) && q.filter(r3) && q.filter(r4);
    ZonesOfLeaf<int>(q, 1, Zero, Some(i2), r2);
    ZonesOfLeaf<int>(q, 1, Zero, Some(i4), r4);
    ZonesOfParent(q, 0, Zero, Some(i1), r1, a2);
    ZonesOfParent(q, 0, Zero, Some(i3), r3, b2);
    SiblingsIndependent(q, 0, Zero, [a], [b]);
    assert [a] + [b] == [a, b];
    assert ZonesAll(q, 0, Zero, [a]) == Zones(q, 0, Zero, a) by {
      assert [a][1..] == [];
    }
    assert ZonesAll(q, 0, Zero, [b]) == Zones(q, 0, Zero, b) by {
      assert [b][1..] == [];
    }
  }

  /** A zone holding one child, below the depth limit, contributes itself and then its child's zones. */
  lemma {:induction false} ZonesOfParent<S>(q: Query, level: nat, off: Vector, id: Option<Id>, bounds: Rect, c: Widget<S>)
    requires |Own(q, off, id, bounds)| == 1 && (q.maxDepth.None? || level + 1 < q.maxDepth.value)
    ensures Zones(q, level, off, Widget.Container(id, bounds, [c])) == Own(q, off, id, bounds) + Zones(q, level + 1, off, c)
  {
    var w := Widget.Container(id, bounds, [c]);
    assert Zones(q, level, off, w) == Own(q, off, id, bounds) + ZonesAll(q, level + 1, off, [c]);
    assert [c][1..] == [];
    assert ZonesAll(q, level + 1, off, [c]) == Zones(q, level + 1, off, c) + ZonesAll(q, level + 1, off, [c][1..]);
  }

  /** A container without children contributes at most itself. */
  lemma {:induction false} ZonesOfLeaf<S>(q: Query, level: nat, off: Vector, id: Option<Id>, bounds: Rect)
    ensures Zones<S>(q, level, off, Widget.Container(id, bounds, [])) == Own(q, off, id, bounds)
  {
    var w: Widget<S> := Widget.Container(id, bounds, []);
    assert ZonesAll<S>(q, level + |Own(q, off, id, bounds)|, off, []) == [];
  }
}

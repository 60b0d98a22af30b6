/**
 * Highlighting of the dragged element and of the zone under it
 * (examples/todo/src/highlight.rs). A `Highlight` is a value the board keeps
 * one of for item drags and one for list drags; the functions compute the
 * next value and the methods write the matching flags into the tree.
 */
module Highlights {
  import opened Wrappers
  import opened Geometry
  import opened Tree

  /** What is being dragged (its location and bounds) and which zone is hovered. */
  datatype Highlight = Highlight(dragging: Option<(TreeLocation, Rect)>, hovered: Option<TreeLocation>)

  /** `dragged`: record the dragged element, keeping the hovered zone. */
  function Dragged(info: Highlight, loc: TreeLocation, bounds: Rect): (r: Highlight)
    ensures r.dragging == Some((loc, bounds))
    ensures r.hovered == info.hovered
  {
    info.(dragging := Some((loc, bounds)))
  }

  /** `dropped`: nothing dragged, nothing hovered (`Highlight::default()`). */
  function Dropped(): (r: Highlight)
    ensures r.dragging.None? && r.hovered.None?
  {
    Highlight(None, None)
  }

  predicate IsTodoZone(z: (TreeLocation, Rect))
  {
    z.0.element.TodoElem?
  }

  /** The first of the two vectors `zones_found` splits the zones into: the item zones, in order. */
  function TodoZones(zones: seq<(TreeLocation, Rect)>): seq<(TreeLocation, Rect)>
  {
    if zones == [] then []
    else if IsTodoZone(zones[0]) then [zones[0]] + TodoZones(zones[1..])
    else TodoZones(zones[1..])
  }

  /** The second vector: every other zone, in order. */
  function OtherZones(zones: seq<(TreeLocation, Rect)>): seq<(TreeLocation, Rect)>
  {
    if zones == [] then []
    else if !IsTodoZone(zones[0]) then [zones[0]] + OtherZones(zones[1..])
    else OtherZones(zones[1..])
  }

  /** The split loses no zone and puts each on its side. */
  lemma {:induction false} SplitMembers(zones: seq<(TreeLocation, Rect)>, z: (TreeLocation, Rect))
    ensures z in TodoZones(zones) <==> z in zones && IsTodoZone(z)
    ensures z in OtherZones(zones) <==> z in zones && !IsTodoZone(z)
  {
    if zones != [] {
      SplitMembers(zones[1..], z);
      assert zones == [zones[0]] + zones[1..];
    }
  }

  /** Item zones take precedence: the other zones count only when no item zone was found. */
  function ValidZones(zones: seq<(TreeLocation, Rect)>): seq<(TreeLocation, Rect)>
  {
    if TodoZones(zones) == [] then OtherZones(zones) else TodoZones(zones)
  }

  /** The overlap a zone has with the dragged element's bounds. */
  function Area(z: (TreeLocation, Rect), droppable: Rect): nat
  {
    z.1.IntersectionArea(droppable)
  }

  /**
   * `bigggest_intersect_area`: `max_by` over the areas, which on a tie keeps
   * the last of the maximal elements.
   */
  function LastMaxIndex(zones: seq<(TreeLocation, Rect)>, droppable: Rect): (k: nat)
    requires zones != []
    ensures k < |zones|
    ensures forall m | 0 <= m < |zones| :: Area(zones[m], droppable) <= Area(zones[k], droppable)
    ensures forall m | k < m < |zones| :: Area(zones[m], droppable) < Area(zones[k], droppable)
  {
    if |zones| == 1 then 0
    else
      var init := zones[..|zones| - 1];
      var k := LastMaxIndex(init, droppable);
      assert forall m | 0 <= m < |init| :: zones[m] == init[m];
      if Area(zones[k], droppable) <= Area(zones[|zones| - 1], droppable) then |zones| - 1 else k
  }

  /** The value `zones_found` returns. */
  function ZonesFoundSpec(info: Highlight, zones: seq<(TreeLocation, Rect)>): Highlight
  {
    var cleared := if zones == [] then info.(hovered := None) else info;
    match info.dragging
    case None => cleared
    case Some((_, bounds)) =>
      var valid := ValidZones(zones);
      if valid == [] then cleared
      else cleared.(hovered := Some(valid[LastMaxIndex(valid, bounds)].0))
  }

  /** `zones_found`: split the zones into item zones and the rest, then pick the largest overlap. */
  method ZonesFound(info: Highlight, zones: seq<(TreeLocation, Rect)>) returns (r: Highlight)
    ensures r == ZonesFoundSpec(info, zones)
  {
    r := info;
    if zones == [] {
      r := r.(hovered := None);
    }
    if info.dragging.Some? {
      var bounds := info.dragging.value.1;
      var todoZones, otherZones := [], [];
      var i := 0;
      while i < |zones|
        invariant 0 <= i <= |zones|
        invariant todoZones == TodoZones(zones[..i])
        invariant otherZones == OtherZones(zones[..i])
      {
        SplitStep(zones, i);
        if IsTodoZone(zones[i]) {
          todoZones := todoZones + [zones[i]];
        } else {
          otherZones := otherZones + [zones[i]];
        }
        i := i + 1;
      }
      assert zones[..|zones|] == zones;
      var valid := if todoZones == [] then otherZones else todoZones;
      if valid != [] {
        var k := LastMaxIndex(valid, bounds);
        r := r.(hovered := Some(valid[k].0));
      }
    }
  }

  lemma {:induction false} SplitStep(zones: seq<(TreeLocation, Rect)>, i: nat)
    requires i < |zones|
    ensures TodoZones(zones[..i + 1]) == TodoZones(zones[..i]) + (if IsTodoZone(zones[i]) then [zones[i]] else [])
    ensures OtherZones(zones[..i + 1]) == OtherZones(zones[..i]) + (if IsTodoZone(zones[i]) then [] else [zones[i]])
  {
    SplitAppend(zones[..i], zones[i]);
    assert zones[..i + 1] == zones[..i] + [zones[i]];
  }

  lemma {:induction false} SplitAppend(zs: seq<(TreeLocation, Rect)>, z: (TreeLocation, Rect))
    ensures TodoZones(zs + [z]) == TodoZones(zs) + (if IsTodoZone(z) then [z] else [])
    ensures OtherZones(zs + [z]) == OtherZones(zs) + (if IsTodoZone(z) then [] else [z])
  {
    if zs == [] {
      assert [] + [z] == [z];
      assert [z][1..] == [];
    } else {
      assert (zs + [z])[1..] == zs[1..] + [z];
      assert (zs + [z])[0] == zs[0];
      SplitAppend(zs[1..], z);
    }
  }

  /**
   * What `zones_found` decides: the dragged element is kept; no zones clears
   * the hovered zone; without a drag nothing else changes; with a drag and
   * at least one zone the hovered zone becomes one of the zones, an item zone
   * whenever there is one, whose overlap with the dragged bounds is the
   * largest among the candidates and strictly larger than that of any later
   * candidate.
   */
  lemma {:induction false} ZonesFoundChoice(info: Highlight, zones: seq<(TreeLocation, Rect)>)
    ensures var r := ZonesFoundSpec(info, zones);
      && r.dragging == info.dragging
      && (zones == [] ==> r.hovered.None?)
      && (info.dragging.None? ==> r.hovered == if zones == [] then None else info.hovered)
      && (info.dragging.Some? && zones != [] ==>
            var bounds := info.dragging.value.1;
            var valid := ValidZones(zones);
            exists k | 0 <= k < |valid| ::
              && valid[k] in zones
              && r.hovered == Some(valid[k].0)
              && ((exists z | z in zones :: IsTodoZone(z)) <==> IsTodoZone(valid[k]))
              && (forall m | 0 <= m < |valid| :: Area(valid[m], bounds) <= Area(valid[k], bounds))
              && (forall m | k < m < |valid| :: Area(valid[m], bounds) < Area(valid[k], bounds)))
  {
    if info.dragging.Some? && zones != [] {
      var bounds := info.dragging.value.1;
      var valid := ValidZones(zones);
      PickedZone(zones, bounds);
      var k := LastMaxIndex(valid, bounds);
      assert ZonesFoundSpec(info, zones).hovered == Some(valid[k].0);
    }
  }

  /** The zone `bigggest_intersect_area` picks is a reported zone, and an item zone whenever there is one. */
  lemma {:induction false} PickedZone(zones: seq<(TreeLocation, Rect)>, bounds: Rect)
    requires zones != []
    ensures ValidZones(zones) != []
    ensures var valid := ValidZones(zones);
            var k := LastMaxIndex(valid, bounds);
            valid[k] in zones && ((exists z | z in zones :: IsTodoZone(z)) <==> IsTodoZone(valid[k]))
  {
    var valid := ValidZones(zones);
    SplitMembers(zones, zones[0]);
    if TodoZones(zones) != [] {
      SplitMembers(zones, TodoZones(zones)[0]);
    }
    var k := LastMaxIndex(valid, bounds);
    SplitMembers(zones, valid[k]);
    if exists z | z in zones :: IsTodoZone(z) {
      var z :| z in zones && IsTodoZone(z);
      SplitMembers(zones, z);
    }
  }

  /** `should_update_droppable`: during a drag, only for the dragged element; otherwise when a drag starts. */
  function ShouldUpdateDroppable(oldInfo: Highlight, newInfo: Highlight, loc: TreeLocation): (r: bool)
  {
    match oldInfo.dragging
    case Some((d, _)) => d == loc
    case None => newInfo.dragging.Some?
  }

  /**
   * On a drag event the droppable is updated exactly when no drag was under
   * way or the drag under way is of the same element.
   */
  lemma {:induction false} DraggedShouldUpdate(info: Highlight, loc: TreeLocation, bounds: Rect)
    ensures ShouldUpdateDroppable(info, Dragged(info, loc, bounds), loc) <==>
            info.dragging.None? || info.dragging.value.0 == loc
  {
  }

  /** How the hovered zone's highlight changes between two highlight states. */
  datatype ZoneUpdate = RemoveHighlight | AddHighlight | Replace | NoUpdate

  /** `zone_update`. */
  function ZoneUpdateOf(oldInfo: Highlight, newInfo: Highlight): (u: ZoneUpdate)
    ensures u == NoUpdate <==> oldInfo.hovered == newInfo.hovered
    ensures u == RemoveHighlight <==> oldInfo.hovered.Some? && newInfo.hovered.None?
    ensures u == AddHighlight <==> oldInfo.hovered.None? && newInfo.hovered.Some?
    ensures u == Replace <==> oldInfo.hovered.Some? && newInfo.hovered.Some? && oldInfo.hovered != newInfo.hovered
  {
    match oldInfo.hovered
    case Some(o) =>
      (match newInfo.hovered
       case Some(n) => if o != n then Replace else NoUpdate
       case None => RemoveHighlight)
    case None =>
      (match newInfo.hovered
       case Some(_) => AddHighlight
       case None => NoUpdate)
  }

  /** The hovered zone, if any, exists in the tree. */
  predicate HoverResolves(slots: seq<Slot>, info: Highlight)
  {
    info.hovered.Some? ==> Resolves(slots, info.hovered.value)
  }

  /** The slots after `set_hovered(info, b)`. */
  function Hovered(slots: seq<Slot>, info: Highlight, b: bool): (r: seq<Slot>)
    requires HoverResolves(slots, info)
    ensures |r| == |slots| && SameContainers(slots, r)
  {
    if info.hovered.None? then slots else WithFlag(slots, info.hovered.value, b)
  }

  /** The slots after `ZoneUpdate::update`. */
  function ZoneUpdated(u: ZoneUpdate, slots: seq<Slot>, oldInfo: Highlight, newInfo: Highlight): (r: seq<Slot>)
    requires HoverResolves(slots, oldInfo) && HoverResolves(slots, newInfo)
    ensures |r| == |slots| && SameContainers(slots, r)
  {
    match u
    case RemoveHighlight => Hovered(slots, oldInfo, false)
    case AddHighlight => Hovered(slots, newInfo, true)
    case Replace => Hovered(Hovered(slots, oldInfo, false), newInfo, true)
    case NoUpdate => slots
  }

  /** Setting highlight flags never changes the items. */
  lemma {:induction false} ZoneUpdatedKeepsIds(u: ZoneUpdate, slots: seq<Slot>, oldInfo: Highlight, newInfo: Highlight)
    requires HoverResolves(slots, oldInfo) && HoverResolves(slots, newInfo)
    ensures AllTodoIds(Hovered(slots, oldInfo, false)) == AllTodoIds(slots)
    ensures AllTodoIds(ZoneUpdated(u, slots, oldInfo, newInfo)) == AllTodoIds(slots)
  {
    if oldInfo.hovered.Some? {
      FlagSet(slots, oldInfo.hovered.value, false, oldInfo.hovered.value);
      if newInfo.hovered.Some? {
        FlagSet(slots, oldInfo.hovered.value, false, newInfo.hovered.value);
        FlagSet(Hovered(slots, oldInfo, false), newInfo.hovered.value, true, newInfo.hovered.value);
      }
    }
    if newInfo.hovered.Some? {
      FlagSet(slots, newInfo.hovered.value, true, newInfo.hovered.value);
    }
  }

  /** `set_hovered`: sets the flag of the hovered slot, list or item. */
  method SetHovered(tree: TreeData, info: Highlight, b: bool)
    requires HoverResolves(tree.slots, info)
    modifies tree
    ensures tree.slots == Hovered(old(tree.slots), info, b)
  {
    if info.hovered.Some? {
      var loc := info.hovered.value;
      match loc.element {
        case SlotElem => tree.SetSlotHighlight(loc.slot, b);
        case ListElem => tree.SetListHighlight(loc, b);
        case TodoElem(_) => tree.SetTodoHighlight(loc, b);
      }
    }
  }

  /** `ZoneUpdate::update`. */
  method ApplyZoneUpdate(u: ZoneUpdate, tree: TreeData, oldInfo: Highlight, newInfo: Highlight)
    requires HoverResolves(tree.slots, oldInfo) && HoverResolves(tree.slots, newInfo)
    modifies tree
    ensures tree.slots == ZoneUpdated(u, old(tree.slots), oldInfo, newInfo)
  {
    match u {
      case RemoveHighlight => SetHovered(tree, oldInfo, false);
      case AddHighlight => SetHovered(tree, newInfo, true);
      case Replace =>
        SetHovered(tree, oldInfo, false);
        if oldInfo.hovered.Some? && newInfo.hovered.Some? {
          FlagSet(old(tree.slots), oldInfo.hovered.value, false, newInfo.hovered.value);
        }
        SetHovered(tree, newInfo, true);
      case NoUpdate =>
    }
  }

  /**
   * The highlight follows the hovered zone: after the update `zone_update`
   * picks, a newly hovered zone is highlighted, a zone no longer hovered is
   * not, every other flag is as before, and no id moves.
   */
  lemma {:induction false} ZoneUpdateFollowsHover(slots: seq<Slot>, oldInfo: Highlight, newInfo: Highlight, loc: TreeLocation)
    requires HoverResolves(slots, oldInfo) && HoverResolves(slots, newInfo)
    requires Resolves(slots, loc)
    ensures var r := ZoneUpdated(ZoneUpdateOf(oldInfo, newInfo), slots, oldInfo, newInfo);
      && |r| == |slots|
      && Resolves(r, loc)
      && IdAt(r, loc) == IdAt(slots, loc)
      && AllTodoIds(r) == AllTodoIds(slots)
      && FlagAt(r, loc) == if oldInfo.hovered == newInfo.hovered then FlagAt(slots, loc)
                           else if newInfo.hovered == Some(loc) then true
                           else if oldInfo.hovered == Some(loc) then false
                           else FlagAt(slots, loc)
  {
    var u := ZoneUpdateOf(oldInfo, newInfo);
    if oldInfo.hovered.Some? {
      FlagSet(slots, oldInfo.hovered.value, false, loc);
      FlagSet(slots, oldInfo.hovered.value, false, oldInfo.hovered.value);
      if newInfo.hovered.Some? {
        FlagSet(slots, oldInfo.hovered.value, false, newInfo.hovered.value);
        var s1 := WithFlag(slots, oldInfo.hovered.value, false);
        FlagSet(s1, newInfo.hovered.value, true, loc);
      }
    }
    if oldInfo.hovered.None? && newInfo.hovered.Some? {
      FlagSet(slots, newInfo.hovered.value, true, loc);
    }
  }
}

/**
 * What the arms of the to-do board's `update` guarantee, stated on the
 * snapshot functions of module Board.
 */
module BoardFacts {
  import opened Wrappers
  import opened Geometry
  import opened Widget
  import opened Tree
  import opened Highlights
  import opened BoardRules
  import opened Board
  import Drop
  import DropFacts

  // ---------------------------------------------------------------------
  // Editing

  /**
   * `stop_editing_task` clears the editing mark of the stored item and
   * forgets it; a stored location that is not an item stays stored. Nothing
   * else changes.
   */
  lemma {:induction false} StopEditingEffect(st: BoardState)
    requires CanStopEditing(st)
    ensures var r := StopEditingStep(st);
      && r.(slots := st.slots, editing := st.editing) == st
      && AllTodoIds(r.slots) == AllTodoIds(st.slots)
      && (r.editing.None? || (r.editing == st.editing && !st.editing.value.element.TodoElem?))
      && (st.editing.Some? && st.editing.value.element.TodoElem? ==>
            var loc := st.editing.value;
            Resolves(r.slots, loc) && ItemAt(r.slots, loc) == ItemAt(st.slots, loc).(editing := false))
  {
    if st.editing.Some? && st.editing.value.element.TodoElem? {
      var loc := st.editing.value;
      WithTodoKeepsIds(st.slots, loc, ItemAt(st.slots, loc).(editing := false));
    }
  }

  /**
   * A first click on an item at `t` followed by a click on the same item
   * `gap` milliseconds later starts editing that item, and focuses its input,
   * exactly when the gap is under `DOUBLE_CLICK_TIME`.
   */
  lemma {:induction false} DoubleClickEdits(st: BoardState, loc: TreeLocation, input: InputId, t: nat, gap: nat)
    requires CanStopEditing(st) && Resolves(st.slots, loc) && loc.element.TodoElem?
    requires !IsDoubleClick(st.clicked, loc, t)
    ensures var first := EditTaskStep(st, loc, input, t);
      && first.cmd == NoCommand
      && CanStopEditing(first.state) && Resolves(first.state.slots, loc)
      && var second := EditTaskStep(first.state, loc, input, t + gap);
         && (second.cmd == Focus(input) <==> gap < DoubleClickTime)
         && (gap < DoubleClickTime ==>
               second.state.editing == Some(loc) && ItemAt(second.state.slots, loc).editing)
  {
    var s1 := StopEditingStep(st);
    var first := EditTaskStep(st, loc, input, t);
    assert first.state == s1.(clicked := (loc, t));
    StopEditingEffect(first.state);
    var s2 := StopEditingStep(first.state);
    assert s2.clicked == (loc, t);
    if gap < DoubleClickTime {
      WithTodoKeepsIds(s2.slots, loc, ItemAt(s2.slots, loc).(editing := true));
    }
  }

  /** `UpdateTask` on an item replaces exactly its text. */
  lemma {:induction false} UpdateTaskSetsText(st: BoardState, loc: TreeLocation, content: string)
    requires Resolves(st.slots, loc) && loc.element.TodoElem?
    ensures var r := UpdateTaskStep(st, loc, content);
      && r.(slots := st.slots) == st
      && AllTodoIds(r.slots) == AllTodoIds(st.slots)
      && Resolves(r.slots, loc)
      && ItemAt(r.slots, loc) == ItemAt(st.slots, loc).(content := content)
  {
    WithTodoKeepsIds(st.slots, loc, ItemAt(st.slots, loc).(content := content));
  }

  /** `UpdateTaskWriter` sets the adder's text and touches no item id. */
  lemma {:induction false} UpdateTaskWriterSetsText(st: BoardState, loc: TreeLocation, text: string)
    requires CanStopEditing(st) && loc.slot < |st.slots|
    ensures var r := UpdateTaskWriterStep(st, loc, text);
      && r.slots[loc.slot].list.adder.text == text
      && r.slots[loc.slot].list.adder.inputId == st.slots[loc.slot].list.adder.inputId
      && AllTodoIds(r.slots) == AllTodoIds(st.slots)
      && r.(slots := st.slots, editing := st.editing) == st
  {
    StopEditingEffect(st);
    var s1 := StopEditingStep(st);
    var l := s1.slots[loc.slot].list;
    var r := UpdateTaskWriterStep(st, loc, text);
    AllTodoIdsUpdate(s1.slots, loc.slot, r.slots[loc.slot]);
    assert r.slots == s1.slots[loc.slot := r.slots[loc.slot]];
  }

  // ---------------------------------------------------------------------
  // Dragging an item

  /**
   * The zone request of `DragTask` asks for every item other than the dragged
   * one and every list, and the dragged item is highlighted when its drag starts.
   */
  lemma {:induction false} DragTaskRequest(st: BoardState, loc: TreeLocation, bounds: Rect, x: Id)
    requires Resolves(st.slots, loc) && loc.element.TodoElem?
    ensures var o := DragTaskStep(st, loc, bounds);
      && o.cmd.FindZones? && o.cmd.reply == TaskZones && o.cmd.dragged == bounds && o.cmd.depth.None?
      && (x in o.cmd.options <==> (x != IdAt(st.slots, loc) && HasTodo(st.slots, x)) || x in ListIds(st.slots))
      && o.state.tasks.dragging == Some((loc, bounds))
      && AllTodoIds(o.state.slots) == AllTodoIds(st.slots)
      && (st.tasks.dragging.None? ==> FlagAt(o.state.slots, loc))
  {
    var o := DragTaskStep(st, loc, bounds);
    var s := o.state.slots;
    if s != st.slots {
      FlagKeepsOptions(st.slots, loc, x);
    }
    assert x in TodoOptions(s, loc) <==> (x != IdAt(s, loc) && HasTodo(s, x)) || x in ListIds(s) by {
      TodoOptionsMembers(s, loc, x);
    }
  }

  /** Highlighting an item changes neither the item ids nor the list ids nor its own id. */
  lemma {:induction false} FlagKeepsOptions(slots: seq<Slot>, loc: TreeLocation, x: Id)
    requires Resolves(slots, loc)
    ensures var s := WithFlag(slots, loc, true);
      && AllTodoIds(s) == AllTodoIds(slots)
      && (HasTodo(s, x) <==> HasTodo(slots, x))
      && ListIds(s) == ListIds(slots)
      && Resolves(s, loc) && IdAt(s, loc) == IdAt(slots, loc) && FlagAt(s, loc)
  {
    var s := WithFlag(slots, loc, true);
    FlagSet(slots, loc, true, loc);
    InAllTodoIds(s, x);
    InAllTodoIds(slots, x);
  }

  /**
   * The discovery a `FindZones` command asks for: zones whose bounds intersect
   * the dragged bounds and whose id is on the allow-list.
   */
  function RequestQuery(c: Command): Drop.Query
    requires c.FindZones?
  {
    Drop.Query((r: Rect) => r.Intersects(c.dragged), Some(c.options), c.depth)
  }

  /** Every zone the discovery reports for a request is on its allow-list and meets the dragged bounds. */
  lemma {:induction false} RequestedZonesQualify<S>(c: Command, w: Widget<S>)
    requires c.FindZones?
    ensures var zs := Drop.Walk(RequestQuery(c), Drop.Initial, w).zones;
      forall k | 0 <= k < |zs| :: zs[k].0 in c.options && zs[k].1.Intersects(c.dragged)
  {
    DropFacts.WalkConsistent(RequestQuery(c), Drop.Initial, w);
  }

  /** The hovered zone, if any, is highlighted. */
  predicate HoverHighlighted(slots: seq<Slot>, info: Highlight)
  {
    info.hovered.Some? ==> Resolves(slots, info.hovered.value) && FlagAt(slots, info.hovered.value)
  }

  /**
   * `HandleTaskZones` keeps the hovered zone highlighted and the items as
   * they are, and hovers one of the reported zones, or none when none was reported.
   */
  lemma {:induction false} HandleTaskZonesKeepsHover(st: BoardState, zones: seq<(Id, Rect)>)
    requires HoverResolves(st.slots, st.tasks) && HoverHighlighted(st.slots, st.tasks)
    ensures var r := HandleTaskZonesStep(st, zones);
      && HoverHighlighted(r.slots, r.tasks)
      && AllTodoIds(r.slots) == AllTodoIds(st.slots)
      && r.tasks.dragging == st.tasks.dragging
      && (zones == [] ==> r.tasks.hovered.None?)
      && (r.tasks.hovered.Some? && r.tasks.hovered != st.tasks.hovered ==>
            exists k | 0 <= k < |zones| :: FindIn(st.slots, zones[k].0) == r.tasks.hovered)
  {
    var found := MapZones(st.slots, zones);
    var h := ZonesFoundSpec(st.tasks, found);
    ZonesFoundResolves(st.slots, st.tasks, found);
    ZoneUpdatedKeepsIds(ZoneUpdateOf(st.tasks, h), st.slots, st.tasks, h);
    ZonesFoundChoice(st.tasks, found);
    if h.hovered.Some? {
      ZoneUpdateFollowsHover(st.slots, st.tasks, h, h.hovered.value);
    }
    if h.hovered.Some? && h.hovered != st.tasks.hovered {
      var z: (TreeLocation, Rect) :| z in found && z.0 == h.hovered.value;
      MapZonesMembers(st.slots, zones, z);
    }
    if zones == [] {
      assert found == [];
    }
  }

  /**
   * On a board that keeps its invariant, `map_zones` pairs a location with
   * bounds exactly when some reported zone carries that location's id and
   * those bounds.
   */
  lemma {:induction false} MapZonesLocatesIds(st: BoardState, zones: seq<(Id, Rect)>, loc: TreeLocation, bounds: Rect)
    requires Invariant(st) && Resolves(st.slots, loc)
    ensures (loc, bounds) in MapZones(st.slots, zones) <==> (IdAt(st.slots, loc), bounds) in zones
  {
    MapZonesMembers(st.slots, zones, (loc, bounds));
    DistinctIdsUnique(st.slots);
    FindIsInverse(st.slots, loc);
    if (IdAt(st.slots, loc), bounds) in zones {
      var k :| 0 <= k < |zones| && zones[k] == (IdAt(st.slots, loc), bounds);
    }
  }

  /**
   * Dropping an item never loses or duplicates an item unless it is dropped
   * outside every zone, where exactly that item is deleted; the ids stay
   * below the counter and the drag ends.
   */
  lemma {:induction false} DropTaskKeepsItems(st: BoardState, loc: TreeLocation)
    requires CanDropTask(st.slots, loc, st.tasks.hovered) && Invariant(st)
    ensures var r := DropTaskStep(st, loc);
      && Invariant(r)
      && r.tasks == Dropped()
      && (st.tasks.hovered.Some? ==> multiset(AllTodoIds(r.slots)) == multiset(AllTodoIds(st.slots)))
      && (st.tasks.hovered.None? && loc.element.TodoElem? ==>
            multiset(AllTodoIds(r.slots)) + multiset{IdAt(st.slots, loc)} == multiset(AllTodoIds(st.slots)))
  {
    var r := DropTaskStep(st, loc);
    DropTaskConserves(st.slots, loc, st.tasks.hovered);
    if st.tasks.hovered.None? && loc.element.TodoElem? {
      assert multiset(AllTodoIds(r.slots)) <= multiset(AllTodoIds(st.slots));
    } else if st.tasks.hovered.None? {
      DroppedNowhereDeletes(st.slots, loc);
    }
    DropTaskKeepsInvariant(st, loc);
  }

  /** `TaskDropCanceled` ends the drag with the dragged item and the hovered zone unhighlighted. */
  lemma {:induction false} TaskDropCanceledClears(st: BoardState)
    requires CanCancelTaskDrop(st)
    ensures var r := TaskDropCanceledStep(st);
      && r.tasks == Dropped()
      && AllTodoIds(r.slots) == AllTodoIds(st.slots)
      && (st.tasks.dragging.Some? && st.tasks.dragging.value.0.element.TodoElem? ==>
            var d := st.tasks.dragging.value.0;
            && Resolves(r.slots, d) && !FlagAt(r.slots, d)
            && (st.tasks.hovered.Some? ==> Resolves(r.slots, st.tasks.hovered.value) && !FlagAt(r.slots, st.tasks.hovered.value)))
  {
    if st.tasks.dragging.Some? && st.tasks.dragging.value.0.element.TodoElem? {
      var d := st.tasks.dragging.value.0;
      var s1 := WithFlag(st.slots, d, false);
      FlagSet(st.slots, d, false, d);
      if st.tasks.hovered.Some? {
        var hv := st.tasks.hovered.value;
        FlagSet(st.slots, d, false, hv);
        FlagSet(s1, hv, false, d);
        FlagSet(s1, hv, false, hv);
      }
    }
  }

  // ---------------------------------------------------------------------
  // Dragging a list

  /** `DragList` asks for the slots meeting the dragged bounds and clears the list's highlight when its drag starts. */
  lemma {:induction false} DragListRequest(st: BoardState, loc: TreeLocation, bounds: Rect)
    requires loc.slot < |st.slots|
    ensures var o := DragListStep(st, loc, bounds);
      && o.cmd == FindZones(ListZones, bounds, ListOptions(st.slots), None)
      && o.state.lists.dragging == Some((loc, bounds))
      && AllTodoIds(o.state.slots) == AllTodoIds(st.slots)
      && (st.lists.dragging.None? ==> !FlagAt(o.state.slots, TreeLocation(loc.slot, ListElem)))
  {
    var o := DragListStep(st, loc, bounds);
    var ll := TreeLocation(loc.slot, ListElem);
    if o.state.slots != st.slots {
      FlagSet(st.slots, ll, false, ll);
      forall i | 0 <= i < |st.slots| ensures o.state.slots[i].id == st.slots[i].id {
        FlagSet(st.slots, ll, false, TreeLocation(i, SlotElem));
      }
    }
  }

  /**
   * When `HandleListZones` moves the hover to another slot during a drag, the
   * dragged list and the hovered slot's list trade places, the command names
   * them so their droppable states follow, and no item is lost or duplicated.
   */
  lemma {:induction false} HandleListZonesExchanges(st: BoardState, zones: seq<(Id, Rect)>)
    requires CanHandleListZones(st, zones) && Invariant(st)
    ensures var o := HandleListZonesStep(st, zones);
      var h := ListZonesFound(st, zones);
      && |o.state.slots| == |st.slots|
      && HoverResolves(st.slots, h)
      && o.state.lists == h
      && Invariant(o.state)
      && multiset(AllTodoIds(o.state.slots)) == multiset(AllTodoIds(st.slots))
      && (o.cmd.SwapStates? <==> ZoneUpdateOf(st.lists, h) == Replace && h.dragging.Some?)
      && (o.cmd.SwapStates? ==>
            var d := h.dragging.value.0;
            var hv := h.hovered.value;
            d.slot < |st.slots| && hv.slot < |st.slots| &&
            (d.slot != hv.slot ==>
              o.state.slots[hv.slot].list.id == o.cmd.l1 && o.state.slots[d.slot].list.id == o.cmd.l2))
      && (o.cmd.NoCommand? ==> o.state.slots == ZoneUpdated(ZoneUpdateOf(st.lists, h), st.slots, st.lists, h))
  {
    var h := ListZonesFound(st, zones);
    ZonesFoundResolves(st.slots, st.lists, MapZones(st.slots, zones));
    var u := ZoneUpdateOf(st.lists, h);
    var s1 := ZoneUpdated(u, st.slots, st.lists, h);
    ZoneUpdatedKeepsIds(u, st.slots, st.lists, h);
    var o := HandleListZonesStep(st, zones);
    if u == Replace && h.dragging.Some? && h.hovered.Some? {
      var d := h.dragging.value.0;
      var hv := h.hovered.value;
      assert o.state.slots == ListsExchanged(s1, d, hv);
      ExchangeFacts(s1, d, hv);
    } else {
      assert o.state.slots == s1;
    }
    HandleListZonesKeepsInvariant(st, zones);
  }

  /** Exchanging two slots' lists keeps the item ids and puts each list in the other slot. */
  lemma {:induction false} ExchangeFacts(slots: seq<Slot>, d: TreeLocation, hv: TreeLocation)
    requires d.slot < |slots| && hv.slot < |slots|
    ensures multiset(AllTodoIds(ListsExchanged(slots, d, hv))) == multiset(AllTodoIds(slots))
    ensures d.slot != hv.slot ==>
              && ListsExchanged(slots, d, hv)[hv.slot].list.id == slots[d.slot].list.id
              && ListsExchanged(slots, d, hv)[d.slot].list.id == slots[hv.slot].list.id
  {
    if d.slot != hv.slot {
      SwapKeepsIds(slots, d.slot, hv.slot);
    }
  }

  /** `ListDropCanceled` ends the list drag with the dragged list and its slot unhighlighted. */
  lemma {:induction false} ListDropCanceledClears(st: BoardState)
    requires CanCancelListDrop(st)
    ensures var r := ListDropCanceledStep(st);
      && r.lists == Dropped()
      && AllTodoIds(r.slots) == AllTodoIds(st.slots)
      && (st.lists.dragging.Some? ==>
            var i := st.lists.dragging.value.0.slot;
            !FlagAt(r.slots, TreeLocation(i, ListElem)) && !FlagAt(r.slots, TreeLocation(i, SlotElem)))
  {
    if st.lists.dragging.Some? {
      var i := st.lists.dragging.value.0.slot;
      var a := TreeLocation(i, ListElem);
      var b := TreeLocation(i, SlotElem);
      TwoFlagsCleared(st.slots, a, b, a);
      TwoFlagsCleared(st.slots, a, b, b);
    }
  }

  /**
   * `DropList` as written leaves the list highlight state in place: the
   * dropped-on slot stays recorded as hovered although its highlight was just
   * cleared, and a following zone report naming the same slot leaves it
   * unhighlighted while hovered.
   */
  lemma {:induction false} DropListLeavesStaleHover(st: BoardState, loc: TreeLocation, zones: seq<(Id, Rect)>)
    requires CanDropList(st, loc)
    requires st.lists.hovered.Some? && st.lists.hovered.value.element.SlotElem?
    ensures var r := DropListStep(st, loc);
      && r.lists == st.lists
      && !HoverHighlighted(r.slots, r.lists)
      && (ListZonesFound(r, zones).hovered == st.lists.hovered ==>
            CanHandleListZones(r, zones) &&
            !HoverHighlighted(HandleListZonesStep(r, zones).state.slots, HandleListZonesStep(r, zones).state.lists))
  {
    var hv := st.lists.hovered.value;
    var s1 := WithFlag(st.slots, TreeLocation(loc.slot, ListElem), false);
    FlagSet(st.slots, TreeLocation(loc.slot, ListElem), false, hv);
    FlagSet(s1, hv, false, hv);
  }

  /**
   * `DropList` resetting the list highlight state instead: nothing is left
   * hovered, and the next zone report highlights whatever slot it hovers
   * without exchanging any list.
   */
  lemma {:induction false} DropListIntendedResets(st: BoardState, loc: TreeLocation, zones: seq<(Id, Rect)>)
    requires CanDropList(st, loc)
    ensures var r := DropListIntended(st, loc);
      && r.lists == Dropped()
      && HoverHighlighted(r.slots, r.lists)
      && CanHandleListZones(r, zones)
      && var o := HandleListZonesStep(r, zones);
         o.cmd == NoCommand && HoverHighlighted(o.state.slots, o.state.lists)
  {
    var r := DropListIntended(st, loc);
    var h := ListZonesFound(r, zones);
    ZonesFoundResolves(r.slots, r.lists, MapZones(r.slots, zones));
    if h.hovered.Some? {
      FlagSet(r.slots, h.hovered.value, true, h.hovered.value);
    }
  }

  // ---------------------------------------------------------------------
  // Writing an item

  /**
   * `WriteTask` with an empty adder changes nothing; otherwise it appends one
   * item with the adder's text and a fresh id, clears the adder, advances
   * the counter and keeps every other item.
   */
  lemma {:induction false} WriteTaskAddsOne(st: BoardState, loc: TreeLocation)
    requires loc.slot < |st.slots| && Invariant(st)
    ensures var o := WriteTaskStep(st, loc);
      var l := st.slots[loc.slot].list;
      && Invariant(o.state)
      && (l.adder.text == "" ==> o == Outcome(st, NoCommand))
      && (l.adder.text != "" ==>
            && o.cmd == Focus(l.adder.inputId)
            && o.state.nextTodo == st.nextTodo + 1
            && TodoId(st.nextTodo) !in AllTodoIds(st.slots)
            && multiset(AllTodoIds(o.state.slots)) == multiset(AllTodoIds(st.slots)) + multiset{TodoId(st.nextTodo)}
            && o.state.slots[loc.slot].list.todos == l.todos + [NewTodo(l.adder.text, st.nextTodo)]
            && o.state.slots[loc.slot].list.adder.text == "")
  {
    var l := st.slots[loc.slot].list;
    if l.adder.text == "" {
      assert l.(adder := l.adder.(text := "")) == l;
      assert SetList(st.slots, loc.slot, l) == st.slots;
    } else {
      WrittenAddsFresh(st.slots, loc.slot, st.nextTodo);
    }
    WriteTaskKeepsInvariant(st, loc);
  }
}

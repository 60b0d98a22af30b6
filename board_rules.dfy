/**
 * The pure rules behind the to-do board's drag-and-drop handlers
 * (examples/todo/src/main.rs): how discovered zones are mapped back to tree
 * locations, and what dropping an item does to the slots. The board's
 * methods store these values into the tree.
 */
module BoardRules {
  import opened Wrappers
  import opened Geometry
  import opened Widget
  import opened Seqs
  import opened Tree

  // ---------------------------------------------------------------------
  // map_zones

  /** `map_zones`: each zone whose id `find` resolves, with the id replaced by its location, in order. */
  function MapZones(slots: seq<Slot>, zones: seq<(Id, Rect)>): (r: seq<(TreeLocation, Rect)>)
    ensures |r| <= |zones|
    ensures forall k | 0 <= k < |r| :: Resolves(slots, r[k].0)
  {
    if zones == [] then []
    else
      var head := match FindIn(slots, zones[0].0)
        case Some(loc) => [(loc, zones[0].1)]
        case None => [];
      head + MapZones(slots, zones[1..])
  }

  /** Mapping distributes over concatenation, so the zones keep their order. */
  lemma {:induction false} MapZonesAppend(slots: seq<Slot>, a: seq<(Id, Rect)>, b: seq<(Id, Rect)>)
    ensures MapZones(slots, a + b) == MapZones(slots, a) + MapZones(slots, b)
  {
    if a == [] {
      assert a + b == b;
    } else {
      assert (a + b)[0] == a[0];
      assert (a + b)[1..] == a[1..] + b;
      MapZonesAppend(slots, a[1..], b);
    }
  }

  /** A mapped zone comes from a discovered zone with the same bounds whose id is found at that location. */
  lemma {:induction false} MapZonesMembers(slots: seq<Slot>, zones: seq<(Id, Rect)>, z: (TreeLocation, Rect))
    ensures z in MapZones(slots, zones) <==> exists k | 0 <= k < |zones| :: FindIn(slots, zones[k].0) == Some(z.0) && zones[k].1 == z.1
  {
    if zones != [] {
      MapZonesMembers(slots, zones[1..], z);
      if exists k | 0 <= k < |zones| :: FindIn(slots, zones[k].0) == Some(z.0) && zones[k].1 == z.1 {
        var k :| 0 <= k < |zones| && FindIn(slots, zones[k].0) == Some(z.0) && zones[k].1 == z.1;
        if k > 0 {
          assert zones[1..][k - 1] == zones[k];
        }
      }
      if exists k | 0 <= k < |zones[1..]| :: FindIn(slots, zones[1..][k].0) == Some(z.0) && zones[1..][k].1 == z.1 {
        var k :| 0 <= k < |zones[1..]| && FindIn(slots, zones[1..][k].0) == Some(z.0) && zones[1..][k].1 == z.1;
        assert zones[k + 1] == zones[1..][k];
      }
    }
  }

  /** Every zone is kept exactly when every discovered id is found in the tree. */
  lemma {:induction false} MapZonesKeepsAll(slots: seq<Slot>, zones: seq<(Id, Rect)>)
    ensures |MapZones(slots, zones)| == |zones| <==> forall k | 0 <= k < |zones| :: FindIn(slots, zones[k].0).Some?
  {
    if zones != [] {
      MapZonesKeepsAll(slots, zones[1..]);
      if forall k | 0 <= k < |zones[1..]| :: FindIn(slots, zones[1..][k].0).Some? {
        if FindIn(slots, zones[0].0).Some? {
          forall k | 0 <= k < |zones| ensures FindIn(slots, zones[k].0).Some? {
            if k > 0 {
              assert zones[k] == zones[1..][k - 1];
            }
          }
        }
      } else {
        var k :| 0 <= k < |zones[1..]| && FindIn(slots, zones[1..][k].0).None?;
        assert zones[k + 1] == zones[1..][k];
      }
    }
  }

  // ---------------------------------------------------------------------
  // Item ids under the list operations

  lemma {:induction false} TodoIdsRemove(ts: seq<Todo>, i: nat)
    requires i < |ts|
    ensures multiset(TodoIds(RemoveAt(ts, i))) + multiset{ts[i].id} == multiset(TodoIds(ts))
  {
    assert TodoIds(RemoveAt(ts, i)) == RemoveAt(TodoIds(ts), i);
    RemoveAtMultiset(TodoIds(ts), i);
  }

  lemma {:induction false} TodoIdsInsert(ts: seq<Todo>, t: Todo, i: nat)
    requires i <= |ts|
    ensures multiset(TodoIds(InsertAt(ts, t, i))) == multiset(TodoIds(ts)) + multiset{t.id}
  {
    assert TodoIds(InsertAt(ts, t, i)) == InsertAt(TodoIds(ts), t.id, i);
    InsertAtMultiset(TodoIds(ts), t.id, i);
  }

  lemma {:induction false} TodoIdsPush(ts: seq<Todo>, t: Todo)
    ensures multiset(TodoIds(ts + [t])) == multiset(TodoIds(ts)) + multiset{t.id}
  {
    assert TodoIds(ts + [t]) == TodoIds(ts) + [t.id];
  }

  /** Taking the item at `d` out of its list and giving it to slot `h` keeps every id. */
  lemma {:induction false} TransferKeepsIds(slots: seq<Slot>, d: TreeLocation, h: nat, into: List)
    requires Resolves(slots, d) && d.element.TodoElem? && h < |slots| && h != d.slot
    requires multiset(TodoIds(into.todos)) ==
             multiset(TodoIds(slots[h].list.todos)) + multiset{IdAt(slots, d)}
    ensures var s := SetList(slots, d.slot, slots[d.slot].list.Remove(d).1);
            multiset(AllTodoIds(SetList(s, h, into))) == multiset(AllTodoIds(slots))
  {
    var x := IdAt(slots, d);
    var before := slots[d.slot].list;
    var after := before.Remove(d).1;
    var s := SetList(slots, d.slot, after);
    SetListIds(slots, d.slot, after);
    TodoIdsRemove(before.todos, d.element.index);
    Replace(multiset(AllTodoIds(slots)), multiset(AllTodoIds(s)),
            multiset(TodoIds(after.todos)), multiset(TodoIds(before.todos)), multiset{x});
    assert s[h] == slots[h];
    SetListIds(s, h, into);
    Replace(multiset(AllTodoIds(SetList(s, h, into))), multiset(AllTodoIds(s)),
            multiset(TodoIds(s[h].list.todos)), multiset(TodoIds(into.todos)), multiset{x});
  }

  // ---------------------------------------------------------------------
  // task_dropped_on_list

  /** `task_dropped_on_list` panics unless the dragged item exists and, for an item, the target slot does. */
  predicate CanDropOnList(slots: seq<Slot>, d: TreeLocation, h: TreeLocation)
  {
    TodoIndexable(slots, d) && (d.element.TodoElem? ==> h.slot < |slots|)
  }

  /** The slots after `task_dropped_on_list(d, h)`. */
  function DroppedOnList(slots: seq<Slot>, d: TreeLocation, h: TreeLocation): (r: seq<Slot>)
    requires CanDropOnList(slots, d, h)
    ensures |r| == |slots| && SameContainers(slots, r)
  {
    if !d.element.TodoElem? then slots
    else
      var s1 := WithFlag(slots, d, false);
      var s2 := WithFlag(s1, TreeLocation(h.slot, ListElem), false);
      if d.slot == h.slot then s2
      else
        var s3 := SetList(s2, d.slot, s2[d.slot].list.Remove(d).1);
        SetList(s3, h.slot, s3[h.slot].list.Push(s2[d.slot].list.todos[d.element.index]))
  }

  /** Clearing two flags keeps the ids at every location and the item ids of the tree. */
  lemma {:induction false} TwoFlagsCleared(slots: seq<Slot>, a: TreeLocation, b: TreeLocation, loc: TreeLocation)
    requires Resolves(slots, a) && Resolves(slots, b) && Resolves(slots, loc)
    ensures var r := WithFlag(WithFlag(slots, a, false), b, false);
            && AllTodoIds(r) == AllTodoIds(slots)
            && Resolves(r, loc) && IdAt(r, loc) == IdAt(slots, loc)
            && (loc == a || loc == b ==> !FlagAt(r, loc))
  {
    var s1 := WithFlag(slots, a, false);
    FlagSet(slots, a, false, loc);
    FlagSet(slots, a, false, b);
    FlagSet(s1, b, false, loc);
  }

  /** Dropping an item on a list loses no item and duplicates none. */
  lemma {:induction false} DroppedOnListKeepsIds(slots: seq<Slot>, d: TreeLocation, h: TreeLocation)
    requires CanDropOnList(slots, d, h)
    ensures multiset(AllTodoIds(DroppedOnList(slots, d, h))) == multiset(AllTodoIds(slots))
  {
    if d.element.TodoElem? {
      var hl := TreeLocation(h.slot, ListElem);
      var s2 := WithFlag(WithFlag(slots, d, false), hl, false);
      TwoFlagsCleared(slots, d, hl, d);
      if d.slot != h.slot {
        var t := s2[d.slot].list.todos[d.element.index];
        var s3 := SetList(s2, d.slot, s2[d.slot].list.Remove(d).1);
        assert s3[h.slot] == s2[h.slot];
        TodoIdsPush(s3[h.slot].list.todos, t);
        TransferKeepsIds(s2, d, h.slot, s3[h.slot].list.Push(t));
      }
    }
  }

  /**
   * Across slots, the dragged item, with its highlight cleared, is appended
   * to the target list and taken out of its own, the target list's flag is
   * cleared, and no other slot changes.
   */
  lemma {:induction false} DroppedOnListAcross(slots: seq<Slot>, d: TreeLocation, h: TreeLocation)
    requires CanDropOnList(slots, d, h) && d.element.TodoElem? && d.slot != h.slot
    ensures var r := DroppedOnList(slots, d, h);
            var t := slots[d.slot].list.todos[d.element.index];
            && r[h.slot].list.todos == slots[h.slot].list.todos + [t.(highlight := false)]
            && r[d.slot].list.todos == RemoveAt(slots[d.slot].list.todos, d.element.index)
            && !r[h.slot].list.highlight
            && forall k | 0 <= k < |slots| && k != d.slot && k != h.slot :: r[k] == slots[k]
  {
    var i := d.element.index;
    var s2 := WithFlag(WithFlag(slots, d, false), TreeLocation(h.slot, ListElem), false);
    assert RemoveAt(s2[d.slot].list.todos, i) == RemoveAt(slots[d.slot].list.todos, i);
  }

  // ---------------------------------------------------------------------
  // task_dropped_on_task

  /**
   * `task_dropped_on_task` panics unless both items exist and, when a
   * non-item is dropped on an item of another slot, unless there is an item
   * to unwrap.
   */
  predicate CanDropOnTask(slots: seq<Slot>, d: TreeLocation, h: TreeLocation)
  {
    && TodoIndexable(slots, d) && d.slot < |slots|
    && Resolves(slots, h)
    && (d.slot != h.slot && h.element.TodoElem? ==> d.element.TodoElem?)
  }

  /** The slots after `task_dropped_on_task(d, h)`. */
  function DroppedOnTask(slots: seq<Slot>, d: TreeLocation, h: TreeLocation): (r: seq<Slot>)
    requires CanDropOnTask(slots, d, h)
    ensures |r| == |slots| && SameContainers(slots, r)
  {
    var s1 := if d.element.TodoElem? then WithFlag(slots, d, false) else slots;
    if d.element.TodoElem? && !h.element.TodoElem? then s1
    else
      var s2 := if d.element.TodoElem? then WithFlag(s1, h, false) else s1;
      if d.slot != h.slot then
        if h.element.TodoElem? then
          var t := s2[d.slot].list.todos[d.element.index];
          var s3 := SetList(s2, d.slot, s2[d.slot].list.Remove(d).1);
          SetList(s3, h.slot, s3[h.slot].list.Insert(t, h.element.index))
        else s2
      else SetList(s2, d.slot, s2[d.slot].list.MoveTodo(d, h))
  }

  /** Dropping an item on an item loses no item and duplicates none. */
  lemma {:induction false} DroppedOnTaskKeepsIds(slots: seq<Slot>, d: TreeLocation, h: TreeLocation)
    requires CanDropOnTask(slots, d, h)
    ensures multiset(AllTodoIds(DroppedOnTask(slots, d, h))) == multiset(AllTodoIds(slots))
  {
    if !d.element.TodoElem? {
      assert slots[d.slot].list.MoveTodo(d, h) == slots[d.slot].list;
      assert SetList(slots, d.slot, slots[d.slot].list) == slots;
    } else if !h.element.TodoElem? {
      FlagSet(slots, d, false, d);
    } else {
      var s2 := WithFlag(WithFlag(slots, d, false), h, false);
      TwoFlagsCleared(slots, d, h, d);
      var i, j := d.element.index, h.element.index;
      if d.slot != h.slot {
        var t := s2[d.slot].list.todos[i];
        var s3 := SetList(s2, d.slot, s2[d.slot].list.Remove(d).1);
        assert s3[h.slot] == s2[h.slot];
        TodoIdsInsert(s3[h.slot].list.todos, t, j);
        TransferKeepsIds(s2, d, h.slot, s3[h.slot].list.Insert(t, j));
      } else {
        var before := s2[d.slot].list;
        var after := before.MoveTodo(d, h);
        MovedIds(before.todos, i, j);
        SetListIds(s2, d.slot, after);
        Cancel(multiset(AllTodoIds(SetList(s2, d.slot, after))), multiset(AllTodoIds(s2)),
               multiset(TodoIds(before.todos)));
      }
    }
  }

  /**
   * Across slots, the dragged item, with its highlight cleared, is inserted
   * at the hovered index, whose item (its highlight cleared too) moves one
   * down; the dragged item leaves its own list; nothing else of either slot
   * changes and no other slot changes.
   */
  lemma {:induction false} DroppedOnTaskAcross(slots: seq<Slot>, d: TreeLocation, h: TreeLocation)
    requires CanDropOnTask(slots, d, h)
    requires d.element.TodoElem? && h.element.TodoElem? && d.slot != h.slot
    ensures var r := DroppedOnTask(slots, d, h);
            var i, j := d.element.index, h.element.index;
            var t := slots[d.slot].list.todos[i];
            var hs := slots[h.slot].list.todos;
            && r[h.slot].list.todos == InsertAt(hs[j := hs[j].(highlight := false)], t.(highlight := false), j)
            && r[d.slot].list.todos == RemoveAt(slots[d.slot].list.todos, i)
            && r[h.slot].(list := r[h.slot].list.(todos := hs)) == slots[h.slot]
            && r[d.slot].(list := r[d.slot].list.(todos := slots[d.slot].list.todos)) == slots[d.slot]
            && forall k | 0 <= k < |slots| && k != d.slot && k != h.slot :: r[k] == slots[k]
  {
    var i, j := d.element.index, h.element.index;
    var s2 := WithFlag(WithFlag(slots, d, false), h, false);
    assert RemoveAt(s2[d.slot].list.todos, i) == RemoveAt(slots[d.slot].list.todos, i);
  }

  /**
   * Inside one slot, the list with both items' highlights cleared is
   * rearranged by `move_todo`'s rule; nothing else of the slot changes and no
   * other slot changes.
   */
  lemma {:induction false} DroppedOnTaskWithin(slots: seq<Slot>, d: TreeLocation, h: TreeLocation)
    requires CanDropOnTask(slots, d, h)
    requires d.element.TodoElem? && h.element.TodoElem? && d.slot == h.slot
    ensures var r := DroppedOnTask(slots, d, h);
            var i, j := d.element.index, h.element.index;
            var ts := slots[d.slot].list.todos;
            var cleared := ts[i := ts[i].(highlight := false)][j := ts[j].(highlight := false)];
            && CanMove(|cleared|, i, j)
            && r[d.slot].list.todos == Moved(cleared, i, j)
            && r[d.slot].(list := r[d.slot].list.(todos := ts)) == slots[d.slot]
            && forall k | 0 <= k < |slots| && k != d.slot :: r[k] == slots[k]
  {
  }

  /** Moving an item inside its list keeps the list's ids. */
  lemma {:induction false} MovedIds(ts: seq<Todo>, i: nat, j: nat)
    requires CanMove(|ts|, i, j)
    ensures multiset(TodoIds(Moved(ts, i, j))) == multiset(TodoIds(ts))
  {
    var rest := RemoveAt(ts, i);
    TodoIdsRemove(ts, i);
    TodoIdsInsert(rest, ts[i], InsertIndex(i, j));
  }

  // ---------------------------------------------------------------------
  // DropTask

  /** With no hovered zone the dragged item is removed from its list. */
  function DroppedNowhere(slots: seq<Slot>, d: TreeLocation): (r: seq<Slot>)
    requires d.slot < |slots| && TodoIndexable(slots, d)
    ensures |r| == |slots| && SameContainers(slots, r)
  {
    SetList(slots, d.slot, slots[d.slot].list.Remove(d).1)
  }

  /** Dropping an item outside every zone deletes exactly that item. */
  lemma {:induction false} DroppedNowhereDeletes(slots: seq<Slot>, d: TreeLocation)
    requires d.slot < |slots| && TodoIndexable(slots, d)
    ensures d.element.TodoElem? ==>
              multiset(AllTodoIds(DroppedNowhere(slots, d))) + multiset{IdAt(slots, d)} == multiset(AllTodoIds(slots))
    ensures !d.element.TodoElem? ==> DroppedNowhere(slots, d) == slots
  {
    if d.element.TodoElem? {
      var before := slots[d.slot].list;
      var after := before.Remove(d).1;
      SetListIds(slots, d.slot, after);
      TodoIdsRemove(before.todos, d.element.index);
      Replace(multiset(AllTodoIds(slots)), multiset(AllTodoIds(DroppedNowhere(slots, d))),
              multiset(TodoIds(after.todos)), multiset(TodoIds(before.todos)), multiset{IdAt(slots, d)});
    } else {
      assert slots[d.slot].list.Remove(d).1 == slots[d.slot].list;
    }
  }

  /** `DropTask` panics unless the dragged item exists and the hovered element's handler can run. */
  predicate CanDropTask(slots: seq<Slot>, d: TreeLocation, hovered: Option<TreeLocation>)
  {
    && d.slot < |slots| && TodoIndexable(slots, d)
    && match hovered
       case None => true
       case Some(h) =>
         match h.element
         case ListElem => CanDropOnList(slots, d, h)
         case TodoElem(_) => CanDropOnTask(slots, d, h)
         case SlotElem => true
  }

  /** The slots after `DropTask` with the given hovered zone. */
  function DropTaskSpec(slots: seq<Slot>, d: TreeLocation, hovered: Option<TreeLocation>): (r: seq<Slot>)
    requires CanDropTask(slots, d, hovered)
    ensures |r| == |slots| && SameContainers(slots, r)
  {
    match hovered
    case None => DroppedNowhere(slots, d)
    case Some(h) =>
      match h.element
      case ListElem => DroppedOnList(slots, d, h)
      case TodoElem(_) => DroppedOnTask(slots, d, h)
      case SlotElem => slots
  }

  /**
   * A drop on a list, an item or a slot keeps every item id; a drop outside
   * every zone removes exactly the dragged item's id.
   */
  lemma {:induction false} DropTaskConserves(slots: seq<Slot>, d: TreeLocation, hovered: Option<TreeLocation>)
    requires CanDropTask(slots, d, hovered)
    ensures hovered.Some? ==> multiset(AllTodoIds(DropTaskSpec(slots, d, hovered))) == multiset(AllTodoIds(slots))
    ensures hovered.None? && d.element.TodoElem? ==>
              multiset(AllTodoIds(DropTaskSpec(slots, d, hovered))) + multiset{IdAt(slots, d)} == multiset(AllTodoIds(slots))
    ensures hovered.None? && !d.element.TodoElem? ==> DropTaskSpec(slots, d, hovered) == slots
  {
    match hovered
    case None => DroppedNowhereDeletes(slots, d);
    case Some(h) =>
      match h.element
      case ListElem => DroppedOnListKeepsIds(slots, d, h);
      case TodoElem(_) => DroppedOnTaskKeepsIds(slots, d, h);
      case SlotElem =>
  }

  // ---------------------------------------------------------------------
  // WriteTask

  /** Every item id is an item id below the counter `next`, so `Todo::new` hands out a fresh one. */
  ghost predicate IdsBelow(slots: seq<Slot>, next: nat)
  {
    forall x | x in AllTodoIds(slots) :: x.TodoId? && x.n < next
  }

  /** Fewer item ids keep the ids below the counter. */
  lemma {:induction false} IdsBelowShrinks(a: seq<Slot>, b: seq<Slot>, n: nat)
    requires multiset(AllTodoIds(a)) <= multiset(AllTodoIds(b)) && IdsBelow(b, n)
    ensures IdsBelow(a, n)
  {
    forall x | x in AllTodoIds(a) ensures x.TodoId? && x.n < n {
      assert x in multiset(AllTodoIds(a));
    }
  }

  /** The slots after `WriteTask` on a non-empty adder text: the adder is cleared and the new item appended. */
  function Written(slots: seq<Slot>, l: nat, n: nat): (r: seq<Slot>)
    requires l < |slots|
    ensures |r| == |slots| && SameContainers(slots, r)
  {
    var list := slots[l].list;
    SetList(slots, l, list.(adder := list.adder.(text := "")).Push(NewTodo(list.adder.text, n)))
  }

  /**
   * Writing an item adds exactly one id, the counter's, which no item had;
   * the ids stay below the advanced counter and the new item ends the list
   * with the adder's text.
   */
  lemma {:induction false} WrittenAddsFresh(slots: seq<Slot>, l: nat, n: nat)
    requires l < |slots| && IdsBelow(slots, n)
    ensures var r := Written(slots, l, n);
      && TodoId(n) !in AllTodoIds(slots)
      && multiset(AllTodoIds(r)) == multiset(AllTodoIds(slots)) + multiset{TodoId(n)}
      && IdsBelow(r, n + 1)
      && r[l].list.todos == slots[l].list.todos + [NewTodo(slots[l].list.adder.text, n)]
      && r[l].list.adder.text == ""
  {
    var list := slots[l].list;
    var t := NewTodo(list.adder.text, n);
    var r := Written(slots, l, n);
    var after := list.(adder := list.adder.(text := "")).Push(t);
    SetListIds(slots, l, after);
    TodoIdsPush(list.todos, t);
    Replace(multiset(AllTodoIds(r)), multiset(AllTodoIds(slots)),
            multiset(TodoIds(list.todos)), multiset(TodoIds(after.todos)), multiset{TodoId(n)});
    forall x | x in AllTodoIds(r) ensures x.TodoId? && x.n < n + 1 {
      assert x in multiset(AllTodoIds(r));
    }
  }
}

/**
 * The to-do board application (examples/todo/src/main.rs): its state, the
 * drag-and-drop and editing arms of `update`, and the free functions they
 * call (`task_dropped_on_list`, `task_dropped_on_task`, `move_list_to_zone`).
 *
 * `BoardState` is a snapshot of the board's fields; every arm of `update`
 * has a function `…Step` giving the next snapshot and the command returned,
 * and a method of `TodoBoard` that performs the arm on the tree and is
 * proved to reach exactly that snapshot. The properties of the arms are
 * lemmas about the `…Step` functions (module BoardFacts).
 */
module Board {
  import opened Wrappers
  import opened Seqs
  import opened Geometry
  import opened Widget
  import opened Tree
  import opened Highlights
  import opened BoardRules

  /** `DOUBLE_CLICK_TIME`, in milliseconds. */
  const DoubleClickTime: nat := 500

  /** Which message the zones found by a `find_zones` command come back as. */
  datatype ZoneReply = TaskZones | ListZones

  /**
   * The commands the arms return: none, focusing a text input, a zone
   * discovery (`find_zones(reply, |zone| zone.intersects(dragged), Some(options), depth)`)
   * and an exchange of the droppable states of two lists (`swap_modify_states`
   * with a modifier that keeps the other state).
   */
  datatype Command =
    | NoCommand
    | Focus(input: InputId)
    | FindZones(reply: ZoneReply, dragged: Rect, options: seq<Id>, depth: Option<nat>)
    | SwapStates(l1: Id, l2: Id)

  /**
   * The fields of `TodoBoard`, with the click time as a millisecond timestamp
   * and the global item counter `nextTodo` (the next id `Todo::new` hands out).
   */
  datatype BoardState = BoardState(
    slots: seq<Slot>,
    clicked: (TreeLocation, nat),
    editing: Option<TreeLocation>,
    tasks: Highlight,
    lists: Highlight,
    nextTodo: nat)

  /** The new snapshot and the command an arm returns. */
  datatype Outcome = Outcome(state: BoardState, cmd: Command)

  /**
   * Every item carries an id below the item counter, so new items get fresh
   * ids, and no id names two elements, so `find` locates each zone's id.
   */
  ghost predicate Invariant(st: BoardState)
  {
    IdsBelow(st.slots, st.nextTodo) && DistinctIds(st.slots)
  }

  /** The three slots of `TodoBoard::default`, built in evaluation order so slot, list and item `i` get number `i`. */
  function InitialSlots(): (r: seq<Slot>)
    ensures |r| == 3
  {
    [ NewSlot(NewList("Todo", [NewTodo("Fix bugs", 0)], 0), 0),
      NewSlot(NewList("Doing", [NewTodo("Write code", 1)], 1), 1),
      NewSlot(NewList("Done", [NewTodo("Drag and drop", 2)], 2), 2) ]
  }

  /** `TodoBoard::default`, with the click clock started at `now`. */
  function InitialState(now: nat): BoardState
  {
    BoardState(InitialSlots(), (NullTodoLoc, now), None, Dropped(), Dropped(), 3)
  }

  /** Three different ids occur once each. */
  lemma {:induction false} ThreeOnce(a: Id, b: Id, c: Id)
    requires a != b && b != c && a != c
    ensures NoDuplicates([a, b, c])
  {
    assert multiset([a, b, c]) == multiset{a} + multiset{b} + multiset{c};
  }

  /** Slots numbered 0, 1 and 2, with one item each numbered like its slot, have distinct ids. */
  lemma {:induction false} NumberedSlotsDistinct(s: seq<Slot>)
    requires ListOptions(s) == [SlotId(0), SlotId(1), SlotId(2)]
    requires ListIds(s) == [ListId(0), ListId(1), ListId(2)]
    requires AllTodoIds(s) == [TodoId(0), TodoId(1), TodoId(2)]
    ensures DistinctIds(s)
  {
    ThreeOnce(SlotId(0), SlotId(1), SlotId(2));
    ThreeOnce(ListId(0), ListId(1), ListId(2));
    ThreeOnce(TodoId(0), TodoId(1), TodoId(2));
    forall i | 0 <= i < |s| ensures s[i].id.SlotId? && s[i].list.id.ListId? {
      assert ListOptions(s)[i] == s[i].id && ListIds(s)[i] == s[i].list.id;
    }
  }

  /** The default board has distinct ids, hence unique ones, and every item id below the counter. */
  lemma {:induction false} InitialIsSound(now: nat)
    ensures Invariant(InitialState(now))
    ensures UniqueIds(InitialSlots())
  {
    var s := InitialSlots();
    assert AllTodoIds(s) == [TodoId(0), TodoId(1), TodoId(2)] by {
      assert s[1..][1..][1..] == [];
    }
    assert ListOptions(s) == [SlotId(0), SlotId(1), SlotId(2)];
    assert ListIds(s) == [ListId(0), ListId(1), ListId(2)];
    NumberedSlotsDistinct(s);
    DistinctIdsUnique(s);
  }

  // ---------------------------------------------------------------------
  // Helpers shared by the arms

  /** The slots with the item at `loc` replaced by `t` (a write through `todo_mut`). */
  function WithTodo(slots: seq<Slot>, loc: TreeLocation, t: Todo): (r: seq<Slot>)
    requires Resolves(slots, loc) && loc.element.TodoElem?
    ensures |r| == |slots|
    ensures forall other :: Resolves(r, other) <==> Resolves(slots, other)
  {
    var l := slots[loc.slot].list;
    SetList(slots, loc.slot, l.(todos := l.todos[loc.element.index := t]))
  }

  /** Rewriting an item without changing its id keeps the item ids of the tree and writes exactly that item. */
  lemma {:induction false} WithTodoKeepsIds(slots: seq<Slot>, loc: TreeLocation, t: Todo)
    requires Resolves(slots, loc) && loc.element.TodoElem? && t.id == ItemAt(slots, loc).id
    ensures AllTodoIds(WithTodo(slots, loc, t)) == AllTodoIds(slots) && SameContainers(slots, WithTodo(slots, loc, t))
    ensures ItemAt(WithTodo(slots, loc, t), loc) == t
  {
    var i := loc.slot;
    var r := WithTodo(slots, loc, t);
    assert TodoIds(r[i].list.todos) == TodoIds(slots[i].list.todos);
    AllTodoIdsUpdate(slots, i, r[i]);
    assert r == slots[i := r[i]];
  }

  /** The item at a `Todo` location. */
  function ItemAt(slots: seq<Slot>, loc: TreeLocation): Todo
    requires Resolves(slots, loc) && loc.element.TodoElem?
  {
    slots[loc.slot].list.todos[loc.element.index]
  }

  /** `Instant::elapsed` in milliseconds; it saturates at zero. */
  function Elapsed(since: nat, now: nat): nat
  {
    if since <= now then now - since else 0
  }

  /** The click at `now` on `loc` is the second click of a double click. */
  predicate IsDoubleClick(clicked: (TreeLocation, nat), loc: TreeLocation, now: nat)
  {
    clicked.0 == loc && Elapsed(clicked.1, now) < DoubleClickTime
  }

  /** `stop_editing_task` indexes the tree at the stored location when it is an item location. */
  predicate CanStopEditing(st: BoardState)
  {
    st.editing.Some? ==> TodoIndexable(st.slots, st.editing.value)
  }

  // ---------------------------------------------------------------------
  // The arms of `update`, on snapshots

  /** `stop_editing_task`: the stored item stops being edited; a stored non-item location is kept. */
  function StopEditingStep(st: BoardState): BoardState
    requires CanStopEditing(st)
  {
    match st.editing
    case Some(loc) =>
      if loc.element.TodoElem? then
        st.(slots := WithTodo(st.slots, loc, ItemAt(st.slots, loc).(editing := false)), editing := None)
      else st
    case None => st
  }

  /**
   * `EditTask`: stop editing, then on the second click of a double click on
   * an item start editing it and focus its input; otherwise remember the click.
   */
  function EditTaskStep(st: BoardState, loc: TreeLocation, input: InputId, now: nat): Outcome
    requires CanStopEditing(st) && TodoIndexable(st.slots, loc)
  {
    var s1 := StopEditingStep(st);
    if IsDoubleClick(s1.clicked, loc, now) && loc.element.TodoElem? then
      Outcome(s1.(slots := WithTodo(s1.slots, loc, ItemAt(s1.slots, loc).(editing := true)), editing := Some(loc)),
              Focus(input))
    else
      Outcome(s1.(clicked := (loc, now)), NoCommand)
  }

  /** `UpdateTask`: the item's text becomes `content`; a non-item location changes nothing. */
  function UpdateTaskStep(st: BoardState, loc: TreeLocation, content: string): BoardState
    requires TodoIndexable(st.slots, loc)
  {
    if loc.element.TodoElem? then st.(slots := WithTodo(st.slots, loc, ItemAt(st.slots, loc).(content := content)))
    else st
  }

  /**
   * `DragTask`: record the drag, highlight the dragged item when the drag
   * starts or continues, and ask for the zones that intersect the dragged
   * bounds among the item's allow-list.
   */
  function DragTaskStep(st: BoardState, loc: TreeLocation, bounds: Rect): Outcome
    requires TodoIndexable(st.slots, loc)
  {
    var h := Dragged(st.tasks, loc, bounds);
    var s := if ShouldUpdateDroppable(st.tasks, h, loc) && loc.element.TodoElem? then WithFlag(st.slots, loc, true)
             else st.slots;
    FlagsKeepLocations(st.slots, s, loc);
    Outcome(st.(slots := s, tasks := h), FindZones(TaskZones, bounds, TodoOptions(s, loc), None))
  }

  /** A flag write keeps every location's resolution. */
  lemma {:induction false} FlagsKeepLocations(slots: seq<Slot>, s: seq<Slot>, loc: TreeLocation)
    requires Resolves(slots, loc) || s == slots
    requires s == slots || s == WithFlag(slots, loc, true)
    ensures TodoIndexable(slots, loc) ==> TodoIndexable(s, loc)
  {
    if s != slots {
      FlagSet(slots, loc, true, loc);
    }
  }

  /** `HandleTaskZones`: pick the hovered zone and move the hover highlight to it. */
  function HandleTaskZonesStep(st: BoardState, zones: seq<(Id, Rect)>): BoardState
    requires HoverResolves(st.slots, st.tasks)
  {
    var h := ZonesFoundSpec(st.tasks, MapZones(st.slots, zones));
    ZonesFoundResolves(st.slots, st.tasks, MapZones(st.slots, zones));
    st.(slots := ZoneUpdated(ZoneUpdateOf(st.tasks, h), st.slots, st.tasks, h), tasks := h)
  }

  /** The hovered zone `zones_found` picks is one of the zones, so it exists when they all do. */
  lemma {:induction false} ZonesFoundResolves(slots: seq<Slot>, info: Highlight, zones: seq<(TreeLocation, Rect)>)
    requires HoverResolves(slots, info)
    requires forall k | 0 <= k < |zones| :: Resolves(slots, zones[k].0)
    ensures HoverResolves(slots, ZonesFoundSpec(info, zones))
  {
    ZonesFoundChoice(info, zones);
  }

  /** `DropTask`: apply the drop to the hovered zone (or delete the item) and end the drag. */
  function DropTaskStep(st: BoardState, loc: TreeLocation): BoardState
    requires CanDropTask(st.slots, loc, st.tasks.hovered)
  {
    st.(slots := DropTaskSpec(st.slots, loc, st.tasks.hovered), tasks := Dropped())
  }

  /** `DragList` clears the dragged list's highlight only when it calls `list_mut`. */
  predicate CanDragList(st: BoardState, loc: TreeLocation, bounds: Rect)
  {
    ShouldUpdateDroppable(st.lists, Dragged(st.lists, loc, bounds), loc) ==> loc.slot < |st.slots|
  }

  /** `DragList`: record the drag, clear the list's highlight, and ask for the slots the bounds intersect. */
  function DragListStep(st: BoardState, loc: TreeLocation, bounds: Rect): Outcome
    requires CanDragList(st, loc, bounds)
  {
    var h := Dragged(st.lists, loc, bounds);
    var s := if ShouldUpdateDroppable(st.lists, h, loc) then WithFlag(st.slots, TreeLocation(loc.slot, ListElem), false)
             else st.slots;
    Outcome(st.(slots := s, lists := h), FindZones(ListZones, bounds, ListOptions(s), None))
  }

  /** The highlight `HandleListZones` moves to. */
  function ListZonesFound(st: BoardState, zones: seq<(Id, Rect)>): Highlight
  {
    ZonesFoundSpec(st.lists, MapZones(st.slots, zones))
  }

  /** `move_list_to_zone` indexes the tree at the dragged location only when the hovered zone is replaced. */
  predicate CanHandleListZones(st: BoardState, zones: seq<(Id, Rect)>)
  {
    && HoverResolves(st.slots, st.lists)
    && (ZoneUpdateOf(st.lists, ListZonesFound(st, zones)) == Replace && st.lists.dragging.Some? ==>
          st.lists.dragging.value.0.slot < |st.slots|)
  }

  /**
   * `HandleListZones`: move the hover highlight; when the hovered slot
   * changes during a drag, exchange the dragged list with the hovered slot's
   * list and ask for their droppable states to be exchanged too.
   */
  function HandleListZonesStep(st: BoardState, zones: seq<(Id, Rect)>): Outcome
    requires CanHandleListZones(st, zones)
  {
    var h := ListZonesFound(st, zones);
    ZonesFoundResolves(st.slots, st.lists, MapZones(st.slots, zones));
    var u := ZoneUpdateOf(st.lists, h);
    var s1 := ZoneUpdated(u, st.slots, st.lists, h);
    if u == Replace && h.dragging.Some? && h.hovered.Some? then
      var d := h.dragging.value.0;
      var hv := h.hovered.value;
      Outcome(st.(slots := ListsExchanged(s1, d, hv), lists := h), SwapStates(s1[d.slot].list.id, s1[hv.slot].list.id))
    else
      Outcome(st.(slots := s1, lists := h), NoCommand)
  }

  /** `DropList` indexes the tree at the dropped list and at the hovered slot. */
  predicate CanDropList(st: BoardState, loc: TreeLocation)
  {
    loc.slot < |st.slots| && (st.lists.hovered.Some? ==> st.lists.hovered.value.slot < |st.slots|)
  }

  /**
   * `DropList` as written: clear the list's and the hovered slot's highlight,
   * then reset the ITEM highlight state; the list highlight state is kept.
   */
  function DropListStep(st: BoardState, loc: TreeLocation): BoardState
    requires CanDropList(st, loc)
  {
    st.(slots := ListDropFlags(st, loc), tasks := Dropped())
  }

  /** The flags `DropList` clears. */
  function ListDropFlags(st: BoardState, loc: TreeLocation): (r: seq<Slot>)
    requires CanDropList(st, loc)
    ensures |r| == |st.slots|
  {
    var s1 := WithFlag(st.slots, TreeLocation(loc.slot, ListElem), false);
    if st.lists.hovered.Some? then WithFlag(s1, TreeLocation(st.lists.hovered.value.slot, SlotElem), false) else s1
  }

  /** `DropList` as evidently intended: the list highlight state is the one reset. */
  function DropListIntended(st: BoardState, loc: TreeLocation): BoardState
    requires CanDropList(st, loc)
  {
    st.(slots := ListDropFlags(st, loc), lists := Dropped())
  }

  /** `UpdateTaskWriter`: stop editing, then the list's adder shows `text`. */
  function UpdateTaskWriterStep(st: BoardState, loc: TreeLocation, text: string): BoardState
    requires CanStopEditing(st) && loc.slot < |st.slots|
  {
    var s1 := StopEditingStep(st);
    var l := s1.slots[loc.slot].list;
    s1.(slots := SetList(s1.slots, loc.slot, l.(adder := l.adder.(text := text))))
  }

  /**
   * `WriteTask`: the adder is cleared; an empty text ends there, otherwise a
   * new item with the text and the next id is appended and the adder is focused.
   */
  function WriteTaskStep(st: BoardState, loc: TreeLocation): Outcome
    requires loc.slot < |st.slots|
  {
    var l := st.slots[loc.slot].list;
    if l.adder.text == "" then
      Outcome(st.(slots := SetList(st.slots, loc.slot, l.(adder := l.adder.(text := "")))), NoCommand)
    else
      Outcome(st.(slots := Written(st.slots, loc.slot, st.nextTodo), nextTodo := st.nextTodo + 1), Focus(l.adder.inputId))
  }

  /** `TaskDropCanceled` indexes the tree at the dragged item and, when it is an item, at the hovered zone. */
  predicate CanCancelTaskDrop(st: BoardState)
  {
    st.tasks.dragging.Some? ==>
      var d := st.tasks.dragging.value.0;
      TodoIndexable(st.slots, d) && (d.element.TodoElem? ==> HoverResolves(st.slots, st.tasks))
  }

  /** `TaskDropCanceled`: a dragged item and the hovered zone lose their highlight; the drag ends. */
  function TaskDropCanceledStep(st: BoardState): BoardState
    requires CanCancelTaskDrop(st)
  {
    var s :=
      if st.tasks.dragging.Some? && st.tasks.dragging.value.0.element.TodoElem? then
        var d := st.tasks.dragging.value.0;
        HoverSurvivesFlag(st.slots, d, st.tasks);
        Hovered(WithFlag(st.slots, d, false), st.tasks, false)
      else st.slots;
    st.(slots := s, tasks := Dropped())
  }

  /** Clearing a flag keeps the hovered zone in the tree. */
  lemma {:induction false} HoverSurvivesFlag(slots: seq<Slot>, d: TreeLocation, info: Highlight)
    requires Resolves(slots, d) && HoverResolves(slots, info)
    ensures HoverResolves(WithFlag(slots, d, false), info)
  {
    if info.hovered.Some? {
      FlagSet(slots, d, false, info.hovered.value);
    }
  }

  /** `ListDropCanceled` indexes the tree at the dragged list's slot. */
  predicate CanCancelListDrop(st: BoardState)
  {
    st.lists.dragging.Some? ==> st.lists.dragging.value.0.slot < |st.slots|
  }

  /** `ListDropCanceled`: the dragged list and its slot lose their highlight; the drag ends. */
  function ListDropCanceledStep(st: BoardState): BoardState
    requires CanCancelListDrop(st)
  {
    var s :=
      if st.lists.dragging.Some? then
        var i := st.lists.dragging.value.0.slot;
        WithFlag(WithFlag(st.slots, TreeLocation(i, ListElem), false), TreeLocation(i, SlotElem), false)
      else st.slots;
    st.(slots := s, lists := Dropped())
  }

  // ---------------------------------------------------------------------
  // Every arm keeps the invariant

  /** A step that keeps every slot and list, adds no item id and keeps the counter keeps the invariant. */
  lemma {:induction false} InvariantKept(st: BoardState, r: BoardState)
    requires Invariant(st) && SameContainers(st.slots, r.slots) && r.nextTodo == st.nextTodo
    requires multiset(AllTodoIds(r.slots)) <= multiset(AllTodoIds(st.slots))
    ensures Invariant(r)
  {
    IdsBelowShrinks(r.slots, st.slots, st.nextTodo);
    DistinctIdsKept(st.slots, r.slots);
  }

  lemma {:induction false} StopEditingKeepsInvariant(st: BoardState)
    requires Invariant(st) && CanStopEditing(st)
    ensures Invariant(StopEditingStep(st))
  {
    if st.editing.Some? && st.editing.value.element.TodoElem? {
      var loc := st.editing.value;
      WithTodoKeepsIds(st.slots, loc, ItemAt(st.slots, loc).(editing := false));
      InvariantKept(st, StopEditingStep(st));
    }
  }

  lemma {:induction false} EditTaskKeepsInvariant(st: BoardState, loc: TreeLocation, input: InputId, now: nat)
    requires Invariant(st) && CanStopEditing(st) && TodoIndexable(st.slots, loc)
    ensures Invariant(EditTaskStep(st, loc, input, now).state)
  {
    StopEditingKeepsInvariant(st);
    var s1 := StopEditingStep(st);
    if IsDoubleClick(s1.clicked, loc, now) && loc.element.TodoElem? {
      WithTodoKeepsIds(s1.slots, loc, ItemAt(s1.slots, loc).(editing := true));
      InvariantKept(s1, EditTaskStep(st, loc, input, now).state);
    }
  }

  lemma {:induction false} UpdateTaskKeepsInvariant(st: BoardState, loc: TreeLocation, content: string)
    requires Invariant(st) && TodoIndexable(st.slots, loc)
    ensures Invariant(UpdateTaskStep(st, loc, content))
  {
    if loc.element.TodoElem? {
      WithTodoKeepsIds(st.slots, loc, ItemAt(st.slots, loc).(content := content));
      InvariantKept(st, UpdateTaskStep(st, loc, content));
    }
  }

  lemma {:induction false} DragTaskKeepsInvariant(st: BoardState, loc: TreeLocation, bounds: Rect)
    requires Invariant(st) && TodoIndexable(st.slots, loc)
    ensures Invariant(DragTaskStep(st, loc, bounds).state)
  {
    if loc.element.TodoElem? {
      FlagSet(st.slots, loc, true, loc);
    }
    InvariantKept(st, DragTaskStep(st, loc, bounds).state);
  }

  lemma {:induction false} HandleTaskZonesKeepsInvariant(st: BoardState, zones: seq<(Id, Rect)>)
    requires Invariant(st) && HoverResolves(st.slots, st.tasks)
    ensures Invariant(HandleTaskZonesStep(st, zones))
  {
    var h := ZonesFoundSpec(st.tasks, MapZones(st.slots, zones));
    ZonesFoundResolves(st.slots, st.tasks, MapZones(st.slots, zones));
    ZoneUpdatedKeepsIds(ZoneUpdateOf(st.tasks, h), st.slots, st.tasks, h);
    InvariantKept(st, HandleTaskZonesStep(st, zones));
  }

  lemma {:induction false} DropTaskKeepsInvariant(st: BoardState, loc: TreeLocation)
    requires Invariant(st) && CanDropTask(st.slots, loc, st.tasks.hovered)
    ensures Invariant(DropTaskStep(st, loc))
  {
    DropTaskConserves(st.slots, loc, st.tasks.hovered);
    InvariantKept(st, DropTaskStep(st, loc));
  }

  lemma {:induction false} DragListKeepsInvariant(st: BoardState, loc: TreeLocation, bounds: Rect)
    requires Invariant(st) && CanDragList(st, loc, bounds)
    ensures Invariant(DragListStep(st, loc, bounds).state)
  {
    if ShouldUpdateDroppable(st.lists, Dragged(st.lists, loc, bounds), loc) {
      var l := TreeLocation(loc.slot, ListElem);
      FlagSet(st.slots, l, false, l);
    }
    InvariantKept(st, DragListStep(st, loc, bounds).state);
  }

  lemma {:induction false} HandleListZonesKeepsInvariant(st: BoardState, zones: seq<(Id, Rect)>)
    requires Invariant(st) && CanHandleListZones(st, zones)
    ensures Invariant(HandleListZonesStep(st, zones).state)
  {
    var h := ListZonesFound(st, zones);
    ZonesFoundResolves(st.slots, st.lists, MapZones(st.slots, zones));
    var u := ZoneUpdateOf(st.lists, h);
    var s1 := ZoneUpdated(u, st.slots, st.lists, h);
    ZoneUpdatedKeepsIds(u, st.slots, st.lists, h);
    var mid := st.(slots := s1, lists := h);
    InvariantKept(st, mid);
    var r := HandleListZonesStep(st, zones).state;
    if u == Replace && h.dragging.Some? && h.hovered.Some? {
      var d, hv := h.dragging.value.0, h.hovered.value;
      assert r == mid.(slots := ListsExchanged(s1, d, hv));
      if d.slot != hv.slot && d.slot < |s1| && hv.slot < |s1| {
        SwapKeepsInvariant(mid, d.slot, hv.slot);
      }
    } else {
      assert r == mid;
    }
  }

  /** Exchanging two slots' lists keeps the invariant. */
  lemma {:induction false} SwapKeepsInvariant(st: BoardState, a: nat, b: nat)
    requires Invariant(st) && a < |st.slots| && b < |st.slots|
    ensures Invariant(st.(slots := SwappedLists(st.slots, a, b)))
  {
    SwapKeepsIds(st.slots, a, b);
    IdsBelowShrinks(SwappedLists(st.slots, a, b), st.slots, st.nextTodo);
    DistinctIdsSwapped(st.slots, a, b);
  }

  lemma {:induction false} DropListKeepsInvariant(st: BoardState, loc: TreeLocation)
    requires Invariant(st) && CanDropList(st, loc)
    ensures Invariant(DropListStep(st, loc))
  {
    var l := TreeLocation(loc.slot, ListElem);
    FlagSet(st.slots, l, false, l);
    if st.lists.hovered.Some? {
      var hs := TreeLocation(st.lists.hovered.value.slot, SlotElem);
      FlagSet(WithFlag(st.slots, l, false), hs, false, hs);
    }
    InvariantKept(st, DropListStep(st, loc));
  }

  /** A new adder text keeps the item ids. */
  lemma {:induction false} AdderTextKeepsIds(slots: seq<Slot>, i: nat, text: string)
    requires i < |slots|
    ensures var l := slots[i].list;
            AllTodoIds(SetList(slots, i, l.(adder := l.adder.(text := text)))) == AllTodoIds(slots)
  {
    var l := slots[i].list;
    var r := SetList(slots, i, l.(adder := l.adder.(text := text)));
    AllTodoIdsUpdate(slots, i, r[i]);
    assert r == slots[i := r[i]];
  }

  lemma {:induction false} UpdateTaskWriterKeepsInvariant(st: BoardState, loc: TreeLocation, text: string)
    requires Invariant(st) && CanStopEditing(st) && loc.slot < |st.slots|
    ensures Invariant(UpdateTaskWriterStep(st, loc, text))
  {
    StopEditingKeepsInvariant(st);
    var s1 := StopEditingStep(st);
    AdderTextKeepsIds(s1.slots, loc.slot, text);
    InvariantKept(s1, UpdateTaskWriterStep(st, loc, text));
  }

  lemma {:induction false} WriteTaskKeepsInvariant(st: BoardState, loc: TreeLocation)
    requires Invariant(st) && loc.slot < |st.slots|
    ensures Invariant(WriteTaskStep(st, loc).state)
  {
    var r := WriteTaskStep(st, loc).state;
    if st.slots[loc.slot].list.adder.text == "" {
      AdderTextKeepsIds(st.slots, loc.slot, "");
      InvariantKept(st, r);
    } else {
      WrittenAddsFresh(st.slots, loc.slot, st.nextTodo);
      DistinctIdsFresh(st.slots, r.slots, TodoId(st.nextTodo));
    }
  }

  lemma {:induction false} TaskDropCanceledKeepsInvariant(st: BoardState)
    requires Invariant(st) && CanCancelTaskDrop(st)
    ensures Invariant(TaskDropCanceledStep(st))
  {
    if st.tasks.dragging.Some? && st.tasks.dragging.value.0.element.TodoElem? {
      var d := st.tasks.dragging.value.0;
      var s1 := WithFlag(st.slots, d, false);
      FlagSet(st.slots, d, false, d);
      HoverSurvivesFlag(st.slots, d, st.tasks);
      ZoneUpdatedKeepsIds(NoUpdate, s1, st.tasks, st.tasks);
    }
    InvariantKept(st, TaskDropCanceledStep(st));
  }

  lemma {:induction false} ListDropCanceledKeepsInvariant(st: BoardState)
    requires Invariant(st) && CanCancelListDrop(st)
    ensures Invariant(ListDropCanceledStep(st))
  {
    if st.lists.dragging.Some? {
      var i := st.lists.dragging.value.0.slot;
      var l, s := TreeLocation(i, ListElem), TreeLocation(i, SlotElem);
      FlagSet(st.slots, l, false, l);
      FlagSet(WithFlag(st.slots, l, false), s, false, s);
    }
    InvariantKept(st, ListDropCanceledStep(st));
  }

  // ---------------------------------------------------------------------
  // The free functions of main.rs, on the tree

  /** `task_dropped_on_list`. */
  method TaskDroppedOnList(tree: TreeData, d: TreeLocation, h: TreeLocation)
    requires CanDropOnList(tree.slots, d, h)
    modifies tree
    ensures tree.slots == DroppedOnList(old(tree.slots), d, h)
  {
    if d.element.TodoElem? {
      tree.SetTodoHighlight(d, false);
      FlagSet(old(tree.slots), d, false, d);
      ghost var s1 := tree.slots;
      tree.SetListHighlight(h, false);
      FlagSet(s1, TreeLocation(h.slot, ListElem), false, d);
      if d.slot == h.slot {
        return;
      }
      var t := tree.RemoveTodo(d);
      tree.PushTodo(h, t.value);
    }
  }

  /** `task_dropped_on_task`; the `unwrap` is safe by `CanDropOnTask`. */
  method TaskDroppedOnTask(tree: TreeData, d: TreeLocation, h: TreeLocation)
    requires CanDropOnTask(tree.slots, d, h)
    modifies tree
    ensures tree.slots == DroppedOnTask(old(tree.slots), d, h)
  {
    if d.element.TodoElem? {
      tree.SetTodoHighlight(d, false);
      FlagSet(old(tree.slots), d, false, h);
      FlagSet(old(tree.slots), d, false, d);
      if h.element.TodoElem? {
        ghost var s1 := tree.slots;
        tree.SetTodoHighlight(h, false);
        FlagSet(s1, h, false, d);
      } else {
        return;
      }
    }
    if d.slot != h.slot {
      if h.element.TodoElem? {
        var t := tree.RemoveTodo(d);
        tree.InsertTodo(h, t.value, h.element.index);
      }
    } else {
      tree.MoveTodo(d, h);
    }
  }

  /**
   * `move_list_to_zone`: read the two list ids, exchange the lists of the two
   * slots and ask for the two lists' droppable states to be exchanged.
   */
  method MoveListToZone(tree: TreeData, d: TreeLocation, h: TreeLocation) returns (cmd: Command)
    requires d.slot < |tree.slots| && h.slot < |tree.slots|
    modifies tree
    ensures tree.slots == ListsExchanged(old(tree.slots), d, h)
    ensures cmd == SwapStates(old(tree.slots)[d.slot].list.id, old(tree.slots)[h.slot].list.id)
  {
    var l1 := tree.slots[d.slot].list.id;
    var l2 := tree.slots[h.slot].list.id;
    tree.SwapLists(d, h);
    cmd := SwapStates(l1, l2);
  }

  // ---------------------------------------------------------------------
  // The application

  /** `TodoBoard`: the tree and the editing and drag state; each method is one arm of `update`. */
  class TodoBoard {
    const tree: TreeData
    var clickedTask: (TreeLocation, nat)
    var editingTask: Option<TreeLocation>
    var tasksHighlight: Highlight
    var listsHighlight: Highlight
    var nextTodo: nat

    function State(): BoardState
      reads this, tree
    {
      BoardState(tree.slots, clickedTask, editingTask, tasksHighlight, listsHighlight, nextTodo)
    }

    ghost predicate Valid()
      reads this, tree
    {
      Invariant(State())
    }

    /** `TodoBoard::default`, at time `now`. */
    constructor (now: nat)
      ensures State() == InitialState(now) && Valid()
    {
      InitialIsSound(now);
      tree := new TreeData(InitialSlots());
      clickedTask := (NullTodoLoc, now);
      editingTask := None;
      tasksHighlight := Dropped();
      listsHighlight := Dropped();
      nextTodo := 3;
    }

    /** `stop_editing_task`. */
    method StopEditingTask()
      requires Valid()
      requires CanStopEditing(State())
      modifies this, tree
      ensures State() == StopEditingStep(old(State()))
      ensures Valid()
    {
      StopEditingKeepsInvariant(State());
      if editingTask.Some? {
        var loc := editingTask.value;
        if loc.element.TodoElem? {
          var t := tree.slots[loc.slot].list.todos[loc.element.index];
          tree.SetTodo(loc, t.(editing := false));
          editingTask := None;
        }
      }
    }

    /** `Message::EditTask(loc, input)` at time `now`. */
    method EditTask(loc: TreeLocation, input: InputId, now: nat) returns (cmd: Command)
      requires Valid()
      requires CanStopEditing(State()) && TodoIndexable(tree.slots, loc)
      modifies this, tree
      ensures State() == EditTaskStep(old(State()), loc, input, now).state
      ensures cmd == EditTaskStep(old(State()), loc, input, now).cmd
      ensures Valid()
    {
      EditTaskKeepsInvariant(State(), loc, input, now);
      StopEditingTask();
      if clickedTask.0 == loc && Elapsed(clickedTask.1, now) < DoubleClickTime && loc.element.TodoElem? {
        var t := tree.slots[loc.slot].list.todos[loc.element.index];
        tree.SetTodo(loc, t.(editing := true));
        editingTask := Some(loc);
        return Focus(input);
      }
      clickedTask := (loc, now);
      cmd := NoCommand;
    }

    /** `Message::UpdateTask(loc, content)`. */
    method UpdateTask(loc: TreeLocation, content: string)
      requires Valid()
      requires TodoIndexable(tree.slots, loc)
      modifies tree
      ensures State() == UpdateTaskStep(old(State()), loc, content)
      ensures Valid()
    {
      UpdateTaskKeepsInvariant(State(), loc, content);
      if loc.element.TodoElem? {
        var t := tree.slots[loc.slot].list.todos[loc.element.index];
        tree.SetTodo(loc, t.(content := content));
      }
    }

    /** `Message::DragTask(loc, _, bounds)`. */
    method DragTask(loc: TreeLocation, bounds: Rect) returns (cmd: Command)
      requires Valid()
      requires TodoIndexable(tree.slots, loc)
      modifies this, tree
      ensures State() == DragTaskStep(old(State()), loc, bounds).state
      ensures cmd == DragTaskStep(old(State()), loc, bounds).cmd
      ensures Valid()
    {
      DragTaskKeepsInvariant(State(), loc, bounds);
      var h := Dragged(tasksHighlight, loc, bounds);
      if ShouldUpdateDroppable(tasksHighlight, h, loc) {
        tree.SetTodoHighlight(loc, true);
      }
      FlagsKeepLocations(old(tree.slots), tree.slots, loc);
      tasksHighlight := h;
      cmd := FindZones(TaskZones, bounds, TodoOptions(tree.slots, loc), None);
    }

    /** `Message::HandleTaskZones(zones)`. */
    method HandleTaskZones(zones: seq<(Id, Rect)>)
      requires Valid()
      requires HoverResolves(tree.slots, tasksHighlight)
      modifies this, tree
      ensures State() == HandleTaskZonesStep(old(State()), zones)
      ensures Valid()
    {
      HandleTaskZonesKeepsInvariant(State(), zones);
      var found := MapZones(tree.slots, zones);
      var h := ZonesFound(tasksHighlight, found);
      ZonesFoundResolves(tree.slots, tasksHighlight, found);
      ApplyZoneUpdate(ZoneUpdateOf(tasksHighlight, h), tree, tasksHighlight, h);
      tasksHighlight := h;
    }

    /** `Message::DropTask(loc, _, _)`. */
    method DropTask(loc: TreeLocation)
      requires Valid()
      requires CanDropTask(tree.slots, loc, tasksHighlight.hovered)
      modifies this, tree
      ensures State() == DropTaskStep(old(State()), loc)
      ensures Valid()
    {
      DropTaskKeepsInvariant(State(), loc);
      match tasksHighlight.hovered {
        case Some(h) =>
          match h.element {
            case ListElem => TaskDroppedOnList(tree, loc, h);
            case TodoElem(_) => TaskDroppedOnTask(tree, loc, h);
            case SlotElem =>
          }
        case None =>
          var removed := tree.RemoveTodo(loc);
      }
      tasksHighlight := Dropped();
    }

    /** `Message::DragList(loc, _, bounds)`. */
    method DragList(loc: TreeLocation, bounds: Rect) returns (cmd: Command)
      requires Valid()
      requires CanDragList(State(), loc, bounds)
      modifies this, tree
      ensures State() == DragListStep(old(State()), loc, bounds).state
      ensures cmd == DragListStep(old(State()), loc, bounds).cmd
      ensures Valid()
    {
      DragListKeepsInvariant(State(), loc, bounds);
      var h := Dragged(listsHighlight, loc, bounds);
      if ShouldUpdateDroppable(listsHighlight, h, loc) {
        tree.SetListHighlight(loc, false);
      }
      listsHighlight := h;
      cmd := FindZones(ListZones, bounds, ListOptions(tree.slots), None);
    }

    /** `Message::HandleListZones(zones)`. */
    method HandleListZones(zones: seq<(Id, Rect)>) returns (cmd: Command)
      requires Valid()
      requires CanHandleListZones(State(), zones)
      modifies this, tree
      ensures State() == HandleListZonesStep(old(State()), zones).state
      ensures cmd == HandleListZonesStep(old(State()), zones).cmd
      ensures Valid()
    {
      HandleListZonesKeepsInvariant(State(), zones);
      var found := MapZones(tree.slots, zones);
      var h := ZonesFound(listsHighlight, found);
      ZonesFoundResolves(tree.slots, listsHighlight, found);
      var u := ZoneUpdateOf(listsHighlight, h);
      ApplyZoneUpdate(u, tree, listsHighlight, h);
      listsHighlight := h;
      if u == Replace && h.dragging.Some? && h.hovered.Some? {
        cmd := MoveListToZone(tree, h.dragging.value.0, h.hovered.value);
        return;
      }
      cmd := NoCommand;
    }

    /** `Message::DropList(loc, _, _)`, as written. */
    method DropList(loc: TreeLocation)
      requires Valid()
      requires CanDropList(State(), loc)
      modifies this, tree
      ensures State() == DropListStep(old(State()), loc)
      ensures Valid()
    {
      DropListKeepsInvariant(State(), loc);
      tree.SetListHighlight(loc, false);
      if listsHighlight.hovered.Some? {
        tree.SetSlotHighlight(listsHighlight.hovered.value.slot, false);
      }
      tasksHighlight := Dropped();
    }

    /** `Message::UpdateTaskWriter(loc, text)`. */
    method UpdateTaskWriter(loc: TreeLocation, text: string)
      requires Valid()
      requires CanStopEditing(State()) && loc.slot < |tree.slots|
      modifies this, tree
      ensures State() == UpdateTaskWriterStep(old(State()), loc, text)
      ensures Valid()
    {
      UpdateTaskWriterKeepsInvariant(State(), loc, text);
      StopEditingTask();
      tree.SetAdderText(loc, text);
    }

    /** `Message::WriteTask(loc)`. */
    method WriteTask(loc: TreeLocation) returns (cmd: Command)
      requires Valid()
      requires loc.slot < |tree.slots|
      modifies this, tree
      ensures State() == WriteTaskStep(old(State()), loc).state
      ensures cmd == WriteTaskStep(old(State()), loc).cmd
      ensures Valid()
    {
      WriteTaskKeepsInvariant(State(), loc);
      var adder := tree.slots[loc.slot].list.adder;
      tree.SetAdderText(loc, "");
      if adder.text == "" {
        return NoCommand;
      }
      var t := NewTodo(adder.text, nextTodo);
      nextTodo := nextTodo + 1;
      tree.PushTodo(loc, t);
      cmd := Focus(adder.inputId);
    }

    /** `Message::TaskDropCanceled`. */
    method TaskDropCanceled()
      requires Valid()
      requires CanCancelTaskDrop(State())
      modifies this, tree
      ensures State() == TaskDropCanceledStep(old(State()))
      ensures Valid()
    {
      TaskDropCanceledKeepsInvariant(State());
      if tasksHighlight.dragging.Some? {
        var d := tasksHighlight.dragging.value.0;
        if d.element.TodoElem? {
          tree.SetTodoHighlight(d, false);
          HoverSurvivesFlag(old(tree.slots), d, tasksHighlight);
          SetHovered(tree, tasksHighlight, false);
        }
      }
      tasksHighlight := Dropped();
    }

    /** `Message::ListDropCanceled`. */
    method ListDropCanceled()
      requires Valid()
      requires CanCancelListDrop(State())
      modifies this, tree
      ensures State() == ListDropCanceledStep(old(State()))
      ensures Valid()
    {
      ListDropCanceledKeepsInvariant(State());
      if listsHighlight.dragging.Some? {
        var d := listsHighlight.dragging.value.0;
        tree.SetListHighlight(d, false);
        tree.SetSlotHighlight(d.slot, false);
      }
      listsHighlight := Dropped();
    }
  }
}

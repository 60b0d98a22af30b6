/**
 * The to-do board's data (examples/todo/src/tree.rs): slots, each holding one
 * list of to-do items, addressed by `TreeLocation`.
 *
 * `Todo`, `List` and `Slot` are owned values in the source, so they are
 * datatypes here and their in-place operations are functions returning the
 * updated value; `TreeData` owns the slots and is the class whose methods
 * store those values back, in the same way `slot_mut`, `list_mut` and
 * `todo_mut` hand out mutable references into it.
 */
module Tree {
  import opened Wrappers
  import opened Widget
  import opened Seqs

  datatype TreeElement = SlotElem | ListElem | TodoElem(index: nat)

  /** A slot index and what is addressed inside that slot. */
  datatype TreeLocation = TreeLocation(slot: nat, element: TreeElement)

  /** `NULL_TODO_LOC`, the location the last click starts out at. */
  const NullTodoLoc := TreeLocation(0, SlotElem)

  /** Identities of the text inputs: an item's edit field and a list's adder field. */
  datatype InputId = TodoInput(n: nat) | AdderInput(n: nat)

  datatype Todo = Todo(content: string, editing: bool, id: Id, inputId: InputId, highlight: bool)

  /** `Todo::new`, with `n` the value the item counter hands out. */
  function NewTodo(content: string, n: nat): (t: Todo)
    ensures t.id == TodoId(n) && t.inputId == TodoInput(n)
    ensures t.content == content && !t.editing && !t.highlight
  {
    Todo(content, false, TodoId(n), TodoInput(n), false)
  }

  datatype ElementAdder = ElementAdder(text: string, inputId: InputId)

  datatype List = List(adder: ElementAdder, id: Id, title: string, todos: seq<Todo>, highlight: bool)
  {
    /** `remove`: takes out the item a `Todo(i)` location points at; any other location removes nothing. */
    function Remove(loc: TreeLocation): (r: (Option<Todo>, List))
      requires loc.element.TodoElem? ==> loc.element.index < |todos|
      ensures !loc.element.TodoElem? ==> r == (None, this)
      ensures loc.element.TodoElem? ==>
                r.0 == Some(todos[loc.element.index]) &&
                r.1 == this.(todos := RemoveAt(todos, loc.element.index))
    {
      match loc.element
      case TodoElem(i) => (Some(todos[i]), this.(todos := RemoveAt(todos, i)))
      case _ => (None, this)
    }

    /** `push`: appends an item. */
    function Push(t: Todo): (r: List)
      ensures r.todos == todos + [t]
      ensures r.(todos := todos) == this
    {
      this.(todos := todos + [t])
    }

    /** `insert`: puts an item at `index`, shifting the rest. */
    function Insert(t: Todo, index: nat): (r: List)
      requires index <= |todos|
      ensures r.todos == InsertAt(todos, t, index)
      ensures r.(todos := todos) == this
    {
      this.(todos := InsertAt(todos, t, index))
    }

    /** `move_todo`: only between two `Todo` locations; otherwise nothing changes. */
    function MoveTodo(from: TreeLocation, to: TreeLocation): (r: List)
      requires from.element.TodoElem? && to.element.TodoElem? ==> CanMove(|todos|, from.element.index, to.element.index)
      ensures !(from.element.TodoElem? && to.element.TodoElem?) ==> r == this
      ensures from.element.TodoElem? && to.element.TodoElem? ==>
                r == this.(todos := Moved(todos, from.element.index, to.element.index))
    {
      if from.element.TodoElem? && to.element.TodoElem? then
        this.(todos := Moved(todos, from.element.index, to.element.index))
      else
        this
    }
  }

  /** `List::new`, with `n` the value the list counter hands out. */
  function NewList(title: string, todos: seq<Todo>, n: nat): (l: List)
    ensures l.id == ListId(n) && l.adder == ElementAdder("", AdderInput(n))
    ensures l.title == title && l.todos == todos && !l.highlight
  {
    List(ElementAdder("", AdderInput(n)), ListId(n), title, todos, false)
  }

  datatype Slot = Slot(id: Id, list: List, highlight: bool)

  /** `Slot::new`, with `n` the value the slot counter hands out. */
  function NewSlot(list: List, n: nat): (s: Slot)
    ensures s.id == SlotId(n) && s.list == list && !s.highlight
  {
    Slot(SlotId(n), list, false)
  }

  // ---------------------------------------------------------------------
  // Moving an item inside one list

  /** Where the moved item lands: one place earlier when it moves down the list. */
  function InsertIndex(i: nat, j: nat): nat
  {
    if i < j then j - 1 else j
  }

  /** Neither the removal nor the insertion of `move_todo` is out of bounds. */
  predicate CanMove(n: nat, i: nat, j: nat)
  {
    i < n && InsertIndex(i, j) <= n - 1
  }

  function Moved<T>(s: seq<T>, i: nat, j: nat): (r: seq<T>)
    requires CanMove(|s|, i, j)
    ensures |r| == |s|
    ensures r[InsertIndex(i, j)] == s[i]
  {
    InsertAt(RemoveAt(s, i), s[i], InsertIndex(i, j))
  }

  /** Moving keeps every item, each as often as before. */
  lemma {:induction false} MovedMultiset<T>(s: seq<T>, i: nat, j: nat)
    requires CanMove(|s|, i, j)
    ensures multiset(Moved(s, i, j)) == multiset(s)
  {
    RemoveAtMultiset(s, i);
    InsertAtMultiset(RemoveAt(s, i), s[i], InsertIndex(i, j));
  }

  /** Apart from the moved item, the list keeps its order. */
  lemma {:induction false} MovedKeepsOthers<T>(s: seq<T>, i: nat, j: nat)
    requires CanMove(|s|, i, j)
    ensures RemoveAt(Moved(s, i, j), InsertIndex(i, j)) == RemoveAt(s, i)
  {
    RemoveInserted(RemoveAt(s, i), s[i], InsertIndex(i, j));
  }

  /** Moving the item back from where it landed restores the list. */
  lemma {:induction false} MovedBack<T>(s: seq<T>, i: nat, j: nat)
    requires CanMove(|s|, i, j)
    ensures var d := InsertIndex(i, j);
            var back := if d < i then i + 1 else i;
            CanMove(|s|, d, back) && Moved(Moved(s, i, j), d, back) == s
  {
    var d := InsertIndex(i, j);
    var back := if d < i then i + 1 else i;
    var m := Moved(s, i, j);
    assert InsertIndex(d, back) == i;
    MovedKeepsOthers(s, i, j);
    InsertRemoved(s, i);
  }

  /** The five-item example, moving the first item down to before the fourth. */
  lemma {:induction false} MoveDownExample<T>(a: T, b: T, c: T, d: T, e: T)
    ensures Moved([a, b, c, d, e], 0, 3) == [b, c, a, d, e]
  {
    var s := [a, b, c, d, e];
    var t := [b, c, d, e];
    assert RemoveAt(s, 0) == t by {
      assert s[..0] == [] && s[1..] == t;
    }
    assert InsertAt(t, a, 2) == [b, c, a, d, e] by {
      assert t[..2] == [b, c] && t[2..] == [d, e];
    }
  }

  /** The same five items, moving the fourth up to the front. */
  lemma {:induction false} MoveUpExample<T>(a: T, b: T, c: T, d: T, e: T)
    ensures Moved([a, b, c, d, e], 3, 0) == [d, a, b, c, e]
  {
    var s := [a, b, c, d, e];
    var t := [a, b, c, e];
    assert RemoveAt(s, 3) == t by {
      assert s[..3] == [a, b, c] && s[4..] == [e];
    }
    assert InsertAt(t, d, 0) == [d, a, b, c, e] by {
      assert t[..0] == [] && t[0..] == t;
    }
  }

  /** `remove` and `insert` at the same index undo each other. */
  lemma {:induction false} RemoveThenInsert(l: List, loc: TreeLocation)
    requires loc.element.TodoElem? && loc.element.index < |l.todos|
    ensures var r := l.Remove(loc);
            r.0.Some? && r.1.Insert(r.0.value, loc.element.index) == l
  {
    InsertRemoved(l.todos, loc.element.index);
  }

  /** Removing the last item after a `push` gives back the item and the list. */
  lemma {:induction false} PushThenRemove(l: List, t: Todo, slot: nat)
    ensures l.Push(t).Remove(TreeLocation(slot, TodoElem(|l.todos|))) == (Some(t), l)
  {
    assert RemoveAt(l.todos + [t], |l.todos|) == l.todos;
  }

  lemma {:induction false} InsertThenRemove(l: List, t: Todo, index: nat, slot: nat)
    requires index <= |l.todos|
    ensures l.Insert(t, index).Remove(TreeLocation(slot, TodoElem(index))) == (Some(t), l)
  {
    RemoveInserted(l.todos, t, index);
  }

  // ---------------------------------------------------------------------
  // Addressing

  /** `loc` points at an existing slot, and, for a `Todo(j)`, at an existing item. */
  predicate Resolves(slots: seq<Slot>, loc: TreeLocation)
  {
    loc.slot < |slots| && (loc.element.TodoElem? ==> loc.element.index < |slots[loc.slot].list.todos|)
  }

  /** `todo`/`todo_mut` index the tree only for a `Todo` location. */
  predicate TodoIndexable(slots: seq<Slot>, loc: TreeLocation)
  {
    loc.element.TodoElem? ==> Resolves(slots, loc)
  }

  /** The widget id of the slot, list or item at `loc`. */
  function IdAt(slots: seq<Slot>, loc: TreeLocation): Id
    requires Resolves(slots, loc)
  {
    match loc.element
    case SlotElem => slots[loc.slot].id
    case ListElem => slots[loc.slot].list.id
    case TodoElem(j) => slots[loc.slot].list.todos[j].id
  }

  /** `todo`: the item a `Todo` location points at; `None` for `Slot` and `List`. */
  function TodoAt(slots: seq<Slot>, loc: TreeLocation): (r: Option<Todo>)
    requires TodoIndexable(slots, loc)
    ensures r.Some? <==> loc.element.TodoElem?
    ensures r.Some? ==> r.value.id == IdAt(slots, loc)
  {
    match loc.element
    case TodoElem(j) => Some(slots[loc.slot].list.todos[j])
    case _ => None
  }

  /** Position in the scan order of `find` inside one slot: the slot, then its list, then the items. */
  function Rank(e: TreeElement): nat
  {
    match e
    case SlotElem => 0
    case ListElem => 1
    case TodoElem(j) => 2 + j
  }

  /** `a` is checked before `b` by `find`. */
  predicate ScanBefore(a: TreeLocation, b: TreeLocation)
  {
    a.slot < b.slot || (a.slot == b.slot && Rank(a.element) < Rank(b.element))
  }

  /** The first item from index `j` on whose id is `id`. */
  function FindTodoFrom(todos: seq<Todo>, id: Id, j: nat): (r: Option<nat>)
    ensures r.Some? ==> j <= r.value < |todos| && todos[r.value].id == id &&
                        forall k | j <= k < r.value :: todos[k].id != id
    ensures r.None? ==> forall k | j <= k < |todos| :: todos[k].id != id
    decreases |todos| - j
  {
    if j >= |todos| then None
    else if todos[j].id == id then Some(j)
    else FindTodoFrom(todos, id, j + 1)
  }

  /** What `find` returns once the slots before `i` have been scanned without a hit. */
  function FindFrom(slots: seq<Slot>, id: Id, i: nat): (r: Option<TreeLocation>)
    ensures r.Some? ==> i <= r.value.slot && Resolves(slots, r.value) && IdAt(slots, r.value) == id
    ensures r.Some? ==> forall loc | Resolves(slots, loc) && i <= loc.slot && ScanBefore(loc, r.value) :: IdAt(slots, loc) != id
    ensures r.None? ==> forall loc | Resolves(slots, loc) && i <= loc.slot :: IdAt(slots, loc) != id
    decreases |slots| - i
  {
    if i >= |slots| then None
    else if slots[i].id == id then Some(TreeLocation(i, SlotElem))
    else if slots[i].list.id == id then Some(TreeLocation(i, ListElem))
    else match FindTodoFrom(slots[i].list.todos, id, 0)
      case Some(j) => Some(TreeLocation(i, TodoElem(j)))
      case None => FindFrom(slots, id, i + 1)
  }

  /** `find`: the first location, in slot order and inside a slot in the order slot, list, items, with id `id`. */
  function FindIn(slots: seq<Slot>, id: Id): Option<TreeLocation>
  {
    FindFrom(slots, id, 0)
  }

  /** No two addressable elements share an id. */
  ghost predicate UniqueIds(slots: seq<Slot>)
  {
    forall a, b | Resolves(slots, a) && Resolves(slots, b) && IdAt(slots, a) == IdAt(slots, b) :: a == b
  }

  /** With unique ids, `find` is the inverse of addressing. */
  lemma {:induction false} FindIsInverse(slots: seq<Slot>, loc: TreeLocation)
    requires UniqueIds(slots) && Resolves(slots, loc)
    ensures FindIn(slots, IdAt(slots, loc)) == Some(loc)
  {
  }

  // ---------------------------------------------------------------------
  // Allow-lists

  function TodoIds(todos: seq<Todo>): (r: seq<Id>)
    ensures |r| == |todos| && forall k | 0 <= k < |todos| :: r[k] == todos[k].id
  {
    seq(|todos|, k requires 0 <= k < |todos| => todos[k].id)
  }

  /** Every item's id, slot by slot and inside a slot by index. */
  function AllTodoIds(slots: seq<Slot>): seq<Id>
  {
    if slots == [] then [] else TodoIds(slots[0].list.todos) + AllTodoIds(slots[1..])
  }

  /** One list id per slot, in slot order. */
  function ListIds(slots: seq<Slot>): (r: seq<Id>)
    ensures |r| == |slots| && forall i | 0 <= i < |slots| :: r[i] == slots[i].list.id
  {
    seq(|slots|, i requires 0 <= i < |slots| => slots[i].list.id)
  }

  /** `todo_options`: where a dragged item may be dropped. */
  function TodoOptions(slots: seq<Slot>, loc: TreeLocation): seq<Id>
    requires TodoIndexable(slots, loc)
  {
    match TodoAt(slots, loc)
    case None => []
    case Some(t) => Without(AllTodoIds(slots), t.id) + ListIds(slots)
  }

  /** `list_options`: where a dragged list may be dropped, one slot id per slot. */
  function ListOptions(slots: seq<Slot>): (r: seq<Id>)
    ensures |r| == |slots|
    ensures forall i | 0 <= i < |slots| :: r[i] == IdAt(slots, TreeLocation(i, SlotElem))
  {
    seq(|slots|, i requires 0 <= i < |slots| => slots[i].id)
  }

  /** Some item of the tree has id `x`. */
  ghost predicate HasTodo(slots: seq<Slot>, x: Id)
  {
    exists loc | Resolves(slots, loc) && loc.element.TodoElem? :: IdAt(slots, loc) == x
  }

  lemma {:induction false} AllTodoIdsSound(slots: seq<Slot>, x: Id)
    requires x in AllTodoIds(slots)
    ensures HasTodo(slots, x)
  {
    var ts := slots[0].list.todos;
    if x in TodoIds(ts) {
      var k :| 0 <= k < |ts| && TodoIds(ts)[k] == x;
      assert Resolves(slots, TreeLocation(0, TodoElem(k))) && IdAt(slots, TreeLocation(0, TodoElem(k))) == x;
    } else {
      AllTodoIdsSound(slots[1..], x);
      var l :| Resolves(slots[1..], l) && l.element.TodoElem? && IdAt(slots[1..], l) == x;
      assert Resolves(slots, TreeLocation(l.slot + 1, l.element)) && IdAt(slots, TreeLocation(l.slot + 1, l.element)) == x;
    }
  }

  lemma {:induction false} AllTodoIdsComplete(slots: seq<Slot>, loc: TreeLocation)
    requires Resolves(slots, loc) && loc.element.TodoElem?
    ensures IdAt(slots, loc) in AllTodoIds(slots)
  {
    if loc.slot == 0 {
      assert TodoIds(slots[0].list.todos)[loc.element.index] == IdAt(slots, loc);
    } else {
      AllTodoIdsComplete(slots[1..], TreeLocation(loc.slot - 1, loc.element));
    }
  }

  /** `AllTodoIds` lists exactly the ids of the tree's items. */
  lemma {:induction false} InAllTodoIds(slots: seq<Slot>, x: Id)
    ensures x in AllTodoIds(slots) <==> HasTodo(slots, x)
  {
    if x in AllTodoIds(slots) {
      AllTodoIdsSound(slots, x);
    }
    if HasTodo(slots, x) {
      var loc :| Resolves(slots, loc) && loc.element.TodoElem? && IdAt(slots, loc) == x;
      AllTodoIdsComplete(slots, loc);
    }
  }

  /**
   * The allow-list of a dragged item: nothing for a location that is not an
   * item; otherwise every other item id followed by the list id of every slot
   * in slot order, so the dragged item's own id is offered only if some list
   * also has it.
   */
  lemma {:induction false} TodoOptionsMembers(slots: seq<Slot>, loc: TreeLocation, x: Id)
    requires TodoIndexable(slots, loc)
    ensures !loc.element.TodoElem? ==> TodoOptions(slots, loc) == []
    ensures loc.element.TodoElem? ==>
              var r := TodoOptions(slots, loc);
              var own := IdAt(slots, loc);
              && |r| >= |slots|
              && r[..|r| - |slots|] == Without(AllTodoIds(slots), own)
              && r[|r| - |slots|..] == ListIds(slots)
              && (x in r <==> (x != own && HasTodo(slots, x)) || x in ListIds(slots))
              && (own !in ListIds(slots) ==> own !in r)
  {
    if loc.element.TodoElem? {
      var own := IdAt(slots, loc);
      var others := Without(AllTodoIds(slots), own);
      InAllTodoIds(slots, x);
      assert x in others <==> x in AllTodoIds(slots) && x != own by {
        if x in AllTodoIds(slots) && x != own {
          var k :| 0 <= k < |AllTodoIds(slots)| && AllTodoIds(slots)[k] == x;
        }
      }
      assert TodoOptions(slots, loc) == others + ListIds(slots);
    }
  }

  /**
   * In a tree whose lists carry list ids, the dragged item's own id is never
   * offered as a drop target.
   */
  lemma {:induction false} DraggedNeverOffered(slots: seq<Slot>, loc: TreeLocation)
    requires Resolves(slots, loc) && loc.element.TodoElem?
    requires IdAt(slots, loc).TodoId?
    requires forall i | 0 <= i < |slots| :: slots[i].list.id.ListId?
    ensures IdAt(slots, loc) !in TodoOptions(slots, loc)
  {
    TodoOptionsMembers(slots, loc, IdAt(slots, loc));
  }

  // ---------------------------------------------------------------------
  // Highlight flags

  /** The highlight flag of the slot, list or item at `loc`. */
  function FlagAt(slots: seq<Slot>, loc: TreeLocation): bool
    requires Resolves(slots, loc)
  {
    match loc.element
    case SlotElem => slots[loc.slot].highlight
    case ListElem => slots[loc.slot].list.highlight
    case TodoElem(j) => slots[loc.slot].list.todos[j].highlight
  }

  /** The slots after `set_highlight(b)` on the element at `loc`. */
  function WithFlag(slots: seq<Slot>, loc: TreeLocation, b: bool): (r: seq<Slot>)
    requires Resolves(slots, loc)
    ensures |r| == |slots| && SameContainers(slots, r)
  {
    var s := slots[loc.slot];
    match loc.element
    case SlotElem => slots[loc.slot := s.(highlight := b)]
    case ListElem => slots[loc.slot := s.(list := s.list.(highlight := b))]
    case TodoElem(j) =>
      slots[loc.slot := s.(list := s.list.(todos := s.list.todos[j := s.list.todos[j].(highlight := b)]))]
  }

  /** `set_highlight` sets exactly one flag and changes no id and no location. */
  lemma {:induction false} FlagSet(slots: seq<Slot>, loc: TreeLocation, b: bool, other: TreeLocation)
    requires Resolves(slots, loc)
    ensures Resolves(WithFlag(slots, loc, b), other) <==> Resolves(slots, other)
    ensures Resolves(slots, other) ==>
              && IdAt(WithFlag(slots, loc, b), other) == IdAt(slots, other)
              && FlagAt(WithFlag(slots, loc, b), other) == if other == loc then b else FlagAt(slots, other)
    ensures AllTodoIds(WithFlag(slots, loc, b)) == AllTodoIds(slots)
  {
    var r := WithFlag(slots, loc, b);
    var i := loc.slot;
    assert TodoIds(r[i].list.todos) == TodoIds(slots[i].list.todos);
    AllTodoIdsUpdate(slots, i, r[i]);
    assert r == slots[i := r[i]];
  }

  // ---------------------------------------------------------------------
  // Replacing one slot's list

  function SetList(slots: seq<Slot>, i: nat, l: List): (r: seq<Slot>)
    requires i < |slots|
    ensures |r| == |slots| && r[i].list == l && r[i].id == slots[i].id && r[i].highlight == slots[i].highlight
    ensures forall k | 0 <= k < |slots| && k != i :: r[k] == slots[k]
    ensures l.id == slots[i].list.id ==> SameContainers(slots, r)
  {
    slots[i := slots[i].(list := l)]
  }

  lemma {:induction false} AllTodoIdsAppend(a: seq<Slot>, b: seq<Slot>)
    ensures AllTodoIds(a + b) == AllTodoIds(a) + AllTodoIds(b)
  {
    if a == [] {
      assert a + b == b;
    } else {
      assert (a + b)[1..] == a[1..] + b;
      AllTodoIdsAppend(a[1..], b);
    }
  }

  lemma {:induction false} AllTodoIdsUpdate(slots: seq<Slot>, i: nat, s: Slot)
    requires i < |slots|
    ensures AllTodoIds(slots[i := s]) ==
            AllTodoIds(slots[..i]) + TodoIds(s.list.todos) + AllTodoIds(slots[i + 1..])
    ensures AllTodoIds(slots) ==
            AllTodoIds(slots[..i]) + TodoIds(slots[i].list.todos) + AllTodoIds(slots[i + 1..])
  {
    assert slots[i := s] == slots[..i] + ([s] + slots[i + 1..]);
    assert slots == slots[..i] + ([slots[i]] + slots[i + 1..]);
    AllTodoIdsAppend(slots[..i], [s] + slots[i + 1..]);
    AllTodoIdsAppend(slots[..i], [slots[i]] + slots[i + 1..]);
    assert ([s] + slots[i + 1..])[1..] == slots[i + 1..];
    assert ([slots[i]] + slots[i + 1..])[1..] == slots[i + 1..];
  }

  /** Replacing one slot's list changes the multiset of item ids by exactly the difference of the two lists. */
  lemma {:induction false} SetListIds(slots: seq<Slot>, i: nat, l: List)
    requires i < |slots|
    ensures multiset(AllTodoIds(SetList(slots, i, l))) + multiset(TodoIds(slots[i].list.todos))
         == multiset(AllTodoIds(slots)) + multiset(TodoIds(l.todos))
  {
    AllTodoIdsUpdate(slots, i, slots[i].(list := l));
  }

  // ---------------------------------------------------------------------
  // Exchanging the lists of two slots

  /** The slots after `mem::swap` of the lists of slots `a` and `b`. */
  function SwappedLists(slots: seq<Slot>, a: nat, b: nat): (r: seq<Slot>)
    requires a < |slots| && b < |slots|
    ensures |r| == |slots|
    ensures r[a].list == slots[b].list && r[b].list == slots[a].list
    ensures forall k | 0 <= k < |slots| :: r[k].id == slots[k].id && r[k].highlight == slots[k].highlight
    ensures forall k | 0 <= k < |slots| && k != a && k != b :: r[k] == slots[k]
  {
    SetList(SetList(slots, a, slots[b].list), b, slots[a].list)
  }

  /** The slots after `swap_lists(l1, l2)`: unchanged unless both slot indices exist and differ. */
  function ListsExchanged(slots: seq<Slot>, l1: TreeLocation, l2: TreeLocation): (r: seq<Slot>)
    ensures |r| == |slots|
  {
    if l1.slot != l2.slot && l1.slot < |slots| && l2.slot < |slots| then SwappedLists(slots, l1.slot, l2.slot)
    else slots
  }

  /** Swapping twice restores the slots. */
  lemma {:induction false} SwapTwice(slots: seq<Slot>, a: nat, b: nat)
    requires a < |slots| && b < |slots|
    ensures SwappedLists(SwappedLists(slots, a, b), a, b) == slots
  {
    var r := SwappedLists(SwappedLists(slots, a, b), a, b);
    assert forall k | 0 <= k < |slots| :: r[k] == slots[k];
  }

  /** Swapping lists keeps every item id, each as often as before. */
  lemma {:induction false} SwapKeepsIds(slots: seq<Slot>, a: nat, b: nat)
    requires a < |slots| && b < |slots|
    ensures multiset(AllTodoIds(SwappedLists(slots, a, b))) == multiset(AllTodoIds(slots))
  {
    var s1 := SetList(slots, a, slots[b].list);
    assert s1[b].list == slots[b].list;
    SetListIds(slots, a, slots[b].list);
    SetListIds(s1, b, slots[a].list);
    Cancel(multiset(AllTodoIds(SwappedLists(slots, a, b))), multiset(AllTodoIds(slots)),
           multiset(TodoIds(slots[b].list.todos)));
  }

  // ---------------------------------------------------------------------
  // Distinct ids

  /**
   * The ids the board hands out: slot ids, list ids and item ids each of
   * their own kind, and no slot id, list id or item id twice.
   */
  ghost predicate DistinctIds(slots: seq<Slot>)
  {
    && NoDuplicates(ListOptions(slots)) && NoDuplicates(ListIds(slots)) && NoDuplicates(AllTodoIds(slots))
    && (forall i | 0 <= i < |slots| :: slots[i].id.SlotId? && slots[i].list.id.ListId?)
    && (forall x | x in AllTodoIds(slots) :: x.TodoId?)
  }

  /** `b` has the slots of `a`, each with the same slot id and list id. */
  predicate SameContainers(a: seq<Slot>, b: seq<Slot>)
  {
    |a| == |b| && forall k | 0 <= k < |a| :: a[k].id == b[k].id && a[k].list.id == b[k].list.id
  }

  /** Item `j` of slot `i` sits in `AllTodoIds` after the items of the slots before `i`. */
  lemma {:induction false} TodoPosition(slots: seq<Slot>, i: nat, j: nat)
    requires i < |slots| && j < |slots[i].list.todos|
    ensures |AllTodoIds(slots[..i])| + j < |AllTodoIds(slots)|
    ensures AllTodoIds(slots)[|AllTodoIds(slots[..i])| + j] == slots[i].list.todos[j].id
  {
    assert slots == slots[..i] + slots[i..];
    AllTodoIdsAppend(slots[..i], slots[i..]);
    assert slots[i..][0] == slots[i];
  }

  /** The items of slot `i` come before those of any later slot `k`. */
  lemma {:induction false} OffsetGrows(slots: seq<Slot>, i: nat, k: nat)
    requires i < k <= |slots|
    ensures |AllTodoIds(slots[..i])| + |slots[i].list.todos| <= |AllTodoIds(slots[..k])|
  {
    assert slots[..k] == slots[..i] + slots[i..k];
    AllTodoIdsAppend(slots[..i], slots[i..k]);
    assert slots[i..k][0] == slots[i];
  }

  /** Two items with the same id, in a tree with distinct ids, are one item. */
  lemma {:induction false} SameItemId(slots: seq<Slot>, a: TreeLocation, b: TreeLocation)
    requires DistinctIds(slots) && Resolves(slots, a) && Resolves(slots, b)
    requires a.element.TodoElem? && b.element.TodoElem? && IdAt(slots, a) == IdAt(slots, b)
    ensures a == b
  {
    if a != b {
      ItemIdsApart(slots, a, b);
    }
  }

  /** When no item id repeats, two different items have different ids. */
  lemma {:induction false} ItemIdsApart(slots: seq<Slot>, a: TreeLocation, b: TreeLocation)
    requires NoDuplicates(AllTodoIds(slots)) && Resolves(slots, a) && Resolves(slots, b)
    requires a.element.TodoElem? && b.element.TodoElem? && a != b
    ensures IdAt(slots, a) != IdAt(slots, b)
  {
    var ja, jb := a.element.index, b.element.index;
    var all := AllTodoIds(slots);
    TodoPosition(slots, a.slot, ja);
    TodoPosition(slots, b.slot, jb);
    var pa, pb := |AllTodoIds(slots[..a.slot])| + ja, |AllTodoIds(slots[..b.slot])| + jb;
    if a.slot < b.slot {
      OffsetGrows(slots, a.slot, b.slot);
      NoDuplicatesDistinct(all, pa, pb);
    } else if b.slot < a.slot {
      OffsetGrows(slots, b.slot, a.slot);
      NoDuplicatesDistinct(all, pb, pa);
    } else if ja < jb {
      NoDuplicatesDistinct(all, pa, pb);
    } else if jb < ja {
      NoDuplicatesDistinct(all, pb, pa);
    }
  }

  /** Two locations with the same id, in a tree with distinct ids, are one location. */
  lemma {:induction false} SameIdSameLocation(slots: seq<Slot>, a: TreeLocation, b: TreeLocation)
    requires DistinctIds(slots) && Resolves(slots, a) && Resolves(slots, b)
    requires IdAt(slots, a) == IdAt(slots, b)
    ensures a == b
  {
    if a.element.TodoElem? {
      AllTodoIdsComplete(slots, a);
    }
    if b.element.TodoElem? {
      AllTodoIdsComplete(slots, b);
    }
    if a.element.TodoElem? && b.element.TodoElem? {
      SameItemId(slots, a, b);
    } else if a.element.SlotElem? && b.element.SlotElem? {
      if a.slot < b.slot {
        NoDuplicatesDistinct(ListOptions(slots), a.slot, b.slot);
      } else if b.slot < a.slot {
        NoDuplicatesDistinct(ListOptions(slots), b.slot, a.slot);
      }
    } else if a.element.ListElem? && b.element.ListElem? {
      if a.slot < b.slot {
        NoDuplicatesDistinct(ListIds(slots), a.slot, b.slot);
      } else if b.slot < a.slot {
        NoDuplicatesDistinct(ListIds(slots), b.slot, a.slot);
      }
    }
  }

  /** Distinct ids make every id name at most one location. */
  lemma {:induction false} DistinctIdsUnique(slots: seq<Slot>)
    requires DistinctIds(slots)
    ensures UniqueIds(slots)
  {
    forall a, b | Resolves(slots, a) && Resolves(slots, b) && IdAt(slots, a) == IdAt(slots, b)
      ensures a == b
    {
      SameIdSameLocation(slots, a, b);
    }
  }

  /**
   * Ids stay distinct when the slot ids and list ids are the same ones, each
   * as often as before, and the item ids are some of the old ones.
   */
  lemma {:induction false} DistinctIdsByCounts(a: seq<Slot>, b: seq<Slot>)
    requires DistinctIds(a)
    requires multiset(ListOptions(b)) == multiset(ListOptions(a)) && multiset(ListIds(b)) == multiset(ListIds(a))
    requires multiset(AllTodoIds(b)) <= multiset(AllTodoIds(a))
    ensures DistinctIds(b)
  {
    forall i | 0 <= i < |b| ensures b[i].id.SlotId? && b[i].list.id.ListId? {
      assert ListOptions(b)[i] in multiset(ListOptions(a));
      assert ListIds(b)[i] in multiset(ListIds(a));
    }
    forall x | x in AllTodoIds(b) ensures x.TodoId? && multiset(AllTodoIds(b))[x] == 1 {
      assert x in multiset(AllTodoIds(a));
    }
  }

  /** A change that keeps the slots and lists and loses or adds no item id keeps the ids distinct. */
  lemma {:induction false} DistinctIdsKept(a: seq<Slot>, b: seq<Slot>)
    requires DistinctIds(a) && SameContainers(a, b) && multiset(AllTodoIds(b)) <= multiset(AllTodoIds(a))
    ensures DistinctIds(b)
  {
    assert ListOptions(b) == ListOptions(a);
    assert ListIds(b) == ListIds(a);
    DistinctIdsByCounts(a, b);
  }

  /** Adding one item whose id is a new item id keeps the ids distinct. */
  lemma {:induction false} DistinctIdsFresh(a: seq<Slot>, b: seq<Slot>, x: Id)
    requires DistinctIds(a) && SameContainers(a, b) && x.TodoId? && x !in AllTodoIds(a)
    requires multiset(AllTodoIds(b)) == multiset(AllTodoIds(a)) + multiset{x}
    ensures DistinctIds(b)
  {
    assert ListOptions(b) == ListOptions(a);
    assert ListIds(b) == ListIds(a);
    forall y | y in AllTodoIds(b) ensures y.TodoId? && multiset(AllTodoIds(b))[y] == 1 {
      assert y in multiset(AllTodoIds(b));
      if y != x {
        assert y in multiset(AllTodoIds(a));
      }
    }
  }

  /** Exchanging two slots' lists keeps the ids distinct. */
  lemma {:induction false} DistinctIdsSwapped(slots: seq<Slot>, a: nat, b: nat)
    requires DistinctIds(slots) && a < |slots| && b < |slots|
    ensures DistinctIds(SwappedLists(slots, a, b))
  {
    var r := SwappedLists(slots, a, b);
    var ls := ListIds(slots);
    assert ListOptions(r) == ListOptions(slots);
    assert ListIds(r) == ls[a := ls[b]][b := ls[a]];
    SwapKeepsIds(slots, a, b);
    DistinctIdsByCounts(slots, r);
  }

  // ---------------------------------------------------------------------
  // The tree itself

  class TreeData {
    var slots: seq<Slot>

    constructor (slots: seq<Slot>)
      ensures this.slots == slots
    {
      this.slots := slots;
    }

    /** `find`, scanning slot by slot and returning at the first hit. */
    method Find(id: Id) returns (r: Option<TreeLocation>)
      ensures r == FindIn(slots, id)
    {
      var i := 0;
      while i < |slots|
        invariant 0 <= i <= |slots|
        invariant FindIn(slots, id) == FindFrom(slots, id, i)
      {
        var slot := slots[i];
        if slot.id == id {
          return Some(TreeLocation(i, SlotElem));
        }
        if slot.list.id == id {
          return Some(TreeLocation(i, ListElem));
        }
        var j := 0;
        while j < |slot.list.todos|
          invariant 0 <= j <= |slot.list.todos|
          invariant FindTodoFrom(slot.list.todos, id, 0) == FindTodoFrom(slot.list.todos, id, j)
        {
          if slot.list.todos[j].id == id {
            return Some(TreeLocation(i, TodoElem(j)));
          }
          j := j + 1;
        }
        i := i + 1;
      }
      return None;
    }

    /** `slot_mut(i).set_highlight(b)`; the index must exist. */
    method SetSlotHighlight(i: nat, b: bool)
      requires i < |slots|
      modifies this
      ensures slots == WithFlag(old(slots), TreeLocation(i, SlotElem), b)
    {
      slots := slots[i := slots[i].(highlight := b)];
    }

    /** `list_mut(loc).set_highlight(b)`: the list of the location's slot, whatever the element. */
    method SetListHighlight(loc: TreeLocation, b: bool)
      requires loc.slot < |slots|
      modifies this
      ensures slots == WithFlag(old(slots), TreeLocation(loc.slot, ListElem), b)
    {
      var s := slots[loc.slot];
      slots := slots[loc.slot := s.(list := s.list.(highlight := b))];
    }

    /** `if let Some(t) = todo_mut(loc) { t.set_highlight(b) }`. */
    method SetTodoHighlight(loc: TreeLocation, b: bool)
      requires TodoIndexable(slots, loc)
      modifies this
      ensures slots == if loc.element.TodoElem? then WithFlag(old(slots), loc, b) else old(slots)
    {
      if loc.element.TodoElem? {
        var s := slots[loc.slot];
        var j := loc.element.index;
        slots := slots[loc.slot := s.(list := s.list.(todos := s.list.todos[j := s.list.todos[j].(highlight := b)]))];
      }
    }

    /** Writes the item at a `Todo` location back; the other locations reach no item. */
    method SetTodo(loc: TreeLocation, t: Todo)
      requires loc.element.TodoElem? && Resolves(slots, loc)
      modifies this
      ensures slots == SetList(old(slots), loc.slot,
                               old(slots)[loc.slot].list.(todos := old(slots)[loc.slot].list.todos[loc.element.index := t]))
    {
      var s := slots[loc.slot];
      slots := slots[loc.slot := s.(list := s.list.(todos := s.list.todos[loc.element.index := t]))];
    }

    /** Writes the list of a slot back, as done through `list_mut`. */
    method PutList(i: nat, l: List)
      requires i < |slots|
      modifies this
      ensures slots == SetList(old(slots), i, l)
    {
      slots := slots[i := slots[i].(list := l)];
    }

    /** `list_mut(loc).remove(loc)`. */
    method RemoveTodo(loc: TreeLocation) returns (r: Option<Todo>)
      requires loc.slot < |slots| && TodoIndexable(slots, loc)
      modifies this
      ensures r == old(slots)[loc.slot].list.Remove(loc).0
      ensures slots == SetList(old(slots), loc.slot, old(slots)[loc.slot].list.Remove(loc).1)
    {
      var res := slots[loc.slot].list.Remove(loc);
      r := res.0;
      PutList(loc.slot, res.1);
    }

    /** `list_mut(loc).push(t)`. */
    method PushTodo(loc: TreeLocation, t: Todo)
      requires loc.slot < |slots|
      modifies this
      ensures slots == SetList(old(slots), loc.slot, old(slots)[loc.slot].list.Push(t))
    {
      PutList(loc.slot, slots[loc.slot].list.Push(t));
    }

    /** `list_mut(loc).insert(t, index)`; `Vec::insert` panics past the end. */
    method InsertTodo(loc: TreeLocation, t: Todo, index: nat)
      requires loc.slot < |slots| && index <= |slots[loc.slot].list.todos|
      modifies this
      ensures slots == SetList(old(slots), loc.slot, old(slots)[loc.slot].list.Insert(t, index))
    {
      PutList(loc.slot, slots[loc.slot].list.Insert(t, index));
    }

    /** `list_mut(from).move_todo(from, to)`. */
    method MoveTodo(from: TreeLocation, to: TreeLocation)
      requires from.slot < |slots|
      requires from.element.TodoElem? && to.element.TodoElem? ==>
                 CanMove(|slots[from.slot].list.todos|, from.element.index, to.element.index)
      modifies this
      ensures slots == SetList(old(slots), from.slot, old(slots)[from.slot].list.MoveTodo(from, to))
    {
      PutList(from.slot, slots[from.slot].list.MoveTodo(from, to));
    }

    /** `list_mut(loc).todo_adder.text = text`. */
    method SetAdderText(loc: TreeLocation, text: string)
      requires loc.slot < |slots|
      modifies this
      ensures slots == SetList(old(slots), loc.slot,
                               old(slots)[loc.slot].list.(adder := old(slots)[loc.slot].list.adder.(text := text)))
    {
      var l := slots[loc.slot].list;
      PutList(loc.slot, l.(adder := l.adder.(text := text)));
    }

    /** `swap_lists`: nothing happens unless the two slot indices differ and both exist. */
    method SwapLists(l1: TreeLocation, l2: TreeLocation)
      modifies this
      ensures slots == ListsExchanged(old(slots), l1, l2)
    {
      if l1.slot == l2.slot || l1.slot >= |slots| || l2.slot >= |slots| {
        return;
      }
      var a := slots[l1.slot].list;
      var b := slots[l2.slot].list;
      PutList(l1.slot, b);
      PutList(l2.slot, a);
    }
  }
}

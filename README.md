# iced_drop: drop-zone discovery and the to-do board, in Dafny

iced_drop adds drag and drop to the iced GUI library. A `droppable` widget
reports drag events. The application then runs the widget operation
`find_zones` over the widget tree, which collects the identified containers
whose bounds pass a filter: the drop zones.

This project models two things:

- The zone-discovery operation, `FindDropZone`, in `src/widget/operation/drop.rs`.
- The core of the to-do board example in `examples/todo/src`, in four parts:
  - the board's tree of slots, lists and items (`tree.rs`);
  - the drag highlight logic (`highlight.rs`);
  - the operation that exchanges two widgets' states (`operation.rs`);
  - the drag, drop and editing arms of the board's `update` (`main.rs`).

The modules:

| file | module | models |
|---|---|---|
| `geometry.dfy` | `Geometry` | rectangles and vectors, and the intersection area |
| `widget.dfy` | `Widget` | widget ids and the widget tree an operation walks |
| `drop.dfy` | `Drop` | `FindDropZone`, as a class, and its effect as the functions `Walk`/`WalkAll` |
| `drop_facts.dfy` | `DropFacts` | invariants of discovery, the depth cut-off, and the exact zones found without a depth limit |
| `drop_intended.dfy` | `DropIntended` | discovery with depth and offset kept per branch, and the two counterexamples |
| `seqs.dfy` | `Seqs` | `Vec::remove` and `Vec::insert` on sequences |
| `tree.dfy` | `Tree` | locations, `Todo`, `List` and `Slot` as values, and `TreeData` as a class |
| `highlight.dfy` | `Highlights` | `Highlight`, `zones_found`, `should_update_droppable`, `zone_update`, `set_hovered` |
| `operation.dfy` | `Operation` | `FindTargets` and `SwapModify`, and the two-phase state exchange |
| `board_rules.dfy` | `BoardRules` | `map_zones`, the effect of a drop on the tree, and writing a new item |
| `board.dfy` | `Board` | `TodoBoard`; one `…Step` function and one method per arm of `update` |
| `board_facts.dfy` | `BoardFacts` | what the arms guarantee |

Owned Rust structs become datatypes; a `&mut` through `TreeData`
becomes a method that stores the updated value back. Each class method is
proved to reach exactly the state its specification function gives. The
properties are lemmas about those functions.

The board's invariant (`Board.Invariant`, held by `TodoBoard.Valid`) has two
parts. Every item id is below the item counter, so `Todo::new` hands out a
fresh id. Slot, list and item ids are each of their own kind, and none
repeats, so `find` and `map_zones` locate the element a zone belongs to. The
default board has it, and every arm keeps it.

## Model

| member | source | states |
|---|---|---|
| Geometry.Vector.Plus | src/widget/operation/drop.rs:75-77 | the sum differs from the receiver by exactly the added vector on each axis |
| Geometry.Rect.Minus | src/widget/operation/drop.rs:47 | `bounds - offset` moves the rectangle back by the offset and keeps its size |
| Geometry.Rect.IntersectionArea | examples/todo/src/highlight.rs:160-167 | the overlap area is positive exactly when the rectangles intersect; it is 0 otherwise, as for the default rectangle |
| Geometry.Rect.Intersects | examples/todo/src/main.rs:140-145 | the zone filter of both drags: true exactly when the rectangles overlap as open intervals on both axes and both have positive size, so a zero-size dragged rectangle intersects no zone |
| Widget.Size | src/widget/operation/drop.rs:35-62 | every node counts at least one; this is the termination measure of every walk |
| Drop.FindDropZone.constructor | src/widget/operation/drop.rs:81-88 | `find_zones` starts with no zones, depth 0 and offset (0, 0), and keeps the filter, the options and the maximum depth |
| Drop.FindDropZone.Container | src/widget/operation/drop.rs:35-62 | a container with an eligible id whose offset-corrected bounds pass the filter is appended as the next zone; the children are walked unless the counter reached the maximum depth; the result is `Walk` of the container and the invariant holds |
| Drop.FindDropZone.Scrollable | src/widget/operation/drop.rs:68-78 | the translation is added to the offset exactly when the scrollable's bounds pass the filter |
| Drop.FindDropZone.Finish | src/widget/operation/drop.rs:64-66 | returns the zones recorded, one per counter step, each with an allowed id and bounds passing the filter |
| Drop.FindDropZone.Operate | src/widget/operation/drop.rs:35-78 | driving the callbacks over a tree in pre-order reaches `Walk` of the tree and keeps the invariant |
| Drop.FindDropZone.OperateOnChildren | src/widget/operation/drop.rs:59-61 | walking the children one after another reaches `WalkAll` of them |
| Drop.WalkExtends | src/widget/operation/drop.rs:49-50 | a walk only appends zones, and the counter stays equal to the number of zones |
| Drop.WalkAllExtends | src/widget/operation/drop.rs:59-61 | walking a row of children only appends zones, with the counter equal to their number |
| DropFacts.WalkConsistent | src/widget/operation/drop.rs:41-51 | every recorded zone has an allowed id and bounds that pass the filter, whatever the tree |
| DropFacts.WalkAllConsistent | src/widget/operation/drop.rs:59-61 | the same for a row of children |
| DropFacts.CounterNeverDecreases | src/widget/operation/drop.rs:49 | the depth counter is never decremented |
| DropFacts.CounterNeverDecreasesAll | src/widget/operation/drop.rs:49-61 | the same for a row of children |
| DropFacts.DepthCutoff | src/widget/operation/drop.rs:55-61 | once the counter reaches the maximum depth, a container is still recorded but its children are not visited, so at most one zone is added |
| DropFacts.FullWalkIsReplay | src/widget/operation/drop.rs:35-78 | without a depth limit the walk is the pre-order sequence of container and scrollable callbacks |
| DropFacts.FullWalkAllIsReplay | src/widget/operation/drop.rs:59-61 | the same for a row of children, whose events are the concatenation of each child's |
| DropFacts.ReplayAppend | src/widget/operation/drop.rs:35-78 | replaying two callback sequences in a row is replaying their concatenation |
| DropFacts.ReplayCharacterized | src/widget/operation/drop.rs:35-78 | replaying events appends exactly the qualifying containers, advances the counter by their number and adds the translations of the qualifying scrollables to the offset |
| DropFacts.QualifyingMembers | src/widget/operation/drop.rs:41-51 | a zone is found exactly when some container event has its id, an allowed id, and bounds corrected by the offset accumulated before it that pass the filter |
| DropFacts.DiscoveryFrom | src/widget/operation/drop.rs:35-78 | without a depth limit, walking a tree from any state appends exactly its qualifying containers, advances the counter by their number and adds the translations of its qualifying scrollables |
| DropFacts.FullDiscovery | src/widget/operation/drop.rs:35-88 | without a depth limit, discovery from the initial state finds exactly the qualifying containers in pre-order, and the final offset is the sum of the translations of every qualifying scrollable |
| DropIntended.Own | src/widget/operation/drop.rs:41-51 | a container contributes one zone exactly when its id is allowed and its corrected bounds pass the filter |
| DropIntended.SiblingsIndependent | src/widget/operation/drop.rs:9-13 | with depth and offset kept per branch, the zones of a row are the zones of each sibling in order |
| DropIntended.ZonesQualify | src/widget/operation/drop.rs:41-51 | every zone of the per-branch discovery has an allowed id and passing bounds |
| DropIntended.ZonesAllQualify | src/widget/operation/drop.rs:41-51 | the same for a row of siblings |
| DropIntended.ZonesWithinDepth | src/widget/operation/drop.rs:12-13 | at or below the maximum nesting level a subtree contributes at most one zone |
| DropIntended.AgreesWithoutScrollOrLimit | src/widget/operation/drop.rs:35-78 | with no depth limit and no scrollable, the operation as written finds exactly the per-branch zones |
| DropIntended.AgreesAll | src/widget/operation/drop.rs:59-61 | the same for a row of siblings |
| DropIntended.OffsetLeaksToSibling | src/widget/operation/drop.rs:68-78 | as written, a zone after a scrollable sibling is recorded moved by the scrollable's translation |
| DropIntended.OffsetScoped | src/widget/operation/drop.rs:68-78 | with the offset scoped to the scrollable's content, that sibling keeps its bounds |
| DropIntended.DepthSharedAcrossBranches | src/widget/operation/drop.rs:49-57 | as written with depth 2, the nested zone of the second branch is never found |
| DropIntended.DepthPerBranch | src/widget/operation/drop.rs:49-57 | with the depth counted per branch, both nested zones are found |
| DropIntended.ZonesOfParent | src/widget/operation/drop.rs:55-61 | below the limit, a zone with one child contributes itself and then the child's zones one level deeper |
| DropIntended.ZonesOfLeaf | src/widget/operation/drop.rs:41-51 | a container without children contributes only its own zone |
| Seqs.RemoveAt | examples/todo/src/tree.rs:247-253 | `Vec::remove(i)` keeps the prefix, shifts the tail left and is one shorter |
| Seqs.InsertAt | examples/todo/src/tree.rs:259-261 | `Vec::insert(i, x)` puts `x` at `i`, keeps the prefix, shifts the tail right and is one longer |
| Seqs.RemoveAtMultiset | examples/todo/src/tree.rs:247-253 | removing takes exactly one occurrence of the removed element out |
| Seqs.InsertAtMultiset | examples/todo/src/tree.rs:259-261 | inserting adds exactly one occurrence |
| Seqs.InsertRemoved | examples/todo/src/tree.rs:247-261 | re-inserting a removed element where it was restores the sequence |
| Seqs.RemoveInserted | examples/todo/src/tree.rs:247-261 | removing what was just inserted restores the sequence |
| Seqs.Without | examples/todo/src/tree.rs:139-145 | the filter `id != own` keeps exactly the elements other than the dragged id, drops that id and never adds one |
| Tree.NewTodo | examples/todo/src/tree.rs:352-361 | `Todo::new` gives id `todo_n` and input `todo_input_n` for counter value `n`, the text, and neither editing nor highlighted |
| Tree.NewList | examples/todo/src/tree.rs:236-245 | `List::new` gives id `list_n`, an empty adder with input `todo_adder_n`, the title and items, and no highlight |
| Tree.NewSlot | examples/todo/src/tree.rs:176-186 | `Slot::new` gives id `slot_n`, the list and no highlight |
| Tree.List.Remove | examples/todo/src/tree.rs:247-253 | an item location takes out that item and returns it; any other location removes nothing |
| Tree.List.Push | examples/todo/src/tree.rs:255-257 | the item is appended and nothing else changes |
| Tree.List.Insert | examples/todo/src/tree.rs:259-261 | the item is inserted at the index and nothing else changes |
| Tree.List.MoveTodo | examples/todo/src/tree.rs:263-269 | with two item locations, the item is removed and re-inserted at `j - 1` when moving down, at `j` otherwise; any other pair changes nothing |
| Tree.Moved | examples/todo/src/tree.rs:263-269 | the moved item lands at the insert index and the length is kept |
| Tree.MovedMultiset | examples/todo/src/tree.rs:263-269 | a move keeps every item, each as often as before |
| Tree.MovedKeepsOthers | examples/todo/src/tree.rs:263-269 | apart from the moved item, the order of the others is unchanged |
| Tree.MovedBack | examples/todo/src/tree.rs:263-269 | the move can always be undone by a second move |
| Tree.MoveDownExample | examples/todo/src/tree.rs:263-269 | moving the first of five to index 3 gives `[b, c, a, d, e]` |
| Tree.MoveUpExample | examples/todo/src/tree.rs:263-269 | moving the fourth of five to index 0 gives `[d, a, b, c, e]` |
| Tree.RemoveThenInsert | examples/todo/src/tree.rs:247-261 | re-inserting a removed item at its index gives back the list |
| Tree.PushThenRemove | examples/todo/src/tree.rs:247-257 | removing the last item after a push gives back the item and the list |
| Tree.InsertThenRemove | examples/todo/src/tree.rs:247-261 | removing at the index just inserted at gives back the item and the list |
| Tree.TodoAt | examples/todo/src/tree.rs:102-109 | `todo` returns an item exactly for an item location, and it is the item with that location's id |
| Tree.FindTodoFrom | examples/todo/src/tree.rs:79-83 | the inner scan returns the first index from `j` holding the id, or none when no item from `j` has it |
| Tree.FindFrom | examples/todo/src/tree.rs:72-87 | a result exists, has the id and is the first such location in scan order; no result means no location has the id |
| Tree.FindIsInverse | examples/todo/src/tree.rs:72-87 | with unique ids, finding the id of a location gives that location |
| Tree.TreeData.Find | examples/todo/src/tree.rs:72-87 | the nested scan returns exactly `FindIn` of the slots |
| Tree.TodoIds | examples/todo/src/tree.rs:139-145 | one id per item, in order |
| Tree.ListIds | examples/todo/src/tree.rs:147 | one list id per slot, in slot order |
| Tree.ListOptions | examples/todo/src/tree.rs:153-155 | `list_options` is the slot id of every slot, in order |
| Tree.InAllTodoIds | examples/todo/src/tree.rs:137-146 | an id is among the item ids of the tree exactly when some item has it |
| Tree.AllTodoIdsSound | examples/todo/src/tree.rs:137-146 | every collected item id belongs to some item of the tree |
| Tree.AllTodoIdsComplete | examples/todo/src/tree.rs:137-146 | every item's id is collected |
| Tree.TodoOptionsMembers | examples/todo/src/tree.rs:130-150 | `todo_options` is empty for a non-item; otherwise it is every other item id in tree order followed by every list id in slot order |
| Tree.DraggedNeverOffered | examples/todo/src/tree.rs:130-150 | when lists carry list ids, the dragged item's own id is never offered |
| Tree.WithFlag | examples/todo/src/tree.rs:344-348 | `set_highlight` on a slot, list or item keeps the number of slots and every slot id and list id |
| Tree.FlagSet | examples/todo/src/tree.rs:344-348 | setting a flag changes only that flag: every location still resolves to the same id and every other flag is as before |
| Tree.SetListIds | examples/todo/src/tree.rs:93-100 | replacing one slot's list changes the multiset of item ids by exactly the difference between the two lists |
| Tree.SetList | examples/todo/src/tree.rs:93-100 | writing through `list_mut` replaces one slot's list and keeps its id, its flag and every other slot; a list with the old list id keeps every slot id and list id |
| Tree.AllTodoIdsUpdate | examples/todo/src/tree.rs:137-146 | the item ids of the tree are those of the slots before, of the slot, and of the slots after it |
| Tree.SwappedLists | examples/todo/src/tree.rs:120-127 | the two slots' lists are exchanged and slot ids, slot flags and every other slot are kept |
| Tree.ListsExchanged | examples/todo/src/tree.rs:120-127 | `swap_lists` keeps the number of slots |
| Tree.SwapTwice | examples/todo/src/tree.rs:120-127 | swapping twice restores the slots |
| Tree.SwapKeepsIds | examples/todo/src/tree.rs:120-127 | a swap keeps the multiset of item ids |
| Tree.DistinctIdsUnique | examples/todo/src/tree.rs:72-87 | when slot, list and item ids are each of their own kind and none repeats, no id names two locations, so `find` inverts addressing |
| Tree.SameIdSameLocation | examples/todo/src/tree.rs:72-87 | with distinct ids, two locations with the same id are the same location |
| Tree.SameItemId | examples/todo/src/tree.rs:72-87 | with distinct ids, two items with the same id are the same item, even across slots |
| Tree.ItemIdsApart | examples/todo/src/tree.rs:72-87 | when no item id repeats, two different items, in one slot or in two, have different ids |
| Tree.DistinctIdsKept | examples/todo/src/tree.rs:93-100 | a change that keeps every slot id and list id and adds no item id keeps the ids distinct |
| Tree.DistinctIdsFresh | examples/todo/src/tree.rs:352-356 | adding one item with an item id not yet in the tree keeps the ids distinct |
| Tree.DistinctIdsSwapped | examples/todo/src/tree.rs:120-127 | exchanging two slots' lists keeps the ids distinct |
| Tree.TreeData.constructor | examples/todo/src/tree.rs:58-60 | the tree holds the given slots |
| Tree.TreeData.SetSlotHighlight | examples/todo/src/tree.rs:168-172 | `slot_mut(i).set_highlight(b)` sets that slot's flag |
| Tree.TreeData.SetListHighlight | examples/todo/src/tree.rs:228-232 | `list_mut(loc).set_highlight(b)` sets the flag of the location's list, whatever the element |
| Tree.TreeData.SetTodoHighlight | examples/todo/src/tree.rs:111-118 | only an item location has its flag set |
| Tree.TreeData.SetTodo | examples/todo/src/tree.rs:111-118 | writes one item back through `todo_mut` |
| Tree.TreeData.PutList | examples/todo/src/tree.rs:93-100 | stores a list through `list_mut`: the slots become `SetList` of the old slots |
| Tree.TreeData.RemoveTodo | examples/todo/src/tree.rs:247-253 | `list_mut(loc).remove(loc)` returns `List.Remove` and stores the shortened list |
| Tree.TreeData.PushTodo | examples/todo/src/tree.rs:255-257 | stores the list with the item appended |
| Tree.TreeData.InsertTodo | examples/todo/src/tree.rs:259-261 | stores the list with the item inserted |
| Tree.TreeData.MoveTodo | examples/todo/src/tree.rs:263-269 | stores the list after `move_todo` |
| Tree.TreeData.SetAdderText | examples/todo/src/main.rs:211 | sets the adder text of the location's list |
| Tree.TreeData.SwapLists | examples/todo/src/tree.rs:120-127 | the slots become `ListsExchanged`: exchanged when both indices exist and differ, unchanged otherwise |
| Highlights.Dragged | examples/todo/src/highlight.rs:20-29 | the dragged element and bounds are recorded and the hovered zone is kept |
| Highlights.Dropped | examples/todo/src/highlight.rs:69-72 | nothing is dragged or hovered |
| Highlights.SplitMembers | examples/todo/src/highlight.rs:43-56 | the item zones and the other zones partition the zones |
| Highlights.LastMaxIndex | examples/todo/src/highlight.rs:154-169 | `max_by` picks a zone of maximal overlap area, and on a tie the last one |
| Highlights.ZonesFound | examples/todo/src/highlight.rs:32-67 | the split loop returns exactly `ZonesFoundSpec` |
| Highlights.PickedZone | examples/todo/src/highlight.rs:57-64 | the zone picked is one of the reported zones, and an item zone exactly when some reported zone is an item |
| Highlights.ZonesFoundChoice | examples/todo/src/highlight.rs:32-67 | the drag is kept; no zones clears the hover; without a drag nothing else changes; otherwise the hover becomes a reported zone, an item zone whenever one exists, with the largest overlap and strictly larger than every later candidate |
| Highlights.DraggedShouldUpdate | examples/todo/src/highlight.rs:74-89 | on a drag event the droppable is updated exactly when no drag was under way or it is the same element |
| Highlights.ZoneUpdateOf | examples/todo/src/highlight.rs:91-108 | `Replace`, `RemoveHighlight`, `Highlight` and `None` each exactly in their case of old and new hovered zone |
| Highlights.Hovered | examples/todo/src/highlight.rs:110-124 | `set_hovered` keeps the number of slots and every slot id and list id |
| Highlights.ZoneUpdated | examples/todo/src/highlight.rs:135-150 | `ZoneUpdate::update` keeps the number of slots and every slot id and list id |
| Highlights.ZoneUpdatedKeepsIds | examples/todo/src/highlight.rs:135-150 | highlight updates never change the item ids |
| Highlights.SetHovered | examples/todo/src/highlight.rs:110-124 | sets the flag of the hovered slot, list or item |
| Highlights.ApplyZoneUpdate | examples/todo/src/highlight.rs:135-150 | `ZoneUpdate::update` reaches `ZoneUpdated` |
| Highlights.ZoneUpdateFollowsHover | examples/todo/src/highlight.rs:91-150 | after the chosen update, a newly hovered zone is highlighted, a zone no longer hovered is not, and every other flag and every id is as before |
| Operation.StateOfCount | examples/todo/src/operation.rs:53-69 | a target's state is found exactly when some widget with that id carries a state of the type |
| Operation.StateOfCountAll | examples/todo/src/operation.rs:41-69 | the same for a row of widgets |
| Operation.FindCustom | examples/todo/src/operation.rs:53-69 | nothing changes once both are found; otherwise only the copy for `t1`, or else for `t2`, is taken, from a widget with that id |
| Operation.FindDoneStops | examples/todo/src/operation.rs:41-56 | once both states are found, the walk changes nothing |
| Operation.FindDoneStopsAll | examples/todo/src/operation.rs:41-56 | the same for a row of widgets |
| Operation.SameIdNeverSecond | examples/todo/src/operation.rs:60-64 | with `t1 == t2` the second copy is never taken, so no swap is chained |
| Operation.SameIdNeverSecondAll | examples/todo/src/operation.rs:60-64 | the same for a row of widgets |
| Operation.FindLocates | examples/todo/src/operation.rs:41-69 | when each id names at most one widget, the first phase copies exactly those widgets' states |
| Operation.FindLocatesAll | examples/todo/src/operation.rs:41-69 | the same for a row of widgets |
| Operation.NoTargetsUnchanged | examples/todo/src/operation.rs:107-137 | a tree without either target is left unchanged by the rewrite |
| Operation.NoTargetsUnchangedAll | examples/todo/src/operation.rs:107-137 | the same for a row of widgets |
| Operation.SwapRewrites | examples/todo/src/operation.rs:107-137 | the second phase rewrites exactly the target states and sets each met target's flag; stopping early loses nothing |
| Operation.SwapRewritesAll | examples/todo/src/operation.rs:107-137 | the same for a row of widgets |
| Operation.RewrittenStateOf | examples/todo/src/operation.rs:119-137 | a state read after the rewrite is `modify(own, other)` for a target and unchanged otherwise |
| Operation.RewrittenStateOfAll | examples/todo/src/operation.rs:119-137 | the same for a row of widgets |
| Operation.RewrittenAll | examples/todo/src/operation.rs:107-117 | rewriting a row of children keeps their number |
| Operation.StatesExchanged | examples/todo/src/operation.rs:6-151 | with two distinct ids naming one widget each and the board's modifier, both phases together exchange the two states and leave every other state unchanged |
| Operation.FindTargets.constructor | examples/todo/src/operation.rs:144-150 | nothing found yet |
| Operation.FindTargets.Custom | examples/todo/src/operation.rs:53-69 | the copies become `FindCustom` of the callback |
| Operation.FindTargets.Container | examples/todo/src/operation.rs:41-51 | the children are walked unless both states are found |
| Operation.FindTargets.Operate | examples/todo/src/operation.rs:41-69 | walking a tree reaches `FindWalk` |
| Operation.FindTargets.OperateOnChildren | examples/todo/src/operation.rs:41-51 | walking a row of children reaches `FindWalkAll` |
| Operation.FindTargets.Finish | examples/todo/src/operation.rs:71-85 | the second phase is chained exactly when both states were found, carrying the ids, the modifier, both copies and cleared flags |
| Operation.SwapModify.constructor | examples/todo/src/operation.rs:75-83 | the parameters and cleared flags |
| Operation.SwapModify.Custom | examples/todo/src/operation.rs:119-137 | the flags and the new state are `SwapCustom` of the callback |
| Operation.SwapModify.Operate | examples/todo/src/operation.rs:107-137 | walking a tree reaches `SwapWalk`: the flags and the rewritten tree |
| Operation.SwapModify.OperateOnChildren | examples/todo/src/operation.rs:107-117 | walking a row of children reaches `SwapWalkAll` |
| BoardRules.MapZones | examples/todo/src/main.rs:259-270 | no more locations than zones, and every one exists in the tree |
| BoardRules.MapZonesAppend | examples/todo/src/main.rs:259-270 | mapping is done zone by zone, in order |
| BoardRules.MapZonesMembers | examples/todo/src/main.rs:259-270 | a pair is kept exactly when `find` locates some zone's id there, with that zone's bounds |
| BoardRules.MapZonesKeepsAll | examples/todo/src/main.rs:259-270 | every zone is kept exactly when every zone's id is found |
| BoardRules.TodoIdsRemove | examples/todo/src/tree.rs:247-253 | removing an item takes exactly its id out of the list's ids |
| BoardRules.TodoIdsInsert | examples/todo/src/tree.rs:259-261 | inserting adds exactly the item's id |
| BoardRules.TodoIdsPush | examples/todo/src/tree.rs:255-257 | pushing adds exactly the item's id |
| BoardRules.TransferKeepsIds | examples/todo/src/main.rs:281-287 | taking an item from one list and adding it to another keeps the tree's multiset of item ids |
| BoardRules.DroppedOnList | examples/todo/src/main.rs:272-289 | `task_dropped_on_list` keeps the number of slots and every slot id and list id |
| BoardRules.TwoFlagsCleared | examples/todo/src/main.rs:274-277 | clearing two flags keeps every id and leaves both flags false |
| BoardRules.DroppedOnListKeepsIds | examples/todo/src/main.rs:272-289 | dropping on a list loses and duplicates no item |
| BoardRules.DroppedOnListAcross | examples/todo/src/main.rs:272-289 | an item dropped on another slot's list is removed from its list and appended, unhighlighted, to the target; the target list is unhighlighted and no other slot changes |
| BoardRules.DroppedOnTask | examples/todo/src/main.rs:291-310 | `task_dropped_on_task` keeps the number of slots and every slot id and list id |
| BoardRules.DroppedOnTaskKeepsIds | examples/todo/src/main.rs:291-310 | dropping on an item loses and duplicates no item |
| BoardRules.DroppedOnTaskAcross | examples/todo/src/main.rs:291-306 | across slots, the target list becomes its items (the hovered one unhighlighted) with the unhighlighted dragged item inserted at the hovered index; the source list loses exactly the dragged item; nothing else of the two slots and no other slot changes |
| BoardRules.DroppedOnTaskWithin | examples/todo/src/main.rs:291-309 | within a slot, the list, with both items unhighlighted, is rearranged by `move_todo`'s rule (which the move is allowed to make); nothing else of the slot and no other slot changes |
| BoardRules.MovedIds | examples/todo/src/tree.rs:263-269 | a move keeps the multiset of item ids |
| BoardRules.DroppedNowhere | examples/todo/src/main.rs:166-168 | a drop outside every zone keeps the number of slots and every slot id and list id |
| BoardRules.DroppedNowhereDeletes | examples/todo/src/main.rs:166-168 | a drop outside every zone deletes exactly the dragged item, and a non-item changes nothing |
| BoardRules.DropTaskSpec | examples/todo/src/main.rs:157-170 | the drop's effect keeps the number of slots and every slot id and list id |
| BoardRules.DropTaskConserves | examples/todo/src/main.rs:157-170 | a drop on a list, item or slot keeps every item id; a drop outside every zone removes exactly the dragged id, and a drop of a non-item outside every zone changes nothing |
| BoardRules.Written | examples/todo/src/main.rs:213-226 | writing keeps the number of slots and every slot id and list id |
| BoardRules.WrittenAddsFresh | examples/todo/src/main.rs:213-226 | the new item's id is fresh and is the only id added; the ids stay below the advanced counter; the item ends the list with the adder's text and the adder is cleared |
| BoardRules.IdsBelowShrinks | examples/todo/src/main.rs:157-170 | fewer item ids stay below the counter |
| Board.InitialSlots | examples/todo/src/main.rs:57-71 | three slots |
| Board.InitialIsSound | examples/todo/src/main.rs:57-71 | the default board has distinct ids, hence no id naming two elements, and every item id below the counter |
| Board.WithTodo | examples/todo/src/main.rs:122-126 | writing an item keeps the number of slots and which locations exist |
| Board.WithTodoKeepsIds | examples/todo/src/main.rs:122-126 | writing an item with the same id keeps the item ids and every slot id and list id, and writes exactly that item |
| Board.FlagsKeepLocations | examples/todo/src/main.rs:134-143 | highlighting the dragged item keeps it addressable for `task_options` |
| Board.ZonesFoundResolves | examples/todo/src/main.rs:147-156 | when all zones exist, the picked hover exists |
| Board.HoverSurvivesFlag | examples/todo/src/main.rs:228-232 | clearing the dragged item's flag keeps the hovered zone addressable |
| Board.ListDropFlags | examples/todo/src/main.rs:202-206 | `DropList` keeps the number of slots |
| Board.TaskDroppedOnList | examples/todo/src/main.rs:272-289 | the tree becomes `DroppedOnList` of the old tree |
| Board.TaskDroppedOnTask | examples/todo/src/main.rs:291-310 | the tree becomes `DroppedOnTask` of the old tree |
| Board.MoveListToZone | examples/todo/src/main.rs:312-323 | the two lists are exchanged and the command names the two list ids read before the swap |
| Board.InvariantKept | examples/todo/src/main.rs:107-245 | a step that keeps every slot id and list id, adds no item id and keeps the counter keeps the invariant |
| Board.StopEditingKeepsInvariant | examples/todo/src/main.rs:249-256 | `stop_editing_task` keeps the invariant |
| Board.EditTaskKeepsInvariant | examples/todo/src/main.rs:109-121 | `EditTask` keeps the invariant |
| Board.UpdateTaskKeepsInvariant | examples/todo/src/main.rs:122-126 | `UpdateTask` keeps the invariant |
| Board.DragTaskKeepsInvariant | examples/todo/src/main.rs:131-146 | `DragTask` keeps the invariant |
| Board.HandleTaskZonesKeepsInvariant | examples/todo/src/main.rs:147-156 | `HandleTaskZones` keeps the invariant |
| Board.DropTaskKeepsInvariant | examples/todo/src/main.rs:157-170 | `DropTask` keeps the invariant, including the drop that deletes an item |
| Board.SwapKeepsInvariant | examples/todo/src/main.rs:312-323 | exchanging two slots' lists keeps the invariant |
| Board.DragListKeepsInvariant | examples/todo/src/main.rs:173-186 | `DragList` keeps the invariant |
| Board.HandleListZonesKeepsInvariant | examples/todo/src/main.rs:187-201 | `HandleListZones` keeps the invariant, including when it exchanges two lists |
| Board.DropListKeepsInvariant | examples/todo/src/main.rs:202-208 | `DropList` keeps the invariant |
| Board.AdderTextKeepsIds | examples/todo/src/main.rs:209-212 | a new adder text keeps the item ids |
| Board.UpdateTaskWriterKeepsInvariant | examples/todo/src/main.rs:209-212 | `UpdateTaskWriter` keeps the invariant |
| Board.WriteTaskKeepsInvariant | examples/todo/src/main.rs:213-226 | `WriteTask` keeps the invariant: the new item's id is fresh and the counter moves past it |
| Board.TaskDropCanceledKeepsInvariant | examples/todo/src/main.rs:227-235 | `TaskDropCanceled` keeps the invariant |
| Board.ListDropCanceledKeepsInvariant | examples/todo/src/main.rs:236-242 | `ListDropCanceled` keeps the invariant |
| Board.TodoBoard.constructor | examples/todo/src/main.rs:57-71 | the board is `InitialState`: three slots with slot, list and item `i` numbered `i`, no editing, no drag, counter 3; it is valid |
| Board.TodoBoard.StopEditingTask | examples/todo/src/main.rs:249-256 | the board becomes `StopEditingStep`; a valid board stays valid |
| Board.TodoBoard.EditTask | examples/todo/src/main.rs:109-121 | the board and the command are `EditTaskStep`; a valid board stays valid |
| Board.TodoBoard.UpdateTask | examples/todo/src/main.rs:122-126 | the board becomes `UpdateTaskStep`; a valid board stays valid |
| Board.TodoBoard.DragTask | examples/todo/src/main.rs:131-146 | the board and the zone request are `DragTaskStep`; a valid board stays valid |
| Board.TodoBoard.HandleTaskZones | examples/todo/src/main.rs:147-156 | the board becomes `HandleTaskZonesStep`; a valid board stays valid |
| Board.TodoBoard.DropTask | examples/todo/src/main.rs:157-170 | the board becomes `DropTaskStep`; a valid board stays valid |
| Board.TodoBoard.DragList | examples/todo/src/main.rs:173-186 | the board and the zone request are `DragListStep`; a valid board stays valid |
| Board.TodoBoard.HandleListZones | examples/todo/src/main.rs:187-201 | the board and the command are `HandleListZonesStep`; a valid board stays valid |
| Board.TodoBoard.DropList | examples/todo/src/main.rs:202-208 | the board becomes `DropListStep`, as written; a valid board stays valid |
| Board.TodoBoard.UpdateTaskWriter | examples/todo/src/main.rs:209-212 | the board becomes `UpdateTaskWriterStep`; a valid board stays valid |
| Board.TodoBoard.WriteTask | examples/todo/src/main.rs:213-226 | the board and the command are `WriteTaskStep`; a valid board stays valid |
| Board.TodoBoard.TaskDropCanceled | examples/todo/src/main.rs:227-235 | the board becomes `TaskDropCanceledStep`; a valid board stays valid |
| Board.TodoBoard.ListDropCanceled | examples/todo/src/main.rs:236-242 | the board becomes `ListDropCanceledStep`; a valid board stays valid |
| BoardFacts.StopEditingEffect | examples/todo/src/main.rs:249-256 | the stored item stops being edited and is forgotten; a stored non-item location stays stored; nothing else changes |
| BoardFacts.DoubleClickEdits | examples/todo/src/main.rs:109-121 | a first click records the click; a second click on the same item starts editing it and focuses its input exactly when it comes less than 500 ms later |
| BoardFacts.UpdateTaskSetsText | examples/todo/src/main.rs:122-126 | exactly the item's text changes |
| BoardFacts.UpdateTaskWriterSetsText | examples/todo/src/main.rs:209-212 | the adder shows the text, keeps its input and no item id changes |
| BoardFacts.DragTaskRequest | examples/todo/src/main.rs:131-146 | the request asks, with no depth limit, for exactly every other item and every list meeting the dragged bounds; the drag is recorded and a starting drag highlights the item |
| BoardFacts.FlagKeepsOptions | examples/todo/src/main.rs:134-138 | highlighting an item changes no item id, no list id and not its own id |
| BoardFacts.RequestedZonesQualify | examples/todo/src/main.rs:140-145 | every zone discovery reports for a request is on its allow-list and meets the dragged bounds |
| BoardFacts.MapZonesLocatesIds | examples/todo/src/main.rs:259-270 | on a board keeping the invariant, `map_zones` pairs a location with bounds exactly when a reported zone carries that location's id and those bounds |
| BoardFacts.HandleTaskZonesKeepsHover | examples/todo/src/main.rs:147-156 | the hovered zone stays highlighted; items and the drag are kept; no zones means no hover; a new hover is the location of a reported zone |
| BoardFacts.DropTaskKeepsItems | examples/todo/src/main.rs:157-170 | a drop on a zone keeps every item; a drop outside every zone removes exactly the dragged item; the ids stay below the counter; the drag ends |
| BoardFacts.TaskDropCanceledClears | examples/todo/src/main.rs:227-235 | the drag ends with the dragged item and the hovered zone unhighlighted and no item changed |
| BoardFacts.DragListRequest | examples/todo/src/main.rs:173-186 | the request asks for the slots meeting the dragged bounds; a starting drag clears the list's highlight |
| BoardFacts.HandleListZonesExchanges | examples/todo/src/main.rs:187-201 | a swap is requested exactly when the hover is replaced during a drag; then the two lists trade slots and the command names them; no item is lost and the ids stay below the counter |
| BoardFacts.ExchangeFacts | examples/todo/src/main.rs:312-323 | exchanging keeps the item ids and puts each list in the other slot |
| BoardFacts.ListDropCanceledClears | examples/todo/src/main.rs:236-242 | the list drag ends with the dragged list and its slot unhighlighted |
| BoardFacts.DropListLeavesStaleHover | examples/todo/src/main.rs:202-208 | as written, the list highlight state keeps a hovered slot whose highlight was just cleared, and a following report of the same slot leaves it unhighlighted |
| BoardFacts.DropListIntendedResets | examples/todo/src/main.rs:202-208 | resetting the list highlight state leaves nothing hovered, and the next report highlights the slot it hovers without exchanging lists |
| BoardFacts.WriteTaskAddsOne | examples/todo/src/main.rs:213-226 | an empty adder changes nothing; otherwise exactly one item with a fresh id and the adder's text is appended, the adder is cleared and focused, and the counter advances |

## Left out

- Panics (an index out of range in `slot_mut`, `list_mut` or `todo_mut`, `Vec::remove`/`insert`, and the `unwrap` in `task_dropped_on_task`) are modelled as `requires` clauses on the member that would panic; the panicking path itself is not modelled.
- `f32` geometry is modelled with integers. Rounding, NaN and `total_cmp`'s order on NaN are not modelled.
- `Instant` is modelled as a millisecond timestamp `now` passed to `EditTask`. The clock itself is a parameter.
- The global counters `NEXT_SLOT`, `NEXT_LIST` and `NEXT_TODO`:
  - `NEXT_TODO` is the board's `nextTodo`; the other two are used only by `TodoBoard::default`, which numbers 0 to 2.
  - Ids are a category and a number rather than formatted strings such as `todo_3`.
  - Atomicity and threads are not modelled.
- The widget downcast `downcast_mut::<State>()` is modelled as a `Custom` node whose state is `None` when the widget's state has another type.
- The iced runtime that runs a returned `Command` is not modelled:
  - `find_zones`, `text_input::focus` and `swap_modify_states` are returned as `Command` values.
  - `RequestedZonesQualify` ties a `FindZones` command to the discovery model.
  - `StatesExchanged` states what the state exchange does.
- `Operation.SwapModify.Operate`: `SwapModify` writes states into the widgets in place; the model returns the rewritten tree instead.
- `SwapModify::finish` always returns `Outcome::None`, so it has no member.
- The `match` of `update` is not modelled as one member; each arm is its own method and `…Step` function.
- `view`, `title`, `new`, the theme modules, `src/lib.rs` and the color example are left out: they only render or configure.
- `Board.TodoBoard.StopEditingTask`: the stored editing location is not updated when items move. After a drop it can point at another item, or past the end of the list (which panics). The model requires it to still index the tree (`CanStopEditing`) and does not exclude the wrong-item case.
- `BoardRules.CanDropOnTask`: the hovered location must exist even when it is not an item. `DropTask` only calls `task_dropped_on_task` with an item location, where this is exactly the panic condition.
- `BoardFacts.HandleTaskZonesKeepsHover` is proved for item drags only. For list drags, a swap moves list flags between slots, and the hover of a list drag is always a slot.
- `tree.rs` comes from a later revision than `main.rs`. Its views emit `EditTodo`, `DropTodo` and similar messages, while `main.rs` handles `EditTask`, `DropTask` and so on; the model follows the arms of `main.rs` and the names of `tree.rs`. The routing from view to message is not modelled.

## Behaviour worth knowing

Three behaviours of the code that are easy to misread; the model pins each down:

- `move_todo` re-inserts at `j - 1` when moving down, so moving `a` from 0 to 3 in `[a, b, c, d, e]` gives `[b, c, a, d, e]` (`Tree.MoveDownExample`).
- The doc comment of `find_zones` (`src/widget/operation/drop.rs:12`) calls `depth` how deep into nested zones to search. The code keeps one depth counter and one scroll offset for the whole walk, so the count also grows across siblings, not only with nesting (`DropFacts.FullDiscovery`). The nesting reading is `DropIntended`; the first two rows under "## Findings" give both halves.
- `bigggest_intersect_area` uses `max_by`, which on a tie returns the last maximal zone, not the first (`Highlights.LastMaxIndex`).

## Findings

| source | as written | input that shows it | evidently intended | confidence | as-written member | corrected member |
|---|---|---|---|---|---|---|
| src/widget/operation/drop.rs:68-78 | a qualifying scrollable adds its translation to the offset, and nothing ever subtracts it | a row holding a scrollable with translation `t` followed by a zone `(i, r)` outside it: the zone is recorded as `(i, r - t)` | the translation applies only inside the scrollable's content (`DropIntended.Zones`) | medium, not executed | DropIntended.OffsetLeaksToSibling | DropIntended.OffsetScoped |
| src/widget/operation/drop.rs:49-57 | one depth counter counts every zone recorded so far, in every branch | depth 2 and two top-level zones each holding one nested zone: the second nested zone is not visited | `depth` bounds the nesting of zones, counted per branch (`DropIntended.Zones`) | medium, not executed | DropIntended.DepthSharedAcrossBranches | DropIntended.DepthPerBranch |
| examples/todo/src/main.rs:207 | `DropList` resets the item highlight state and keeps the list highlight state | a list drag hovering slot `j`, then `DropList`: slot `j`'s highlight is cleared but it stays hovered, so a next report of slot `j` leaves it unhighlighted | reset the list highlight state, as `ListDropCanceled` does at line 241 (`Board.DropListIntended`) | medium, not executed | BoardFacts.DropListLeavesStaleHover | BoardFacts.DropListIntendedResets |

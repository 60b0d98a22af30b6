/**
 * The widget tree that a widget operation walks, as the layout engine
 * presents it to the operation.
 */
module Widget {
  import opened Wrappers
  import opened Geometry

  /**
   * Widget identities. The application names every slot, list and to-do item
   * from a per-category counter (`slot_<n>`, `list_<n>`, `todo_<n>`), so an
   * identity is a category and a number.
   */
  datatype Id = SlotId(n: nat) | ListId(n: nat) | TodoId(n: nat)

  /**
   * A node of the widget tree.
   *  - `Container`: reported to an operation through `container(id, bounds, ...)`;
   *    its children are visited only if the operation asks for it.
   *  - `Scrollable`: reported through `scrollable(bounds, translation)`; its
   *    content is visited afterwards. A scrollable that also reports itself as a
   *    container is a `Scrollable` whose content is a `Container`.
   *  - `Custom`: a widget handing its state to `custom(state, id)`; `state` is
   *    `None` when the state is of another type than the one the operation
   *    looks for (a failed downcast).
   */
  datatype Widget<S> =
    | Container(id: Option<Id>, bounds: Rect, children: seq<Widget<S>>)
    | Scrollable(bounds: Rect, translation: Vector, content: Widget<S>)
    | Custom(id: Option<Id>, state: Option<S>)

  /** Number of nodes; the termination measure of every walk over the tree. */
  function Size<S>(w: Widget<S>): (n: nat)
    ensures n >= 1
    decreases w
  {
    match w
    case Container(_, _, children) => 1 + SizeAll(children)
    case Scrollable(_, _, content) => 1 + Size(content)
    case Custom(_, _) => 1
  }

  function SizeAll<S>(ws: seq<Widget<S>>): (n: nat)
    decreases ws
  {
    if ws == [] then 0 else Size(ws[0]) + SizeAll(ws[1..])
  }
}

/**
 * The two-phase state swap of the to-do example
 * (examples/todo/src/operation.rs, `swap_modify_states_operation`).
 *
 * A first walk, `FindTargets`, copies the states of the widgets with ids `t1`
 * and `t2`; if it found both, it chains a second walk, `SwapModify`, which
 * overwrites each of the two states with `modify(own, other)`. Widgets whose
 * state is of another type appear as `Custom` nodes with no state. The
 * second walk writes states into the widget tree; here it returns the
 * rewritten tree.
 */
module Operation {
  import opened Wrappers
  import opened Widget

  // ---------------------------------------------------------------------
  // What the tree holds

  /** Number of widgets with id `t` that carry a state of the operation's type. */
  function Count<S>(w: Widget<S>, t: Id): nat
    decreases Size(w), 0
  {
    match w
    case Container(_, _, children) => CountAll(children, t)
    case Scrollable(_, _, content) => Count(content, t)
    case Custom(id, state) => if id == Some(t) && state.Some? then 1 else 0
  }

  function CountAll<S>(ws: seq<Widget<S>>, t: Id): nat
    decreases SizeAll(ws), 1
  {
    if ws == [] then 0 else Count(ws[0], t) + CountAll(ws[1..], t)
  }

  /** The state of the first widget, in walk order, with id `t`. */
  function StateOf<S>(w: Widget<S>, t: Id): Option<S>
    decreases Size(w), 0
  {
    match w
    case Container(_, _, children) => StateOfAll(children, t)
    case Scrollable(_, _, content) => StateOf(content, t)
    case Custom(id, state) => if id == Some(t) then state else None
  }

  function StateOfAll<S>(ws: seq<Widget<S>>, t: Id): Option<S>
    decreases SizeAll(ws), 1
  {
    if ws == [] then None
    else if StateOf(ws[0], t).Some? then StateOf(ws[0], t)
    else StateOfAll(ws[1..], t)
  }

  /** A widget with id `t` has a state exactly when at least one is counted. */
  lemma {:induction false} StateOfCount<S>(w: Widget<S>, t: Id)
    ensures StateOf(w, t).Some? <==> Count(w, t) > 0
    decreases Size(w), 0
  {
    match w
    case Container(_, _, children) => StateOfCountAll(children, t);
    case Scrollable(_, _, content) => StateOfCount(content, t);
    case Custom(_, _) =>
  }

  lemma {:induction false} StateOfCountAll<S>(ws: seq<Widget<S>>, t: Id)
    ensures StateOfAll(ws, t).Some? <==> CountAll(ws, t) > 0
    decreases SizeAll(ws), 1
  {
    if ws != [] {
      StateOfCount(ws[0], t);
      StateOfCountAll(ws[1..], t);
    }
  }

  // ---------------------------------------------------------------------
  // First phase: finding the two states

  /** The two copies `FindTargets` holds. */
  datatype Found<S> = Found(s1: Option<S>, s2: Option<S>)
  {
    predicate Done()
    {
      s1.Some? && s2.Some?
    }
  }

  /** `FindTargets::custom`: nothing once both are found; a copy for `t1`, else for `t2`. */
  function FindCustom<S>(t1: Id, t2: Id, f: Found<S>, id: Option<Id>, state: Option<S>): (r: Found<S>)
    ensures f.Done() ==> r == f
    ensures r.s1 == f.s1 || (id == Some(t1) && r.s1 == state && state.Some?)
    ensures r.s2 == f.s2 || (id == Some(t2) && id != Some(t1) && r.s2 == state && state.Some?)
  {
    if f.Done() then f
    else match (id, state)
      case (Some(i), Some(s)) =>
        if i == t1 then f.(s1 := Some(s))
        else if i == t2 then f.(s2 := Some(s))
        else f
      case _ => f
  }

  /** The copies after `FindTargets` has walked `w`. */
  function FindWalk<S>(t1: Id, t2: Id, f: Found<S>, w: Widget<S>): Found<S>
    decreases Size(w), 0
  {
    match w
    case Container(_, _, children) => if f.Done() then f else FindWalkAll(t1, t2, f, children)
    case Scrollable(_, _, content) => FindWalk(t1, t2, f, content)
    case Custom(id, state) => FindCustom(t1, t2, f, id, state)
  }

  function FindWalkAll<S>(t1: Id, t2: Id, f: Found<S>, ws: seq<Widget<S>>): Found<S>
    decreases SizeAll(ws), 1
  {
    if ws == [] then f else FindWalkAll(t1, t2, FindWalk(t1, t2, f, ws[0]), ws[1..])
  }

  /** Once both states are found, the walk changes nothing. */
  lemma {:induction false} FindDoneStops<S>(t1: Id, t2: Id, f: Found<S>, w: Widget<S>)
    requires f.Done()
    ensures FindWalk(t1, t2, f, w) == f
    decreases Size(w), 0
  {
    match w
    case Container(_, _, _) =>
    case Scrollable(_, _, content) => FindDoneStops(t1, t2, f, content);
    case Custom(_, _) =>
  }

  lemma {:induction false} FindDoneStopsAll<S>(t1: Id, t2: Id, f: Found<S>, ws: seq<Widget<S>>)
    requires f.Done()
    ensures FindWalkAll(t1, t2, f, ws) == f
    decreases SizeAll(ws), 1
  {
    if ws != [] {
      FindDoneStops(t1, t2, f, ws[0]);
      FindDoneStopsAll(t1, t2, f, ws[1..]);
    }
  }

  /** With `t1 == t2` the second copy is never taken, so the swap is never chained. */
  lemma {:induction false} SameIdNeverSecond<S>(t: Id, f: Found<S>, w: Widget<S>)
    requires f.s2.None?
    ensures FindWalk(t, t, f, w).s2.None?
    decreases Size(w), 0
  {
    match w
    case Container(_, _, children) => SameIdNeverSecondAll(t, f, children);
    case Scrollable(_, _, content) => SameIdNeverSecond(t, f, content);
    case Custom(_, _) =>
  }

  lemma {:induction false} SameIdNeverSecondAll<S>(t: Id, f: Found<S>, ws: seq<Widget<S>>)
    requires f.s2.None?
    ensures FindWalkAll(t, t, f, ws).s2.None?
    decreases SizeAll(ws), 1
  {
    if ws != [] {
      SameIdNeverSecond(t, f, ws[0]);
      SameIdNeverSecondAll(t, FindWalk(t, t, f, ws[0]), ws[1..]);
    }
  }

  /**
   * When each of two different ids names at most one widget, the walk copies
   * exactly the states of those widgets; a copy already held is kept only
   * when its widget is not in the walked part.
   */
  lemma {:induction false} FindLocates<S>(t1: Id, t2: Id, f: Found<S>, w: Widget<S>)
    requires t1 != t2
    requires Count(w, t1) <= 1 && Count(w, t2) <= 1
    requires f.s1.Some? ==> Count(w, t1) == 0
    requires f.s2.Some? ==> Count(w, t2) == 0
    ensures FindWalk(t1, t2, f, w) ==
            Found(if Count(w, t1) == 1 then StateOf(w, t1) else f.s1,
                  if Count(w, t2) == 1 then StateOf(w, t2) else f.s2)
    decreases Size(w), 0
  {
    match w
    case Container(_, _, children) =>
      if !f.Done() {
        FindLocatesAll(t1, t2, f, children);
      }
    case Scrollable(_, _, content) => FindLocates(t1, t2, f, content);
    case Custom(_, _) =>
  }

  lemma {:induction false} FindLocatesAll<S>(t1: Id, t2: Id, f: Found<S>, ws: seq<Widget<S>>)
    requires t1 != t2
    requires CountAll(ws, t1) <= 1 && CountAll(ws, t2) <= 1
    requires f.s1.Some? ==> CountAll(ws, t1) == 0
    requires f.s2.Some? ==> CountAll(ws, t2) == 0
    ensures FindWalkAll(t1, t2, f, ws) ==
            Found(if CountAll(ws, t1) == 1 then StateOfAll(ws, t1) else f.s1,
                  if CountAll(ws, t2) == 1 then StateOfAll(ws, t2) else f.s2)
    decreases SizeAll(ws), 1
  {
    if ws != [] {
      FindLocates(t1, t2, f, ws[0]);
      StateOfCount(ws[0], t1);
      StateOfCount(ws[0], t2);
      FindLocatesAll(t1, t2, FindWalk(t1, t2, f, ws[0]), ws[1..]);
    }
  }

  // ---------------------------------------------------------------------
  // Second phase: overwriting the two states

  /** What `SwapModify` is chained with: the two ids, `modify`, and the two copies. */
  datatype Swap<!S> = Swap(t1: Id, t2: Id, modifier: (S, S) -> S, s1: S, s2: S)

  /** `swapped_t1` and `swapped_t2`. */
  datatype Flags = Flags(t1: bool, t2: bool)
  {
    predicate Done()
    {
      t1 && t2
    }
  }

  /** `SwapModify::custom`: the flags and the widget's state after the call. */
  function SwapCustom<S>(op: Swap<S>, fl: Flags, id: Option<Id>, state: Option<S>): (Flags, Option<S>)
  {
    if fl.Done() then (fl, state)
    else match (id, state)
      case (Some(i), Some(s)) =>
        if i == op.t1 then (fl.(t1 := true), Some(op.modifier(s, op.s2)))
        else if i == op.t2 then (fl.(t2 := true), Some(op.modifier(s, op.s1)))
        else (fl, state)
      case _ => (fl, state)
  }

  /** The flags and the rewritten tree after `SwapModify` has walked `w`. */
  function SwapWalk<S>(op: Swap<S>, fl: Flags, w: Widget<S>): (Flags, Widget<S>)
    decreases Size(w), 0
  {
    match w
    case Container(id, bounds, children) =>
      if fl.Done() then (fl, w)
      else
        var r := SwapWalkAll(op, fl, children);
        (r.0, Widget.Container(id, bounds, r.1))
    case Scrollable(bounds, translation, content) =>
      var r := SwapWalk(op, fl, content);
      (r.0, Widget.Scrollable(bounds, translation, r.1))
    case Custom(id, state) =>
      var r := SwapCustom(op, fl, id, state);
      (r.0, Widget.Custom(id, r.1))
  }

  function SwapWalkAll<S>(op: Swap<S>, fl: Flags, ws: seq<Widget<S>>): (Flags, seq<Widget<S>>)
    decreases SizeAll(ws), 1
  {
    if ws == [] then (fl, [])
    else
      var r0 := SwapWalk(op, fl, ws[0]);
      var rs := SwapWalkAll(op, r0.0, ws[1..]);
      (rs.0, [r0.1] + rs.1)
  }

  /** The new state of a widget with id `id`: `modify(own, other)` for the two targets, the old one otherwise. */
  function Rewrite<S>(op: Swap<S>, id: Option<Id>, state: Option<S>): Option<S>
  {
    match (id, state)
    case (Some(i), Some(s)) =>
      if i == op.t1 then Some(op.modifier(s, op.s2))
      else if i == op.t2 then Some(op.modifier(s, op.s1))
      else state
    case _ => state
  }

  /** The tree with every target's state rewritten and everything else as it was. */
  function Rewritten<S>(op: Swap<S>, w: Widget<S>): Widget<S>
    decreases Size(w), 0
  {
    match w
    case Container(id, bounds, children) => Widget.Container(id, bounds, RewrittenAll(op, children))
    case Scrollable(bounds, translation, content) => Widget.Scrollable(bounds, translation, Rewritten(op, content))
    case Custom(id, state) => Widget.Custom(id, Rewrite(op, id, state))
  }

  function RewrittenAll<S>(op: Swap<S>, ws: seq<Widget<S>>): (r: seq<Widget<S>>)
    ensures |r| == |ws|
    decreases SizeAll(ws), 1
  {
    if ws == [] then [] else [Rewritten(op, ws[0])] + RewrittenAll(op, ws[1..])
  }

  lemma {:induction false} NoTargetsUnchanged<S>(op: Swap<S>, w: Widget<S>)
    requires Count(w, op.t1) == 0 && Count(w, op.t2) == 0
    ensures Rewritten(op, w) == w
    decreases Size(w), 0
  {
    match w
    case Container(_, _, children) => NoTargetsUnchangedAll(op, children);
    case Scrollable(_, _, content) => NoTargetsUnchanged(op, content);
    case Custom(_, _) =>
  }

  lemma {:induction false} NoTargetsUnchangedAll<S>(op: Swap<S>, ws: seq<Widget<S>>)
    requires CountAll(ws, op.t1) == 0 && CountAll(ws, op.t2) == 0
    ensures RewrittenAll(op, ws) == ws
    decreases SizeAll(ws), 1
  {
    if ws != [] {
      NoTargetsUnchanged(op, ws[0]);
      NoTargetsUnchangedAll(op, ws[1..]);
      assert ws == [ws[0]] + ws[1..];
    }
  }

  /**
   * When each id names at most one widget, `SwapModify` rewrites exactly the
   * target widgets' states and sets the flag of each target it met; the early
   * stop loses nothing because no target is left once both flags are set.
   */
  lemma {:induction false} SwapRewrites<S>(op: Swap<S>, fl: Flags, w: Widget<S>)
    requires Count(w, op.t1) <= 1 && Count(w, op.t2) <= 1
    requires fl.t1 ==> Count(w, op.t1) == 0
    requires fl.t2 ==> Count(w, op.t2) == 0
    ensures SwapWalk(op, fl, w).1 == Rewritten(op, w)
    ensures SwapWalk(op, fl, w).0 ==
            Flags(fl.t1 || Count(w, op.t1) == 1, fl.t2 || (op.t2 != op.t1 && Count(w, op.t2) == 1))
    decreases Size(w), 0
  {
    match w
    case Container(_, _, children) =>
      if fl.Done() {
        NoTargetsUnchanged(op, w);
      } else {
        SwapRewritesAll(op, fl, children);
      }
    case Scrollable(_, _, content) => SwapRewrites(op, fl, content);
    case Custom(_, _) =>
  }

  lemma {:induction false} SwapRewritesAll<S>(op: Swap<S>, fl: Flags, ws: seq<Widget<S>>)
    requires CountAll(ws, op.t1) <= 1 && CountAll(ws, op.t2) <= 1
    requires fl.t1 ==> CountAll(ws, op.t1) == 0
    requires fl.t2 ==> CountAll(ws, op.t2) == 0
    ensures SwapWalkAll(op, fl, ws).1 == RewrittenAll(op, ws)
    ensures SwapWalkAll(op, fl, ws).0 ==
            Flags(fl.t1 || CountAll(ws, op.t1) == 1, fl.t2 || (op.t2 != op.t1 && CountAll(ws, op.t2) == 1))
    decreases SizeAll(ws), 1
  {
    if ws != [] {
      SwapRewrites(op, fl, ws[0]);
      SwapRewritesAll(op, SwapWalk(op, fl, ws[0]).0, ws[1..]);
    }
  }

  /** Reading a state back after the rewrite. */
  lemma {:induction false} RewrittenStateOf<S>(op: Swap<S>, w: Widget<S>, t: Id)
    ensures StateOf(Rewritten(op, w), t) == Rewrite(op, Some(t), StateOf(w, t))
    decreases Size(w), 0
  {
    match w
    case Container(_, _, children) => RewrittenStateOfAll(op, children, t);
    case Scrollable(_, _, content) => RewrittenStateOf(op, content, t);
    case Custom(_, _) =>
  }

  lemma {:induction false} RewrittenStateOfAll<S>(op: Swap<S>, ws: seq<Widget<S>>, t: Id)
    ensures StateOfAll(RewrittenAll(op, ws), t) == Rewrite(op, Some(t), StateOfAll(ws, t))
    decreases SizeAll(ws), 1
  {
    if ws != [] {
      RewrittenStateOf(op, ws[0], t);
      RewrittenStateOfAll(op, ws[1..], t);
      assert RewrittenAll(op, ws)[0] == Rewritten(op, ws[0]);
      assert RewrittenAll(op, ws)[1..] == RewrittenAll(op, ws[1..]);
    }
  }

  /** The `modify` the board passes: the new state is the other widget's state. */
  function TakeSecond<S>(): (S, S) -> S
  {
    (own: S, other: S) => other
  }

  /**
   * The whole operation on a tree where two different ids each name exactly
   * one widget: the first walk finds both states, and with the board's
   * `modify` the second walk exchanges them, sets both flags and leaves every
   * other widget's state as it was.
   */
  lemma {:induction false} StatesExchanged<S>(w: Widget<S>, t1: Id, t2: Id)
    requires t1 != t2 && Count(w, t1) == 1 && Count(w, t2) == 1
    ensures var f := FindWalk(t1, t2, Found(None, None), w);
      && f.Done()
      && f == Found(StateOf(w, t1), StateOf(w, t2))
      && var op := Swap(t1, t2, TakeSecond(), f.s1.value, f.s2.value);
      && var r := SwapWalk(op, Flags(false, false), w);
      && r.0 == Flags(true, true)
      && StateOf(r.1, t1) == StateOf(w, t2)
      && StateOf(r.1, t2) == StateOf(w, t1)
      && forall t | t != t1 && t != t2 :: StateOf(r.1, t) == StateOf(w, t)
  {
    StateOfCount(w, t1);
    StateOfCount(w, t2);
    FindLocates(t1, t2, Found(None, None), w);
    var f := FindWalk(t1, t2, Found(None, None), w);
    var op := Swap(t1, t2, TakeSecond(), f.s1.value, f.s2.value);
    SwapRewrites(op, Flags(false, false), w);
    RewrittenStateOf(op, w, t1);
    RewrittenStateOf(op, w, t2);
    forall t | t != t1 && t != t2
      ensures StateOf(SwapWalk(op, Flags(false, false), w).1, t) == StateOf(w, t)
    {
      RewrittenStateOf(op, w, t);
    }
  }

  // ---------------------------------------------------------------------
  // The two operations

  /** `FindTargets`: the first phase. */
  class FindTargets<S> {
    const t1: Id
    const t2: Id
    const modifier: (S, S) -> S
    var t1State: Option<S>
    var t2State: Option<S>

    function Copies(): Found<S>
      reads this
    {
      Found(t1State, t2State)
    }

    /** `swap_modify_states_operation(t1, t2, modify)`: nothing found yet. */
    constructor (t1: Id, t2: Id, modifier: (S, S) -> S)
      ensures this.t1 == t1 && this.t2 == t2 && this.modifier == modifier
      ensures Copies() == Found(None, None)
    {
      this.t1 := t1;
      this.t2 := t2;
      this.modifier := modifier;
      t1State := None;
      t2State := None;
    }

    method Custom(id: Option<Id>, state: Option<S>)
      modifies this
      ensures Copies() == FindCustom(t1, t2, old(Copies()), id, state)
    {
      if t1State.Some? && t2State.Some? {
        return;
      }
      if state.Some? && id.Some? {
        if id.value == t1 {
          t1State := state;
        } else if id.value == t2 {
          t2State := state;
        }
      }
    }

    /** `container`: the children are walked unless both states are found. */
    method Container(children: seq<Widget<S>>)
      modifies this
      ensures Copies() == if old(Copies()).Done() then old(Copies()) else FindWalkAll(t1, t2, old(Copies()), children)
      decreases SizeAll(children), 2
    {
      if t1State.Some? && t2State.Some? {
        return;
      }
      OperateOnChildren(children);
    }

    method Operate(w: Widget<S>)
      modifies this
      ensures Copies() == FindWalk(t1, t2, old(Copies()), w)
      decreases Size(w), 0
    {
      match w
      case Container(_, _, children) => Container(children);
      case Scrollable(_, _, content) => Operate(content);
      case Custom(id, state) => Custom(id, state);
    }

    method OperateOnChildren(ws: seq<Widget<S>>)
      modifies this
      ensures Copies() == FindWalkAll(t1, t2, old(Copies()), ws)
      decreases SizeAll(ws), 1
    {
      if ws != [] {
        Operate(ws[0]);
        OperateOnChildren(ws[1..]);
      }
    }

    /** `finish`: the second phase, chained exactly when both states were found. */
    method Finish() returns (r: Option<SwapModify<S>>)
      ensures r.Some? <==> Copies().Done()
      ensures r.Some? ==> fresh(r.value) && r.value.Params() == Swap(t1, t2, modifier, t1State.value, t2State.value)
      ensures r.Some? ==> r.value.Swapped() == Flags(false, false)
    {
      if t1State.None? || t2State.None? {
        return None;
      }
      var next := new SwapModify(t1, t2, modifier, t1State.value, t2State.value);
      return Some(next);
    }
  }

  /** `SwapModify`: the second phase. */
  class SwapModify<S> {
    const t1: Id
    const t2: Id
    const modifier: (S, S) -> S
    const t1State: S
    const t2State: S
    var swappedT1: bool
    var swappedT2: bool

    function Params(): Swap<S>
    {
      Swap(t1, t2, modifier, t1State, t2State)
    }

    function Swapped(): Flags
      reads this
    {
      Flags(swappedT1, swappedT2)
    }

    constructor (t1: Id, t2: Id, modifier: (S, S) -> S, t1State: S, t2State: S)
      ensures Params() == Swap(t1, t2, modifier, t1State, t2State)
      ensures Swapped() == Flags(false, false)
    {
      this.t1 := t1;
      this.t2 := t2;
      this.modifier := modifier;
      this.t1State := t1State;
      this.t2State := t2State;
      swappedT1 := false;
      swappedT2 := false;
    }

    /** `custom`: returns what `*state` holds afterwards. */
    method Custom(id: Option<Id>, state: Option<S>) returns (newState: Option<S>)
      modifies this
      ensures (Swapped(), newState) == SwapCustom(Params(), old(Swapped()), id, state)
    {
      newState := state;
      if swappedT1 && swappedT2 {
        return;
      }
      if state.Some? && id.Some? {
        if id.value == t1 {
          newState := Some(modifier(state.value, t2State));
          swappedT1 := true;
        } else if id.value == t2 {
          newState := Some(modifier(state.value, t1State));
          swappedT2 := true;
        }
      }
    }

    method Operate(w: Widget<S>) returns (w': Widget<S>)
      modifies this
      ensures (Swapped(), w') == SwapWalk(Params(), old(Swapped()), w)
      decreases Size(w), 0
    {
      match w
      case Container(id, bounds, children) =>
        if swappedT1 && swappedT2 {
          return w;
        }
        var cs := OperateOnChildren(children);
        w' := Widget.Container(id, bounds, cs);
      case Scrollable(bounds, translation, content) =>
        var c := Operate(content);
        w' := Widget.Scrollable(bounds, translation, c);
      case Custom(id, state) =>
        var s := Custom(id, state);
        w' := Widget.Custom(id, s);
    }

    method OperateOnChildren(ws: seq<Widget<S>>) returns (ws': seq<Widget<S>>)
      modifies this
      ensures (Swapped(), ws') == SwapWalkAll(Params(), old(Swapped()), ws)
      decreases SizeAll(ws), 1
    {
      if ws == [] {
        return [];
      }
      var first := Operate(ws[0]);
      var rest := OperateOnChildren(ws[1..]);
      ws' := [first] + rest;
    }
  }
}

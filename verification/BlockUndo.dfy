/** The undo log of a graph transaction (util/transactions.c with the action drivers of block.c),
    on the part of the graph that everything else follows from: the edges and inherits_from. */
module BlockUndo {

  import opened Digraph
  import opened BlockGraph

  /** One tran_add.  The newest action is last, so abort and commit run from the end. */
  datatype Undo =
    | SetPerm(e: Edge, perm: Mask, shared: Mask)      // bdrv_child_set_perm: the old masks
    | DrvSetPerm(n: Node)                             // bdrv_drv_set_perm
    | ReplaceChild(e: Edge, was: Node)                // bdrv_replace_child_tran: the old target
    | AttachChild(e: Edge)                            // bdrv_attach_child_common
    | RemoveChild(e: Edge)                            // bdrv_remove_child, after the edge is empty
    | SetInherits(n: Node, from: Option<Node>)        // bdrv_set_inherits_from: the old pointer

  datatype View = View(edges: map<Edge, Child>, inherits: map<Node, Option<Node>>)

  /** The .abort callback of one action. */
  function UndoOne(v: View, u: Undo): View {
    match u
    case SetPerm(e, perm, shared) =>
      if e in v.edges then v.(edges := v.edges[e := v.edges[e].(perm := perm, shared := shared)]) else v
    case ReplaceChild(e, was) =>
      if e in v.edges then v.(edges := v.edges[e := v.edges[e].(bs := Some(was))]) else v
    case AttachChild(e) => v.(edges := v.edges - {e})
    case SetInherits(n, from) => v.(inherits := v.inherits[n := from])
    case DrvSetPerm(_) => v
    case RemoveChild(_) => v
  }

  /** tran_abort */
  function UndoAll(v: View, log: seq<Undo>): View
    decreases |log|
  {
    if log == [] then v else UndoAll(UndoOne(v, log[|log| - 1]), log[..|log| - 1])
  }

  /** No other edge of the same owner fills e's slot. */
  ghost predicate SlotUnused(edges: map<Edge, Child>, e: Edge)
    requires e in edges
  {
    edges[e].owner.OfNode? && edges[e].slot != NoSlot ==>
      forall x :: InSlot(edges, x, edges[e].owner.node, edges[e].slot) ==> x == e
  }

  /** The assertions that the abort callback relies on. */
  ghost predicate CanUndo(v: View, u: Undo) {
    match u
    case SetPerm(e, _, _) => e in v.edges
    case ReplaceChild(e, was) =>
      e in v.edges && !v.edges[e].frozen && v.edges[e].bs != Some(was) && was in v.inherits && SlotUnused(v.edges, e)
    case AttachChild(e) => e in v.edges && !v.edges[e].frozen && v.edges[e].bs.Some?
    case SetInherits(n, _) => n in v.inherits
    case DrvSetPerm(_) => true
    case RemoveChild(e) => e in v.edges && v.edges[e].bs.None?
  }

  /** Every abort callback finds what it expects, and no edge is removed twice. */
  ghost predicate Undoable(v: View, log: seq<Undo>)
    decreases |log|
  {
    log == [] ||
    var u, rest := log[|log| - 1], log[..|log| - 1];
    CanUndo(v, u) && (u.RemoveChild? ==> u !in rest) && Undoable(UndoOne(v, u), rest)
  }

  /** Logging the inverse of a change keeps the log undoable and its outcome unchanged. */
  lemma LogOne(v: View, v': View, log: seq<Undo>, u: Undo)
    requires Undoable(v, log) && CanUndo(v', u) && UndoOne(v', u) == v && (u.RemoveChild? ==> u !in log)
    ensures Undoable(v', log + [u]) && UndoAll(v', log + [u]) == UndoAll(v, log)
  {
    assert (log + [u])[..|log + [u]| - 1] == log;
  }

  /** References kept alive by the log: the old targets of replaced edges. */
  function Held(log: seq<Undo>): multiset<Node> {
    if log == [] then multiset{}
    else
      var rest := Held(log[..|log| - 1]);
      var u := log[|log| - 1];
      if u.ReplaceChild? then rest + multiset{u.was} else rest
  }

  /** The edges that a commit frees. */
  function Removed(log: seq<Undo>): set<Edge> {
    if log == [] then {}
    else Removed(log[..|log| - 1]) + (if log[|log| - 1].RemoveChild? then {log[|log| - 1].e} else {})
  }

  lemma HeldOne(log: seq<Undo>, u: Undo)
    ensures Held(log + [u]) == Held(log) + (if u.ReplaceChild? then multiset{u.was} else multiset{})
    ensures Removed(log + [u]) == Removed(log) + (if u.RemoveChild? then {u.e} else {})
  {
    assert (log + [u])[..|log + [u]| - 1] == log;
  }

  /** A free slot is one that no other edge fills. */
  lemma SlotFreeIsUnused(g: Graph, e: Edge)
    requires Wf(g) && EdgeOk(g, e)
    ensures g.edges[e].bs.None? ==> (SlotFree(g, e) <==> SlotUnused(g.edges, e))
    ensures g.edges[e].bs.Some? ==> SlotUnused(g.edges, e)
  {
    if g.edges[e].owner.OfNode? {
      var p := g.edges[e].owner.node;
      assert NodeOk(g.edges, g.nodes[p], p);
      assert g.edges[e].bs.Some? ==> InSlot(g.edges, e, p, g.edges[e].slot);
      if g.edges[e].slot == BackingSlot && g.nodes[p].backing.Some? {
        assert InSlot(g.edges, g.nodes[p].backing.value, p, BackingSlot);
      }
      if g.edges[e].slot == FileSlot && g.nodes[p].file.Some? {
        assert InSlot(g.edges, g.nodes[p].file.value, p, FileSlot);
      }
    }
  }

  /** Whether a slot is used by others does not depend on e's own target. */
  lemma SlotUnusedKept(edges: map<Edge, Child>, e: Edge, target: Option<Node>)
    requires e in edges
    ensures SlotUnused(edges[e := edges[e].(bs := target)], e) == SlotUnused(edges, e)
  {
    var edges' := edges[e := edges[e].(bs := target)];
    forall x, p, s | x != e ensures InSlot(edges', x, p, s) == InSlot(edges, x, p, s) {}
  }

  /** bdrv_replace_child_tran logs the inverse of what it does. */
  lemma LogReplace(
      g: Graph, edges': map<Edge, Child>, inherits: map<Node, Option<Node>>, log: seq<Undo>, e: Edge,
      target: Option<Node>)
    requires Wf(g) && EdgeOk(g, e) && g.edges[e].bs.Some? && g.edges[e].bs != target && !g.edges[e].frozen
    requires Undoable(View(g.edges, inherits), log) && edges' == g.edges[e := g.edges[e].(bs := target)]
    requires g.edges[e].bs.value in inherits
    ensures var v', log' := View(edges', inherits), log + [ReplaceChild(e, g.edges[e].bs.value)];
      && Undoable(v', log') && UndoAll(v', log') == UndoAll(View(g.edges, inherits), log)
      && Held(log') == Held(log) + multiset{g.edges[e].bs.value} && Removed(log') == Removed(log)
  {
    var u := ReplaceChild(e, g.edges[e].bs.value);
    SlotFreeIsUnused(g, e);
    SlotUnusedKept(g.edges, e, target);
    assert UndoOne(View(edges', inherits), u).edges == g.edges;
    LogOne(View(g.edges, inherits), View(edges', inherits), log, u);
    HeldOne(log, u);
  }

  /** bdrv_attach_child_common logs the inverse of what it does. */
  lemma LogAttach(
      edges: map<Edge, Child>, edges': map<Edge, Child>, inherits: map<Node, Option<Node>>, log: seq<Undo>, e: Edge,
      c: Child)
    requires e !in edges && c.bs.Some? && !c.frozen && Undoable(View(edges, inherits), log) && edges' == edges[e := c]
    ensures var v', log' := View(edges', inherits), log + [AttachChild(e)];
      && Undoable(v', log') && UndoAll(v', log') == UndoAll(View(edges, inherits), log)
      && Held(log') == Held(log) && Removed(log') == Removed(log)
  {
    assert UndoOne(View(edges', inherits), AttachChild(e)).edges == edges;
    LogOne(View(edges, inherits), View(edges', inherits), log, AttachChild(e));
    HeldOne(log, AttachChild(e));
  }

  /** What tran_abort finds at its next step. */
  lemma PopLog(v: View, log: seq<Undo>)
    requires log != [] && Undoable(v, log)
    ensures var u, rest := log[|log| - 1], log[..|log| - 1];
      && CanUndo(v, u) && Undoable(UndoOne(v, u), rest) && UndoAll(v, log) == UndoAll(UndoOne(v, u), rest)
      && Held(log) == Held(rest) + (if u.ReplaceChild? then multiset{u.was} else multiset{})
  {
  }

  /** An edge that was removed is still allocated and still empty. */
  lemma {:induction false} RemovedStaysEmpty(v: View, log: seq<Undo>, e: Edge)
    requires Undoable(v, log) && RemoveChild(e) in log
    ensures e in v.edges && v.edges[e].bs.None?
    decreases |log|
  {
    var u, rest := log[|log| - 1], log[..|log| - 1];
    assert log == rest + [u];
    if RemoveChild(e) in rest {
      RemovedStaysEmpty(UndoOne(v, u), rest, e);
    }
  }

  lemma {:induction false} RemovedIff(log: seq<Undo>, e: Edge)
    ensures e in Removed(log) <==> RemoveChild(e) in log
  {
    if log != [] {
      RemovedIff(log[..|log| - 1], e);
      assert log == log[..|log| - 1] + [log[|log| - 1]];
    }
  }

  ghost predicate RemovedOnce(log: seq<Undo>) {
    log == [] ||
    var u, rest := log[|log| - 1], log[..|log| - 1];
    (u.RemoveChild? ==> u.e !in Removed(rest)) && RemovedOnce(rest)
  }

  lemma {:induction false} UndoableRemovesOnce(v: View, log: seq<Undo>)
    requires Undoable(v, log)
    ensures RemovedOnce(log)
    decreases |log|
  {
    if log != [] {
      var u, rest := log[|log| - 1], log[..|log| - 1];
      UndoableRemovesOnce(UndoOne(v, u), rest);
      if u.RemoveChild? { RemovedIff(rest, u.e); }
    }
  }
}

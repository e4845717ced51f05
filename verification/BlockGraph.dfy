/** The block graph of block.c as data: BdrvChild edges, the lists and pointers of each node that
    repeat what the edges say, and the elementary pointer updates. */
module BlockGraph {

  import opened Digraph
  import opened Lists

  datatype Option<+T> = None | Some(value: T)

  type Edge = int

  /** The BLK_PERM_* bits.  A mask is the set of its bits: `|` is union, `&` intersection, and
      `x & ~y` difference. */
  datatype Perm = ConsistentRead | Write | WriteUnchanged | Resize
  type Mask = set<Perm>

  const PERM_ALL: Mask := {ConsistentRead, Write, WriteUnchanged, Resize}

  /** c->opaque: the parent node of a child_of_bds edge; otherwise a BlockBackend or a job. */
  datatype Owner = OfNode(node: Node) | OfRoot

  /** The pointer of the owner that bdrv_child_cb_attach sets, as its driver and c->role decide. */
  datatype Slot = BackingSlot | FileSlot | NoSlot

  datatype Child = Child(
    owner: Owner, slot: Slot, role: nat, bs: Option<Node>,
    perm: Mask, shared: Mask, frozen: bool, stayAtNode: bool)

  /** The parts of a BlockDriverState that repeat what the edges say. */
  datatype Bds = Bds(parents: seq<Edge>, children: seq<Edge>, backing: Option<Edge>, file: Option<Edge>)

  datatype Graph = Graph(edges: map<Edge, Child>, nodes: map<Node, Bds>)

  // ------------------------------------------------------------------------------------------
  // Lists and pointers agree with the edges

  predicate PointsTo(edges: map<Edge, Child>, e: Edge, n: Node) {
    e in edges && edges[e].bs == Some(n)
  }

  predicate ChildOf(edges: map<Edge, Child>, e: Edge, p: Node) {
    e in edges && edges[e].owner == OfNode(p) && edges[e].bs.Some?
  }

  predicate InSlot(edges: map<Edge, Child>, e: Edge, p: Node, slot: Slot) {
    ChildOf(edges, e, p) && edges[e].slot == slot
  }

  ghost predicate ParentsOk(edges: map<Edge, Child>, list: seq<Edge>, n: Node) {
    NoDup(list) && forall e :: e in list <==> PointsTo(edges, e, n)
  }

  ghost predicate ChildrenOk(edges: map<Edge, Child>, list: seq<Edge>, p: Node) {
    NoDup(list) && forall e :: e in list <==> ChildOf(edges, e, p)
  }

  ghost predicate SlotOk(edges: map<Edge, Child>, ptr: Option<Edge>, p: Node, slot: Slot) {
    forall e :: ptr == Some(e) <==> InSlot(edges, e, p, slot)
  }

  ghost predicate NodeOk(edges: map<Edge, Child>, b: Bds, n: Node) {
    && ParentsOk(edges, b.parents, n) && ChildrenOk(edges, b.children, n)
    && SlotOk(edges, b.backing, n, BackingSlot) && SlotOk(edges, b.file, n, FileSlot)
  }

  /** Both ends of an edge are nodes of the graph. */
  predicate EdgeOk(g: Graph, e: Edge) {
    && e in g.edges
    && (g.edges[e].bs.Some? ==> g.edges[e].bs.value in g.nodes)
    && (g.edges[e].owner.OfNode? ==> g.edges[e].owner.node in g.nodes)
  }

  ghost predicate Wf(g: Graph) {
    && (forall e {:trigger EdgeOk(g, e)} :: e in g.edges ==> EdgeOk(g, e))
    && (forall n {:trigger NodeOk(g.edges, g.nodes[n], n)} :: n in g.nodes ==> NodeOk(g.edges, g.nodes[n], n))
  }

  /** The parent -> child relation between nodes. */
  function ArcsOf(edges: map<Edge, Child>): Arcs {
    set e | e in edges && edges[e].owner.OfNode? && edges[e].bs.Some? :: (edges[e].owner.node, edges[e].bs.value)
  }

  lemma ArcIff(edges: map<Edge, Child>, p: Node, n: Node)
    ensures (p, n) in ArcsOf(edges) <==> exists e :: ChildOf(edges, e, p) && PointsTo(edges, e, n)
  {
    if e :| ChildOf(edges, e, p) && PointsTo(edges, e, n) {
      assert (edges[e].owner.node, edges[e].bs.value) == (p, n);
    }
    if (p, n) in ArcsOf(edges) {
      var e :|
        e in edges && edges[e].owner.OfNode? && edges[e].bs.Some? && (edges[e].owner.node, edges[e].bs.value) == (p, n);
      assert ChildOf(edges, e, p) && PointsTo(edges, e, n);
    }
  }

  // ------------------------------------------------------------------------------------------
  // bdrv_replace_child_noperm

  function LoseParent(b: Bds, e: Edge): Bds {
    b.(parents := Without(b.parents, e))
  }

  /** bdrv_child_cb_detach */
  function LoseChild(b: Bds, e: Edge): Bds {
    b.(children := Without(b.children, e),
       backing := if b.backing == Some(e) then None else b.backing,
       file := if b.backing != Some(e) && b.file == Some(e) then None else b.file)
  }

  function GainParent(b: Bds, e: Edge): Bds {
    b.(parents := [e] + b.parents)
  }

  /** bdrv_child_cb_attach */
  function GainChild(b: Bds, e: Edge, slot: Slot): Bds {
    b.(children := [e] + b.children,
       backing := if slot == BackingSlot then Some(e) else b.backing,
       file := if slot == FileSlot then Some(e) else b.file)
  }

  /** Take e out of the node it points to and out of its owner: klass->detach, QLIST_REMOVE. */
  function Detach(g: Graph, e: Edge): (g': Graph)
    requires EdgeOk(g, e) && g.edges[e].bs.Some?
    ensures g'.edges == g.edges[e := g.edges[e].(bs := None)] && g'.nodes.Keys == g.nodes.Keys
  {
    var c := g.edges[e];
    var n := c.bs.value;
    var edges' := g.edges[e := c.(bs := None)];
    var nodes := g.nodes[n := LoseParent(g.nodes[n], e)];
    match c.owner
    case OfRoot => Graph(edges', nodes)
    case OfNode(p) => Graph(edges', nodes[p := LoseChild(nodes[p], e)])
  }

  predicate SlotFree(g: Graph, e: Edge)
    requires EdgeOk(g, e)
  {
    var c := g.edges[e];
    c.owner.OfNode? ==>
      && (c.slot == BackingSlot ==> g.nodes[c.owner.node].backing == None)
      && (c.slot == FileSlot ==> g.nodes[c.owner.node].file == None)
  }

  /** Insert the empty edge e at the head of n's parents and of its owner's children: klass->attach. */
  function AttachTo(g: Graph, e: Edge, n: Node): (g': Graph)
    requires EdgeOk(g, e) && n in g.nodes
    ensures g'.edges == g.edges[e := g.edges[e].(bs := Some(n))] && g'.nodes.Keys == g.nodes.Keys
  {
    var c := g.edges[e];
    var edges' := g.edges[e := c.(bs := Some(n))];
    var nodes := g.nodes[n := GainParent(g.nodes[n], e)];
    match c.owner
    case OfRoot => Graph(edges', nodes)
    case OfNode(p) => Graph(edges', nodes[p := GainChild(nodes[p], e, c.slot)])
  }

  /** How each kind of list follows one edge that changes its target. */
  lemma ParentsFollow(edges: map<Edge, Child>, list: seq<Edge>, m: Node, e: Edge, target: Option<Node>)
    requires ParentsOk(edges, list, m) && e in edges
    ensures var edges' := edges[e := edges[e].(bs := target)];
      && (target != Some(m) ==> ParentsOk(edges', Without(list, e), m))
      && (target != Some(m) && edges[e].bs != Some(m) ==> ParentsOk(edges', list, m))
      && (target == Some(m) && edges[e].bs != Some(m) ==> ParentsOk(edges', [e] + list, m))
  {
    WithoutOk(list, e);
  }

  lemma ChildrenFollow(edges: map<Edge, Child>, list: seq<Edge>, p: Node, e: Edge, target: Option<Node>)
    requires ChildrenOk(edges, list, p) && e in edges
    ensures var edges' := edges[e := edges[e].(bs := target)];
      && (target == None ==> ChildrenOk(edges', Without(list, e), p))
      && (edges[e].owner != OfNode(p) ==> ChildrenOk(edges', list, p))
      && (target.Some? && edges[e].owner == OfNode(p) && edges[e].bs.None? ==> ChildrenOk(edges', [e] + list, p))
  {
    WithoutOk(list, e);
  }

  lemma SlotFollows(edges: map<Edge, Child>, ptr: Option<Edge>, p: Node, slot: Slot, e: Edge, target: Option<Node>)
    requires SlotOk(edges, ptr, p, slot) && e in edges
    ensures var edges' := edges[e := edges[e].(bs := target)];
      && (target == None ==> SlotOk(edges', if ptr == Some(e) then None else ptr, p, slot))
      && (edges[e].owner != OfNode(p) || edges[e].slot != slot ==> SlotOk(edges', ptr, p, slot))
      && (target.Some? && edges[e].owner == OfNode(p) && edges[e].slot == slot && ptr == None ==>
            SlotOk(edges', Some(e), p, slot))
  {
    var edges' := edges[e := edges[e].(bs := target)];
    forall x ensures x != e ==> InSlot(edges', x, p, slot) == InSlot(edges, x, p, slot) {}
  }

  /** The record of node m after e, which pointed to n, is emptied. */
  lemma NodeFollowsDetach(edges: map<Edge, Child>, b: Bds, m: Node, e: Edge)
    requires NodeOk(edges, b, m) && e in edges && edges[e].bs.Some?
    ensures var b1 := if edges[e].bs == Some(m) then LoseParent(b, e) else b;
      var b2 := if edges[e].owner == OfNode(m) then LoseChild(b1, e) else b1;
      && NodeOk(edges[e := edges[e].(bs := None)], b2, m)
      && |b2.parents| == |b.parents| - (if edges[e].bs == Some(m) then 1 else 0)
      && (edges[e].owner == OfNode(m) && edges[e].slot == BackingSlot ==> b2.backing == None)
      && (edges[e].owner == OfNode(m) && edges[e].slot == FileSlot ==> b2.file == None)
  {
    ParentsFollow(edges, b.parents, m, e, None);
    ChildrenFollow(edges, b.children, m, e, None);
    SlotFollows(edges, b.backing, m, BackingSlot, e, None);
    SlotFollows(edges, b.file, m, FileSlot, e, None);
    WithoutOk(b.parents, e);
    assert edges[e].bs == Some(m) ==> PointsTo(edges, e, m);
    assert b.backing == Some(e) <==> InSlot(edges, e, m, BackingSlot);
    assert b.file == Some(e) <==> InSlot(edges, e, m, FileSlot);
  }

  /** The record of node m after the empty edge e is pointed to n. */
  lemma NodeFollowsAttach(edges: map<Edge, Child>, b: Bds, m: Node, e: Edge, n: Node)
    requires NodeOk(edges, b, m) && e in edges && edges[e].bs.None?
    requires edges[e].owner == OfNode(m) && edges[e].slot == BackingSlot ==> b.backing == None
    requires edges[e].owner == OfNode(m) && edges[e].slot == FileSlot ==> b.file == None
    ensures var b1 := if n == m then GainParent(b, e) else b;
      var b2 := if edges[e].owner == OfNode(m) then GainChild(b1, e, edges[e].slot) else b1;
      && NodeOk(edges[e := edges[e].(bs := Some(n))], b2, m)
      && |b2.parents| == |b.parents| + (if n == m then 1 else 0)
  {
    ParentsFollow(edges, b.parents, m, e, Some(n));
    ChildrenFollow(edges, b.children, m, e, Some(n));
    SlotFollows(edges, b.backing, m, BackingSlot, e, Some(n));
    SlotFollows(edges, b.file, m, FileSlot, e, Some(n));
  }

  lemma EdgesStayOk(g: Graph, g': Graph, e: Edge)
    requires (forall x :: x in g.edges ==> EdgeOk(g, x)) && EdgeOk(g', e) && e in g.edges
    requires g'.edges == g.edges[e := g'.edges[e]] && g'.nodes.Keys == g.nodes.Keys
    ensures forall x :: x in g'.edges ==> EdgeOk(g', x)
  {
    forall x | x in g'.edges ensures EdgeOk(g', x) { assert EdgeOk(g, x); }
  }

  /** The pointer update of bdrv_replace_child_noperm. */
  function Retarget(g: Graph, e: Edge, target: Option<Node>): Graph
    requires EdgeOk(g, e) && (target.Some? ==> target.value in g.nodes)
  {
    var g1 := if g.edges[e].bs.Some? then Detach(g, e) else g;
    if target.Some? then AttachTo(g1, e, target.value) else g1
  }

  /** How many edges point to m. */
  function ParentCount(g: Graph, m: Node): int {
    if m in g.nodes then |g.nodes[m].parents| else 0
  }

  /** What a change of e's target to `target` must have done. */
  ghost predicate Retargeted(g: Graph, e: Edge, target: Option<Node>, g': Graph)
    requires EdgeOk(g, e)
  {
    && Wf(g') && g'.edges == g.edges[e := g.edges[e].(bs := target)] && g'.nodes.Keys == g.nodes.Keys
    && forall m {:trigger ParentCount(g', m)} :: m in g.nodes ==>
         ParentCount(g', m)
           == ParentCount(g, m) - (if g.edges[e].bs == Some(m) then 1 else 0) + (if target == Some(m) then 1 else 0)
  }

  lemma AttachRetargets(g: Graph, e: Edge, n: Node)
    requires Wf(g) && EdgeOk(g, e) && g.edges[e].bs.None? && n in g.nodes && SlotFree(g, e)
    ensures Retargeted(g, e, Some(n), AttachTo(g, e, n))
  {
    var g' := AttachTo(g, e, n);
    forall m | m in g'.nodes
      ensures NodeOk(g'.edges, g'.nodes[m], m) && ParentCount(g', m) == ParentCount(g, m) + (if n == m then 1 else 0)
    {
      NodeFollowsAttach(g.edges, g.nodes[m], m, e, n);
    }
    EdgesStayOk(g, g', e);
  }

  lemma DetachRetargets(g: Graph, e: Edge)
    requires Wf(g) && EdgeOk(g, e) && g.edges[e].bs.Some?
    ensures Retargeted(g, e, None, Detach(g, e)) && EdgeOk(Detach(g, e), e) && SlotFree(Detach(g, e), e)
  {
    var g' := Detach(g, e);
    forall m | m in g'.nodes ensures NodeOk(g'.edges, g'.nodes[m], m)
      ensures ParentCount(g', m) == ParentCount(g, m) - (if g.edges[e].bs == Some(m) then 1 else 0)
    {
      NodeFollowsDetach(g.edges, g.nodes[m], m, e);
    }
    EdgesStayOk(g, g', e);
    if g.edges[e].owner.OfNode? {
      NodeFollowsDetach(g.edges, g.nodes[g.edges[e].owner.node], g.edges[e].owner.node, e);
    }
  }

  lemma RetargetedTwice(g: Graph, g1: Graph, g2: Graph, e: Edge, n: Node)
    requires EdgeOk(g, e) && EdgeOk(g1, e) && Retargeted(g, e, None, g1) && Retargeted(g1, e, Some(n), g2)
    ensures Retargeted(g, e, Some(n), g2)
  {
    forall m | m in g.nodes
      ensures ParentCount(g2, m) ==
          ParentCount(g, m) - (if g.edges[e].bs == Some(m) then 1 else 0) + (if n == m then 1 else 0)
    {
      assert ParentCount(g1, m) == ParentCount(g, m) - (if g.edges[e].bs == Some(m) then 1 else 0);
    }
  }

  /** Filling an empty edge needs the owner's slot to be free, as bdrv_child_cb_attach asserts. */
  lemma RetargetWf(g: Graph, e: Edge, target: Option<Node>)
    requires Wf(g) && EdgeOk(g, e)
    requires target.Some? ==> target.value in g.nodes && (g.edges[e].bs.None? ==> SlotFree(g, e))
    ensures Retargeted(g, e, target, Retarget(g, e, target))
  {
    if g.edges[e].bs.Some? {
      var g1 := Detach(g, e);
      DetachRetargets(g, e);
      if target.Some? {
        AttachRetargets(g1, e, target.value);
        RetargetedTwice(g, g1, AttachTo(g1, e, target.value), e, target.value);
      }
    } else if target.Some? {
      AttachRetargets(g, e, target.value);
    } else {
      assert g.edges == g.edges[e := g.edges[e].(bs := None)];
    }
  }

  /** Edges that agree on everything but their masks, and on which of them are filled, make the
      same node records right. */
  lemma NodeStaysOk(edges: map<Edge, Child>, edges': map<Edge, Child>, b: Bds, n: Node)
    requires NodeOk(edges, b, n)
    requires forall x, m ::
      PointsTo(edges', x, m) == PointsTo(edges, x, m) && ChildOf(edges', x, m) == ChildOf(edges, x, m)
    requires forall x :: x in edges && x in edges' ==> edges'[x].slot == edges[x].slot
    ensures NodeOk(edges', b, n)
  {
    forall x, s ensures InSlot(edges', x, n, s) == InSlot(edges, x, n, s) {
      assert ChildOf(edges', x, n) == ChildOf(edges, x, n);
    }
  }

  /** A new, empty edge. */
  function AddEdge(g: Graph, e: Edge, c: Child): (g': Graph)
    requires Wf(g) && e !in g.edges && c.bs.None? && (c.owner.OfNode? ==> c.owner.node in g.nodes)
    ensures Wf(g') && g'.edges == g.edges[e := c] && g' == g.(edges := g'.edges)
  {
    AddEdgeWf(g, e, c);
    g.(edges := g.edges[e := c])
  }

  lemma AddEdgeWf(g: Graph, e: Edge, c: Child)
    requires Wf(g) && e !in g.edges && c.bs.None? && (c.owner.OfNode? ==> c.owner.node in g.nodes)
    ensures Wf(g.(edges := g.edges[e := c]))
  {
    var g' := g.(edges := g.edges[e := c]);
    forall m | m in g'.nodes ensures NodeOk(g'.edges, g'.nodes[m], m) { NodeStaysOk(g.edges, g'.edges, g.nodes[m], m); }
    forall x | x in g'.edges ensures EdgeOk(g', x) {
      if x != e { assert EdgeOk(g, x); }
    }
  }

  /** bdrv_child_free: the edge must be empty. */
  function FreeEdge(g: Graph, e: Edge): (g': Graph)
    requires Wf(g) && e in g.edges && g.edges[e].bs.None?
    ensures Wf(g') && g'.edges == g.edges - {e} && g' == g.(edges := g'.edges)
  {
    FreeEdgeWf(g, e);
    g.(edges := g.edges - {e})
  }

  lemma FreeEdgeWf(g: Graph, e: Edge)
    requires Wf(g) && e in g.edges && g.edges[e].bs.None?
    ensures Wf(g.(edges := g.edges - {e}))
  {
    var g' := g.(edges := g.edges - {e});
    forall m | m in g'.nodes ensures NodeOk(g'.edges, g'.nodes[m], m) { NodeStaysOk(g.edges, g'.edges, g.nodes[m], m); }
    forall x | x in g'.edges ensures EdgeOk(g', x) { assert EdgeOk(g, x); }
  }

  /** c->perm and c->shared_perm */
  function SetMasks(g: Graph, e: Edge, perm: Mask, shared: Mask): (g': Graph)
    requires Wf(g) && e in g.edges
    ensures Wf(g') && g'.edges == g.edges[e := g.edges[e].(perm := perm, shared := shared)]
    ensures g' == g.(edges := g'.edges)
  {
    SetMasksWf(g, e, perm, shared);
    g.(edges := g.edges[e := g.edges[e].(perm := perm, shared := shared)])
  }

  lemma SetMasksWf(g: Graph, e: Edge, perm: Mask, shared: Mask)
    requires Wf(g) && e in g.edges
    ensures Wf(g.(edges := g.edges[e := g.edges[e].(perm := perm, shared := shared)]))
  {
    var g' := g.(edges := g.edges[e := g.edges[e].(perm := perm, shared := shared)]);
    forall m | m in g'.nodes ensures NodeOk(g'.edges, g'.nodes[m], m) { NodeStaysOk(g.edges, g'.edges, g.nodes[m], m); }
    forall x | x in g'.edges ensures EdgeOk(g', x) { assert EdgeOk(g, x); }
  }

  /** The same edges, the same pointers, and the same lists up to order. */
  ghost predicate SameGraph(g: Graph, h: Graph) {
    && g.edges == h.edges && g.nodes.Keys == h.nodes.Keys
    && forall n :: n in g.nodes && n in h.nodes ==>
         && g.nodes[n].backing == h.nodes[n].backing && g.nodes[n].file == h.nodes[n].file
         && multiset(g.nodes[n].parents) == multiset(h.nodes[n].parents)
         && multiset(g.nodes[n].children) == multiset(h.nodes[n].children)
  }

  /** Everything but the order of the lists follows from the edges. */
  lemma SameEdgesSameGraph(g: Graph, h: Graph)
    requires Wf(g) && Wf(h) && g.edges == h.edges && g.nodes.Keys == h.nodes.Keys
    ensures SameGraph(g, h)
  {
    forall n | n in g.nodes && n in h.nodes
      ensures g.nodes[n].backing == h.nodes[n].backing && g.nodes[n].file == h.nodes[n].file
      ensures multiset(g.nodes[n].parents) == multiset(h.nodes[n].parents)
      ensures multiset(g.nodes[n].children) == multiset(h.nodes[n].children)
    {
      assert NodeOk(g.edges, g.nodes[n], n) && NodeOk(h.edges, h.nodes[n], n);
      SameSlot(g.edges, g.nodes[n].backing, h.nodes[n].backing, n, BackingSlot);
      SameSlot(g.edges, g.nodes[n].file, h.nodes[n].file, n, FileSlot);
      SameElements(g.nodes[n].parents, h.nodes[n].parents);
      SameElements(g.nodes[n].children, h.nodes[n].children);
    }
  }

  lemma SameSlot(edges: map<Edge, Child>, p: Option<Edge>, q: Option<Edge>, n: Node, slot: Slot)
    requires SlotOk(edges, p, n, slot) && SlotOk(edges, q, n, slot)
    ensures p == q
  {
    if p.Some? { assert InSlot(edges, p.value, n, slot); }
    if q.Some? { assert InSlot(edges, q.value, n, slot); }
  }
}

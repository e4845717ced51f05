/** The state of the block layer between two steps, its invariant, and why each elementary step of an
    edit, of an abort and of a commit keeps that invariant. */
module BlockState {

  import opened Digraph
  import opened BlockGraph
  import opened BlockPerms
  import opened BlockUndo

  /** Edge numbers are below the next one to use; a leaf driver owns no edge. */
  predicate EdgeKnown(kind: Node -> DriverKind, edges: map<Edge, Child>, e: Edge, next: Edge)
    requires e in edges
  {
    e < next && (edges[e].owner.OfNode? ==> kind(edges[e].owner.node) != LeafDriver)
  }

  ghost predicate EdgesKnown(kind: Node -> DriverKind, edges: map<Edge, Child>, next: Edge) {
    forall e {:trigger EdgeKnown(kind, edges, e, next)} :: e in edges ==> EdgeKnown(kind, edges, e, next)
  }

  lemma EdgesKnownKept(kind: Node -> DriverKind, edges: map<Edge, Child>, e: Edge, edges': map<Edge, Child>, next: Edge)
    requires EdgesKnown(kind, edges, next) && e in edges && e in edges' && edges' == edges[e := edges'[e]]
    requires edges'[e].owner == edges[e].owner
    ensures EdgesKnown(kind, edges', next)
  {
    forall x | x in edges' ensures EdgeKnown(kind, edges', x, next) {
      assert EdgeKnown(kind, edges, x, next);
    }
  }

  lemma EdgesKnownAdded(
      kind: Node -> DriverKind, edges: map<Edge, Child>, e: Edge, c: Child, edges': map<Edge, Child>, next: Edge)
    requires EdgesKnown(kind, edges, next) && e == next && (c.owner.OfNode? ==> kind(c.owner.node) != LeafDriver)
    requires edges' == edges[e := c]
    ensures EdgesKnown(kind, edges', next + 1)
  {
    forall x | x in edges' ensures EdgeKnown(kind, edges', x, next + 1) {
      assert x != e ==> EdgeKnown(kind, edges, x, next);
    }
  }

  lemma EdgesKnownFewer(kind: Node -> DriverKind, edges: map<Edge, Child>, edges': map<Edge, Child>, next: Edge)
    requires EdgesKnown(kind, edges, next) && forall e :: e in edges' ==> e in edges && edges'[e] == edges[e]
    ensures EdgesKnown(kind, edges', next)
  {
    forall x | x in edges' ensures EdgeKnown(kind, edges', x, next) {
      assert EdgeKnown(kind, edges, x, next);
    }
  }

  lemma NoLeafChildren(g: Graph, kind: Node -> DriverKind, next: Edge, n: Node)
    requires Wf(g) && n in g.nodes && kind(n) == LeafDriver && EdgesKnown(kind, g.edges, next)
    ensures g.nodes[n].children == []
  {
    assert NodeOk(g.edges, g.nodes[n], n);
    forall e ensures !ChildOf(g.edges, e, n) {
      if e in g.edges { assert EdgeKnown(kind, g.edges, e, next); }
    }
    if g.nodes[n].children != [] { SomeMember(g.nodes[n].children); }
  }

  lemma SomeMember(s: seq<Edge>)
    requires s != []
    ensures exists e :: e in s
  {
    var e := s[0];
    assert e in s;
  }

  /** The BdrvChild that bdrv_attach_child_common allocates. */
  function NewChild(owner: Owner, slot: Slot, role: nat, perm: Mask, shared: Mask): Child {
    Child(owner, slot, role, None, perm, shared, false, false)
  }

  /** bdrv_child_cb_attach asserts that the owner's slot for the new child is empty. */
  predicate OwnerSlotFree(g: Graph, c: Child)
    requires c.owner.OfNode? ==> c.owner.node in g.nodes
  {
    c.owner.OfNode? ==>
      && (c.slot == BackingSlot ==> g.nodes[c.owner.node].backing == None)
      && (c.slot == FileSlot ==> g.nodes[c.owner.node].file == None)
  }

  ghost predicate Accounted(
    g: Graph, refcnt: map<Node, int>, held: multiset<Node>, scheduled: multiset<Node>, owned: multiset<Node>,
    deleted: set<Node>)
  {
    forall n {:trigger refcnt[n]} :: n in g.nodes && n in refcnt ==>
      && refcnt[n] == ParentCount(g, n) + held[n] + scheduled[n] + owned[n]
      && (n in deleted ==> refcnt[n] == 0)
  }

  /** All of the layer's fields at one moment. */
  datatype Layer = Layer(
    g: Graph, inherits: map<Node, Option<Node>>, refcnt: map<Node, int>, scheduled: multiset<Node>,
    deleted: set<Node>, log: seq<Undo>, nextEdge: Edge, owned: multiset<Node>)

  ghost predicate Tracked(g: Graph, inherits: map<Node, Option<Node>>, refcnt: map<Node, int>) {
    forall n :: (n in g.nodes <==> n in inherits) && (n in g.nodes ==> n in refcnt)
  }

  lemma TrackedAt(g: Graph, inherits: map<Node, Option<Node>>, refcnt: map<Node, int>, target: Option<Node>)
    requires Tracked(g, inherits, refcnt)
    ensures target.Some? ==>
      && (target.value in g.nodes <==> target.value in inherits) && (target.value in g.nodes ==> target.value in refcnt)
  {
    if target.Some? { var n := target.value; assert n in g.nodes ==> n in refcnt; }
  }

  ghost predicate Shape(kind: Node -> DriverKind, s: Layer) {
    && Wf(s.g)
    && Tracked(s.g, s.inherits, s.refcnt)
    && EdgesKnown(kind, s.g.edges, s.nextEdge)
  }

  /** Every reference count is accounted for: parent edges, replaced targets in the open
      transaction, scheduled unrefs, and references held outside the graph. */
  ghost predicate Balanced(s: Layer) {
    Accounted(s.g, s.refcnt, Held(s.log), s.scheduled, s.owned, s.deleted)
  }

  /** What aborting the open transaction leads back to. */
  ghost function BaseOf(s: Layer): View {
    UndoAll(View(s.g.edges, s.inherits), s.log)
  }

  ghost predicate ValidLayer(kind: Node -> DriverKind, s: Layer) {
    Shape(kind, s) && Balanced(s) && Undoable(View(s.g.edges, s.inherits), s.log)
  }

  /** bdrv_ref, if there is a node */
  function Refd(refcnt: map<Node, int>, target: Option<Node>): map<Node, int>
    requires target.Some? ==> target.value in refcnt
  {
    if target.Some? then refcnt[target.value := refcnt[target.value] + 1] else refcnt
  }

  /** bdrv_replace_child_noperm.  The target of an edge changes only while the edge is not frozen,
      and an edge that gets filled must find its owner's slot free. */
  method ReplaceChildNoperm(g: Graph, e: Edge, target: Option<Node>) returns (g': Graph)
    requires Wf(g) && EdgeOk(g, e) && !g.edges[e].frozen && g.edges[e].bs != target
    requires target.Some? ==> target.value in g.nodes && (g.edges[e].bs.None? ==> SlotFree(g, e))
    ensures Retargeted(g, e, target, g')
  {
    RetargetWf(g, e, target);
    g' := Retarget(g, e, target);
  }

  /** g' is g with the new edge e from c's owner to bs. */
  ghost predicate Attached(g: Graph, e: Edge, c: Child, bs: Node, g': Graph) {
    && Wf(g') && g'.edges == g.edges[e := c.(bs := Some(bs))] && g'.nodes.Keys == g.nodes.Keys
    && forall m {:trigger ParentCount(g', m)} ::
         m in g.nodes ==> ParentCount(g', m) == ParentCount(g, m) + (if m == bs then 1 else 0)
  }

  /** Allocate an edge and point it to bs. */
  method AllocChild(g: Graph, e: Edge, c: Child, bs: Node) returns (g': Graph)
    requires Wf(g) && e !in g.edges && c.bs.None? && !c.frozen && bs in g.nodes
    requires c.owner.OfNode? ==> c.owner.node in g.nodes && OwnerSlotFree(g, c)
    ensures Attached(g, e, c, bs, g')
  {
    var g1 := AddEdge(g, e, c);
    assert EdgeOk(g1, e);
    g' := ReplaceChildNoperm(g1, e, Some(bs));
    assert g1.edges[e := c.(bs := Some(bs))] == g.edges[e := c.(bs := Some(bs))];
  }

  /** The references that move when an edge changes its target. */
  lemma AccountRetarget(
    g: Graph, e: Edge, target: Option<Node>, g': Graph, refcnt: map<Node, int>, refcnt': map<Node, int>,
    held: multiset<Node>, held': multiset<Node>, scheduled: multiset<Node>, scheduled': multiset<Node>,
    owned: multiset<Node>, deleted: set<Node>, deleted': set<Node>)
    requires EdgeOk(g, e) && Retargeted(g, e, target, g')
    requires Accounted(g, refcnt, held, scheduled, owned, deleted)
    requires forall n :: n in g.nodes ==>
      && n in refcnt && n in refcnt'
      && refcnt'[n] + held[n] + scheduled[n] + (if g.edges[e].bs == Some(n) then 1 else 0)
           == refcnt[n] + held'[n] + scheduled'[n] + (if target == Some(n) then 1 else 0)
    requires forall n :: n in deleted' && n in g.nodes ==> refcnt'[n] == 0
    ensures Accounted(g', refcnt', held', scheduled', owned, deleted')
  {
    forall n | n in g'.nodes && n in refcnt'
      ensures refcnt'[n] == ParentCount(g', n) + held'[n] + scheduled'[n] + owned[n]
      ensures n in deleted' ==> refcnt'[n] == 0
    {
      assert refcnt[n] == ParentCount(g, n) + held[n] + scheduled[n] + owned[n];
    }
  }

  /** A node that an edge points to has a reference and has not been deleted. */
  lemma TargetIsAlive(
      g: Graph, refcnt: map<Node, int>, held: multiset<Node>, scheduled: multiset<Node>, owned: multiset<Node>,
      deleted: set<Node>, e: Edge, n: Node)
    requires Wf(g) && PointsTo(g.edges, e, n) && n in g.nodes && n in refcnt
    requires Accounted(g, refcnt, held, scheduled, owned, deleted)
    ensures ParentCount(g, n) > 0 && refcnt[n] > 0 && n !in deleted
  {
    assert NodeOk(g.edges, g.nodes[n], n);
    assert e in g.nodes[n].parents;
    assert refcnt[n] == ParentCount(g, n) + held[n] + scheduled[n] + owned[n];
  }

  lemma AccountAttach(
    g: Graph, g': Graph, bs: Node, refcnt: map<Node, int>, refcnt': map<Node, int>,
    held: multiset<Node>, scheduled: multiset<Node>, owned: multiset<Node>, deleted: set<Node>)
    requires Accounted(g, refcnt, held, scheduled, owned, deleted) && g'.nodes.Keys == g.nodes.Keys
    requires forall m {:trigger ParentCount(g', m)} ::
      m in g.nodes ==> ParentCount(g', m) == ParentCount(g, m) + (if m == bs then 1 else 0)
    requires bs in g.nodes && bs in refcnt && bs !in deleted && refcnt' == refcnt[bs := refcnt[bs] + 1]
    ensures Accounted(g', refcnt', held, scheduled, owned, deleted)
  {
    forall n | n in g'.nodes && n in refcnt'
      ensures refcnt'[n] == ParentCount(g', n) + held[n] + scheduled[n] + owned[n] && (n in deleted ==> refcnt'[n] == 0)
    {
      assert n in refcnt && refcnt[n] == ParentCount(g, n) + held[n] + scheduled[n] + owned[n];
    }
  }

  /** The state in which bdrv_attach_child_common leaves s. */
  ghost function AttachState(s: Layer, e: Edge, g': Graph, refcnt': map<Node, int>): Layer {
    Layer(g', s.inherits, refcnt', s.scheduled, s.deleted, s.log + [AttachChild(e)], s.nextEdge + 1, s.owned)
  }

  lemma AttachShape(kind: Node -> DriverKind, s: Layer, e: Edge, c: Child, bs: Node, g': Graph, refcnt': map<Node, int>)
    requires Tracked(s.g, s.inherits, refcnt') && EdgesKnown(kind, s.g.edges, s.nextEdge)
    requires c.owner.OfNode? ==> kind(c.owner.node) != LeafDriver
    requires e == s.nextEdge && Attached(s.g, e, c, bs, g')
    ensures Shape(kind, AttachState(s, e, g', refcnt'))
  {
    EdgesKnownAdded(kind, s.g.edges, e, c.(bs := Some(bs)), g'.edges, s.nextEdge);
  }

  lemma AttachUndoable(s: Layer, e: Edge, c: Child, bs: Node, g': Graph, refcnt': map<Node, int>)
    requires Undoable(View(s.g.edges, s.inherits), s.log) && c.bs.None? && !c.frozen && e !in s.g.edges
    requires g'.edges == s.g.edges[e := c.(bs := Some(bs))]
    ensures var s' := AttachState(s, e, g', refcnt');
      && Undoable(View(s'.g.edges, s'.inherits), s'.log) && Held(s'.log) == Held(s.log)
      && BaseOf(s') == BaseOf(s) && Removed(s'.log) == Removed(s.log)
  {
    LogAttach(s.g.edges, g'.edges, s.inherits, s.log, e, c.(bs := Some(bs)));
  }

  lemma AttachKeepsValid(
      kind: Node -> DriverKind, s: Layer, e: Edge, c: Child, bs: Node, g': Graph, refcnt': map<Node, int>)
    requires ValidLayer(kind, s) && c.bs.None? && !c.frozen && bs in s.g.nodes && bs !in s.deleted
    requires c.owner.OfNode? ==> c.owner.node in s.g.nodes && kind(c.owner.node) != LeafDriver
    requires e == s.nextEdge && e !in s.g.edges && Attached(s.g, e, c, bs, g') && bs in s.refcnt
    requires refcnt' == Refd(s.refcnt, Some(bs))
    ensures var s' := AttachState(s, e, g', refcnt');
      ValidLayer(kind, s') && BaseOf(s') == BaseOf(s) && Removed(s'.log) == Removed(s.log)
  {
    AttachShape(kind, s, e, c, bs, g', refcnt');
    AttachUndoable(s, e, c, bs, g', refcnt');
    AccountAttach(s.g, g', bs, s.refcnt, refcnt', Held(s.log), s.scheduled, s.owned, s.deleted);
  }

  lemma SetMasksKeepsValid(kind: Node -> DriverKind, s: Layer, e: Edge, perm: Mask, shared: Mask)
    requires ValidLayer(kind, s) && e in s.g.edges
    ensures var u := SetPerm(e, s.g.edges[e].perm, s.g.edges[e].shared);
      var s' := s.(g := SetMasks(s.g, e, perm, shared), log := s.log + [u]);
      ValidLayer(kind, s') && BaseOf(s') == BaseOf(s) && Removed(s'.log) == Removed(s.log)
  {
    var u := SetPerm(e, s.g.edges[e].perm, s.g.edges[e].shared);
    var g' := SetMasks(s.g, e, perm, shared);
    EdgesKnownKept(kind, s.g.edges, e, g'.edges, s.nextEdge);
    assert UndoOne(View(g'.edges, s.inherits), u).edges == s.g.edges;
    LogOne(View(s.g.edges, s.inherits), View(g'.edges, s.inherits), s.log, u);
    HeldOne(s.log, u);
  }

  lemma ReplaceKeepsValid(
      kind: Node -> DriverKind, s: Layer, e: Edge, target: Option<Node>, g': Graph, refcnt': map<Node, int>)
    requires ValidLayer(kind, s) && EdgeOk(s.g, e) && s.g.edges[e].bs.Some? && !s.g.edges[e].frozen
    requires s.g.edges[e].bs != target
    requires target.Some? ==> target.value in s.g.nodes && target.value !in s.deleted && target.value in s.refcnt
    requires Retargeted(s.g, e, target, g') && refcnt' == Refd(s.refcnt, target)
    ensures var s' := s.(g := g', refcnt := refcnt', log := s.log + [ReplaceChild(e, s.g.edges[e].bs.value)]);
      ValidLayer(kind, s') && BaseOf(s') == BaseOf(s) && Removed(s'.log) == Removed(s.log)
  {
    TrackedAt(s.g, s.inherits, s.refcnt, s.g.edges[e].bs);
    LogReplace(s.g, g'.edges, s.inherits, s.log, e, target);
    EdgesKnownKept(kind, s.g.edges, e, g'.edges, s.nextEdge);
    var log' := s.log + [ReplaceChild(e, s.g.edges[e].bs.value)];
    AccountRetarget(s.g, e, target, g', s.refcnt, refcnt', Held(s.log), Held(log'), s.scheduled, s.scheduled, s.owned,
      s.deleted, s.deleted);
  }

  lemma NotRemoved(kind: Node -> DriverKind, s: Layer, e: Edge)
    requires ValidLayer(kind, s) && e in s.g.edges && s.g.edges[e].bs.Some?
    ensures RemoveChild(e) !in s.log
  {
    if RemoveChild(e) in s.log { RemovedStaysEmpty(View(s.g.edges, s.inherits), s.log, e); }
  }

  /** s1 is s after the target of e has been replaced by nothing; logging the removal completes it. */
  lemma RemoveKeepsValid(kind: Node -> DriverKind, s: Layer, s1: Layer, e: Edge)
    requires ValidLayer(kind, s) && e in s.g.edges && s.g.edges[e].bs.Some?
    requires ValidLayer(kind, s1) && e in s1.g.edges && s1.g.edges[e].bs.None?
    requires s1.log == s.log + [ReplaceChild(e, s.g.edges[e].bs.value)]
    ensures var s' := s1.(log := s1.log + [RemoveChild(e)]);
      ValidLayer(kind, s') && BaseOf(s') == BaseOf(s1) && Removed(s'.log) == Removed(s1.log) + {e}
  {
    NotRemoved(kind, s, e);
    var v := View(s1.g.edges, s1.inherits);
    LogOne(v, v, s1.log, RemoveChild(e));
    HeldOne(s1.log, RemoveChild(e));
  }

  /** A reference may pass from an outside owner to a scheduled unref. */
  lemma ReleaseKeepsValid(kind: Node -> DriverKind, s: Layer, n: Node)
    requires ValidLayer(kind, s) && s.owned[n] > 0
    ensures ValidLayer(kind,
        Layer(s.g, s.inherits, s.refcnt, s.scheduled + multiset{n}, s.deleted, s.log, s.nextEdge,
          s.owned - multiset{n}))
  {
    var scheduled', owned' := s.scheduled + multiset{n}, s.owned - multiset{n};
    forall m | m in s.g.nodes && m in s.refcnt
      ensures s.refcnt[m] == ParentCount(s.g, m) + Held(s.log)[m] + scheduled'[m] + owned'[m]
      ensures m in s.deleted ==> s.refcnt[m] == 0
    {
      assert s.refcnt[m] == ParentCount(s.g, m) + Held(s.log)[m] + s.scheduled[m] + s.owned[m];
    }
  }

  /** bdrv_unref of a reference that a scheduled bottom half holds. */
  lemma DropKeepsValid(kind: Node -> DriverKind, s: Layer, n: Node, refcnt': map<Node, int>, deleted': set<Node>)
    requires ValidLayer(kind, s) && s.scheduled[n] > 0 && n in s.refcnt && n in s.g.nodes
    requires refcnt' == s.refcnt[n := s.refcnt[n] - 1]
    requires deleted' == if refcnt'[n] == 0 then s.deleted + {n} else s.deleted
    ensures ValidLayer(kind, s.(refcnt := refcnt', scheduled := s.scheduled - multiset{n}, deleted := deleted'))
  {
    var scheduled' := s.scheduled - multiset{n};
    forall m | m in s.g.nodes && m in refcnt'
      ensures refcnt'[m] == ParentCount(s.g, m) + Held(s.log)[m] + scheduled'[m] + s.owned[m]
      ensures m in deleted' ==> refcnt'[m] == 0
    {
      assert s.refcnt[m] == ParentCount(s.g, m) + Held(s.log)[m] + s.scheduled[m] + s.owned[m];
    }
  }

  /** Taking an edge out of the graph leaves its reference with the caller. */
  lemma UnrefChildKeepsValid(kind: Node -> DriverKind, s: Layer, e: Edge, g1: Graph, g': Graph)
    requires ValidLayer(kind, s) && s.log == [] && EdgeOk(s.g, e) && s.g.edges[e].bs.Some?
    requires Retargeted(s.g, e, None, g1)
    requires Wf(g') && g'.edges == g1.edges - {e} && g'.nodes == g1.nodes
    ensures ValidLayer(kind,
        Layer(g', s.inherits, s.refcnt, s.scheduled, s.deleted, s.log, s.nextEdge,
          s.owned + multiset{s.g.edges[e].bs.value}))
    ensures g'.edges == s.g.edges - {e}
  {
    EdgesKnownFewer(kind, s.g.edges, g'.edges, s.nextEdge);
    var owned' := s.owned + multiset{s.g.edges[e].bs.value};
    forall m | m in g'.nodes && m in s.refcnt
      ensures s.refcnt[m] == ParentCount(g', m) + Held(s.log)[m] + s.scheduled[m] + owned'[m]
      ensures m in s.deleted ==> s.refcnt[m] == 0
    {
      assert s.refcnt[m] == ParentCount(s.g, m) + Held(s.log)[m] + s.scheduled[m] + s.owned[m];
      assert ParentCount(g1, m) == ParentCount(g', m);
    }
  }

  /** A new node has no edges and one reference. */
  lemma NewNodeKeepsValid(kind: Node -> DriverKind, s: Layer, n: Node)
    requires ValidLayer(kind, s) && n !in s.g.nodes && s.log == [] && n !in s.scheduled && n !in s.owned
    requires n !in s.deleted
    ensures ValidLayer(kind,
        Layer(Graph(s.g.edges, s.g.nodes[n := Bds([], [], None, None)]), s.inherits[n := None], s.refcnt[n := 1],
      s.scheduled, s.deleted, s.log, s.nextEdge, s.owned + multiset{n}))
  {
    var g', refcnt', owned' :=
      Graph(s.g.edges, s.g.nodes[n := Bds([], [], None, None)]), s.refcnt[n := 1], s.owned + multiset{n};
    forall e | e in g'.edges ensures EdgeOk(g', e) { assert EdgeOk(s.g, e); }
    forall m | m in g'.nodes ensures NodeOk(g'.edges, g'.nodes[m], m) {
      if m == n {
        forall e
          ensures !PointsTo(g'.edges, e, n) && !ChildOf(g'.edges, e, n)
        {
          assert e in s.g.edges ==> EdgeOk(s.g, e);
        }
      } else {
        assert NodeOk(s.g.edges, s.g.nodes[m], m);
      }
    }
    forall m | m in g'.nodes && m in refcnt'
      ensures refcnt'[m] == ParentCount(g', m) + Held(s.log)[m] + s.scheduled[m] + owned'[m]
      ensures m in s.deleted ==> refcnt'[m] == 0
    {
      if m != n { assert s.refcnt[m] == ParentCount(s.g, m) + Held(s.log)[m] + s.scheduled[m] + s.owned[m]; }
    }
  }

  /** A deleted node is referenced by nothing: no edge, no open transaction, no pending unref. */
  lemma DeletedIsUnreferenced(kind: Node -> DriverKind, s: Layer, n: Node)
    requires ValidLayer(kind, s) && n in s.deleted && n in s.g.nodes
    ensures s.refcnt[n] == 0 && (forall e :: !PointsTo(s.g.edges, e, n)) && n !in Held(s.log) && n !in s.scheduled
    ensures n !in s.owned
  {
    assert s.refcnt[n] == ParentCount(s.g, n) + Held(s.log)[n] + s.scheduled[n] + s.owned[n];
    forall e ensures !PointsTo(s.g.edges, e, n) {
      assert NodeOk(s.g.edges, s.g.nodes[n], n);
      assert e in s.g.nodes[n].parents <==> PointsTo(s.g.edges, e, n);
    }
  }

  // ------------------------------------------------------------------------------------------
  // One step of tran_abort

  /** The state after the newest action is undone, as far as the log is concerned. */
  ghost function Popped(
      s: Layer, g': Graph, inherits': map<Node, Option<Node>>, refcnt': map<Node, int>, scheduled': multiset<Node>,
      deleted': set<Node>): Layer
    requires s.log != []
  {
    Layer(g', inherits', refcnt', scheduled', deleted', s.log[..|s.log| - 1], s.nextEdge, s.owned)
  }

  lemma UndoMasksKeepsValid(kind: Node -> DriverKind, s: Layer)
    requires ValidLayer(kind, s) && s.log != [] && s.log[|s.log| - 1].SetPerm?
    ensures var u := s.log[|s.log| - 1];
      && u.e in s.g.edges
      && var s' := Popped(s, SetMasks(s.g, u.e, u.perm, u.shared), s.inherits, s.refcnt, s.scheduled, s.deleted);
         ValidLayer(kind, s') && BaseOf(s') == BaseOf(s)
  {
    var u := s.log[|s.log| - 1];
    PopLog(View(s.g.edges, s.inherits), s.log);
    var g' := SetMasks(s.g, u.e, u.perm, u.shared);
    EdgesKnownKept(kind, s.g.edges, u.e, g'.edges, s.nextEdge);
  }

  lemma UndoReplaceKeepsValid(
      kind: Node -> DriverKind, s: Layer, e: Edge, was: Node, g': Graph, refcnt': map<Node, int>, deleted': set<Node>)
    requires ValidLayer(kind, s) && s.log != [] && s.log[|s.log| - 1] == ReplaceChild(e, was)
    requires EdgeOk(s.g, e) && Retargeted(s.g, e, Some(was), g')
    requires s.g.edges[e].bs.None? ==> refcnt' == s.refcnt && deleted' == s.deleted
    requires s.g.edges[e].bs.Some? ==>
      var n := s.g.edges[e].bs.value;
      && n in s.refcnt && refcnt' == s.refcnt[n := s.refcnt[n] - 1]
      && deleted' == if refcnt'[n] == 0 then s.deleted + {n} else s.deleted
    ensures var s' := Popped(s, g', s.inherits, refcnt', s.scheduled, deleted');
      ValidLayer(kind, s') && BaseOf(s') == BaseOf(s)
  {
    PopLog(View(s.g.edges, s.inherits), s.log);
    EdgesKnownKept(kind, s.g.edges, e, g'.edges, s.nextEdge);
    if s.g.edges[e].bs.Some? {
      var n := s.g.edges[e].bs.value;
      TargetIsAlive(s.g, s.refcnt, Held(s.log), s.scheduled, s.owned, s.deleted, e, n);
    }
    AccountRetarget(s.g, e, Some(was), g', s.refcnt, refcnt', Held(s.log), Held(s.log[..|s.log| - 1]), s.scheduled,
      s.scheduled, s.owned, s.deleted, deleted');
  }

  /** What bdrv_replace_child_abort relies on. */
  lemma UndoReplaceReady(kind: Node -> DriverKind, s: Layer, e: Edge, was: Node)
    requires ValidLayer(kind, s) && s.log != [] && s.log[|s.log| - 1] == ReplaceChild(e, was)
    ensures EdgeOk(s.g, e) && !s.g.edges[e].frozen && s.g.edges[e].bs != Some(was) && was in s.g.nodes
    ensures s.g.edges[e].bs.None? ==> SlotFree(s.g, e)
    ensures s.g.edges[e].bs.Some? ==> s.g.edges[e].bs.value in s.refcnt && s.refcnt[s.g.edges[e].bs.value] > 0
  {
    PopLog(View(s.g.edges, s.inherits), s.log);
    assert EdgeOk(s.g, e);
    SlotFreeIsUnused(s.g, e);
    if s.g.edges[e].bs.Some? {
      var n := s.g.edges[e].bs.value;
      TrackedAt(s.g, s.inherits, s.refcnt, s.g.edges[e].bs);
      TargetIsAlive(s.g, s.refcnt, Held(s.log), s.scheduled, s.owned, s.deleted, e, n);
    }
  }

  lemma UndoAttachKeepsValid(kind: Node -> DriverKind, s: Layer, e: Edge, g1: Graph, g': Graph)
    requires ValidLayer(kind, s) && s.log != [] && s.log[|s.log| - 1] == AttachChild(e)
    requires EdgeOk(s.g, e) && s.g.edges[e].bs.Some? && Retargeted(s.g, e, None, g1)
    requires Wf(g') && g'.edges == g1.edges - {e} && g'.nodes == g1.nodes
    ensures var s' := Popped(s, g', s.inherits, s.refcnt, s.scheduled + multiset{s.g.edges[e].bs.value}, s.deleted);
      ValidLayer(kind, s') && BaseOf(s') == BaseOf(s)
  {
    PopLog(View(s.g.edges, s.inherits), s.log);
    assert g'.edges == s.g.edges - {e};
    EdgesKnownFewer(kind, s.g.edges, g'.edges, s.nextEdge);
    var scheduled' := s.scheduled + multiset{s.g.edges[e].bs.value};
    AccountRetarget(s.g, e, None, g1, s.refcnt, s.refcnt, Held(s.log), Held(s.log[..|s.log| - 1]), s.scheduled,
      scheduled', s.owned, s.deleted, s.deleted);
  }

  lemma UndoOtherKeepsValid(kind: Node -> DriverKind, s: Layer)
    requires ValidLayer(kind, s) && s.log != []
    requires var u := s.log[|s.log| - 1]; u.DrvSetPerm? || u.RemoveChild? || u.SetInherits?
    ensures var u := s.log[|s.log| - 1];
      var inherits' := if u.SetInherits? then s.inherits[u.n := u.from] else s.inherits;
      var s' := Popped(s, s.g, inherits', s.refcnt, s.scheduled, s.deleted);
      ValidLayer(kind, s') && BaseOf(s') == BaseOf(s)
  {
    PopLog(View(s.g.edges, s.inherits), s.log);
  }

  // ------------------------------------------------------------------------------------------
  // One step of tran_commit

  /** What holds while a commit runs: the log can no longer be undone, but its removals can be done. */
  ghost predicate Committing(kind: Node -> DriverKind, s: Layer) {
    && Shape(kind, s) && Balanced(s) && RemovedOnce(s.log)
    && forall e :: e in Removed(s.log) ==> e in s.g.edges && s.g.edges[e].bs.None?
  }

  lemma CommitReady(kind: Node -> DriverKind, s: Layer)
    requires ValidLayer(kind, s)
    ensures Committing(kind, s)
  {
    var v := View(s.g.edges, s.inherits);
    UndoableRemovesOnce(v, s.log);
    forall e | e in Removed(s.log) ensures e in s.g.edges && s.g.edges[e].bs.None? {
      RemovedIff(s.log, e);
      RemovedStaysEmpty(v, s.log, e);
    }
  }

  lemma CommitKeeps(kind: Node -> DriverKind, s: Layer, g': Graph)
    requires Committing(kind, s) && s.log != []
    requires var u := s.log[|s.log| - 1];
      if u.RemoveChild? then Wf(g') && g'.edges == s.g.edges - {u.e} && g'.nodes == s.g.nodes else g' == s.g
    ensures var u := s.log[|s.log| - 1];
      var scheduled' := if u.ReplaceChild? then s.scheduled + multiset{u.was} else s.scheduled;
      && Committing(kind, Popped(s, g', s.inherits, s.refcnt, scheduled', s.deleted))
      && scheduled' + Held(s.log[..|s.log| - 1]) == s.scheduled + Held(s.log)
    ensures g'.edges == s.g.edges - (Removed(s.log) - Removed(s.log[..|s.log| - 1]))
  {
    EdgesKnownFewer(kind, s.g.edges, g'.edges, s.nextEdge);
    var u := s.log[|s.log| - 1];
    var scheduled' := if u.ReplaceChild? then s.scheduled + multiset{u.was} else s.scheduled;
    forall n | n in g'.nodes && n in s.refcnt
      ensures s.refcnt[n] == ParentCount(g', n) + Held(s.log[..|s.log| - 1])[n] + scheduled'[n] + s.owned[n]
      ensures n in s.deleted ==> s.refcnt[n] == 0
    {
      assert s.refcnt[n] == ParentCount(s.g, n) + Held(s.log)[n] + s.scheduled[n] + s.owned[n];
    }
  }
}

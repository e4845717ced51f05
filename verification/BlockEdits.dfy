/** What every edit of the graph must keep: it stays acyclic, no two parents of a node conflict, and
    no edge is left dangling. */
module BlockEdits {

  import opened Digraph
  import opened BlockGraph
  import opened Lists
  import opened BlockTraversal
  import opened BlockPerms
  import opened BlockRefresh

  /** No two users of any node hold conflicting permissions. */
  ghost predicate Peaceful(edges: map<Edge, Child>) {
    forall n {:trigger Compatible(edges, n)} :: Compatible(edges, n)
  }

  predicate Filled(edges: map<Edge, Child>) {
    forall e :: e in edges ==> edges[e].bs.Some?
  }

  /** Between two operations. */
  ghost predicate Sound(edges: map<Edge, Child>) {
    Acyclic(ArcsOf(edges)) && Peaceful(edges) && Filled(edges)
  }

  // ------------------------------------------------------------------------------------------
  // Arcs

  /** The arc that an edge stands for, if any. */
  function ArcOf(c: Child): Arcs {
    if c.owner.OfNode? && c.bs.Some? then {(c.owner.node, c.bs.value)} else {}
  }

  lemma PutArcs(edges: map<Edge, Child>, e: Edge, c: Child)
    ensures ArcsOf(edges[e := c]) <= ArcsOf(edges) + ArcOf(c)
    ensures ArcOf(c) <= ArcsOf(edges[e := c])
  {
    var edges' := edges[e := c];
    assert edges'[e] == c;
    forall a | a in ArcsOf(edges') ensures a in ArcsOf(edges) + ArcOf(c) {
      var x :|
        x in edges' && edges'[x].owner.OfNode? && edges'[x].bs.Some? && a == (edges'[x].owner.node, edges'[x].bs.value);
      if x != e { assert edges[x] == edges'[x]; }
    }
  }

  /** Changing e loses no arc but e's own. */
  lemma KeptArc(edges: map<Edge, Child>, e: Edge, c: Child, a: (Node, Node))
    requires a in ArcsOf(edges) && (e in edges ==> a !in ArcOf(edges[e]))
    ensures a in ArcsOf(edges[e := c])
  {
    var edges' := edges[e := c];
    var x :| x in edges && edges[x].owner.OfNode? && edges[x].bs.Some? && a == (edges[x].owner.node, edges[x].bs.value);
    assert x in edges' && edges'[x] == edges[x];
  }

  /** An edge whose new target does not reach its owner creates no cycle. */
  lemma PutAcyclic(edges: map<Edge, Child>, e: Edge, c: Child)
    requires Acyclic(ArcsOf(edges))
    requires c.owner.OfNode? && c.bs.Some? ==> !Reaches(ArcsOf(edges), c.bs.value, c.owner.node)
    ensures Acyclic(ArcsOf(edges[e := c]))
  {
    PutArcs(edges, e, c);
    if c.owner.OfNode? && c.bs.Some? {
      NewArcAcyclic(ArcsOf(edges), c.owner.node, c.bs.value);
      FewerArcsAcyclic(ArcsOf(edges[e := c]), ArcsOf(edges) + ArcOf(c));
    } else {
      FewerArcsAcyclic(ArcsOf(edges[e := c]), ArcsOf(edges));
    }
  }

  /** Edge e leaves a node of the subtree of `to`. */
  ghost predicate Beneath(edges: map<Edge, Child>, e: Edge, to: Node) {
    e in edges && edges[e].owner.OfNode? && edges[e].bs.Some? && Reaches(ArcsOf(edges), to, edges[e].owner.node)
  }

  lemma InSubtreeIsBeneath(g: Graph, e: Edge, to: Node)
    requires Wf(g)
    ensures InSubtree(g, e, to) <==> Beneath(g.edges, e, to)
  {
    if v :| v in g.nodes && e in g.nodes[v].children && Reaches(ArcsOf(g.edges), to, v) {
      assert NodeOk(g.edges, g.nodes[v], v);
      assert ChildOf(g.edges, e, v);
    }
    if Beneath(g.edges, e, to) {
      var v := g.edges[e].owner.node;
      assert EdgeOk(g, e) && NodeOk(g.edges, g.nodes[v], v);
      assert ChildOf(g.edges, e, v);
    }
  }

  /** Re-pointing to `to` an edge from outside its subtree keeps that subtree, and makes no cycle. */
  lemma RepointKeepsSubtree(edges: map<Edge, Child>, e: Edge, to: Node, b: Node)
    requires e in edges && edges[e].bs.Some? && !Beneath(edges, e, to)
    ensures var edges' := edges[e := edges[e].(bs := Some(to))];
      Reaches(ArcsOf(edges'), to, b) <==> Reaches(ArcsOf(edges), to, b)
  {
    var c := edges[e].(bs := Some(to));
    var arcs, arcs' := ArcsOf(edges), ArcsOf(edges[e := c]);
    var h := arcs + ArcOf(c);
    PutArcs(edges, e, c);
    if c.owner.OfNode? {
      var o := c.owner.node;
      NewArcKeepsSubtree(arcs, o, to, to, b);
      NewArcKeepsSubtree(arcs, o, to, to, o);
      assert ArcOf(c) == {(o, to)};
    } else {
      assert h == arcs;
    }
    forall x, y | (x, y) in h && (x, y) !in arcs' ensures !Reaches(h, to, x) {
      if (x, y) !in ArcOf(edges[e]) { KeptArc(edges, e, c, (x, y)); }
    }
    DroppedArcsKeepSubtree(h, arcs', to, b);
  }

  lemma RepointAcyclic(edges: map<Edge, Child>, e: Edge, to: Node)
    requires Acyclic(ArcsOf(edges)) && e in edges && edges[e].bs.Some? && !Beneath(edges, e, to)
    ensures Acyclic(ArcsOf(edges[e := edges[e].(bs := Some(to))]))
  {
    PutAcyclic(edges, e, edges[e].(bs := Some(to)));
  }

  // ------------------------------------------------------------------------------------------
  // From an edit to the end of its transaction

  /** Outside of `nodes`, no node has gained a parent or a parent with other masks. */
  ghost predicate NoNewParents(edges: map<Edge, Child>, edges': map<Edge, Child>, nodes: set<Node>) {
    forall e, n :: PointsTo(edges', e, n) && n !in nodes ==> e in edges && edges'[e] == edges[e]
  }

  /** A set of nodes that contains the children of its members. */
  ghost predicate ChildClosed(edges: map<Edge, Child>, nodes: set<Node>) {
    forall e, p, n :: ChildOf(edges, e, p) && p in nodes && PointsTo(edges, e, n) ==> n in nodes
  }

  lemma SubtreesClosed(g: Graph, nodes: seq<Node>)
    requires Wf(g)
    ensures ChildClosed(g.edges, Subtrees(g, nodes))
  {
    var arcs := ArcsOf(g.edges);
    forall e, p, n | ChildOf(g.edges, e, p) && p in Subtrees(g, nodes) && PointsTo(g.edges, e, n)
      ensures n in Subtrees(g, nodes)
    {
      var r :| r in nodes && Reaches(arcs, r, p);
      assert EdgeOk(g, e);
      ArcIff(g.edges, p, n);
      ArcReaches(arcs, p, n);
      ReachesTrans(arcs, r, p, n);
    }
  }

  lemma SubtreesSame(g: Graph, g': Graph, nodes: seq<Node>)
    requires ArcsOf(g'.edges) == ArcsOf(g.edges) && g'.nodes.Keys == g.nodes.Keys
    ensures Subtrees(g', nodes) == Subtrees(g, nodes)
  {
  }

  lemma RefreshKeepsPeace(edges: map<Edge, Child>, edges1: map<Edge, Child>, edges2: map<Edge, Child>, nodes: set<Node>)
    requires Peaceful(edges) && NoNewParents(edges, edges1, nodes) && ChildClosed(edges1, nodes)
    requires MasksOnly(edges1, edges2, nodes)
    requires forall n {:trigger Compatible(edges2, n)} :: n in nodes ==> Compatible(edges2, n)
    ensures Peaceful(edges2)
  {
    forall n ensures Compatible(edges2, n) {
      assert Compatible(edges, n);
      if n !in nodes {
        forall e | PointsTo(edges2, e, n) ensures PointsTo(edges, e, n) && edges2[e] == edges[e] {
          assert PointsTo(edges1, e, n);
        }
      }
    }
  }

  /** Freeing empty edges changes nothing that can be observed. */
  lemma FreeingEmptyEdges(edges: map<Edge, Child>, doomed: set<Edge>)
    requires forall e :: e in doomed && e in edges ==> edges[e].bs.None?
    ensures ArcsOf(edges - doomed) == ArcsOf(edges)
    ensures Peaceful(edges) ==> Peaceful(edges - doomed)
    ensures forall e, n ::
      PointsTo(edges - doomed, e, n) == PointsTo(edges, e, n) && ChildOf(edges - doomed, e, n) == ChildOf(edges, e, n)
  {
    var edges' := edges - doomed;
    forall a | a in ArcsOf(edges) ensures a in ArcsOf(edges') {
      var x :|
        x in edges && edges[x].owner.OfNode? && edges[x].bs.Some? && a == (edges[x].owner.node, edges[x].bs.value);
      assert x in edges' && edges'[x] == edges[x];
    }
    forall a | a in ArcsOf(edges') ensures a in ArcsOf(edges) {
      var x :|
        x in edges' && edges'[x].owner.OfNode? && edges'[x].bs.Some? && a == (edges'[x].owner.node, edges'[x].bs.value);
      assert x in edges && edges'[x] == edges[x];
    }
    if Peaceful(edges) {
      forall n ensures Compatible(edges', n) {
        assert Compatible(edges, n);
        forall e | PointsTo(edges', e, n) ensures PointsTo(edges, e, n) && edges'[e] == edges[e] {}
      }
    }
  }

  lemma SettledWithoutEmpty(d: Drivers, kind: Node -> DriverKind, g: Graph, g': Graph, doomed: set<Edge>, n: Node)
    requires Wf(g) && n in g.nodes && Settled(d, kind, g, n) && g'.nodes == g.nodes && g'.edges == g.edges - doomed
    requires forall e :: e in doomed && e in g.edges ==> g.edges[e].bs.None?
    ensures Settled(d, kind, g', n)
  {
    assert NodeOk(g.edges, g.nodes[n], n);
    CumSameOn(g.edges, g'.edges, g.nodes[n].parents);
    forall a | PointsTo(g'.edges, a, n) ensures PointsTo(g.edges, a, n) && g'.edges[a] == g.edges[a] {}
    forall e | ChildOf(g'.edges, e, n) ensures ChildOf(g.edges, e, n) && g'.edges[e] == g.edges[e] {}
  }

  lemma {:induction false} CumSameOn(edges: map<Edge, Child>, edges': map<Edge, Child>, es: seq<Edge>)
    requires forall e :: e in es ==> e in edges && e in edges' && edges'[e] == edges[e]
    ensures CumPerm(edges', es) == CumPerm(edges, es) && CumShared(edges', es) == CumShared(edges, es)
  {
    if es != [] {
      assert es[|es| - 1] in es;
      CumSameOn(edges, edges', es[..|es| - 1]);
    }
  }

  /** What a successful permission update leaves behind. */
  ghost predicate Refreshed(d: Drivers, kind: Node -> DriverKind, g: Graph, g': Graph, nodes: seq<Node>) {
    g' == g.(edges := g'.edges) && Solves(d, kind, g, g'.edges, Subtrees(g, nodes))
  }

  /** The edit that made `edges` has gone through: below `nodes` everything is settled, and the
      graph has these edges with nothing changed but masks below `nodes`. */
  ghost predicate EditDone(d: Drivers, kind: Node -> DriverKind, edges: map<Edge, Child>, g': Graph, nodes: seq<Node>) {
    && MasksOnly(edges, g'.edges, Subtrees(g', nodes))
    && forall n :: n in Subtrees(g', nodes) ==> n in g'.nodes && Settled(d, kind, g', n)
  }

  /** An edit that can be completed: outside of the subtrees of `nodes` no node has gained a parent,
      and the edges without a target are the doomed ones. */
  ghost predicate EditReady(edges: map<Edge, Child>, g: Graph, nodes: seq<Node>, doomed: set<Edge>) {
    && Peaceful(edges) && NoNewParents(edges, g.edges, Subtrees(g, nodes)) && Acyclic(ArcsOf(g.edges))
    && forall e :: e in g.edges ==> (e in doomed <==> g.edges[e].bs.None?)
  }

  /** The whole way of an edit: g after the edit, g' after the permission update, g'' after the
      commit. */
  lemma EditSucceeds(
      d: Drivers, kind: Node -> DriverKind, edges: map<Edge, Child>, g: Graph, g': Graph, g'': Graph, nodes: seq<Node>,
      doomed: set<Edge>)
    requires EditReady(edges, g, nodes, doomed) && Wf(g) && Wf(g') && Refreshed(d, kind, g, g', nodes)
    requires g''.nodes == g'.nodes && g''.edges == g'.edges - doomed
    ensures Sound(g''.edges) && EditDone(d, kind, g.edges - doomed, g'', nodes)
  {
    MasksOnlyMore(g.edges, g'.edges, Inner(kind, Subtrees(g, nodes)), Subtrees(g, nodes));
    MasksOnlyArcs(g.edges, g'.edges, Subtrees(g, nodes));
    FreeingEmptyEdges(g'.edges, doomed);
    SubtreesSame(g, g'', nodes);
    SubtreesClosed(g, nodes);
    RefreshKeepsPeace(edges, g.edges, g'.edges, Subtrees(g, nodes));
    forall n | n in Subtrees(g'', nodes) ensures Settled(d, kind, g'', n) {
      SettledWithoutEmpty(d, kind, g', g'', doomed, n);
    }
    MasksOnlyWithout(g.edges, g'.edges, Subtrees(g, nodes), doomed);
  }

  lemma MasksOnlyWithout(edges: map<Edge, Child>, edges': map<Edge, Child>, owners: set<Node>, doomed: set<Edge>)
    requires MasksOnly(edges, edges', owners)
    ensures MasksOnly(edges - doomed, edges' - doomed, owners)
  {
    var edges0, edges1 := edges - doomed, edges' - doomed;
    forall e | e in edges0 ensures edges0[e] == edges[e] && edges1[e] == edges'[e]
      ensures (forall x :: x in owners ==> !ChildOf(edges0, e, x)) ==> edges1[e] == edges0[e]
    {
      if forall x :: x in owners ==> !ChildOf(edges0, e, x) {
        forall x | x in owners ensures !ChildOf(edges, e, x) { assert !ChildOf(edges0, e, x); }
      }
    }
  }

  /** An edge to bs does not belong to bs's own subtree, so the update of that subtree skips it. */
  lemma OwnEdgeKept(g: Graph, edges': map<Edge, Child>, e: Edge, bs: Node)
    requires Acyclic(ArcsOf(g.edges)) && PointsTo(g.edges, e, bs) && MasksOnly(g.edges, edges', Subtrees(g, [bs]))
    ensures edges'[e] == g.edges[e]
  {
    forall x | x in Subtrees(g, [bs]) ensures !ChildOf(g.edges, e, x) {
      ArcIff(g.edges, x, bs);
      var r :| r in [bs] && Reaches(ArcsOf(g.edges), r, x);
    }
  }

  lemma InOwnSubtree(g: Graph, nodes: seq<Node>, n: Node)
    requires n in g.nodes && n in nodes
    ensures n in Subtrees(g, nodes)
  {
    ReachesSelf(ArcsOf(g.edges), n);
  }

  lemma ChildInSubtree(g: Graph, nodes: seq<Node>, p: Node, e: Edge, n: Node)
    requires p in g.nodes && n in g.nodes && p in nodes && ChildOf(g.edges, e, p) && PointsTo(g.edges, e, n)
    ensures n in Subtrees(g, nodes)
  {
    ArcIff(g.edges, p, n);
    ArcReaches(ArcsOf(g.edges), p, n);
  }

  /** The requested masks need nothing new and share at least as much. */
  predicate Loosening(c: Child, perm: Mask, shared: Mask) {
    perm <= c.perm && c.shared <= shared
  }

  /** The edge holds the masks, and everything below it is settled. */
  ghost predicate Installed(
      d: Drivers, kind: Node -> DriverKind, g: Graph, g': Graph, e: Edge, perm: Mask, shared: Mask)
    requires e in g.edges && g.edges[e].bs.Some?
  {
    var edges := g.edges[e := g.edges[e].(perm := perm, shared := shared)];
    e in g'.edges && g'.edges[e] == edges[e] && EditDone(d, kind, edges, g', [g.edges[e].bs.value])
  }

  lemma MasksReady(g: Graph, g1: Graph, e: Edge)
    requires Wf(g) && Sound(g.edges) && e in g.edges && e in g1.edges && g1.nodes == g.nodes
    requires g1.edges == g.edges[e := g1.edges[e]]
    requires g1.edges[e] == g.edges[e].(perm := g1.edges[e].perm, shared := g1.edges[e].shared)
    ensures g.edges[e].bs.value in g.nodes && EditReady(g.edges, g1, [g.edges[e].bs.value], {})
  {
    var bs := g.edges[e].bs.value;
    assert EdgeOk(g, e);
    SameArcs(g.edges, g1.edges);
    InOwnSubtree(g1, [bs], bs);
  }

  lemma MasksInstalled(d: Drivers, kind: Node -> DriverKind, g: Graph, g1: Graph, g': Graph, e: Edge)
    requires e in g.edges && e in g1.edges && g1 == g.(edges := g.edges[e := g1.edges[e]])
    requires g1.edges[e] == g.edges[e].(perm := g1.edges[e].perm, shared := g1.edges[e].shared) && g.edges[e].bs.Some?
    requires Acyclic(ArcsOf(g1.edges)) && EditDone(d, kind, g1.edges - {}, g', [g.edges[e].bs.value])
    requires g'.nodes.Keys == g1.nodes.Keys
    ensures Installed(d, kind, g, g', e, g1.edges[e].perm, g1.edges[e].shared)
  {
    var bs := g.edges[e].bs.value;
    assert g1.edges - {} == g1.edges;
    assert PointsTo(g1.edges, e, bs);
    MasksOnlyArcs(g1.edges, g'.edges, Subtrees(g', [bs]));
    SubtreesSame(g1, g', [bs]);
    OwnEdgeKept(g1, g'.edges, e, bs);
  }

  /** Where the masks of one edge are not the point, its final masks may stand for the ones it had
      before the update. */
  lemma EditDoneOwn(
      d: Drivers, kind: Node -> DriverKind, edges: map<Edge, Child>, e: Edge, c: Child, g': Graph, nodes: seq<Node>)
    requires EditDone(d, kind, edges[e := c] - {}, g', nodes)
    ensures e in g'.edges && g'.edges[e] == c.(perm := g'.edges[e].perm, shared := g'.edges[e].shared)
    ensures EditDone(d, kind, edges[e := g'.edges[e]], g', nodes)
  {
    var edges1 := edges[e := c];
    assert edges1 - {} == edges1;
    assert e in edges1;
    var edges2 := edges[e := g'.edges[e]];
    var owners := Subtrees(g', nodes);
    forall x | x in edges2
      ensures g'.edges[x] == edges2[x].(perm := g'.edges[x].perm, shared := g'.edges[x].shared)
      ensures (forall p :: p in owners ==> !ChildOf(edges2, x, p)) ==> g'.edges[x] == edges2[x]
    {
      assert x in edges1 && (x != e ==> edges1[x] == edges2[x]);
      assert x != e ==> forall p :: ChildOf(edges1, x, p) == ChildOf(edges2, x, p);
    }
  }

  lemma SameArcs(edges: map<Edge, Child>, edges': map<Edge, Child>)
    requires edges'.Keys == edges.Keys
    requires forall e :: e in edges ==> edges'[e].owner == edges[e].owner && edges'[e].bs == edges[e].bs
    ensures ArcsOf(edges') == ArcsOf(edges)
  {
    forall a | a in ArcsOf(edges) ensures a in ArcsOf(edges') {
      var x :|
        x in edges && edges[x].owner.OfNode? && edges[x].bs.Some? && a == (edges[x].owner.node, edges[x].bs.value);
      assert edges'[x].owner == edges[x].owner;
    }
    forall a | a in ArcsOf(edges') ensures a in ArcsOf(edges) {
      var x :|
        x in edges' && edges'[x].owner.OfNode? && edges'[x].bs.Some? && a == (edges'[x].owner.node, edges'[x].bs.value);
      assert edges'[x].owner == edges[x].owner;
    }
  }

  /** The edge that bdrv_attach_child_noperm makes: its driver computes the first masks. */
  function NewLink(d: Drivers, g: Graph, parent: Node, child: Node, slot: Slot, role: nat): Child
    requires parent in g.nodes
  {
    var ps := g.nodes[parent].parents;
    var (perm, shared) := ChildPerm(d, parent, None, role, Some(child), CumPerm(g.edges, ps), CumShared(g.edges, ps));
    Child(OfNode(parent), slot, role, Some(child), perm, shared, false, false)
  }

  /** A new edge that closes no cycle can be completed by an update from its owner, or, for a root
      edge, from its target. */
  lemma AttachReady(g: Graph, g1: Graph, e: Edge, c: Child, start: Node)
    requires Sound(g.edges) && e !in g.edges && g1.edges == g.edges[e := c] && c.bs.Some? && c.bs.value in g1.nodes
    requires start in g1.nodes
    requires if c.owner.OfNode? then start == c.owner.node && !Reaches(ArcsOf(g.edges), c.bs.value, start)
      else start == c.bs.value
    ensures EditReady(g.edges, g1, [start], {})
  {
    PutAcyclic(g.edges, e, c);
    var n := c.bs.value;
    if c.owner.OfNode? {
      assert ChildOf(g1.edges, e, start) && PointsTo(g1.edges, e, n);
      ChildInSubtree(g1, [start], start, e, n);
    } else {
      InOwnSubtree(g1, [start], start);
    }
  }

  /** g' is g with the new edge e, which is c up to the masks that the owner's driver decides, and
      everything below `start` is settled. */
  ghost predicate AttachDone(d: Drivers, kind: Node -> DriverKind, g: Graph, g': Graph, e: Edge, c: Child, start: Node)
  {
    && e !in g.edges && e in g'.edges
    && g'.edges[e] == (if c.owner.OfRoot? then c else c.(perm := g'.edges[e].perm, shared := g'.edges[e].shared))
    && EditDone(d, kind, g.edges[e := g'.edges[e]], g', [start])
  }

  // ------------------------------------------------------------------------------------------
  // Moving the parents of one node to another

  /** should_update_child, on edges */
  ghost predicate Movable(edges: map<Edge, Child>, e: Edge, to: Node) {
    e in edges && !edges[e].stayAtNode && !Beneath(edges, e, to)
  }

  ghost function MoveOne(edges: map<Edge, Child>, e: Edge, from: Node, to: Node): Child
    requires e in edges
  {
    if edges[e].bs == Some(from) && Movable(edges, e, to) then edges[e].(bs := Some(to)) else edges[e]
  }

  /** Every parent of `from` that may move points to `to` instead. */
  ghost function MoveParents(edges: map<Edge, Child>, from: Node, to: Node): map<Edge, Child> {
    map e | e in edges :: MoveOne(edges, e, from, to)
  }

  /** bdrv_replace_node_noperm gives up unless every parent may be moved, or at least skipped. */
  ghost predicate MayReplace(edges: map<Edge, Child>, from: Node, to: Node, autoSkip: bool) {
    forall e :: PointsTo(edges, e, from) ==> if Movable(edges, e, to) then !edges[e].frozen else autoSkip
  }

  /** The loop of bdrv_replace_node_noperm has dealt with the parents ps[..i]. */
  ghost predicate Moving(edges: map<Edge, Child>, edges': map<Edge, Child>, from: Node, to: Node, ps: seq<Edge>, i: nat)
    requires i <= |ps|
  {
    && edges'.Keys == edges.Keys
    && (forall e :: e in edges && e in ps[..i] ==> edges'[e] == MoveOne(edges, e, from, to))
    && (forall e :: e in edges && e !in ps[..i] ==> edges'[e] == edges[e])
    && (forall b :: Reaches(ArcsOf(edges'), to, b) <==> Reaches(ArcsOf(edges), to, b))
  }

  lemma MovingSame(edges: map<Edge, Child>, edges': map<Edge, Child>, from: Node, to: Node, ps: seq<Edge>, i: nat)
    requires i < |ps| && NoDup(ps) && Moving(edges, edges', from, to, ps, i) && ps[i] in edges
    ensures edges'[ps[i]] == edges[ps[i]] && (Movable(edges', ps[i], to) <==> Movable(edges, ps[i], to))
  {
    var c := ps[i];
    assert c !in ps[..i];
  }

  lemma MovingSkip(edges: map<Edge, Child>, edges': map<Edge, Child>, from: Node, to: Node, ps: seq<Edge>, i: nat)
    requires i < |ps| && NoDup(ps) && Moving(edges, edges', from, to, ps, i) && ps[i] in edges
    requires !Movable(edges, ps[i], to)
    ensures Moving(edges, edges', from, to, ps, i + 1)
  {
    MovingSame(edges, edges', from, to, ps, i);
    assert ps[..i + 1] == ps[..i] + [ps[i]];
  }

  lemma MovingStep(
      edges: map<Edge, Child>, edges': map<Edge, Child>, edges'': map<Edge, Child>, from: Node, to: Node, ps: seq<Edge>,
      i: nat)
    requires i < |ps| && NoDup(ps) && Moving(edges, edges', from, to, ps, i)
    requires PointsTo(edges, ps[i], from) && Movable(edges, ps[i], to) && ps[i] in edges' && Acyclic(ArcsOf(edges'))
    requires edges'' == edges'[ps[i] := edges'[ps[i]].(bs := Some(to))]
    ensures Moving(edges, edges'', from, to, ps, i + 1) && Acyclic(ArcsOf(edges''))
  {
    var c := ps[i];
    MovingSame(edges, edges', from, to, ps, i);
    assert ps[..i + 1] == ps[..i] + [c];
    forall b ensures Reaches(ArcsOf(edges''), to, b) <==> Reaches(ArcsOf(edges), to, b) {
      RepointKeepsSubtree(edges', c, to, b);
    }
    RepointAcyclic(edges', c, to);
    forall e | e in edges && e in ps[..i + 1] ensures edges''[e] == MoveOne(edges, e, from, to) {
      assert e != c ==> e in ps[..i];
    }
  }

  lemma MovingDone(edges: map<Edge, Child>, edges': map<Edge, Child>, from: Node, to: Node, ps: seq<Edge>)
    requires Moving(edges, edges', from, to, ps, |ps|) && ParentsOk(edges, ps, from)
    ensures edges' == MoveParents(edges, from, to)
  {
    assert ps[..|ps|] == ps;
    forall e | e in edges ensures edges'[e] == MoveOne(edges, e, from, to) {
      assert e in ps <==> PointsTo(edges, e, from);
    }
  }

  /** After a replacement only the parents that may not move are left on `from`. */
  lemma LeftOnFrom(
      d: Drivers, kind: Node -> DriverKind, edges: map<Edge, Child>, from: Node, to: Node, doomed: set<Edge>, g': Graph,
      nodes: seq<Node>, e: Edge)
    requires from != to && EditDone(d, kind, MoveParents(edges, from, to) - doomed, g', nodes)
    ensures PointsTo(g'.edges, e, from) <==>
      && e !in doomed && PointsTo(edges, e, from) && (edges[e].stayAtNode || Beneath(edges, e, to))
  {
    var moved := MoveParents(edges, from, to);
    var edges' := moved - doomed;
    assert e in edges' <==> e in edges && e !in doomed;
    assert e in edges' ==> edges'[e] == MoveOne(edges, e, from, to) && g'.edges[e].bs == edges'[e].bs;
  }

  lemma ReplaceReady(edges: map<Edge, Child>, g: Graph, from: Node, to: Node)
    requires Sound(edges) && Acyclic(ArcsOf(g.edges)) && to in g.nodes && g.edges == MoveParents(edges, from, to)
    ensures EditReady(edges, g, [from, to], {})
  {
    InOwnSubtree(g, [from, to], to);
    forall e, n | PointsTo(g.edges, e, n) && n !in Subtrees(g, [from, to])
      ensures e in edges && g.edges[e] == edges[e]
    {
      assert g.edges[e] == MoveOne(edges, e, from, to);
    }
    forall e | e in g.edges ensures g.edges[e].bs.Some? {
      assert g.edges[e] == MoveOne(edges, e, from, to);
    }
  }

  /** Replacing a node and removing one more edge x. */
  lemma DetachReady(edges: map<Edge, Child>, g: Graph, from: Node, to: Node, x: Edge)
    requires Sound(edges) && Acyclic(ArcsOf(MoveParents(edges, from, to))) && to in g.nodes && x in edges
    requires g.edges == MoveParents(edges, from, to)[x := MoveOne(edges, x, from, to).(bs := None)]
    ensures EditReady(edges, g, [from, to], {x})
  {
    InOwnSubtree(g, [from, to], to);
    PutAcyclic(MoveParents(edges, from, to), x, MoveOne(edges, x, from, to).(bs := None));
    forall e | e in g.edges ensures e != x ==> g.edges[e] == MoveOne(edges, e, from, to) {}
    forall e, n | PointsTo(g.edges, e, n) && n !in Subtrees(g, [from, to])
      ensures e in edges && g.edges[e] == edges[e]
    {
      assert e != x && g.edges[e] == MoveOne(edges, e, from, to);
    }
  }

  lemma DetachedEdges(edges: map<Edge, Child>, edges': map<Edge, Child>, x: Edge)
    requires x in edges' && edges' == edges[x := edges'[x]]
    ensures edges' - {x} == edges - {x}
  {
  }

  /** Moving parents fills and empties no slot. */
  lemma SlotsKept(g: Graph, g': Graph, from: Node, to: Node, n: Node)
    requires Wf(g) && Wf(g') && g'.edges == MoveParents(g.edges, from, to) && n in g.nodes && n in g'.nodes
    ensures g'.nodes[n].backing == g.nodes[n].backing && g'.nodes[n].file == g.nodes[n].file
  {
    assert NodeOk(g.edges, g.nodes[n], n) && NodeOk(g'.edges, g'.nodes[n], n);
    forall e, slot ensures InSlot(g'.edges, e, n, slot) <==> InSlot(g.edges, e, n, slot) {
      if e in g.edges { assert g'.edges[e] == MoveOne(g.edges, e, from, to); }
    }
    assert SlotOk(g'.edges, g.nodes[n].backing, n, BackingSlot) && SlotOk(g'.edges, g.nodes[n].file, n, FileSlot);
    SameSlot(g'.edges, g.nodes[n].backing, g'.nodes[n].backing, n, BackingSlot);
    SameSlot(g'.edges, g.nodes[n].file, g'.nodes[n].file, n, FileSlot);
  }

  /** Putting `top` below `new` and moving top's parents to new. */
  lemma AppendReady(edges: map<Edge, Child>, g: Graph, e: Edge, c: Child, top: Node, newBs: Node)
    requires Sound(edges) && Acyclic(ArcsOf(g.edges)) && top in g.nodes && newBs in g.nodes && e !in edges
    requires c.owner == OfNode(newBs) && c.bs == Some(top)
    requires g.edges == MoveParents(edges[e := c], top, newBs)
    ensures EditReady(edges, g, [newBs], {}) && e in g.edges && g.edges[e] == c
  {
    var edges1 := edges[e := c];
    NotMoved(edges1, e, top, newBs);
    InOwnSubtree(g, [newBs], newBs);
    assert ChildOf(g.edges, e, newBs) && PointsTo(g.edges, e, top);
    ChildInSubtree(g, [newBs], newBs, e, top);
    forall x | x in g.edges ensures g.edges[x] == MoveOne(edges1, x, top, newBs) {}
    forall x, n | PointsTo(g.edges, x, n) && n !in Subtrees(g, [newBs]) ensures x in edges && g.edges[x] == edges[x] {
      assert x != e && g.edges[x] == MoveOne(edges1, x, top, newBs);
    }
  }

  /** The new edge lies below its owner, so it stays where it is. */
  lemma NotMoved(edges: map<Edge, Child>, e: Edge, from: Node, to: Node)
    requires e in edges && edges[e].owner == OfNode(to) && edges[e].bs.Some?
    ensures MoveOne(edges, e, from, to) == edges[e]
  {
    ReachesSelf(ArcsOf(edges), to);
  }

  lemma MoveParentsMasks(edges: map<Edge, Child>, e: Edge, c: Child, c': Child, from: Node, to: Node)
    requires c.owner == OfNode(to) && c.bs.Some? && c' == c.(perm := c'.perm, shared := c'.shared)
    ensures MoveParents(edges[e := c'], from, to) == MoveParents(edges[e := c], from, to)[e := c']
  {
    var edges1, edges2 := edges[e := c], edges[e := c'];
    SameArcs(edges1, edges2);
    NotMoved(edges1, e, from, to);
    NotMoved(edges2, e, from, to);
    forall x | x in edges2 ensures MoveOne(edges2, x, from, to) == if x == e then c' else MoveOne(edges1, x, from, to) {
      assert x != e ==> edges1[x] == edges2[x];
    }
  }

  /** The outcome of an append, with the final masks of the new edge. */
  lemma AppendFinished(
      d: Drivers, kind: Node -> DriverKind, edges: map<Edge, Child>, e: Edge, c: Child, top: Node, newBs: Node,
      g': Graph)
    requires c.owner == OfNode(newBs) && c.bs == Some(top)
    requires EditDone(d, kind, MoveParents(edges[e := c], top, newBs) - {}, g', [newBs])
    ensures e in g'.edges && g'.edges[e] == c.(perm := g'.edges[e].perm, shared := g'.edges[e].shared)
    ensures EditDone(d, kind, MoveParents(edges[e := g'.edges[e]], top, newBs), g', [newBs])
  {
    var moved := MoveParents(edges[e := c], top, newBs);
    NotMoved(edges[e := c], e, top, newBs);
    assert moved[e := c] == moved;
    EditDoneOwn(d, kind, moved, e, c, g', [newBs]);
    MoveParentsMasks(edges, e, c, g'.edges[e], top, newBs);
  }

  // ------------------------------------------------------------------------------------------
  // Backing chains

  /** bdrv_filter_or_cow_child */
  function ChainEdge(kind: Node -> DriverKind, isFilter: Node -> bool, g: Graph, n: Node): Option<Edge>
    requires n in g.nodes
  {
    if kind(n) == NoDriver then None
    else if isFilter(n) && g.nodes[n].backing.None? then g.nodes[n].file
    else g.nodes[n].backing
  }

  /** The node below n in its chain is `next`. */
  predicate ChainStep(kind: Node -> DriverKind, isFilter: Node -> bool, g: Graph, n: Node, next: Node) {
    && n in g.nodes && ChainEdge(kind, isFilter, g, n).Some?
    && PointsTo(g.edges, ChainEdge(kind, isFilter, g, n).value, next)
  }

  ghost predicate Chain(kind: Node -> DriverKind, isFilter: Node -> bool, g: Graph, p: seq<Node>) {
    p != [] && forall i :: 0 <= i < |p| - 1 ==> ChainStep(kind, isFilter, g, p[i], p[i + 1])
  }

  /** bdrv_chain_contains */
  ghost predicate ChainContains(kind: Node -> DriverKind, isFilter: Node -> bool, g: Graph, from: Node, to: Node) {
    exists p :: Chain(kind, isFilter, g, p) && p[0] == from && p[|p| - 1] == to
  }

  /** The loop of bdrv_replace_node_common that finds the node just above `to`. */
  method CowParent(kind: Node -> DriverKind, isFilter: Node -> bool, g: Graph, from: Node, to: Node) returns (n: Node)
    requires ChainContains(kind, isFilter, g, from, to) && from != to
    ensures ChainStep(kind, isFilter, g, n, to) && ChainContains(kind, isFilter, g, from, n)
  {
    ghost var p :| Chain(kind, isFilter, g, p) && p[0] == from && p[|p| - 1] == to;
    n := from;
    ghost var i := 0;
    assert ChainStep(kind, isFilter, g, p[i], p[i + 1]);
    while g.edges[ChainEdge(kind, isFilter, g, n).value].bs != Some(to)
      invariant 0 <= i < |p| - 1 && n == p[i] && ChainStep(kind, isFilter, g, p[i], p[i + 1])
      decreases |p| - i
    {
      n := g.edges[ChainEdge(kind, isFilter, g, n).value].bs.value;
      i := i + 1;
      assert ChainStep(kind, isFilter, g, p[i], p[i + 1]);
    }
    ghost var q := p[..i + 1];
    assert forall k :: 0 <= k < |q| - 1 ==> ChainStep(kind, isFilter, g, p[k], p[k + 1]);
    assert Chain(kind, isFilter, g, q) && q[0] == from && q[|q| - 1] == n;
  }

  /** x is the link to `to` in the chain of `from`. */
  ghost predicate ChainLink(kind: Node -> DriverKind, isFilter: Node -> bool, g: Graph, from: Node, to: Node, x: Edge) {
    exists n ::
      && ChainContains(kind, isFilter, g, from, n) && ChainStep(kind, isFilter, g, n, to)
      && ChainEdge(kind, isFilter, g, n) == Some(x)
  }

  // ------------------------------------------------------------------------------------------
  // Replacing the backing or file link

  /** bs->backing or bs->file */
  function LinkOf(b: Bds, slot: Slot): Option<Edge> {
    match slot case BackingSlot => b.backing case FileSlot => b.file case NoSlot => None
  }

  function LinkSet(link: Option<Edge>): set<Edge> {
    if link.Some? then {link.value} else {}
  }

  /** The edges with the old link emptied. */
  ghost function Unlinked(edges: map<Edge, Child>, link: Option<Edge>): map<Edge, Child>
    requires link.Some? ==> link.value in edges
  {
    if link.Some? then edges[link.value := edges[link.value].(bs := None)] else edges
  }

  const CHILD_FILTERED: nat := 4
  const CHILD_COW: nat := 8
  const CHILD_PRIMARY: nat := 16

  /** The role of the new link: a filter's child is always filtered and primary; a file link keeps its
      role. */
  function LinkRole(isFilter: Node -> bool, g: Graph, p: Node, slot: Slot): nat
    requires p in g.nodes
  {
    var link := LinkOf(g.nodes[p], slot);
    if isFilter(p) then CHILD_FILTERED + CHILD_PRIMARY
    else if slot == BackingSlot then CHILD_COW
    else if link.Some? && link.value in g.edges then g.edges[link.value].role
    else 0
  }

  /** An edge from parent to child before any masks are computed. */
  function BareLink(parent: Node, child: Node, slot: Slot, role: nat): Child {
    Child(OfNode(parent), slot, role, Some(child), {}, {}, false, false)
  }

  predicate SameButMasks(c: Child, c': Child) {
    c == c'.(perm := c.perm, shared := c.shared)
  }

  /** The edges after the link is replaced by edge x, or removed. */
  ghost function RelinkedEdges(
      isFilter: Node -> bool, g: Graph, p: Node, slot: Slot, target: Option<Node>, x: Edge): map<Edge, Child>
    requires p in g.nodes && (LinkOf(g.nodes[p], slot).Some? ==> LinkOf(g.nodes[p], slot).value in g.edges)
  {
    var unlinked := Unlinked(g.edges, LinkOf(g.nodes[p], slot));
    if target.Some? then unlinked[x := BareLink(p, target.value, slot, LinkRole(isFilter, g, p, slot))] else unlinked
  }

  /** What bdrv_set_file_or_backing_noperm checks before it changes anything. */
  predicate MayRelink(
      kind: Node -> DriverKind, isFilter: Node -> bool, g: Graph, p: Node, slot: Slot, supportsBacking: bool)
    requires p in g.nodes
  {
    var link := LinkOf(g.nodes[p], slot);
    && kind(p) != NoDriver
    && !(link.Some? && link.value in g.edges && g.edges[link.value].frozen)
    && (slot == BackingSlot ==> isFilter(p) || supportsBacking)
    && (slot == FileSlot && !isFilter(p) ==> link.Some?)
  }

  lemma LinkIsEdge(g: Graph, n: Node, slot: Slot)
    requires Wf(g) && n in g.nodes
    ensures LinkOf(g.nodes[n], slot).Some? ==> InSlot(g.edges, LinkOf(g.nodes[n], slot).value, n, slot)
  {
    assert NodeOk(g.edges, g.nodes[n], n);
    if slot == BackingSlot && g.nodes[n].backing.Some? { assert InSlot(g.edges, g.nodes[n].backing.value, n, slot); }
    if slot == FileSlot && g.nodes[n].file.Some? { assert InSlot(g.edges, g.nodes[n].file.value, n, slot); }
  }

  /** Once its edge is empty, the slot is free. */
  lemma UnlinkedSlotFree(g: Graph, g': Graph, n: Node, slot: Slot)
    requires Wf(g) && Wf(g') && n in g.nodes && n in g'.nodes && LinkOf(g.nodes[n], slot).Some?
    requires LinkOf(g.nodes[n], slot).value in g.edges && g'.edges == Unlinked(g.edges, LinkOf(g.nodes[n], slot))
    ensures LinkOf(g'.nodes[n], slot) == None
  {
    assert NodeOk(g.edges, g.nodes[n], n) && NodeOk(g'.edges, g'.nodes[n], n);
    LinkIsEdge(g', n, slot);
    var x := LinkOf(g.nodes[n], slot).value;
    forall y ensures !InSlot(g'.edges, y, n, slot) {
      assert InSlot(g.edges, y, n, slot) ==> LinkOf(g.nodes[n], slot) == Some(y);
      assert y in g'.edges && y != x ==> g'.edges[y] == g.edges[y];
    }
  }

  lemma UnlinkAcyclic(edges: map<Edge, Child>, link: Option<Edge>)
    requires Acyclic(ArcsOf(edges)) && (link.Some? ==> link.value in edges)
    ensures Acyclic(ArcsOf(Unlinked(edges, link)))
  {
    if link.Some? { PutAcyclic(edges, link.value, edges[link.value].(bs := None)); }
  }

  lemma UnlinkReady(g0: Graph, g: Graph, p: Node, link: Option<Edge>)
    requires Sound(g0.edges) && p in g.nodes && (link.Some? ==> link.value in g0.edges)
    requires g.edges == Unlinked(g0.edges, link)
    ensures EditReady(g0.edges, g, [p], LinkSet(link)) && g.edges - LinkSet(link) == g0.edges - LinkSet(link)
  {
    UnlinkAcyclic(g0.edges, link);
    forall e | e in g.edges ensures e !in LinkSet(link) ==> g.edges[e] == g0.edges[e] {}
  }

  lemma RelinkReady(g0: Graph, g: Graph, p: Node, link: Option<Edge>, e: Edge, c: Child)
    requires Sound(g0.edges) && p in g.nodes && (link.Some? ==> link.value in g0.edges)
    requires e !in g0.edges && c.owner == OfNode(p) && c.bs.Some? && c.bs.value in g.nodes
    requires g.edges == Unlinked(g0.edges, link)[e := c] && !Reaches(ArcsOf(Unlinked(g0.edges, link)), c.bs.value, p)
    ensures EditReady(g0.edges, g, [p], LinkSet(link)) && g.edges - LinkSet(link) == (g0.edges - LinkSet(link))[e := c]
  {
    UnlinkAcyclic(g0.edges, link);
    PutAcyclic(Unlinked(g0.edges, link), e, c);
    var n := c.bs.value;
    assert ChildOf(g.edges, e, p) && PointsTo(g.edges, e, n);
    ChildInSubtree(g, [p], p, e, n);
    forall x | x in g.edges ensures x != e && x !in LinkSet(link) ==> g.edges[x] == g0.edges[x] {}
  }

  /** The graph g with another link in a slot of p, settled below p. */
  ghost predicate LinkDone(
      d: Drivers, kind: Node -> DriverKind, g: Graph, g': Graph, p: Node, slot: Slot, target: Option<Node>, e: Edge)
    requires p in g.nodes
  {
    var rest := g.edges - LinkSet(LinkOf(g.nodes[p], slot));
    match target
    case None => EditDone(d, kind, rest, g', [p])
    case Some(n) =>
      && e !in g.edges && InSlot(g'.edges, e, p, slot) && PointsTo(g'.edges, e, n)
      && EditDone(d, kind, rest[e := g'.edges[e]], g', [p])
  }

  /** Taking an edge away keeps everything, and lets the update below its target begin. */
  lemma UnrefReady(edges: map<Edge, Child>, g: Graph, e: Edge, bs: Node)
    requires Sound(edges) && g.edges == edges - {e}
    ensures Sound(g.edges) && EditReady(g.edges, g, [bs], {})
  {
    forall a | a in ArcsOf(g.edges) ensures a in ArcsOf(edges) {
      var x :|
        && x in g.edges && g.edges[x].owner.OfNode? && g.edges[x].bs.Some?
        && a == (g.edges[x].owner.node, g.edges[x].bs.value);
      assert x in edges && g.edges[x] == edges[x];
    }
    FewerArcsAcyclic(ArcsOf(g.edges), ArcsOf(edges));
    forall n ensures Compatible(g.edges, n) {
      assert Compatible(edges, n);
      forall x | PointsTo(g.edges, x, n) ensures PointsTo(edges, x, n) && g.edges[x] == edges[x] {}
    }
  }

  /** The edges without `gone`, up to masks. */
  ghost predicate SameEdgesBut(edges: map<Edge, Child>, edges': map<Edge, Child>, gone: set<Edge>) {
    && edges'.Keys == edges.Keys - gone
    && forall e {:trigger edges'[e]} :: e in edges' ==> SameButMasks(edges'[e], edges[e])
  }

  lemma SameEdgesMore(
      edges0: map<Edge, Child>, edges: map<Edge, Child>, edges': map<Edge, Child>, gone: set<Edge>, e: Edge)
    requires SameEdgesBut(edges0, edges, gone) && SameEdgesBut(edges, edges', {e})
    ensures SameEdgesBut(edges0, edges', gone + {e})
  {
    forall x | x in edges' ensures SameButMasks(edges'[x], edges0[x]) { assert SameButMasks(edges[x], edges0[x]); }
  }

  lemma SameEdgesAfter(
      d: Drivers, kind: Node -> DriverKind, edges: map<Edge, Child>, e: Edge, g': Graph, nodes: seq<Node>)
    requires g'.edges == edges - {e} || EditDone(d, kind, edges - {e}, g', nodes)
    ensures SameEdgesBut(edges, g'.edges, {e})
  {
    assert g'.edges.Keys == (edges - {e}).Keys == edges.Keys - {e};
    forall x | x in g'.edges ensures SameButMasks(g'.edges[x], edges[x]) { assert x in edges - {e}; }
  }

  lemma FewerEdges(edges: map<Edge, Child>, edges': map<Edge, Child>, e: Edge)
    requires e in edges && SameEdgesBut(edges, edges', {e})
    ensures |edges'| < |edges|
  {
    assert |edges'| == |edges'.Keys| && |edges| == |edges.Keys|;
    assert |edges.Keys - {e}| == |edges.Keys| - 1;
  }

  lemma FirstChildOf(g: Graph, n: Node)
    requires Wf(g) && n in g.nodes && g.nodes[n].children != []
    ensures ChildOf(g.edges, g.nodes[n].children[0], n)
  {
    assert NodeOk(g.edges, g.nodes[n], n);
    assert g.nodes[n].children[0] in g.nodes[n].children;
  }

  /** A node without children has given up all its edges. */
  lemma NoChildrenLeft(edges0: map<Edge, Child>, g: Graph, n: Node, gone: set<Edge>)
    requires Wf(g) && n in g.nodes && g.nodes[n].children == [] && SameEdgesBut(edges0, g.edges, gone)
    requires forall e :: e in gone ==> ChildOf(edges0, e, n)
    ensures gone == set e | e in edges0 && ChildOf(edges0, e, n)
    ensures g.nodes[n].backing == None && g.nodes[n].file == None
  {
    assert NodeOk(g.edges, g.nodes[n], n);
    forall e | e in edges0 && ChildOf(edges0, e, n) ensures e in gone {
      assert !ChildOf(g.edges, e, n);
      assert e in g.edges ==> SameButMasks(g.edges[e], edges0[e]);
    }
    var all := set e | e in edges0 && ChildOf(edges0, e, n);
    forall e | e in gone ensures e in all { assert ChildOf(edges0, e, n); }
    LinkIsEdge(g, n, BackingSlot);
    LinkIsEdge(g, n, FileSlot);
    assert LinkOf(g.nodes[n], BackingSlot) == g.nodes[n].backing && LinkOf(g.nodes[n], FileSlot) == g.nodes[n].file;
    forall e ensures !ChildOf(g.edges, e, n) { assert e !in g.nodes[n].children; }
  }

  /** A node that nobody points to stays so when edges go. */
  lemma Unconnected(edges0: map<Edge, Child>, g: Graph, n: Node, gone: set<Edge>)
    requires Wf(g) && n in g.nodes && g.nodes[n].children == [] && SameEdgesBut(edges0, g.edges, gone)
    requires forall e :: !PointsTo(edges0, e, n)
    ensures forall e :: !PointsTo(g.edges, e, n) && !ChildOf(g.edges, e, n)
  {
    assert NodeOk(g.edges, g.nodes[n], n);
    forall e ensures !PointsTo(g.edges, e, n) && !ChildOf(g.edges, e, n) {
      assert e !in g.nodes[n].children && !PointsTo(edges0, e, n);
      assert e in g.edges ==> SameButMasks(g.edges[e], edges0[e]);
    }
  }

  /** The masks of a new link do not decide whether the permission update succeeds. */
  lemma NewLinkMasks(d: Drivers, kind: Node -> DriverKind, g: Graph, p: Node, e: Edge, c: Child)
    requires Wf(g) && p in g.nodes && kind(p) == InnerDriver && e in g.edges && SameButMasks(g.edges[e], c)
    requires c.owner == OfNode(p) && c.bs.Some?
    ensures
      Satisfiable(d, kind, g.edges[e := c], g.nodes.Keys, [p]) <==> Satisfiable(d, kind, g.edges, g.nodes.Keys, [p])
  {
    InOwnSubtree(g, [p], p);
    var edges := g.edges[e := c];
    assert ChildOf(g.edges, e, p) && p in Inner(kind, Subtrees(g, [p]));
    assert MasksOnly(g.edges, edges, Inner(kind, Subtrees(g, [p])));
    SatisfiableWithMasks(d, kind, g, edges, [p]);
  }

  lemma RelinkedMasks(
      d: Drivers, kind: Node -> DriverKind, isFilter: Node -> bool, g0: Graph, g: Graph, p: Node, slot: Slot, n: Node,
      e: Edge)
    requires p in g0.nodes && (LinkOf(g0.nodes[p], slot).Some? ==> LinkOf(g0.nodes[p], slot).value in g0.edges)
    requires Wf(g) && p in g.nodes && kind(p) == InnerDriver && e in g.edges && e !in g0.edges
    requires g.edges == Unlinked(g0.edges, LinkOf(g0.nodes[p], slot))[e := g.edges[e]]
    requires SameButMasks(g.edges[e], BareLink(p, n, slot, LinkRole(isFilter, g0, p, slot)))
    ensures Satisfiable(d, kind, RelinkedEdges(isFilter, g0, p, slot, Some(n), e), g.nodes.Keys, [p]) <==>
      Satisfiable(d, kind, g.edges, g.nodes.Keys, [p])
  {
    var c := BareLink(p, n, slot, LinkRole(isFilter, g0, p, slot));
    NewLinkMasks(d, kind, g, p, e, c);
    assert g.edges[e := c] == RelinkedEdges(isFilter, g0, p, slot, Some(n), e);
  }
}

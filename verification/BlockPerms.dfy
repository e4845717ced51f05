/** What a consistent permission assignment is: the cumulative masks of a node, when its parents
    agree with each other, and when a node has passed its requirements on to its children. */
module BlockPerms {

  import opened Digraph
  import opened BlockGraph

  /** bs->drv == NULL, a driver without .bdrv_child_perm, or one with it. */
  datatype DriverKind = NoDriver | LeafDriver | InnerDriver

  /** What drivers and node flags answer during one permission update (with a reopen queue, the
      flags are those after the reopen). */
  datatype Drivers = Drivers(
    childPerm: (Node, Option<Edge>, nat, Mask, Mask) -> (Mask, Mask),
    checkPerm: (Node, Mask, Mask) -> bool,
    writable: Node -> bool,
    sizeAligned: Node -> bool,
    forceShare: Node -> bool)

  function PermOf(edges: map<Edge, Child>, e: Edge): Mask {
    if e in edges then edges[e].perm else {}
  }

  function SharedOf(edges: map<Edge, Child>, e: Edge): Mask {
    if e in edges then edges[e].shared else PERM_ALL
  }

  /** bdrv_get_cumulative_perm over a list of parent edges */
  function CumPerm(edges: map<Edge, Child>, es: seq<Edge>): Mask {
    if es == [] then {} else CumPerm(edges, es[..|es| - 1]) + PermOf(edges, es[|es| - 1])
  }

  function CumShared(edges: map<Edge, Child>, es: seq<Edge>): Mask {
    if es == [] then PERM_ALL else CumShared(edges, es[..|es| - 1]) * SharedOf(edges, es[|es| - 1])
  }

  /** The cumulative permission is the least mask that contains every parent's permission. */
  lemma {:induction false} CumPermIsJoin(edges: map<Edge, Child>, es: seq<Edge>, p: Perm)
    ensures p in CumPerm(edges, es) <==> exists e :: e in es && p in PermOf(edges, e)
  {
    if es != [] {
      assert es == es[..|es| - 1] + [es[|es| - 1]];
      CumPermIsJoin(edges, es[..|es| - 1], p);
    }
  }

  /** The cumulative shared mask is what every parent shares. */
  lemma {:induction false} CumSharedIsMeet(edges: map<Edge, Child>, es: seq<Edge>, p: Perm)
    ensures p in CumShared(edges, es) <==> forall e :: e in es ==> p in SharedOf(edges, e)
  {
    if es != [] {
      assert es == es[..|es| - 1] + [es[|es| - 1]];
      CumSharedIsMeet(edges, es[..|es| - 1], p);
    } else {
      match p case _ => assert p in PERM_ALL;
    }
  }

  /** bdrv_a_allow_b: a shares everything b needs. */
  predicate Allows(a: Child, b: Child) {
    b.perm <= a.shared
  }

  /** Any two distinct parents of n tolerate each other. */
  ghost predicate Compatible(edges: map<Edge, Child>, n: Node) {
    forall a, b :: PointsTo(edges, a, n) && PointsTo(edges, b, n) && a != b ==> Allows(edges[a], edges[b])
  }

  /** ps[k] tolerates the first n of ps, except itself. */
  ghost predicate Tolerates(edges: map<Edge, Child>, ps: seq<Edge>, k: nat, n: nat)
    requires k < |ps| && n <= |ps|
  {
    forall l :: 0 <= l < n && ps[l] != ps[k] ==>
      ps[k] in edges && ps[l] in edges && Allows(edges[ps[k]], edges[ps[l]])
  }

  lemma AllTolerate(g: Graph, n: Node)
    requires Wf(g) && n in g.nodes
    requires var ps := g.nodes[n].parents; forall k :: 0 <= k < |ps| ==> Tolerates(g.edges, ps, k, |ps|)
    ensures Compatible(g.edges, n)
  {
    var ps := g.nodes[n].parents;
    assert NodeOk(g.edges, g.nodes[n], n);
    forall a, b | PointsTo(g.edges, a, n) && PointsTo(g.edges, b, n) && a != b ensures Allows(g.edges[a], g.edges[b]) {
      var k :| 0 <= k < |ps| && ps[k] == a;
      var l :| 0 <= l < |ps| && ps[l] == b;
      assert Tolerates(g.edges, ps, k, |ps|);
    }
  }

  /** Write permissions need a writable node, and without RESIZE an aligned image size. */
  predicate WriteOk(d: Drivers, n: Node, perm: Mask) {
    perm * {Write, WriteUnchanged} != {} ==>
      d.writable(n) && (Resize in perm || d.sizeAligned(n))
  }

  /** bdrv_child_perm */
  function ChildPerm(
      d: Drivers, n: Node, e: Option<Edge>, role: nat, target: Option<Node>, perm: Mask, shared: Mask): (Mask, Mask)
  {
    var (nperm, nshared) := d.childPerm(n, e, role, perm, shared);
    (nperm, if target.Some? && d.forceShare(target.value) then PERM_ALL else nshared)
  }

  /** Every out-edge of n holds what its driver computes from these cumulative masks. */
  ghost predicate PassedOn(d: Drivers, edges: map<Edge, Child>, n: Node, perm: Mask, shared: Mask) {
    forall e :: ChildOf(edges, e, n) ==>
      (edges[e].perm, edges[e].shared) == ChildPerm(d, n, Some(e), edges[e].role, edges[e].bs, perm, shared)
  }

  /** Node n can live with its cumulative permissions: it is writable if need be, and its driver
      agrees. */
  predicate Acceptable(d: Drivers, kind: Node -> DriverKind, g: Graph, n: Node)
    requires n in g.nodes
  {
    var perm, shared := CumPerm(g.edges, g.nodes[n].parents), CumShared(g.edges, g.nodes[n].parents);
    WriteOk(d, n, perm) && (kind(n) != NoDriver ==> d.checkPerm(n, perm, shared))
  }

  /** What a permission update must leave behind at node n. */
  ghost predicate Settled(d: Drivers, kind: Node -> DriverKind, g: Graph, n: Node)
    requires n in g.nodes
  {
    var perm, shared := CumPerm(g.edges, g.nodes[n].parents), CumShared(g.edges, g.nodes[n].parents);
    && Compatible(g.edges, n) && Acceptable(d, kind, g, n)
    && (kind(n) == InnerDriver ==> PassedOn(d, g.edges, n, perm, shared))
  }

  /** edges' differs from edges only in the masks of edges that leave a node of `owners`. */
  ghost predicate MasksOnly(edges: map<Edge, Child>, edges': map<Edge, Child>, owners: set<Node>) {
    && edges'.Keys == edges.Keys
    && forall e :: e in edges ==>
         && edges'[e] == edges[e].(perm := edges'[e].perm, shared := edges'[e].shared)
         && ((forall x :: x in owners ==> !ChildOf(edges, e, x)) ==> edges'[e] == edges[e])
  }

  lemma {:induction false} CumSame(edges: map<Edge, Child>, edges': map<Edge, Child>, es: seq<Edge>)
    requires edges'.Keys == edges.Keys && forall e :: e in es && e in edges ==> edges'[e] == edges[e]
    ensures CumPerm(edges', es) == CumPerm(edges, es) && CumShared(edges', es) == CumShared(edges, es)
  {
    if es != [] {
      assert es[|es| - 1] in es;
      CumSame(edges, edges', es[..|es| - 1]);
    }
  }

  /** Updating the out-edges of other nodes, none of which lead to n, leaves n settled. */
  lemma SettledStays(d: Drivers, kind: Node -> DriverKind, g: Graph, g': Graph, owners: set<Node>, n: Node)
    requires Wf(g) && g' == g.(edges := g'.edges) && MasksOnly(g.edges, g'.edges, owners)
    requires n in g.nodes && n !in owners && Settled(d, kind, g, n)
    requires forall x, e :: x in owners && ChildOf(g.edges, e, x) ==> !PointsTo(g.edges, e, n)
    ensures Settled(d, kind, g', n)
  {
    assert NodeOk(g.edges, g.nodes[n], n);
    forall e | PointsTo(g.edges, e, n) ensures g'.edges[e] == g.edges[e] {
    }
    CumSame(g.edges, g'.edges, g.nodes[n].parents);
    forall a, b | PointsTo(g'.edges, a, n) && PointsTo(g'.edges, b, n) && a != b
      ensures Allows(g'.edges[a], g'.edges[b])
    {
      assert PointsTo(g.edges, a, n) && PointsTo(g.edges, b, n);
    }
    forall e | ChildOf(g'.edges, e, n) ensures g'.edges[e] == g.edges[e] && ChildOf(g.edges, e, n) {
    }
  }
}

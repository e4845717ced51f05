/** Why one pass over a sorted list settles every node in it: the steps of the permission update as
    relations between sets of edges. */
module BlockRefresh {

  import opened Digraph
  import opened BlockGraph
  import opened BlockTraversal
  import opened BlockPerms

  lemma MasksOnlyArcs(edges: map<Edge, Child>, edges': map<Edge, Child>, owners: set<Node>)
    requires MasksOnly(edges, edges', owners)
    ensures ArcsOf(edges') == ArcsOf(edges)
    ensures forall e, n ::
      PointsTo(edges', e, n) == PointsTo(edges, e, n) && ChildOf(edges', e, n) == ChildOf(edges, e, n)
  {
    forall a | a in ArcsOf(edges) ensures a in ArcsOf(edges') {
      var e :|
        e in edges && edges[e].owner.OfNode? && edges[e].bs.Some? && a == (edges[e].owner.node, edges[e].bs.value);
      assert edges'[e].owner == edges[e].owner && edges'[e].bs == edges[e].bs;
    }
    forall a | a in ArcsOf(edges') ensures a in ArcsOf(edges) {
      var e :|
        e in edges' && edges'[e].owner.OfNode? && edges'[e].bs.Some? && a == (edges'[e].owner.node, edges'[e].bs.value);
      assert edges'[e].owner == edges[e].owner && edges'[e].bs == edges[e].bs;
    }
  }

  lemma MasksOnlyTrans(e1: map<Edge, Child>, e2: map<Edge, Child>, e3: map<Edge, Child>, o1: set<Node>, o2: set<Node>)
    requires MasksOnly(e1, e2, o1) && MasksOnly(e2, e3, o2)
    ensures MasksOnly(e1, e3, o1 + o2)
  {
    MasksOnlyArcs(e1, e2, o1);
  }

  /** The edges cs[..i] hold their new masks and nothing else has changed. */
  ghost predicate Passing(
      d: Drivers, edges: map<Edge, Child>, edges': map<Edge, Child>, bs: Node, cs: seq<Edge>, i: nat, perm: Mask,
      shared: Mask)
    requires i <= |cs|
  {
    && ChildrenOk(edges, cs, bs) && edges'.Keys == edges.Keys
    && (forall e {:trigger edges'[e]} :: e in edges && e !in cs[..i] ==> edges'[e] == edges[e])
    && (forall j :: 0 <= j < |cs| ==> cs[j] in edges)
    && (forall j :: 0 <= j < i ==>
          var (p, s) := ChildPerm(d, bs, Some(cs[j]), edges[cs[j]].role, edges[cs[j]].bs, perm, shared);
          edges'[cs[j]] == edges[cs[j]].(perm := p, shared := s))
  }

  lemma ChildListOk(g: Graph, bs: Node)
    requires Wf(g) && bs in g.nodes
    ensures ChildrenOk(g.edges, g.nodes[bs].children, bs)
    ensures forall j :: 0 <= j < |g.nodes[bs].children| ==> ChildOf(g.edges, g.nodes[bs].children[j], bs)
  {
    assert NodeOk(g.edges, g.nodes[bs], bs);
    forall j | 0 <= j < |g.nodes[bs].children| ensures ChildOf(g.edges, g.nodes[bs].children[j], bs) {
      assert g.nodes[bs].children[j] in g.nodes[bs].children;
    }
  }

  lemma PassingStep(
      d: Drivers, edges: map<Edge, Child>, edges1: map<Edge, Child>, edges2: map<Edge, Child>, bs: Node, cs: seq<Edge>,
      i: nat, perm: Mask, shared: Mask)
    requires i < |cs| && Passing(d, edges, edges1, bs, cs, i, perm, shared) && cs[i] in edges1
    requires var (p, s) := ChildPerm(d, bs, Some(cs[i]), edges1[cs[i]].role, edges1[cs[i]].bs, perm, shared);
      edges2 == edges1[cs[i] := edges1[cs[i]].(perm := p, shared := s)]
    ensures Passing(d, edges, edges2, bs, cs, i + 1, perm, shared)
  {
    assert cs[..i + 1] == cs[..i] + [cs[i]];
    var c := cs[i];
    assert c in edges && c !in cs[..i] && edges1[c] == edges[c];
    forall j | 0 <= j < i ensures edges2[cs[j]] == edges1[cs[j]] { assert cs[j] != cs[i]; }
    forall e | e in edges && e !in cs[..i + 1] ensures edges2[e] == edges[e] { assert e !in cs[..i]; }
  }

  lemma PassingDone(
      d: Drivers, edges: map<Edge, Child>, edges': map<Edge, Child>, bs: Node, cs: seq<Edge>, perm: Mask, shared: Mask)
    requires Passing(d, edges, edges', bs, cs, |cs|, perm, shared)
    ensures MasksOnly(edges, edges', {bs}) && PassedOn(d, edges', bs, perm, shared)
  {
    assert cs[..|cs|] == cs;
    forall e | e in edges
      ensures edges'[e] == edges[e].(perm := edges'[e].perm, shared := edges'[e].shared)
      ensures !ChildOf(edges, e, bs) ==> edges'[e] == edges[e]
      ensures ChildOf(edges, e, bs) ==>
        (edges'[e].perm, edges'[e].shared) == ChildPerm(d, bs, Some(e), edges[e].role, edges[e].bs, perm, shared)
    {
      if e in cs {
        var j :| 0 <= j < |cs| && cs[j] == e;
      }
    }
  }

  lemma PassedOnSettles(d: Drivers, kind: Node -> DriverKind, g0: Graph, g: Graph, bs: Node)
    requires Wf(g0) && bs in g0.nodes && Acyclic(ArcsOf(g0.edges)) && Compatible(g0.edges, bs)
    requires g == g0.(edges := g.edges) && MasksOnly(g0.edges, g.edges, {bs})
    requires var perm, shared := CumPerm(g0.edges, g0.nodes[bs].parents), CumShared(g0.edges, g0.nodes[bs].parents);
      WriteOk(d, bs, perm) && d.checkPerm(bs, perm, shared) && PassedOn(d, g.edges, bs, perm, shared)
    ensures Settled(d, kind, g, bs)
  {
    MasksOnlyArcs(g0.edges, g.edges, {bs});
    NoSelfEdge(g0, bs);
    assert NodeOk(g0.edges, g0.nodes[bs], bs);
    CumSame(g0.edges, g.edges, g0.nodes[bs].parents);
    forall a, b | PointsTo(g.edges, a, bs) && PointsTo(g.edges, b, bs) && a != b
      ensures Allows(g.edges[a], g.edges[b])
    {
      assert PointsTo(g0.edges, a, bs) && PointsTo(g0.edges, b, bs);
    }
  }

  lemma ElementsPrefix(list: seq<Node>, i: nat)
    requires i < |list|
    ensures Elements(list[..i]) + {list[i]} == Elements(list[..i + 1]) <= Elements(list)
    ensures Elements(list[..i]) <= Elements(list)
  {
    assert list[..i + 1] == list[..i] + [list[i]];
  }

  lemma MasksOnlyMore(e1: map<Edge, Child>, e2: map<Edge, Child>, o1: set<Node>, o2: set<Node>)
    requires MasksOnly(e1, e2, o1) && o1 <= o2
    ensures MasksOnly(e1, e2, o2)
  {
  }

  lemma NoSelfEdge(g: Graph, n: Node)
    requires Acyclic(ArcsOf(g.edges))
    ensures forall e :: ChildOf(g.edges, e, n) ==> !PointsTo(g.edges, e, n)
  {
    ReachesSelf(ArcsOf(g.edges), n);
    assert (n, n) in ArcsOf(g.edges) ==> !Reaches(ArcsOf(g.edges), n, n);
    ArcIff(g.edges, n, n);
  }

  /** In a sorted list no edge leads from a later node to an earlier one. */
  lemma NoEdgeBack(g: Graph, list: seq<Node>, j: nat, i: nat)
    requires Topological(ArcsOf(g.edges), list) && j < i < |list|
    ensures forall e :: ChildOf(g.edges, e, list[i]) ==> !PointsTo(g.edges, e, list[j])
  {
    assert SortedAt(ArcsOf(g.edges), list, i);
    assert list[j] !in list[i + 1..];
    ArcIff(g.edges, list[i], list[j]);
  }

  // ------------------------------------------------------------------------------------------
  // The pass finds the one consistent assignment if there is any

  /** The nodes of a set that pass permissions on. */
  function Inner(kind: Node -> DriverKind, nodes: set<Node>): set<Node> {
    set n | n in nodes && kind(n) == InnerDriver
  }

  /** An assignment of masks to the edges below `nodes` with which each of them is settled. */
  ghost predicate Solves(d: Drivers, kind: Node -> DriverKind, g: Graph, edges: map<Edge, Child>, nodes: set<Node>) {
    && MasksOnly(g.edges, edges, Inner(kind, nodes))
    && forall n :: n in nodes ==> n in g.nodes && Settled(d, kind, g.(edges := edges), n)
  }

  ghost predicate Solvable(d: Drivers, kind: Node -> DriverKind, g: Graph, nodes: set<Node>) {
    exists edges :: Solves(d, kind, g, edges, nodes)
  }

  /** What holds after the pass has dealt with list[..i] of a graph that was g0. */
  ghost predicate Passed(d: Drivers, kind: Node -> DriverKind, g0: Graph, g: Graph, list: seq<Node>, i: nat)
    requires i <= |list|
  {
    && g == g0.(edges := g.edges) && Solves(d, kind, g0, g.edges, Elements(list[..i]))
  }

  /** Up to there, the pass had no choice: any solution has the same masks on the edges that lead to
      list[j]. */
  lemma {:induction false} NoChoice(
      d: Drivers, kind: Node -> DriverKind, g0: Graph, g: Graph, edges: map<Edge, Child>, list: seq<Node>, i: nat,
      j: nat)
    requires Wf(g0) && Topological(ArcsOf(g0.edges), list) && j <= i <= |list| && j < |list| && list[j] in g0.nodes
    requires Passed(d, kind, g0, g, list, i) && Solves(d, kind, g0, edges, Elements(list))
    ensures forall e :: PointsTo(g0.edges, e, list[j]) ==> e in g.edges && e in edges && g.edges[e] == edges[e]
    decreases j
  {
    forall e | PointsTo(g0.edges, e, list[j]) ensures g.edges[e] == edges[e] {
      if k :| 0 <= k < |list| && ChildOf(g0.edges, e, list[k]) && kind(list[k]) == InnerDriver {
        EarlierOwner(g0, list, k, j, e);
        assert list[k] in Elements(list) && list[k] in list[..i] && list[k] in Elements(list[..i]);
        NoChoice(d, kind, g0, g, edges, list, i, k);
        SamePassedOn(d, kind, g0, g.edges, edges, list[k], e);
      } else {
        assert forall x :: x in Inner(kind, Elements(list)) ==> !ChildOf(g0.edges, e, x);
        assert forall x :: x in Inner(kind, Elements(list[..i])) ==> !ChildOf(g0.edges, e, x);
      }
    }
  }

  lemma EarlierOwner(g: Graph, list: seq<Node>, k: nat, j: nat, e: Edge)
    requires Topological(ArcsOf(g.edges), list) && k < |list| && j < |list| && ChildOf(g.edges, e, list[k])
    requires PointsTo(g.edges, e, list[j])
    ensures k < j
  {
    ArcIff(g.edges, list[k], list[j]);
    assert SortedAt(ArcsOf(g.edges), list, k);
    var m :| 0 <= m < |list[k + 1..]| && list[k + 1..][m] == list[j];
    assert list[k + 1 + m] == list[j];
  }

  /** Two assignments that settle n and agree on what enters n agree on what leaves it. */
  lemma SamePassedOn(
      d: Drivers, kind: Node -> DriverKind, g: Graph, edges1: map<Edge, Child>, edges2: map<Edge, Child>, n: Node,
      e: Edge)
    requires Wf(g) && n in g.nodes && kind(n) == InnerDriver && ChildOf(g.edges, e, n) && e in edges1 && e in edges2
    requires Settled(d, kind, g.(edges := edges1), n) && Settled(d, kind, g.(edges := edges2), n)
    requires edges1.Keys == g.edges.Keys == edges2.Keys
    requires forall x :: x in g.edges ==> edges1[x] == g.edges[x].(perm := edges1[x].perm, shared := edges1[x].shared)
    requires forall x :: x in g.edges ==> edges2[x] == g.edges[x].(perm := edges2[x].perm, shared := edges2[x].shared)
    requires forall x :: PointsTo(g.edges, x, n) ==> edges1[x] == edges2[x]
    ensures edges1[e] == edges2[e]
  {
    assert NodeOk(g.edges, g.nodes[n], n);
    CumSame(edges1, edges2, g.nodes[n].parents);
    assert ChildOf(edges1, e, n) && ChildOf(edges2, e, n);
  }

  /** Updating node list[i] leaves the nodes before it settled. */
  lemma PassedNext(d: Drivers, kind: Node -> DriverKind, g0: Graph, g: Graph, g': Graph, list: seq<Node>, i: nat)
    requires i < |list| && Wf(g0) && Wf(g) && Topological(ArcsOf(g0.edges), list) && Elements(list) <= g0.nodes.Keys
    requires Passed(d, kind, g0, g, list, i) && g' == g.(edges := g'.edges) && Settled(d, kind, g', list[i])
    requires MasksOnly(g.edges, g'.edges, Inner(kind, {list[i]}))
    ensures Passed(d, kind, g0, g', list, i + 1)
  {
    var n := list[i];
    ElementsPrefix(list, i);
    MasksOnlyArcs(g0.edges, g.edges, Inner(kind, Elements(list[..i])));
    MasksOnlyTrans(g0.edges, g.edges, g'.edges, Inner(kind, Elements(list[..i])), Inner(kind, {n}));
    MasksOnlyMore(
      g0.edges, g'.edges, Inner(kind, Elements(list[..i])) + Inner(kind, {n}), Inner(kind, Elements(list[..i + 1])));
    forall m | m in Elements(list[..i + 1]) ensures m in g0.nodes && Settled(d, kind, g', m) {
      if m != n {
        var j :| 0 <= j < i && list[j] == m;
        assert m in Elements(list[..i]);
        NoEdgeBack(g0, list, j, i);
        SettledStays(d, kind, g, g', Inner(kind, {n}), m);
      }
    }
  }

  /** If there is a solution, the pass does not get stuck. */
  lemma SolvableGoesOn(d: Drivers, kind: Node -> DriverKind, g0: Graph, g: Graph, list: seq<Node>, i: nat)
    requires i < |list| && Wf(g0) && Topological(ArcsOf(g0.edges), list) && list[i] in g0.nodes
    requires Passed(d, kind, g0, g, list, i) && Solvable(d, kind, g0, Elements(list))
    ensures Compatible(g.edges, list[i]) && Acceptable(d, kind, g, list[i])
  {
    var edges :| Solves(d, kind, g0, edges, Elements(list));
    assert list[i] in Elements(list);
    NoChoice(d, kind, g0, g, edges, list, i, i);
    SolutionAt(d, kind, g0, g.edges, edges, list[i]);
  }

  /** Where the pass gives up, no assignment exists. */
  lemma StuckIsUnsolvable(d: Drivers, kind: Node -> DriverKind, g0: Graph, g: Graph, list: seq<Node>, i: nat)
    requires i < |list| && Wf(g0) && Topological(ArcsOf(g0.edges), list) && list[i] in g0.nodes
    requires Passed(d, kind, g0, g, list, i) && (!Compatible(g.edges, list[i]) || !Acceptable(d, kind, g, list[i]))
    ensures !Solvable(d, kind, g0, Elements(list))
  {
    if Solvable(d, kind, g0, Elements(list)) { SolvableGoesOn(d, kind, g0, g, list, i); }
  }

  /** Assignments that agree on what enters n treat n alike. */
  lemma SolutionAt(
      d: Drivers, kind: Node -> DriverKind, g: Graph, edges1: map<Edge, Child>, edges2: map<Edge, Child>, n: Node)
    requires Wf(g) && n in g.nodes && Compatible(edges2, n) && Acceptable(d, kind, g.(edges := edges2), n)
    requires edges1.Keys == g.edges.Keys == edges2.Keys
    requires forall x :: x in g.edges ==> edges1[x].bs == g.edges[x].bs == edges2[x].bs
    requires forall x :: PointsTo(g.edges, x, n) ==> edges1[x] == edges2[x]
    ensures Compatible(edges1, n) && Acceptable(d, kind, g.(edges := edges1), n)
  {
    assert NodeOk(g.edges, g.nodes[n], n);
    CumSame(edges2, edges1, g.nodes[n].parents);
    forall a, b | PointsTo(edges1, a, n) && PointsTo(edges1, b, n) && a != b ensures Allows(edges1[a], edges1[b]) {
      assert PointsTo(g.edges, a, n) && PointsTo(g.edges, b, n) && PointsTo(edges2, a, n) && PointsTo(edges2, b, n);
    }
  }

  /** There is at most one solution. */
  lemma SolutionIsUnique(
      d: Drivers, kind: Node -> DriverKind, g: Graph, edges1: map<Edge, Child>, edges2: map<Edge, Child>,
      list: seq<Node>)
    requires Wf(g) && Topological(ArcsOf(g.edges), list)
    requires Solves(d, kind, g, edges1, Elements(list)) && Solves(d, kind, g, edges2, Elements(list))
    ensures edges1 == edges2
  {
    assert list[..|list|] == list;
    forall e | e in g.edges ensures edges1[e] == edges2[e] {
      if k :| 0 <= k < |list| && ChildOf(g.edges, e, list[k]) && kind(list[k]) == InnerDriver {
        var n := g.edges[e].bs.value;
        ArcIff(g.edges, list[k], n);
        assert SortedAt(ArcsOf(g.edges), list, k) && n in list[k + 1..];
        var j :| 0 <= j < |list| && list[j] == n;
        assert n in Elements(list);
        NoChoice(d, kind, g, g.(edges := edges1), edges2, list, |list|, j);
        assert PointsTo(g.edges, e, list[j]);
      } else {
        assert forall x :: x in Inner(kind, Elements(list)) ==> !ChildOf(g.edges, e, x);
      }
    }
  }

  // ------------------------------------------------------------------------------------------
  // Whether there is a solution depends on the edges alone

  lemma SameParentsSameMasks(edges: map<Edge, Child>, es: seq<Edge>, fs: seq<Edge>)
    requires forall e :: e in es <==> e in fs
    ensures CumPerm(edges, es) == CumPerm(edges, fs) && CumShared(edges, es) == CumShared(edges, fs)
  {
    forall p: Perm
      ensures p in CumPerm(edges, es) <==> p in CumPerm(edges, fs)
      ensures p in CumShared(edges, es) <==> p in CumShared(edges, fs)
    {
      CumPermIsJoin(edges, es, p);
      CumPermIsJoin(edges, fs, p);
      CumSharedIsMeet(edges, es, p);
      CumSharedIsMeet(edges, fs, p);
    }
  }

  lemma SettledInBoth(d: Drivers, kind: Node -> DriverKind, g: Graph, h: Graph, edges: map<Edge, Child>, n: Node)
    requires Wf(g) && Wf(h) && g.edges == h.edges && n in g.nodes && n in h.nodes
    requires Settled(d, kind, g.(edges := edges), n)
    ensures Settled(d, kind, h.(edges := edges), n)
  {
    assert NodeOk(g.edges, g.nodes[n], n) && NodeOk(h.edges, h.nodes[n], n);
    SameParentsSameMasks(edges, g.nodes[n].parents, h.nodes[n].parents);
  }

  /** The masks of these edges can be assigned so that everything below `nodes` is settled. */
  ghost predicate Satisfiable(
      d: Drivers, kind: Node -> DriverKind, edges: map<Edge, Child>, all: set<Node>, nodes: seq<Node>)
  {
    exists h: Graph :: Wf(h) && h.edges == edges && h.nodes.Keys == all && Solvable(d, kind, h, Subtrees(h, nodes))
  }

  lemma SatisfiableIff(d: Drivers, kind: Node -> DriverKind, g: Graph, nodes: seq<Node>)
    requires Wf(g)
    ensures Satisfiable(d, kind, g.edges, g.nodes.Keys, nodes) <==> Solvable(d, kind, g, Subtrees(g, nodes))
  {
    if h: Graph :|
      Wf(h) && h.edges == g.edges && h.nodes.Keys == g.nodes.Keys && Solvable(d, kind, h, Subtrees(h, nodes))
    {
      assert Subtrees(h, nodes) == Subtrees(g, nodes);
      var edges :| Solves(d, kind, h, edges, Subtrees(h, nodes));
      forall n | n in Subtrees(g, nodes) ensures n in g.nodes && Settled(d, kind, g.(edges := edges), n) {
        SettledInBoth(d, kind, h, g, edges, n);
      }
      assert Solves(d, kind, g, edges, Subtrees(g, nodes));
    }
  }

  /** Masks that the update overwrites do not matter. */
  lemma MasksOnlyBack(edges: map<Edge, Child>, edges': map<Edge, Child>, owners: set<Node>)
    requires MasksOnly(edges, edges', owners)
    ensures MasksOnly(edges', edges, owners)
  {
    MasksOnlyArcs(edges, edges', owners);
  }

  lemma MasksOnlyWf(g: Graph, edges: map<Edge, Child>, owners: set<Node>)
    requires Wf(g) && MasksOnly(g.edges, edges, owners)
    ensures Wf(g.(edges := edges))
  {
    var h := g.(edges := edges);
    MasksOnlyArcs(g.edges, edges, owners);
    forall n | n in h.nodes ensures NodeOk(h.edges, h.nodes[n], n) { NodeStaysOk(g.edges, edges, g.nodes[n], n); }
    forall e | e in h.edges ensures EdgeOk(h, e) { assert EdgeOk(g, e); }
  }

  lemma SolvableWithMasks(d: Drivers, kind: Node -> DriverKind, g: Graph, edges: map<Edge, Child>, nodes: set<Node>)
    requires MasksOnly(g.edges, edges, Inner(kind, nodes)) && Solvable(d, kind, g, nodes)
    ensures Solvable(d, kind, g.(edges := edges), nodes)
  {
    var sol :| Solves(d, kind, g, sol, nodes);
    MasksOnlyBack(g.edges, edges, Inner(kind, nodes));
    MasksOnlyTrans(edges, g.edges, sol, Inner(kind, nodes), Inner(kind, nodes));
    MasksOnlyMore(edges, sol, Inner(kind, nodes) + Inner(kind, nodes), Inner(kind, nodes));
    assert Solves(d, kind, g.(edges := edges), sol, nodes);
  }

  lemma SatisfiableWithMasks(d: Drivers, kind: Node -> DriverKind, g: Graph, edges: map<Edge, Child>, nodes: seq<Node>)
    requires Wf(g) && MasksOnly(g.edges, edges, Inner(kind, Subtrees(g, nodes)))
    ensures Satisfiable(d, kind, edges, g.nodes.Keys, nodes) <==> Satisfiable(d, kind, g.edges, g.nodes.Keys, nodes)
  {
    var h, all := g.(edges := edges), Inner(kind, Subtrees(g, nodes));
    MasksOnlyWf(g, edges, all);
    MasksOnlyArcs(g.edges, edges, all);
    assert Subtrees(h, nodes) == Subtrees(g, nodes);
    SatisfiableIff(d, kind, g, nodes);
    SatisfiableIff(d, kind, h, nodes);
    MasksOnlyBack(g.edges, edges, all);
    if Solvable(d, kind, g, Subtrees(g, nodes)) { SolvableWithMasks(d, kind, g, edges, Subtrees(g, nodes)); }
    if Solvable(d, kind, h, Subtrees(g, nodes)) {
      assert h.(edges := g.edges) == g;
      SolvableWithMasks(d, kind, h, g.edges, Subtrees(g, nodes));
    }
  }
}

/** The graph walks of block.c: bdrv_recurse_has_child, should_update_child and
    bdrv_topological_dfs. */
module BlockTraversal {

  import opened Digraph
  import opened BlockGraph
  import opened Lists

  /** The child list of p names exactly the arcs that leave p. */
  lemma ChildListIsArcs(g: Graph, p: Node, n: Node)
    requires Wf(g) && p in g.nodes
    ensures (p, n) in ArcsOf(g.edges) <==>
      exists i :: 0 <= i < |g.nodes[p].children| && PointsTo(g.edges, g.nodes[p].children[i], n)
  {
    assert NodeOk(g.edges, g.nodes[p], p);
    if (p, n) in ArcsOf(g.edges) {
      var e :| e in g.edges && g.edges[e].owner == OfNode(p) && g.edges[e].bs == Some(n);
      assert ChildOf(g.edges, e, p) && e in g.nodes[p].children;
    }
    if i :| 0 <= i < |g.nodes[p].children| && PointsTo(g.edges, g.nodes[p].children[i], n) {
      assert g.nodes[p].children[i] in g.nodes[p].children && ChildOf(g.edges, g.nodes[p].children[i], p);
    }
  }

  /** The i-th child edge of p leads to a node of the graph. */
  lemma ChildTarget(g: Graph, p: Node, i: nat)
    requires Wf(g) && p in g.nodes && i < |g.nodes[p].children|
    ensures ChildOf(g.edges, g.nodes[p].children[i], p)
    ensures g.edges[g.nodes[p].children[i]].bs.value in g.nodes
    ensures (p, g.edges[g.nodes[p].children[i]].bs.value) in ArcsOf(g.edges)
  {
    var e := g.nodes[p].children[i];
    assert NodeOk(g.edges, g.nodes[p], p) && e in g.nodes[p].children && EdgeOk(g, e);
  }

  /** Returns whether `child` can be reached from `bs`.  The recursion ends because the graph is
      acyclic. */
  method RecurseHasChild(g: Graph, bs: Node, child: Node) returns (found: bool)
    requires Wf(g) && bs in g.nodes && Acyclic(ArcsOf(g.edges))
    ensures found <==> Reaches(ArcsOf(g.edges), bs, child)
    decreases Below(ArcsOf(g.edges), g.nodes.Keys, bs)
  {
    ghost var arcs := ArcsOf(g.edges);
    if bs == child {
      ReachesSelf(arcs, bs);
      return true;
    }
    for i := 0 to |g.nodes[bs].children|
      invariant forall j, n :: 0 <= j < i && PointsTo(g.edges, g.nodes[bs].children[j], n) ==> !Reaches(arcs, n, child)
    {
      ChildTarget(g, bs, i);
      var n := g.edges[g.nodes[bs].children[i]].bs.value;
      BelowShrinks(arcs, g.nodes.Keys, bs, n);
      var below := RecurseHasChild(g, n, child);
      if below {
        ArcReaches(arcs, bs, n);
        ReachesTrans(arcs, bs, n, child);
        return true;
      }
    }
    if Reaches(arcs, bs, child) {
      FirstArc(arcs, bs, child);
      var m :| (bs, m) in arcs && Reaches(arcs, m, child);
      ChildListIsArcs(g, bs, m);
    }
    return false;
  }

  // ------------------------------------------------------------------------------------------
  // should_update_child

  /** Edge c leaves some node of the subtree of `to`. */
  ghost predicate InSubtree(g: Graph, c: Edge, to: Node) {
    exists v :: v in g.nodes && c in g.nodes[v].children && Reaches(ArcsOf(g.edges), to, v)
  }

  /** What the breadth-first search has established: the nodes it has finished with are not c's
      owner and all their children are found. */
  ghost predicate Searched(g: Graph, c: Edge, found: set<Node>, queue: seq<Node>) {
    forall v :: v in found && v !in queue && v in g.nodes ==>
      && c !in g.nodes[v].children
      && forall n :: (v, n) in ArcsOf(g.edges) ==> n in found
  }

  lemma PopKeepsSearched(g: Graph, c: Edge, found: set<Node>, queue: seq<Node>)
    requires queue != [] && Searched(g, c, found, queue)
    ensures forall v :: v in found - {queue[0]} && v !in queue[1..] && v in g.nodes ==>
      && c !in g.nodes[v].children
      && forall n :: (v, n) in ArcsOf(g.edges) ==> n in found
  {
    assert queue == [queue[0]] + queue[1..];
  }

  method ShouldUpdateChild(g: Graph, c: Edge, to: Node) returns (ret: bool)
    requires Wf(g) && c in g.edges && to in g.nodes
    ensures ret <==> !g.edges[c].stayAtNode && !InSubtree(g, c, to)
  {
    if g.edges[c].stayAtNode {
      return false;
    }
    ret := true;
    var found := {to};
    var queue := [to];
    ReachesSelf(ArcsOf(g.edges), to);
    while queue != []
      invariant to in found && FoundOk(g, to, found, queue)
      invariant if ret then Searched(g, c, found, queue) else InSubtree(g, c, to)
      decreases g.nodes.Keys - found, |queue|
    {
      var v := queue[0];
      if ret { PopKeepsSearched(g, c, found, queue); }
      assert v in queue && queue == [v] + queue[1..];
      var hit;
      hit, found, queue := EnqueueChildren(g, c, to, v, found, queue[1..]);
      if hit {
        ret := false;
      }
    }
    if ret {
      SearchIsComplete(g, c, to, found);
    }
  }

  /** Everything found lies below `to`, and the queue holds found nodes, each once. */
  ghost predicate FoundOk(g: Graph, to: Node, found: set<Node>, queue: seq<Node>) {
    && found <= g.nodes.Keys && (forall v :: v in found ==> Reaches(ArcsOf(g.edges), to, v))
    && (forall v :: v in queue ==> v in found) && NoDup(queue)
  }

  /** The loop over v->children: stops at c, otherwise enqueues the children not found before. */
  method EnqueueChildren(g: Graph, c: Edge, to: Node, v: Node, found: set<Node>, queue: seq<Node>)
    returns (hit: bool, found': set<Node>, queue': seq<Node>)
    requires Wf(g) && v in found && v !in queue && FoundOk(g, to, found, queue)
    ensures FoundOk(g, to, found', queue') && found <= found' && v !in queue'
    ensures found' == found ==> queue' == queue
    ensures forall x :: x in found' && x !in found ==> x in queue'
    ensures forall x :: x in queue ==> x in queue'
    ensures hit <==> c in g.nodes[v].children
    ensures !hit ==> forall n :: (v, n) in ArcsOf(g.edges) ==> n in found'
  {
    ghost var arcs := ArcsOf(g.edges);
    found', queue' := found, queue;
    var cs := g.nodes[v].children;
    for i := 0 to |cs|
      invariant FoundOk(g, to, found', queue') && found <= found' && v !in queue'
      invariant found' == found ==> queue' == queue
      invariant forall x :: x in found' && x !in found ==> x in queue'
      invariant forall x :: x in queue ==> x in queue'
      invariant forall j :: 0 <= j < i ==> cs[j] != c
      invariant forall j, n :: 0 <= j < i && PointsTo(g.edges, cs[j], n) ==> n in found'
    {
      ChildTarget(g, v, i);
      if cs[i] == c {
        return true, found', queue';
      }
      var n := g.edges[cs[i]].bs.value;
      if n !in found' {
        ArcReaches(arcs, v, n);
        ReachesTrans(arcs, to, v, n);
        queue' := queue' + [n];
        found' := found' + {n};
      }
    }
    forall n | (v, n) in arcs ensures n in found' { ChildListIsArcs(g, v, n); }
    hit := false;
  }

  lemma SearchIsComplete(g: Graph, c: Edge, to: Node, found: set<Node>)
    requires Wf(g) && to in found && found <= g.nodes.Keys && Searched(g, c, found, [])
    ensures !InSubtree(g, c, to)
  {
    if v :| v in g.nodes && c in g.nodes[v].children && Reaches(ArcsOf(g.edges), to, v) {
      ClosedSetContainsReach(ArcsOf(g.edges), found, to, v);
    }
  }

  // ------------------------------------------------------------------------------------------
  // bdrv_topological_dfs

  /** Every arc that leaves list[i] leads to a node that is in the list and comes after i. */
  ghost predicate SortedAt(arcs: Arcs, list: seq<Node>, i: nat)
    requires i < |list|
  {
    forall n :: (list[i], n) in arcs ==> n in list[i + 1..]
  }

  /** Duplicate-free, closed under children, and parents come before children. */
  ghost predicate Topological(arcs: Arcs, list: seq<Node>) {
    && (forall i, j :: 0 <= i < j < |list| ==> list[i] != list[j])
    && (forall i :: 0 <= i < |list| ==> SortedAt(arcs, list, i))
  }

  function Elements(list: seq<Node>): set<Node> {
    set n | n in list
  }

  ghost predicate ReachedFrom(arcs: Arcs, x: Node, n: Node) {
    exists m :: (x, m) in arcs && Reaches(arcs, m, n)
  }

  lemma PrependTopological(arcs: Arcs, list: seq<Node>, bs: Node)
    requires Topological(arcs, list) && bs !in list
    requires forall n :: (bs, n) in arcs ==> n in list
    ensures Topological(arcs, [bs] + list)
  {
    var r := [bs] + list;
    forall i | 0 <= i < |r| ensures SortedAt(arcs, r, i) {
      if i == 0 {
        assert r[1..] == list;
      } else {
        assert SortedAt(arcs, list, i - 1);
        assert r[i + 1..] == list[i..];
      }
    }
  }

  /** A node whose subtree walk has begun but not ended leads to bs, so it is not bs. */
  ghost predicate OpenAbove(arcs: Arcs, open: set<Node>, bs: Node) {
    forall x :: x in open ==> ReachedFrom(arcs, x, bs)
  }

  lemma OpenAboveChild(arcs: Arcs, open: set<Node>, bs: Node, n: Node)
    requires OpenAbove(arcs, open, bs) && (bs, n) in arcs
    ensures OpenAbove(arcs, open + {bs}, n)
  {
    ReachesSelf(arcs, n);
    ArcReaches(arcs, bs, n);
    forall x | x in open ensures ReachedFrom(arcs, x, n) {
      var m :| (x, m) in arcs && Reaches(arcs, m, bs);
      ReachesTrans(arcs, m, bs, n);
    }
  }

  /** Prepends to the sorted `list` the part of bs's subtree that is not in it yet.  `found` holds
      the list and the nodes whose walk is still open. */
  method TopologicalDfs(g: Graph, list: seq<Node>, found: set<Node>, bs: Node)
    returns (list': seq<Node>, found': set<Node>)
    requires Wf(g) && bs in g.nodes && Acyclic(ArcsOf(g.edges))
    requires Topological(ArcsOf(g.edges), list) && Elements(list) <= found <= g.nodes.Keys
    requires OpenAbove(ArcsOf(g.edges), found - Elements(list), bs)
    ensures Topological(ArcsOf(g.edges), list') && Elements(list') <= found' <= g.nodes.Keys
    ensures found' - Elements(list') == found - Elements(list)
    ensures bs in list' && |list| <= |list'| && list'[|list'| - |list|..] == list && Elements(list) <= Elements(list')
    ensures forall n :: n in list' && n !in list ==> Reaches(ArcsOf(g.edges), bs, n)
    decreases g.nodes.Keys - found
  {
    ghost var arcs := ArcsOf(g.edges);
    list', found' := list, found;
    if bs in found {
      assert bs !in list ==> bs in found - Elements(list);
      return;
    }
    found' := found' + {bs};
    ReachesSelf(arcs, bs);
    for i := 0 to |g.nodes[bs].children|
      invariant Topological(arcs, list') && Elements(list') <= found' <= g.nodes.Keys
      invariant found' - Elements(list') == found - Elements(list) + {bs} && found + {bs} <= found'
      invariant |list| <= |list'| && list'[|list'| - |list|..] == list && Elements(list) <= Elements(list')
      invariant forall n :: n in list' && n !in list ==> Reaches(arcs, bs, n)
      invariant forall j, n :: 0 <= j < i && PointsTo(g.edges, g.nodes[bs].children[j], n) ==> n in list'
    {
      ChildTarget(g, bs, i);
      var n := g.edges[g.nodes[bs].children[i]].bs.value;
      ReachesSelf(arcs, n);
      ArcReaches(arcs, bs, n);
      OpenAboveChild(arcs, found - Elements(list), bs, n);
      ghost var before := list';
      list', found' := TopologicalDfs(g, list', found', n);
      assert list'[|list'| - |list|..] == before[|before| - |list|..];
      forall x | x in list' && x !in list ensures Reaches(arcs, bs, x) {
        if x !in before { ReachesTrans(arcs, bs, n, x); }
      }
      forall x | x in before ensures x in list' { assert x in Elements(before); }
    }
    forall n | (bs, n) in arcs ensures n in list' {
      ChildListIsArcs(g, bs, n);
    }
    PrependTopological(arcs, list', bs);
    list' := [bs] + list';
  }

  /** The nodes below any of the given nodes. */
  ghost function Subtrees(g: Graph, nodes: seq<Node>): set<Node> {
    set m | m in g.nodes && exists n :: n in nodes && Reaches(ArcsOf(g.edges), n, m)
  }

  lemma SubtreesListed(g: Graph, nodes: seq<Node>, list: seq<Node>)
    requires Topological(ArcsOf(g.edges), list) && forall j :: 0 <= j < |nodes| ==> nodes[j] in list
    requires forall n :: n in list ==> n in Subtrees(g, nodes)
    ensures Elements(list) == Subtrees(g, nodes)
  {
    var arcs, all := ArcsOf(g.edges), Elements(list);
    forall x, y | (x, y) in arcs && x in all ensures y in all {
      var i :| 0 <= i < |list| && list[i] == x;
      assert SortedAt(arcs, list, i);
      assert y in list[i + 1..];
    }
    forall m | m in Subtrees(g, nodes) ensures m in all {
      var n :| n in nodes && Reaches(arcs, n, m);
      var j :| 0 <= j < |nodes| && nodes[j] == n;
      assert n in all;
      ClosedSetContainsReach(arcs, all, n, m);
    }
    forall m | m in all ensures m in Subtrees(g, nodes) {}
  }

  /** The refresh list of bdrv_list_refresh_perms: every subtree, each node once, sorted. */
  method CollectSubtrees(g: Graph, nodes: seq<Node>) returns (list: seq<Node>)
    requires Wf(g) && Acyclic(ArcsOf(g.edges)) && forall n :: n in nodes ==> n in g.nodes
    ensures Topological(ArcsOf(g.edges), list) && Elements(list) == Subtrees(g, nodes)
  {
    ghost var arcs := ArcsOf(g.edges);
    var found := {};
    list := [];
    for i := 0 to |nodes|
      invariant Topological(arcs, list) && Elements(list) == found && found <= g.nodes.Keys
      invariant forall j :: 0 <= j < i ==> nodes[j] in list
      invariant forall n :: n in list ==> n in Subtrees(g, nodes)
    {
      ghost var before := list;
      assert nodes[i] in nodes;
      assert found - Elements(list) == {};
      list, found := TopologicalDfs(g, list, found, nodes[i]);
      assert found <= Elements(list) by {
        forall x | x in found ensures x in Elements(list) { assert x !in found - Elements(list); }
      }
      forall n | n in list ensures n in Subtrees(g, nodes) { assert n in Elements(list); }
      forall j | 0 <= j < i ensures nodes[j] in list { assert nodes[j] in Elements(before); }
    }
    SubtreesListed(g, nodes, list);
  }
}

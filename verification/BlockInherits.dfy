/** bdrv_unset_inherits_from: which nodes stop inheriting from a node when an edge of it goes. */
module BlockInherits {

  import opened Digraph
  import opened BlockGraph
  import opened BlockTraversal

  /** x is the edge c itself or lies below it. */
  ghost predicate Within(edges: map<Edge, Child>, c: Edge, x: Edge) {
    && c in edges && edges[c].bs.Some?
    && (x == c || (x in edges && edges[x].owner.OfNode? && edges[x].bs.Some?
                   && Reaches(ArcsOf(edges), edges[c].bs.value, edges[x].owner.node)))
  }

  /** x leads to n, and no other edge of root does. */
  ghost predicate LastLink(edges: map<Edge, Child>, root: Node, x: Edge, n: Node) {
    PointsTo(edges, x, n) && forall y :: ChildOf(edges, y, root) && y != x ==> !PointsTo(edges, y, n)
  }

  /** Some edge at or below c is the last link between root and n. */
  ghost predicate Orphaned(edges: map<Edge, Child>, root: Node, c: Edge, n: Node) {
    exists x :: Within(edges, c, x) && LastLink(edges, root, x, n)
  }

  ghost function Orphans(g: Graph, root: Node, c: Edge): set<Node> {
    set n | n in g.nodes && Orphaned(g.edges, root, c, n)
  }

  /** The pointers to root are cleared at exactly the nodes of `gone`. */
  ghost predicate Cleared(
      inherits: map<Node, Option<Node>>, inherits': map<Node, Option<Node>>, root: Node, gone: set<Node>)
  {
    && inherits'.Keys == inherits.Keys
    && forall n ::
         n in inherits ==> inherits'[n] == if inherits[n] == Some(root) && n in gone then None else inherits[n]
  }

  lemma ClearedTwice(
    i0: map<Node, Option<Node>>, i1: map<Node, Option<Node>>, i2: map<Node, Option<Node>>, root: Node,
    a: set<Node>, b: set<Node>)
    requires Cleared(i0, i1, root, a) && Cleared(i1, i2, root, b)
    ensures Cleared(i0, i2, root, a + b)
  {
  }

  /** What lies within c: c itself and whatever lies within a child of its target. */
  lemma WithinSplit(g: Graph, c: Edge, x: Edge)
    requires Wf(g) && EdgeOk(g, c) && g.edges[c].bs.Some?
    ensures var cs := g.nodes[g.edges[c].bs.value].children;
      Within(g.edges, c, x) <==> x == c || exists j :: 0 <= j < |cs| && Within(g.edges, cs[j], x)
  {
    var arcs, bs := ArcsOf(g.edges), g.edges[c].bs.value;
    var cs := g.nodes[bs].children;
    assert NodeOk(g.edges, g.nodes[bs], bs);
    if j :| 0 <= j < |cs| && Within(g.edges, cs[j], x) {
      ChildTarget(g, bs, j);
      var n := g.edges[cs[j]].bs.value;
      ReachesSelf(arcs, bs);
      ArcReaches(arcs, bs, n);
      if x != cs[j] { ReachesTrans(arcs, bs, n, g.edges[x].owner.node); }
    }
    if Within(g.edges, c, x) && x != c {
      var o := g.edges[x].owner.node;
      if o == bs {
        assert ChildOf(g.edges, x, bs);
        var j :| 0 <= j < |cs| && cs[j] == x;
        assert Within(g.edges, cs[j], x);
      } else {
        FirstArc(arcs, bs, o);
        var m :| (bs, m) in arcs && Reaches(arcs, m, o);
        ChildListIsArcs(g, bs, m);
        var j :| 0 <= j < |cs| && PointsTo(g.edges, cs[j], m);
        assert Within(g.edges, cs[j], x);
      }
    }
  }

  lemma OrphanedSplit(g: Graph, root: Node, c: Edge, n: Node)
    requires Wf(g) && EdgeOk(g, c) && g.edges[c].bs.Some?
    ensures var cs := g.nodes[g.edges[c].bs.value].children;
      Orphaned(g.edges, root, c, n) <==>
        || LastLink(g.edges, root, c, n)
        || exists j :: 0 <= j < |cs| && Orphaned(g.edges, root, cs[j], n)
  {
    var cs := g.nodes[g.edges[c].bs.value].children;
    if x :| Within(g.edges, c, x) && LastLink(g.edges, root, x, n) {
      WithinSplit(g, c, x);
      if x != c {
        var j :| 0 <= j < |cs| && Within(g.edges, cs[j], x);
        assert Orphaned(g.edges, root, cs[j], n);
      }
    }
    if LastLink(g.edges, root, c, n) { assert Within(g.edges, c, c); }
    if j :| 0 <= j < |cs| && Orphaned(g.edges, root, cs[j], n) {
      var x :| Within(g.edges, cs[j], x) && LastLink(g.edges, root, x, n);
      WithinSplit(g, c, x);
      assert Within(g.edges, c, x);
    }
  }

  /** What is cleared after c itself and the first i children of its target have been dealt with. */
  ghost predicate GoneSoFar(g: Graph, root: Node, c: Edge, cs: seq<Edge>, i: nat, gone: set<Node>)
    requires i <= |cs|
  {
    forall n :: n in gone <==>
      n in g.nodes && (LastLink(g.edges, root, c, n) || exists j :: 0 <= j < i && Orphaned(g.edges, root, cs[j], n))
  }

  lemma GoneStep(g: Graph, root: Node, c: Edge, cs: seq<Edge>, i: nat, gone: set<Node>)
    requires i < |cs| && GoneSoFar(g, root, c, cs, i, gone)
    ensures GoneSoFar(g, root, c, cs, i + 1, gone + Orphans(g, root, cs[i]))
  {
  }

  lemma GoneDone(g: Graph, root: Node, c: Edge, cs: seq<Edge>, gone: set<Node>)
    requires Wf(g) && EdgeOk(g, c) && g.edges[c].bs.Some? && cs == g.nodes[g.edges[c].bs.value].children
    requires GoneSoFar(g, root, c, cs, |cs|, gone)
    ensures gone == Orphans(g, root, c)
  {
    forall n ensures n in gone <==> n in Orphans(g, root, c) {
      OrphanedSplit(g, root, c, n);
    }
  }

  /** The inner loop: is there another edge of root to n? */
  method OtherLink(g: Graph, root: Node, c: Edge, n: Node) returns (found: bool)
    requires Wf(g) && root in g.nodes && PointsTo(g.edges, c, n)
    ensures found <==> !LastLink(g.edges, root, c, n)
  {
    var cs := g.nodes[root].children;
    assert NodeOk(g.edges, g.nodes[root], root);
    for i := 0 to |cs|
      invariant forall j :: 0 <= j < i && cs[j] != c ==> !PointsTo(g.edges, cs[j], n)
    {
      var y := cs[i];
      assert y in cs && ChildOf(g.edges, y, root);
      if y != c && g.edges[y].bs == Some(n) {
        assert PointsTo(g.edges, y, n);
        return true;
      }
    }
    forall y | ChildOf(g.edges, y, root) && y != c ensures !PointsTo(g.edges, y, n) {
      assert y in cs;
    }
    return false;
  }

  /** The pointers after a link of p is replaced: the nodes that lose their last link to p are
      cleared, and the new target inherits from p if it did so indirectly before. */
  ghost predicate Relinked(
    inherits: map<Node, Option<Node>>, inherits': map<Node, Option<Node>>, g: Graph, p: Node, link: Option<Edge>,
    target: Option<Node>, update: bool)
  {
    var gone := if link.Some? then Orphans(g, p, link.value) else {};
    exists i1 ::
      && Cleared(inherits, i1, p, gone)
      && inherits' == if target.Some? && update then i1[target.value := Some(p)] else i1
  }
}

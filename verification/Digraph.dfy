/** Directed graphs as sets of arcs: reachability, acyclicity and how one more arc changes them. */
module Digraph {

  type Node = int
  type Arcs = set<(Node, Node)>

  ghost predicate IsPath(g: Arcs, p: seq<Node>) {
    |p| > 0 && forall i :: 0 <= i < |p| - 1 ==> (p[i], p[i + 1]) in g
  }

  ghost predicate PathFromTo(g: Arcs, p: seq<Node>, a: Node, b: Node) {
    IsPath(g, p) && p[0] == a && p[|p| - 1] == b
  }

  /** b can be reached from a along zero or more arcs. */
  ghost predicate Reaches(g: Arcs, a: Node, b: Node) {
    exists p :: PathFromTo(g, p, a, b)
  }

  /** No arc leads from a node back to one that reaches it. */
  ghost predicate Acyclic(g: Arcs) {
    forall a, b :: (a, b) in g ==> !Reaches(g, b, a)
  }

  lemma ReachesSelf(g: Arcs, a: Node)
    ensures Reaches(g, a, a)
  {
    assert PathFromTo(g, [a], a, a);
  }

  lemma ReachesTrans(g: Arcs, a: Node, b: Node, c: Node)
    requires Reaches(g, a, b) && Reaches(g, b, c)
    ensures Reaches(g, a, c)
  {
    var p :| PathFromTo(g, p, a, b);
    var q :| PathFromTo(g, q, b, c);
    var r := p + q[1..];
    forall i | 0 <= i < |r| - 1 ensures (r[i], r[i + 1]) in g {
      if i < |p| - 1 {
        assert (p[i], p[i + 1]) in g;
      } else {
        assert r[i] == q[i - |p| + 1] && r[i + 1] == q[i - |p| + 2];
        assert (q[i - |p| + 1], q[i - |p| + 1 + 1]) in g;
      }
    }
    assert PathFromTo(g, r, a, c);
  }

  lemma ArcReaches(g: Arcs, a: Node, b: Node)
    requires (a, b) in g
    ensures Reaches(g, a, b)
  {
    assert PathFromTo(g, [a, b], a, b);
  }

  /** A path of at least one arc starts with an arc. */
  lemma FirstArc(g: Arcs, a: Node, b: Node)
    requires Reaches(g, a, b) && a != b
    ensures exists m :: (a, m) in g && Reaches(g, m, b)
  {
    var p :| PathFromTo(g, p, a, b);
    assert (p[0], p[0 + 1]) in g;
    assert PathFromTo(g, p[1..], p[1], b) by {
      forall i | 0 <= i < |p[1..]| - 1 ensures (p[1..][i], p[1..][i + 1]) in g {
        assert (p[i + 1], p[i + 1 + 1]) in g;
      }
    }
  }

  lemma MoreArcs(g: Arcs, h: Arcs, a: Node, b: Node)
    requires g <= h && Reaches(g, a, b)
    ensures Reaches(h, a, b)
  {
    var p :| PathFromTo(g, p, a, b);
    assert PathFromTo(h, p, a, b);
  }

  lemma FewerArcsAcyclic(g: Arcs, h: Arcs)
    requires g <= h && Acyclic(h)
    ensures Acyclic(g)
  {
    forall a, b | (a, b) in g ensures !Reaches(g, b, a) {
      if Reaches(g, b, a) { MoreArcs(g, h, b, a); }
    }
  }

  /** Whatever one more arc x -> y makes reachable goes through that arc. */
  lemma {:induction false} PathWithNewArc(g: Arcs, x: Node, y: Node, p: seq<Node>)
    requires IsPath(g + {(x, y)}, p)
    ensures Reaches(g, p[0], p[|p| - 1]) || (Reaches(g, p[0], x) && Reaches(g, y, p[|p| - 1]))
  {
    if |p| == 1 {
      ReachesSelf(g, p[0]);
    } else {
      var q := p[1..];
      assert IsPath(g + {(x, y)}, q) by {
        forall i | 0 <= i < |q| - 1 ensures (q[i], q[i + 1]) in g + {(x, y)} {
          assert (p[i + 1], p[i + 1 + 1]) in g + {(x, y)};
        }
      }
      PathWithNewArc(g, x, y, q);
      assert (p[0], p[0 + 1]) in g + {(x, y)};
      if (p[0], p[1]) in g {
        ArcReaches(g, p[0], p[1]);
        if Reaches(g, q[0], q[|q| - 1]) {
          ReachesTrans(g, p[0], p[1], p[|p| - 1]);
        } else {
          ReachesTrans(g, p[0], p[1], x);
        }
      } else {
        ReachesSelf(g, p[0]);
      }
    }
  }

  lemma NewArcReaches(g: Arcs, x: Node, y: Node, a: Node, b: Node)
    requires Reaches(g + {(x, y)}, a, b)
    ensures Reaches(g, a, b) || (Reaches(g, a, x) && Reaches(g, y, b))
  {
    var p :| PathFromTo(g + {(x, y)}, p, a, b);
    PathWithNewArc(g, x, y, p);
  }

  /** An arc x -> y keeps the graph acyclic exactly when y does not reach x. */
  lemma NewArcAcyclic(g: Arcs, x: Node, y: Node)
    requires Acyclic(g)
    ensures Acyclic(g + {(x, y)}) <==> !Reaches(g, y, x)
  {
    var h := g + {(x, y)};
    if Reaches(g, y, x) {
      MoreArcs(g, h, y, x);
      assert (x, y) in h;
    } else {
      forall a, b | (a, b) in h ensures !Reaches(h, b, a) {
        if Reaches(h, b, a) {
          NewArcReaches(g, x, y, b, a);
          if (a, b) in g {
            if !Reaches(g, b, a) {
              ArcReaches(g, a, b);
              ReachesTrans(g, y, a, b);
              ReachesTrans(g, y, b, x);
            }
          }
        }
      }
    }
  }

  /** A new arc that starts outside the subtree of `root` leaves that subtree alone. */
  lemma NewArcKeepsSubtree(g: Arcs, x: Node, y: Node, root: Node, b: Node)
    requires !Reaches(g, root, x)
    ensures Reaches(g + {(x, y)}, root, b) <==> Reaches(g, root, b)
  {
    if Reaches(g + {(x, y)}, root, b) { NewArcReaches(g, x, y, root, b); }
    if Reaches(g, root, b) { MoreArcs(g, g + {(x, y)}, root, b); }
  }

  /** Dropping arcs that start outside the subtree of `root` leaves that subtree alone. */
  lemma DroppedArcsKeepSubtree(g: Arcs, h: Arcs, root: Node, b: Node)
    requires h <= g && forall a, c :: (a, c) in g && (a, c) !in h ==> !Reaches(g, root, a)
    ensures Reaches(h, root, b) <==> Reaches(g, root, b)
  {
    if Reaches(h, root, b) { MoreArcs(h, g, root, b); }
    if Reaches(g, root, b) {
      var p :| PathFromTo(g, p, root, b);
      forall i | 0 <= i < |p| - 1 ensures (p[i], p[i + 1]) in h {
        var a, c := p[i], p[i + 1];
        assert PathFromTo(g, p[..i + 1], root, a);
        assert Reaches(g, root, a) && (a, c) in g;
      }
      assert PathFromTo(h, p, root, b);
    }
  }

  /** A set closed under arcs contains whatever its members reach. */
  lemma ClosedSetContainsReach(g: Arcs, s: set<Node>, a: Node, b: Node)
    requires a in s && Reaches(g, a, b)
    requires forall x, y {:trigger (x, y) in g} :: (x, y) in g && x in s ==> y in s
    ensures b in s
  {
    var p :| PathFromTo(g, p, a, b);
    for i := 0 to |p| - 1
      invariant p[i] in s
    {
      var x, y := p[i], p[i + 1];
      assert (x, y) in g;
    }
  }

  /** The nodes of a finite universe that a reaches: the measure of recursion on acyclic graphs. */
  ghost function Below(g: Arcs, nodes: set<Node>, a: Node): set<Node> {
    set b | b in nodes && Reaches(g, a, b)
  }

  lemma BelowShrinks(g: Arcs, nodes: set<Node>, a: Node, b: Node)
    requires Acyclic(g) && (a, b) in g && a in nodes
    ensures Below(g, nodes, b) < Below(g, nodes, a)
  {
    ArcReaches(g, a, b);
    ReachesSelf(g, a);
    forall c | c in Below(g, nodes, b) ensures c in Below(g, nodes, a) {
      ReachesTrans(g, a, b, c);
    }
    assert a in Below(g, nodes, a) && a !in Below(g, nodes, b);
  }
}

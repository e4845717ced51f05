/** Moving a part of the block graph to another AioContext (bdrv_try_change_aio_context): a recursion
    through parents, children and the other nodes of block jobs that only collects what to do, and a
    transaction that does all of it or nothing. */
module AioContexts {

  import opened Digraph
  import opened BlockGraph

  type Ctx = int
  type JobId = int

  /** How the owner of a root edge takes a change: it refuses, it has no objection, or it is a job,
      whose other nodes must move along. */
  datatype RootKind = Refuses | Accepts | OfJob(j: JobId)

  datatype Topology = Topology(g: Graph, root: Edge -> RootKind, jobNodes: map<JobId, seq<Edge>>)

  /** What the graph connects: nodes and jobs. */
  datatype Thing = NodeThing(n: Node) | JobThing(j: JobId)

  /** The lists agree with the edges, and every edge leads somewhere. */
  ghost predicate Ok(t: Topology) {
    && Wf(t.g) && (forall e {:trigger EdgeOk(t.g, e)} :: e in t.g.edges ==> t.g.edges[e].bs.Some?)
    && (forall j, e {:trigger e in t.jobNodes[j]} :: j in t.jobNodes && e in t.jobNodes[j] ==> IsJobEdge(t, e, j))
    && (forall e {:trigger t.root(e)} :: e in t.g.edges && t.g.edges[e].owner.OfRoot? && t.root(e).OfJob? ==>
          t.root(e).j in t.jobNodes && e in t.jobNodes[t.root(e).j])
  }

  predicate IsJobEdge(t: Topology, e: Edge, j: JobId) {
    e in t.g.edges && t.g.edges[e].owner.OfRoot? && t.root(e) == OfJob(j)
  }

  function Target(t: Topology, e: Edge): Thing
    requires e in t.g.edges && t.g.edges[e].bs.Some?
  {
    NodeThing(t.g.edges[e].bs.value)
  }

  predicate HasOwner(t: Topology, e: Edge) {
    e in t.g.edges && (t.g.edges[e].owner.OfNode? || t.root(e).OfJob?)
  }

  function OwnerOf(t: Topology, e: Edge): Thing
    requires HasOwner(t, e)
  {
    if t.g.edges[e].owner.OfNode? then NodeThing(t.g.edges[e].owner.node) else JobThing(t.root(e).j)
  }

  /** Edge e touches thing x. */
  predicate Touches(t: Topology, e: Edge, x: Thing) {
    e in t.g.edges && t.g.edges[e].bs.Some? && (x == Target(t, e) || (HasOwner(t, e) && x == OwnerOf(t, e)))
  }

  /** A set of things that no edge leads out of: a union of connected components. */
  ghost predicate Closed(t: Topology, things: set<Thing>) {
    forall e, x, y {:trigger Touches(t, e, x), Touches(t, e, y)} ::
      Touches(t, e, x) && Touches(t, e, y) && x in things ==> y in things
  }

  /** y is connected with x: it lies in every closed set that contains x. */
  ghost predicate Connected(t: Topology, x: Thing, y: Thing) {
    forall things {:trigger Closed(t, things)} :: Closed(t, things) && x in things ==> y in things
  }

  lemma ConnectedAlong(t: Topology, x: Thing, y: Thing, z: Thing, e: Edge)
    requires Connected(t, x, y) && Touches(t, e, y) && Touches(t, e, z)
    ensures Connected(t, x, z)
  {
  }

  /** The state during a change: the contexts, the open drained sections, the collected actions and
      the edges that have been visited. */
  datatype State = State(
    ctx: map<Node, Ctx>, jobCtx: map<JobId, Ctx>, drains: multiset<Node>, log: seq<Thing>, visited: set<Edge>)

  function CtxOf(s: State, x: Thing): Ctx {
    match x
    case NodeThing(n) => if n in s.ctx then s.ctx[n] else -1
    case JobThing(j) => if j in s.jobCtx then s.jobCtx[j] else -1
  }

  /** The drained sections that the collected actions hold open. */
  function Drained(log: seq<Thing>): multiset<Node> {
    if log == [] then multiset{}
    else
      var last := log[|log| - 1];
      Drained(log[..|log| - 1]) + if last.NodeThing? then multiset{last.n} else multiset{}
  }

  lemma DrainedOne(log: seq<Thing>, x: Thing)
    ensures Drained(log + [x]) == Drained(log) + match x case NodeThing(n) => multiset{n} case JobThing(_) => multiset{}
  {
    assert (log + [x])[..|log + [x]| - 1] == log;
  }

  // ------------------------------------------------------------------------------------------
  // What the recursion keeps

  /** x needs nothing more: it is collected, or it is there already. */
  predicate Handled(s: State, ctx: Ctx, x: Thing) {
    x in s.log || CtxOf(s, x) == ctx
  }

  /** The owner of edge e does not support a change. */
  predicate Refusing(t: Topology, e: Edge) {
    e in t.g.edges && t.g.edges[e].owner.OfRoot? && t.root(e).Refuses?
  }

  /** Somebody who is connected with the start refuses. */
  ghost predicate Blocked(t: Topology, start: Thing) {
    exists e, x :: Refusing(t, e) && Touches(t, e, x) && Connected(t, start, x)
  }

  /** Both ends of every visited edge are handled or being handled, every edge of a collected thing is
      visited, nobody met so far refuses, and only things that are connected with the start are
      collected. */
  ghost predicate Progress(t: Topology, s: State, ctx: Ctx, start: Thing, open: set<Thing>) {
    && s.visited <= t.g.edges.Keys && (forall e {:trigger Refusing(t, e)} :: e in s.visited ==> !Refusing(t, e))
    && (forall e, x {:trigger Touches(t, e, x)} ::
          e in s.visited && Touches(t, e, x) ==> Handled(s, ctx, x) || x in open)
    && (forall e, x {:trigger Touches(t, e, x)} :: x in s.log && Touches(t, e, x) ==> e in s.visited)
    && (forall x {:trigger Connected(t, start, x)} :: x in s.log || x in open ==> Connected(t, start, x))
  }

  /** Only the log, the drains and the visited edges have grown. */
  ghost predicate Grown(s: State, s': State) {
    && s'.ctx == s.ctx && s'.jobCtx == s.jobCtx && s.visited <= s'.visited
    && (forall x {:trigger x in s.log} :: x in s.log ==> x in s'.log)
    && s'.drains + Drained(s.log) == s.drains + Drained(s'.log)
  }

  lemma GrownTrans(s: State, s1: State, s2: State)
    requires Grown(s, s1) && Grown(s1, s2)
    ensures Grown(s, s2)
  {
    forall n: Node ensures (s2.drains + Drained(s.log))[n] == (s.drains + Drained(s2.log))[n] {
      assert (s1.drains + Drained(s.log))[n] == (s.drains + Drained(s1.log))[n];
      assert (s2.drains + Drained(s1.log))[n] == (s1.drains + Drained(s2.log))[n];
    }
  }

  lemma CloseThing(t: Topology, s: State, ctx: Ctx, start: Thing, open: set<Thing>, x: Thing)
    requires Progress(t, s, ctx, start, open + {x}) && Handled(s, ctx, x)
    ensures Progress(t, s, ctx, start, open)
  {
  }

  /** x is collected once all its edges are visited. */
  lemma LogThing(t: Topology, s: State, s': State, ctx: Ctx, start: Thing, open: set<Thing>, x: Thing)
    requires Progress(t, s, ctx, start, open) && x in open && forall e :: Touches(t, e, x) ==> e in s.visited
    requires s' == s.(log := s.log + [x], drains := s'.drains)
    ensures Progress(t, s', ctx, start, open) && Handled(s', ctx, x)
  {
    forall y ensures Handled(s, ctx, y) ==> Handled(s', ctx, y) {}
  }

  /** An edge is visited from x, one of its ends; y is the other end. */
  lemma VisitEdge(
      t: Topology, s: State, s': State, ctx: Ctx, start: Thing, open: set<Thing>, e: Edge, x: Thing, y: Thing)
    requires Progress(t, s, ctx, start, open) && Touches(t, e, x) && x in open && Touches(t, e, y) && HasOwner(t, e)
    requires forall z :: Touches(t, e, z) ==> z == x || z == y
    requires s' == s.(visited := s.visited + {e})
    ensures Progress(t, s', ctx, start, open + {y})
  {
    ConnectedAlong(t, start, x, y, e);
    forall z ensures Handled(s, ctx, z) ==> Handled(s', ctx, z) {}
  }

  /** A root edge whose owner is neither a node nor a job. */
  lemma VisitRoot(t: Topology, s: State, s': State, ctx: Ctx, start: Thing, open: set<Thing>, e: Edge, x: Thing)
    requires Progress(t, s, ctx, start, open) && Touches(t, e, x) && x in open && !HasOwner(t, e) && !Refusing(t, e)
    requires s' == s.(visited := s.visited + {e})
    ensures Progress(t, s', ctx, start, open)
  {
    forall z ensures Handled(s, ctx, z) ==> Handled(s', ctx, z) {}
  }

  // ------------------------------------------------------------------------------------------
  // Lists and edges

  /** The parent and child lists of a node hold all edges that touch it. */
  lemma NodeEdges(t: Topology, n: Node, e: Edge)
    requires Ok(t) && n in t.g.nodes
    ensures Touches(t, e, NodeThing(n)) <==> e in t.g.nodes[n].parents || e in t.g.nodes[n].children
  {
    assert NodeOk(t.g.edges, t.g.nodes[n], n);
    if e in t.g.edges { assert EdgeOk(t.g, e); }
    assert e in t.g.nodes[n].parents <==> PointsTo(t.g.edges, e, n);
    assert e in t.g.nodes[n].children <==> ChildOf(t.g.edges, e, n);
  }

  lemma JobEdges(t: Topology, j: JobId, e: Edge)
    requires Ok(t) && j in t.jobNodes
    ensures Touches(t, e, JobThing(j)) <==> e in t.jobNodes[j]
  {
    if e in t.g.edges { assert EdgeOk(t.g, e); }
    if e in t.jobNodes[j] { assert IsJobEdge(t, e, j); }
    if Touches(t, e, JobThing(j)) { assert t.root(e).j == j; }
  }

  class AioLayer {
    var s: State

    /** bdrv_change_aio_context */
    method ChangeContext(t: Topology, bs: Node, ctx: Ctx, ghost start: Thing, ghost open: set<Thing>) returns (ok: bool)
      requires Ok(t) && bs in t.g.nodes && t.g.nodes.Keys <= s.ctx.Keys && NodeThing(bs) in open
      requires Progress(t, s, ctx, start, open)
      modifies this
      ensures Grown(old(s), s) && (!ok ==> Blocked(t, start))
      ensures ok ==> Progress(t, s, ctx, start, open) && Handled(s, ctx, NodeThing(bs))
      decreases t.g.edges.Keys - s.visited, 2
    {
      if s.ctx[bs] == ctx {
        return true;
      }
      ok := ChangeParents(t, bs, ctx, start, open);
      if !ok {
        return;
      }
      ghost var s1 := s;
      ok := ChangeChildren(t, bs, ctx, start, open);
      GrownTrans(old(s), s1, s);
      if !ok {
        return;
      }
      forall e | Touches(t, e, NodeThing(bs)) ensures e in s.visited { NodeEdges(t, bs, e); }
      ghost var s2 := s;
      DrainedOne(s.log, NodeThing(bs));
      s := s.(drains := s.drains + multiset{bs}, log := s.log + [NodeThing(bs)]);
      LogThing(t, s2, s, ctx, start, open, NodeThing(bs));
      GrownTrans(old(s), s2, s);
    }

    method ChangeParents(t: Topology, bs: Node, ctx: Ctx, ghost start: Thing, ghost open: set<Thing>) returns (ok: bool)
      requires Ok(t) && bs in t.g.nodes && t.g.nodes.Keys <= s.ctx.Keys && NodeThing(bs) in open
      requires Progress(t, s, ctx, start, open)
      modifies this
      ensures Grown(old(s), s) && (!ok ==> Blocked(t, start))
      ensures ok ==> Progress(t, s, ctx, start, open) && forall e :: e in t.g.nodes[bs].parents ==> e in s.visited
      decreases t.g.edges.Keys - s.visited, 1
    {
      var ps := t.g.nodes[bs].parents;
      for i := 0 to |ps|
        invariant Grown(old(s), s) && Progress(t, s, ctx, start, open) && forall k :: 0 <= k < i ==> ps[k] in s.visited
      {
        ParentTouches(t, bs, i);
        ghost var s1 := s;
        ok := ParentChange(t, ps[i], ctx, start, open);
        GrownTrans(old(s), s1, s);
        if !ok {
          return;
        }
      }
      ok := true;
    }

    method ChangeChildren(t: Topology, bs: Node, ctx: Ctx, ghost start: Thing, ghost open: set<Thing>)
      returns (ok: bool)
      requires Ok(t) && bs in t.g.nodes && t.g.nodes.Keys <= s.ctx.Keys && NodeThing(bs) in open
      requires Progress(t, s, ctx, start, open)
      modifies this
      ensures Grown(old(s), s) && (!ok ==> Blocked(t, start))
      ensures ok ==> Progress(t, s, ctx, start, open) && forall e :: e in t.g.nodes[bs].children ==> e in s.visited
      decreases t.g.edges.Keys - s.visited, 1
    {
      var cs := t.g.nodes[bs].children;
      for i := 0 to |cs|
        invariant Grown(old(s), s) && Progress(t, s, ctx, start, open) && forall k :: 0 <= k < i ==> cs[k] in s.visited
      {
        ChildTouches(t, bs, i);
        ghost var s1 := s;
        ok := ChildChange(t, cs[i], ctx, start, open);
        GrownTrans(old(s), s1, s);
        if !ok {
          return;
        }
      }
      ok := true;
    }

    /** bdrv_parent_change_aio_context */
    method ParentChange(t: Topology, c: Edge, ctx: Ctx, ghost start: Thing, ghost open: set<Thing>) returns (ok: bool)
      requires Ok(t) && EdgeOk(t.g, c) && t.g.edges[c].bs.Some? && Target(t, c) in open
      requires Progress(t, s, ctx, start, open)
      requires t.g.nodes.Keys <= s.ctx.Keys
      modifies this
      ensures Grown(old(s), s) && (!ok ==> Blocked(t, start))
      ensures ok ==> Progress(t, s, ctx, start, open) && c in s.visited
      decreases t.g.edges.Keys - s.visited, 0
    {
      if c in s.visited {
        return true;
      }
      s := s.(visited := s.visited + {c});
      ghost var s1 := s;
      if HasOwner(t, c) {
        ghost var y := OwnerOf(t, c);
        VisitEdge(t, old(s), s, ctx, start, open, c, Target(t, c), y);
        if t.g.edges[c].owner.OfNode? {
          ok := ChangeContext(t, t.g.edges[c].owner.node, ctx, start, open + {y});
        } else {
          assert t.root(c).j in t.jobNodes;
          ok := JobChange(t, t.root(c).j, ctx, start, open + {y});
        }
        GrownTrans(old(s), s1, s);
        if ok { CloseThing(t, s, ctx, start, open, y); }
      } else {
        ok := t.root(c).Accepts?;
        if ok {
          VisitRoot(t, old(s), s, ctx, start, open, c, Target(t, c));
        } else {
          assert Refusing(t, c) && Touches(t, c, Target(t, c)) && Connected(t, start, Target(t, c));
        }
      }
    }

    /** bdrv_child_change_aio_context */
    method ChildChange(t: Topology, c: Edge, ctx: Ctx, ghost start: Thing, ghost open: set<Thing>) returns (ok: bool)
      requires Ok(t) && EdgeOk(t.g, c) && t.g.edges[c].bs.Some? && HasOwner(t, c) && OwnerOf(t, c) in open
      requires Progress(t, s, ctx, start, open)
      requires t.g.nodes.Keys <= s.ctx.Keys
      modifies this
      ensures Grown(old(s), s) && (!ok ==> Blocked(t, start))
      ensures ok ==> Progress(t, s, ctx, start, open) && c in s.visited
      decreases t.g.edges.Keys - s.visited, 0
    {
      if c in s.visited {
        return true;
      }
      s := s.(visited := s.visited + {c});
      ghost var s1 := s;
      ghost var y := Target(t, c);
      VisitEdge(t, old(s), s, ctx, start, open, c, OwnerOf(t, c), y);
      ok := ChangeContext(t, t.g.edges[c].bs.value, ctx, start, open + {y});
      GrownTrans(old(s), s1, s);
      if ok { CloseThing(t, s, ctx, start, open, y); }
    }

    /** child_job_change_aio_ctx */
    method JobChange(t: Topology, j: JobId, ctx: Ctx, ghost start: Thing, ghost open: set<Thing>) returns (ok: bool)
      requires Ok(t) && j in t.jobNodes && t.g.nodes.Keys <= s.ctx.Keys && JobThing(j) in open
      requires Progress(t, s, ctx, start, open)
      modifies this
      ensures Grown(old(s), s) && (!ok ==> Blocked(t, start))
      ensures ok ==> Progress(t, s, ctx, start, open) && Handled(s, ctx, JobThing(j))
      decreases t.g.edges.Keys - s.visited, 2
    {
      var ns := t.jobNodes[j];
      for i := 0 to |ns|
        invariant Grown(old(s), s) && Progress(t, s, ctx, start, open) && forall k :: 0 <= k < i ==> ns[k] in s.visited
      {
        JobNodeTouches(t, j, i);
        ghost var s1 := s;
        ok := ChildChange(t, ns[i], ctx, start, open);
        GrownTrans(old(s), s1, s);
        if !ok {
          return;
        }
      }
      forall e | Touches(t, e, JobThing(j)) ensures e in s.visited { JobEdges(t, j, e); }
      ghost var s1 := s;
      DrainedOne(s.log, JobThing(j));
      s := s.(log := s.log + [JobThing(j)]);
      LogThing(t, s1, s, ctx, start, open, JobThing(j));
      GrownTrans(old(s), s1, s);
      ok := true;
    }

    /** tran_commit's first pass: the .commit callbacks, newest first */
    method CommitAll(ctx: Ctx)
      modifies this
      ensures s == old(s).(ctx := s.ctx, jobCtx := s.jobCtx) && s.ctx.Keys >= old(s).ctx.Keys
      ensures s.jobCtx.Keys >= old(s).jobCtx.Keys
      ensures forall x :: CtxOf(s, x) == if x in old(s).log then ctx else CtxOf(old(s), x)
    {
      var i := |s.log|;
      while i > 0
        invariant 0 <= i <= |s.log| && s == old(s).(ctx := s.ctx, jobCtx := s.jobCtx)
        invariant s.ctx.Keys >= old(s).ctx.Keys && s.jobCtx.Keys >= old(s).jobCtx.Keys
        invariant forall x :: CtxOf(s, x) == if x in old(s).log[i..] then ctx else CtxOf(old(s), x)
      {
        i := i - 1;
        assert s.log[i..] == [s.log[i]] + s.log[i + 1..];
        match s.log[i]
        case NodeThing(n) => s := s.(ctx := s.ctx[n := ctx]);
        case JobThing(j) => s := s.(jobCtx := s.jobCtx[j := ctx]);
      }
      assert s.log[0..] == s.log;
    }

    /** The second pass of tran_commit and of tran_abort: the .clean callbacks end the drained sections. */
    method CleanAll(ghost drains0: multiset<Node>)
      requires s.drains == drains0 + Drained(s.log)
      modifies this
      ensures s == old(s).(log := [], drains := drains0)
    {
      while s.log != []
        invariant s.drains == drains0 + Drained(s.log) && s == old(s).(log := s.log, drains := s.drains)
        decreases |s.log|
      {
        var x := s.log[|s.log| - 1];
        var drains := match x case NodeThing(n) => s.drains - multiset{n} case JobThing(_) => s.drains;
        s := s.(log := s.log[..|s.log| - 1], drains := drains);
      }
    }

    /** bdrv_try_change_aio_context without an ignored child.  Everything that is connected with bs and
        shares its context moves, or nothing does; all drained sections are ended. */
    method TryChange(t: Topology, bs: Node, ctx: Ctx, ghost was: Ctx) returns (ok: bool)
      requires Ok(t) && bs in t.g.nodes && t.g.nodes.Keys <= s.ctx.Keys && s.log == [] && s.visited == {}
      requires forall x {:trigger Connected(t, NodeThing(bs), x)} ::
        Connected(t, NodeThing(bs), x) ==> CtxOf(s, x) == was
      modifies this
      ensures s.log == [] && s.visited == {} && s.drains == old(s).drains
      ensures !ok ==> s == old(s) && Blocked(t, NodeThing(bs))
      ensures ok && was != ctx ==> !Blocked(t, NodeThing(bs))
      ensures ok ==> forall x :: CtxOf(s, x) == if Connected(t, NodeThing(bs), x) then ctx else CtxOf(old(s), x)
    {
      ghost var start := NodeThing(bs);
      ok := ChangeContext(t, bs, ctx, start, {start});
      ghost var s1 := s;
      assert Drained([]) == multiset{};
      if ok {
        CloseThing(t, s, ctx, start, {}, start);
        CollectedIsComponent(t, s, ctx, start, was);
        CommitAll(ctx);
      }
      CleanAll(old(s).drains);
      s := s.(visited := {});
    }
  }

  lemma ParentTouches(t: Topology, bs: Node, i: nat)
    requires Ok(t) && bs in t.g.nodes && i < |t.g.nodes[bs].parents|
    ensures var e := t.g.nodes[bs].parents[i]; EdgeOk(t.g, e) && t.g.edges[e].bs == Some(bs)
  {
    var e := t.g.nodes[bs].parents[i];
    assert NodeOk(t.g.edges, t.g.nodes[bs], bs);
    assert e in t.g.nodes[bs].parents && PointsTo(t.g.edges, e, bs);
    assert EdgeOk(t.g, e);
  }

  lemma ChildTouches(t: Topology, bs: Node, i: nat)
    requires Ok(t) && bs in t.g.nodes && i < |t.g.nodes[bs].children|
    ensures var e := t.g.nodes[bs].children[i];
      EdgeOk(t.g, e) && t.g.edges[e].bs.Some? && t.g.edges[e].owner == OfNode(bs)
  {
    var e := t.g.nodes[bs].children[i];
    assert NodeOk(t.g.edges, t.g.nodes[bs], bs);
    assert e in t.g.nodes[bs].children && ChildOf(t.g.edges, e, bs);
    assert EdgeOk(t.g, e);
  }

  lemma JobNodeTouches(t: Topology, j: JobId, i: nat)
    requires Ok(t) && j in t.jobNodes && i < |t.jobNodes[j]|
    ensures var e := t.jobNodes[j][i];
      EdgeOk(t.g, e) && t.g.edges[e].bs.Some? && HasOwner(t, e) && OwnerOf(t, e) == JobThing(j)
  {
    var e := t.jobNodes[j][i];
    assert e in t.jobNodes[j] && IsJobEdge(t, e, j);
    assert EdgeOk(t.g, e);
  }

  /** When nothing is open any more, exactly the connected things have been collected, unless they had
      the right context to begin with. */
  lemma CollectedIsComponent(t: Topology, s: State, ctx: Ctx, start: Thing, was: Ctx)
    requires Progress(t, s, ctx, start, {}) && Handled(s, ctx, start)
    requires forall x {:trigger Connected(t, start, x)} :: Connected(t, start, x) ==> CtxOf(s, x) == was
    ensures forall x {:trigger Connected(t, start, x)} :: Connected(t, start, x) ==> x in s.log || CtxOf(s, x) == ctx
    ensures forall x :: x in s.log ==> Connected(t, start, x)
    ensures was != ctx ==> !Blocked(t, start)
  {
    if was != ctx {
      var things := set x | x in s.log;
      assert Connected(t, start, start);
      forall e, x, y | Touches(t, e, x) && Touches(t, e, y) && x in things ensures y in things {
        ConnectedAlong(t, start, x, y, e);
        assert Handled(s, ctx, y);
      }
      assert Closed(t, things);
      forall e, x | Touches(t, e, x) && Connected(t, start, x) ensures !Refusing(t, e) {
        assert x in s.log && e in s.visited;
      }
    }
  }
}

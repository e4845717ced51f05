/** Reopening several nodes as one transaction (bdrv_reopen_queue, bdrv_reopen_multiple): who is in the
    queue, and which driver callbacks each queued node receives. */
module BlockReopen {

  import opened Lists
  import opened Digraph
  import opened BlockGraph
  import opened BlockTraversal

  // ------------------------------------------------------------------------------------------
  // The queue

  /** The child of edge e is reopened together with its parent: it inherits from it, and the options
      do not refer to another child instead. */
  predicate Followed(g: Graph, inherits: map<Node, Option<Node>>, follow: Edge -> bool, e: Edge, p: Node, n: Node) {
    ChildOf(g.edges, e, p) && PointsTo(g.edges, e, n) && n in inherits && inherits[n] == Some(p) && follow(e)
  }

  ghost predicate FollowsTo(g: Graph, inherits: map<Node, Option<Node>>, follow: Edge -> bool, p: Node, n: Node) {
    exists e :: Followed(g, inherits, follow, e, p, n)
  }

  ghost function FollowArcs(g: Graph, inherits: map<Node, Option<Node>>, follow: Edge -> bool): Arcs {
    set a | a in ArcsOf(g.edges) && FollowsTo(g, inherits, follow, a.0, a.1)
  }

  lemma FollowArcIff(g: Graph, inherits: map<Node, Option<Node>>, follow: Edge -> bool, p: Node, n: Node)
    ensures (p, n) in FollowArcs(g, inherits, follow) <==> FollowsTo(g, inherits, follow, p, n)
  {
    if e :| Followed(g, inherits, follow, e, p, n) { ArcIff(g.edges, p, n); }
  }

  /** bdrv_reopen_queue_child: adds bs and everything that is reopened along with it, each node once. */
  method QueueChild(g: Graph, inherits: map<Node, Option<Node>>, follow: Edge -> bool, queue: seq<Node>, bs: Node)
    returns (queue': seq<Node>)
    requires Wf(g) && bs in g.nodes && Acyclic(ArcsOf(g.edges)) && NoDup(queue)
    ensures NoDup(queue') && queue <= queue'
    ensures forall n :: n in queue' <==> n in queue || Reaches(FollowArcs(g, inherits, follow), bs, n)
    decreases Below(ArcsOf(g.edges), g.nodes.Keys, bs)
  {
    ghost var arcs := FollowArcs(g, inherits, follow);
    queue' := if bs in queue then queue else queue + [bs];
    ReachesSelf(arcs, bs);
    var cs := g.nodes[bs].children;
    for i := 0 to |cs|
      invariant NoDup(queue') && queue <= queue' && bs in queue'
      invariant forall n :: n in queue' ==> n in queue || Reaches(arcs, bs, n)
      invariant forall k, n, m ::
        0 <= k < i && Followed(g, inherits, follow, cs[k], bs, n) && Reaches(arcs, n, m) ==> m in queue'
    {
      ChildTarget(g, bs, i);
      var e := cs[i];
      var n := g.edges[e].bs.value;
      if n in inherits && inherits[n] == Some(bs) && follow(e) {
        assert Followed(g, inherits, follow, e, bs, n);
        FollowArcIff(g, inherits, follow, bs, n);
        BelowShrinks(ArcsOf(g.edges), g.nodes.Keys, bs, n);
        ghost var before := queue';
        queue' := QueueChild(g, inherits, follow, queue', n);
        forall m | m in queue' ensures m in queue || Reaches(arcs, bs, m) {
          if m !in before {
            ArcReaches(arcs, bs, n);
            ReachesTrans(arcs, bs, n, m);
          }
        }
      }
    }
    forall m | Reaches(arcs, bs, m) ensures m in queue' {
      if m != bs {
        var k, n := FirstFollowed(g, inherits, follow, bs, m);
        assert Followed(g, inherits, follow, cs[k], bs, n);
      }
    }
  }

  /** Whatever is reached from bs is reached through one of its children. */
  lemma FirstFollowed(g: Graph, inherits: map<Node, Option<Node>>, follow: Edge -> bool, bs: Node, m: Node)
    returns (k: nat, n: Node)
    requires Wf(g) && bs in g.nodes && m != bs && Reaches(FollowArcs(g, inherits, follow), bs, m)
    ensures k < |g.nodes[bs].children| && Followed(g, inherits, follow, g.nodes[bs].children[k], bs, n)
    ensures Reaches(FollowArcs(g, inherits, follow), n, m)
  {
    var arcs, cs := FollowArcs(g, inherits, follow), g.nodes[bs].children;
    FirstArc(arcs, bs, m);
    n :| (bs, n) in arcs && Reaches(arcs, n, m);
    FollowArcIff(g, inherits, follow, bs, n);
    var e :| Followed(g, inherits, follow, e, bs, n);
    assert NodeOk(g.edges, g.nodes[bs], bs);
    k :| 0 <= k < |cs| && cs[k] == e;
  }

  // ------------------------------------------------------------------------------------------
  // bdrv_reopen_multiple

  /** Calls of a node's driver; Prepare carries the return value. */
  datatype Call = Prepare(n: Node, ret: int) | Commit(n: Node) | Abort(n: Node)

  /** What may go wrong: flushing, the checks before and after the driver's prepare callback, that
      callback itself, and the permission update. */
  datatype Env = Env(
    flush: Node -> bool, before: Node -> bool, prepare: Node -> int, after: Node -> bool, refresh: bool)

  function Prepares(ns: seq<Node>, env: Env): seq<Call> {
    if ns == [] then [] else Prepares(ns[..|ns| - 1], env) + [Prepare(ns[|ns| - 1], env.prepare(ns[|ns| - 1]))]
  }

  function Aborts(ns: seq<Node>): seq<Call> {
    if ns == [] then [] else Aborts(ns[..|ns| - 1]) + [Abort(ns[|ns| - 1])]
  }

  /** Commits run from the last entry to the first. */
  function Commits(ns: seq<Node>): seq<Call> {
    if ns == [] then [] else [Commit(ns[|ns| - 1])] + Commits(ns[..|ns| - 1])
  }

  /** What the checks and the driver make of one entry: negative if it fails, 0 if it is prepared.  A
      positive value, too, ends bdrv_reopen_prepare early. */
  function PrepareResult(n: Node, env: Env): int {
    if !env.before(n) then -1
    else if env.prepare(n) != 0 then env.prepare(n)
    else if !env.after(n) then -1
    else 0
  }

  /** The driver calls that an entry gets when its preparation fails. */
  function FailureCalls(n: Node, env: Env): seq<Call> {
    if !env.before(n) then []
    else if env.prepare(n) != 0 then [Prepare(n, env.prepare(n))]
    else [Prepare(n, 0), Abort(n)]
  }

  /** Driver calls and node flags. */
  datatype State = State(calls: seq<Call>, flags: map<Node, int>)

  /** The calls of a whole reopen; f is the number of entries before the first that fails. */
  function AllCalls(queue: seq<Node>, env: Env, f: nat): seq<Call>
    requires f <= |queue|
  {
    if f < |queue| then Prepares(queue[..f], env) + FailureCalls(queue[f], env) + Aborts(queue[..f])
    else if !env.refresh then Prepares(queue, env) + Aborts(queue)
    else Prepares(queue, env) + Commits(queue)
  }

  class Reopening {
    var s: State

    /** bdrv_reopen_prepare */
    method PrepareEntry(n: Node, env: Env) returns (ret: int)
      modifies this
      ensures ret == PrepareResult(n, env) && s.flags == old(s).flags
      ensures s.calls == old(s).calls + if ret < 0 then FailureCalls(n, env) else [Prepare(n, env.prepare(n))]
    {
      if !env.before(n) {
        return -1;
      }
      ret := env.prepare(n);
      s := s.(calls := s.calls + [Prepare(n, ret)]);
      if ret != 0 {
        return;
      }
      if !env.after(n) {
        s := s.(calls := s.calls + [Abort(n)]);
        return -1;
      }
    }

    /** The loops of bdrv_reopen_multiple up to the permission update.  f entries get prepared. */
    method PrepareQueue(queue: seq<Node>, env: Env) returns (ok: bool, f: nat)
      modifies this
      ensures s.flags == old(s).flags && f <= |queue| && (ok <==> f == |queue|)
      ensures forall k :: 0 <= k < f ==> PrepareResult(queue[k], env) >= 0
      ensures f < |queue| ==> PrepareResult(queue[f], env) < 0
      ensures s.calls == old(s).calls + Prepares(queue[..f], env) + if ok then [] else FailureCalls(queue[f], env)
    {
      f := 0;
      while f < |queue|
        invariant 0 <= f <= |queue| && s.flags == old(s).flags && s.calls == old(s).calls + Prepares(queue[..f], env)
        invariant forall k :: 0 <= k < f ==> PrepareResult(queue[k], env) >= 0
      {
        var ret := PrepareEntry(queue[f], env);
        if ret < 0 {
          return false, f;
        }
        assert queue[..f + 1][..f] == queue[..f];
        f := f + 1;
      }
      ok := true;
    }

    method AbortEntries(queue: seq<Node>, f: nat)
      requires f <= |queue|
      modifies this
      ensures s == old(s).(calls := old(s).calls + Aborts(queue[..f]))
    {
      for i := 0 to f
        invariant s == old(s).(calls := old(s).calls + Aborts(queue[..i]))
      {
        assert queue[..i + 1][..i] == queue[..i];
        s := s.(calls := s.calls + [Abort(queue[i])]);
      }
    }

    /** bdrv_reopen_commit for all entries, from the last to the first */
    method CommitEntries(queue: seq<Node>, flags: Node -> int)
      modifies this
      ensures s.calls == old(s).calls + Commits(queue) && Flagged(old(s).flags, s.flags, queue, flags)
    {
      var i := |queue|;
      assert queue[..i] == queue;
      while i > 0
        invariant 0 <= i <= |queue| && s.calls + Commits(queue[..i]) == old(s).calls + Commits(queue)
        invariant Flagged(old(s).flags, s.flags, queue[i..], flags)
      {
        i := i - 1;
        assert queue[..i + 1][..i] == queue[..i] && queue[i..] == [queue[i]] + queue[i + 1..];
        s := s.(calls := s.calls + [Commit(queue[i])], flags := s.flags[queue[i] := flags(queue[i])]);
      }
      assert queue[0..] == queue;
    }

    method FlushAll(queue: seq<Node>, env: Env) returns (ok: bool)
      ensures ok <==> forall n :: n in queue ==> env.flush(n)
    {
      for i := 0 to |queue|
        invariant forall k :: 0 <= k < i ==> env.flush(queue[k])
      {
        var n := queue[i];
        if !env.flush(n) {
          assert n in queue;
          return false;
        }
      }
      ok := true;
    }

    /** bdrv_reopen_multiple: all nodes get their new flags or none does, and the drivers see the calls
        that AllCalls lists, unless a node cannot be flushed. */
    method ReopenMultiple(queue: seq<Node>, env: Env, flags: Node -> int) returns (ok: bool, ghost f: nat)
      requires NoDup(queue)
      modifies this
      ensures f <= |queue| && PreparedUpTo(queue, env, f)
      ensures if exists n :: n in queue && !env.flush(n) then !ok && s == old(s)
        else s.calls == old(s).calls + AllCalls(queue, env, f) && (ok <==> f == |queue| && env.refresh)
      ensures if ok then Flagged(old(s).flags, s.flags, queue, flags) else s.flags == old(s).flags
    {
      ok := FlushAll(queue, env);
      if !ok {
        f := FirstFailure(queue, env);
        return;
      }
      ok, f := PrepareAndResolve(queue, env, flags);
    }

    /** bdrv_reopen_multiple from its second loop on */
    method PrepareAndResolve(queue: seq<Node>, env: Env, flags: Node -> int) returns (ok: bool, ghost f: nat)
      requires NoDup(queue)
      modifies this
      ensures f <= |queue| && PreparedUpTo(queue, env, f)
      ensures s.calls == old(s).calls + AllCalls(queue, env, f) && (ok <==> f == |queue| && env.refresh)
      ensures if ok then Flagged(old(s).flags, s.flags, queue, flags) else s.flags == old(s).flags
    {
      var prepared;
      ok, prepared := PrepareQueue(queue, env);
      f := prepared;
      ghost var calls := s.calls;
      if ok && env.refresh {
        CommitEntries(queue, flags);
      } else {
        ok := false;
        AbortEntries(queue, prepared);
      }
      TheseAreAllCalls(old(s).calls, calls, s.calls, queue, env, f);
    }
  }

  /** The first f entries are accepted, and the next one, if any, is not. */
  ghost predicate PreparedUpTo(queue: seq<Node>, env: Env, f: nat)
    requires f <= |queue|
  {
    && (forall k :: 0 <= k < f ==> PrepareResult(queue[k], env) >= 0)
    && (f < |queue| ==> PrepareResult(queue[f], env) < 0)
  }

  lemma TheseAreAllCalls(c0: seq<Call>, c1: seq<Call>, c2: seq<Call>, queue: seq<Node>, env: Env, f: nat)
    requires f <= |queue|
    requires c1 == c0 + Prepares(queue[..f], env) + if f == |queue| then [] else FailureCalls(queue[f], env)
    requires c2 == c1 + if f == |queue| && env.refresh then Commits(queue) else Aborts(queue[..f])
    ensures c2 == c0 + AllCalls(queue, env, f)
  {
    assert queue[..|queue|] == queue;
    var p := Prepares(queue[..f], env);
    var x := if f == |queue| then [] else FailureCalls(queue[f], env);
    var y := if f == |queue| && env.refresh then Commits(queue) else Aborts(queue[..f]);
    Regroup(c0, p, x, y);
    assert p + [] == p;
  }

  lemma Regroup(a: seq<Call>, b: seq<Call>, c: seq<Call>, d: seq<Call>)
    ensures a + b + c + d == a + (b + c + d)
  {
  }

  lemma FirstFailure(queue: seq<Node>, env: Env) returns (f: nat)
    ensures f <= |queue| && PreparedUpTo(queue, env, f)
  {
    f := 0;
    while f < |queue| && PrepareResult(queue[f], env) >= 0
      invariant 0 <= f <= |queue| && forall k :: 0 <= k < f ==> PrepareResult(queue[k], env) >= 0
    {
      f := f + 1;
    }
  }

  /** The nodes of the queue, and no others, have their new flags. */
  ghost predicate Flagged(flags: map<Node, int>, flags': map<Node, int>, queue: seq<Node>, target: Node -> int) {
    && flags'.Keys == flags.Keys + Elements(queue)
    && forall n :: n in flags' ==> if n in queue then flags'[n] == target(n) else n in flags && flags'[n] == flags[n]
  }

  // ------------------------------------------------------------------------------------------
  // Every prepared node is resolved exactly once

  /** Successful preparations of n are as many as its commits and aborts. */
  predicate Resolved(calls: seq<Call>, n: Node) {
    multiset(calls)[Prepare(n, 0)] == multiset(calls)[Commit(n)] + multiset(calls)[Abort(n)]
  }

  lemma {:induction false} CountPrepares(ns: seq<Node>, env: Env, n: Node)
    requires NoDup(ns)
    ensures multiset(Prepares(ns, env))[Prepare(n, 0)] == if n in ns && env.prepare(n) == 0 then 1 else 0
    ensures multiset(Prepares(ns, env))[Commit(n)] == 0 && multiset(Prepares(ns, env))[Abort(n)] == 0
  {
    if ns != [] {
      var front, m := ns[..|ns| - 1], ns[|ns| - 1];
      CountPrepares(front, env, n);
      assert ns == front + [m];
      assert m !in front;
    }
  }

  lemma {:induction false} CountAborts(ns: seq<Node>, n: Node)
    requires NoDup(ns)
    ensures multiset(Aborts(ns))[Abort(n)] == if n in ns then 1 else 0
    ensures multiset(Aborts(ns))[Prepare(n, 0)] == 0 && multiset(Aborts(ns))[Commit(n)] == 0
  {
    if ns != [] {
      var front, m := ns[..|ns| - 1], ns[|ns| - 1];
      CountAborts(front, n);
      assert ns == front + [m];
      assert m !in front;
    }
  }

  lemma {:induction false} CountCommits(ns: seq<Node>, n: Node)
    requires NoDup(ns)
    ensures multiset(Commits(ns))[Commit(n)] == if n in ns then 1 else 0
    ensures multiset(Commits(ns))[Prepare(n, 0)] == 0 && multiset(Commits(ns))[Abort(n)] == 0
  {
    if ns != [] {
      var front, m := ns[..|ns| - 1], ns[|ns| - 1];
      CountCommits(front, n);
      assert ns == front + [m];
      assert m !in front;
    }
  }

  /** Entry n has been accepted by bdrv_reopen_multiple although its driver's prepare returned a
      positive value. */
  predicate Accepted(queue: seq<Node>, env: Env, f: nat, n: Node)
    requires f <= |queue|
  {
    n in queue[..f] && env.prepare(n) > 0
  }

  /** An accepted entry was prepared with 0 or with a positive value. */
  lemma AcceptedResult(queue: seq<Node>, env: Env, f: nat, n: Node)
    requires f <= |queue| && PreparedUpTo(queue, env, f) && n in queue[..f]
    ensures env.prepare(n) >= 0
  {
    var k :| 0 <= k < f && queue[..f][k] == n;
    assert PrepareResult(queue[k], env) >= 0;
  }

  lemma ResolvedOnFailure(queue: seq<Node>, env: Env, f: nat, n: Node)
    requires NoDup(queue) && f < |queue| && PreparedUpTo(queue, env, f)
    ensures Resolved(AllCalls(queue, env, f), n) <==> !Accepted(queue, env, f, n)
    ensures multiset(AllCalls(queue, env, f))[Commit(n)] + multiset(AllCalls(queue, env, f))[Abort(n)] <= 1
  {
    var done, m := queue[..f], queue[f];
    FrontOf(queue, f);
    CountPrepares(done, env, n);
    CountAborts(done, n);
    CountFailure(m, env, n);
    AddCounts(Prepares(done, env), FailureCalls(m, env), Aborts(done), n);
    if n in done { AcceptedResult(queue, env, f, n); }
  }

  lemma FrontOf(queue: seq<Node>, f: nat)
    requires NoDup(queue) && f < |queue|
    ensures NoDup(queue[..f]) && queue[f] !in queue[..f]
  {
  }

  lemma ResolvedAtEnd(queue: seq<Node>, env: Env, n: Node)
    requires NoDup(queue) && PreparedUpTo(queue, env, |queue|)
    ensures Resolved(AllCalls(queue, env, |queue|), n) <==> !Accepted(queue, env, |queue|, n)
    ensures multiset(AllCalls(queue, env, |queue|))[Commit(n)] + multiset(AllCalls(queue, env, |queue|))[Abort(n)] <= 1
  {
    assert queue[..|queue|] == queue;
    CountPrepares(queue, env, n);
    if n in queue { AcceptedResult(queue, env, |queue|, n); }
    if env.refresh {
      CountCommits(queue, n);
      AddTwo(Prepares(queue, env), Commits(queue), n);
    } else {
      CountAborts(queue, n);
      AddTwo(Prepares(queue, env), Aborts(queue), n);
    }
  }

  /** For any outcome and any failure point, a node whose driver prepared successfully gets exactly one
      commit or one abort, and other nodes get none, if and only if its driver did not return a
      positive value: that is taken for success. */
  lemma ResolvedIff(queue: seq<Node>, env: Env, f: nat, n: Node)
    requires NoDup(queue) && f <= |queue| && PreparedUpTo(queue, env, f)
    ensures Resolved(AllCalls(queue, env, f), n) <==> !Accepted(queue, env, f, n)
    ensures multiset(AllCalls(queue, env, f))[Commit(n)] + multiset(AllCalls(queue, env, f))[Abort(n)] <= 1
  {
    if f < |queue| {
      ResolvedOnFailure(queue, env, f, n);
    } else {
      ResolvedAtEnd(queue, env, n);
    }
  }

  lemma AddTwo(a: seq<Call>, b: seq<Call>, n: Node)
    ensures var all := multiset(a + b);
      && all[Prepare(n, 0)] == multiset(a)[Prepare(n, 0)] + multiset(b)[Prepare(n, 0)]
      && all[Commit(n)] == multiset(a)[Commit(n)] + multiset(b)[Commit(n)]
      && all[Abort(n)] == multiset(a)[Abort(n)] + multiset(b)[Abort(n)]
  {
  }

  lemma AddCounts(a: seq<Call>, b: seq<Call>, c: seq<Call>, n: Node)
    ensures var all := multiset(a + b + c);
      && all[Prepare(n, 0)] == multiset(a)[Prepare(n, 0)] + multiset(b)[Prepare(n, 0)] + multiset(c)[Prepare(n, 0)]
      && all[Commit(n)] == multiset(a)[Commit(n)] + multiset(b)[Commit(n)] + multiset(c)[Commit(n)]
      && all[Abort(n)] == multiset(a)[Abort(n)] + multiset(b)[Abort(n)] + multiset(c)[Abort(n)]
  {
  }

  lemma CountFailure(m: Node, env: Env, n: Node)
    ensures var c := multiset(FailureCalls(m, env));
      c[Prepare(n, 0)] == c[Abort(n)] && c[Commit(n)] == 0 && (n != m ==> c[Abort(n)] == 0) && c[Abort(n)] <= 1
  {
  }

  /** A single node whose driver fails with a positive code: it is committed without being prepared. */
  lemma PositiveCodeIsCommitted(env: Env)
    requires env.before(7) && env.prepare(7) == 1 && env.refresh
    ensures PrepareResult(7, env) >= 0 && AllCalls([7], env, 1) == [Prepare(7, 1), Commit(7)]
  {
    assert ([7])[..0] == [] && Prepares([], env) == [];
  }
}

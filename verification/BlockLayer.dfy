/** The block layer's graph operations: permission refresh, transactional edits of the graph and
    their commit and abort, updated in place. */
module BlockLayer {

  import opened Digraph
  import opened BlockGraph
  import opened BlockTraversal
  import opened BlockPerms
  import opened BlockRefresh
  import opened BlockUndo
  import opened BlockState
  import opened BlockEdits
  import opened BlockInherits
  import BlockRelinks

  class BlockLayer {
    const kind: Node -> DriverKind
    const isFilter: Node -> bool
    var g: Graph
    var inherits: map<Node, Option<Node>>
    var refcnt: map<Node, int>
    var scheduled: multiset<Node>      // bdrv_schedule_unref bottom halves that have not run
    var deleted: set<Node>             // bdrv_delete has been called
    var log: seq<Undo>                 // the open Transaction
    var nextEdge: Edge
    ghost var owned: multiset<Node>    // references held by code outside the graph

    ghost function State(): Layer
      reads this
    {
      Layer(g, inherits, refcnt, scheduled, deleted, log, nextEdge, owned)
    }

    ghost predicate Valid()
      reads this
    {
      ValidLayer(kind, State())
    }

    /** No nodes yet. */
    constructor (kind: Node -> DriverKind, isFilter: Node -> bool)
      ensures Idle() && g.nodes == map[] && this.kind == kind && this.isFilter == isFilter && owned == multiset{}
    {
      this.kind, this.isFilter := kind, isFilter;
      g, inherits, refcnt := Graph(map[], map[]), map[], map[];
      scheduled, deleted, log, nextEdge, owned := multiset{}, {}, [], 0, multiset{};
    }

    /** bdrv_new: the caller owns the only reference. */
    method NewNode(n: Node)
      requires Idle() && n !in g.nodes && n !in scheduled && n !in owned && n !in deleted
      modifies this`g, this`inherits, this`refcnt, this`owned
      ensures Idle() && g.edges == old(g.edges) && g.nodes.Keys == old(g.nodes.Keys) + {n}
      ensures owned == old(owned) + multiset{n}
    {
      NewNodeKeepsValid(kind, State(), n);
      g := Graph(g.edges, g.nodes[n := Bds([], [], None, None)]);
      inherits, refcnt, owned := inherits[n := None], refcnt[n := 1], owned + multiset{n};
    }

    /** No transaction is open. */
    ghost predicate Idle()
      reads this
    {
      Valid() && log == [] && Sound(g.edges)
    }

    /** The edges and inherits_from pointers that aborting the open transaction leads back to. */
    ghost function Base(): View
      reads this
    {
      BaseOf(State())
    }

    /** The edges that committing the open transaction frees. */
    ghost function Doomed(): set<Edge>
      reads this
    {
      Removed(log)
    }

    // ----------------------------------------------------------------------------------------
    // Permissions

    method GetCumulativePerm(bs: Node) returns (perm: Mask, shared: Mask)
      requires Wf(g) && bs in g.nodes
      ensures perm == CumPerm(g.edges, g.nodes[bs].parents) && shared == CumShared(g.edges, g.nodes[bs].parents)
    {
      var ps := g.nodes[bs].parents;
      perm, shared := {}, PERM_ALL;
      for i := 0 to |ps|
        invariant perm == CumPerm(g.edges, ps[..i]) && shared == CumShared(g.edges, ps[..i])
      {
        assert NodeOk(g.edges, g.nodes[bs], bs) && ps[i] in ps;
        assert ps[..i + 1][..|ps[..i + 1]| - 1] == ps[..i];
        perm := perm + g.edges[ps[i]].perm;
        shared := shared * g.edges[ps[i]].shared;
      }
      assert ps[..|ps|] == ps;
    }

    method ParentPermsConflict(bs: Node) returns (conflict: bool)
      requires Wf(g) && bs in g.nodes
      ensures conflict <==> !Compatible(g.edges, bs)
    {
      var ps := g.nodes[bs].parents;
      assert NodeOk(g.edges, g.nodes[bs], bs);
      for i := 0 to |ps|
        invariant forall k :: 0 <= k < i ==> Tolerates(g.edges, ps, k, |ps|)
      {
        assert ps[i] in ps && PointsTo(g.edges, ps[i], bs);
        for j := 0 to |ps|
          invariant Tolerates(g.edges, ps, i, j)
        {
          assert ps[j] in ps && PointsTo(g.edges, ps[j], bs);
          if ps[i] != ps[j] {
            if !(g.edges[ps[j]].perm <= g.edges[ps[i]].shared) {
              return true;
            }
          }
        }
      }
      AllTolerate(g, bs);
      return false;
    }

    method ChildSetPerm(e: Edge, perm: Mask, shared: Mask)
      requires Valid() && e in g.edges
      modifies this`g, this`log
      ensures Valid() && Base() == old(Base()) && Doomed() == old(Doomed())
      ensures log == old(log) + [SetPerm(e, old(g.edges[e].perm), old(g.edges[e].shared))]
      ensures g == old(g).(edges := old(g.edges)[e := old(g.edges[e]).(perm := perm, shared := shared)])
    {
      var u := SetPerm(e, g.edges[e].perm, g.edges[e].shared);
      ghost var s := State();
      g := SetMasks(g, e, perm, shared);
      log := log + [u];
      SetMasksKeepsValid(kind, s, e, perm, shared);
    }

    /** bdrv_drv_set_perm of a node with a driver */
    method DrvSetPerm(d: Drivers, bs: Node, perm: Mask, shared: Mask) returns (ok: bool)
      requires Valid()
      modifies this`log
      ensures Valid() && Base() == old(Base()) && Doomed() == old(Doomed()) && ok == d.checkPerm(bs, perm, shared)
      ensures log == if ok then old(log) + [Undo.DrvSetPerm(bs)] else old(log)
    {
      ok := d.checkPerm(bs, perm, shared);
      if ok {
        LogOne(View(g.edges, inherits), View(g.edges, inherits), log, Undo.DrvSetPerm(bs));
        HeldOne(log, Undo.DrvSetPerm(bs));
        log := log + [Undo.DrvSetPerm(bs)];
      }
    }

    /** Checks bs against its cumulative permissions and passes them on to its children. */
    method NodeRefreshPerm(d: Drivers, bs: Node) returns (ok: bool)
      requires Valid() && bs in g.nodes && Acyclic(ArcsOf(g.edges)) && Compatible(g.edges, bs)
      modifies this`g, this`log
      ensures Valid() && Base() == old(Base()) && Doomed() == old(Doomed()) && g == old(g).(edges := g.edges)
      ensures MasksOnly(old(g.edges), g.edges, Inner(kind, {bs}))
      ensures ok <==> Acceptable(d, kind, old(g), bs)
      ensures ok ==> Settled(d, kind, g, bs)
    {
      var perm, shared := GetCumulativePerm(bs);
      if perm * {Write, WriteUnchanged} != {} && !d.writable(bs) {
        return false;
      }
      if perm * {Write, WriteUnchanged} != {} && Resize !in perm {
        if !d.sizeAligned(bs) {
          return false;
        }
      }
      if kind(bs) == NoDriver {
        return true;
      }
      ok := DriverRefreshPerm(d, bs, perm, shared);
      if ok { PassedOnSettles(d, kind, old(g), g, bs); }
    }

    /** The part of bdrv_node_refresh_perm that needs a driver. */
    method DriverRefreshPerm(d: Drivers, bs: Node, perm: Mask, shared: Mask) returns (ok: bool)
      requires Valid() && bs in g.nodes && kind(bs) != NoDriver
      modifies this`g, this`log
      ensures Valid() && Base() == old(Base()) && Doomed() == old(Doomed()) && g == old(g).(edges := g.edges)
      ensures MasksOnly(old(g.edges), g.edges, Inner(kind, {bs}))
      ensures ok <==> d.checkPerm(bs, perm, shared)
      ensures ok ==> PassedOn(d, g.edges, bs, perm, shared)
    {
      if kind(bs) == LeafDriver { NoLeafChildren(g, kind, nextEdge, bs); }
      ok := DrvSetPerm(d, bs, perm, shared);
      if !ok {
        return;
      }
      if kind(bs) == LeafDriver {
        assert g.nodes[bs].children == [];
        assert NodeOk(g.edges, g.nodes[bs], bs);
        return;
      }
      assert Inner(kind, {bs}) == {bs};
      PassOn(d, bs, perm, shared);
    }

    /** The loop over bs->children at the end of bdrv_node_refresh_perm. */
    method PassOn(d: Drivers, bs: Node, perm: Mask, shared: Mask)
      requires Valid() && bs in g.nodes
      modifies this`g, this`log
      ensures Valid() && Base() == old(Base()) && Doomed() == old(Doomed()) && g == old(g).(edges := g.edges)
      ensures MasksOnly(old(g.edges), g.edges, {bs})
      ensures PassedOn(d, g.edges, bs, perm, shared)
    {
      var cs := g.nodes[bs].children;
      ghost var edges0 := g.edges;
      ChildListOk(g, bs);
      for i := 0 to |cs|
        invariant Valid() && Base() == old(Base()) && Doomed() == old(Doomed()) && g == old(g).(edges := g.edges)
        invariant Passing(d, edges0, g.edges, bs, cs, i, perm, shared)
      {
        var e := cs[i];
        var (p, s) := ChildPerm(d, bs, Some(e), g.edges[e].role, g.edges[e].bs, perm, shared);
        ghost var edges1 := g.edges;
        ChildSetPerm(e, p, s);
        PassingStep(d, edges0, edges1, g.edges, bs, cs, i, perm, shared);
      }
      PassingDone(d, edges0, g.edges, bs, cs, perm, shared);
    }

    /** One turn of the loop in bdrv_do_refresh_perms. */
    method RefreshNext(d: Drivers, list: seq<Node>, i: nat, ghost g0: Graph) returns (ok: bool)
      requires i < |list| && Valid() && Wf(g0) && Acyclic(ArcsOf(g0.edges)) && Topological(ArcsOf(g0.edges), list)
      requires Elements(list) <= g0.nodes.Keys
      requires Passed(d, kind, g0, g, list, i)
      modifies this`g, this`log
      ensures Valid() && Base() == old(Base()) && Doomed() == old(Doomed()) && g == g0.(edges := g.edges)
      ensures MasksOnly(g0.edges, g.edges, Inner(kind, Elements(list)))
      ensures if ok then Passed(d, kind, g0, g, list, i + 1) else !Solvable(d, kind, g0, Elements(list))
    {
      var bs := list[i];
      assert bs in Elements(list);
      ElementsPrefix(list, i);
      MasksOnlyArcs(g0.edges, g.edges, Inner(kind, Elements(list[..i])));
      MasksOnlyMore(g0.edges, g.edges, Inner(kind, Elements(list[..i])), Inner(kind, Elements(list)));
      var conflict := ParentPermsConflict(bs);
      if conflict {
        StuckIsUnsolvable(d, kind, g0, g, list, i);
        return false;
      }
      ok := NodeRefreshPerm(d, bs);
      MasksOnlyTrans(g0.edges, old(g.edges), g.edges, Inner(kind, Elements(list)), Inner(kind, {bs}));
      MasksOnlyMore(g0.edges, g.edges, Inner(kind, Elements(list)) + Inner(kind, {bs}), Inner(kind, Elements(list)));
      if ok {
        PassedNext(d, kind, g0, old(g), g, list, i);
      } else {
        StuckIsUnsolvable(d, kind, g0, old(g), list, i);
      }
    }

    /** The pass over a topologically sorted list: it succeeds exactly if the masks below can be
        assigned so that every listed node is settled, and then they are. */
    method DoRefreshPerms(d: Drivers, list: seq<Node>) returns (ok: bool)
      requires Valid() && Acyclic(ArcsOf(g.edges))
      requires Topological(ArcsOf(g.edges), list) && Elements(list) <= g.nodes.Keys
      modifies this`g, this`log
      ensures Valid() && Base() == old(Base()) && Doomed() == old(Doomed()) && g == old(g).(edges := g.edges)
      ensures MasksOnly(old(g.edges), g.edges, Inner(kind, Elements(list)))
      ensures ok <==> Solvable(d, kind, old(g), Elements(list))
      ensures ok ==> Solves(d, kind, old(g), g.edges, Elements(list))
    {
      ghost var g0 := g;
      for i := 0 to |list|
        invariant Valid() && Base() == old(Base()) && Doomed() == old(Doomed()) && g == old(g).(edges := g.edges)
        invariant MasksOnly(g0.edges, g.edges, Inner(kind, Elements(list))) && Passed(d, kind, g0, g, list, i)
      {
        ok := RefreshNext(d, list, i, g0);
        if !ok {
          return;
        }
      }
      assert list[..|list|] == list;
      ok := true;
    }

    /** bdrv_list_refresh_perms: the subtrees of all given nodes, each node once. */
    method ListRefreshPerms(d: Drivers, nodes: seq<Node>) returns (ok: bool)
      requires Valid() && Acyclic(ArcsOf(g.edges)) && forall n :: n in nodes ==> n in g.nodes
      modifies this`g, this`log
      ensures Valid() && Base() == old(Base()) && Doomed() == old(Doomed()) && g == old(g).(edges := g.edges)
      ensures ok <==> Solvable(d, kind, old(g), Subtrees(old(g), nodes))
      ensures ok ==> Refreshed(d, kind, old(g), g, nodes)
    {
      var list := CollectSubtrees(g, nodes);
      ok := DoRefreshPerms(d, list);
    }

    // ----------------------------------------------------------------------------------------
    // References

    /** bdrv_unref: the last reference deletes the node. */
    method Unref(bs: Node)
      requires bs in refcnt && refcnt[bs] > 0
      modifies this`refcnt, this`deleted
      ensures refcnt == old(refcnt)[bs := old(refcnt)[bs] - 1]
      ensures deleted == if refcnt[bs] == 0 then old(deleted) + {bs} else old(deleted)
    {
      refcnt := refcnt[bs := refcnt[bs] - 1];
      if refcnt[bs] == 0 {
        deleted := deleted + {bs};
      }
    }

    // ----------------------------------------------------------------------------------------
    // Transactional primitives: each change is logged with its inverse

    method ReplaceChildTran(e: Edge, target: Option<Node>)
      requires Valid() && e in g.edges && !g.edges[e].frozen && g.edges[e].bs.Some? && g.edges[e].bs != target
      requires target.Some? ==> target.value in g.nodes && target.value !in deleted
      modifies this`g, this`log, this`refcnt
      ensures Valid() && Base() == old(Base()) && Doomed() == old(Doomed()) && g.nodes.Keys == old(g.nodes.Keys)
      ensures g.edges == old(g.edges)[e := old(g.edges[e]).(bs := target)]
      ensures log == old(log) + [ReplaceChild(e, old(g.edges[e].bs.value))]
    {
      assert EdgeOk(g, e);
      ghost var s := State();
      log := log + [ReplaceChild(e, g.edges[e].bs.value)];
      TrackedAt(g, inherits, refcnt, target);
      refcnt := Refd(refcnt, target);
      g := ReplaceChildNoperm(g, e, target);
      ReplaceKeepsValid(kind, s, e, target, g, refcnt);
    }

    /** bdrv_attach_child_common.  `ctxOk` is whether the AioContexts match or could be made to. */
    method AttachChildCommon(c: Child, bs: Node, ctxOk: bool) returns (e: Option<Edge>)
      requires Valid() && c.bs.None? && !c.frozen && bs in g.nodes && bs !in deleted
      requires c.owner.OfNode? ==> c.owner.node in g.nodes && kind(c.owner.node) != LeafDriver && OwnerSlotFree(g, c)
      modifies this`g, this`log, this`refcnt, this`nextEdge
      ensures Valid() && Base() == old(Base()) && Doomed() == old(Doomed()) && g.nodes.Keys == old(g.nodes.Keys)
      ensures e.Some? == ctxOk
      ensures e.None? ==> State() == old(State())
      ensures e.Some? ==>
        && e.value == old(nextEdge) && nextEdge == old(nextEdge) + 1 && e.value !in old(g.edges)
        && g.edges == old(g.edges)[e.value := c.(bs := Some(bs))]
    {
      if !ctxOk {
        return None;
      }
      ghost var s := State();
      var x := nextEdge;
      assert x in g.edges ==> EdgeKnown(kind, g.edges, x, nextEdge);
      nextEdge := nextEdge + 1;
      refcnt := Refd(refcnt, Some(bs));
      g := AllocChild(g, x, c, bs);
      log := log + [Undo.AttachChild(x)];
      AttachKeepsValid(kind, s, x, c, bs, g, refcnt);
      return Some(x);
    }

    /** bdrv_remove_child of a filled edge: it stays allocated until commit. */
    method RemoveChild(e: Edge)
      requires Valid() && e in g.edges && !g.edges[e].frozen && g.edges[e].bs.Some?
      modifies this`g, this`log, this`refcnt
      ensures Valid() && Base() == old(Base()) && Doomed() == old(Doomed()) + {e} && g.nodes.Keys == old(g.nodes.Keys)
      ensures g.edges == old(g.edges)[e := old(g.edges[e]).(bs := None)]
    {
      ghost var s := State();
      ReplaceChildTran(e, None);
      RemoveKeepsValid(kind, s, State(), e);
      log := log + [Undo.RemoveChild(e)];
    }

    /** bdrv_set_inherits_from */
    method SetInheritsFrom(n: Node, from: Option<Node>)
      requires Valid() && n in g.nodes
      modifies this`inherits, this`log
      ensures Valid() && Base() == old(Base()) && Doomed() == old(Doomed()) && inherits == old(inherits)[n := from]
    {
      var u := SetInherits(n, inherits[n]);
      ghost var v := View(g.edges, inherits);
      log := log + [u];
      inherits := inherits[n := from];
      assert UndoOne(View(g.edges, inherits), u).inherits == v.inherits;
      LogOne(v, View(g.edges, inherits), old(log), u);
      HeldOne(old(log), u);
    }

    /** The first half of bdrv_unset_inherits_from: the target of c itself. */
    method UnsetOwn(root: Node, c: Edge) returns (ghost gone: set<Node>)
      requires Valid() && root in g.nodes && EdgeOk(g, c) && g.edges[c].bs.Some?
      modifies this`inherits, this`log
      ensures Valid() && Base() == old(Base()) && Doomed() == old(Doomed())
      ensures Cleared(old(inherits), inherits, root, gone)
      ensures forall n :: n in gone <==> n in g.nodes && LastLink(g.edges, root, c, n)
    {
      var bs := g.edges[c].bs.value;
      gone := if LastLink(g.edges, root, c, bs) then {bs} else {};
      if inherits[bs] == Some(root) {
        var other := OtherLink(g, root, c, bs);
        if !other {
          SetInheritsFrom(bs, None);
        }
      }
    }

    /** bdrv_unset_inherits_from */
    method UnsetInheritsFrom(root: Node, c: Edge)
      requires Valid() && Acyclic(ArcsOf(g.edges)) && root in g.nodes && EdgeOk(g, c) && g.edges[c].bs.Some?
      modifies this`inherits, this`log
      ensures Valid() && Base() == old(Base()) && Doomed() == old(Doomed())
      ensures Cleared(old(inherits), inherits, root, Orphans(g, root, c))
      decreases Below(ArcsOf(g.edges), g.nodes.Keys, g.edges[c].bs.value)
    {
      ghost var gone := UnsetOwn(root, c);
      var bs := g.edges[c].bs.value;
      var cs := g.nodes[bs].children;
      for i := 0 to |cs|
        invariant Valid() && Base() == old(Base()) && Doomed() == old(Doomed())
        invariant Cleared(old(inherits), inherits, root, gone)
        invariant GoneSoFar(g, root, c, cs, i, gone)
      {
        ChildTarget(g, bs, i);
        BelowShrinks(ArcsOf(g.edges), g.nodes.Keys, bs, g.edges[cs[i]].bs.value);
        ghost var before := inherits;
        UnsetInheritsFrom(root, cs[i]);
        ClearedTwice(old(inherits), before, inherits, root, gone, Orphans(g, root, cs[i]));
        GoneStep(g, root, c, cs, i, gone);
        gone := gone + Orphans(g, root, cs[i]);
      }
      GoneDone(g, root, c, cs, gone);
    }

    // ----------------------------------------------------------------------------------------
    // tran_abort and tran_commit

    /** The .abort callback of the newest action. */
    method UndoNewest()
      requires Valid() && log != []
      modifies this`g, this`inherits, this`refcnt, this`scheduled, this`deleted, this`log
      ensures Valid() && Base() == old(Base()) && g.nodes.Keys == old(g.nodes.Keys) && log == old(log[..|log| - 1])
    {
      var u := log[|log| - 1];
      if u.SetPerm? {
        UndoMasksKeepsValid(kind, State());
        g := SetMasks(g, u.e, u.perm, u.shared);
        log := log[..|log| - 1];
      } else if u.ReplaceChild? {
        UndoReplace(u.e, u.was);
      } else if u.AttachChild? {
        UndoAttach(u.e);
      } else {
        UndoOtherKeepsValid(kind, State());
        if u.SetInherits? {
          inherits := inherits[u.n := u.from];
        }
        log := log[..|log| - 1];
      }
    }

    /** bdrv_replace_child_abort */
    method UndoReplace(e: Edge, was: Node)
      requires Valid() && log != [] && log[|log| - 1] == ReplaceChild(e, was)
      modifies this`g, this`refcnt, this`deleted, this`log
      ensures Valid() && Base() == old(Base()) && g.nodes.Keys == old(g.nodes.Keys) && log == old(log[..|log| - 1])
    {
      ghost var s := State();
      UndoReplaceReady(kind, s, e, was);
      var newBs := g.edges[e].bs;
      g := ReplaceChildNoperm(g, e, Some(was));
      if newBs.Some? {
        Unref(newBs.value);
      }
      log := log[..|log| - 1];
      UndoReplaceKeepsValid(kind, s, e, was, g, refcnt, deleted);
    }

    /** bdrv_attach_child_common_abort */
    method UndoAttach(e: Edge)
      requires Valid() && log != [] && log[|log| - 1] == Undo.AttachChild(e)
      modifies this`g, this`scheduled, this`log
      ensures Valid() && Base() == old(Base()) && g.nodes.Keys == old(g.nodes.Keys) && log == old(log[..|log| - 1])
    {
      ghost var s := State();
      PopLog(View(g.edges, inherits), log);
      assert EdgeOk(g, e);
      var bs := g.edges[e].bs.value;
      var g1 := ReplaceChildNoperm(g, e, None);
      scheduled := scheduled + multiset{bs};
      g := FreeEdge(g1, e);
      log := log[..|log| - 1];
      UndoAttachKeepsValid(kind, s, e, g1, g);
    }

    /** tran_abort: everything is as it was when the transaction began. */
    method TranAbort()
      requires Valid()
      modifies this`g, this`inherits, this`refcnt, this`scheduled, this`deleted, this`log
      ensures Valid() && log == [] && View(g.edges, inherits) == old(Base()) && g.nodes.Keys == old(g.nodes.Keys)
    {
      while log != []
        invariant Valid() && Base() == old(Base()) && g.nodes.Keys == old(g.nodes.Keys)
        decreases |log|
      {
        UndoNewest();
      }
    }

    /** The .commit callback of the newest action. */
    method CommitNewest()
      requires Committing(kind, State()) && log != []
      modifies this`g, this`scheduled, this`log
      ensures Committing(kind, State()) && log == old(log[..|log| - 1]) && g.nodes == old(g.nodes)
      ensures g.edges == old(g.edges) - (Removed(old(log)) - Removed(log))
      ensures scheduled + Held(log) == old(scheduled + Held(log))
    {
      ghost var s := State();
      var u := log[|log| - 1];
      if u.ReplaceChild? {
        scheduled := scheduled + multiset{u.was};
      } else if u.RemoveChild? {
        g := FreeEdge(g, u.e);
      }
      log := log[..|log| - 1];
      CommitKeeps(kind, s, g);
    }

    /** tran_commit: removed edges are freed, and the references the log held are scheduled to be
        dropped. */
    method TranCommit()
      requires Valid()
      modifies this`g, this`scheduled, this`log
      ensures Valid() && log == [] && g.nodes == old(g.nodes) && g.edges == old(g.edges) - Removed(old(log))
      ensures scheduled == old(scheduled) + Held(old(log))
    {
      CommitReady(kind, State());
      while log != []
        invariant Committing(kind, State()) && g.nodes == old(g.nodes)
        invariant Removed(log) <= Removed(old(log)) && g.edges == old(g.edges) - (Removed(old(log)) - Removed(log))
        invariant scheduled + Held(log) == old(scheduled + Held(log))
        decreases |log|
      {
        CommitNewest();
      }
    }

    /** tran_finalize */
    method TranFinalize(ok: bool)
      requires Valid()
      modifies this`g, this`inherits, this`refcnt, this`scheduled, this`deleted, this`log
      ensures Valid() && log == [] && g.nodes.Keys == old(g.nodes.Keys)
      ensures !ok ==> View(g.edges, inherits) == old(Base())
      ensures ok ==> g.nodes == old(g.nodes) && g.edges == old(g.edges) - old(Doomed()) && inherits == old(inherits)
      ensures ok ==> refcnt == old(refcnt) && deleted == old(deleted)
      ensures ok ==> forall e :: e in old(Doomed()) ==> e in old(g.edges) && old(g.edges)[e].bs.None?
    {
      if ok {
        CommitReady(kind, State());
        TranCommit();
      } else {
        TranAbort();
      }
    }

    /** bdrv_list_refresh_perms and tran_finalize, which every operation ends with. */
    method RefreshAndFinalize(d: Drivers, nodes: seq<Node>, ghost edges0: map<Edge, Child>) returns (ok: bool)
      requires Valid() && EditReady(edges0, g, nodes, Doomed()) && forall n :: n in nodes ==> n in g.nodes
      modifies this`g, this`inherits, this`refcnt, this`scheduled, this`deleted, this`log
      ensures Valid() && log == [] && g.nodes.Keys == old(g.nodes.Keys)
      ensures !ok ==> View(g.edges, inherits) == old(Base())
      ensures ok <==> Satisfiable(d, kind, old(g.edges), old(g.nodes.Keys), nodes)
      ensures
        ok ==> Sound(g.edges) && EditDone(d, kind, old(g.edges) - old(Doomed()), g, nodes) && inherits == old(inherits)
    {
      SatisfiableIff(d, kind, g, nodes);
      ok := ListRefreshPerms(d, nodes);
      ghost var g1 := g;
      TranFinalize(ok);
      if ok {
        EditSucceeds(d, kind, edges0, old(g), g1, g, nodes, old(Doomed()));
      }
    }

    // ----------------------------------------------------------------------------------------
    // The operations

    /** bdrv_child_try_set_perm.  Success means that the masks are in place and everything below is
        settled, or that only a loosening was asked for and nothing has changed. */
    method ChildTrySetPerm(d: Drivers, e: Edge, perm: Mask, shared: Mask) returns (ok: bool)
      requires Idle() && e in g.edges
      modifies this`g, this`inherits, this`refcnt, this`scheduled, this`deleted, this`log
      ensures Idle() && inherits == old(inherits)
      ensures ok ==>
        || Installed(d, kind, old(g), g, e, perm, shared)
        || (SameGraph(g, old(g)) && Loosening(old(g.edges[e]), perm, shared))
      ensures !ok ==> SameGraph(g, old(g)) && !Loosening(old(g.edges[e]), perm, shared)
      ensures ok <==>
        || Loosening(old(g.edges[e]), perm, shared)
        || Satisfiable(d, kind, old(g.edges)[e := old(g.edges[e]).(perm := perm, shared := shared)], old(g.nodes.Keys),
             [old(g.edges[e]).bs.value])
    {
      var bs := g.edges[e].bs.value;
      ChildSetPerm(e, perm, shared);
      ghost var g1 := g;
      MasksReady(old(g), g1, e);
      ok := RefreshAndFinalize(d, [bs], old(g.edges));
      if ok {
        MasksInstalled(d, kind, old(g), g1, g, e);
      } else {
        SameEdgesSameGraph(g, old(g));
        if perm <= g.edges[e].perm && g.edges[e].shared <= shared {
          ok := true;
        }
      }
    }

    /** bdrv_schedule_unref of a reference that the caller gives up. */
    method ScheduleUnref(n: Node)
      requires Valid() && owned[n] > 0
      modifies this`scheduled, this`owned
      ensures Valid() && scheduled == old(scheduled) + multiset{n} && owned == old(owned) - multiset{n}
    {
      ghost var s := State();
      scheduled := scheduled + multiset{n};
      owned := owned - multiset{n};
      ReleaseKeepsValid(kind, s, n);
    }

    /** bdrv_schedule_unref_bh.  The node is deleted with its last reference, and only then. */
    method UnrefBottomHalf(n: Node)
      requires Valid() && n in g.nodes && scheduled[n] > 0
      modifies this`scheduled, this`refcnt, this`deleted
      ensures Valid() && scheduled == old(scheduled) - multiset{n} && n in refcnt
      ensures refcnt[n] == old(refcnt)[n] - 1 && (refcnt[n] == 0 <==> n in deleted)
      ensures refcnt[n] != 0 ==> deleted == old(deleted)
      ensures n in deleted ==> forall e :: !PointsTo(g.edges, e, n)
      ensures forall m :: m in deleted && m != n ==> m in old(deleted)
    {
      ghost var s := State();
      assert refcnt[n] == ParentCount(g, n) + Held(log)[n] + scheduled[n] + owned[n];
      scheduled := scheduled - multiset{n};
      Unref(n);
      DropKeepsValid(kind, s, n, refcnt, deleted);
      if n in deleted { DeletedIsUnreferenced(kind, State(), n); }
    }

    /** bdrv_attach_child_noperm refuses an edge exactly when it would close a cycle (or when the
        AioContexts cannot be brought together). */
    method AttachChildNoperm(d: Drivers, parent: Node, child: Node, slot: Slot, role: nat, ctxOk: bool)
      returns (e: Option<Edge>)
      requires Valid() && Acyclic(ArcsOf(g.edges)) && parent in g.nodes && child in g.nodes && child !in deleted
      requires kind(parent) == InnerDriver && OwnerSlotFree(g, NewChild(OfNode(parent), slot, role, {}, {}))
      modifies this`g, this`log, this`refcnt, this`nextEdge
      ensures Valid() && Base() == old(Base()) && Doomed() == old(Doomed()) && g.nodes.Keys == old(g.nodes.Keys)
      ensures e.Some? <==> ctxOk && !Reaches(ArcsOf(old(g.edges)), child, parent)
      ensures e.None? ==> State() == old(State())
      ensures e.Some? ==> e.value == old(nextEdge) && nextEdge == old(nextEdge) + 1 && e.value !in old(g.edges)
      ensures e.Some? ==> g.edges == old(g.edges)[e.value := NewLink(d, old(g), parent, child, slot, role)]
    {
      var cycle := RecurseHasChild(g, child, parent);
      if cycle {
        return None;
      }
      var cumPerm, cumShared := GetCumulativePerm(parent);
      var (perm, shared) := ChildPerm(d, parent, None, role, Some(child), cumPerm, cumShared);
      e := AttachChildCommon(NewChild(OfNode(parent), slot, role, perm, shared), child, ctxOk);
    }

    /** The common end of the attaching operations: update permissions from `start`, then commit, or
        abort and return no edge.  g0 is the graph before the new edge e. */
    method FinishAttach(d: Drivers, e: Edge, start: Node, ghost g0: Graph) returns (r: Option<Edge>)
      requires Valid() && Wf(g0) && Sound(g0.edges) && Base() == View(g0.edges, inherits) && Doomed() == {}
      requires g.nodes.Keys == g0.nodes.Keys
      requires e !in g0.edges && e in g.edges && g.edges == g0.edges[e := g.edges[e]]
      requires EditReady(g0.edges, g, [start], {}) && start in g.nodes
      modifies this`g, this`inherits, this`refcnt, this`scheduled, this`deleted, this`log
      ensures Idle() && inherits == old(inherits)
      ensures r.None? ==> SameGraph(g, g0)
      ensures r.Some? <==> Satisfiable(d, kind, old(g.edges), old(g.nodes.Keys), [start])
      ensures r.Some? ==>
        r == Some(e) && AttachDone(d, kind, g0, g, e, old(g.edges[e]), start)
    {
      var ok := RefreshAndFinalize(d, [start], g0.edges);
      if ok {
        assert old(g.edges) - {} == old(g.edges);
        EditDoneOwn(d, kind, g0.edges, e, old(g.edges[e]), g, [start]);
        r := Some(e);
      } else {
        SameEdgesSameGraph(g, g0);
        r := None;
      }
    }

    /** bdrv_attach_child up to the end of its transaction. */
    method AttachChildTran(d: Drivers, parent: Node, child: Node, slot: Slot, role: nat, ctxOk: bool)
      returns (e: Option<Edge>)
      requires Idle() && parent in g.nodes && child in g.nodes && child !in deleted
      requires kind(parent) == InnerDriver && OwnerSlotFree(g, NewChild(OfNode(parent), slot, role, {}, {}))
      modifies this`g, this`inherits, this`refcnt, this`scheduled, this`deleted, this`log, this`nextEdge
      ensures Idle() && inherits == old(inherits)
      ensures e.None? ==> SameGraph(g, old(g))
      ensures e.Some? ==>
        AttachDone(d, kind, old(g), g, e.value, Child(OfNode(parent), slot, role, Some(child), {}, {}, false, false),
          parent)
      ensures e.Some? <==>
        && ctxOk && !Reaches(ArcsOf(old(g.edges)), child, parent)
        && Satisfiable(d, kind, old(g.edges)[old(nextEdge) := NewLink(d, old(g), parent, child, slot, role)],
             old(g.nodes.Keys), [parent])
    {
      e := AttachChildNoperm(d, parent, child, slot, role, ctxOk);
      if e.Some? {
        var x := e.value;
        AttachReady(old(g), g, x, g.edges[x], parent);
        e := FinishAttach(d, x, parent, old(g));
      } else {
        SameEdgesSameGraph(g, old(g));
      }
    }

    /** bdrv_attach_child: on failure nothing has changed, on success the graph has one more edge and
        is settled below the parent.  Either way the caller's reference to the child is used up. */
    method AttachChild(d: Drivers, parent: Node, child: Node, slot: Slot, role: nat, ctxOk: bool)
      returns (e: Option<Edge>)
      requires Idle() && parent in g.nodes && child in g.nodes && owned[child] > 0 && child !in deleted
      requires kind(parent) == InnerDriver && OwnerSlotFree(g, NewChild(OfNode(parent), slot, role, {}, {}))
      modifies this
      ensures Idle() && inherits == old(inherits) && owned == old(owned) - multiset{child}
      ensures e.None? ==> SameGraph(g, old(g))
      ensures e.Some? ==>
        AttachDone(d, kind, old(g), g, e.value, Child(OfNode(parent), slot, role, Some(child), {}, {}, false, false),
          parent)
      ensures e.Some? <==>
        && ctxOk && !Reaches(ArcsOf(old(g.edges)), child, parent)
        && Satisfiable(d, kind, old(g.edges)[old(nextEdge) := NewLink(d, old(g), parent, child, slot, role)],
             old(g.nodes.Keys), [parent])
    {
      e := AttachChildTran(d, parent, child, slot, role, ctxOk);
      ScheduleUnref(child);
    }

    /** bdrv_root_attach_child up to the end of its transaction. */
    method RootAttachChildTran(d: Drivers, child: Node, c: Child, ctxOk: bool) returns (e: Option<Edge>)
      requires Idle() && child in g.nodes && child !in deleted && c.owner == OfRoot && c.bs.None? && !c.frozen
      modifies this`g, this`inherits, this`refcnt, this`scheduled, this`deleted, this`log, this`nextEdge
      ensures Idle() && inherits == old(inherits)
      ensures e.None? ==> SameGraph(g, old(g))
      ensures e.Some? ==> AttachDone(d, kind, old(g), g, e.value, c.(bs := Some(child)), child)
      ensures e.Some? <==>
        && ctxOk
        && Satisfiable(d, kind, old(g.edges)[old(nextEdge) := c.(bs := Some(child))], old(g.nodes.Keys), [child])
    {
      e := AttachChildCommon(c, child, ctxOk);
      if e.Some? {
        var x := e.value;
        AttachReady(old(g), g, x, g.edges[x], child);
        e := FinishAttach(d, x, child, old(g));
      } else {
        SameEdgesSameGraph(g, old(g));
      }
    }

    /** bdrv_root_attach_child: the same for an edge that a BlockBackend or a job owns; it holds
        exactly the requested masks. */
    method RootAttachChild(d: Drivers, child: Node, role: nat, perm: Mask, shared: Mask, stayAtNode: bool, ctxOk: bool)
      returns (e: Option<Edge>)
      requires Idle() && child in g.nodes && owned[child] > 0 && child !in deleted
      modifies this
      ensures Idle() && inherits == old(inherits) && owned == old(owned) - multiset{child}
      ensures e.None? ==> SameGraph(g, old(g))
      ensures e.Some? ==>
        AttachDone(d, kind, old(g), g, e.value,
          Child(OfRoot, NoSlot, role, Some(child), perm, shared, false, stayAtNode), child)
      ensures e.Some? <==>
        && ctxOk
        && Satisfiable(d, kind,
             old(g.edges)[old(nextEdge) := Child(OfRoot, NoSlot, role, Some(child), perm, shared, false, stayAtNode)],
               old(g.nodes.Keys), [child])
    {
      e := RootAttachChildTran(d, child, Child(OfRoot, NoSlot, role, None, perm, shared, false, stayAtNode), ctxOk);
      ScheduleUnref(child);
    }

    /** One turn of the loop in bdrv_replace_node_noperm. */
    method ReplaceParent(c: Edge, to: Node, autoSkip: bool) returns (ok: bool)
      requires Valid() && c in g.edges && g.edges[c].bs.Some? && g.edges[c].bs != Some(to) && to in g.nodes
      requires to !in deleted
      modifies this`g, this`log, this`refcnt
      ensures Valid() && Base() == old(Base()) && Doomed() == old(Doomed()) && g.nodes.Keys == old(g.nodes.Keys)
      ensures ok <==> if Movable(old(g.edges), c, to) then !old(g.edges[c]).frozen else autoSkip
      ensures ok && Movable(old(g.edges), c, to) ==> g.edges == old(g.edges)[c := old(g.edges[c]).(bs := Some(to))]
      ensures !ok || !Movable(old(g.edges), c, to) ==> g == old(g)
    {
      InSubtreeIsBeneath(g, c, to);
      var update := ShouldUpdateChild(g, c, to);
      if !update {
        return autoSkip;
      }
      if g.edges[c].frozen {
        return false;
      }
      ReplaceChildTran(c, Some(to));
      ok := true;
    }

    /** bdrv_replace_node_noperm.  Earlier re-pointings do not change the subtree of `to`, so each
        parent is judged as it would have been at the start. */
    method ReplaceNodeNoperm(from: Node, to: Node, autoSkip: bool) returns (ok: bool)
      requires Valid() && Acyclic(ArcsOf(g.edges)) && from in g.nodes && to in g.nodes && from != to && to !in deleted
      modifies this`g, this`log, this`refcnt
      ensures Valid() && Base() == old(Base()) && Doomed() == old(Doomed()) && g.nodes.Keys == old(g.nodes.Keys)
      ensures Acyclic(ArcsOf(g.edges))
      ensures ok <==> MayReplace(old(g.edges), from, to, autoSkip)
      ensures ok ==> g.edges == MoveParents(old(g.edges), from, to)
    {
      var ps := g.nodes[from].parents;
      ghost var edges0 := g.edges;
      assert NodeOk(g.edges, g.nodes[from], from);
      for i := 0 to |ps|
        invariant Valid() && Base() == old(Base()) && Doomed() == old(Doomed()) && g.nodes.Keys == old(g.nodes.Keys)
        invariant Acyclic(ArcsOf(g.edges)) && Moving(edges0, g.edges, from, to, ps, i)
        invariant forall j ::
          0 <= j < i ==> ps[j] in edges0 && if Movable(edges0, ps[j], to) then !edges0[ps[j]].frozen else autoSkip
      {
        var c := ps[i];
        assert c in ps && PointsTo(edges0, c, from);
        MovingSame(edges0, g.edges, from, to, ps, i);
        ghost var edges1 := g.edges;
        ok := ReplaceParent(c, to, autoSkip);
        if !ok {
          return;
        }
        if Movable(edges0, c, to) {
          MovingStep(edges0, edges1, g.edges, from, to, ps, i);
        } else {
          MovingSkip(edges0, edges1, from, to, ps, i);
        }
      }
      MovingDone(edges0, g.edges, from, to, ps);
      ok := true;
    }

    /** The end of bdrv_replace_node_common: permissions from `from` and `to`, then commit or abort. */
    method FinishReplace(d: Drivers, from: Node, to: Node, ghost g0: Graph) returns (ok: bool)
      requires Valid() && Wf(g0) && Sound(g0.edges) && Base() == View(g0.edges, inherits)
      requires g.nodes.Keys == g0.nodes.Keys
      requires from in g.nodes && to in g.nodes && EditReady(g0.edges, g, [from, to], Doomed())
      modifies this`g, this`inherits, this`refcnt, this`scheduled, this`deleted, this`log
      ensures Idle() && inherits == old(inherits)
      ensures !ok ==> SameGraph(g, g0)
      ensures ok <==> Satisfiable(d, kind, old(g.edges), old(g.nodes.Keys), [from, to])
      ensures ok ==> EditDone(d, kind, old(g.edges) - old(Doomed()), g, [from, to])
    {
      ok := RefreshAndFinalize(d, [from, to], g0.edges);
      if !ok {
        SameEdgesSameGraph(g, g0);
      }
    }

    /** tran_finalize of a failed operation */
    method Abandon(ghost g0: Graph)
      requires Valid() && Wf(g0) && Sound(g0.edges) && Base() == View(g0.edges, inherits)
      requires g.nodes.Keys == g0.nodes.Keys
      modifies this`g, this`inherits, this`refcnt, this`scheduled, this`deleted, this`log
      ensures Idle() && inherits == old(inherits) && SameGraph(g, g0)
    {
      TranFinalize(false);
      SameEdgesSameGraph(g, g0);
    }

    /** bdrv_replace_node: on success the parents left on `from` are the stay-at-node edges and those
        in the subtree of `to`. */
    method ReplaceNode(d: Drivers, from: Node, to: Node, autoSkip: bool) returns (ok: bool)
      requires Idle() && from in g.nodes && to in g.nodes && from != to && to !in deleted
      modifies this`g, this`inherits, this`refcnt, this`scheduled, this`deleted, this`log
      ensures Idle() && inherits == old(inherits)
      ensures !ok ==> SameGraph(g, old(g))
      ensures ok <==>
        && MayReplace(old(g.edges), from, to, autoSkip)
        && Satisfiable(d, kind, MoveParents(old(g.edges), from, to), old(g.nodes.Keys), [from, to])
      ensures ok ==> EditDone(d, kind, MoveParents(old(g.edges), from, to) - {}, g, [from, to])
      ensures ok ==> forall e :: PointsTo(g.edges, e, from) <==>
        PointsTo(old(g.edges), e, from) && (old(g.edges)[e].stayAtNode || Beneath(old(g.edges), e, to))
    {
      ok := ReplaceNodeNoperm(from, to, autoSkip);
      if !ok {
        Abandon(old(g));
        return;
      }
      ReplaceReady(old(g.edges), g, from, to);
      ok := FinishReplace(d, from, to, old(g));
      if ok {
        forall e
          ensures PointsTo(g.edges, e, from) <==>
            && PointsTo(old(g.edges), e, from) && (old(g.edges)[e].stayAtNode || Beneath(old(g.edges), e, to))
        {
          LeftOnFrom(d, kind, old(g.edges), from, to, {}, g, [from, to], e);
        }
      }
    }

    /** The edit of bdrv_replace_node_common with detach_subchain. */
    method ReplaceAndDetachNoperm(from: Node, to: Node, autoSkip: bool) returns (ok: bool, ghost x: Edge)
      requires Valid() && Acyclic(ArcsOf(g.edges)) && from in g.nodes && to in g.nodes && from != to && to !in deleted
      requires ChainContains(kind, isFilter, g, from, to)
      requires forall e :: ChainLink(kind, isFilter, g, from, to, e) && e in g.edges ==> !g.edges[e].frozen
      modifies this`g, this`log, this`refcnt
      ensures Valid() && Base() == old(Base()) && g.nodes.Keys == old(g.nodes.Keys)
      ensures ok <==> MayReplace(old(g.edges), from, to, autoSkip)
      ensures ChainLink(kind, isFilter, old(g), from, to, x) && PointsTo(old(g.edges), x, to)
      ensures ok ==> Doomed() == old(Doomed()) + {x}
      ensures ok ==> Acyclic(ArcsOf(MoveParents(old(g.edges), from, to)))
      ensures
        ok ==> g.edges == MoveParents(old(g.edges), from, to)[x := MoveOne(old(g.edges), x, from, to).(bs := None)]
    {
      var parent := CowParent(kind, isFilter, g, from, to);
      x := ChainEdge(kind, isFilter, g, parent).value;
      ok := ReplaceNodeNoperm(from, to, autoSkip);
      if ok {
        SlotsKept(old(g), g, from, to, parent);
        var link := ChainEdge(kind, isFilter, g, parent).value;
        assert link == x && g.edges[x] == MoveOne(old(g.edges), x, from, to);
        RemoveChild(link);
      }
    }

    /** bdrv_replace_node_common with detach_subchain: the link to `to` in from's chain goes, too. */
    method ReplaceAndDetach(d: Drivers, from: Node, to: Node, autoSkip: bool) returns (ok: bool, ghost x: Edge)
      requires Idle() && from in g.nodes && to in g.nodes && from != to && to !in deleted
      requires ChainContains(kind, isFilter, g, from, to)
      requires forall e :: ChainLink(kind, isFilter, g, from, to, e) && e in g.edges ==> !g.edges[e].frozen
      modifies this`g, this`inherits, this`refcnt, this`scheduled, this`deleted, this`log
      ensures Idle() && inherits == old(inherits)
      ensures !ok ==> SameGraph(g, old(g))
      ensures ChainLink(kind, isFilter, old(g), from, to, x) && PointsTo(old(g.edges), x, to) && (ok ==> x !in g.edges)
      ensures ok <==>
        && MayReplace(old(g.edges), from, to, autoSkip)
        && Satisfiable(d, kind,
             MoveParents(old(g.edges), from, to)[x := MoveOne(old(g.edges), x, from, to).(bs := None)],
               old(g.nodes.Keys), [from, to])
      ensures ok ==> EditDone(d, kind, MoveParents(old(g.edges), from, to) - {x}, g, [from, to])
    {
      ok, x := ReplaceAndDetachNoperm(from, to, autoSkip);
      if !ok {
        Abandon(old(g));
        return;
      }
      ok := FinishDetach(d, from, to, x, old(g));
    }

    /** The end of bdrv_replace_node_common with detach_subchain */
    method FinishDetach(d: Drivers, from: Node, to: Node, ghost x: Edge, ghost g0: Graph) returns (ok: bool)
      requires Valid() && Wf(g0) && Sound(g0.edges) && Base() == View(g0.edges, inherits)
      requires g.nodes.Keys == g0.nodes.Keys
      requires from in g.nodes && to in g.nodes && x in g0.edges && Doomed() == {x}
      requires Acyclic(ArcsOf(MoveParents(g0.edges, from, to)))
      requires g.edges == MoveParents(g0.edges, from, to)[x := MoveOne(g0.edges, x, from, to).(bs := None)]
      modifies this`g, this`inherits, this`refcnt, this`scheduled, this`deleted, this`log
      ensures Idle() && inherits == old(inherits)
      ensures !ok ==> SameGraph(g, g0)
      ensures ok <==> Satisfiable(d, kind, old(g.edges), old(g.nodes.Keys), [from, to])
      ensures ok ==> x !in g.edges && EditDone(d, kind, MoveParents(g0.edges, from, to) - {x}, g, [from, to])
    {
      DetachReady(g0.edges, g, from, to, x);
      DetachedEdges(MoveParents(g0.edges, from, to), g.edges, x);
      ok := FinishReplace(d, from, to, g0);
      assert x !in MoveParents(g0.edges, from, to) - {x};
    }

    /** The edit of bdrv_append: newBs on top of `top`, then the parents of `top` move to newBs. */
    method AppendNoperm(d: Drivers, newBs: Node, top: Node, role: nat, ctxOk: bool) returns (ok: bool)
      requires Valid() && Acyclic(ArcsOf(g.edges)) && newBs in g.nodes && top in g.nodes && newBs !in deleted
      requires top !in deleted
      requires kind(newBs) == InnerDriver && g.nodes[newBs].backing == None
      modifies this`g, this`refcnt, this`log, this`nextEdge
      ensures Valid() && Base() == old(Base()) && Doomed() == old(Doomed()) && g.nodes.Keys == old(g.nodes.Keys)
      ensures var edges := old(g.edges)[old(nextEdge) := NewLink(d, old(g), newBs, top, BackingSlot, role)];
        && (ok <==> ctxOk && !Reaches(ArcsOf(old(g.edges)), top, newBs) && MayReplace(edges, top, newBs, true))
        && (ok ==>
              && old(nextEdge) !in old(g.edges) && g.edges == MoveParents(edges, top, newBs)
              && Acyclic(ArcsOf(g.edges)))
    {
      var link := AttachChildNoperm(d, newBs, top, BackingSlot, role, ctxOk);
      if link.None? {
        return false;
      }
      PutAcyclic(old(g.edges), link.value, NewLink(d, old(g), newBs, top, BackingSlot, role));
      ReachesSelf(ArcsOf(old(g.edges)), top);
      ok := ReplaceNodeNoperm(top, newBs, true);
    }

    /** bdrv_append */
    method Append(d: Drivers, newBs: Node, top: Node, role: nat, ctxOk: bool) returns (ok: bool)
      requires Idle() && newBs in g.nodes && top in g.nodes && newBs !in deleted && top !in deleted
      requires kind(newBs) == InnerDriver && g.nodes[newBs].backing == None
      modifies this`g, this`inherits, this`refcnt, this`scheduled, this`deleted, this`log, this`nextEdge
      ensures Idle() && inherits == old(inherits)
      ensures !ok ==> SameGraph(g, old(g))
      ensures ok ==>
        var e := old(nextEdge);
        && e !in old(g.edges) && InSlot(g.edges, e, newBs, BackingSlot) && PointsTo(g.edges, e, top)
        && EditDone(d, kind, MoveParents(old(g.edges)[e := g.edges[e]], top, newBs), g, [newBs])
      ensures var edges := old(g.edges)[old(nextEdge) := NewLink(d, old(g), newBs, top, BackingSlot, role)];
        ok <==>
          && ctxOk && !Reaches(ArcsOf(old(g.edges)), top, newBs) && MayReplace(edges, top, newBs, true)
          && Satisfiable(d, kind, MoveParents(edges, top, newBs), old(g.nodes.Keys), [newBs])
    {
      ghost var e, c := nextEdge, NewLink(d, g, newBs, top, BackingSlot, role);
      ok := AppendNoperm(d, newBs, top, role, ctxOk);
      if !ok {
        Abandon(old(g));
        return;
      }
      AppendReady(old(g.edges), g, e, c, top, newBs);
      ok := FinishAppend(d, e, c, top, newBs, old(g));
    }

    method FinishAppend(d: Drivers, ghost e: Edge, ghost c: Child, top: Node, newBs: Node, ghost g0: Graph)
      returns (ok: bool)
      requires Valid() && Wf(g0) && Sound(g0.edges) && Base() == View(g0.edges, inherits) && Doomed() == {}
      requires g.nodes.Keys == g0.nodes.Keys
      requires newBs in g.nodes && c.owner == OfNode(newBs) && c.bs == Some(top) && e !in g0.edges
      requires g.edges == MoveParents(g0.edges[e := c], top, newBs) && EditReady(g0.edges, g, [newBs], {})
      requires e in g.edges && g.edges[e] == c
      modifies this`g, this`inherits, this`refcnt, this`scheduled, this`deleted, this`log
      ensures Idle() && inherits == old(inherits)
      ensures ok <==> Satisfiable(d, kind, old(g.edges), old(g.nodes.Keys), [newBs])
      ensures !ok ==> SameGraph(g, g0)
      ensures ok ==> e in g.edges && g.edges[e] == c.(perm := g.edges[e].perm, shared := g.edges[e].shared)
      ensures ok ==> EditDone(d, kind, MoveParents(g0.edges[e := g.edges[e]], top, newBs), g, [newBs])
    {
      ok := RefreshAndFinalize(d, [newBs], g0.edges);
      if ok {
        AppendFinished(d, kind, g0.edges, e, c, top, newBs, g);
      } else {
        SameEdgesSameGraph(g, g0);
      }
    }

    /** The part of bdrv_set_file_or_backing_noperm that removes the old link. */
    method Unlink(parent: Node, slot: Slot)
      requires Valid() && Acyclic(ArcsOf(g.edges)) && parent in g.nodes && slot != NoSlot
      requires var x := LinkOf(g.nodes[parent], slot); x.Some? && x.value in g.edges ==> !g.edges[x.value].frozen
      modifies this`g, this`inherits, this`refcnt, this`log
      ensures Valid() && Base() == old(Base()) && g.nodes.Keys == old(g.nodes.Keys)
      ensures LinkOf(g.nodes[parent], slot) == None
      ensures var x := old(LinkOf(g.nodes[parent], slot));
        && Doomed() == old(Doomed()) + LinkSet(x) && (x.Some? ==> x.value in old(g.edges))
        && g.edges == Unlinked(old(g.edges), x)
        && Cleared(old(inherits), inherits, parent, if x.Some? then Orphans(old(g), parent, x.value) else {})
    {
      var link := LinkOf(g.nodes[parent], slot);
      LinkIsEdge(g, parent, slot);
      if link.Some? {
        var x := link.value;
        assert EdgeOk(g, x);
        UnsetInheritsFrom(parent, x);
        RemoveChild(x);
        UnlinkedSlotFree(old(g), g, parent, slot);
      }
    }

    /** The part of bdrv_set_file_or_backing_noperm that makes the new link. */
    method Link(d: Drivers, parent: Node, child: Node, slot: Slot, role: nat, update: bool, ctxOk: bool)
      returns (e: Option<Edge>)
      requires Valid() && Acyclic(ArcsOf(g.edges)) && parent in g.nodes && child in g.nodes && child !in deleted
      requires kind(parent) == InnerDriver && LinkOf(g.nodes[parent], slot) == None
      modifies this`g, this`inherits, this`refcnt, this`log, this`nextEdge
      ensures Valid() && Base() == old(Base()) && Doomed() == old(Doomed()) && g.nodes.Keys == old(g.nodes.Keys)
      ensures e.Some? <==> ctxOk && !Reaches(ArcsOf(old(g.edges)), child, parent)
      ensures e.Some? ==>
        && e.value == old(nextEdge) && nextEdge == old(nextEdge) + 1 && e.value !in old(g.edges) && e.value in g.edges
        && g.edges == old(g.edges)[e.value := g.edges[e.value]]
        && SameButMasks(g.edges[e.value], BareLink(parent, child, slot, role))
        && inherits == if update then old(inherits)[child := Some(parent)] else old(inherits)
    {
      e := AttachChildNoperm(d, parent, child, slot, role, ctxOk);
      if e.Some? && update {
        SetInheritsFrom(child, Some(parent));
      }
    }

    /** bdrv_set_file_or_backing_noperm.  `update` is bdrv_inherits_from_recursive(child, parent). */
    method SetFileOrBackingNoperm(
        d: Drivers, parent: Node, child: Option<Node>, slot: Slot, supportsBacking: bool, update: bool, ctxOk: bool)
      returns (ok: bool, ghost e: Edge)
      requires Valid() && Acyclic(ArcsOf(g.edges)) && parent in g.nodes && slot != NoSlot
      requires child.Some? ==> child.value in g.nodes && child.value !in deleted && kind(parent) != LeafDriver
      modifies this`g, this`inherits, this`refcnt, this`log, this`nextEdge
      ensures Valid() && Base() == old(Base()) && g.nodes.Keys == old(g.nodes.Keys)
      ensures var link := old(LinkOf(g.nodes[parent], slot));
        && (link.Some? ==> link.value in old(g.edges))
        && (ok <==> MayRelink(kind, isFilter, old(g), parent, slot, supportsBacking)
                    && (child.Some? ==> ctxOk && !Reaches(ArcsOf(Unlinked(old(g.edges), link)), child.value, parent)))
        && (ok ==>
              && Doomed() == old(Doomed()) + LinkSet(link)
              && Relinked(old(inherits), inherits, old(g), parent, link, child, update))
        && (ok && child.None? ==> g.edges == Unlinked(old(g.edges), link) && nextEdge == old(nextEdge))
        && (ok && child.Some? ==>
              && e == old(nextEdge) && nextEdge == old(nextEdge) + 1 && e !in old(g.edges) && e in g.edges
              && g.edges == Unlinked(old(g.edges), link)[e := g.edges[e]]
              && SameButMasks(g.edges[e],
                   BareLink(parent, child.value, slot, LinkRole(isFilter, old(g), parent, slot))))
    {
      e := 0;
      LinkIsEdge(g, parent, slot);
      if !MayRelink(kind, isFilter, g, parent, slot, supportsBacking) {
        return false, e;
      }
      var link := LinkOf(g.nodes[parent], slot);
      var role := LinkRole(isFilter, g, parent, slot);
      UnlinkAcyclic(g.edges, link);
      Unlink(parent, slot);
      ghost var i1 := inherits;
      ok := true;
      if child.Some? {
        var n := child.value;
        var x := Link(d, parent, n, slot, role, update, ctxOk);
        if x.None? {
          ok := false;
        } else {
          e := x.value;
        }
      }
      assert ok ==> Relinked(old(inherits), inherits, old(g), parent, link, child, update) by {
        assert Cleared(old(inherits), i1, parent, if link.Some? then Orphans(old(g), parent, link.value) else {});
      }
    }

    /** bdrv_set_backing_hd_drained */
    method SetBackingHdDrained(
        d: Drivers, bs: Node, backing: Option<Node>, supportsBacking: bool, update: bool, ctxOk: bool)
      returns (ok: bool, ghost e: Edge)
      requires Idle() && bs in g.nodes
      requires backing.Some? ==> backing.value in g.nodes && backing.value !in deleted && kind(bs) != LeafDriver
      modifies this`g, this`inherits, this`refcnt, this`scheduled, this`deleted, this`log, this`nextEdge
      ensures Idle()
      ensures !ok ==> SameGraph(g, old(g)) && inherits == old(inherits)
      ensures var link := old(g.nodes[bs]).backing;
        && (link.Some? ==> link.value in old(g.edges))
        && (ok <==>
              && MayRelink(kind, isFilter, old(g), bs, BackingSlot, supportsBacking)
              && (backing.Some? ==> ctxOk && !Reaches(ArcsOf(Unlinked(old(g.edges), link)), backing.value, bs))
              && Satisfiable(d, kind, RelinkedEdges(isFilter, old(g), bs, BackingSlot, backing, old(nextEdge)),
                   old(g.nodes.Keys), [bs]))
      ensures ok ==>
        && LinkDone(d, kind, old(g), g, bs, BackingSlot, backing, e)
        && Relinked(old(inherits), inherits, old(g), bs, old(g.nodes[bs]).backing, backing, update)
    {
      ok, e := SetFileOrBackingNoperm(d, bs, backing, BackingSlot, supportsBacking, update, ctxOk);
      if !ok {
        TranFinalize(false);
        SameEdgesSameGraph(g, old(g));
        return;
      }
      ghost var link := old(g.nodes[bs]).backing;
      if backing.Some? {
        RelinkReady(old(g), g, bs, link, e, g.edges[e]);
        RelinkedMasks(d, kind, isFilter, old(g), g, bs, BackingSlot, backing.value, e);
      } else {
        UnlinkReady(old(g), g, bs, link);
      }
      ok := FinishRelink(d, bs, backing.Some?, e, link, old(g), old(inherits));
    }

    method FinishRelink(
        d: Drivers, bs: Node, ghost linked: bool, ghost e: Edge, ghost link: Option<Edge>, ghost g0: Graph,
        ghost inherits0: map<Node, Option<Node>>)
      returns (ok: bool)
      requires Valid() && Wf(g0) && Sound(g0.edges) && Base() == View(g0.edges, inherits0)
      requires g.nodes.Keys == g0.nodes.Keys
      requires bs in g.nodes && Doomed() == LinkSet(link) && EditReady(g0.edges, g, [bs], LinkSet(link))
      requires !linked ==> g.edges - LinkSet(link) == g0.edges - LinkSet(link)
      requires linked ==> e in g.edges && g.edges - LinkSet(link) == (g0.edges - LinkSet(link))[e := g.edges[e]]
      modifies this`g, this`inherits, this`refcnt, this`scheduled, this`deleted, this`log
      ensures Idle()
      ensures ok <==> Satisfiable(d, kind, old(g.edges), old(g.nodes.Keys), [bs])
      ensures !ok ==> SameGraph(g, g0) && inherits == inherits0
      ensures ok ==> inherits == old(inherits)
      ensures ok && !linked ==> EditDone(d, kind, g0.edges - LinkSet(link), g, [bs])
      ensures ok && linked ==>
        && e in g.edges && g.edges[e] == old(g.edges[e]).(perm := g.edges[e].perm, shared := g.edges[e].shared)
        && EditDone(d, kind, (g0.edges - LinkSet(link))[e := g.edges[e]], g, [bs])
    {
      ghost var rest := g0.edges - LinkSet(link);
      ok := RefreshAndFinalize(d, [bs], g0.edges);
      if ok {
        if linked {
          assert rest[e := old(g.edges[e])] - {} == rest[e := old(g.edges[e])];
          EditDoneOwn(d, kind, rest, e, old(g.edges[e]), g, [bs]);
        }
      } else {
        SameEdgesSameGraph(g, g0);
      }
    }

    /** bdrv_reopen_parse_file_or_backing, with the new child looked up; `was` is the child that a
        replaced link had before.  g0 is the graph before all requests. */
    method RelinkNext(
        d: Drivers, rs: seq<BlockRelinks.Relink>, i: nat, ghost g0: Graph, ghost next0: Edge, ghost alive: set<Node>)
      returns (ok: bool, was: Option<Node>)
      requires Valid() && Wf(g0) && g.nodes.Keys == g0.nodes.Keys && i < |rs| && BlockRelinks.Distinct(rs)
      requires BlockRelinks.ParentsKnown(g0, rs) && Relinking(g0, next0, rs, i)
      requires BlockRelinks.Linkable(kind, rs[i], alive, g0.nodes.Keys) && alive <= g0.nodes.Keys && alive !! deleted
      modifies this`g, this`inherits, this`refcnt, this`log, this`nextEdge
      ensures Valid() && Base() == old(Base()) && g.nodes.Keys == old(g.nodes.Keys)
      ensures ok <==> BlockRelinks.LinkAllowed(
        kind, isFilter, g0, BlockRelinks.AfterLinks(isFilter, g0, next0, rs, i).edges, rs[i])
      ensures ok ==> Relinking(g0, next0, rs, i + 1)
      ensures ok ==> was == if BlockRelinks.LinkFits(g0, rs[i]) then None else BlockRelinks.ChildBefore(g0, rs[i])
    {
      var r := rs[i];
      var link := LinkOf(g.nodes[r.parent], r.slot);
      LinkIsEdge(g, r.parent, r.slot);
      BlockRelinks.SameChecks(kind, isFilter, g0, g, rs, i);
      BlockRelinks.TracksArcs(
        kind, g.edges, nextEdge, BlockRelinks.AfterLinks(isFilter, g0, next0, rs, i), rs, i);
      was := if link.Some? then g.edges[link.value].bs else None;
      if r.child.Some? {
        var cycle := RecurseHasChild(g, r.child.value, r.parent);
        if cycle {
          return false, None;
        }
      }
      if was == r.child || (was.Some? && Some(BlockRelinks.SkipFilters(r, was.value)) == r.child) {
        BlockRelinks.ProgressSkip(kind, isFilter, g0, next0, g, nextEdge, Doomed(), rs, i);
        return true, None;
      }
      if was.Some? && was.value in r.filters {
        return false, None;
      }
      if isFilter(r.parent) && was.None? {
        return false, None;
      }
      ok := ReplaceLink(d, rs, i, g0, next0, alive);
    }

    /** The end of bdrv_reopen_parse_file_or_backing, for a link that does not lead to the child yet */
    method ReplaceLink(
        d: Drivers, rs: seq<BlockRelinks.Relink>, i: nat, ghost g0: Graph, ghost next0: Edge, ghost alive: set<Node>)
      returns (ok: bool)
      requires Valid() && Wf(g0) && g.nodes.Keys == g0.nodes.Keys && i < |rs| && BlockRelinks.Distinct(rs)
      requires BlockRelinks.ParentsKnown(g0, rs) && Relinking(g0, next0, rs, i) && !BlockRelinks.LinkFits(g0, rs[i])
      requires BlockRelinks.Linkable(kind, rs[i], alive, g0.nodes.Keys) && alive <= g0.nodes.Keys && alive !! deleted
      requires rs[i].child.Some? ==> !Reaches(ArcsOf(g.edges), rs[i].child.value, rs[i].parent)
      modifies this`g, this`inherits, this`refcnt, this`log, this`nextEdge
      ensures Valid() && Base() == old(Base()) && g.nodes.Keys == old(g.nodes.Keys)
      ensures ok <==>
        && MayRelink(kind, isFilter, g0, rs[i].parent, rs[i].slot, rs[i].supportsBacking)
        && (rs[i].child.Some? ==> rs[i].ctxOk)
      ensures ok ==> Relinking(g0, next0, rs, i + 1)
    {
      var r := rs[i];
      ghost var link := LinkOf(g.nodes[r.parent], r.slot);
      LinkIsEdge(g, r.parent, r.slot);
      BlockRelinks.SameChecks(kind, isFilter, g0, g, rs, i);
      if r.child.Some? {
        BlockRelinks.UnlinkedReaches(g.edges, link, r.child.value, r.parent);
      }
      ghost var e;
      ok, e := SetFileOrBackingNoperm(d, r.parent, r.child, r.slot, r.supportsBacking, r.update, r.ctxOk);
      if ok {
        assert BlockRelinks.OneLink(old(g.edges), g.edges, r, link, old(nextEdge));
        ghost var now := BlockRelinks.Links(g.edges, nextEdge);
        BlockRelinks.ProgressStep(kind, isFilter, g0, next0, old(g), old(nextEdge), old(Doomed()), now, rs, i);
      }
    }

    ghost predicate Relinking(g0: Graph, next0: Edge, rs: seq<BlockRelinks.Relink>, i: nat)
      requires i <= |rs| && BlockRelinks.ParentsKnown(g0, rs)
      reads this
    {
      BlockRelinks.Progress(
        kind, isFilter, g0, next0, BlockRelinks.Links(g.edges, nextEdge), Doomed(), rs, i)
    }

    /** The loop over the queue of a reopen: replaces the links one after the other, and collects their
        old children. */
    method RelinkAll(d: Drivers, rs: seq<BlockRelinks.Relink>) returns (ok: bool, olds: seq<Node>)
      requires Idle() && BlockRelinks.Distinct(rs) && BlockRelinks.ParentsKnown(g, rs)
      requires BlockRelinks.AllLinkable(kind, rs, g.nodes.Keys - deleted, g.nodes.Keys)
      modifies this`g, this`inherits, this`refcnt, this`log, this`nextEdge
      ensures Valid() && Base() == old(Base()) && g.nodes.Keys == old(g.nodes.Keys)
      ensures ok <==> BlockRelinks.LinksAllowed(kind, isFilter, old(g), old(nextEdge), rs, |rs|)
      ensures ok ==> Relinking(old(g), old(nextEdge), rs, |rs|) && olds == BlockRelinks.OldChildren(old(g), rs, |rs|)
    {
      BlockRelinks.ProgressNone(kind, isFilter, g, nextEdge, rs);
      ok, olds := RelinkEach(d, rs, g, nextEdge, g.nodes.Keys - deleted);
    }

    method RelinkEach(
        d: Drivers, rs: seq<BlockRelinks.Relink>, ghost g0: Graph, ghost next0: Edge, ghost alive: set<Node>)
      returns (ok: bool, olds: seq<Node>)
      requires Valid() && Wf(g0) && g.nodes.Keys == g0.nodes.Keys && BlockRelinks.Distinct(rs)
      requires BlockRelinks.ParentsKnown(g0, rs) && RelinkedUpTo(g0, next0, rs, 0, [])
      requires BlockRelinks.AllLinkable(kind, rs, alive, g0.nodes.Keys) && alive <= g0.nodes.Keys && alive !! deleted
      modifies this`g, this`inherits, this`refcnt, this`log, this`nextEdge
      ensures Valid() && Base() == old(Base()) && g.nodes.Keys == old(g.nodes.Keys)
      ensures
        if ok then RelinkedUpTo(g0, next0, rs, |rs|, olds)
        else !BlockRelinks.LinksAllowed(kind, isFilter, g0, next0, rs, |rs|)
    {
      olds := [];
      for i := 0 to |rs|
        invariant Valid() && Base() == old(Base()) && g.nodes.Keys == old(g.nodes.Keys)
        invariant RelinkedUpTo(g0, next0, rs, i, olds)
      {
        ok, olds := RelinkOne(d, rs, i, olds, g0, next0, alive);
        if !ok {
          return;
        }
      }
      ok := true;
    }

    ghost predicate RelinkedUpTo(g0: Graph, next0: Edge, rs: seq<BlockRelinks.Relink>, i: nat, olds: seq<Node>)
      requires i <= |rs| && BlockRelinks.ParentsKnown(g0, rs)
      reads this
    {
      && Relinking(g0, next0, rs, i) && BlockRelinks.LinksAllowed(kind, isFilter, g0, next0, rs, i)
      && olds == BlockRelinks.OldChildren(g0, rs, i)
    }

    /** One turn of that loop */
    method RelinkOne(
        d: Drivers, rs: seq<BlockRelinks.Relink>, i: nat, olds: seq<Node>, ghost g0: Graph, ghost next0: Edge,
        ghost alive: set<Node>)
      returns (ok: bool, olds': seq<Node>)
      requires Valid() && Wf(g0) && g.nodes.Keys == g0.nodes.Keys && i < |rs| && BlockRelinks.Distinct(rs)
      requires BlockRelinks.ParentsKnown(g0, rs) && RelinkedUpTo(g0, next0, rs, i, olds)
      requires BlockRelinks.AllLinkable(kind, rs, alive, g0.nodes.Keys) && alive <= g0.nodes.Keys && alive !! deleted
      modifies this`g, this`inherits, this`refcnt, this`log, this`nextEdge
      ensures Valid() && Base() == old(Base()) && g.nodes.Keys == old(g.nodes.Keys)
      ensures
        if ok then RelinkedUpTo(g0, next0, rs, i + 1, olds')
        else !BlockRelinks.LinksAllowed(kind, isFilter, g0, next0, rs, |rs|)
    {
      var was;
      ok, was := RelinkNext(d, rs, i, g0, next0, alive);
      olds' := (if was.Some? then [was.value] else []) + olds;
    }

    /** The graph side of bdrv_reopen_multiple: links of the queued nodes are replaced in one transaction,
        with one permission update of all queued nodes and of the children they had.  It succeeds exactly
        if every request is accepted in its turn and the new edges allow a consistent assignment; if it
        does not, nothing has changed. */
    method ReopenLinks(d: Drivers, queue: seq<Node>, rs: seq<BlockRelinks.Relink>)
      returns (ok: bool, ghost edges: map<Edge, Child>)
      requires Idle() && BlockRelinks.Distinct(rs) && BlockRelinks.ParentsKnown(g, rs)
      requires BlockRelinks.AllLinkable(kind, rs, g.nodes.Keys - deleted, g.nodes.Keys)
      requires (forall n :: n in queue ==> n in g.nodes) && forall i :: 0 <= i < |rs| ==> rs[i].parent in queue
      modifies this`g, this`inherits, this`refcnt, this`scheduled, this`deleted, this`log, this`nextEdge
      ensures Idle()
      ensures !ok ==> SameGraph(g, old(g)) && inherits == old(inherits)
      ensures var nodes := BlockRelinks.OldChildren(old(g), rs, |rs|) + queue;
        && (ok <==>
              && BlockRelinks.LinksAllowed(kind, isFilter, old(g), old(nextEdge), rs, |rs|)
              && Satisfiable(d, kind, BlockRelinks.AfterLinks(isFilter, old(g), old(nextEdge), rs, |rs|).edges,
                   old(g.nodes.Keys), nodes))
        && (ok ==> BlockRelinks.Relinked(old(g.edges), edges, rs, |rs|) && EditDone(d, kind, edges, g, nodes))
    {
      var olds;
      ok, olds := RelinkAll(d, rs);
      edges := g.edges - Doomed();
      if !ok {
        TranFinalize(false);
        SameEdgesSameGraph(g, old(g));
        return;
      }
      BlockRelinks.OldChildrenKnown(old(g), rs, |rs|);
      ok := FinishLinks(d, olds + queue, rs, old(g), old(nextEdge), old(inherits));
    }

    /** The permission update of a reopen, and the end of its transaction */
    method FinishLinks(
        d: Drivers, nodes: seq<Node>, ghost rs: seq<BlockRelinks.Relink>, ghost g0: Graph, ghost next0: Edge,
        ghost inherits0: map<Node, Option<Node>>)
      returns (ok: bool)
      requires Valid() && Wf(g0) && Sound(g0.edges) && Base() == View(g0.edges, inherits0)
      requires g.nodes.Keys == g0.nodes.Keys && BlockRelinks.ParentsKnown(g0, rs) && Relinking(g0, next0, rs, |rs|)
      requires (forall n :: n in nodes ==> n in g.nodes) && forall i :: 0 <= i < |rs| ==> rs[i].parent in nodes
      modifies this`g, this`inherits, this`refcnt, this`scheduled, this`deleted, this`log
      ensures Idle()
      ensures !ok ==> SameGraph(g, g0) && inherits == inherits0
      ensures ok <==>
        Satisfiable(d, kind, BlockRelinks.AfterLinks(isFilter, g0, next0, rs, |rs|).edges, g0.nodes.Keys, nodes)
      ensures ok ==>
        && BlockRelinks.Relinked(g0.edges, old(g.edges) - old(Doomed()), rs, |rs|)
        && EditDone(d, kind, old(g.edges) - old(Doomed()), g, nodes)
    {
      BlockRelinks.RelinksReady(g0.edges, g, rs, nodes, Doomed());
      BlockRelinks.RelinksFreed(g0.edges, g.edges, rs, Doomed());
      BlockRelinks.TracksSatisfiable(
        d, kind, g, nextEdge, BlockRelinks.AfterLinks(isFilter, g0, next0, rs, |rs|), rs, nodes);
      ok := RefreshAndFinalize(d, nodes, g0.edges);
      if !ok {
        SameEdgesSameGraph(g, g0);
      }
    }

    /** bdrv_replace_child_noperm(child, NULL) and bdrv_child_free: the caller is left with the edge's
        reference. */
    method TakeOut(e: Edge) returns (bs: Node)
      requires Idle() && e in g.edges && !g.edges[e].frozen
      modifies this`g, this`owned
      ensures Valid() && log == [] && g.edges == old(g.edges) - {e} && g.nodes.Keys == old(g.nodes.Keys)
      ensures old(g.edges[e]).bs == Some(bs) && bs in g.nodes && owned == old(owned) + multiset{bs}
    {
      ghost var s := State();
      assert EdgeOk(g, e);
      bs := g.edges[e].bs.value;
      var g1 := ReplaceChildNoperm(g, e, None);
      g := FreeEdge(g1, e);
      owned := owned + multiset{bs};
      UnrefChildKeepsValid(kind, s, e, g1, g);
    }

    /** bdrv_root_unref_child: the edge goes in any case; permissions are loosened if the drivers of the
        nodes that are left accept it. */
    method RootUnrefChild(d: Drivers, e: Edge)
      requires Idle() && e in g.edges && !g.edges[e].frozen
      modifies this`g, this`inherits, this`refcnt, this`scheduled, this`deleted, this`log, this`owned
      ensures Idle() && inherits == old(inherits) && owned == old(owned) && g.nodes.Keys == old(g.nodes.Keys)
      ensures SameEdgesBut(old(g.edges), g.edges, {e})
      ensures var rest, bs := old(g.edges) - {e}, old(g.edges[e]).bs.value;
        if Satisfiable(d, kind, rest, old(g.nodes.Keys), [bs]) then EditDone(d, kind, rest, g, [bs])
        else g.edges == rest
    {
      var bs := TakeOut(e);
      UnrefReady(old(g.edges), g, e, bs);
      LoosenPerms(d, bs);
      SameEdgesAfter(d, kind, old(g.edges), e, g, [bs]);
      ScheduleUnref(bs);
    }

    /** bdrv_unref_child, which is not part of a transaction */
    method UnrefChild(d: Drivers, parent: Node, e: Edge)
      requires Idle() && ChildOf(g.edges, e, parent) && parent in g.nodes && !g.edges[e].frozen
      modifies this`g, this`inherits, this`refcnt, this`scheduled, this`deleted, this`log, this`owned
      ensures Idle() && owned == old(owned) && g.nodes.Keys == old(g.nodes.Keys)
      ensures Cleared(old(inherits), inherits, parent, Orphans(old(g), parent, e))
      ensures SameEdgesBut(old(g.edges), g.edges, {e})
    {
      assert EdgeOk(g, e);
      UnsetInheritsFrom(parent, e);
      TranFinalize(true);
      assert old(g.edges) - {} == old(g.edges);
      RootUnrefChild(d, e);
    }

    /** bdrv_close of a node whose last reference is gone and whose driver has unfrozen its children: every
        link to a child is given up, with its reference. */
    method CloseNode(d: Drivers, n: Node)
      requires Idle() && n in g.nodes && forall e :: ChildOf(g.edges, e, n) ==> !g.edges[e].frozen
      modifies this`g, this`inherits, this`refcnt, this`scheduled, this`deleted, this`log, this`owned
      ensures Idle() && owned == old(owned) && g.nodes.Keys == old(g.nodes.Keys)
      ensures SameEdgesBut(old(g.edges), g.edges, set e | e in old(g.edges) && ChildOf(old(g.edges), e, n))
      ensures g.nodes[n].children == [] && g.nodes[n].backing == None && g.nodes[n].file == None
    {
      ghost var gone: set<Edge> := {};
      while g.nodes[n].children != []
        invariant Idle() && owned == old(owned) && g.nodes.Keys == old(g.nodes.Keys)
        invariant SameEdgesBut(old(g.edges), g.edges, gone) && forall e :: e in gone ==> ChildOf(old(g.edges), e, n)
        decreases |g.edges|
      {
        var e := g.nodes[n].children[0];
        ghost var edges := g.edges;
        FirstChildOf(g, n);
        UnrefChild(d, n, e);
        FewerEdges(edges, g.edges, e);
        SameEdgesMore(old(g.edges), edges, g.edges, gone, e);
        gone := gone + {e};
      }
      NoChildrenLeft(old(g.edges), g, n, gone);
    }

    /** bdrv_schedule_unref_bh with all that follows: the last reference deletes the node, and with it its
        links to other nodes. */
    method UnrefAndDelete(d: Drivers, n: Node)
      requires Idle() && n in g.nodes && scheduled[n] > 0
      requires forall e :: ChildOf(g.edges, e, n) ==> !g.edges[e].frozen
      modifies this`g, this`inherits, this`refcnt, this`scheduled, this`deleted, this`log, this`owned
      ensures Idle() && owned == old(owned) && g.nodes.Keys == old(g.nodes.Keys)
      ensures if old(refcnt)[n] == 1
        then forall e :: !PointsTo(g.edges, e, n) && !ChildOf(g.edges, e, n)
        else g == old(g) && deleted == old(deleted) && n !in deleted
    {
      UnrefBottomHalf(n);
      if refcnt[n] == 0 {
        DeleteNode(d, n);
      }
    }

    /** bdrv_delete */
    method DeleteNode(d: Drivers, n: Node)
      requires Idle() && n in g.nodes && forall e :: !PointsTo(g.edges, e, n)
      requires forall e :: ChildOf(g.edges, e, n) ==> !g.edges[e].frozen
      modifies this`g, this`inherits, this`refcnt, this`scheduled, this`deleted, this`log, this`owned
      ensures Idle() && owned == old(owned) && g.nodes.Keys == old(g.nodes.Keys)
      ensures forall e :: !PointsTo(g.edges, e, n) && !ChildOf(g.edges, e, n)
    {
      ghost var gone := set e | e in g.edges && ChildOf(g.edges, e, n);
      CloseNode(d, n);
      Unconnected(old(g.edges), g, n, gone);
    }

    /** The permission update of bdrv_root_unref_child, whose failure is ignored */
    method LoosenPerms(d: Drivers, bs: Node)
      requires Idle() && bs in g.nodes && EditReady(g.edges, g, [bs], {})
      modifies this`g, this`inherits, this`refcnt, this`scheduled, this`deleted, this`log
      ensures Idle() && inherits == old(inherits) && g.nodes.Keys == old(g.nodes.Keys)
      ensures
        if Satisfiable(d, kind, old(g.edges), old(g.nodes.Keys), [bs])
        then EditDone(d, kind, old(g.edges), g, [bs])
        else g.edges == old(g.edges)
    {
      ghost var edges := g.edges;
      assert edges - {} == edges;
      var ok := RefreshAndFinalize(d, [bs], edges);
    }
  }
}

/** Several links of the graph replaced in one transaction, as a reopen does for all its nodes. */
module BlockRelinks {

  import opened Digraph
  import opened BlockGraph
  import opened BlockTraversal
  import opened BlockPerms
  import opened BlockRefresh
  import opened BlockEdits

  /** One request to replace a link.  `filters` are the implicit filters, with what lies beneath them. */
  datatype Relink = Relink(
    parent: Node, slot: Slot, child: Option<Node>, filters: map<Node, Node>, supportsBacking: bool, update: bool,
    ctxOk: bool)

  /** bdrv_skip_implicit_filters */
  function SkipFilters(r: Relink, n: Node): Node {
    if n in r.filters then r.filters[n] else n
  }

  /** The nodes exist; a new child is alive, and its parent can have children. */
  predicate Linkable(kind: Node -> DriverKind, r: Relink, alive: set<Node>, all: set<Node>) {
    && r.parent in all && r.slot != NoSlot
    && (r.child.Some? ==> r.child.value in alive && kind(r.parent) != LeafDriver)
  }

  predicate AllLinkable(kind: Node -> DriverKind, rs: seq<Relink>, alive: set<Node>, all: set<Node>) {
    forall i {:trigger Linkable(kind, rs[i], alive, all)} :: 0 <= i < |rs| ==> Linkable(kind, rs[i], alive, all)
  }

  predicate SamePlace(r: Relink, q: Relink) {
    r.parent == q.parent && r.slot == q.slot
  }

  /** No link is replaced twice. */
  predicate Distinct(rs: seq<Relink>) {
    forall i, j {:trigger SamePlace(rs[i], rs[j])} :: 0 <= i < j < |rs| ==> !SamePlace(rs[i], rs[j])
  }

  predicate InPlace(c: Child, r: Relink) {
    c.owner == OfNode(r.parent) && c.slot == r.slot
  }

  /** The edge belongs to one of the first n links. */
  predicate Edited(c: Child, rs: seq<Relink>, n: nat)
    requires n <= |rs|
  {
    exists i :: 0 <= i < n && InPlace(c, rs[i])
  }

  /** n is the requested child, or has it beneath its implicit filters. */
  predicate Fits(r: Relink, n: Node) {
    r.child == Some(n) || r.child == Some(SkipFilters(r, n))
  }

  /** The link leads to the child, if need be through implicit filters, or there is none. */
  ghost predicate Leads(edges: map<Edge, Child>, r: Relink) {
    if r.child.None? then forall e :: !InSlot(edges, e, r.parent, r.slot)
    else exists e, n :: InSlot(edges, e, r.parent, r.slot) && PointsTo(edges, e, n) && Fits(r, n)
  }

  /** The first n links have been replaced, and nothing else: edges are as before or belong to them. */
  ghost predicate Relinked(edges0: map<Edge, Child>, edges: map<Edge, Child>, rs: seq<Relink>, n: nat)
    requires n <= |rs|
  {
    && (forall i {:trigger Leads(edges, rs[i])} :: 0 <= i < n ==> Leads(edges, rs[i]))
    && (forall e {:trigger edges0[e]} ::
          e in edges0 && !Edited(edges0[e], rs, n) ==> e in edges && edges[e] == edges0[e])
    && (forall e {:trigger edges[e]} ::
          e in edges && edges[e].bs.Some? && !Edited(edges[e], rs, n) ==> e in edges0 && edges[e] == edges0[e])
  }

  lemma RelinkedNone(edges: map<Edge, Child>, rs: seq<Relink>)
    requires Filled(edges)
    ensures Relinked(edges, edges, rs, 0) && DoomedAreEmpty(edges, {})
  {
  }

  /** One link is replaced: `link` is emptied, and e is new, if there is a new child. */
  ghost predicate OneLink(edges: map<Edge, Child>, edges': map<Edge, Child>, r: Relink, link: Option<Edge>, e: Edge) {
    && (link.Some? ==> InSlot(edges, link.value, r.parent, r.slot))
    && (r.child.None? ==> edges' == Unlinked(edges, link))
    && (r.child.Some? ==>
          && e !in edges && e in edges' && edges' == Unlinked(edges, link)[e := edges'[e]]
          && InPlace(edges'[e], r) && edges'[e].bs == r.child)
  }

  /** Other places keep their links. */
  lemma OthersLead(edges: map<Edge, Child>, edges': map<Edge, Child>, r: Relink, link: Option<Edge>, e: Edge, q: Relink)
    requires OneLink(edges, edges', r, link, e) && !SamePlace(q, r) && Leads(edges, q)
    ensures Leads(edges', q)
  {
    forall x ensures InSlot(edges', x, q.parent, q.slot) <==> InSlot(edges, x, q.parent, q.slot) {
      assert x in edges && x in edges' && link != Some(x) && (r.child.Some? ==> x != e) ==> edges'[x] == edges[x];
    }
    if q.child.Some? {
      var x, n :| InSlot(edges, x, q.parent, q.slot) && PointsTo(edges, x, n) && Fits(q, n);
      assert InSlot(edges', x, q.parent, q.slot) && link != Some(x) && (r.child.Some? ==> x != e);
      assert PointsTo(edges', x, n);
    }
  }

  lemma OwnLeads(g: Graph, edges': map<Edge, Child>, r: Relink, e: Edge)
    requires Wf(g) && r.parent in g.nodes && r.slot != NoSlot
    requires OneLink(g.edges, edges', r, LinkOf(g.nodes[r.parent], r.slot), e)
    ensures Leads(edges', r)
  {
    var link := LinkOf(g.nodes[r.parent], r.slot);
    assert NodeOk(g.edges, g.nodes[r.parent], r.parent);
    if r.child.None? {
      forall x ensures !InSlot(edges', x, r.parent, r.slot) {
        assert InSlot(g.edges, x, r.parent, r.slot) ==> link == Some(x);
        assert x in edges' && link != Some(x) ==> edges'[x] == g.edges[x];
      }
    } else {
      assert InSlot(edges', e, r.parent, r.slot) && PointsTo(edges', e, r.child.value) && Fits(r, r.child.value);
    }
  }

  /** The link of r's place leads to its child already. */
  predicate LinkFits(g: Graph, r: Relink)
    requires r.parent in g.nodes
  {
    var link := LinkOf(g.nodes[r.parent], r.slot);
    if link.None? then r.child.None?
    else link.value in g.edges && g.edges[link.value].bs.Some? && Fits(r, g.edges[link.value].bs.value)
  }

  lemma LinkLeads(g: Graph, r: Relink)
    requires Wf(g) && r.parent in g.nodes && r.slot != NoSlot && LinkFits(g, r)
    ensures Leads(g.edges, r)
  {
    var link := LinkOf(g.nodes[r.parent], r.slot);
    LinkIsEdge(g, r.parent, r.slot);
    if link.Some? {
      var m := g.edges[link.value].bs.value;
      assert InSlot(g.edges, link.value, r.parent, r.slot) && PointsTo(g.edges, link.value, m) && Fits(r, m);
    } else {
      assert NodeOk(g.edges, g.nodes[r.parent], r.parent);
      forall x ensures !InSlot(g.edges, x, r.parent, r.slot) {
        assert InSlot(g.edges, x, r.parent, r.slot) ==> link == Some(x);
      }
    }
  }

  /** A link that leads to the child already is left alone. */
  lemma SkipStep(edges0: map<Edge, Child>, edges: map<Edge, Child>, rs: seq<Relink>, n: nat)
    requires n < |rs| && Relinked(edges0, edges, rs, n) && Leads(edges, rs[n])
    ensures Relinked(edges0, edges, rs, n + 1)
  {
    forall x | x in edges0 && !Edited(edges0[x], rs, n + 1) ensures x in edges && edges[x] == edges0[x] {
      EditedNext(edges0[x], rs, n);
    }
    forall x | x in edges && edges[x].bs.Some? && !Edited(edges[x], rs, n + 1)
      ensures x in edges0 && edges[x] == edges0[x]
    {
      EditedNext(edges[x], rs, n);
    }
  }

  lemma EditedNext(c: Child, rs: seq<Relink>, n: nat)
    requires n < |rs|
    ensures Edited(c, rs, n + 1) <==> Edited(c, rs, n) || InPlace(c, rs[n])
  {
  }

  lemma RelinkStep(edges0: map<Edge, Child>, g: Graph, edges': map<Edge, Child>, rs: seq<Relink>, n: nat, e: Edge)
    requires n < |rs| && Distinct(rs) && Wf(g) && Relinked(edges0, g.edges, rs, n)
    requires rs[n].parent in g.nodes && rs[n].slot != NoSlot
    requires OneLink(g.edges, edges', rs[n], LinkOf(g.nodes[rs[n].parent], rs[n].slot), e)
    ensures Relinked(edges0, edges', rs, n + 1)
  {
    var r := rs[n];
    var link := LinkOf(g.nodes[r.parent], r.slot);
    forall i | 0 <= i < n + 1 ensures Leads(edges', rs[i]) {
      if i < n { OthersLead(g.edges, edges', r, link, e, rs[i]); } else { OwnLeads(g, edges', r, e); }
    }
    forall x | x in edges0 && !Edited(edges0[x], rs, n + 1) ensures x in edges' && edges'[x] == edges0[x] {
      EditedNext(edges0[x], rs, n);
      assert g.edges[x] == edges0[x];
    }
    forall x | x in edges' && edges'[x].bs.Some? && !Edited(edges'[x], rs, n + 1)
      ensures x in edges0 && edges'[x] == edges0[x]
    {
      EditedNext(edges'[x], rs, n);
      assert x in g.edges && g.edges[x] == edges'[x];
    }
  }

  lemma RelinkAcyclic(edges: map<Edge, Child>, edges': map<Edge, Child>, r: Relink, link: Option<Edge>, e: Edge)
    requires Acyclic(ArcsOf(edges)) && OneLink(edges, edges', r, link, e)
    requires r.child.Some? ==> !Reaches(ArcsOf(Unlinked(edges, link)), r.child.value, r.parent)
    ensures Acyclic(ArcsOf(edges'))
  {
    UnlinkAcyclic(edges, link);
    if r.child.Some? { PutAcyclic(Unlinked(edges, link), e, edges'[e]); }
  }

  /** The edges without a target are the ones that the commit frees. */
  predicate DoomedAreEmpty(edges: map<Edge, Child>, doomed: set<Edge>) {
    && (forall e :: e in edges ==> (e in doomed <==> edges[e].bs.None?))
    && (forall e :: e in doomed ==> e in edges)
  }

  lemma RelinkDooms(
      edges: map<Edge, Child>, edges': map<Edge, Child>, r: Relink, link: Option<Edge>, e: Edge, doomed: set<Edge>)
    requires OneLink(edges, edges', r, link, e) && DoomedAreEmpty(edges, doomed)
    ensures DoomedAreEmpty(edges', doomed + LinkSet(link))
  {
    forall x | x in edges' ensures x in doomed + LinkSet(link) <==> edges'[x].bs.None? {
      assert x != e && link != Some(x) ==> x in edges && edges'[x] == edges[x];
    }
  }

  /** The replaced links can be completed by an update from their parents. */
  lemma RelinksReady(edges0: map<Edge, Child>, g: Graph, rs: seq<Relink>, nodes: seq<Node>, doomed: set<Edge>)
    requires Sound(edges0) && Wf(g) && Acyclic(ArcsOf(g.edges)) && Relinked(edges0, g.edges, rs, |rs|)
    requires DoomedAreEmpty(g.edges, doomed)
    requires forall i :: 0 <= i < |rs| ==> rs[i].parent in nodes && rs[i].parent in g.nodes
    ensures EditReady(edges0, g, nodes, doomed)
  {
    forall e, n | PointsTo(g.edges, e, n) && n !in Subtrees(g, nodes) ensures e in edges0 && g.edges[e] == edges0[e] {
      if Edited(g.edges[e], rs, |rs|) {
        var i :| 0 <= i < |rs| && InPlace(g.edges[e], rs[i]);
        assert EdgeOk(g, e) && ChildOf(g.edges, e, rs[i].parent);
        ChildInSubtree(g, nodes, rs[i].parent, e, n);
      }
    }
  }

  /** Freeing the emptied edges does not matter. */
  lemma RelinksFreed(edges0: map<Edge, Child>, edges: map<Edge, Child>, rs: seq<Relink>, doomed: set<Edge>)
    requires Filled(edges0) && Relinked(edges0, edges, rs, |rs|) && DoomedAreEmpty(edges, doomed)
    ensures Relinked(edges0, edges - doomed, rs, |rs|)
  {
    var rest := edges - doomed;
    forall e, n, slot
      ensures InSlot(rest, e, n, slot) == InSlot(edges, e, n, slot) && PointsTo(rest, e, n) == PointsTo(edges, e, n)
    {
    }
    forall i | 0 <= i < |rs| ensures Leads(rest, rs[i]) {
      assert Leads(edges, rs[i]);
      if rs[i].child.Some? {
        var e, n :| InSlot(edges, e, rs[i].parent, rs[i].slot) && PointsTo(edges, e, n) && Fits(rs[i], n);
        assert InSlot(rest, e, rs[i].parent, rs[i].slot) && PointsTo(rest, e, n);
      }
    }
    forall e | e in edges0 && !Edited(edges0[e], rs, |rs|) ensures e in rest && rest[e] == edges0[e] {
      assert edges[e] == edges0[e];
    }
    forall e | e in rest && rest[e].bs.Some? && !Edited(rest[e], rs, |rs|) ensures e in edges0 && rest[e] == edges0[e] {
      assert edges[e] == rest[e];
    }
  }

  // ------------------------------------------------------------------------------------------
  // When all links can be replaced, and with which edges

  /** The child that the link of r's place has. */
  function ChildBefore(g: Graph, r: Relink): Option<Node>
    requires r.parent in g.nodes
  {
    var link := LinkOf(g.nodes[r.parent], r.slot);
    if link.Some? && link.value in g.edges then g.edges[link.value].bs else None
  }

  predicate ParentsKnown(g: Graph, rs: seq<Relink>) {
    forall i :: 0 <= i < |rs| ==> rs[i].parent in g.nodes
  }

  /** The nodes that refresh_list gets besides the queued ones: the children of the links that are
      replaced. */
  function OldChildren(g: Graph, rs: seq<Relink>, n: nat): seq<Node>
    requires n <= |rs| && ParentsKnown(g, rs)
  {
    if n == 0 then []
    else
      var was := ChildBefore(g, rs[n - 1]);
      (if was.Some? && !LinkFits(g, rs[n - 1]) then [was.value] else []) + OldChildren(g, rs, n - 1)
  }

  /** Edges, and the number of the next one to be made. */
  datatype Links = Links(edges: map<Edge, Child>, next: Edge)

  function Emptied(edges: map<Edge, Child>, link: Option<Edge>): map<Edge, Child> {
    if link.Some? && link.value in edges then edges[link.value := edges[link.value].(bs := None)] else edges
  }

  /** The edges after the first n links, up to the masks of the new ones.  No request changes the link of
      another, so each is read off the graph before all of them. */
  function AfterLinks(isFilter: Node -> bool, g: Graph, next: Edge, rs: seq<Relink>, n: nat): Links
    requires n <= |rs| && ParentsKnown(g, rs)
  {
    if n == 0 then Links(g.edges, next)
    else
      var r, before := rs[n - 1], AfterLinks(isFilter, g, next, rs, n - 1);
      var edges := Emptied(before.edges, LinkOf(g.nodes[r.parent], r.slot));
      if LinkFits(g, r) then before
      else if r.child.None? then Links(edges, before.next)
      else
        var c := BareLink(r.parent, r.child.value, r.slot, LinkRole(isFilter, g, r.parent, r.slot));
        Links(edges[before.next := c], before.next + 1)
  }

  /** The request is accepted when the edges are `edges`: it closes no cycle, and its link leads to the
      child already, or may be replaced by it. */
  ghost predicate LinkAllowed(
      kind: Node -> DriverKind, isFilter: Node -> bool, g: Graph, edges: map<Edge, Child>, r: Relink)
    requires r.parent in g.nodes
  {
    var was := ChildBefore(g, r);
    && (r.child.Some? ==> !Reaches(ArcsOf(edges), r.child.value, r.parent))
    && (|| LinkFits(g, r)
        || (&& (was.Some? ==> was.value !in r.filters) && (isFilter(r.parent) ==> was.Some?)
            && MayRelink(kind, isFilter, g, r.parent, r.slot, r.supportsBacking) && (r.child.Some? ==> r.ctxOk)))
  }

  ghost predicate LinksAllowed(
      kind: Node -> DriverKind, isFilter: Node -> bool, g: Graph, next: Edge, rs: seq<Relink>, n: nat)
    requires n <= |rs| && ParentsKnown(g, rs)
  {
    forall i {:trigger AfterLinks(isFilter, g, next, rs, i)} :: 0 <= i < n ==>
      LinkAllowed(kind, isFilter, g, AfterLinks(isFilter, g, next, rs, i).edges, rs[i])
  }

  /** The masks of this edge are for its owner to decide. */
  predicate MasksFree(kind: Node -> DriverKind, c: Child, rs: seq<Relink>, n: nat)
    requires n <= |rs|
  {
    c.bs.Some? && c.owner.OfNode? && kind(c.owner.node) == InnerDriver && Edited(c, rs, n)
  }

  /** These are the edges after n links. */
  ghost predicate Tracks(
      kind: Node -> DriverKind, edges: map<Edge, Child>, next: Edge, t: Links, rs: seq<Relink>, n: nat)
    requires n <= |rs|
  {
    && next == t.next && edges.Keys == t.edges.Keys
    && forall e {:trigger edges[e]} {:trigger t.edges[e]} :: e in edges ==>
         SameButMasks(edges[e], t.edges[e]) && (edges[e] == t.edges[e] || MasksFree(kind, edges[e], rs, n))
  }

  lemma TracksArcs(kind: Node -> DriverKind, edges: map<Edge, Child>, next: Edge, t: Links, rs: seq<Relink>, n: nat)
    requires n <= |rs| && Tracks(kind, edges, next, t, rs, n)
    ensures ArcsOf(t.edges) == ArcsOf(edges)
  {
    SameArcs(edges, t.edges);
  }

  lemma NotEdited(c: Child, rs: seq<Relink>, n: nat)
    requires n < |rs| && Distinct(rs) && InPlace(c, rs[n])
    ensures !Edited(c, rs, n)
  {
    forall i | 0 <= i < n ensures !InPlace(c, rs[i]) { assert !SamePlace(rs[i], rs[n]); }
  }

  /** The next request finds its link as it was in the beginning. */
  lemma PlaceUntouched(g0: Graph, g: Graph, rs: seq<Relink>, n: nat)
    requires Wf(g0) && Wf(g) && n < |rs| && Distinct(rs) && Relinked(g0.edges, g.edges, rs, n)
    requires rs[n].parent in g0.nodes && rs[n].parent in g.nodes && rs[n].slot != NoSlot
    ensures var link := LinkOf(g0.nodes[rs[n].parent], rs[n].slot);
      && LinkOf(g.nodes[rs[n].parent], rs[n].slot) == link
      && (link.Some? ==> link.value in g0.edges && link.value in g.edges && g.edges[link.value] == g0.edges[link.value])
  {
    var p, slot := rs[n].parent, rs[n].slot;
    assert NodeOk(g0.edges, g0.nodes[p], p) && NodeOk(g.edges, g.nodes[p], p);
    forall e ensures InSlot(g.edges, e, p, slot) <==> InSlot(g0.edges, e, p, slot) {
      if InSlot(g0.edges, e, p, slot) {
        NotEdited(g0.edges[e], rs, n);
      } else if InSlot(g.edges, e, p, slot) {
        NotEdited(g.edges[e], rs, n);
      }
    }
    var link, link' := LinkOf(g0.nodes[p], slot), LinkOf(g.nodes[p], slot);
    assert SlotOk(g0.edges, link, p, slot) && SlotOk(g.edges, link', p, slot);
    assert SlotOk(g.edges, link, p, slot);
    SameSlot(g.edges, link, link', p, slot);
    if link.Some? {
      assert InSlot(g0.edges, link.value, p, slot);
      NotEdited(g0.edges[link.value], rs, n);
    }
  }

  /** The checks of a request come out as they would have in the beginning. */
  lemma SameChecks(kind: Node -> DriverKind, isFilter: Node -> bool, g0: Graph, g: Graph, rs: seq<Relink>, n: nat)
    requires Wf(g0) && Wf(g) && n < |rs| && Distinct(rs) && Relinked(g0.edges, g.edges, rs, n)
    requires rs[n].parent in g0.nodes && rs[n].parent in g.nodes && rs[n].slot != NoSlot
    ensures LinkFits(g, rs[n]) == LinkFits(g0, rs[n]) && ChildBefore(g, rs[n]) == ChildBefore(g0, rs[n])
    ensures LinkOf(g.nodes[rs[n].parent], rs[n].slot) == LinkOf(g0.nodes[rs[n].parent], rs[n].slot)
    ensures MayRelink(kind, isFilter, g, rs[n].parent, rs[n].slot, rs[n].supportsBacking)
      == MayRelink(kind, isFilter, g0, rs[n].parent, rs[n].slot, rs[n].supportsBacking)
    ensures LinkRole(isFilter, g, rs[n].parent, rs[n].slot) == LinkRole(isFilter, g0, rs[n].parent, rs[n].slot)
  {
    PlaceUntouched(g0, g, rs, n);
  }

  lemma TrackSkip(
      kind: Node -> DriverKind, isFilter: Node -> bool, g0: Graph, next0: Edge, edges: map<Edge, Child>, next: Edge,
      rs: seq<Relink>, n: nat)
    requires n < |rs| && ParentsKnown(g0, rs) && LinkFits(g0, rs[n])
    requires Tracks(kind, edges, next, AfterLinks(isFilter, g0, next0, rs, n), rs, n)
    ensures Tracks(kind, edges, next, AfterLinks(isFilter, g0, next0, rs, n + 1), rs, n + 1)
  {
    forall e | e in edges ensures MasksFree(kind, edges[e], rs, n) ==> MasksFree(kind, edges[e], rs, n + 1) {
      EditedNext(edges[e], rs, n);
    }
  }

  lemma TrackStep(
      kind: Node -> DriverKind, isFilter: Node -> bool, g0: Graph, next0: Edge, edges: map<Edge, Child>, next: Edge,
      edges': map<Edge, Child>, rs: seq<Relink>, n: nat)
    requires n < |rs| && Distinct(rs) && ParentsKnown(g0, rs) && !LinkFits(g0, rs[n])
    requires Tracks(kind, edges, next, AfterLinks(isFilter, g0, next0, rs, n), rs, n)
    requires OneLink(edges, edges', rs[n], LinkOf(g0.nodes[rs[n].parent], rs[n].slot), next)
    requires rs[n].child.Some? ==>
      && kind(rs[n].parent) == InnerDriver
      && SameButMasks(
           edges'[next],
           BareLink(rs[n].parent, rs[n].child.value, rs[n].slot, LinkRole(isFilter, g0, rs[n].parent, rs[n].slot)))
    ensures Tracks(
      kind, edges', if rs[n].child.Some? then next + 1 else next, AfterLinks(isFilter, g0, next0, rs, n + 1), rs, n + 1)
  {
    var r := rs[n];
    var link := LinkOf(g0.nodes[r.parent], r.slot);
    var t, t' := AfterLinks(isFilter, g0, next0, rs, n), AfterLinks(isFilter, g0, next0, rs, n + 1);
    if link.Some? { NotEdited(edges[link.value], rs, n); }
    forall e | e in edges'
      ensures e in t'.edges && SameButMasks(edges'[e], t'.edges[e])
      ensures edges'[e] == t'.edges[e] || MasksFree(kind, edges'[e], rs, n + 1)
    {
      EditedNext(edges'[e], rs, n);
      if r.child.Some? && e == next {
        assert MasksFree(kind, edges'[e], rs, n + 1);
      } else {
        assert e in edges && SameButMasks(edges[e], t.edges[e]);
      }
    }
    assert edges'.Keys == t'.edges.Keys;
  }

  lemma UnlinkedReaches(edges: map<Edge, Child>, link: Option<Edge>, a: Node, b: Node)
    requires (link.Some? ==> link.value in edges) && !Reaches(ArcsOf(edges), a, b)
    ensures !Reaches(ArcsOf(Unlinked(edges, link)), a, b)
  {
    if link.Some? {
      PutArcs(edges, link.value, edges[link.value].(bs := None));
      if Reaches(ArcsOf(Unlinked(edges, link)), a, b) { MoreArcs(ArcsOf(Unlinked(edges, link)), ArcsOf(edges), a, b); }
    }
  }

  /** The masks of the new links do not decide whether the permission update succeeds. */
  lemma TracksSatisfiable(
      d: Drivers, kind: Node -> DriverKind, g: Graph, next: Edge, t: Links, rs: seq<Relink>, nodes: seq<Node>)
    requires Wf(g) && Tracks(kind, g.edges, next, t, rs, |rs|)
    requires forall i :: 0 <= i < |rs| ==> rs[i].parent in nodes && rs[i].parent in g.nodes
    ensures Satisfiable(d, kind, t.edges, g.nodes.Keys, nodes) <==> Satisfiable(d, kind, g.edges, g.nodes.Keys, nodes)
  {
    var owners := Inner(kind, Subtrees(g, nodes));
    forall e | e in g.edges
      ensures t.edges[e] == g.edges[e].(perm := t.edges[e].perm, shared := t.edges[e].shared)
      ensures (forall x :: x in owners ==> !ChildOf(g.edges, e, x)) ==> t.edges[e] == g.edges[e]
    {
      if g.edges[e] != t.edges[e] {
        var i :| 0 <= i < |rs| && InPlace(g.edges[e], rs[i]);
        InOwnSubtree(g, nodes, rs[i].parent);
        assert rs[i].parent in owners && ChildOf(g.edges, e, rs[i].parent);
      }
    }
    SatisfiableWithMasks(d, kind, g, t.edges, nodes);
  }

  lemma OldChildrenKnown(g: Graph, rs: seq<Relink>, n: nat)
    requires Wf(g) && n <= |rs| && ParentsKnown(g, rs)
    ensures forall m :: m in OldChildren(g, rs, n) ==> m in g.nodes
  {
    if n > 0 {
      OldChildrenKnown(g, rs, n - 1);
      var link := LinkOf(g.nodes[rs[n - 1].parent], rs[n - 1].slot);
      if link.Some? && link.value in g.edges { assert EdgeOk(g, link.value); }
    }
  }

  // ------------------------------------------------------------------------------------------
  // All that is known after n requests

  ghost predicate Progress(
      kind: Node -> DriverKind, isFilter: Node -> bool, g0: Graph, next0: Edge, now: Links, doomed: set<Edge>,
      rs: seq<Relink>, n: nat)
    requires n <= |rs| && ParentsKnown(g0, rs)
  {
    && Relinked(g0.edges, now.edges, rs, n) && Acyclic(ArcsOf(now.edges)) && DoomedAreEmpty(now.edges, doomed)
    && Tracks(kind, now.edges, now.next, AfterLinks(isFilter, g0, next0, rs, n), rs, n)
  }

  lemma ProgressNone(kind: Node -> DriverKind, isFilter: Node -> bool, g: Graph, next: Edge, rs: seq<Relink>)
    requires Sound(g.edges) && ParentsKnown(g, rs)
    ensures Progress(kind, isFilter, g, next, Links(g.edges, next), {}, rs, 0)
  {
    RelinkedNone(g.edges, rs);
  }

  lemma ProgressSkip(
      kind: Node -> DriverKind, isFilter: Node -> bool, g0: Graph, next0: Edge, g: Graph, next: Edge,
      doomed: set<Edge>, rs: seq<Relink>, n: nat)
    requires n < |rs| && ParentsKnown(g0, rs) && LinkFits(g0, rs[n])
    requires Wf(g) && rs[n].parent in g.nodes && rs[n].slot != NoSlot && LinkFits(g, rs[n])
    requires Progress(kind, isFilter, g0, next0, Links(g.edges, next), doomed, rs, n)
    ensures Progress(kind, isFilter, g0, next0, Links(g.edges, next), doomed, rs, n + 1)
  {
    LinkLeads(g, rs[n]);
    SkipStep(g0.edges, g.edges, rs, n);
    TrackSkip(kind, isFilter, g0, next0, g.edges, next, rs, n);
  }

  lemma ProgressStep(
      kind: Node -> DriverKind, isFilter: Node -> bool, g0: Graph, next0: Edge, g: Graph, next: Edge,
      doomed: set<Edge>, now: Links, rs: seq<Relink>, n: nat)
    requires n < |rs| && Distinct(rs) && ParentsKnown(g0, rs) && Wf(g) && !LinkFits(g0, rs[n])
    requires rs[n].parent in g.nodes && rs[n].slot != NoSlot
    requires Progress(kind, isFilter, g0, next0, Links(g.edges, next), doomed, rs, n)
    requires var r := rs[n];
      var link := LinkOf(g.nodes[r.parent], r.slot);
      && link == LinkOf(g0.nodes[r.parent], r.slot) && OneLink(g.edges, now.edges, r, link, next)
      && (r.child.Some? ==> !Reaches(ArcsOf(Unlinked(g.edges, link)), r.child.value, r.parent))
    requires now.next == if rs[n].child.Some? then next + 1 else next
    requires rs[n].child.Some? ==>
      && kind(rs[n].parent) == InnerDriver
      && SameButMasks(
           now.edges[next],
           BareLink(rs[n].parent, rs[n].child.value, rs[n].slot, LinkRole(isFilter, g0, rs[n].parent, rs[n].slot)))
    ensures var link := LinkOf(g.nodes[rs[n].parent], rs[n].slot);
      Progress(kind, isFilter, g0, next0, now, doomed + LinkSet(link), rs, n + 1)
  {
    var link := LinkOf(g.nodes[rs[n].parent], rs[n].slot);
    RelinkStep(g0.edges, g, now.edges, rs, n, next);
    RelinkAcyclic(g.edges, now.edges, rs[n], link, next);
    RelinkDooms(g.edges, now.edges, rs[n], link, next, doomed);
    TrackStep(kind, isFilter, g0, next0, g.edges, next, now.edges, rs, n);
  }
}

/** What the combined graph says about the flowchart, and how merging groups coarsens it. */
module Quotient {
  import opened Seqs
  import opened GroupStore
  import opened GroupMan
  import opened FlowCharts
  import opened CombinedGraph
  import opened Algo

  /** ids and edges are the quotient of fc by `where`, numbered by first encounter. */
  ghost predicate IsQuotient<G>(
    ids: map<G, nat>, edges: set<(nat, nat)>, where: Where<G>, fc: FlowChart)
  {
    && Covers(where, fc, |fc|) && KnownEncounters(where, fc, |fc|)
    && Numbers(ids, Distinct(Groups(where, Encounters(fc, |fc|))))
    && EndsIn(ids, GroupEdges(where, fc, |fc|))
    && edges == Renamed(ids, GroupEdges(where, fc, |fc|))
  }

  lemma {:induction false} EncountersAll(fc: FlowChart, k: nat, u: nat, v: nat)
    requires u < k <= |fc| && (v == u || v in fc[u].succs)
    ensures v in Encounters(fc, k)
  {
    if u < k - 1 {
      EncountersAll(fc, k - 1, u, v);
    }
  }

  /** A node met by the walk has a group, and the group a number. */
  lemma NodeHasNumber<G>(
    ids: map<G, nat>, edges: set<(nat, nat)>, where: Where<G>, fc: FlowChart, u: nat, v: nat)
    requires IsQuotient(ids, edges, where, fc) && u < |fc| && (v == u || v in fc[u].succs)
    ensures v in where && where[v] in ids
  {
    EncountersAll(fc, |fc|, u, v);
    var ns := Encounters(fc, |fc|);
    var i :| 0 <= i < |ns| && ns[i] == v;
    assert Groups(where, ns)[i] == where[v];
    var order := Distinct(Groups(where, ns));
    assert where[v] in order;
  }

  /** A flowchart edge between the groups numbered a and b. */
  ghost predicate Crosses<G>(
    ids: map<G, nat>, where: Where<G>, fc: FlowChart, a: nat, b: nat, u: nat, v: nat)
  {
    && Edge(fc, u, v) && u in where && v in where
    && where[u] in ids && where[v] in ids && ids[where[u]] == a && ids[where[v]] == b
  }

  /** The combined graph is the exact quotient of the flowchart. */
  lemma EdgeIffCrosses<G>(
    ids: map<G, nat>, edges: set<(nat, nat)>, where: Where<G>, fc: FlowChart, a: nat, b: nat)
    requires IsQuotient(ids, edges, where, fc)
    ensures (a, b) in edges <==> a != b && exists u: nat, v: nat :: Crosses(ids, where, fc, a, b, u, v)
  {
    var es := GroupEdges(where, fc, |fc|);
    if (a, b) in edges {
      var e :| e in es && e.0 in ids && e.1 in ids && (ids[e.0], ids[e.1]) == (a, b);
      GroupEdgesIff(where, fc, |fc|, e);
      var u: nat, v: nat :| Witness(where, fc, |fc|, e, u, v);
      assert Crosses(ids, where, fc, a, b, u, v);
    }
    if a != b {
      if u: nat, v: nat :| Crosses(ids, where, fc, a, b, u, v) {
        var e := (where[u], where[v]);
        assert Witness(where, fc, |fc|, e, u, v);
        GroupEdgesIff(where, fc, |fc|, e);
      }
    }
  }

  // ----- reachability ---------------------------------------------------------

  ghost predicate FcWalk(fc: FlowChart, p: seq<nat>) {
    |p| > 0 && p[0] < |fc| && forall i :: 0 <= i < |p| - 1 ==> Edge(fc, p[i], p[i + 1])
  }

  ghost predicate Walk(edges: set<(nat, nat)>, q: seq<nat>) {
    |q| > 0 && forall i :: 0 <= i < |q| - 1 ==> (q[i], q[i + 1]) in edges
  }

  /** A walk in the flowchart projects to a walk between the groups of its ends. */
  lemma {:induction false} WalkProjects<G>(
    ids: map<G, nat>, edges: set<(nat, nat)>, where: Where<G>, fc: FlowChart, p: seq<nat>)
    returns (q: seq<nat>)
    requires IsQuotient(ids, edges, where, fc) && FcWalk(fc, p)
    ensures p[0] in where && where[p[0]] in ids
    ensures p[|p| - 1] in where && where[p[|p| - 1]] in ids
    ensures Walk(edges, q) && q[0] == ids[where[p[0]]] && q[|q| - 1] == ids[where[p[|p| - 1]]]
    decreases |p|
  {
    hide IsQuotient;
    var k := |p| - 1;
    if k == 0 {
      NodeHasNumber(ids, edges, where, fc, p[0], p[0]);
      q := [ids[where[p[0]]]];
    } else {
      var front := p[..k];
      forall i | 0 <= i < |front| - 1
        ensures Edge(fc, front[i], front[i + 1])
      {
        assert Edge(fc, p[i], p[i + 1]);
      }
      q := WalkProjects(ids, edges, where, fc, front);
      assert Edge(fc, p[k - 1], p[k - 1 + 1]);
      NodeHasNumber(ids, edges, where, fc, p[k - 1], p[k]);
      var a, b := ids[where[p[k - 1]]], ids[where[p[k]]];
      if a != b {
        assert Crosses(ids, where, fc, a, b, p[k - 1], p[k]);
        EdgeIffCrosses(ids, edges, where, fc, a, b);
        q := q + [b];
      }
    }
  }

  // ----- coarsening -----------------------------------------------------------

  /** where' sends every node to the image under h of its group. */
  ghost predicate Coarser<G>(where: Where<G>, where': Where<G>, h: map<G, G>) {
    && where'.Keys == where.Keys
    && forall n :: n in where ==> where[n] in h && where'[n] == h[where[n]]
  }

  ghost function Image<G>(es: set<(G, G)>, h: map<G, G>): set<(G, G)> {
    set e | e in es && e.0 in h && e.1 in h && h[e.0] != h[e.1] :: (h[e.0], h[e.1])
  }

  /** Merging groups maps the edges between groups and drops the new self-loops. */
  lemma {:induction false} GroupEdgesCoarsen<G>(where: Where<G>, where': Where<G>, h: map<G, G>, fc: FlowChart)
    requires Covers(where, fc, |fc|) && Covers(where', fc, |fc|) && Coarser(where, where', h)
    ensures GroupEdges(where', fc, |fc|) == Image(GroupEdges(where, fc, |fc|), h)
  {
    var es, es' := GroupEdges(where, fc, |fc|), GroupEdges(where', fc, |fc|);
    forall e | e in es'
      ensures e in Image(es, h)
    {
      GroupEdgesIff(where', fc, |fc|, e);
      var u: nat, v: nat :| Witness(where', fc, |fc|, e, u, v);
      var d := (where[u], where[v]);
      assert Witness(where, fc, |fc|, d, u, v);
      GroupEdgesIff(where, fc, |fc|, d);
    }
    forall e | e in Image(es, h)
      ensures e in es'
    {
      var d :| d in es && d.0 in h && d.1 in h && h[d.0] != h[d.1] && (h[d.0], h[d.1]) == e;
      GroupEdgesIff(where, fc, |fc|, d);
      var u: nat, v: nat :| Witness(where, fc, |fc|, d, u, v);
      assert Witness(where', fc, |fc|, e, u, v);
      GroupEdgesIff(where', fc, |fc|, e);
    }
  }

  /** f sends the number of each group to the new number of its image. */
  ghost predicate Relabels<G>(f: map<nat, nat>, ids: map<G, nat>, ids': map<G, nat>, h: map<G, G>) {
    forall g :: g in ids ==> g in h && h[g] in ids' && ids[g] in f && f[ids[g]] == ids'[h[g]]
  }

  ghost function NumberImage(edges: set<(nat, nat)>, f: map<nat, nat>): set<(nat, nat)> {
    set e | e in edges && e.0 in f && e.1 in f && f[e.0] != f[e.1] :: (f[e.0], f[e.1])
  }

  /** A numbered group is the group of some node that the walk meets. */
  lemma NumberHasNode<G>(
    ids: map<G, nat>, edges: set<(nat, nat)>, where: Where<G>, fc: FlowChart, g: G)
    returns (n: int)
    requires IsQuotient(ids, edges, where, fc) && g in ids
    ensures n in where && where[n] == g && n in Encounters(fc, |fc|)
  {
    var gs := Groups(where, Encounters(fc, |fc|));
    assert g in Distinct(gs);
    var i :| 0 <= i < |gs| && gs[i] == g;
    n := Encounters(fc, |fc|)[i];
  }

  lemma EncounteredHasNumber<G>(
    ids: map<G, nat>, edges: set<(nat, nat)>, where: Where<G>, fc: FlowChart, n: int)
    requires IsQuotient(ids, edges, where, fc) && n in Encounters(fc, |fc|)
    ensures n in where && where[n] in ids
  {
    var ns := Encounters(fc, |fc|);
    var i :| 0 <= i < |ns| && ns[i] == n;
    assert Groups(where, ns)[i] in Distinct(Groups(where, ns));
  }

  /** Merging groups relabels the combined graph and drops the edges that became loops. */
  lemma QuotientCoarsens<G>(
    ids: map<G, nat>, edges: set<(nat, nat)>, where: Where<G>,
    ids': map<G, nat>, edges': set<(nat, nat)>, where': Where<G>, h: map<G, G>, fc: FlowChart)
    returns (f: map<nat, nat>)
    requires IsQuotient(ids, edges, where, fc) && IsQuotient(ids', edges', where', fc)
    requires Coarser(where, where', h)
    ensures Relabels(f, ids, ids', h) && edges' == NumberImage(edges, f)
  {
    GroupEdgesCoarsen(where, where', h, fc);
    forall g | g in ids
      ensures g in h && h[g] in ids'
    {
      var n := NumberHasNode(ids, edges, where, fc, g);
      EncounteredHasNumber(ids', edges', where', fc, n);
    }
    var order := Distinct(Groups(where, Encounters(fc, |fc|)));
    f := RelabelMap(ids, order, ids', h);
    RelabelledEdges(ids, GroupEdges(where, fc, |fc|), ids', h, f);
  }

  lemma RelabelMap<G>(ids: map<G, nat>, order: seq<G>, ids': map<G, nat>, h: map<G, G>)
    returns (f: map<nat, nat>)
    requires Numbers(ids, order) && forall g :: g in ids ==> g in h && h[g] in ids'
    ensures Relabels(f, ids, ids', h)
  {
    f := map k: nat | k < |order| :: ids'[h[order[k]]];
  }

  lemma RelabelledEdges<G>(
    ids: map<G, nat>, es: set<(G, G)>, ids': map<G, nat>, h: map<G, G>, f: map<nat, nat>)
    requires EndsIn(ids, es) && Relabels(f, ids, ids', h)
    requires forall g, k :: g in ids' && k in ids' && ids'[g] == ids'[k] ==> g == k
    ensures Renamed(ids', Image(es, h)) == NumberImage(Renamed(ids, es), f)
  {
    var left, right := Renamed(ids', Image(es, h)), NumberImage(Renamed(ids, es), f);
    forall x | x in left
      ensures x in right
    {
      var e :| e in Image(es, h) && e.0 in ids' && e.1 in ids' && (ids'[e.0], ids'[e.1]) == x;
      var d :| d in es && d.0 in h && d.1 in h && h[d.0] != h[d.1] && (h[d.0], h[d.1]) == e;
      assert (ids[d.0], ids[d.1]) in Renamed(ids, es);
    }
    forall x | x in right
      ensures x in left
    {
      var y :| y in Renamed(ids, es) && y.0 in f && y.1 in f && f[y.0] != f[y.1] && (f[y.0], f[y.1]) == x;
      var d :| d in es && d.0 in ids && d.1 in ids && (ids[d.0], ids[d.1]) == y;
      assert (h[d.0], h[d.1]) in Image(es, h);
    }
  }

  // ----- the operations together ----------------------------------------------

  /** Build the combined graph: it fails exactly when some node looked up has no group. */
  method FcToCombinedMg(fc: FlowChart, gm: GroupManager) returns (ok: bool, b: Builder)
    requires gm.Valid() && Closed(gm.path, ListsOf(gm.st))
    ensures fresh(b) && b.Valid() && b.nodeCount == GroupTotal(gm.path, gm.st.top.lists)
    ensures b.nodeCount == |Places(gm.path, gm.st.top.lists)|
    ensures Tidy(gm.st, {}) ==> b.nodeCount == |gm.st.top.at|
    ensures ok <==> Covers(WhereOf(gm.nid2loc), fc, |fc|)
    ensures ok ==> IsQuotient(b.group2id, b.edges, WhereOf(gm.nid2loc), fc)
    ensures ok ==> b.seen == Groups(WhereOf(gm.nid2loc), Encounters(fc, |fc|))
  {
    hide Numbers, Distinct, Renamed, EndsIn, Tidy, Covers, IsQuotient, GroupTotal, Places;
    b := new Builder();
    ok := b.Build(gm, fc);
    BuiltQuotient(b, WhereOf(gm.nid2loc), fc, ok);
    TotalIsPlaces(gm.path, gm.st.top.lists);
    if Tidy(gm.st, {}) {
      TotalIsGroups(gm.st);
    }
  }

  lemma BuiltQuotient(b: Builder, where: Where<NodeGroup>, fc: FlowChart, ok: bool)
    requires b.Valid() && (ok <==> Covers(where, fc, |fc|))
    requires ok ==> && KnownEncounters(where, fc, |fc|)
                    && b.seen == Groups(where, Encounters(fc, |fc|))
                    && b.es == GroupEdges(where, fc, |fc|)
    ensures ok ==> IsQuotient(b.group2id, b.edges, where, fc)
  {
  }

  lemma AllKnown(idx: GIndex, fc: FlowChart)
    requires WellFormed(fc) && forall n :: 0 <= n < |fc| ==> n in idx
    ensures Covers(WhereOf(idx), fc, |fc|)
  {
  }

  /** From any vector of in-range node ids: sanitise, index, and the graph gets built. */
  method GraphFrom3dvec(fc: FlowChart, vec: seq<seq<seq<int>>>)
    returns (gm: GroupManager, b: Builder)
    requires WellFormed(fc) && InRange3(fc, vec)
    ensures gm.Valid() && Shows(gm.path, ListsOf(gm.st), Sanitized(fc, Nodes3(fc, vec), gm.allNodes))
    ensures forall n :: 0 <= n < |fc| ==> n in gm.nid2loc
    ensures IsQuotient(b.group2id, b.edges, WhereOf(gm.nid2loc), fc)
    ensures b.Valid() && |b.group2id| <= b.nodeCount
    ensures forall e :: e in b.edges ==> e.0 < b.nodeCount && e.1 < b.nodeCount
  {
    hide IsQuotient, Covers, Shows, Sanitized, Registered, Places;
    gm := new GroupManager();
    BuildGroupmanFrom3dvec(fc, vec, gm, true);
    AllKnown(gm.nid2loc, fc);
    var ok;
    ok, b := FcToCombinedMg(fc, gm);
    QuotientEncounters(b.group2id, b.edges, WhereOf(gm.nid2loc), fc);
    NumbersFit(b, gm, fc);
  }

  lemma QuotientEncounters<G>(
    ids: map<G, nat>, edges: set<(nat, nat)>, where: Where<G>, fc: FlowChart)
    requires IsQuotient(ids, edges, where, fc)
    ensures KnownEncounters(where, fc, |fc|)
  {
  }

  ghost predicate OnlyBlocks(idx: GIndex, fc: FlowChart) {
    forall n :: n in idx ==> 0 <= n < |fc|
  }

  /** On a consistent manager that knows every block the graph always gets built. */
  method ConsistentGraph(fc: FlowChart, gm: GroupManager) returns (b: Builder)
    requires gm.Consistent() && WellFormed(fc) && forall n :: 0 <= n < |fc| ==> n in gm.nid2loc
    ensures fresh(b) && IsQuotient(b.group2id, b.edges, WhereOf(gm.nid2loc), fc)
    ensures b.nodeCount == |gm.st.top.at|
    ensures OnlyBlocks(gm.nid2loc, fc) ==> b.nodeCount == |b.group2id|
  {
    hide Tidy, Exact, IsQuotient, Covers, Closed;
    TidyIsClosed(gm.st, {});
    AllKnown(gm.nid2loc, fc);
    var ok;
    ok, b := FcToCombinedMg(fc, gm);
    TotalIsGroups(gm.st);
    if OnlyBlocks(gm.nid2loc, fc) {
      AllGroupsNumbered(gm.st, gm.nid2loc, b.group2id, b.edges, fc);
    }
  }

  /** When the structure places the blocks of the flowchart only, every group gets a number. */
  lemma AllGroupsNumbered(
    st: GStore, idx: GIndex, ids: map<NodeGroup, nat>, edges: set<(nat, nat)>, fc: FlowChart)
    requires Tidy(st, {}) && Exact(st, idx) && IsQuotient(ids, edges, WhereOf(idx), fc)
    requires OnlyBlocks(idx, fc)
    ensures ids.Keys == st.top.at.Keys && |ids| == |st.top.at|
  {
    hide IsQuotient, Exact, Tidy;
    forall g | g in ids
      ensures g in st.top.at
    {
      var n := NumberHasNode(ids, edges, WhereOf(idx), fc, g);
      ExactStands(st, idx, n);
    }
    forall g | g in st.top.at
      ensures g in ids
    {
      var n := GroupHasNode(st, idx, g);
      NodeHasNumber(ids, edges, WhereOf(idx), fc, n, n);
    }
    assert ids.Keys == st.top.at.Keys;
    assert |ids| == |ids.Keys| && |st.top.at| == |st.top.at.Keys|;
  }

  lemma GroupHasNode(st: GStore, idx: GIndex, g: NodeGroup) returns (n: int)
    requires Tidy(st, {}) && Exact(st, idx) && g in st.top.at
    ensures n in idx && idx[n].ng == g
  {
    hide TopTidy;
    assert g in st.low.lists.Keys && st.low.lists[g] != [];
    var nd := st.low.lists[g][0];
    assert nd in st.low.lists[g];
    n := nd.nid;
  }

  /** The map on groups that combining ngl into dest performs. */
  ghost function MergeMap(host: map<NodeGroup, SuperGroup>, ngl: set<NodeGroup>, dest: NodeGroup)
    : map<NodeGroup, NodeGroup>
  {
    map g | g in host :: if g in ngl then dest else g
  }

  lemma MergeCoarsens(
    st: GStore, idx: GIndex, ngl: set<NodeGroup>, dsg: SuperGroup, dest: NodeGroup)
    requires Tidy(st, {}) && Exact(st, idx) && dest in ngl
    ensures Coarser(WhereOf(idx), WhereOf(MergedIndex(idx, ngl - {dest}, dsg, dest)),
                    MergeMap(st.top.at, ngl, dest))
  {
    var idx' := MergedIndex(idx, ngl - {dest}, dsg, dest);
    assert WhereOf(idx').Keys == WhereOf(idx).Keys;
  }

  /**
    The combined graph after combine_ngl is the previous one with those groups merged into
    the one returned, which is a biggest of them.
   */
  method CombineCoarsensGraph(fc: FlowChart, gm: GroupManager, ngl: seq<NodeGroup>)
    returns (before: Builder, after: Builder, dest: NodeGroup, ghost f: map<nat, nat>)
    requires gm.Consistent() && ngl != [] && forall ng :: ng in ngl ==> ng in gm.st.top.at
    requires WellFormed(fc) && forall n :: 0 <= n < |fc| ==> n in gm.nid2loc
    modifies gm`path, gm`st, gm`nid2loc, gm.st.top.lists.Keys`groups, gm.st.low.lists.Keys`nodes
    ensures gm.Consistent()
    ensures IsQuotient(before.group2id, before.edges, WhereOf(old(gm.nid2loc)), fc)
    ensures IsQuotient(after.group2id, after.edges, WhereOf(gm.nid2loc), fc)
    ensures dest in ngl && IsBiggest(old(gm.st.low.lists), ngl, dest)
    ensures Relabels(f, before.group2id, after.group2id,
                     MergeMap(old(gm.st.top.at), Elems(ngl), dest))
    ensures after.edges == NumberImage(before.edges, f)
  {
    hide Tidy, Exact, IsQuotient, MergedIndex, Coarser, MergeMap, Relabels, NumberImage, WhereOf, Elems,
         OnlyBlocks, GroupManager.Valid, IsBiggest;
    before := ConsistentGraph(fc, gm);
    ghost var st, idx := gm.st, gm.nid2loc;
    TidyHosts(gm.st);
    after, dest := CombineThenBuild(fc, gm, ngl);
    InElems(ngl, dest);
    f := MergedRelabels(st, idx, Elems(ngl), dest, before.group2id, before.edges,
                        after.group2id, after.edges, fc);
  }

  method CombineThenBuild(fc: FlowChart, gm: GroupManager, ngl: seq<NodeGroup>)
    returns (after: Builder, dest: NodeGroup)
    requires gm.Consistent() && ngl != [] && forall ng :: ng in ngl ==> ng in gm.st.top.at
    requires WellFormed(fc) && forall n :: 0 <= n < |fc| ==> n in gm.nid2loc
    modifies gm`path, gm`st, gm`nid2loc, gm.st.top.lists.Keys`groups, gm.st.low.lists.Keys`nodes
    ensures gm.Consistent() && fresh(after)
    ensures IsQuotient(after.group2id, after.edges, WhereOf(gm.nid2loc), fc)
    ensures dest in ngl && IsBiggest(old(gm.st.low.lists), ngl, dest)
    ensures gm.nid2loc == MergedIndex(old(gm.nid2loc), Elems(ngl) - {dest}, old(gm.st.top.at[dest]), dest)
  {
    hide Tidy, Exact, IsQuotient, MergedIndex, WhereOf, Elems, OnlyBlocks, GroupManager.Valid,
         IsFirstBiggest, Gathered;
    ghost var st, idx := gm.st, gm.nid2loc;
    TidyHosts(gm.st);
    var biggest := gm.CombineNgl(ngl);
    dest := biggest;
    MergedKeys(idx, Elems(ngl) - {dest}, st.top.at[dest], dest);
    after := ConsistentGraph(fc, gm);
  }

  ghost predicate IsBiggest(lists: map<NodeGroup, seq<NodeDef>>, ngl: seq<NodeGroup>, d: NodeGroup) {
    d in lists && forall g :: g in ngl ==> g in lists && |lists[g]| <= |lists[d]|
  }

  lemma MergedRelabels(
    st: GStore, idx: GIndex, ngl: set<NodeGroup>, dest: NodeGroup,
    ids: map<NodeGroup, nat>, edges: set<(nat, nat)>, ids': map<NodeGroup, nat>, edges': set<(nat, nat)>,
    fc: FlowChart)
    returns (f: map<nat, nat>)
    requires Tidy(st, {}) && Exact(st, idx) && dest in ngl && dest in st.top.at
    requires IsQuotient(ids, edges, WhereOf(idx), fc)
    requires IsQuotient(ids', edges', WhereOf(MergedIndex(idx, ngl - {dest}, st.top.at[dest], dest)), fc)
    ensures Relabels(f, ids, ids', MergeMap(st.top.at, ngl, dest)) && edges' == NumberImage(edges, f)
  {
    hide Tidy, Exact, IsQuotient, MergedIndex, Coarser, MergeMap, Relabels, NumberImage, WhereOf;
    var dsg := st.top.at[dest];
    MergeCoarsens(st, idx, ngl, dsg, dest);
    f := QuotientCoarsens(ids, edges, WhereOf(idx), ids', edges',
                          WhereOf(MergedIndex(idx, ngl - {dest}, dsg, dest)),
                          MergeMap(st.top.at, ngl, dest), fc);
  }

  lemma InElems(s: seq<NodeGroup>, x: NodeGroup)
    requires x in s
    ensures x in Elems(s)
  {
  }

  lemma MergedKeys(idx: GIndex, from: set<NodeGroup>, dsg: SuperGroup, dest: NodeGroup)
    ensures MergedIndex(idx, from, dsg, dest).Keys == idx.Keys
  {
  }
}

/**
  The combined graph of algo.hpp: the quotient of a flowchart by the node groups, with
  groups numbered in the order in which the walk over the flowchart meets them.
 */
module CombinedGraph {
  import opened Seqs
  import opened Shelves
  import opened GroupStore
  import opened GroupMan
  import opened FlowCharts

  /** The group of each node id. */
  type Where<!G> = map<int, G>

  ghost predicate Known<G>(where: Where<G>, ids: seq<nat>) {
    forall i :: 0 <= i < |ids| ==> ids[i] in where
  }

  /** The first k blocks and their successors all have a group. */
  ghost predicate Covers<G>(where: Where<G>, fc: FlowChart, k: nat)
    requires k <= |fc|
  {
    forall n :: 0 <= n < k ==> n in where && Known(where, fc[n].succs)
  }

  // ----- numbering ------------------------------------------------------------

  /** The elements of s by first occurrence. */
  function Distinct<G(==)>(s: seq<G>): (r: seq<G>)
    ensures forall x :: x in r ==> x in s
    ensures forall x :: x in s ==> x in r
    ensures NoRepeats(r)
  {
    if s == [] then [] else
      var r, x := Distinct(s[..|s| - 1]), s[|s| - 1];
      assert s == s[..|s| - 1] + [x];
      if x in r then r else r + [x]
  }

  /** ids numbers the elements of `order` by position: 0, 1, ..., |order| - 1. */
  ghost predicate Numbers<G>(ids: map<G, nat>, order: seq<G>) {
    && NoRepeats(order)
    && |ids| == |order|
    && (forall g :: g in ids ==> ids[g] < |order| && order[ids[g]] == g)
    && (forall k :: 0 <= k < |order| ==> order[k] in ids && ids[order[k]] == k)
  }

  lemma NumbersMore<G>(ids: map<G, nat>, order: seq<G>, g: G)
    requires Numbers(ids, order) && g !in ids
    ensures Numbers(ids[g := |ids|], order + [g])
  {
    assert g !in order;
    NoRepeatsConcat(order, [g]);
  }

  /** Looking up a group: a new one gets the next number, a known one keeps its own. */
  lemma NumbersNext<G>(ids: map<G, nat>, seen: seq<G>, g: G)
    requires Numbers(ids, Distinct(seen))
    ensures Numbers(if g in ids then ids else ids[g := |ids|], Distinct(seen + [g]))
  {
    assert (seen + [g])[..|seen|] == seen;
    var order := Distinct(seen);
    assert Distinct(seen + [g]) == if g in order then order else order + [g];
    hide Distinct;
    NumbersMembers(ids, order, g);
    if g !in ids {
      NumbersMore(ids, order, g);
    }
  }

  lemma NumbersMembers<G>(ids: map<G, nat>, order: seq<G>, g: G)
    requires Numbers(ids, order)
    ensures g in ids <==> g in order
  {
  }

  /** The node ids that the walk over the first k blocks looks up, in order. */
  function Encounters(fc: FlowChart, k: nat): seq<int>
    requires k <= |fc|
  {
    if k == 0 then [] else Encounters(fc, k - 1) + [k - 1] + fc[k - 1].succs
  }

  ghost function Groups<G>(where: Where<G>, ids: seq<int>): (gs: seq<G>)
    requires forall i :: 0 <= i < |ids| ==> ids[i] in where
    ensures |gs| == |ids| && forall i :: 0 <= i < |ids| ==> gs[i] == where[ids[i]]
  {
    seq(|ids|, i requires 0 <= i < |ids| => where[ids[i]])
  }

  // ----- edges between groups -------------------------------------------------

  /** The edges that the first i successors of a block in group g make between groups. */
  function BlockEdges<G(==)>(where: Where<G>, g: G, succs: seq<nat>, i: nat): set<(G, G)>
    requires i <= |succs| && Known(where, succs)
  {
    if i == 0 then {}
    else
      var h := where[succs[i - 1]];
      BlockEdges(where, g, succs, i - 1) + if g == h then {} else {(g, h)}
  }

  function GroupEdges<G(==)>(where: Where<G>, fc: FlowChart, k: nat): set<(G, G)>
    requires k <= |fc| && Covers(where, fc, k)
  {
    if k == 0 then {}
    else
      GroupEdges(where, fc, k - 1) +
      BlockEdges(where, where[k - 1], fc[k - 1].succs, |fc[k - 1].succs|)
  }

  lemma {:induction false} BlockEdgesIff<G>(where: Where<G>, g: G, succs: seq<nat>, i: nat, e: (G, G))
    requires i <= |succs| && Known(where, succs)
    ensures e in BlockEdges(where, g, succs, i) <==>
              e.0 == g && e.1 != g && exists j :: 0 <= j < i && where[succs[j]] == e.1
  {
    if i > 0 {
      BlockEdgesIff(where, g, succs, i - 1, e);
      if e.0 == g && e.1 != g && where[succs[i - 1]] != e.1 {
        assert (exists j :: 0 <= j < i && where[succs[j]] == e.1) ==>
               (exists j :: 0 <= j < i - 1 && where[succs[j]] == e.1);
      }
    }
  }

  /** u -> v is an edge out of one of the first k blocks, from group e.0 to group e.1. */
  ghost predicate Witness<G>(where: Where<G>, fc: FlowChart, k: nat, e: (G, G), u: nat, v: nat) {
    u < k && Edge(fc, u, v) && u in where && v in where && where[u] == e.0 && where[v] == e.1
  }

  /** The quotient is exact: its edges are the flowchart edges between different groups. */
  lemma {:induction false} GroupEdgesIff<G>(where: Where<G>, fc: FlowChart, k: nat, e: (G, G))
    requires k <= |fc| && Covers(where, fc, k)
    ensures e in GroupEdges(where, fc, k) <==>
              e.0 != e.1 && exists u: nat, v: nat :: Witness(where, fc, k, e, u, v)
  {
    if k > 0 {
      var n := k - 1;
      GroupEdgesIff(where, fc, n, e);
      BlockEdgesIff(where, where[n], fc[n].succs, |fc[n].succs|, e);
      if e in GroupEdges(where, fc, n) {
        var u: nat, v: nat :| Witness(where, fc, n, e, u, v);
        assert Witness(where, fc, k, e, u, v);
      } else if e in GroupEdges(where, fc, k) {
        var j :| 0 <= j < |fc[n].succs| && where[fc[n].succs[j]] == e.1;
        assert Witness(where, fc, k, e, n, fc[n].succs[j]);
      }
      if u: nat, v: nat :| e.0 != e.1 && Witness(where, fc, k, e, u, v) {
        if u < n {
          assert Witness(where, fc, n, e, u, v);
        } else {
          var j :| 0 <= j < |fc[n].succs| && fc[n].succs[j] == v;
        }
      }
    }
  }

  // ----- the builder ----------------------------------------------------------

  /** Edges between numbers, given the numbers of the groups. */
  ghost function Renamed<G>(ids: map<G, nat>, es: set<(G, G)>): set<(nat, nat)> {
    set e | e in es && e.0 in ids && e.1 in ids :: (ids[e.0], ids[e.1])
  }

  ghost predicate EndsIn<G>(ids: map<G, nat>, es: set<(G, G)>) {
    forall e :: e in es ==> e.0 in ids && e.1 in ids
  }

  lemma RenamedExtends<G>(ids: map<G, nat>, ids': map<G, nat>, es: set<(G, G)>)
    requires EndsIn(ids, es) && forall g :: g in ids ==> g in ids' && ids'[g] == ids[g]
    ensures EndsIn(ids', es) && Renamed(ids', es) == Renamed(ids, es)
  {
  }

  lemma RenamedAdd<G>(ids: map<G, nat>, es: set<(G, G)>, g: G, h: G)
    requires EndsIn(ids, es) && g in ids && h in ids
    ensures EndsIn(ids, es + {(g, h)})
    ensures Renamed(ids, es + {(g, h)}) == Renamed(ids, es) + {(ids[g], ids[h])}
  {
  }

  /** Where the index puts each node. */
  ghost function WhereOf(idx: GIndex): Where<NodeGroup> {
    map n | n in idx :: idx[n].ng
  }

  class Builder {
    var group2id: map<NodeGroup, nat>
    var edges: set<(nat, nat)>
    var nodeCount: nat
    ghost var seen: seq<NodeGroup>     // the groups looked up so far
    ghost var es: set<(NodeGroup, NodeGroup)>

    ghost predicate Valid()
      reads this
    {
      && Numbers(group2id, Distinct(seen))
      && EndsIn(group2id, es) && edges == Renamed(group2id, es)
    }

    constructor ()
      ensures Valid() && seen == [] && es == {} && edges == {} && group2id == map[]
    {
      group2id, edges, nodeCount, seen, es := map[], {}, 0, [], {};
    }

    /** The number of the group of node n, given out on first sight; -1 for an unknown node. */
    method GetGroupid(gm: GroupManager, n: int) returns (id: int)
      requires Valid()
      modifies this`group2id, this`seen
      ensures Valid()
      ensures n !in gm.nid2loc ==> id == -1 && group2id == old(group2id) && seen == old(seen)
      ensures n in gm.nid2loc ==>
                && seen == old(seen) + [gm.nid2loc[n].ng]
                && gm.nid2loc[n].ng in group2id && id == group2id[gm.nid2loc[n].ng]
                && (gm.nid2loc[n].ng !in old(group2id) ==> id == |old(group2id)|)
      ensures forall g :: g in old(group2id) ==> g in group2id && group2id[g] == old(group2id[g])
    {
      if n !in gm.nid2loc {
        return -1;
      }
      hide Numbers, Distinct, Renamed, EndsIn;
      var ng := gm.nid2loc[n].ng;
      NumbersNext(group2id, seen, ng);
      if ng !in group2id {
        id := |group2id|;
        ghost var before := group2id;
        group2id := group2id[ng := id];
        RenamedExtends(before, group2id, es);
      } else {
        id := group2id[ng];
      }
      seen := seen + [ng];
    }

    /** mg->add_edge */
    method AddEdge(ghost g: NodeGroup, ghost h: NodeGroup, a: nat, b: nat)
      requires Valid() && g in group2id && h in group2id && group2id[g] == a && group2id[h] == b
      modifies this`edges, this`es
      ensures Valid() && es == old(es) + {(g, h)}
    {
      RenamedAdd(group2id, es, g, h);
      edges := edges + {(a, b)};
      es := es + {(g, h)};
    }

    /** The body of the inner loop: one successor of a block in group g. */
    method AddSuccessor(gm: GroupManager, groupId: nat, ghost g: NodeGroup, succ: nat)
      returns (ok: bool)
      requires Valid() && g in group2id && group2id[g] == groupId
      modifies this`group2id, this`edges, this`seen, this`es
      ensures Valid() && g in group2id && group2id[g] == groupId
      ensures ok <==> succ in gm.nid2loc
      ensures ok ==>
                var h := gm.nid2loc[succ].ng;
                seen == old(seen) + [h] && es == old(es) + (if g == h then {} else {(g, h)})
    {
      hide Distinct, Renamed, EndsIn;
      var succId := GetGroupid(gm, succ);
      if succId == -1 {
        return false;
      }
      ghost var h := gm.nid2loc[succ].ng;
      SameNumber(group2id, Distinct(seen), g, h);
      if succId != groupId {
        AddEdge(g, h, groupId, succId);
      }
      ok := true;
    }

    /** The body of the outer loop: one block and its successors. */
    method BuildBlock(gm: GroupManager, fc: FlowChart, nid: nat) returns (ok: bool)
      requires Valid() && nid < |fc|
      modifies this`group2id, this`edges, this`seen, this`es
      ensures Valid()
      ensures var where := WhereOf(gm.nid2loc);
              && (ok <==> nid in where && Known(where, fc[nid].succs))
              && (ok ==> seen == old(seen) + [where[nid]] + Groups(where, fc[nid].succs))
              && (ok ==> es == old(es) + BlockEdges(where, where[nid], fc[nid].succs, |fc[nid].succs|))
    {
      hide Numbers, Distinct, Renamed, EndsIn;
      var groupId := GetGroupid(gm, nid);
      if groupId == -1 {
        return false;
      }
      var succs := fc[nid].succs;
      ghost var where, g := WhereOf(gm.nid2loc), gm.nid2loc[nid].ng;
      for i := 0 to |succs|
        invariant Valid() && g in group2id && group2id[g] == groupId
        invariant Known(where, succs[..i])
        invariant seen == old(seen) + [g] + Groups(where, succs[..i])
        invariant es == old(es) + BlockEdges(where, g, succs[..i], i)
      {
        var done := AddSuccessor(gm, groupId, g, succs[i]);
        if !done {
          assert succs[i] !in where;
          return false;
        }
        BlockStep(where, g, succs, i);
      }
      assert succs[..|succs|] == succs;
      ok := true;
    }

    /** fc_to_combined_mg::build on empty maps. */
    method Build(gm: GroupManager, fc: FlowChart) returns (ok: bool)
      requires Valid() && seen == [] && es == {}
      requires gm.Valid() && Closed(gm.path, ListsOf(gm.st))
      modifies this
      ensures Valid() && nodeCount == GroupTotal(gm.path, gm.st.top.lists)
      ensures var where := WhereOf(gm.nid2loc);
              && (ok <==> Covers(where, fc, |fc|))
              && (ok ==> && KnownEncounters(where, fc, |fc|)
                         && seen == Groups(where, Encounters(fc, |fc|))
                         && es == GroupEdges(where, fc, |fc|))
    {
      hide Numbers, Distinct, Renamed, EndsIn, Covers, Known, Encounters;
      hide GroupEdges, BlockEdges, GroupTotal;
      nodeCount := CountGroups(gm);
      ghost var where := WhereOf(gm.nid2loc);
      WalkStart(where, fc);
      for nid := 0 to |fc|
        invariant Valid() && nodeCount == GroupTotal(gm.path, gm.st.top.lists)
        invariant Covers(where, fc, nid) && KnownEncounters(where, fc, nid)
        invariant seen == Groups(where, Encounters(fc, nid))
        invariant es == GroupEdges(where, fc, nid)
      {
        var done := BuildBlock(gm, fc, nid);
        WalkStep(where, fc, nid);
        if !done {
          return false;
        }
      }
      ok := true;
    }
  }

  ghost predicate KnownEncounters<G>(where: Where<G>, fc: FlowChart, k: nat)
    requires k <= |fc|
  {
    forall i :: 0 <= i < |Encounters(fc, k)| ==> Encounters(fc, k)[i] in where
  }

  lemma WalkStart<G>(where: Where<G>, fc: FlowChart)
    ensures Covers(where, fc, 0) && KnownEncounters(where, fc, 0)
    ensures Groups(where, Encounters(fc, 0)) == [] && GroupEdges(where, fc, 0) == {}
  {
  }

  /** One more block is covered exactly when it and its successors have groups. */
  lemma WalkStep<G>(where: Where<G>, fc: FlowChart, k: nat)
    requires k < |fc| && Covers(where, fc, k) && KnownEncounters(where, fc, k)
    ensures Covers(where, fc, |fc|) ==> Covers(where, fc, k + 1)
    ensures Covers(where, fc, k + 1) <==> k in where && Known(where, fc[k].succs)
    ensures Covers(where, fc, k + 1) ==>
              && KnownEncounters(where, fc, k + 1)
              && Groups(where, Encounters(fc, k + 1)) ==
                 Groups(where, Encounters(fc, k)) + [where[k]] + Groups(where, fc[k].succs)
              && GroupEdges(where, fc, k + 1) ==
                 GroupEdges(where, fc, k) + BlockEdges(where, where[k], fc[k].succs, |fc[k].succs|)
  {
    hide BlockEdges;
    if k in where && Known(where, fc[k].succs) {
      var before, now := Encounters(fc, k), Encounters(fc, k + 1);
      assert now == before + [k] + fc[k].succs;
      hide Encounters;
      forall i | 0 <= i < |now|
        ensures now[i] in where
      {
        assert now[i] == if i < |before| then before[i] else if i == |before| then k else fc[k].succs[i - |before| - 1];
      }
    }
  }

  // ----- the size of the graph ------------------------------------------------

  /** The number of groups on the path, each super group counting its own. */
  function GroupTotal<S(==), G>(path: seq<S>, groups: map<S, seq<G>>): nat
    requires forall sg :: sg in path ==> sg in groups
  {
    if path == [] then 0 else GroupTotal(path[..|path| - 1], groups) + |groups[path[|path| - 1]]|
  }

  method CountGroups(gm: GroupManager) returns (count: nat)
    requires gm.Valid() && Closed(gm.path, ListsOf(gm.st))
    ensures count == GroupTotal(gm.path, gm.st.top.lists)
  {
    count := 0;
    for i := 0 to |gm.path|
      invariant count == GroupTotal(gm.path[..i], gm.st.top.lists)
    {
      count := count + gm.path[i].Gcount();
      assert gm.path[..i + 1][..i] == gm.path[..i];
    }
    assert gm.path[..|gm.path|] == gm.path;
  }

  ghost function GroupSet<S, G>(path: seq<S>, groups: map<S, seq<G>>): (r: set<G>)
    requires forall sg :: sg in path ==> sg in groups
    ensures forall sg, g :: sg in path && g in groups[sg] ==> g in r
  {
    if path == [] then {} else
      assert path == path[..|path| - 1] + [path[|path| - 1]];
      GroupSet(path[..|path| - 1], groups) + Elems(groups[path[|path| - 1]])
  }

  lemma {:induction false} GroupSetSize<S, G>(path: seq<S>, groups: map<S, seq<G>>)
    requires forall sg :: sg in path ==> sg in groups
    ensures |GroupSet(path, groups)| <= GroupTotal(path, groups)
  {
    if path != [] {
      var k := |path| - 1;
      GroupSetSize(path[..k], groups);
      var a, b := GroupSet(path[..k], groups), Elems(groups[path[k]]);
      ElemsSize(groups[path[k]]);
      UnionSize(a, b);
    }
  }

  /** The places of the groups: super group by super group, group by group. */
  ghost function Places<S, G>(path: seq<S>, groups: map<S, seq<G>>): set<(nat, nat)>
    requires forall sg :: sg in path ==> sg in groups
  {
    set i: nat, j: nat | i < |path| && j < |groups[path[i]]| :: (i, j)
  }

  lemma {:induction false} RowSize(i: nat, n: nat)
    ensures |set j: nat | j < n :: (i, j)| == n
  {
    if n > 0 {
      RowSize(i, n - 1);
      assert (set j: nat | j < n :: (i, j)) == (set j: nat | j < n - 1 :: (i, j)) + {(i, n - 1)};
    }
  }

  /** The total counts the places of the groups. */
  lemma {:induction false} TotalIsPlaces<S, G>(path: seq<S>, groups: map<S, seq<G>>)
    requires forall sg :: sg in path ==> sg in groups
    ensures GroupTotal(path, groups) == |Places(path, groups)|
  {
    if path != [] {
      var k: nat := |path| - 1;
      TotalIsPlaces(path[..k], groups);
      var n := |groups[path[k]]|;
      var row := set j: nat | j < n :: (k, j);
      RowSize(k, n);
      PlacesSnoc(path, groups);
      assert Places(path[..k], groups) !! row;
    }
  }

  lemma PlacesSnoc<S, G>(path: seq<S>, groups: map<S, seq<G>>)
    requires path != [] && forall sg :: sg in path ==> sg in groups
    ensures var k: nat := |path| - 1;
            Places(path, groups) == Places(path[..k], groups) + set j: nat | j < |groups[path[k]]| :: (k, j)
  {
    var k: nat := |path| - 1;
    var row := set j: nat | j < |groups[path[k]]| :: (k, j);
    forall p: (nat, nat)
      ensures p in Places(path, groups) <==> p in Places(path[..k], groups) || p in row
    {
      assert p.0 < k ==> path[..k][p.0] == path[p.0];
    }
  }

  lemma {:induction false} ElemsCount<T>(s: seq<T>)
    requires NoRepeats(s)
    ensures |Elems(s)| == |s|
  {
    if s != [] {
      ElemsCount(s[1..]);
      assert s == [s[0]] + s[1..] && s[0] !in s[1..];
      assert Elems(s) == {s[0]} + Elems(s[1..]);
    }
  }

  /** Without repeats and shared groups, the total is the number of the groups. */
  lemma {:induction false} TotalIsDistinct<S, G>(path: seq<S>, top: Shelf<S, G>)
    requires NoRepeats(path) && Good(top) && forall sg :: sg in path ==> sg in top.lists
    ensures |GroupSet(path, top.lists)| == GroupTotal(path, top.lists)
    ensures forall g :: g in GroupSet(path, top.lists) ==> g in top.at && top.at[g] in path
  {
    if path != [] {
      var k := |path| - 1;
      assert path == path[..k] + [path[k]] && path[k] !in path[..k];
      TotalIsDistinct(path[..k], top);
      var a, b := GroupSet(path[..k], top.lists), Elems(top.lists[path[k]]);
      ElemsCount(top.lists[path[k]]);
      forall g | g in b
        ensures g !in a
      {
        assert top.at[g] == path[k];
      }
      assert a !! b;
    }
  }

  /** On a tidy structure the graph has a node for every group. */
  lemma TotalIsGroups(st: GStore)
    requires Tidy(st, {}) && Closed(st.path, ListsOf(st))
    ensures GroupTotal(st.path, st.top.lists) == |st.top.at|
  {
    TotalIsDistinct(st.path, st.top);
    var all := GroupSet(st.path, st.top.lists);
    forall g | g in st.top.at
      ensures g in all
    {
      assert st.top.at[g] in st.path && g in st.top.lists[st.top.at[g]];
    }
    assert all == st.top.at.Keys;
  }

  lemma {:induction false} ElemsSize<T>(s: seq<T>)
    ensures |Elems(s)| <= |s|
  {
    if s != [] {
      ElemsSize(s[1..]);
      assert s == [s[0]] + s[1..];
      assert Elems(s) == {s[0]} + Elems(s[1..]);
    }
  }

  lemma UnionSize<T>(a: set<T>, b: set<T>)
    ensures |a + b| <= |a| + |b|
  {
    assert a + b == a + (b - a);
    assert |b - a| + |b * a| == |b| by {
      assert (b - a) + (b * a) == b;
    }
  }

  lemma SubsetSize<T>(a: set<T>, b: set<T>)
    requires a <= b
    ensures |a| <= |b|
  {
    assert a + (b - a) == b;
  }

  /** Every number given out is below the size to which the graph was resized. */
  lemma {:induction false} NumbersFit(b: Builder, gm: GroupManager, fc: FlowChart)
    requires b.Valid() && Closed(gm.path, ListsOf(gm.st))
    requires gm.nid2loc == IndexPath(ListsOf(gm.st), gm.path)
    requires KnownEncounters(WhereOf(gm.nid2loc), fc, |fc|)
    requires b.seen == Groups(WhereOf(gm.nid2loc), Encounters(fc, |fc|))
    requires b.nodeCount == GroupTotal(gm.path, gm.st.top.lists)
    ensures |b.group2id| <= b.nodeCount
    ensures forall e :: e in b.edges ==> e.0 < b.nodeCount && e.1 < b.nodeCount
  {
    var all := GroupSet(gm.path, gm.st.top.lists);
    forall g | g in b.group2id
      ensures g in all
    {
      assert g in b.seen;
      var i :| 0 <= i < |b.seen| && b.seen[i] == g;
      var n := Encounters(fc, |fc|)[i];
      IndexPathAt(ListsOf(gm.st), gm.path, n);
    }
    SubsetSize(b.group2id.Keys, all);
    GroupSetSize(gm.path, gm.st.top.lists);
    assert |b.group2id.Keys| == |b.group2id|;
  }

  lemma SameNumber<G>(ids: map<G, nat>, order: seq<G>, g: G, h: G)
    requires Numbers(ids, order) && g in ids && h in ids
    ensures ids[g] == ids[h] <==> g == h
  {
  }

  lemma BlockStep<G>(where: Where<G>, g: G, succs: seq<nat>, i: nat)
    requires i < |succs| && Known(where, succs[..i]) && succs[i] in where
    ensures Known(where, succs[..i + 1])
    ensures Groups(where, succs[..i + 1]) == Groups(where, succs[..i]) + [where[succs[i]]]
    ensures BlockEdges(where, g, succs[..i + 1], i + 1) ==
            BlockEdges(where, g, succs[..i], i) +
            (if g == where[succs[i]] then {} else {(g, where[succs[i]])})
  {
    assert succs[..i + 1] == succs[..i] + [succs[i]];
    BlockEdgesAgree(where, g, succs[..i + 1], succs[..i], i);
  }

  lemma {:induction false} BlockEdgesAgree<G>(where: Where<G>, g: G, s: seq<nat>, t: seq<nat>, i: nat)
    requires i <= |t| && t <= s && Known(where, s) && Known(where, t)
    ensures BlockEdges(where, g, s, i) == BlockEdges(where, g, t, i)
  {
    if i > 0 {
      BlockEdgesAgree(where, g, s, t, i - 1);
    }
  }
}

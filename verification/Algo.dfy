/** Building a group manager, as algo.cpp does. */
module Algo {
  import opened GroupStore
  import opened GroupMan
  import opened FlowCharts
  import opened Numerals

  type View = seq<seq<seq<NodeDef>>>

  /** The path of the manager holds, list by list, the nodes of v. */
  ghost predicate Shows(path: seq<SuperGroup>, t: Lists<SuperGroup, NodeGroup>, v: View) {
    && |path| == |v|
    && forall i :: 0 <= i < |v| ==> ShowsGroup(path[i], t, v[i])
  }

  ghost predicate ShowsGroup(sg: SuperGroup, t: Lists<SuperGroup, NodeGroup>, v: seq<seq<NodeDef>>) {
    && sg in t.groups && |t.groups[sg]| == |v|
    && forall j :: 0 <= j < |v| ==> t.groups[sg][j] in t.nodes && t.nodes[t.groups[sg][j]] == v[j]
  }

  // ----- sanitize_groupman ----------------------------------------------------

  /** The blocks among the first k that are not registered, each in a group of its own. */
  function Orphans(fc: FlowChart, k: nat, known: map<int, NodeDef>): (r: seq<seq<NodeDef>>)
    requires k <= |fc|
  {
    if k == 0 then []
    else if k - 1 in known then Orphans(fc, k - 1, known)
    else Orphans(fc, k - 1, known) + [[BlockNode(fc, k - 1)]]
  }

  lemma {:induction false} OrphanIn(fc: FlowChart, k: nat, known: map<int, NodeDef>, n: nat)
    requires n < k <= |fc| && n !in known
    ensures [BlockNode(fc, n)] in Orphans(fc, k, known)
  {
    if n < k - 1 {
      OrphanIn(fc, k - 1, known, n);
    }
  }

  /** The lists with a super group and its node groups added. */
  ghost function Extended(
    t: Lists<SuperGroup, NodeGroup>, sg: SuperGroup, gs: seq<NodeGroup>,
    nodes: map<NodeGroup, seq<NodeDef>>): Lists<SuperGroup, NodeGroup>
  {
    Lists(t.groups[sg := gs], t.nodes + nodes)
  }

  /** A super group under construction: its groups, all new, hold the nodes of v. */
  ghost predicate Building(
    sg: SuperGroup, nodes: map<NodeGroup, seq<NodeDef>>, v: seq<seq<NodeDef>>)
    reads sg, nodes.Keys
  {
    && sg.live && |sg.groups| == |v|
    && (forall j :: 0 <= j < |v| ==> sg.groups[j] in nodes && nodes[sg.groups[j]] == v[j])
    && (forall g :: g in nodes ==> g.live && g.nodes == nodes[g])
  }

  lemma ShowsMore(
    path: seq<SuperGroup>, t: Lists<SuperGroup, NodeGroup>, v: View, sg: SuperGroup,
    gs: seq<NodeGroup>, nodes: map<NodeGroup, seq<NodeDef>>, w: seq<seq<NodeDef>>)
    requires Shows(path, t, v) && sg !in t.groups
    requires forall g :: g in nodes ==> g !in t.nodes
    requires |gs| == |w| && forall j :: 0 <= j < |w| ==> gs[j] in nodes && nodes[gs[j]] == w[j]
    ensures Shows(path + [sg], Extended(t, sg, gs, nodes), v + [w])
  {
    var t' := Extended(t, sg, gs, nodes);
    forall i | 0 <= i < |v|
      ensures ShowsGroup(path[i], t', v[i])
    {
      assert ShowsGroup(path[i], t, v[i]);
    }
    assert ShowsGroup(sg, t', w);
  }

  /** Appending a finished super group to the path. */
  method Attach(gm: GroupManager, sg: SuperGroup, ghost nodes: map<NodeGroup, seq<NodeDef>>,
                ghost v: View, ghost w: seq<seq<NodeDef>>)
    requires gm.Valid() && Building(sg, nodes, w) && sg !in gm.st.top.lists
    requires forall g :: g in nodes ==> g !in gm.st.low.lists
    requires Shows(gm.path, ListsOf(gm.st), v)
    modifies gm`path, gm`st
    ensures gm.Valid() && Shows(gm.path, ListsOf(gm.st), v + [w])
    ensures gm.path == old(gm.path) + [sg]
    ensures gm.st.top.lists.Keys == old(gm.st.top.lists.Keys) + {sg}
    ensures gm.st.low.lists.Keys == old(gm.st.low.lists.Keys) + nodes.Keys
  {
    ShowsMore(gm.path, ListsOf(gm.st), v, sg, sg.groups, nodes, w);
    gm.path := gm.path + [sg];
    ghost var t := Extended(ListsOf(gm.st), sg, sg.groups, nodes);
    gm.st := Store(gm.path, gm.st.top.(lists := t.groups), gm.st.low.(lists := t.nodes));
  }

  /** One missing block in a group of its own. */
  ghost predicate IsOrphan(fc: FlowChart, k: nat, known: map<int, NodeDef>, g: seq<NodeDef>) {
    && |g| == 1 && 0 <= g[0].nid < k && g[0].nid !in known
    && HasBlock(fc, g[0].nid, g[0].start, g[0].end)
  }

  /** The orphans are missing blocks, each in a group of its own. */
  lemma {:induction false} OrphanAt(fc: FlowChart, k: nat, known: map<int, NodeDef>, j: nat)
    requires k <= |fc| && j < |Orphans(fc, k, known)|
    ensures IsOrphan(fc, k, known, Orphans(fc, k, known)[j])
  {
    if k > 0 && j < |Orphans(fc, k - 1, known)| {
      OrphanAt(fc, k - 1, known, j);
    }
  }

  /** They come in ascending order. */
  lemma {:induction false} OrphansAscend(fc: FlowChart, k: nat, known: map<int, NodeDef>, i: nat, j: nat)
    requires k <= |fc| && i < j < |Orphans(fc, k, known)|
    ensures var r := Orphans(fc, k, known);
            |r[i]| == |r[j]| == 1 && r[i][0].nid < r[j][0].nid
  {
    OrphanAt(fc, k, known, i);
    OrphanAt(fc, k, known, j);
    if j < |Orphans(fc, k - 1, known)| {
      OrphansAscend(fc, k - 1, known, i, j);
    } else {
      OrphanAt(fc, k - 1, known, i);
    }
  }

  /** And they are all of them. */
  lemma OrphansComplete(fc: FlowChart, known: map<int, NodeDef>, n: nat) returns (j: nat)
    requires n < |fc| && n !in known
    ensures j < |Orphans(fc, |fc|, known)| && Orphans(fc, |fc|, known)[j] == [BlockNode(fc, n)]
  {
    OrphanIn(fc, |fc|, known, n);
    j :| 0 <= j < |Orphans(fc, |fc|, known)| && Orphans(fc, |fc|, known)[j] == [BlockNode(fc, n)];
  }

  /** Every node placed is the block of its number, with its addresses. */
  ghost predicate PlacesBlocks(fc: FlowChart, idx: GIndex) {
    forall n :: n in idx ==> idx[n].nd.nid == n && HasBlock(fc, n, idx[n].nd.start, idx[n].nd.end)
  }

  /** A new group with one node, added to a super group under construction. */
  method AddSingleton(sg: SuperGroup, ghost nodes: map<NodeGroup, seq<NodeDef>>,
                      ghost v: seq<seq<NodeDef>>, nd: NodeDef)
    returns (ghost nodes': map<NodeGroup, seq<NodeDef>>)
    requires Building(sg, nodes, v)
    modifies sg`groups
    ensures Building(sg, nodes', v + [[nd]])
    ensures forall g :: g in nodes' ==> g in nodes || fresh(g)
  {
    var ng := new NodeGroup();
    ng.AddNode(nd);
    sg.AddNodegroup(ng);
    nodes' := nodes[ng := [nd]];
  }

  /** The loop over the blocks. */
  method CollectOrphans(fc: FlowChart, known: map<int, NodeDef>)
    returns (missing: SuperGroup, ghost nodes: map<NodeGroup, seq<NodeDef>>)
    ensures fresh(missing) && Building(missing, nodes, Orphans(fc, |fc|, known))
    ensures forall g :: g in nodes ==> fresh(g)
  {
    missing := new SuperGroup();
    nodes := map[];
    for n := 0 to |fc|
      invariant fresh(missing) && Building(missing, nodes, Orphans(fc, n, known))
      invariant forall g :: g in nodes ==> fresh(g)
    {
      if n !in known {
        nodes := AddSingleton(missing, nodes, Orphans(fc, n, known), BlockNode(fc, n));
      }
    }
  }

  method SanitizeGroupman(gm: GroupManager, fc: FlowChart, ghost v: View)
    requires gm.Valid() && Shows(gm.path, ListsOf(gm.st), v)
    modifies gm`path, gm`st
    ensures gm.Valid()
    ensures var orphans := Orphans(fc, |fc|, gm.allNodes);
            if orphans == []
            then gm.path == old(gm.path) && gm.st == old(gm.st)
            else Shows(gm.path, ListsOf(gm.st), v + [orphans]) &&
                 exists sg :: gm.path == old(gm.path) + [sg] && sg.id == sg.name == "orphan_nodes" && sg.isSynthetic
  {
    hide Shows, ShowsGroup, Orphans;
    var missing;
    ghost var nodes;
    missing, nodes := CollectOrphans(fc, gm.allNodes);
    if missing.Gcount() != 0 {
      missing.name, missing.id := "orphan_nodes", "orphan_nodes";
      missing.isSynthetic := true;
      Attach(gm, missing, nodes, v, Orphans(fc, |fc|, gm.allNodes));
    }
  }

  // ----- build_groupman_from_fc -----------------------------------------------

  /** The nodes of a structure of singletons, in path order. */
  ghost function ViewOf(path: seq<SuperGroup>, t: Lists<SuperGroup, NodeGroup>): View
    requires Closed(path, t)
  {
    seq(|path|, i requires 0 <= i < |path| =>
      seq(|t.groups[path[i]]|, j requires 0 <= j < |t.groups[path[i]]| =>
        t.nodes[t.groups[path[i]][j]]))
  }

  lemma {:induction false} NoOrphans(fc: FlowChart, k: nat, known: map<int, NodeDef>)
    requires k <= |fc| && forall n :: 0 <= n < k ==> n in known
    ensures Orphans(fc, k, known) == []
  {
    if k > 0 {
      NoOrphans(fc, k - 1, known);
    }
  }

  /** Without sanitize the source leaves the index as it was. */
  method BuildGroupmanFromFc(fc: FlowChart, gm: GroupManager, sanitize: bool)
    ensures forall n :: n in gm.allNodes ==>
              gm.allNodes[n].nid == n && HasBlock(fc, n, gm.allNodes[n].start, gm.allNodes[n].end)
    ensures forall n :: 0 <= n < |fc| ==> n in gm.allNodes
    modifies gm`path, gm`similar, gm`allNodes, gm`st, gm`sim, gm`nid2loc
    ensures gm.Valid() && Tidy(gm.st, {}) && AllSingle(gm.st)
    ensures gm.allNodes == GroupManager.BlockNodes(fc, |fc|)
    ensures sanitize ==> gm.Consistent() && NodeMap(gm.nid2loc) == gm.allNodes
    ensures sanitize ==> PlacesBlocks(fc, gm.nid2loc) && forall n :: 0 <= n < |fc| ==> n in gm.nid2loc
    ensures !sanitize ==> gm.nid2loc == old(gm.nid2loc)
    ensures |gm.path| == |fc| && Numbered(gm.path, |fc|)
    ensures sanitize ==> StandInOrder(gm.path, gm.nid2loc, |fc|)
    ensures forall s :: s in gm.st.top.lists ==> fresh(s)
    ensures forall g :: g in gm.st.low.lists ==> fresh(g)
  {
    hide Tidy, Exact, AllSingle, Singletons, Numbered, StandInOrder, PlacesBlocks;
    ghost var idx := gm.PopulateFromFc(fc);
    SingletonsFacts(gm.st, idx, gm.allNodes);
    if sanitize {
      SanitizeSingles(gm, fc, idx);
    }
  }

  /** With every block registered there are no orphans. */
  method SanitizeSingles(gm: GroupManager, fc: FlowChart, ghost idx: GIndex)
    requires gm.Valid() && Tidy(gm.st, {}) && Exact(gm.st, idx)
    requires gm.allNodes == GroupManager.BlockNodes(fc, |fc|) && NodeMap(idx) == gm.allNodes
    modifies gm`path, gm`st, gm`nid2loc
    ensures gm.Consistent() && gm.nid2loc == idx
    ensures gm.path == old(gm.path) && gm.st == old(gm.st)
    ensures PlacesBlocks(fc, gm.nid2loc) && forall n :: 0 <= n < |fc| ==> n in gm.nid2loc
  {
    hide Tidy, Exact, PlacesBlocks, HasBlock;
    TidyIsClosed(gm.st, {});
    NoOrphans(fc, |fc|, gm.allNodes);
    SanitizeGroupman(gm, fc, ViewOf(gm.path, ListsOf(gm.st)));
    gm.Reindex(idx);
    MapPlaces(fc, gm.nid2loc);
  }

  lemma MapPlaces(fc: FlowChart, idx: GIndex)
    requires NodeMap(idx) == GroupManager.BlockNodes(fc, |fc|)
    ensures PlacesBlocks(fc, idx) && forall n :: 0 <= n < |fc| ==> n in idx
  {
    var all := GroupManager.BlockNodes(fc, |fc|);
    assert NodeMap(idx).Keys == idx.Keys;
    forall n | n in idx
      ensures idx[n].nd.nid == n && HasBlock(fc, n, idx[n].nd.start, idx[n].nd.end)
    {
      assert n in NodeMap(idx) && NodeMap(idx)[n] == all[n];
    }
    forall n | 0 <= n < |fc|
      ensures n in idx
    {
      assert n in all;
      assert n in NodeMap(idx);
    }
  }

  // ----- build_groupman_from_3dvec --------------------------------------------

  predicate InRange(fc: FlowChart, ids: seq<int>) {
    forall k :: 0 <= k < |ids| ==> 0 <= ids[k] < |fc|
  }

  predicate InRange2(fc: FlowChart, vec: seq<seq<int>>) {
    forall j :: 0 <= j < |vec| ==> InRange(fc, vec[j])
  }

  predicate InRange3(fc: FlowChart, vec: seq<seq<seq<int>>>) {
    forall i :: 0 <= i < |vec| ==> InRange2(fc, vec[i])
  }

  function Nodes1(fc: FlowChart, ids: seq<int>): (r: seq<NodeDef>)
    requires InRange(fc, ids)
    ensures |r| == |ids| && forall k :: 0 <= k < |ids| ==> r[k] == BlockNode(fc, ids[k])
  {
    seq(|ids|, k requires 0 <= k < |ids| => BlockNode(fc, ids[k]))
  }

  function Nodes2(fc: FlowChart, vec: seq<seq<int>>): (r: seq<seq<NodeDef>>)
    requires InRange2(fc, vec)
    ensures |r| == |vec| && forall j :: 0 <= j < |vec| ==> r[j] == Nodes1(fc, vec[j])
  {
    seq(|vec|, j requires 0 <= j < |vec| => Nodes1(fc, vec[j]))
  }

  function Nodes3(fc: FlowChart, vec: seq<seq<seq<int>>>): (r: View)
    requires InRange3(fc, vec)
    ensures |r| == |vec| && forall i :: 0 <= i < |vec| ==> r[i] == Nodes2(fc, vec[i])
  {
    seq(|vec|, i requires 0 <= i < |vec| => Nodes2(fc, vec[i]))
  }

  /** n occurs somewhere in the vector. */
  ghost predicate Occurs2(vec: seq<seq<int>>, n: int) {
    exists j :: 0 <= j < |vec| && n in vec[j]
  }

  ghost predicate Occurs3(vec: seq<seq<seq<int>>>, n: int) {
    exists i :: 0 <= i < |vec| && Occurs2(vec[i], n)
  }

  /** Every registered node is the block of its number. */
  ghost predicate Registered(fc: FlowChart, nds: map<int, NodeDef>) {
    forall n :: n in nds ==> 0 <= n < |fc| && nds[n] == BlockNode(fc, n)
  }

  method BuildNodegroup(gm: GroupManager, fc: FlowChart, ids: seq<int>) returns (ng: NodeGroup)
    requires InRange(fc, ids) && Registered(fc, gm.allNodes)
    modifies gm`allNodes
    ensures Registered(fc, gm.allNodes)
    ensures fresh(ng) && ng.live && ng.nodes == Nodes1(fc, ids)
    ensures forall n :: n in gm.allNodes <==> n in old(gm.allNodes) || n in ids
  {
    ng := new NodeGroup();
    for k := 0 to |ids|
      invariant ng.live && ng.nodes == Nodes1(fc, ids)[..k] && Registered(fc, gm.allNodes)
      invariant forall n :: n in gm.allNodes <==> n in old(gm.allNodes) || n in ids[..k]
    {
      var nd := BlockNode(fc, ids[k]);
      ng.AddNode(nd);
      gm.allNodes := gm.allNodes[ids[k] := nd];
      assert ids[..k + 1] == ids[..k] + [ids[k]];
    }
    assert ids[..|ids|] == ids;
  }

  method BuildSupergroup(gm: GroupManager, fc: FlowChart, vec: seq<seq<int>>, number: int)
    returns (sg: SuperGroup, ghost nodes: map<NodeGroup, seq<NodeDef>>)
    requires InRange2(fc, vec) && Registered(fc, gm.allNodes)
    modifies gm`allNodes
    ensures Registered(fc, gm.allNodes)
    ensures fresh(sg) && Building(sg, nodes, Nodes2(fc, vec))
    ensures sg.id == "ID_" + Decimal(number) && sg.name == "SG_" + Decimal(number)
    ensures forall g :: g in nodes ==> fresh(g)
    ensures forall n :: n in gm.allNodes <==> n in old(gm.allNodes) || Occurs2(vec, n)
  {
    hide Decimal, Registered;
    sg := new SuperGroup();
    sg.id, sg.name := "ID_" + Decimal(number), "SG_" + Decimal(number);
    nodes := map[];
    for j := 0 to |vec|
      invariant fresh(sg) && Building(sg, nodes, Nodes2(fc, vec)[..j]) && Registered(fc, gm.allNodes)
      invariant sg.id == "ID_" + Decimal(number) && sg.name == "SG_" + Decimal(number)
      invariant forall g :: g in nodes ==> fresh(g)
      invariant forall n :: n in gm.allNodes <==> n in old(gm.allNodes) || Occurs2(vec[..j], n)
    {
      var ng := BuildNodegroup(gm, fc, vec[j]);
      sg.AddNodegroup(ng);
      nodes := nodes[ng := ng.nodes];
      Occurs2Snoc(vec, j);
    }
    assert vec[..|vec|] == vec && Nodes2(fc, vec)[..|vec|] == Nodes2(fc, vec);
  }

  lemma Occurs2Snoc(vec: seq<seq<int>>, j: nat)
    requires j < |vec|
    ensures forall n :: Occurs2(vec[..j + 1], n) <==> Occurs2(vec[..j], n) || n in vec[j]
  {
    forall n
      ensures Occurs2(vec[..j + 1], n) <==> Occurs2(vec[..j], n) || n in vec[j]
    {
      if n in vec[j] {
        assert vec[..j + 1][j] == vec[j];
      }
      if Occurs2(vec[..j], n) {
        var k :| 0 <= k < j && n in vec[..j][k];
        assert n in vec[..j + 1][k];
      }
      if Occurs2(vec[..j + 1], n) && n !in vec[j] {
        var k :| 0 <= k < j + 1 && n in vec[..j + 1][k];
        assert n in vec[..j][k];
      }
    }
  }

  lemma Occurs3Snoc(vec: seq<seq<seq<int>>>, i: nat)
    requires i < |vec|
    ensures forall n :: Occurs3(vec[..i + 1], n) <==> Occurs3(vec[..i], n) || Occurs2(vec[i], n)
  {
    forall n
      ensures Occurs3(vec[..i + 1], n) <==> Occurs3(vec[..i], n) || Occurs2(vec[i], n)
    {
      if Occurs2(vec[i], n) {
        assert vec[..i + 1][i] == vec[i];
      }
      if Occurs3(vec[..i], n) {
        var k :| 0 <= k < i && Occurs2(vec[..i][k], n);
        assert Occurs2(vec[..i + 1][k], n);
      }
      if Occurs3(vec[..i + 1], n) && !Occurs2(vec[i], n) {
        var k :| 0 <= k < i + 1 && Occurs2(vec[..i + 1][k], n);
        assert Occurs2(vec[..i][k], n);
      }
    }
  }

  /** The loops of build_groupman_from_3dvec. */
  method PopulateFrom3dvec(fc: FlowChart, vec: seq<seq<seq<int>>>, gm: GroupManager)
    requires InRange3(fc, vec)
    modifies gm`path, gm`similar, gm`allNodes, gm`st, gm`sim
    ensures gm.Valid() && Shows(gm.path, ListsOf(gm.st), Nodes3(fc, vec))
    ensures Registered(fc, gm.allNodes)
    ensures forall n :: n in gm.allNodes <==> Occurs3(vec, n)
    ensures |gm.path| == |vec| && Numbered(gm.path, |vec|)
  {
    hide Building, Occurs2, Occurs3, Nodes2, Shows, Decimal, Numbered;
    gm.Clear();
    ShowsNothing();
    NothingNumbered(map[]);
    for i := 0 to |vec|
      invariant gm.Valid() && Shows(gm.path, ListsOf(gm.st), Nodes3(fc, vec)[..i])
      invariant Registered(fc, gm.allNodes)
      invariant forall n :: n in gm.allNodes <==> Occurs3(vec[..i], n)
      invariant |gm.path| == i && Numbered(gm.path, i)
    {
      ghost var before := gm.path;
      var sg, nodes := BuildSupergroup(gm, fc, vec[i], i);
      Attach(gm, sg, nodes, Nodes3(fc, vec)[..i], Nodes2(fc, vec[i]));
      Occurs3Snoc(vec, i);
      OneMoreNumbered(before, sg);
      assert Nodes3(fc, vec)[..i + 1] == Nodes3(fc, vec)[..i] + [Nodes2(fc, vec[i])];
    }
    assert vec[..|vec|] == vec && Nodes3(fc, vec)[..|vec|] == Nodes3(fc, vec);
  }

  lemma OneMoreNumbered(path: seq<SuperGroup>, sg: SuperGroup)
    requires Numbered(path, |path|)
    requires sg.id == "ID_" + Decimal(|path|) && sg.name == "SG_" + Decimal(|path|)
    ensures Numbered(path + [sg], |path| + 1)
  {
    hide Decimal;
  }

  lemma ShowsNothing()
    ensures Shows([], ListsOf(EmptyStore()), [])
    ensures forall n :: !Occurs3([], n)
  {
  }

  lemma ShowsClosed(path: seq<SuperGroup>, t: Lists<SuperGroup, NodeGroup>, v: View)
    requires Shows(path, t, v)
    ensures Closed(path, t)
  {
    forall sg | sg in path
      ensures sg in t.groups && forall ng :: ng in t.groups[sg] ==> ng in t.nodes
    {
      var i :| 0 <= i < |path| && path[i] == sg;
      assert ShowsGroup(path[i], t, v[i]);
    }
  }

  /** A node shown by a structure is found by the index built from it. */
  lemma ShownIsIndexed(
    path: seq<SuperGroup>, t: Lists<SuperGroup, NodeGroup>, v: View, i: nat, j: nat, nd: NodeDef)
    requires Shows(path, t, v) && Closed(path, t)
    requires i < |v| && j < |v[i]| && nd in v[i][j]
    ensures nd.nid in IndexPath(t, path)
  {
    IndexPathAt(t, path, nd.nid);
    assert ShowsGroup(path[i], t, v[i]);
    assert path[i] in path && t.groups[path[i]][j] in t.groups[path[i]];
  }

  lemma VectorIsIndexed(
    path: seq<SuperGroup>, t: Lists<SuperGroup, NodeGroup>, v: View,
    fc: FlowChart, vec: seq<seq<seq<int>>>, n: nat)
    requires InRange3(fc, vec) && Nodes3(fc, vec) <= v && Shows(path, t, v) && Closed(path, t)
    requires Occurs3(vec, n) && n < |fc|
    ensures n in IndexPath(t, path)
  {
    var i :| 0 <= i < |vec| && Occurs2(vec[i], n);
    var j :| 0 <= j < |vec[i]| && n in vec[i][j];
    var k :| 0 <= k < |vec[i][j]| && vec[i][j][k] == n;
    assert v[i] == Nodes2(fc, vec[i]) && v[i][j] == Nodes1(fc, vec[i][j]);
    assert v[i][j][k] == BlockNode(fc, n);
    ShownIsIndexed(path, t, v, i, j, BlockNode(fc, n));
  }

  lemma OrphanIsIndexed(
    path: seq<SuperGroup>, t: Lists<SuperGroup, NodeGroup>, v: View,
    fc: FlowChart, known: map<int, NodeDef>, n: nat)
    requires Shows(path, t, v + [Orphans(fc, |fc|, known)]) && Closed(path, t)
    requires n < |fc| && n !in known
    ensures n in IndexPath(t, path)
  {
    OrphanIn(fc, |fc|, known, n);
    var orphans := Orphans(fc, |fc|, known);
    var j :| 0 <= j < |orphans| && orphans[j] == [BlockNode(fc, n)];
    ShownIsIndexed(path, t, v + [orphans], |v|, j, BlockNode(fc, n));
  }

  /** What the manager shows after sanitising. */
  ghost function Sanitized(fc: FlowChart, v: View, known: map<int, NodeDef>): View {
    var orphans := Orphans(fc, |fc|, known);
    if orphans == [] then v else v + [orphans]
  }

  /** A block is in the vector, or else an orphan; either way the rebuilt index has it. */
  lemma AllIndexed(
    path: seq<SuperGroup>, t: Lists<SuperGroup, NodeGroup>, v: View,
    fc: FlowChart, vec: seq<seq<seq<int>>>, known: map<int, NodeDef>)
    requires InRange3(fc, vec) && v == Nodes3(fc, vec)
    requires Shows(path, t, Sanitized(fc, v, known)) && Closed(path, t)
    requires forall n :: n in known <==> Occurs3(vec, n)
    ensures forall n :: 0 <= n < |fc| ==> n in IndexPath(t, path)
  {
    hide Shows, Closed, Nodes3, Occurs3, IndexPath;
    forall n | 0 <= n < |fc|
      ensures n in IndexPath(t, path)
    {
      if n in known {
        VectorIsIndexed(path, t, Sanitized(fc, v, known), fc, vec, n);
      } else {
        OrphanIn(fc, |fc|, known, n);
        OrphanIsIndexed(path, t, v, fc, known, n);
      }
    }
  }

  /** Every node of the view is a block of the flowchart. */
  ghost predicate OfBlocks(fc: FlowChart, v: View) {
    forall i, j, nd: NodeDef :: 0 <= i < |v| && 0 <= j < |v[i]| && nd in v[i][j] ==> HasBlock(fc, nd.nid, nd.start, nd.end)
  }

  lemma VectorOfBlocks(fc: FlowChart, vec: seq<seq<seq<int>>>, known: map<int, NodeDef>)
    requires InRange3(fc, vec)
    ensures OfBlocks(fc, Sanitized(fc, Nodes3(fc, vec), known))
  {
    hide Orphans;
    var v, w := Nodes3(fc, vec), Sanitized(fc, Nodes3(fc, vec), known);
    forall i, j, nd: NodeDef | 0 <= i < |w| && 0 <= j < |w[i]| && nd in w[i][j]
      ensures HasBlock(fc, nd.nid, nd.start, nd.end)
    {
      if i < |v| {
        assert w[i] == Nodes2(fc, vec[i]) && w[i][j] == Nodes1(fc, vec[i][j]);
        var k :| 0 <= k < |w[i][j]| && w[i][j][k] == nd;
        assert InRange2(fc, vec[i]) && InRange(fc, vec[i][j]);
      } else {
        assert w[i] == Orphans(fc, |fc|, known);
        OrphanAt(fc, |fc|, known, j);
        assert nd == w[i][j][0];
      }
    }
  }

  /** What the index of a structure places is among the nodes shown. */
  lemma IndexedOfBlocks(
    path: seq<SuperGroup>, t: Lists<SuperGroup, NodeGroup>, v: View, fc: FlowChart, n: int)
    requires Shows(path, t, v) && Closed(path, t) && OfBlocks(fc, v) && n in IndexPath(t, path)
    ensures var nd := IndexPath(t, path)[n].nd;
            nd.nid == n && HasBlock(fc, n, nd.start, nd.end)
  {
    hide IndexPath;
    IndexPathAt(t, path, n);
    var l := IndexPath(t, path)[n];
    var i :| 0 <= i < |path| && path[i] == l.sg;
    assert ShowsGroup(path[i], t, v[i]);
    var j :| 0 <= j < |t.groups[l.sg]| && t.groups[l.sg][j] == l.ng;
    assert l.nd in v[i][j];
  }

  /** The sanitised structure, indexed, places every block of the flowchart. */
  method BuildGroupmanFrom3dvec(
    fc: FlowChart, vec: seq<seq<seq<int>>>, gm: GroupManager, sanitize: bool)
    requires InRange3(fc, vec)
    modifies gm`path, gm`similar, gm`allNodes, gm`st, gm`sim, gm`nid2loc
    ensures gm.Valid() && Registered(fc, gm.allNodes)
    ensures forall n :: n in gm.allNodes <==> Occurs3(vec, n)
    ensures !sanitize ==> gm.nid2loc == old(gm.nid2loc) && Shows(gm.path, ListsOf(gm.st), Nodes3(fc, vec))
    ensures sanitize ==>
              && Shows(gm.path, ListsOf(gm.st), Sanitized(fc, Nodes3(fc, vec), gm.allNodes))
              && Closed(gm.path, ListsOf(gm.st))
              && gm.nid2loc == IndexPath(ListsOf(gm.st), gm.path)
              && forall n :: 0 <= n < |fc| ==> n in gm.nid2loc
    ensures forall n :: n in gm.allNodes ==>
              gm.allNodes[n].nid == n && HasBlock(fc, n, gm.allNodes[n].start, gm.allNodes[n].end)
    ensures sanitize ==> PlacesBlocks(fc, gm.nid2loc)
    ensures |vec| <= |gm.path| <= |vec| + 1 && Numbered(gm.path, |vec|)
  {
    hide Shows, Occurs3, Nodes3, Closed, IndexPath, OfBlocks, Decimal;
    PopulateFrom3dvec(fc, vec, gm);
    if sanitize {
      ghost var v := Nodes3(fc, vec);
      SanitizeGroupman(gm, fc, v);
      ghost var t, v' := ListsOf(gm.st), Sanitized(fc, v, gm.allNodes);
      ShowsClosed(gm.path, t, v');
      gm.InitializeLookups();
      AllIndexed(gm.path, t, v, fc, vec, gm.allNodes);
      VectorOfBlocks(fc, vec, gm.allNodes);
      forall n | n in gm.nid2loc
        ensures gm.nid2loc[n].nd.nid == n
        ensures HasBlock(fc, n, gm.nid2loc[n].nd.start, gm.nid2loc[n].nd.end)
      {
        IndexedOfBlocks(gm.path, t, v', fc, n);
      }
    }
  }

  /**
    Resetting keeps the blocks named in the vector and no others: orphans that sanitising
    placed in the structure were never registered.
   */
  method ResetAfter3dvec(fc: FlowChart, vec: seq<seq<seq<int>>>)
    returns (gm: GroupManager, ghost before: GIndex)
    requires InRange3(fc, vec)
    ensures gm.Consistent() && forall n :: 0 <= n < |fc| ==> n in before
    ensures forall n :: n in gm.nid2loc <==> Occurs3(vec, n)
  {
    hide Tidy, Exact, Shows, Occurs3, Nodes3, IndexPath, Closed;
    gm := new GroupManager();
    BuildGroupmanFrom3dvec(fc, vec, gm, true);
    before := gm.nid2loc;
    gm.ResetGroupping();
    assert NodeMap(gm.nid2loc).Keys == gm.nid2loc.Keys;
  }

  /** One block, named nowhere: placed by sanitising, gone after a reset. */
  method OrphanLost() returns (gm: GroupManager, ghost before: GIndex)
    ensures gm.Consistent() && 0 in before && 0 !in gm.nid2loc
  {
    hide Tidy, Exact;
    gm, before := ResetAfter3dvec([Block(0, 1, [])], []);
  }
}

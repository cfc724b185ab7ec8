/**
  The group manager of groupman.cpp and the edit operations of plugin.cpp on it.
  `live` is lowered when the source deletes an object; every access asks for it.
 */
module GroupMan {
  import opened Wrappers
  import opened Seqs
  import opened Shelves
  import opened GroupStore
  import opened Numerals
  import FC = FlowCharts

  class NodeGroup {
    var nodes: seq<NodeDef>
    ghost var live: bool

    constructor ()
      ensures live && nodes == []
    {
      nodes, live := [], true;
    }

    function Size(): nat
      requires live
      reads this
    {
      |nodes|
    }

    function GetFirstNode(): Option<NodeDef>
      requires live
      reads this
    {
      if nodes == [] then None else Some(nodes[0])
    }

    method AddNode(nd: NodeDef)
      requires live
      modifies this`nodes
      ensures nodes == old(nodes) + [nd]
    {
      nodes := nodes + [nd];
    }

    method RemoveNode(nd: NodeDef)
      requires live
      modifies this`nodes
      ensures nodes == Remove(old(nodes), nd)
    {
      nodes := Remove(nodes, nd);
    }

    method PopBack() returns (nd: NodeDef)
      requires live && nodes != []
      modifies this`nodes
      ensures old(nodes) == nodes + [nd]
    {
      nd := nodes[|nodes| - 1];
      nodes := nodes[..|nodes| - 1];
    }

    /** Push every node of another group, then clear that group. */
    method Absorb(other: NodeGroup)
      requires live && other.live && other != this
      modifies this`nodes, other`nodes
      ensures nodes == old(nodes) + old(other.nodes)
      ensures other.nodes == []
    {
      for i := 0 to |other.nodes|
        invariant other.nodes == old(other.nodes)
        invariant nodes == old(nodes) + other.nodes[..i]
      {
        AddNode(other.nodes[i]);
      }
      other.nodes := [];
    }

    method Free()
      requires live
      modifies this`live
      ensures !live
    {
      live := false;
    }
  }

  class SuperGroup {
    var id: string
    var name: string
    var isSynthetic: bool
    var groups: seq<NodeGroup>
    ghost var live: bool

    constructor ()
      ensures live && groups == [] && id == "" && name == "" && !isSynthetic
    {
      id, name, isSynthetic, groups, live := "", "", false, [], true;
    }

    function Gcount(): nat
      requires live
      reads this
    {
      |groups|
    }

    method AddNodegroup(ng: NodeGroup)
      requires live
      modifies this`groups
      ensures groups == old(groups) + [ng]
    {
      groups := groups + [ng];
    }

    method RemoveNodegroup(ng: NodeGroup)
      requires live
      modifies this`groups
      ensures groups == Remove(old(groups), ng)
    {
      groups := Remove(groups, ng);
    }

    /** Both super groups lose the synthetic mark; names get the copy number. */
    method CopyAttrFrom(sg: SuperGroup, ncopy: int)
      requires live && sg.live && sg != this
      modifies this`id, this`name, this`isSynthetic, sg`isSynthetic
      ensures id == sg.id + " - copy_" + Decimal(ncopy)
      ensures name == sg.name + " - copy_" + Decimal(ncopy)
      ensures !isSynthetic && !sg.isSynthetic
    {
      id := sg.id + " - copy_" + Decimal(ncopy);
      name := sg.name + " - copy_" + Decimal(ncopy);
      isSynthetic := false;
      sg.isSynthetic := false;
    }

    method Free()
      requires live
      modifies this`live
      ensures !live
    {
      live := false;
    }
  }

  type GStore = Store<SuperGroup, NodeGroup>
  type GIndex = Index<SuperGroup, NodeGroup>

  function EmptyStore(): GStore {
    Store([], Shelf(map[], map[]), Shelf(map[], map[]))
  }

  /** The block n of a flowchart as a node. */
  function BlockNode(fc: FC.FlowChart, n: nat): (nd: NodeDef)
    requires n < |fc|
    ensures nd.nid == n && nd.start == fc[n].start && nd.end == fc[n].end
  {
    NodeDef(n, fc[n].start, fc[n].end)
  }

  /** The nodes an index places, by id. */
  ghost function NodeMap(idx: GIndex): map<int, NodeDef> {
    map n | n in idx :: idx[n].nd
  }

  ghost function NodeSet(nds: map<int, NodeDef>): set<NodeDef> {
    set n | n in nds :: nds[n]
  }

  /** The first of the largest groups. */
  method FindBiggest(ngl: seq<NodeGroup>) returns (ng: NodeGroup?)
    requires forall g :: g in ngl ==> g.live
    ensures ng == null <==> ngl == []
    ensures ng != null ==>
              exists k :: (0 <= k < |ngl| && ngl[k] == ng &&
                           (forall j :: 0 <= j < |ngl| ==> ngl[j].Size() <= ng.Size()) &&
                           (forall j :: 0 <= j < k ==> ngl[j].Size() < ng.Size()))
  {
    ng := null;
    ghost var k := 0;
    for i := 0 to |ngl|
      invariant i == 0 <==> ng == null
      invariant ng != null ==> 0 <= k < i && ngl[k] == ng
      invariant ng != null ==> forall j :: 0 <= j < i ==> ngl[j].Size() <= ng.Size()
      invariant ng != null ==> forall j :: 0 <= j < k ==> ngl[j].Size() < ng.Size()
    {
      if ng == null || ng.Size() < ngl[i].Size() {
        ng, k := ngl[i], i;
      }
    }
  }

  ghost predicate AscendingIds(ids: seq<int>) {
    forall i, j :: 0 <= i < j < |ids| ==> ids[i] < ids[j]
  }

  ghost predicate AllBelow(ids: seq<int>, left: set<int>) {
    forall i, k :: 0 <= i < |ids| && k in left ==> ids[i] < k
  }

  lemma LeastBelow(ids: seq<int>, left: set<int>, n: int)
    requires AllBelow(ids, left) && n in left && forall k :: k in left ==> n <= k
    ensures AllBelow(ids + [n], left - {n}) && forall i :: 0 <= i < |ids| ==> ids[i] < n
  {
  }

  lemma LeftReset(all: map<int, NodeDef>, left: set<int>, n: int)
    requires left <= all.Keys && n in left
    ensures all - (left - {n}) == (all - left)[n := all[n]]
  {
  }

  /** The path after a reset: one super group per node, named after it, by ascending ids. */
  ghost predicate ResetOrder(path: seq<SuperGroup>, idx: GIndex, ids: seq<int>)
    reads path
  {
    && AscendingIds(ids) && |ids| == |path|
    && forall i :: 0 <= i < |ids| ==>
         && ids[i] in idx && idx[ids[i]].sg == path[i]
         && path[i].id == "node" + Decimal(ids[i]) && path[i].name == ""
  }

  lemma ResetOrderMore(path: seq<SuperGroup>, idx: GIndex, ids: seq<int>, idx': GIndex, n: int, sg: SuperGroup)
    requires ResetOrder(path, idx, ids) && n in idx' && idx'[n].sg == sg
    requires forall i :: 0 <= i < |ids| ==> ids[i] < n
    requires forall m :: m in idx && m != n ==> m in idx' && idx'[m] == idx[m]
    requires sg.id == "node" + Decimal(n) && sg.name == ""
    ensures ResetOrder(path + [sg], idx', ids + [n])
  {
    hide Decimal;
  }

  /** The first k super groups are named by their places. */
  ghost predicate Numbered(path: seq<SuperGroup>, k: nat)
    reads path
  {
    k <= |path| &&
    forall i :: 0 <= i < k ==> path[i].id == "ID_" + Decimal(i) && path[i].name == "SG_" + Decimal(i)
  }

  /** Node n stands in the super group at place n. */
  ghost predicate StandInOrder(path: seq<SuperGroup>, idx: GIndex, k: nat) {
    k <= |path| && forall n :: 0 <= n < k ==> n in idx && idx[n].sg == path[n]
  }

  lemma NumberedMore(path: seq<SuperGroup>, idx: GIndex, path': seq<SuperGroup>, idx': GIndex, k: nat)
    requires |path| == k && Numbered(path, k) && StandInOrder(path, idx, k)
    requires |path'| == k + 1 && path <= path'
    requires path'[k].id == "ID_" + Decimal(k) && path'[k].name == "SG_" + Decimal(k)
    requires k in idx' && idx'[k].sg == path'[k]
    requires forall n :: n in idx && n != k ==> n in idx' && idx'[n] == idx[n]
    ensures Numbered(path', k + 1) && StandInOrder(path', idx', k + 1)
  {
    hide Decimal;
    forall i | 0 <= i < k
      ensures path'[i] == path[i]
    {
    }
  }

  lemma NothingNumbered(idx: GIndex)
    ensures Numbered([], 0) && StandInOrder([], idx, 0)
  {
  }

  /** d is the first of the largest groups of the list. */
  ghost predicate IsFirstBiggest(lists: map<NodeGroup, seq<NodeDef>>, ngl: seq<NodeGroup>, d: NodeGroup) {
    exists k :: 0 <= k < |ngl| && FirstBiggestAt(lists, ngl, d, k)
  }

  ghost predicate FirstBiggestAt(
    lists: map<NodeGroup, seq<NodeDef>>, ngl: seq<NodeGroup>, d: NodeGroup, k: nat)
    requires k < |ngl|
  {
    && ngl[k] == d && d in lists && (forall g :: g in ngl ==> g in lists)
    && (forall j :: 0 <= j < |ngl| ==> |lists[ngl[j]]| <= |lists[d]|)
    && (forall j :: 0 <= j < k ==> |lists[ngl[j]]| < |lists[d]|)
  }

  class GroupManager {
    var path: seq<SuperGroup>
    var similar: seq<SuperGroup>
    var allNodes: map<int, NodeDef>
    var nid2loc: GIndex
    var ncopy: int
    ghost var st: GStore
    ghost var sim: Lists<SuperGroup, NodeGroup>  // the lists of the similar super groups

    /** The lists in the heap are those of the store, and all its objects are alive. */
    ghost predicate Valid()
      reads this, st.top.lists.Keys, st.low.lists.Keys
    {
      && path == st.path
      && (forall sg :: sg in st.top.lists ==> sg.live && sg.groups == st.top.lists[sg])
      && (forall ng :: ng in st.low.lists ==> ng.live && ng.nodes == st.low.lists[ng])
    }

    lemma Holds(ng: NodeGroup)
      requires Valid() && ng in st.low.lists
      ensures ng.live && ng.nodes == st.low.lists[ng]
    {
    }

    /** The lists in the heap of the similar super groups are those of `sim`. */
    ghost predicate SimilarValid()
      reads this, sim.groups.Keys, sim.nodes.Keys
    {
      && Closed(similar, sim)
      && (forall sg :: sg in sim.groups ==> sg.live && sg.groups == sim.groups[sg])
      && (forall ng :: ng in sim.nodes ==> ng.live && ng.nodes == sim.nodes[ng])
    }

    /** What holds between operations. */
    ghost predicate Consistent()
      reads this, st.top.lists.Keys, st.low.lists.Keys
    {
      Valid() && Tidy(st, {}) && Exact(st, nid2loc)
    }

    constructor ()
      ensures Consistent() && path == [] && nid2loc == map[] && allNodes == map[]
      ensures st == EmptyStore()
    {
      path, similar, allNodes, nid2loc, ncopy := [], [], map[], map[], 1;
      st, sim := EmptyStore(), Lists(map[], map[]);
    }

    function FindNodeidLoc(nid: int): Option<Loc<SuperGroup, NodeGroup>>
      reads this
    {
      if nid in nid2loc then Some(nid2loc[nid]) else None
    }

    // ----- initialize_lookups -------------------------------------------------

    method InitializeLookups()
      requires Valid() && Closed(path, ListsOf(st))
      modifies this`nid2loc
      ensures nid2loc == IndexPath(ListsOf(st), path)
    {
      nid2loc := map[];
      for i := 0 to |path|
        invariant Closed(path[..i], ListsOf(st))
        invariant nid2loc == IndexPath(ListsOf(st), path[..i])
      {
        assert path[..i + 1][..i] == path[..i];
        IndexSupergroup(path[i]);
      }
      assert path[..|path|] == path;
    }

    /** The second loop: the groups of one super group. */
    method IndexSupergroup(sg: SuperGroup)
      requires Valid() && sg in st.top.lists
      requires forall ng :: ng in st.top.lists[sg] ==> ng in st.low.lists
      modifies this`nid2loc
      ensures nid2loc == IndexGroups(ListsOf(st), old(nid2loc), sg, st.top.lists[sg])
    {
      for j := 0 to |sg.groups|
        invariant nid2loc == IndexGroups(ListsOf(st), old(nid2loc), sg, sg.groups[..j])
      {
        assert sg.groups[..j + 1][..j] == sg.groups[..j];
        IndexNodegroup(sg, sg.groups[j]);
      }
      assert sg.groups[..|sg.groups|] == sg.groups;
    }

    /** The innermost loop: the nodes of one group. */
    method IndexNodegroup(sg: SuperGroup, ng: NodeGroup)
      requires Valid() && ng in st.low.lists
      modifies this`nid2loc
      ensures nid2loc == IndexNodes(old(nid2loc), sg, ng, st.low.lists[ng])
    {
      for k := 0 to |ng.nodes|
        invariant nid2loc == IndexNodes(old(nid2loc), sg, ng, ng.nodes[..k])
      {
        var nd := ng.nodes[k];
        assert ng.nodes[..k + 1][..k] == ng.nodes[..k];
        nid2loc := nid2loc[nd.nid := Loc(sg, ng, nd)];
      }
      assert ng.nodes[..|ng.nodes|] == ng.nodes;
    }

    /** Rebuilding on a tidy structure restores exactness. */
    method Reindex(ghost idx: GIndex)
      requires Valid() && Tidy(st, {}) && Exact(st, idx)
      modifies this`nid2loc
      ensures Consistent() && nid2loc == idx
    {
      TidyIsClosed(st, {});
      InitializeLookups();
      RebuiltIsExact(st, idx);
    }

    // ----- combine_ngl --------------------------------------------------------

    /** One round of combine_ngl. */
    method MergeInto(ng: NodeGroup, dest: NodeGroup, sg: SuperGroup)
      requires Valid() && sg in st.top.lists && ng in st.low.lists && dest in st.low.lists
      requires ng != dest
      modifies this`path, this`st, sg`groups, ng`nodes, dest`nodes
      ensures Valid() && st == Merge(old(st), sg, ng, dest)
      ensures ng.nodes == []
      ensures st.top.lists.Keys <= old(st.top.lists.Keys)
      ensures st.low.lists.Keys <= old(st.low.lists.Keys)
    {
      dest.Absorb(ng);
      sg.RemoveNodegroup(ng);
      if sg.Gcount() == 0 {
        path := Remove(path, sg);
      }
      st := Merge(st, sg, ng, dest);
    }

    lemma ThinnedByMerge(sg: SuperGroup, ng: NodeGroup, dest: NodeGroup)
      requires Valid() && sg in st.top.lists && ng in st.low.lists && dest in st.low.lists
      ensures Thinned(path, Merge(st, sg, ng, dest).path)
    {
      hide Thinned, DropGroup;
      DropGroupOrder(st.(low := Pour(st.low, ng, dest)), sg, ng);
    }

    /** The body of the loop: the location read from the stale index is the present one. */
    method CombineRound(
      ng: NodeGroup, dest: NodeGroup, ghost host: map<NodeGroup, SuperGroup>,
      ghost dsg: SuperGroup, ghost moved: set<NodeGroup>)
      requires Valid() && Midway(st, nid2loc, host, dsg, dest, moved)
      requires dest in host && dest !in moved
      requires ng in host && forall g :: g in moved ==> g.live && g.nodes == []
      modifies this`path, this`st, st.top.lists.Keys`groups, st.low.lists.Keys`nodes
      ensures Valid() && Midway(st, nid2loc, host, dsg, dest, moved + ({ng} - {dest}))
      ensures forall g :: g in moved + ({ng} - {dest}) ==> g.live && g.nodes == []
      ensures RoundMerges(old(st.low.lists), st.low.lists, ng, dest, moved)
      ensures Thinned(old(path), path)
      ensures st.top.lists.Keys <= old(st.top.lists.Keys)
      ensures st.low.lists.Keys <= old(st.low.lists.Keys)
    {
      hide Midway, Tidy, Exact, Merge, Thinned;
      ThinnedSelf(path);
      MidwayPlaces(st, nid2loc, host, dsg, dest, moved, dest);
      if ng == dest {
        assert moved + ({ng} - {dest}) == moved;
        return;
      }
      if ng !in moved {
        MidwayPlaces(st, nid2loc, host, dsg, dest, moved, ng);
      }
      var nd := ng.GetFirstNode();
      if nd.None? {
        assert moved + ({ng} - {dest}) == moved;
        return;
      }
      assert {ng} - {dest} == {ng};
      StaleReadIsCurrent(st, nid2loc, host, dsg, dest, moved, ng, nd.value);
      MidwayStep(st, nid2loc, host, dsg, dest, moved, ng);
      var loc := nid2loc[nd.value.nid];
      MergeLists(st, loc.sg, ng, dest);
      ThinnedByMerge(loc.sg, ng, dest);
      MergeInto(ng, dest, loc.sg);
    }

    method CombineNgl(ngl: seq<NodeGroup>) returns (dest: NodeGroup?)
      requires Consistent()
      requires forall ng :: ng in ngl ==> ng in st.top.at
      modifies this`path, this`st, this`nid2loc, st.top.lists.Keys`groups, st.low.lists.Keys`nodes
      ensures Consistent()
      ensures dest == null <==> ngl == []
      ensures dest == null ==> st == old(st) && nid2loc == old(nid2loc)
      ensures Thinned(old(path), path)
      ensures dest != null ==>
                var d: NodeGroup := dest;
                && IsFirstBiggest(old(st.low.lists), ngl, d)
                && d in st.low.lists && st.low.lists[d] == Gathered(old(st.low.lists), ngl, d)
                && d in ngl
                && (forall g :: g in ngl ==> |old(st.low.lists[g])| <= |old(st.low.lists[d])|)
                && nid2loc == MergedIndex(old(nid2loc), Elems(ngl) - {d}, old(st.top.at[d]), d)
                && st.top.at == old(st.top.at) - (Elems(ngl) - {d})
      ensures st.top.lists.Keys <= old(st.top.lists.Keys)
      ensures st.low.lists.Keys <= old(st.low.lists.Keys)
    {
      hide Tidy, Exact, Elems, Thinned;
      TidyHosts(st);
      dest := FindBiggest(ngl);
      if dest == null {
        ThinnedSelf(path);
        return;
      }
      ghost var k :| 0 <= k < |ngl| && ngl[k] == dest &&
                     (forall j :: 0 <= j < |ngl| ==> ngl[j].Size() <= dest.Size()) &&
                     (forall j :: 0 <= j < k ==> ngl[j].Size() < dest.Size());
      assert FirstBiggestAt(st.low.lists, ngl, dest, k);
      MergeAll(ngl, dest);
    }

    method MergeAll(ngl: seq<NodeGroup>, dest: NodeGroup)
      requires Consistent() && dest in st.top.at
      requires forall ng :: ng in ngl ==> ng in st.top.at
      modifies this`path, this`st, this`nid2loc, st.top.lists.Keys`groups, st.low.lists.Keys`nodes
      ensures Consistent()
      ensures nid2loc == MergedIndex(old(nid2loc), Elems(ngl) - {dest},
                                     old(st.top.at[dest]), dest)
      ensures st.top.at == old(st.top.at) - (Elems(ngl) - {dest})
      ensures dest in old(st.low.lists) && dest in st.low.lists
      ensures st.low.lists[dest] == Gathered(old(st.low.lists), ngl, dest)
      ensures Thinned(old(path), path)
      ensures st.top.lists.Keys <= old(st.top.lists.Keys)
      ensures st.low.lists.Keys <= old(st.low.lists.Keys)
    {
      hide Tidy, Exact, MergedIndex, Midway, Valid, Gathered, Elems, Thinned;
      MergeGroups(ngl, dest);
      ghost var dsg := old(st.top.at[dest]);
      MidwayEnd(st, nid2loc, old(st.top.at), dsg, dest, Elems(ngl) - {dest});
      Reindex(MergedIndex(nid2loc, Elems(ngl) - {dest}, dsg, dest));
    }

    /** The loop of combine_ngl. */
    method MergeGroups(ngl: seq<NodeGroup>, dest: NodeGroup)
      requires Consistent() && dest in st.top.at
      requires forall ng :: ng in ngl ==> ng in st.top.at
      modifies this`path, this`st, st.top.lists.Keys`groups, st.low.lists.Keys`nodes
      ensures Valid()
      ensures Midway(st, nid2loc, old(st.top.at), old(st.top.at[dest]), dest, Elems(ngl) - {dest})
      ensures MergedSoFar(old(st.low.lists), st.low.lists, ngl, dest) && Thinned(old(path), path)
      ensures st.top.lists.Keys <= old(st.top.lists.Keys)
      ensures st.low.lists.Keys <= old(st.low.lists.Keys)
    {
      hide Tidy, Exact, Midway, RoundMerges, MergedSoFar, Valid, Elems, Thinned;
      ThinnedSelf(path);
      ghost var host, dsg := st.top.at, st.top.at[dest];
      MidwayStart(st, nid2loc, dest);
      MidwayPlaces(st, nid2loc, host, dsg, dest, {}, dest);
      MergedStart(st.low.lists, ngl, dest);
      NoElems(ngl);
      assert Elems(ngl[..0]) - {dest} == {};
      for i := 0 to |ngl|
        invariant Valid() && Midway(st, nid2loc, host, dsg, dest, Elems(ngl[..i]) - {dest})
        invariant MergedSoFar(old(st.low.lists), st.low.lists, ngl[..i], dest) && Thinned(old(path), path)
        invariant forall g :: g in Elems(ngl[..i]) - {dest} ==> g.live && g.nodes == []
        invariant st.top.lists.Keys <= old(st.top.lists.Keys)
        invariant st.low.lists.Keys <= old(st.low.lists.Keys)
      {
        ghost var moved, lists, before := Elems(ngl[..i]) - {dest}, st.low.lists, path;
        CombineRound(ngl[i], dest, host, dsg, moved);
        ThinnedOn(old(path), before, path);
        MergedNext(old(st.low.lists), lists, st.low.lists, ngl, i, dest, moved);
        ElemsNext(ngl, i);
        assert moved + ({ngl[i]} - {dest}) == Elems(ngl[..i + 1]) - {dest};
      }
      assert ngl[..|ngl|] == ngl;
    }

    // ----- move_nodes_to_ng ---------------------------------------------------

    /** Delete a group that has become empty, and its super group if that is empty too. */
    method DropEmptied(sg: SuperGroup, ng: NodeGroup)
      requires Valid() && sg in st.top.lists && ng in st.low.lists
      modifies this`path, this`st, sg`groups, sg`live, ng`live
      ensures Valid()
      ensures st == DropGroup(old(st).(low := DropKey(old(st).low, ng)), sg, ng)
    {
      sg.RemoveNodegroup(ng);
      ng.Free();
      if sg.Gcount() == 0 {
        path := Remove(path, sg);
        sg.Free();
      }
      st := DropGroup(st.(low := DropKey(st.low, ng)), sg, ng);
    }

    method RemoveFrom(ng: NodeGroup, nd: NodeDef)
      requires Valid() && ng in st.low.lists
      modifies this`st, ng`nodes
      ensures Valid() && st == old(st).(low := Take(old(st).low, ng, nd))
      ensures st.low.lists.Keys == old(st.low.lists.Keys)
    {
      ng.RemoveNode(nd);
      st := st.(low := Take(st.low, ng, nd));
    }

    method TakeNodeOut(l: Loc<SuperGroup, NodeGroup>)
      requires Valid() && l.sg in st.top.lists && l.ng in st.low.lists
      modifies this`path, this`st, l.sg`groups, l.sg`live, l.ng`nodes, l.ng`live
      ensures Valid() && st == TakeOut(old(st), l) && Thinned(old(path), path)
    {
      hide Thinned;
      TakeOutOrder(st, l);
      RemoveFrom(l.ng, l.nd);
      if l.ng.Size() == 0 {
        DropEmptied(l.sg, l.ng);
      }
    }

    /** One round: neither the group nor the super group freed here is dest's. */
    method MoveOne(l: Loc<SuperGroup, NodeGroup>, dest: NodeGroup)
      requires Valid() && l.sg in st.top.lists && l.ng in st.low.lists && dest in st.low.lists
      requires l.ng != dest
      modifies this`path, this`st, l.sg`groups, l.sg`live, l.ng`nodes, l.ng`live, dest`nodes
      ensures Valid() && st == MoveNode(old(st), l, dest) && Thinned(old(path), path)
      ensures st.top.lists.Keys <= old(st.top.lists.Keys)
      ensures st.low.lists.Keys <= old(st.low.lists.Keys)
    {
      hide Thinned, TakeOut;
      TakeOutKeys(st, l, dest);
      TakeNodeOut(l);
      dest.AddNode(l.nd);
      st := st.(low := Put(st.low, dest, l.nd));
    }

    method AddNewGroup(sg: SuperGroup) returns (ng: NodeGroup)
      requires Valid() && sg in st.top.lists
      modifies this`st, sg`groups
      ensures fresh(ng) && Valid() && st == AddEmptyGroup(old(st), sg, ng)
      ensures ng !in old(st.low.lists)
    {
      ng := new NodeGroup();
      sg.AddNodegroup(ng);
      st := AddEmptyGroup(st, sg, ng);
    }

    method MoveNodesToNg(nids: seq<int>) returns (newNg: NodeGroup?)
      requires Consistent() && NoRepeats(nids)
      requires forall i :: 0 <= i < |nids| ==> nids[i] in nid2loc
      modifies this`path, this`st, this`nid2loc, st.top.lists.Keys, st.low.lists.Keys
      ensures Consistent()
      ensures newNg == null <==> nids == []
      ensures newNg == null ==> st == old(st) && nid2loc == old(nid2loc)
      ensures Thinned(old(path), path)
      ensures newNg != null ==>
                var d: NodeGroup := newNg;
                && fresh(d)
                && nid2loc == MovedIndex(old(nid2loc), Elems(nids), old(nid2loc[nids[0]].sg), d)
                && d in st.low.lists && InOrder(old(nid2loc), nids, st.low.lists[d])
      ensures st.top.lists.Keys <= old(st.top.lists.Keys)
      ensures forall g :: g in st.low.lists ==> g in old(st.low.lists) || fresh(g)
    {
      hide Thinned;
      newNg := null;
      if nids == [] {
        ThinnedSelf(path);
        Reindex(nid2loc);
        return;
      }
      newNg := GatherNodes(nids);
    }

    /** The body of the loop: the location read from the stale index is the present one. */
    method GatherOne(n: int, ghost sg0: SuperGroup, dest: NodeGroup, ghost done: set<int>)
      requires Valid() && Gathering(st, nid2loc, sg0, dest, done) && n in nid2loc && n !in done
      modifies this`path, this`st, st.top.lists.Keys, st.low.lists.Keys
      ensures Valid() && Gathering(st, nid2loc, sg0, dest, done + {n})
      ensures dest in old(st.low.lists) && dest in st.low.lists
      ensures st.low.lists[dest] == old(st.low.lists)[dest] + [nid2loc[n].nd] && Thinned(old(path), path)
      ensures st.top.lists.Keys <= old(st.top.lists.Keys)
      ensures st.low.lists.Keys <= old(st.low.lists.Keys)
    {
      hide Gathering, MoveNode, Stands, Thinned;
      var loc := nid2loc[n];
      GatheringRead(st, nid2loc, sg0, dest, done, n);
      GatheringStep(st, nid2loc, sg0, dest, done, n);
      MoveLists(st, loc, dest);
      MoveOne(loc, dest);
    }

    /** The new group is made in the super group of the first node met. */
    method GatherFirst(n: int) returns (dest: NodeGroup)
      requires Consistent() && n in nid2loc
      modifies this`st, st.top.lists.Keys`groups
      ensures fresh(dest) && Valid() && Gathering(st, nid2loc, nid2loc[n].sg, dest, {})
      ensures dest in st.low.lists && st.low.lists[dest] == []
      ensures st.top.lists.Keys == old(st.top.lists.Keys)
      ensures st.low.lists.Keys == old(st.low.lists.Keys) + {dest}
    {
      hide Tidy, Exact, Gathering, AddEmptyGroup, Stands;
      ExactEntry(st, nid2loc, {}, n);
      var sg0 := nid2loc[n].sg;
      ghost var st0 := st;
      dest := AddNewGroup(sg0);
      GatheringStart(st0, nid2loc, sg0, dest);
      AddedKeys(st0, sg0, dest);
    }

    /** The loop, for at least one node; the new group is made when the first node is met. */
    method GatherNodes(nids: seq<int>) returns (dest: NodeGroup)
      requires Consistent() && NoRepeats(nids) && nids != []
      requires forall i :: 0 <= i < |nids| ==> nids[i] in nid2loc
      modifies this`path, this`st, this`nid2loc, st.top.lists.Keys, st.low.lists.Keys
      ensures Consistent() && fresh(dest)
      ensures nid2loc == MovedIndex(old(nid2loc), Elems(nids), old(nid2loc[nids[0]].sg), dest)
      ensures dest in st.low.lists && InOrder(old(nid2loc), nids, st.low.lists[dest])
      ensures Thinned(old(path), path)
      ensures st.top.lists.Keys <= old(st.top.lists.Keys)
      ensures forall g :: g in st.low.lists ==> g in old(st.low.lists) || fresh(g)
    {
      hide Tidy, Exact, Gathering, MovedIndex, NoRepeats, Thinned;
      ghost var sg0 := nid2loc[nids[0]].sg;
      dest := GatherFirst(nids[0]);
      GatherAll(nids, sg0, dest);
      assert nids[0] in Elems(nids);
      hide Elems;
      GatheringEnd(st, nid2loc, sg0, dest, Elems(nids));
      Reindex(MovedIndex(nid2loc, Elems(nids), sg0, dest));
    }

    method GatherAll(nids: seq<int>, ghost sg0: SuperGroup, dest: NodeGroup)
      requires Valid() && Gathering(st, nid2loc, sg0, dest, {}) && NoRepeats(nids)
      requires dest in st.low.lists && st.low.lists[dest] == []
      requires forall i :: 0 <= i < |nids| ==> nids[i] in nid2loc
      modifies this`path, this`st, st.top.lists.Keys, st.low.lists.Keys
      ensures Valid() && Gathering(st, nid2loc, sg0, dest, Elems(nids))
      ensures dest in st.low.lists && InOrder(nid2loc, nids, st.low.lists[dest])
      ensures Thinned(old(path), path)
      ensures st.top.lists.Keys <= old(st.top.lists.Keys)
      ensures st.low.lists.Keys <= old(st.low.lists.Keys)
    {
      hide Gathering, Valid, Elems, NoRepeats, InOrder, Thinned;
      ThinnedSelf(path);
      NoElems(nids);
      NoneInOrder(nids);
      for i := 0 to |nids|
        invariant Valid() && Gathering(st, nid2loc, sg0, dest, Elems(nids[..i]))
        invariant dest in st.low.lists && InOrder(nid2loc, nids[..i], st.low.lists[dest])
        invariant Thinned(old(path), path)
        invariant st.top.lists.Keys <= old(st.top.lists.Keys)
        invariant st.low.lists.Keys <= old(st.low.lists.Keys)
      {
        ElemsNext(nids, i);
        InOrderNext(nid2loc, nids, i, st.low.lists[dest]);
        ghost var before := path;
        GatherOne(nids[i], sg0, dest, Elems(nids[..i]));
        ThinnedOn(old(path), before, path);
      }
      assert nids[..|nids|] == nids;
    }

    lemma NoneInOrder(nids: seq<int>)
      ensures InOrder(nid2loc, nids[..0], [])
    {
    }

    // ----- move_nodes_to_own_ng -----------------------------------------------

    method PopFrom(ng: NodeGroup) returns (nd: NodeDef)
      requires Valid() && ng in st.low.lists && ng.nodes != [] && NoRepeats(ng.nodes)
      modifies this`st, ng`nodes
      ensures Valid() && st == old(st).(low := Take(old(st).low, ng, nd))
      ensures nd in old(ng.nodes) && |ng.nodes| == |old(ng.nodes)| - 1
      ensures st.low.lists.Keys == old(st.low.lists.Keys)
    {
      hide NoRepeats;
      RemoveLast(ng.nodes);
      nd := ng.PopBack();
      st := st.(low := Take(st.low, ng, nd));
    }

    /** A new group for one node, at the end of a super group. */
    method AddOwnGroup(sg: SuperGroup, nd: NodeDef) returns (ng: NodeGroup)
      requires Valid() && sg in st.top.lists
      modifies this`st, sg`groups
      ensures fresh(ng) && ng !in old(st.low.lists) && Valid()
      ensures st == old(st).(top := Put(old(st).top, sg, ng), low := Put(NewKey(old(st).low, ng), ng, nd))
      ensures st.top.lists.Keys == old(st.top.lists.Keys)
      ensures st.low.lists.Keys == old(st.low.lists.Keys) + {ng}
    {
      ng := AddNewGroup(sg);
      ng.AddNode(nd);
      st := st.(low := Put(st.low, ng, nd));
    }

    /** Take a node out of its group and give it a group of its own in the same super group. */
    method SplitOne(l: Loc<SuperGroup, NodeGroup>) returns (ng: NodeGroup)
      requires Valid() && l.sg in st.top.lists && l.ng in st.low.lists
      modifies this`st, l.sg`groups, l.ng`nodes
      ensures fresh(ng) && ng !in old(st.low.lists)
      ensures Valid() && st == Split(old(st), l, ng)
      ensures st.top.lists.Keys == old(st.top.lists.Keys)
      ensures st.low.lists.Keys == old(st.low.lists.Keys) + {ng}
    {
      RemoveFrom(l.ng, l.nd);
      ng := AddOwnGroup(l.sg, l.nd);
    }

    /** One selected node, in single mode; `own` records the groups made so far. */
    method SplitRound(n: int, ghost own: map<int, NodeGroup>, ghost done: set<int>)
      returns (ghost own': map<int, NodeGroup>)
      requires Valid() && Splitting(st, nid2loc, own, done) && n in nid2loc && n !in done
      requires n !in own
      modifies this`st, st.top.lists.Keys, st.low.lists.Keys
      ensures Valid() && Splitting(st, nid2loc, own', done + {n})
      ensures own'.Keys <= own.Keys + {n}
      ensures nid2loc[n].ng in old(st.low.lists)
      ensures if |old(st.low.lists)[nid2loc[n].ng]| == 1 then own' == own && st == old(st) else n in own'
      ensures st.top.lists.Keys == old(st.top.lists.Keys)
      ensures forall g :: g in st.low.lists ==> g in old(st.low.lists) || fresh(g)
    {
      hide Splitting, Split, Stands;
      own' := own;
      var loc := nid2loc[n];
      SplittingRead(st, nid2loc, own, done, n);
      if loc.ng.Size() == 1 {
        SplittingSkip(st, nid2loc, own, done, n);
        return;
      }
      ghost var st0 := st;
      var ng := SplitOne(loc);
      SplittingStep(st0, nid2loc, own, done, n, ng);
      own' := own[n := ng];
    }

    /**
      move_nodes_to_own_ng in single mode. `stop` counts the nodes handled before the
      first unknown one; meeting one, the source returns without rebuilding the index.
     */
    method SplitNodes(sel: seq<int>) returns (ok: bool, ghost stop: nat)
      requires Consistent() && NoRepeats(sel)
      modifies this`st, this`nid2loc, st.top.lists.Keys, st.low.lists.Keys
      ensures stop <= |sel| && (forall i :: 0 <= i < stop ==> sel[i] in old(nid2loc))
      ensures ok <==> stop == |sel|
      ensures !ok ==> sel[stop] !in old(nid2loc)
      ensures Valid() && Tidy(st, {})
      ensures ok ==> Consistent() && SplitFrom(old(nid2loc), nid2loc, Elems(sel))
                     && Alone(st, nid2loc, Elems(sel))
      ensures !ok ==> nid2loc == old(nid2loc)
      ensures !ok ==> (Exact(st, nid2loc) <==>
                         forall i :: 0 <= i < stop ==>
                           |old(nid2loc[sel[i]].ng.nodes)| == 1)
      ensures st.top.lists.Keys == old(st.top.lists.Keys)
      ensures forall g :: g in st.low.lists ==> g in old(st.low.lists) || fresh(g)
    {
      hide Tidy, Exact, Splitting, SplitIndex, Alone, SplitFrom, Valid, NoRepeats, AloneAt;
      ghost var own;
      forall n | n in nid2loc
        ensures AloneAt(st, nid2loc, n) <==> |nid2loc[n].ng.nodes| == 1
      {
        AloneMeans(n);
      }
      ok, stop, own := SplitKnown(sel);
      if !ok {
        SplittingStale(st, nid2loc, own, Elems(sel[..stop]));
        return;
      }
      assert sel[..|sel|] == sel;
      SplittingEnd(st, nid2loc, own, Elems(sel));
      Reindex(SplitIndex(nid2loc, own));
    }

    lemma AloneMeans(n: int)
      requires Consistent() && n in nid2loc
      ensures AloneAt(st, nid2loc, n) <==> |nid2loc[n].ng.nodes| == 1
    {
      hide Tidy, Exact, Stands;
      ExactEntry(st, nid2loc, {}, n);
    }

    /** The loop: it stops at the first unknown node. */
    method SplitKnown(sel: seq<int>) returns (ok: bool, ghost stop: nat, ghost own: map<int, NodeGroup>)
      requires Consistent() && NoRepeats(sel)
      modifies this`st, st.top.lists.Keys, st.low.lists.Keys
      ensures stop <= |sel| && (forall i :: 0 <= i < stop ==> sel[i] in nid2loc)
      ensures ok <==> stop == |sel|
      ensures !ok ==> sel[stop] !in nid2loc
      ensures Valid() && Splitting(st, nid2loc, own, Elems(sel[..stop])) && own.Keys <= Elems(sel[..stop])
      ensures own == map[] <==> forall i :: 0 <= i < stop ==> AloneAt(old(st), nid2loc, sel[i])
      ensures st.top.lists.Keys == old(st.top.lists.Keys)
      ensures forall g :: g in st.low.lists ==> g in old(st.low.lists) || fresh(g)
    {
      hide Tidy, Exact, Splitting, Valid, Elems, NoRepeats;
      own, stop, ok := map[], 0, true;
      SplittingStart(st, nid2loc);
      NoElems(sel);
      for i := 0 to |sel|
        invariant stop == i && Valid() && Splitting(st, nid2loc, own, Elems(sel[..i]))
        invariant own.Keys <= Elems(sel[..i])
        invariant forall j :: 0 <= j < i ==> sel[j] in nid2loc
        invariant own == map[] ==> st == old(st)
        invariant own == map[] <==> forall j :: 0 <= j < i ==> AloneAt(old(st), nid2loc, sel[j])
        invariant st.top.lists.Keys == old(st.top.lists.Keys)
        invariant forall g :: g in st.low.lists ==> g in old(st.low.lists) || fresh(g)
      {
        if sel[i] !in nid2loc {
          ok := false;
          return;
        }
        ElemsNext(sel, i);
        own := SplitRound(sel[i], own, Elems(sel[..i]));
        stop := stop + 1;
      }
    }

    /** Take the last node out of a group and give it a group of its own. */
    method SplitBack(sg: SuperGroup, ng: NodeGroup) returns (g: NodeGroup, ghost nd: NodeDef)
      requires Valid() && sg in st.top.lists && ng in st.low.lists
      requires ng.nodes != [] && NoRepeats(ng.nodes)
      modifies this`st, sg`groups, ng`nodes
      ensures fresh(g) && g !in old(st.low.lists)
      ensures nd in old(ng.nodes) && |ng.nodes| == |old(ng.nodes)| - 1
      ensures Valid() && st == Split(old(st), Loc(sg, ng, nd), g)
      ensures st.top.lists.Keys == old(st.top.lists.Keys)
      ensures st.low.lists.Keys == old(st.low.lists.Keys) + {g}
    {
      var last := PopFrom(ng);
      nd := last;
      g := AddOwnGroup(sg, last);
    }

    /** One selected group, in combined mode: nodes leave from the back until one is left. */
    method SplitGroup(ng: NodeGroup, ghost host: map<NodeGroup, SuperGroup>,
                      ghost own: map<int, NodeGroup>)
      returns (ghost own': map<int, NodeGroup>)
      requires Valid() && GroupSplitting(st, nid2loc, host, own) && ng in host
      modifies this`st, st.top.lists.Keys, st.low.lists.Keys
      ensures Valid() && GroupSplitting(st, nid2loc, host, own')
      ensures forall n :: n in own' ==> n in own || (n in nid2loc && nid2loc[n].ng == ng)
      ensures ng in st.low.lists && |st.low.lists[ng]| == 1
      ensures forall g :: g in host && g != ng && g in old(st.low.lists) ==>
                g in st.low.lists && st.low.lists[g] == old(st.low.lists[g])
      ensures st.top.lists.Keys == old(st.top.lists.Keys)
      ensures forall g :: g in st.low.lists ==> g in old(st.low.lists) || fresh(g)
    {
      hide GroupSplitting, NoRepeats, Valid;
      own' := own;
      GroupSplittingHost(st, nid2loc, host, own, ng);
      Holds(ng);
      if ng.Size() == 1 {
        return;
      }
      var first := ng.GetFirstNode();
      if first.None? {
        return;
      }
      GroupSplittingRead(st, nid2loc, host, own, ng, first.value);
      var sg := nid2loc[first.value.nid].sg;
      while ng.Size() > 1
        invariant Valid() && GroupSplitting(st, nid2loc, host, own')
        invariant ng.live && ng in st.low.lists && ng.nodes == st.low.lists[ng] != []
        invariant forall n :: n in own' ==> n in own || (n in nid2loc && nid2loc[n].ng == ng)
        invariant forall g :: g in host && g != ng && g in old(st.low.lists) ==>
                    g in st.low.lists && st.low.lists[g] == old(st.low.lists[g])
        invariant st.top.lists.Keys == old(st.top.lists.Keys)
        invariant forall g :: g in st.low.lists ==> g in old(st.low.lists) || fresh(g)
        decreases |ng.nodes|
      {
        own' := SplitBackRound(sg, ng, host, own');
      }
    }

    method SplitBackRound(sg: SuperGroup, ng: NodeGroup, ghost host: map<NodeGroup, SuperGroup>,
                          ghost own: map<int, NodeGroup>)
      returns (ghost own': map<int, NodeGroup>)
      requires Valid() && GroupSplitting(st, nid2loc, host, own) && ng in host && host[ng] == sg
      requires ng in st.low.lists && |ng.nodes| > 1
      modifies this`st, sg`groups, ng`nodes
      ensures Valid() && GroupSplitting(st, nid2loc, host, own')
      ensures forall n :: n in own' ==> n in own || (n in nid2loc && nid2loc[n].ng == ng)
      ensures |ng.nodes| == |old(ng.nodes)| - 1
      ensures ng in st.low.lists && ng.nodes == st.low.lists[ng]
      ensures forall g :: g in old(st.low.lists) && g != ng ==>
                g in st.low.lists && st.low.lists[g] == old(st.low.lists)[g]
      ensures st.top.lists.Keys == old(st.top.lists.Keys)
      ensures forall g :: g in st.low.lists ==> g in old(st.low.lists) || fresh(g)
    {
      hide GroupSplitting, NoRepeats, Split;
      GroupSplittingHost(st, nid2loc, host, own, ng);
      ghost var st0 := st;
      var g, nd := SplitBack(sg, ng);
      GroupSplittingStep(st0, nid2loc, host, own, ng, nd, g);
      own' := own[nd.nid := g];
    }

    /** move_nodes_to_own_ng in combined mode. */
    method SplitGroups(ngs: seq<NodeGroup>)
      requires Consistent() && forall i :: 0 <= i < |ngs| ==> ngs[i] in st.top.at
      modifies this`st, this`nid2loc, st.top.lists.Keys, st.low.lists.Keys
      ensures Consistent()
      ensures SplitFrom(old(nid2loc), nid2loc, NodesIn(old(nid2loc), Elems(ngs)))
      ensures Alone(st, nid2loc, NodesIn(old(nid2loc), Elems(ngs)))
      ensures st.top.lists.Keys == old(st.top.lists.Keys)
      ensures forall g :: g in st.low.lists ==> g in old(st.low.lists) || fresh(g)
    {
      hide Tidy, Exact, GroupSplitting, SplitIndex, Alone, SplitFrom, NodesIn, Valid;
      ghost var host, own: map<int, NodeGroup> := st.top.at, map[];
      GroupSplittingStart(st, nid2loc);
      for i := 0 to |ngs|
        invariant Valid() && GroupSplitting(st, nid2loc, host, own)
        invariant nid2loc == old(nid2loc)
        invariant forall n :: n in own ==> n in nid2loc && nid2loc[n].ng in ngs[..i]
        invariant forall j :: 0 <= j < i ==> ngs[j] in st.low.lists && |st.low.lists[ngs[j]]| == 1
        invariant st.top.lists.Keys == old(st.top.lists.Keys)
        invariant forall g :: g in st.low.lists ==> g in old(st.low.lists) || fresh(g)
      {
        own := SplitGroup(ngs[i], host, own);
        assert ngs[..i + 1] == ngs[..i] + [ngs[i]];
      }
      GroupSplittingEnd(st, nid2loc, host, own, Elems(ngs));
      Reindex(SplitIndex(nid2loc, own));
    }

    // ----- promote_node_groups_to_sgs -----------------------------------------

    method TakeGroup(sg: SuperGroup, ng: NodeGroup)
      requires Valid() && sg in st.top.lists
      modifies this`st, sg`groups
      ensures Valid() && st == old(st).(top := Take(old(st).top, sg, ng))
      ensures st.top.lists.Keys == old(st.top.lists.Keys)
    {
      sg.RemoveNodegroup(ng);
      st := st.(top := Take(st.top, sg, ng));
    }

    /** A new, empty super group at the end of the path. */
    method AddSupergroup(id: string, name: string) returns (sg: SuperGroup)
      requires Valid()
      modifies this`path, this`st
      ensures fresh(sg) && sg !in old(st.top.lists)
      ensures sg.id == id && sg.name == name && !sg.isSynthetic
      ensures Valid() && st == old(st).(top := NewKey(old(st).top, sg), path := old(st).path + [sg])
      ensures st.top.lists.Keys == old(st.top.lists.Keys) + {sg}
    {
      sg := new SuperGroup();
      sg.id, sg.name := id, name;
      path := path + [sg];
      st := st.(top := NewKey(st.top, sg), path := path);
    }

    method GiveGroup(sg: SuperGroup, ng: NodeGroup)
      requires Valid() && sg in st.top.lists
      modifies this`st, sg`groups
      ensures Valid() && st == old(st).(top := Put(old(st).top, sg, ng))
      ensures st.top.lists.Keys == old(st.top.lists.Keys)
    {
      sg.AddNodegroup(ng);
      st := st.(top := Put(st.top, sg, ng));
    }

    method PromoteOne(sg: SuperGroup, ng: NodeGroup) returns (own: SuperGroup)
      requires Valid() && sg in st.top.lists
      modifies this`path, this`st, this`ncopy, sg`groups, sg`isSynthetic
      ensures fresh(own) && own !in old(st.top.lists)
      ensures Valid() && st == Promote(old(st), sg, ng, own)
      ensures own.id == sg.id + " - copy_" + Decimal(old(ncopy)) && ncopy == old(ncopy) + 1
      ensures st.top.lists.Keys == old(st.top.lists.Keys) + {own}
      ensures st.low == old(st.low) && path == old(path) + [own]
    {
      hide Decimal;
      TakeGroup(sg, ng);
      own := AddSupergroup("", "");
      own.CopyAttrFrom(sg, ncopy);
      ncopy := ncopy + 1;
      GiveGroup(own, ng);
    }

    method PromoteRound(ng: NodeGroup, sg: SuperGroup, ghost found: map<NodeGroup, SuperGroup>,
                        ghost own: map<NodeGroup, SuperGroup>, ghost done: set<NodeGroup>)
      returns (ghost own': map<NodeGroup, SuperGroup>)
      requires Valid() && Promoting(st, nid2loc, found, own, done)
      requires ng in found && found[ng] == sg
      modifies this`path, this`st, this`ncopy, st.top.lists.Keys
      ensures Valid() && Promoting(st, nid2loc, found - {ng}, own', done + {ng})
      ensures own'.Keys <= own.Keys + {ng}
      ensures st.low == old(st.low) && old(path) <= path
      ensures forall s :: s in st.top.lists ==> s in old(st.top.lists) || fresh(s)
    {
      hide Promoting, Promote;
      own' := own;
      PromotingHost(st, nid2loc, found, own, done, ng);
      if sg.Gcount() == 1 {
        PromotingSkip(st, nid2loc, found, own, done, ng);
        return;
      }
      ghost var st0 := st;
      var s := PromoteOne(sg, ng);
      PromotingStep(st0, nid2loc, found, own, done, ng, s);
      own' := own[ng := s];
    }

    /** The drain loop: groups are taken from `found` in any order. */
    method PromoteFound(found: map<NodeGroup, SuperGroup>)
      requires Consistent()
      requires forall g :: g in found ==> g in st.top.at && st.top.at[g] == found[g]
      modifies this`path, this`st, this`nid2loc, this`ncopy, st.top.lists.Keys
      ensures Consistent()
      ensures PromotedFrom(old(nid2loc), nid2loc, found.Keys)
      ensures Sole(st, found.Keys)
      ensures st.low == old(st.low) && old(path) <= path
      ensures forall s :: s in st.top.lists ==> s in old(st.top.lists) || fresh(s)
    {
      hide Tidy, Exact, Promoting, HostedIndex, PromotedFrom, Sole, Valid;
      ghost var own := DrainFound(found);
      PromotingEnd(st, nid2loc, map[], own, found.Keys);
      Reindex(HostedIndex(nid2loc, own));
    }

    method DrainFound(found: map<NodeGroup, SuperGroup>) returns (ghost own: map<NodeGroup, SuperGroup>)
      requires Consistent()
      requires forall g :: g in found ==> g in st.top.at && st.top.at[g] == found[g]
      modifies this`path, this`st, this`ncopy, st.top.lists.Keys
      ensures Valid() && Promoting(st, nid2loc, map[], own, found.Keys) && own.Keys <= found.Keys
      ensures st.low == old(st.low) && old(path) <= path
      ensures forall s :: s in st.top.lists ==> s in old(st.top.lists) || fresh(s)
    {
      hide Tidy, Exact, Promoting, Valid;
      var left := found;
      ghost var done: set<NodeGroup> := {};
      own := map[];
      PromotingStart(st, nid2loc, found);
      while left.Keys != {}
        invariant Valid() && Promoting(st, nid2loc, left, own, done)
        invariant st.low == old(st.low) && old(path) <= path
        invariant own.Keys <= done && done + left.Keys == found.Keys
        invariant forall s :: s in st.top.lists ==> s in old(st.top.lists) || fresh(s)
        decreases left.Keys
      {
        var ng :| ng in left.Keys;
        var sg := left[ng];
        ghost var before := left;
        left := left - {ng};
        own := PromoteRound(ng, sg, before, own, done);
        done := done + {ng};
      }
      assert left == map[] && done == found.Keys;
    }

    /** The groups of the selected nodes with their hosts; unknown nodes are skipped. */
    method CollectGroups(sel: seq<int>) returns (found: map<NodeGroup, SuperGroup>)
      requires Consistent()
      ensures found.Keys == set n | n in sel && n in nid2loc :: nid2loc[n].ng
      ensures forall g :: g in found ==> g in st.top.at && st.top.at[g] == found[g]
    {
      hide Tidy, Exact, Stands;
      found := map[];
      for i := 0 to |sel|
        invariant forall g :: g in found ==> g in st.top.at && st.top.at[g] == found[g]
        invariant found.Keys == set n | n in sel[..i] && n in nid2loc :: nid2loc[n].ng
      {
        assert sel[..i + 1] == sel[..i] + [sel[i]];
        var loc := FindNodeidLoc(sel[i]);
        if loc.Some? {
          ExactStands(st, nid2loc, sel[i]);
          found := found[loc.value.ng := loc.value.sg];
        }
      }
      assert sel[..|sel|] == sel;
    }

    /** promote_node_groups_to_sgs in single mode. */
    method PromoteNodes(sel: seq<int>)
      requires Consistent()
      modifies this`path, this`st, this`nid2loc, this`ncopy, st.top.lists.Keys
      ensures Consistent() && st.low == old(st.low) && old(path) <= path
      ensures var gs := set n | n in sel && n in old(nid2loc) :: old(nid2loc)[n].ng;
              PromotedFrom(old(nid2loc), nid2loc, gs) && Sole(st, gs)
      ensures forall s :: s in st.top.lists ==> s in old(st.top.lists) || fresh(s)
    {
      hide Tidy, Exact, PromotedFrom, Sole;
      var found := CollectGroups(sel);
      PromoteFound(found);
    }

    // ----- build_groupman_from_fc, reset_groupping ----------------------------

    /** clear() leaves nid2loc as it was. */
    method Clear()
      modifies this`path, this`similar, this`allNodes, this`st, this`sim
      ensures path == similar == [] && allNodes == map[]
      ensures st == EmptyStore() && sim == Lists(map[], map[])
    {
      path, similar, allNodes, st := [], [], map[], EmptyStore();
      sim := Lists(map[], map[]);
    }

    /** A new super group at the end of the path, holding one new group with one node. */
    method PushSingle(nd: NodeDef, id: string, name: string)
      returns (sg: SuperGroup, ng: NodeGroup)
      requires Valid()
      modifies this`path, this`st
      ensures fresh(sg) && sg !in old(st.top.lists) && fresh(ng) && ng !in old(st.low.lists)
      ensures sg.id == id && sg.name == name && !sg.isSynthetic
      ensures Valid() && path == old(path) + [sg] && st == AddSingle(old(st), sg, ng, nd)
      ensures st.top.lists.Keys == old(st.top.lists.Keys) + {sg}
      ensures st.low.lists.Keys == old(st.low.lists.Keys) + {ng}
    {
      sg := AddSupergroup(id, name);
      ng := AddOwnGroup(sg, nd);
    }

    /** The nodes of the first k blocks, by id. */
    static ghost function BlockNodes(fc: FC.FlowChart, k: nat): map<int, NodeDef>
      requires k <= |fc|
    {
      map n: int | 0 <= n < k :: BlockNode(fc, n)
    }

    /** The body of the loop of build_groupman_from_fc. */
    method AddBlock(fc: FC.FlowChart, nid: nat, ghost idx: GIndex) returns (ghost idx': GIndex)
      requires nid < |fc| && Valid()
      requires Singletons(st, idx, BlockNodes(fc, nid)) && allNodes == BlockNodes(fc, nid)
      modifies this`path, this`allNodes, this`st
      ensures Valid() && Singletons(st, idx', BlockNodes(fc, nid + 1))
      ensures allNodes == BlockNodes(fc, nid + 1)
      ensures |path| == |old(path)| + 1 && old(path) <= path
      ensures var sg := path[|path| - 1];
              && sg.id == "ID_" + Decimal(nid) && sg.name == "SG_" + Decimal(nid)
              && idx'.Keys == idx.Keys + {nid as int} && idx'[nid].sg == sg
              && forall n :: n in idx && n != nid ==> idx'[n] == idx[n]
      ensures forall s :: s in st.top.lists ==> s in old(st.top.lists) || fresh(s)
      ensures forall g :: g in st.low.lists ==> g in old(st.low.lists) || fresh(g)
    {
      hide Singletons, AddSingle, Decimal;
      var nd := BlockNode(fc, nid);
      ghost var st0 := st;
      var sg, ng := PushSingle(nd, "ID_" + Decimal(nid), "SG_" + Decimal(nid));
      SingletonsStep(st0, idx, BlockNodes(fc, nid), sg, ng, nd);
      idx' := idx[nd.nid := Loc(sg, ng, nd)];
      assert BlockNodes(fc, nid + 1) == BlockNodes(fc, nid)[nid := nd];
      allNodes := allNodes[nid := nd];
    }

    /** build_groupman_from_fc up to the sanitize step. */
    method PopulateFromFc(fc: FC.FlowChart) returns (ghost idx: GIndex)
      modifies this`path, this`similar, this`allNodes, this`st, this`sim
      ensures Valid() && Singletons(st, idx, BlockNodes(fc, |fc|))
      ensures allNodes == BlockNodes(fc, |fc|)
      ensures |path| == |fc| && Numbered(path, |fc|) && StandInOrder(path, idx, |fc|)
      ensures forall s :: s in st.top.lists ==> fresh(s)
      ensures forall g :: g in st.low.lists ==> fresh(g)
    {
      hide Singletons, BlockNodes, Numbered, StandInOrder, Decimal;
      Clear();
      idx := map[];
      SingletonsStart(st);
      NoBlockNodes(fc);
      NothingNumbered(idx);
      for nid := 0 to |fc|
        invariant Valid() && Singletons(st, idx, BlockNodes(fc, nid))
        invariant allNodes == BlockNodes(fc, nid)
        invariant |path| == nid && Numbered(path, nid) && StandInOrder(path, idx, nid)
        invariant forall s :: s in st.top.lists ==> fresh(s)
        invariant forall g :: g in st.low.lists ==> fresh(g)
      {
        ghost var path0, idx0 := path, idx;
        idx := AddBlock(fc, nid, idx);
        NumberedMore(path0, idx0, path, idx, nid);
      }
    }

    static lemma NoBlockNodes(fc: FC.FlowChart)
      ensures BlockNodes(fc, 0) == map[]
    {
    }

    /** One node of reset_groupping's second loop. */
    method ResetNode(nd: NodeDef, ghost idx: GIndex, ghost nds: map<int, NodeDef>)
      returns (ghost idx': GIndex)
      requires Valid() && Singletons(st, idx, nds) && nd.nid !in nds
      modifies this`path, this`st
      ensures Valid() && Singletons(st, idx', nds[nd.nid := nd])
      ensures |path| == |old(path)| + 1 && old(path) <= path
      ensures var sg := path[|path| - 1];
              && sg.id == "node" + Decimal(nd.nid) && sg.name == ""
              && idx'.Keys == idx.Keys + {nd.nid} && idx'[nd.nid].sg == sg
              && forall n :: n in idx && n != nd.nid ==> idx'[n] == idx[n]
      ensures forall s :: s in st.top.lists ==> s in old(st.top.lists) || fresh(s)
      ensures forall g :: g in st.low.lists ==> g in old(st.low.lists) || fresh(g)
    {
      hide Singletons, AddSingle, Decimal;
      ghost var st0 := st;
      var sg, ng := PushSingle(nd, "node" + Decimal(nd.nid), "");
      SingletonsStep(st0, idx, nds, sg, ng, nd);
      idx' := idx[nd.nid := Loc(sg, ng, nd)];
    }

    /**
      Every registered node gets its own group and super group. The nodes of a consistent
      structure stay the same exactly when they are the registered ones.
     */
    method ResetGroupping()
      requires forall n :: n in allNodes ==> allNodes[n].nid == n
      modifies this`path, this`st, this`nid2loc
      ensures Consistent() && AllSingle(st) && NodeMap(nid2loc) == allNodes
      ensures st.low.at.Keys == NodeSet(allNodes)
      ensures exists ids :: ResetOrder(path, nid2loc, ids)
      ensures old(Consistent()) ==>
                (st.low.at.Keys == old(st.low.at.Keys) <==> allNodes == NodeMap(old(nid2loc)))
      ensures forall s :: s in st.top.lists ==> fresh(s)
      ensures forall g :: g in st.low.lists ==> fresh(g)
    {
      hide Tidy, Exact, Singletons, AllSingle, ResetOrder;
      if Consistent() {
        StructureNodes(st, nid2loc, allNodes);
      }
      path, st := [], EmptyStore();
      ghost var idx, ids := Repopulate();
      SingletonsFacts(st, idx, allNodes);
      StructureNodes(st, idx, allNodes);
      Reindex(idx);
      assert ResetOrder(path, nid2loc, ids);
    }

    /** The second loop of reset_groupping. */
    method Repopulate() returns (ghost idx: GIndex, ghost ids: seq<int>)
      requires path == [] && st == EmptyStore() && forall n :: n in allNodes ==> allNodes[n].nid == n
      modifies this`path, this`st
      ensures Valid() && Singletons(st, idx, allNodes) && ResetOrder(path, idx, ids)
      ensures forall s :: s in st.top.lists ==> fresh(s)
      ensures forall g :: g in st.low.lists ==> fresh(g)
    {
      hide Singletons, ResetOrder, AllBelow;
      idx, ids := map[], [];
      SingletonsStart(st);
      NothingReset(allNodes.Keys);
      var left := allNodes;
      assert allNodes - left.Keys == map[];
      while left.Keys != {}
        invariant left.Keys <= allNodes.Keys && Valid()
        invariant forall n :: n in left ==> left[n] == allNodes[n]
        invariant Singletons(st, idx, allNodes - left.Keys)
        invariant ResetOrder(path, idx, ids) && AllBelow(ids, left.Keys)
        invariant forall s :: s in st.top.lists ==> fresh(s)
        invariant forall g :: g in st.low.lists ==> fresh(g)
        decreases left.Keys
      {
        var n := LeastKey(left);
        LeastBelow(ids, left.Keys, n);
        LeftReset(allNodes, left.Keys, n);
        ghost var before, path0, idx0 := allNodes - left.Keys, path, idx;
        idx := ResetNode(left[n], idx, before);
        ResetOrderMore(path0, idx0, ids, idx, n, path[|path| - 1]);
        assert path == path0 + [path[|path| - 1]];
        left := left - {n};
        ids := ids + [n];
      }
      assert allNodes - left.Keys == allNodes;
    }

    lemma NothingReset(left: set<int>)
      ensures ResetOrder([], map[], []) && AllBelow([], left)
    {
    }
  }

  /** The nodes of a structure with an exact index are those of `all` exactly when the index says so. */
  lemma StructureNodes(st: GStore, idx: GIndex, all: map<int, NodeDef>)
    requires Exact(st, idx) && forall n :: n in all ==> all[n].nid == n
    ensures st.low.at.Keys == NodeSet(all) <==> all == NodeMap(idx)
  {
    if all == NodeMap(idx) {
      forall nd | nd in st.low.at
        ensures nd in NodeSet(all)
      {
        assert all[nd.nid] == nd;
      }
      forall nd | nd in NodeSet(all)
        ensures nd in st.low.at
      {
        var n :| n in all && all[n] == nd;
        assert n in idx && idx[n].nd == nd;
      }
    }
    if st.low.at.Keys == NodeSet(all) {
      forall n | n in all
        ensures n in NodeMap(idx) && NodeMap(idx)[n] == all[n]
      {
        assert all[n] in st.low.at.Keys;
      }
      forall n | n in NodeMap(idx)
        ensures n in all
      {
        assert idx[n].nd in st.low.at.Keys;
        var k :| k in all && all[k] == idx[n].nd;
      }
    }
  }

  /** The first key in the order of a std::map. */
  method LeastKey(m: map<int, NodeDef>) returns (n: int)
    requires m.Keys != {}
    ensures n in m && forall k :: k in m ==> n <= k
  {
    var left := m.Keys;
    assert (forall k: int :: k !in left) ==> left == {};
    n :| n in left;
    left := left - {n};
    while left != {}
      invariant n in m && left <= m.Keys
      invariant forall k :: k in m ==> k in left || n <= k
      decreases left
    {
      assert (forall k: int :: k !in left) ==> left == {};
      var k :| k in left;
      left := left - {k};
      if k < n {
        n := k;
      }
    }
  }

  lemma SingletonsFacts(st: GStore, idx: GIndex, nds: map<int, NodeDef>)
    requires Singletons(st, idx, nds)
    ensures Tidy(st, {}) && Exact(st, idx) && AllSingle(st) && NodeMap(idx) == nds
  {
    assert NodeMap(idx).Keys == nds.Keys;
    assert forall n :: n in nds ==> NodeMap(idx)[n] == nds[n];
  }
}

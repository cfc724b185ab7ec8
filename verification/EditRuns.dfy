/** Runs of the edit operations from a freshly built manager. */
module EditRuns {
  import opened Seqs
  import opened GroupStore
  import opened GroupMan
  import opened Algo

  /**
    One edit. Groups are named by any of their nodes, so that every selection of groups
    can be written down in advance.
   */
  datatype Edit =
    | Combine(sel: seq<int>)
    | Gather(sel: seq<int>)
    | Promote(sel: seq<int>)
    | SplitEach(sel: seq<int>)
    | SplitGroups(sel: seq<int>)
    | Reset

  /** Selections are sets of nodes; splitting single nodes is asked of known nodes only. */
  ghost predicate Allowed(e: Edit, known: map<int, NodeDef>) {
    match e
    case Gather(sel) => NoRepeats(sel)
    case SplitEach(sel) => NoRepeats(sel) && forall i :: 0 <= i < |sel| ==> sel[i] in known
    case _ => true
  }

  /** Between edits: consistent, and the registered nodes are the nodes of the structure. */
  ghost predicate Ready(gm: GroupManager)
    reads gm, gm.st.top.lists.Keys, gm.st.low.lists.Keys
  {
    gm.Consistent() && NodeMap(gm.nid2loc) == gm.allNodes
  }

  ghost predicate SameNodes(idx: GIndex, idx': GIndex) {
    idx'.Keys == idx.Keys && forall n :: n in idx ==> idx'[n].nd == idx[n].nd
  }

  lemma SameNodeMap(idx: GIndex, idx': GIndex)
    requires SameNodes(idx, idx')
    ensures NodeMap(idx') == NodeMap(idx)
  {
    assert NodeMap(idx').Keys == NodeMap(idx).Keys;
    assert forall n :: n in idx ==> NodeMap(idx')[n] == NodeMap(idx)[n];
  }

  /** The nodes of ns share a group in idx', and the others are where idx has them. */
  ghost predicate Together(idx: GIndex, idx': GIndex, ns: set<int>) {
    && idx'.Keys == idx.Keys
    && (forall a, b :: a in ns && b in ns && a in idx && b in idx ==> idx'[a].ng == idx'[b].ng)
    && (forall n :: n in idx && n !in ns ==> idx'[n] == idx[n])
  }

  lemma MergedTogether(idx: GIndex, gs: set<NodeGroup>, sg: SuperGroup, dest: NodeGroup)
    requires dest in gs
    ensures Together(idx, MergedIndex(idx, gs - {dest}, sg, dest), NodesIn(idx, gs))
  {
  }

  lemma MovedTogether(idx: GIndex, ns: set<int>, sg: SuperGroup, dest: NodeGroup)
    ensures Together(idx, MovedIndex(idx, ns, sg, dest), ns)
  {
  }

  lemma NoneTogether(idx: GIndex, ns: set<int>)
    requires ns == {}
    ensures Together(idx, idx, ns)
  {
  }

  lemma NoGroups(idx: GIndex, gs: set<NodeGroup>)
    requires gs == {}
    ensures NodesIn(idx, gs) == {}
  {
  }

  lemma MergedSame(idx: GIndex, from: set<NodeGroup>, sg: SuperGroup, dest: NodeGroup)
    ensures SameNodes(idx, MergedIndex(idx, from, sg, dest))
  {
  }

  lemma MovedSame(idx: GIndex, ns: set<int>, sg: SuperGroup, dest: NodeGroup)
    ensures SameNodes(idx, MovedIndex(idx, ns, sg, dest))
  {
  }

  lemma SplitSame(idx: GIndex, idx': GIndex, ns: set<int>)
    requires SplitFrom(idx, idx', ns)
    ensures SameNodes(idx, idx')
  {
  }

  lemma PromotedSame(idx: GIndex, idx': GIndex, gs: set<NodeGroup>)
    requires PromotedFrom(idx, idx', gs)
    ensures SameNodes(idx, idx')
  {
  }

  /** The known nodes of a selection. */
  method KnownNodes(gm: GroupManager, sel: seq<int>) returns (ns: seq<int>)
    requires NoRepeats(sel)
    ensures NoRepeats(ns) && forall i :: 0 <= i < |ns| ==> ns[i] in gm.nid2loc
    ensures forall n :: n in ns <==> n in sel && n in gm.nid2loc
  {
    ns := [];
    for i := 0 to |sel|
      invariant NoRepeats(ns) && forall k :: 0 <= k < |ns| ==> ns[k] in gm.nid2loc
      invariant forall n :: n in ns <==> n in sel[..i] && n in gm.nid2loc
    {
      assert sel[..i + 1] == sel[..i] + [sel[i]];
      if sel[i] in gm.nid2loc {
        assert sel[i] !in sel[..i];
        NoRepeatsSnoc(ns, sel[i]);
        ns := ns + [sel[i]];
      }
    }
    assert sel[..|sel|] == sel;
  }

  ghost function KnownOf(idx: GIndex, sel: seq<int>): set<int> {
    set n | n in sel && n in idx
  }

  lemma KnownElems(idx: GIndex, sel: seq<int>, ns: seq<int>)
    requires forall n :: n in ns <==> n in sel && n in idx
    ensures Elems(ns) == KnownOf(idx, sel)
  {
    forall n: int
      ensures n in Elems(ns) <==> n in KnownOf(idx, sel)
    {
      assert n in Elems(ns) <==> n in ns;
      assert n in KnownOf(idx, sel) <==> n in sel && n in idx;
    }
  }

  ghost function GroupsAt(idx: GIndex, sel: seq<int>): set<NodeGroup> {
    set n | n in sel && n in idx :: idx[n].ng
  }

  lemma GroupsAtMore(idx: GIndex, sel: seq<int>, n: int)
    ensures GroupsAt(idx, sel + [n]) == GroupsAt(idx, sel) + if n in idx then {idx[n].ng} else {}
  {
    var more := GroupsAt(idx, sel + [n]);
    forall g | g in more
      ensures g in GroupsAt(idx, sel) || (n in idx && g == idx[n].ng)
    {
      var k :| k in sel + [n] && k in idx && idx[k].ng == g;
      assert k in sel || k == n;
    }
    assert n in sel + [n] && forall k :: k in sel ==> k in sel + [n];
  }

  lemma ElemsMore<T>(s: seq<T>, x: T)
    ensures Elems(s + [x]) == Elems(s) + {x}
  {
  }

  /** The groups of the known nodes of a selection. */
  method GroupsOf(gm: GroupManager, sel: seq<int>) returns (ngs: seq<NodeGroup>)
    requires gm.Consistent()
    ensures forall i :: 0 <= i < |ngs| ==> ngs[i] in gm.st.top.at
    ensures Elems(ngs) == GroupsAt(gm.nid2loc, sel)
  {
    hide Tidy, Exact;
    ngs := [];
    for i := 0 to |sel|
      invariant forall k :: 0 <= k < |ngs| ==> ngs[k] in gm.st.top.at
      invariant Elems(ngs) == GroupsAt(gm.nid2loc, sel[..i])
    {
      assert sel[..i + 1] == sel[..i] + [sel[i]];
      GroupsAtMore(gm.nid2loc, sel[..i], sel[i]);
      var loc := gm.FindNodeidLoc(sel[i]);
      if loc.Some? {
        ExactStands(gm.st, gm.nid2loc, sel[i]);
        ElemsMore(ngs, loc.value.ng);
        ngs := ngs + [loc.value.ng];
      }
    }
    assert sel[..|sel|] == sel;
  }

  method DoCombine(gm: GroupManager, sel: seq<int>)
    requires gm.Consistent()
    modifies gm`path, gm`st, gm`nid2loc, gm.st.top.lists.Keys, gm.st.low.lists.Keys
    ensures gm.Consistent() && SameNodes(old(gm.nid2loc), gm.nid2loc)
    ensures Together(old(gm.nid2loc), gm.nid2loc,
                     NodesIn(old(gm.nid2loc), GroupsAt(old(gm.nid2loc), sel)))
    ensures Thinned(old(gm.path), gm.path)
    ensures forall s :: s in gm.st.top.lists ==> s in old(gm.st.top.lists) || fresh(s)
    ensures forall g :: g in gm.st.low.lists ==> g in old(gm.st.low.lists) || fresh(g)
  {
    hide Tidy, Exact, MergedIndex, Together, GroupsAt, NodesIn, Thinned;
    var ngl := GroupsOf(gm, sel);
    ghost var idx, at, gs := gm.nid2loc, gm.st.top.at, Elems(ngl);
    var biggest := gm.CombineNgl(ngl);
    if biggest != null {
      ghost var dest: NodeGroup := biggest;
      MergedSame(idx, gs - {dest}, at[dest], dest);
      MergedTogether(idx, gs, at[dest], dest);
    } else {
      NoGroups(idx, gs);
      NoneTogether(idx, {});
    }
  }

  method DoGather(gm: GroupManager, sel: seq<int>)
    requires gm.Consistent() && NoRepeats(sel)
    modifies gm`path, gm`st, gm`nid2loc, gm.st.top.lists.Keys, gm.st.low.lists.Keys
    ensures gm.Consistent() && SameNodes(old(gm.nid2loc), gm.nid2loc)
    ensures Together(old(gm.nid2loc), gm.nid2loc, KnownOf(old(gm.nid2loc), sel))
    ensures Thinned(old(gm.path), gm.path)
    ensures forall s :: s in gm.st.top.lists ==> s in old(gm.st.top.lists) || fresh(s)
    ensures forall g :: g in gm.st.low.lists ==> g in old(gm.st.low.lists) || fresh(g)
  {
    hide Tidy, Exact, MovedIndex, Together, KnownOf, Thinned;
    var ns := KnownNodes(gm, sel);
    ghost var idx := gm.nid2loc;
    KnownElems(idx, sel, ns);
    var made := gm.MoveNodesToNg(ns);
    if made != null {
      ghost var dest: NodeGroup := made;
      MovedSame(idx, Elems(ns), idx[ns[0]].sg, dest);
      MovedTogether(idx, Elems(ns), idx[ns[0]].sg, dest);
    } else {
      NoneTogether(idx, Elems(ns));
    }
  }

  /**
    What each edit is for, from the index and path before it to the structure and index
    after it; the super groups that stay keep their order, and new ones come last.
   */
  ghost predicate Effect(e: Edit, idx: GIndex, path: seq<SuperGroup>, st: GStore, idx': GIndex) {
    match e
    case Combine(sel) =>
      Together(idx, idx', NodesIn(idx, GroupsAt(idx, sel))) && Thinned(path, st.path)
    case Gather(sel) => Together(idx, idx', KnownOf(idx, sel)) && Thinned(path, st.path)
    case Promote(sel) =>
      PromotedFrom(idx, idx', GroupsAt(idx, sel)) && Sole(st, GroupsAt(idx, sel)) && path <= st.path
    case SplitEach(sel) =>
      SplitFrom(idx, idx', Elems(sel)) && Alone(st, idx', Elems(sel)) && st.path == path
    case SplitGroups(sel) =>
      var ns := NodesIn(idx, GroupsAt(idx, sel));
      SplitFrom(idx, idx', ns) && Alone(st, idx', ns) && st.path == path
    case Reset => AllSingle(st)
  }

  method Apply(gm: GroupManager, e: Edit)
    requires Ready(gm) && Allowed(e, gm.allNodes)
    modifies gm`path, gm`st, gm`nid2loc, gm`ncopy, gm.st.top.lists.Keys, gm.st.low.lists.Keys
    ensures Ready(gm) && Effect(e, old(gm.nid2loc), old(gm.path), gm.st, gm.nid2loc)
    ensures forall s :: s in gm.st.top.lists ==> s in old(gm.st.top.lists) || fresh(s)
    ensures forall g :: g in gm.st.low.lists ==> g in old(gm.st.low.lists) || fresh(g)
  {
    hide Tidy, Exact, Together, NodesIn, KnownOf, SplitFrom, Alone, PromotedFrom, Sole, SameNodes, AllSingle,
         Thinned;
    ghost var idx := gm.nid2loc;
    match e {
      case Combine(sel) =>
        DoCombine(gm, sel);
        SameNodeMap(idx, gm.nid2loc);
      case Gather(sel) =>
        DoGather(gm, sel);
        SameNodeMap(idx, gm.nid2loc);
      case Promote(sel) =>
        gm.PromoteNodes(sel);
        PromotedSame(idx, gm.nid2loc, GroupsAt(idx, sel));
        SameNodeMap(idx, gm.nid2loc);
      case SplitEach(sel) =>
        var ok, stop := gm.SplitNodes(sel);
        assert ok;
        SplitSame(idx, gm.nid2loc, Elems(sel));
        SameNodeMap(idx, gm.nid2loc);
      case SplitGroups(sel) =>
        var ngs := GroupsOf(gm, sel);
        gm.SplitGroups(ngs);
        SplitSame(idx, gm.nid2loc, NodesIn(idx, Elems(ngs)));
        SameNodeMap(idx, gm.nid2loc);
      case Reset =>
        RegisteredIds(gm.st, idx, gm.allNodes);
        gm.ResetGroupping();
    }
  }

  lemma RegisteredIds(st: GStore, idx: GIndex, all: map<int, NodeDef>)
    requires Tidy(st, {}) && Exact(st, idx) && NodeMap(idx) == all
    ensures forall n :: n in all ==> all[n].nid == n
  {
  }

  /** Where the nodes are, and what the groups hold, between two edits. */
  datatype Moment = Moment(idx: GIndex, st: GStore)

  /** Every edit of the script had its effect, one after the other. */
  ghost predicate Follows(trace: seq<Moment>, script: seq<Edit>) {
    && |trace| == |script| + 1
    && forall i :: 0 <= i < |script| ==> Effect(script[i], trace[i].idx, trace[i].st.path, trace[i + 1].st, trace[i + 1].idx)
  }

  lemma FollowsMore(trace: seq<Moment>, script: seq<Edit>, e: Edit, m: Moment)
    requires Follows(trace, script) && Effect(e, trace[|script|].idx, trace[|script|].st.path, m.st, m.idx)
    ensures Follows(trace + [m], script + [e])
  {
    hide Effect;
  }

  /**
    Safety of every run: from the manager built for a flowchart, any list of edits leaves
    each block in exactly one group, no group or super group empty, and the index exact.
   */
  method Run(fc: FC.FlowChart, script: seq<Edit>) returns (gm: GroupManager, ghost trace: seq<Moment>)
    requires forall i :: 0 <= i < |script| ==>
               Allowed(script[i], GroupManager.BlockNodes(fc, |fc|))
    ensures fresh(gm) && gm.Consistent()
    ensures NodeMap(gm.nid2loc) == GroupManager.BlockNodes(fc, |fc|)
    ensures PlacesBlocks(fc, gm.nid2loc) && forall n :: 0 <= n < |fc| ==> n in gm.nid2loc
    ensures Follows(trace, script) && trace[|script|] == Moment(gm.nid2loc, gm.st)
    ensures AllSingle(trace[0].st)
  {
    hide Tidy, Exact, AllSingle, Allowed, PlacesBlocks, Effect, Numbered, StandInOrder;
    gm := new GroupManager();
    BuildGroupmanFromFc(fc, gm, true);
    trace := [Moment(gm.nid2loc, gm.st)];
    for i := 0 to |script|
      invariant Follows(trace, script[..i]) && trace[i] == Moment(gm.nid2loc, gm.st)
      invariant AllSingle(trace[0].st)
      invariant fresh(gm) && Ready(gm) && gm.allNodes == GroupManager.BlockNodes(fc, |fc|)
      invariant forall s :: s in gm.st.top.lists ==> fresh(s)
      invariant forall g :: g in gm.st.low.lists ==> fresh(g)
    {
      Apply(gm, script[i]);
      assert script[..i + 1][..i] == script[..i];
      FollowsMore(trace, script[..i], script[i], Moment(gm.nid2loc, gm.st));
      assert script[..i] + [script[i]] == script[..i + 1];
      trace := trace + [Moment(gm.nid2loc, gm.st)];
    }
    assert script[..|script|] == script;
    MapPlaces(fc, gm.nid2loc);
  }

  /**
    Two blocks in one group, and a selection of one of them and of an unknown node: the
    split stops half-way and leaves an index that is wrong.
   */
  method StaleAfterSplit() returns (gm: GroupManager, ok: bool)
    ensures !ok && gm.Valid() && Tidy(gm.st, {}) && !Exact(gm.st, gm.nid2loc)
  {
    hide Tidy, Exact, AllSingle, SplitFrom, Alone, Numbered, StandInOrder, PlacesBlocks, InOrder;
    var fc := [FC.Block(0, 4, [1]), FC.Block(4, 8, [])];
    gm := new GroupManager();
    BuildGroupmanFromFc(fc, gm, true);
    assert NodeMap(gm.nid2loc).Keys == gm.nid2loc.Keys;
    var nids := [0, 1];
    var made := gm.MoveNodesToNg(nids);
    assert 0 in gm.nid2loc && 1 in gm.nid2loc && 7 !in gm.nid2loc;
    assert gm.nid2loc[0].ng == gm.nid2loc[1].ng;
    TwoTogether(gm.st, gm.nid2loc, 0, 1);
    gm.AloneMeans(0);
    var sel := [0, 7];
    ghost var stop;
    assert sel[0] == 0 && |gm.nid2loc[sel[0]].ng.nodes| != 1;
    ok, stop := gm.SplitNodes(sel);
    assert sel[1] == 7 && stop == 1;
  }
}

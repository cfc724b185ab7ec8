/** Parsing a bbgroup file into a manager. */
module Loading {
  import opened Wrappers
  import opened Seqs
  import opened TextScan
  import opened GroupStore
  import opened GroupMan
  import opened Algo
  import opened BBGroupText
  import opened BBGroupFile
  import opened RoundTrip

  /** The groups of the super groups, list by list. */
  ghost function GroupsOf(sgl: seq<Super>): (v: View)
    ensures |v| == |sgl| && forall i :: 0 <= i < |sgl| ==> v[i] == sgl[i].groups
  {
    seq(|sgl|, i requires 0 <= i < |sgl| => sgl[i].groups)
  }

  method LoadGroup(ns: seq<NodeDef>) returns (ng: NodeGroup)
    ensures fresh(ng) && ng.live && ng.nodes == ns
  {
    ng := new NodeGroup();
    for k := 0 to |ns|
      invariant ng.live && ng.nodes == ns[..k]
    {
      ng.AddNode(ns[k]);
    }
  }

  method LoadSuper(line: Super) returns (sg: SuperGroup, ghost nodes: map<NodeGroup, seq<NodeDef>>)
    ensures fresh(sg) && Building(sg, nodes, line.groups)
    ensures sg.id == line.id && sg.name == line.name && !sg.isSynthetic
    ensures forall g :: g in nodes ==> fresh(g)
  {
    sg := new SuperGroup();
    sg.id, sg.name := line.id, line.name;
    nodes := map[];
    for j := 0 to |line.groups|
      invariant fresh(sg) && Building(sg, nodes, line.groups[..j])
      invariant sg.id == line.id && sg.name == line.name && !sg.isSynthetic
      invariant forall g :: g in nodes ==> fresh(g)
    {
      var ng := LoadGroup(line.groups[j]);
      sg.AddNodegroup(ng);
      nodes := nodes[ng := ng.nodes];
    }
    assert line.groups[..|line.groups|] == line.groups;
  }

  // ----- the super groups of a manager ----------------------------------------

  /** What the text says of a super group: id, name, and the nodes of its groups. */
  ghost function SuperOf(sg: SuperGroup, t: Lists<SuperGroup, NodeGroup>): Super
    requires sg in t.groups && forall ng :: ng in t.groups[sg] ==> ng in t.nodes
    reads sg
  {
    Super(sg.id, sg.name, seq(|t.groups[sg]|, j requires 0 <= j < |t.groups[sg]| => t.nodes[t.groups[sg][j]]))
  }

  ghost predicate Named(sgs: seq<SuperGroup>, sgl: seq<Super>)
    reads sgs
  {
    |sgs| == |sgl| && forall i :: 0 <= i < |sgs| ==> sgs[i].id == sgl[i].id && sgs[i].name == sgl[i].name
  }

  ghost predicate AreSupers(sgs: seq<SuperGroup>, t: Lists<SuperGroup, NodeGroup>, sgl: seq<Super>)
    requires Closed(sgs, t)
    reads sgs
  {
    |sgs| == |sgl| && forall i :: 0 <= i < |sgs| ==> SuperOf(sgs[i], t) == sgl[i]
  }

  /** Names and lists together make the super groups. */
  lemma ShownAndNamed(sgs: seq<SuperGroup>, t: Lists<SuperGroup, NodeGroup>, sgl: seq<Super>)
    requires Closed(sgs, t) && Shows(sgs, t, GroupsOf(sgl)) && Named(sgs, sgl)
    ensures AreSupers(sgs, t, sgl)
  {
    forall i | 0 <= i < |sgs|
      ensures SuperOf(sgs[i], t) == sgl[i]
    {
      assert ShowsGroup(sgs[i], t, GroupsOf(sgl)[i]);
      assert SuperOf(sgs[i], t).groups == sgl[i].groups;
    }
  }

  // ----- parse ----------------------------------------------------------------

  lemma NextLoaded(sgs: seq<SuperGroup>, sgl: seq<Super>, sg: SuperGroup, i: nat)
    requires i < |sgl| && Named(sgs, sgl[..i]) && sg.id == sgl[i].id && sg.name == sgl[i].name
    ensures Named(sgs + [sg], sgl[..i + 1])
    ensures GroupsOf(sgl)[..i + 1] == GroupsOf(sgl)[..i] + [sgl[i].groups]
  {
  }

  lemma AllLoaded(sgl: seq<Super>)
    ensures GroupsOf(sgl)[..0] == [] && Named([], sgl[..0])
    ensures GroupsOf(sgl)[..|sgl|] == GroupsOf(sgl) && sgl[..|sgl|] == sgl
  {
  }

  /** The super groups of the first section become the path. */
  method LoadPath(gm: GroupManager, path: seq<Super>)
    modifies gm`path, gm`similar, gm`allNodes, gm`st, gm`sim
    ensures gm.Valid() && Shows(gm.path, ListsOf(gm.st), GroupsOf(path)) && Named(gm.path, path)
    ensures gm.similar == [] && gm.sim == Lists(map[], map[])
    ensures forall sg :: sg in gm.path ==> fresh(sg)
  {
    hide Building, Shows, GroupsOf, Named;
    gm.Clear();
    ShowsNothing();
    AllLoaded(path);
    for i := 0 to |path|
      invariant gm.Valid() && Shows(gm.path, ListsOf(gm.st), GroupsOf(path)[..i])
      invariant Named(gm.path, path[..i]) && gm.similar == [] && gm.sim == Lists(map[], map[])
      invariant forall sg :: sg in gm.path ==> fresh(sg)
    {
      var sg, nodes := LoadSuper(path[i]);
      NextLoaded(gm.path, path, sg, i);
      Attach(gm, sg, nodes, GroupsOf(path)[..i], path[i].groups);
    }
  }

  /** One super group at the end of the similar ones. */
  method AttachSimilar(gm: GroupManager, sg: SuperGroup, ghost nodes: map<NodeGroup, seq<NodeDef>>,
                       ghost v: View, ghost w: seq<seq<NodeDef>>)
    requires gm.SimilarValid() && Building(sg, nodes, w) && sg !in gm.sim.groups
    requires forall g :: g in nodes ==> g !in gm.sim.nodes
    requires Shows(gm.similar, gm.sim, v)
    modifies gm`similar, gm`sim
    ensures gm.SimilarValid() && Shows(gm.similar, gm.sim, v + [w])
    ensures gm.similar == old(gm.similar) + [sg]
  {
    ShowsMore(gm.similar, gm.sim, v, sg, sg.groups, nodes, w);
    gm.similar := gm.similar + [sg];
    gm.sim := Extended(gm.sim, sg, sg.groups, nodes);
    ShowsClosed(gm.similar, gm.sim, v + [w]);
    hide Shows, Closed;
  }

  /** Those of the second section become the similar ones. */
  method LoadSimilar(gm: GroupManager, similar: seq<Super>)
    requires gm.similar == [] && gm.sim == Lists(map[], map[])
    modifies gm`similar, gm`sim
    ensures gm.SimilarValid() && Shows(gm.similar, gm.sim, GroupsOf(similar)) && Named(gm.similar, similar)
  {
    hide Building, Shows, GroupsOf, Named;
    ShowsNothing();
    AllLoaded(similar);
    for i := 0 to |similar|
      invariant gm.SimilarValid() && Shows(gm.similar, gm.sim, GroupsOf(similar)[..i])
      invariant Named(gm.similar, similar[..i])
    {
      var sg, nodes := LoadSuper(similar[i]);
      NextLoaded(gm.similar, similar, sg, i);
      AttachSimilar(gm, sg, nodes, GroupsOf(similar)[..i], similar[i].groups);
    }
  }

  /**
    parse: the manager has the super groups of both sections, the nodes of both are
    registered, and the index is rebuilt on request only.
   */
  method Load(gm: GroupManager, text: string, initCache: bool)
    modifies gm`path, gm`similar, gm`allNodes, gm`st, gm`sim, gm`nid2loc
    ensures gm.Valid() && Closed(gm.path, ListsOf(gm.st)) && gm.SimilarValid()
    ensures AreSupers(gm.path, ListsOf(gm.st), ReadFile(text).path)
    ensures AreSupers(gm.similar, gm.sim, ReadFile(text).similar)
    ensures Shows(gm.path, ListsOf(gm.st), GroupsOf(ReadFile(text).path))
    ensures Registers(gm.allNodes, NodesRead(PathInfo, SplitOn(text, '\n')))
    ensures gm.nid2loc == if initCache then IndexPath(ListsOf(gm.st), gm.path) else old(gm.nid2loc)
  {
    hide Shows, Registers, NodesRead, ReadFile, Closed, IndexPath, AreSupers, Named;
    var path, similar, all := Parse(text);
    LoadPath(gm, path);
    gm.allNodes := all;
    LoadSimilar(gm, similar);
    ShowsClosed(gm.path, ListsOf(gm.st), GroupsOf(path));
    if initCache {
      gm.InitializeLookups();
    }
    ShownAndNamed(gm.path, ListsOf(gm.st), path);
    ShownAndNamed(gm.similar, gm.sim, similar);
  }

  // ----- emit, then parse -----------------------------------------------------

  /** The values of the super groups, as emit_sgl walks them. */
  method ReadSupers(sgs: seq<SuperGroup>, ghost t: Lists<SuperGroup, NodeGroup>) returns (sgl: seq<Super>)
    requires Closed(sgs, t)
    requires forall sg :: sg in t.groups ==> sg.live && sg.groups == t.groups[sg]
    requires forall ng :: ng in t.nodes ==> ng.live && ng.nodes == t.nodes[ng]
    ensures AreSupers(sgs, t, sgl)
  {
    sgl := [];
    for i := 0 to |sgs|
      invariant |sgl| == i && forall k :: 0 <= k < i ==> SuperOf(sgs[k], t) == sgl[k]
    {
      var sg := sgs[i];
      var groups: seq<seq<NodeDef>> := [];
      for j := 0 to |sg.groups|
        invariant groups == SuperOf(sg, t).groups[..j]
      {
        assert sg.groups[j] in t.groups[sg];
        groups := groups + [sg.groups[j].nodes];
      }
      sgl := sgl + [Super(sg.id, sg.name, groups)];
    }
  }

  /** emit, on a manager. */
  method EmitManager(gm: GroupManager, additional: Option<string>)
    returns (text: string, ghost path: seq<Super>, ghost similar: seq<Super>)
    requires gm.Valid() && Closed(gm.path, ListsOf(gm.st)) && gm.SimilarValid()
    ensures AreSupers(gm.path, ListsOf(gm.st), path) && AreSupers(gm.similar, gm.sim, similar)
    ensures text == FileText(path, similar) + AdditionalText(additional)
  {
    hide FileText, AreSupers;
    var sgl1 := ReadSupers(gm.path, ListsOf(gm.st));
    var sgl2 := ReadSupers(gm.similar, gm.sim);
    text := Emit(sgl1, sgl2, additional);
    path, similar := sgl1, sgl2;
  }

  /**
    Emitting a manager and parsing the text into a new one gives the same super groups,
    exactly when all of them are printable.
   */
  method EmitThenLoad(gm: GroupManager)
    returns (copy: GroupManager, ghost path: seq<Super>, ghost similar: seq<Super>)
    requires gm.Valid() && Closed(gm.path, ListsOf(gm.st)) && gm.SimilarValid()
    ensures AreSupers(gm.path, ListsOf(gm.st), path) && AreSupers(gm.similar, gm.sim, similar)
    ensures fresh(copy) && copy.Valid() && copy.SimilarValid() && Closed(copy.path, ListsOf(copy.st))
    ensures AreSupers(copy.path, ListsOf(copy.st), path) && AreSupers(copy.similar, copy.sim, similar) <==>
              Printable(path) && Printable(similar)
  {
    hide FileText, ReadFile, Printable, RoundTrips, Shows, Registers, IndexPath, AreSupers, Closed;
    var text;
    text, path, similar := EmitManager(gm, None);
    assert text == FileText(path, similar);
    copy := new GroupManager();
    Load(copy, text, true);
    SameAsPrinted(path, similar);
    SupersUnique(copy.path, ListsOf(copy.st), ReadFile(text).path, path);
    SupersUnique(copy.similar, copy.sim, ReadFile(text).similar, similar);
  }

  lemma SameAsPrinted(path: seq<Super>, similar: seq<Super>)
    ensures var r := ReadFile(FileText(path, similar));
            r.path == path && r.similar == similar <==> Printable(path) && Printable(similar)
  {
    RoundTripIff(path, similar);
  }

  /** A manager has one list of super groups. */
  lemma SupersUnique(sgs: seq<SuperGroup>, t: Lists<SuperGroup, NodeGroup>, a: seq<Super>, b: seq<Super>)
    requires Closed(sgs, t) && AreSupers(sgs, t, a)
    ensures AreSupers(sgs, t, b) <==> a == b
  {
    hide Closed;
  }

  // ----- a reset after parsing ------------------------------------------------

  ghost function Ids(nodes: set<NodeDef>): set<int> {
    set nd | nd in nodes :: nd.nid
  }

  /** The index of a loaded path has the ids of its nodes. */
  lemma LoadedIds(path: seq<SuperGroup>, t: Lists<SuperGroup, NodeGroup>, sgl: seq<Super>, n: int)
    requires Shows(path, t, GroupsOf(sgl)) && Closed(path, t)
    ensures n in IndexPath(t, path) <==> n in Ids(SuperNodes(sgl))
  {
    hide IndexPath;
    IndexPathAt(t, path, n);
    if n in IndexPath(t, path) {
      var l := IndexPath(t, path)[n];
      var i :| 0 <= i < |path| && path[i] == l.sg;
      assert ShowsGroup(path[i], t, GroupsOf(sgl)[i]);
      var j :| 0 <= j < |t.groups[l.sg]| && t.groups[l.sg][j] == l.ng;
      assert l.nd in sgl[i].groups[j];
      assert l.nd in GroupNodes(sgl[i].groups);
      assert l.nd in SuperNodes(sgl);
    }
    if n in Ids(SuperNodes(sgl)) {
      var nd :| nd in SuperNodes(sgl) && nd.nid == n;
      var i :| 0 <= i < |sgl| && nd in GroupNodes(sgl[i].groups);
      var j :| 0 <= j < |sgl[i].groups| && nd in sgl[i].groups[j];
      ShownIsIndexed(path, t, GroupsOf(sgl), i, j, nd);
    }
  }

  lemma RegisteredIds(all: map<int, NodeDef>, order: seq<NodeDef>)
    requires Registers(all, order)
    ensures all.Keys == Ids(Elems(order)) && forall n :: n in all ==> all[n].nid == n
  {
    forall n | n in all
      ensures n in Ids(Elems(order)) && all[n].nid == n
    {
      var k :| 0 <= k < |order| && IsLastOf(order, k, n) && all[n] == order[k];
      assert order[k] in Elems(order);
    }
  }

  /**
    After parsing, the index has the ids of the first section; after a reset, those of both.
    They are the same exactly when the second section has no id of its own.
   */
  method ResetAfterParse(text: string) returns (gm: GroupManager, ghost before: set<int>)
    ensures before == Ids(SuperNodes(ReadFile(text).path))
    ensures gm.Consistent()
    ensures gm.nid2loc.Keys ==
            Ids(SuperNodes(ReadFile(text).path)) + Ids(SuperNodes(ReadFile(text).similar))
    ensures gm.nid2loc.Keys == before <==> Ids(SuperNodes(ReadFile(text).similar)) <= before
    ensures Registers(NodeMap(gm.nid2loc), NodesRead(PathInfo, SplitOn(text, '\n')))
  {
    hide Shows, Closed, SuperNodes, ReadFile, IndexPath, Registers, Tidy, Exact, AllSingle, NodesRead;
    gm := new GroupManager();
    Load(gm, text, true);
    ghost var path, similar := ReadFile(text).path, ReadFile(text).similar;
    forall n
      ensures n in gm.nid2loc <==> n in Ids(SuperNodes(path))
    {
      LoadedIds(gm.path, ListsOf(gm.st), path, n);
    }
    before := gm.nid2loc.Keys;
    ghost var order := NodesRead(PathInfo, SplitOn(text, '\n'));
    RegisteredIds(gm.allNodes, order);
    AllNodesRead(text);
    gm.ResetGroupping();
    assert NodeMap(gm.nid2loc).Keys == gm.nid2loc.Keys;
    assert Ids(Elems(order)) == Ids(SuperNodes(path)) + Ids(SuperNodes(similar));
  }

  lemma AllNodesRead(text: string)
    ensures Elems(NodesRead(PathInfo, SplitOn(text, '\n'))) ==
            SuperNodes(ReadFile(text).path) + SuperNodes(ReadFile(text).similar)
  {
    hide NodesRead, Steps;
    NodesReadAre(START, SplitOn(text, '\n'));
    assert SuperNodes([]) == {};
  }

  /** Node 1 of the second section stands on the path after a reset. */
  method SecondSectionSpills() returns (gm: GroupManager, ghost before: set<int>)
    ensures gm.Consistent() && 1 !in before && 1 in gm.nid2loc
  {
    hide Tidy, Exact, ReadFile, FileText;
    var path := [Super("a", "", [[NodeDef(0, 0, 4)]])];
    var similar := [Super("b", "", [[NodeDef(1, 4, 8)]])];
    ReadPrintedFile(path, similar);
    assert WithoutEmpty(path) == path && WithoutEmpty(similar) == similar;
    gm, before := ResetAfterParse(FileText(path, similar));
    HoldsNode(similar, 0, 0, NodeDef(1, 4, 8));
  }

  lemma HoldsNode(sgl: seq<Super>, i: nat, j: nat, nd: NodeDef)
    requires i < |sgl| && j < |sgl[i].groups| && nd in sgl[i].groups[j]
    ensures nd in SuperNodes(sgl) && nd.nid in Ids(SuperNodes(sgl))
  {
    assert nd in GroupNodes(sgl[i].groups);
  }
}

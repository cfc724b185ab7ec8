/** The printing and parsing loops of groupman.cpp, over the text of the file. */
module BBGroupFile {
  import opened Wrappers
  import opened Seqs
  import opened TextScan
  import opened GroupStore
  import opened BBGroupText

  // ----- emit -----------------------------------------------------------------

  method EmitGroup(ns: seq<NodeDef>, sofar: string) returns (out: string)
    ensures out == sofar + ("(" + NodesText(ns) + ")")
  {
    hide NodeText;
    out := sofar + "(";
    var c := |ns|;
    for i := 0 to |ns|
      invariant c == |ns| - i
      invariant out + NodesText(ns[i..]) == sofar + "(" + NodesText(ns)
    {
      ghost var before := out;
      out := out + NodeText(ns[i]);
      c := c - 1;
      if c != 0 {
        out := out + ", ";
      }
      assert ns[i..][1..] == ns[i + 1..];
      assert out + NodesText(ns[i + 1..]) == before + NodesText(ns[i..]);
    }
    assert out + "" == sofar + "(" + NodesText(ns);
    assert out == sofar + "(" + NodesText(ns);
    out := out + ")";
    assert out == sofar + ("(" + NodesText(ns) + ")");
  }

  method EmitGroups(gs: seq<seq<NodeDef>>, sofar: string) returns (out: string)
    ensures out == sofar + GroupsText(gs)
  {
    hide NodesText;
    out := sofar;
    var count := |gs|;
    for i := 0 to |gs|
      invariant count == |gs| - i
      invariant out + GroupsText(gs[i..]) == sofar + GroupsText(gs)
    {
      ghost var before := out;
      out := EmitGroup(gs[i], out);
      count := count - 1;
      if count != 0 {
        out := out + ", ";
      }
      assert gs[i..][1..] == gs[i + 1..];
      assert out + GroupsText(gs[i + 1..]) == before + GroupsText(gs[i..]);
    }
    assert GroupsText(gs[|gs|..]) == "";
  }

  method EmitSuper(sg: Super, sofar: string) returns (out: string)
    ensures out == sofar + SuperText(sg) + "\n"
  {
    out := EmitNames(sg, sofar);
    hide IdText, NameText, GroupsText;
    ghost var names := IdText(sg.id) + NameText(sg.name);
    if |sg.groups| > 0 {
      out := EmitGroups(sg.groups, out + "NODESET:");
      assert out == sofar + (names + ("NODESET:" + GroupsText(sg.groups)));
    } else {
      assert out == sofar + (names + "");
    }
    out := out + "\n";
  }

  method EmitNames(sg: Super, sofar: string) returns (out: string)
    ensures out == sofar + (IdText(sg.id) + NameText(sg.name))
  {
    out := sofar;
    if sg.id != "" {
      out := out + ("ID:" + sg.id + ";");
    }
    assert out == sofar + IdText(sg.id);
    if sg.name != "" {
      out := out + ("GROUPNAME:" + sg.name + ";");
    }
    assert out == sofar + (IdText(sg.id) + NameText(sg.name));
  }

  method EmitSgl(sgl: seq<Super>, sofar: string) returns (out: string)
    ensures out == sofar + SupersText(sgl)
  {
    hide SuperText;
    out := sofar;
    for i := 0 to |sgl|
      invariant out + SupersText(sgl[i..]) == sofar + SupersText(sgl)
    {
      assert sgl[i..][1..] == sgl[i + 1..];
      ghost var before := out;
      out := EmitSuper(sgl[i], out);
      assert out + SupersText(sgl[i + 1..]) == before + SupersText(sgl[i..]);
    }
    assert SupersText(sgl[|sgl|..]) == "";
  }

  method Emit(path: seq<Super>, similar: seq<Super>, additional: Option<string>) returns (out: string)
    ensures out == FileText(path, similar) + AdditionalText(additional)
    ensures additional.None? ==> out == FileText(path, similar)
    ensures additional.Some? ==> out == FileText(path, similar) + (additional.value + "\n")
  {
    hide SupersText;
    out := "--PATHINFO\n";
    out := EmitSgl(path, out);
    out := out + "--SIMILARINFO\n";
    out := EmitSgl(similar, out);
    assert out == FileText(path, similar);
    if additional.Some? {
      out := out + (additional.value + "\n");
    }
    assert additional.None? ==> out == FileText(path, similar) + "";
  }

  // ----- parse ----------------------------------------------------------------

  /** The nodes of the groups, one group after the other. */
  ghost function InTurn(gs: seq<seq<NodeDef>>): seq<NodeDef> {
    if gs == [] then [] else gs[0] + InTurn(gs[1..])
  }

  /** The nodes that the lines name, in the order of the text. */
  ghost function NodesRead(cur: Section, lines: seq<string>): seq<NodeDef>
    decreases lines
  {
    if lines == [] then []
    else if IsSuperLine(lines[0]) && cur != Unknown
    then InTurn(ReadLine(SkipSpaces(lines[0])).groups) + NodesRead(cur, lines[1..])
    else NodesRead(Step(Reading([], [], cur), lines[0]).cur, lines[1..])
  }

  ghost function GroupNodes(gs: seq<seq<NodeDef>>): set<NodeDef> {
    set i, nd | 0 <= i < |gs| && nd in gs[i] :: nd
  }

  ghost function SuperNodes(sgl: seq<Super>): set<NodeDef> {
    set i, nd | 0 <= i < |sgl| && nd in GroupNodes(sgl[i].groups) :: nd
  }

  /** all_nodes has the ids of the nodes read, each with the node read last under it. */
  ghost predicate Registers(all: map<int, NodeDef>, order: seq<NodeDef>) {
    && (forall nd :: nd in order ==> nd.nid in all)
    && (forall n :: n in all ==> exists k :: 0 <= k < |order| && IsLastOf(order, k, n) && all[n] == order[k])
  }

  ghost predicate IsLastOf(order: seq<NodeDef>, k: nat, n: int)
    requires k < |order|
  {
    order[k].nid == n && forall j :: k < j < |order| ==> order[j].nid != n
  }

  lemma MapNodedef(all: map<int, NodeDef>, order: seq<NodeDef>, nd: NodeDef)
    requires Registers(all, order)
    ensures Registers(all[nd.nid := nd], order + [nd])
  {
    var all', order' := all[nd.nid := nd], order + [nd];
    forall n | n in all'
      ensures exists k :: 0 <= k < |order'| && IsLastOf(order', k, n) && all'[n] == order'[k]
    {
      if n == nd.nid {
        assert IsLastOf(order', |order|, n);
      } else {
        var k :| 0 <= k < |order| && IsLastOf(order, k, n) && all[n] == order[k];
        assert IsLastOf(order', k, n);
      }
    }
  }

  lemma {:induction false} InTurnMore(gs: seq<seq<NodeDef>>, hs: seq<seq<NodeDef>>)
    ensures InTurn(gs + hs) == InTurn(gs) + InTurn(hs)
  {
    if gs == [] {
      assert gs + hs == hs;
    } else {
      assert (gs + hs)[1..] == gs[1..] + hs;
      InTurnMore(gs[1..], hs);
      ConcatAssoc(gs[0], InTurn(gs[1..]), InTurn(hs));
    }
  }

  lemma OneInTurn(ns: seq<NodeDef>)
    ensures InTurn([ns]) == ns
  {
    assert [ns][1..] == [];
  }

  lemma {:induction false} InTurnNodes(gs: seq<seq<NodeDef>>)
    ensures Elems(InTurn(gs)) == GroupNodes(gs)
  {
    if gs != [] {
      InTurnNodes(gs[1..]);
      assert gs == [gs[0]] + gs[1..];
      GroupNodesMore([gs[0]], gs[1..]);
      assert GroupNodes([gs[0]]) == Elems(gs[0]) by {
        assert [gs[0]][0] == gs[0];
      }
    }
  }

  lemma GroupNodesMore(gs: seq<seq<NodeDef>>, hs: seq<seq<NodeDef>>)
    ensures GroupNodes(gs + hs) == GroupNodes(gs) + GroupNodes(hs)
  {
    var all := gs + hs;
    forall nd | nd in GroupNodes(gs)
      ensures nd in GroupNodes(all)
    {
      var i :| 0 <= i < |gs| && nd in gs[i];
      assert nd in all[i];
    }
    forall nd | nd in GroupNodes(hs)
      ensures nd in GroupNodes(all)
    {
      var i :| 0 <= i < |hs| && nd in hs[i];
      assert nd in all[|gs| + i];
    }
  }

  lemma SuperNodesMore(sgl: seq<Super>, sg: Super)
    ensures SuperNodes(sgl + [sg]) == SuperNodes(sgl) + GroupNodes(sg.groups)
  {
    hide GroupNodes;
    var all := sgl + [sg];
    forall nd | nd in SuperNodes(sgl)
      ensures nd in SuperNodes(all)
    {
      var i :| 0 <= i < |sgl| && nd in GroupNodes(sgl[i].groups);
      assert nd in GroupNodes(all[i].groups);
    }
    assert all[|sgl|] == sg;
  }

  /** The nodes read are those of both lists. */
  lemma {:induction false} NodesReadAre(st: Reading, lines: seq<string>)
    ensures var r := Steps(st, lines);
            SuperNodes(r.path) + SuperNodes(r.similar) ==
            SuperNodes(st.path) + SuperNodes(st.similar) + Elems(NodesRead(st.cur, lines))
    decreases lines
  {
    hide Step, IsSuperLine, ReadLine, SkipSpaces, SuperNodes, GroupNodes, InTurn;
    if lines != [] {
      var st' := Step(st, lines[0]);
      NodesReadAre(st', lines[1..]);
      NodesOfStep(st, lines[0]);
    }
  }

  lemma NodesOfStep(st: Reading, line: string)
    ensures var st' := Step(st, line);
            var sg := ReadLine(SkipSpaces(line));
            if IsSuperLine(line) && st.cur != Unknown
            then st'.cur == st.cur &&
                 SuperNodes(st'.path) + SuperNodes(st'.similar) ==
                 SuperNodes(st.path) + SuperNodes(st.similar) + Elems(InTurn(sg.groups))
            else st'.path == st.path && st'.similar == st.similar &&
                 st'.cur == Step(Reading([], [], st.cur), line).cur
  {
    hide ReadLine, SkipSpaces, SuperNodes, GroupNodes, InTurn;
    var sg := ReadLine(SkipSpaces(line));
    InTurnNodes(sg.groups);
    SuperNodesMore(st.path, sg);
    SuperNodesMore(st.similar, sg);
  }

  method ParseGroup(text: string, all: map<int, NodeDef>, ghost order: seq<NodeDef>)
    returns (ns: seq<NodeDef>, all': map<int, NodeDef>)
    requires Registers(all, order)
    ensures ns == ReadItems(Items(text)) && Registers(all', order + ns)
  {
    hide Registers, Items, ReadNode;
    all' := all;
    ns := [];
    assert order + ns == order;
    var items := Items(text);
    for i := 0 to |items|
      invariant ns + ReadItems(items[i..]) == ReadItems(items)
      invariant Registers(all', order + ns)
    {
      assert items[i..][1..] == items[i + 1..];
      var nd := ReadNode(SkipSpaces(items[i]));
      if nd.Some? {
        MapNodedef(all', order + ns, nd.value);
        ConcatAssoc(order, ns, [nd.value]);
        ns := ns + [nd.value];
        all' := all'[nd.value.nid := nd.value];
      }
    }
    assert ReadItems(items[|items|..]) == [];
  }

  method ParseNodeset(grpstr: string, all: map<int, NodeDef>, ghost order: seq<NodeDef>)
    returns (gs: seq<seq<NodeDef>>, all': map<int, NodeDef>)
    requires Registers(all, order)
    ensures gs == ReadGroups(grpstr) && Registers(all', order + InTurn(gs))
  {
    hide NextGroup, ReadItems, Items, Registers;
    gs, all' := [], all;
    assert order + InTurn([]) == order;
    var s := grpstr;
    var next := NextGroup(s);
    while next.Some?
      invariant next == NextGroup(s)
      invariant gs + ReadGroups(s) == ReadGroups(grpstr)
      invariant Registers(all', order + InTurn(gs))
      decreases |s|
    {
      NextShorter(s);
      var (text, rest) := next.value;
      var ns;
      ns, all' := ParseGroup(text, all', order + InTurn(gs));
      OneMoreGroup(order, gs, ns);
      gs := gs + [ns];
      s := rest;
      next := NextGroup(s);
    }
  }

  lemma OneMoreGroup(order: seq<NodeDef>, gs: seq<seq<NodeDef>>, ns: seq<NodeDef>)
    ensures order + InTurn(gs + [ns]) == order + InTurn(gs) + ns
  {
    InTurnMore(gs, [ns]);
    OneInTurn(ns);
    ConcatAssoc(order, InTurn(gs), ns);
  }

  lemma NextShorter(s: string)
    requires NextGroup(s).Some?
    ensures |NextGroup(s).value.1| < |s|
  {
  }

  method ParseLine(line: string, all: map<int, NodeDef>, ghost order: seq<NodeDef>)
    returns (sg: Super, all': map<int, NodeDef>)
    requires Registers(all, order)
    ensures sg == ReadLine(line) && Registers(all', order + InTurn(sg.groups))
  {
    hide Tokens, SameIgnoringCase, Registers;
    sg, all' := EMPTY, all;
    assert order + InTurn([]) == order;
    var tokens := Tokens(line, ';');
    assert tokens[0..] == tokens;
    for i := 0 to |tokens|
      invariant ReadTokens(sg, tokens[i..]) == ReadLine(line)
      invariant Registers(all', order + InTurn(sg.groups))
    {
      assert tokens[i..][1..] == tokens[i + 1..];
      var colon := Find(tokens[i], ':');
      if colon.None? {
        continue;
      }
      var val := SkipSpaces(tokens[i][colon.value + 1..]);
      var key := SkipSpaces(tokens[i][..colon.value]);
      if SameIgnoringCase(key, "ID") {
        sg := sg.(id := val);
      } else if SameIgnoringCase(key, "GROUPNAME") {
        sg := sg.(name := val);
      } else if SameIgnoringCase(key, "NODESET") {
        var gs;
        gs, all' := ParseNodeset(val, all', order + InTurn(sg.groups));
        InTurnMore(sg.groups, gs);
        ConcatAssoc(order, InTurn(sg.groups), InTurn(gs));
        sg := sg.(groups := sg.groups + gs);
      }
    }
  }

  /** The nodes of both sections are registered, the last one under each id. */
  method Parse(text: string) returns (path: seq<Super>, similar: seq<Super>, all: map<int, NodeDef>)
    ensures path == ReadFile(text).path && similar == ReadFile(text).similar
    ensures Registers(all, NodesRead(PathInfo, SplitOn(text, '\n')))
  {
    hide SplitOn, ReadLine, SkipSpaces, Registers, InTurn;
    path, similar, all := [], [], map[];
    NothingRegistered();
    var cur := PathInfo;
    var lines := SplitOn(text, '\n');
    assert lines[0..] == lines;
    ghost var order: seq<NodeDef> := [];
    for i := 0 to |lines|
      invariant Steps(Reading(path, similar, cur), lines[i..]) == ReadFile(text)
      invariant order + NodesRead(cur, lines[i..]) == NodesRead(PathInfo, lines)
      invariant Registers(all, order)
    {
      assert lines[i..][1..] == lines[i + 1..];
      var s := SkipSpaces(lines[i]);
      if s == "" || s[0] == '#' {
        continue;
      }
      if |s| >= 3 && s[0] == '-' && s[1] == '-' {
        if s[2..] == "PATHINFO" {
          cur := PathInfo;
        } else if s[2..] == "SIMILARINFO" {
          cur := SimilarInfo;
        } else {
          cur := Unknown;
        }
        continue;
      }
      if cur == Unknown {
        continue;
      }
      var sg;
      sg, all := ParseLine(s, all, order);
      ConcatAssoc(order, InTurn(sg.groups), NodesRead(cur, lines[i + 1..]));
      order := order + InTurn(sg.groups);
      if cur == PathInfo {
        path := path + [sg];
      } else {
        similar := similar + [sg];
      }
    }
    assert order + [] == order;
  }

  lemma NothingRegistered()
    ensures Registers(map[], [])
  {
  }
}

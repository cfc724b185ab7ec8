/**
  The three-level structure of the group manager as a value. S and G stand for
  references to super groups and node groups; the keys of the two shelves are the
  objects that belong to the structure.
 */
module GroupStore {
  import opened Seqs
  import opened Shelves

  datatype NodeDef = NodeDef(nid: int, start: nat, end: nat)

  datatype Loc<+S, +G> = Loc(sg: S, ng: G, nd: NodeDef)

  type Index<!S, !G> = map<int, Loc<S, G>>

  datatype Store<!S, !G> = Store(path: seq<S>, top: Shelf<S, G>, low: Shelf<G, NodeDef>)

  // ----- the invariant --------------------------------------------------------

  /** Each super group stands once on the path, none is empty, no group has two hosts. */
  ghost predicate TopTidy<S, G>(path: seq<S>, top: Shelf<S, G>) {
    && NoRepeats(path)
    && (forall sg :: sg in path ==> sg in top.lists)
    && (forall sg :: sg in top.lists ==> sg in path)
    && Good(top) && NoneEmpty(top, {})
  }

  /** Each node stands in one group, and only groups in `open` may be empty. */
  ghost predicate Tidy<S, G>(st: Store<S, G>, open: set<G>) {
    && TopTidy(st.path, st.top)
    && Good(st.low) && NoneEmpty(st.low, open)
    && st.low.lists.Keys == st.top.at.Keys
  }

  ghost predicate Inverse<S, G>(host: map<G, S>, home: map<NodeDef, G>, idx: Index<S, G>) {
    && (forall nd :: nd in home ==>
          nd.nid in idx && home[nd] in host && idx[nd.nid] == Loc(host[home[nd]], home[nd], nd))
    && (forall n :: n in idx ==> idx[n].nd in home && idx[n].nd.nid == n)
  }

  /** The index is the exact inverse of the structure; in particular node ids are unique. */
  ghost predicate Exact<S, G>(st: Store<S, G>, idx: Index<S, G>) {
    Inverse(st.top.at, st.low.at, idx)
  }

  lemma TidyHosts<S, G>(st: Store<S, G>)
    requires Tidy(st, {})
    ensures forall g :: g in st.top.at ==>
              g in st.low.lists && st.low.lists[g] != [] &&
              st.top.at[g] in st.top.lists && g in st.top.lists[st.top.at[g]]
  {
  }

  /**
    What the invariant means for the lists: nothing is empty, and a node id stands at a
    place exactly when the index names that place.
   */
  lemma ConsistencyMeans<S, G>(st: Store<S, G>, idx: Index<S, G>)
    requires Tidy(st, {}) && Exact(st, idx)
    ensures forall sg :: sg in st.path ==> sg in st.top.lists && st.top.lists[sg] != []
    ensures forall sg, ng :: sg in st.path && ng in st.top.lists[sg] ==>
              ng in st.low.lists && st.low.lists[ng] != []
    ensures forall sg, ng, nd ::
              sg in st.path && ng in st.top.lists[sg] && nd in st.low.lists[ng] ==>
              nd.nid in idx && idx[nd.nid] == Loc(sg, ng, nd)
    ensures forall n :: n in idx ==>
              && idx[n].nd.nid == n && idx[n].sg in st.path
              && idx[n].ng in st.top.lists[idx[n].sg] && idx[n].nd in st.low.lists[idx[n].ng]
  {
    forall sg, ng | sg in st.path && ng in st.top.lists[sg]
      ensures ng in st.low.lists && st.low.lists[ng] != []
    {
      assert ng in st.top.at;
    }
  }

  // ----- combine_ngl ----------------------------------------------------------

  /** Take ng off its super group, and the super group off the path once it is empty. */
  function DropGroup<S(==), G(==)>(st: Store<S, G>, sg: S, ng: G): Store<S, G>
    requires sg in st.top.lists
  {
    var top := Take(st.top, sg, ng);
    if top.lists[sg] != [] then st.(top := top)
    else st.(top := DropKey(top, sg), path := Remove(st.path, sg))
  }

  /** The super groups and groups that stay keep their order. */
  lemma DropGroupOrder<S, G>(st: Store<S, G>, sg: S, ng: G)
    requires sg in st.top.lists
    ensures var st' := DropGroup(st, sg, ng);
            && Thinned(st.path, st'.path)
            && forall k :: k in st'.top.lists ==> k in st.top.lists && Thinned(st.top.lists[k], st'.top.lists[k])
  {
    RemoveThins(st.path, sg);
    RemoveThins(st.top.lists[sg], ng);
    ThinnedSelf(st.path);
    forall k | k in st.top.lists
      ensures Thinned(st.top.lists[k], st.top.lists[k])
    {
      ThinnedSelf(st.top.lists[k]);
    }
    hide Thinned;
  }

  /** So they do when a node is taken out, and the nodes that stay as well. */
  lemma TakeOutOrder<S, G>(st: Store<S, G>, l: Loc<S, G>)
    requires l.sg in st.top.lists && l.ng in st.low.lists
    ensures var st' := TakeOut(st, l);
            && Thinned(st.path, st'.path)
            && (forall k :: k in st'.top.lists ==> k in st.top.lists && Thinned(st.top.lists[k], st'.top.lists[k]))
            && (forall g :: g in st'.low.lists ==> g in st.low.lists && Thinned(st.low.lists[g], st'.low.lists[g]))
  {
    var low := Take(st.low, l.ng, l.nd);
    DropGroupOrder(st.(low := DropKey(low, l.ng)), l.sg, l.ng);
    RemoveThins(st.low.lists[l.ng], l.nd);
    ThinnedSelf(st.path);
    forall k | k in st.top.lists
      ensures Thinned(st.top.lists[k], st.top.lists[k])
    {
      ThinnedSelf(st.top.lists[k]);
    }
    forall g | g in st.low.lists
      ensures Thinned(st.low.lists[g], st.low.lists[g])
    {
      ThinnedSelf(st.low.lists[g]);
    }
    hide Thinned, DropGroup;
  }

  lemma TakeOutKeys<S, G>(st: Store<S, G>, l: Loc<S, G>, dest: G)
    requires l.sg in st.top.lists && l.ng in st.low.lists && dest in st.low.lists && l.ng != dest
    ensures var st' := TakeOut(st, l);
            && dest in st'.low.lists
            && st'.top.lists.Keys <= st.top.lists.Keys && st'.low.lists.Keys <= st.low.lists.Keys
  {
  }

  /** A group split off is the last of its super group; a promoted one stands at the end of the path. */
  lemma SplitOrder<S, G>(st: Store<S, G>, l: Loc<S, G>, ng: G)
    requires l.sg in st.top.lists && l.ng in st.low.lists && ng !in st.low.lists
    ensures var st' := Split(st, l, ng);
            && st'.path == st.path && st'.top.lists.Keys == st.top.lists.Keys
            && st'.low.lists[ng] == [l.nd] && Thinned(st.low.lists[l.ng], st'.low.lists[l.ng])
            && forall k :: k in st.top.lists ==>
                 st'.top.lists[k] == if k == l.sg then st.top.lists[k] + [ng] else st.top.lists[k]
  {
    RemoveThins(st.low.lists[l.ng], l.nd);
  }

  lemma PromoteOrder<S, G>(st: Store<S, G>, sg: S, ng: G, own: S)
    requires sg in st.top.lists && own !in st.top.lists
    ensures var st' := Promote(st, sg, ng, own);
            && st'.path == st.path + [own] && st'.top.lists[own] == [ng]
            && Thinned(st.top.lists[sg], st'.top.lists[sg])
  {
    RemoveThins(st.top.lists[sg], ng);
  }

  lemma DropGroupTidy<S, G>(st: Store<S, G>, sg: S, ng: G)
    requires TopTidy(st.path, st.top) && ng in st.top.at && st.top.at[ng] == sg
    ensures var st' := DropGroup(st, sg, ng);
            && TopTidy(st'.path, st'.top)
            && st'.top.at == st.top.at - {ng}
            && st'.low == st.low
  {
    TakeGood(st.top, sg, ng);
    RemoveNoRepeats(st.path, sg);
    var top := Take(st.top, sg, ng);
    if top.lists[sg] == [] {
      DropKeyGood(top, sg);
    }
  }

  /** One round: the nodes of ng go to the end of dest, and ng is dropped. */
  function Merge<S(==), G(==)>(st: Store<S, G>, sg: S, ng: G, dest: G): Store<S, G>
    requires sg in st.top.lists && ng in st.low.lists && dest in st.low.lists
  {
    DropGroup(st.(low := Pour(st.low, ng, dest)), sg, ng)
  }

  /** The index after the groups of `from` have been merged into dest. */
  ghost function MergedIndex<S, G>(idx: Index<S, G>, from: set<G>, sg: S, dest: G): Index<S, G> {
    map n | n in idx :: if idx[n].ng in from then Loc(sg, dest, idx[n].nd) else idx[n]
  }

  lemma {:induction false} MergeKeeps<S, G>(st: Store<S, G>, idx: Index<S, G>, sg: S, ng: G, dsg: S, dest: G)
    requires Tidy(st, {}) && Exact(st, idx)
    requires ng in st.top.at && st.top.at[ng] == sg
    requires dest in st.top.at && st.top.at[dest] == dsg && ng != dest
    ensures var st' := Merge(st, sg, ng, dest);
            && Tidy(st', {})
            && Exact(st', MergedIndex(idx, {ng}, dsg, dest))
            && st'.top.at == st.top.at - {ng}
  {
    var low := Pour(st.low, ng, dest);
    PourGood(st.low, ng, dest);
    DropGroupTidy(st.(low := low), sg, ng);
    assert low.lists.Keys == st.low.lists.Keys - {ng};
    MergeInverse(st.top.at, st.low.at, idx, ng, dsg, dest);
  }

  lemma MergeInverse<S, G>(
    host: map<G, S>, home: map<NodeDef, G>, idx: Index<S, G>, ng: G, dsg: S, dest: G)
    requires Inverse(host, home, idx) && dest in host && host[dest] == dsg && ng != dest
    ensures Inverse(host - {ng},
                    map nd | nd in home :: if home[nd] == ng then dest else home[nd],
                    MergedIndex(idx, {ng}, dsg, dest))
  {
  }

  lemma MergedIndexStep<S, G>(idx: Index<S, G>, from: set<G>, ng: G, sg: S, dest: G)
    requires dest !in from && ng != dest
    ensures MergedIndex(MergedIndex(idx, from, sg, dest), {ng}, sg, dest) ==
            MergedIndex(idx, from + {ng}, sg, dest)
  {
  }

  /**
    Inside the loop of combine_ngl: `idx` still describes the structure at entry, where
    `host` was its upper level; the groups of `moved` have since gone into dest.
   */
  ghost predicate Midway<S, G>(
    st: Store<S, G>, idx: Index<S, G>, host: map<G, S>, dsg: S, dest: G, moved: set<G>)
  {
    && Tidy(st, {})
    && Exact(st, MergedIndex(idx, moved, dsg, dest))
    && dest !in moved && dest in host && host[dest] == dsg
    && st.top.at == host - moved
  }

  lemma MidwayStart<S, G>(st: Store<S, G>, idx: Index<S, G>, dest: G)
    requires Tidy(st, {}) && Exact(st, idx) && dest in st.top.at
    ensures Midway(st, idx, st.top.at, st.top.at[dest], dest, {})
  {
    assert MergedIndex(idx, {}, st.top.at[dest], dest) == idx;
    assert st.top.at - {} == st.top.at;
  }

  /** What the stale index says of a group not yet moved is still true. */
  lemma StaleReadIsCurrent<S, G>(
    st: Store<S, G>, idx: Index<S, G>, host: map<G, S>, dsg: S, dest: G, moved: set<G>,
    ng: G, nd: NodeDef)
    requires Midway(st, idx, host, dsg, dest, moved)
    requires ng in host && ng !in moved && ng != dest
    requires ng in st.low.lists && nd in st.low.lists[ng]
    ensures nd.nid in idx && idx[nd.nid] == Loc(host[ng], ng, nd)
  {
    assert st.low.at[nd] == ng;
  }

  lemma MidwayPlaces<S, G>(
    st: Store<S, G>, idx: Index<S, G>, host: map<G, S>, dsg: S, dest: G, moved: set<G>, ng: G)
    requires Midway(st, idx, host, dsg, dest, moved) && ng in host && ng !in moved
    ensures ng in st.top.at && st.top.at[ng] == host[ng]
    ensures ng in st.low.lists && st.low.lists[ng] != []
    ensures host[ng] in st.top.lists && ng in st.top.lists[host[ng]]
  {
  }

  /** The nodes that dest has once the groups of ngl have been merged into it, in that order. */
  ghost function Gathered<G>(lists: map<G, seq<NodeDef>>, ngl: seq<G>, dest: G): seq<NodeDef>
    requires dest in lists
  {
    if ngl == [] then lists[dest] else
      var n := |ngl| - 1;
      var ng := ngl[n];
      Gathered(lists, ngl[..n], dest) +
      (if ng == dest || ng in ngl[..n] || ng !in lists then [] else lists[ng])
  }

  /** The lists once the groups of ngl have been merged into dest. */
  ghost predicate MergedSoFar<G>(
    lists0: map<G, seq<NodeDef>>, lists: map<G, seq<NodeDef>>, ngl: seq<G>, dest: G)
  {
    && dest in lists0 && dest in lists && lists[dest] == Gathered(lists0, ngl, dest)
    && forall g :: g in lists && g != dest ==> g in lists0 && lists[g] == lists0[g]
  }

  /** One round: dest gets the nodes of ng, unless that is itself or empty by now. */
  ghost predicate RoundMerges<G>(
    lists: map<G, seq<NodeDef>>, lists': map<G, seq<NodeDef>>, ng: G, dest: G, moved: set<G>)
  {
    && dest in lists && dest in lists' && (ng != dest && ng !in moved ==> ng in lists)
    && lists'[dest] == lists[dest] + (if ng == dest || ng in moved then [] else lists[ng])
    && forall g :: g in lists' && g != dest ==> g in lists && lists'[g] == lists[g]
  }

  lemma MergedNext<G>(
    lists0: map<G, seq<NodeDef>>, lists: map<G, seq<NodeDef>>, lists': map<G, seq<NodeDef>>,
    ngl: seq<G>, i: nat, dest: G, moved: set<G>)
    requires i < |ngl| && MergedSoFar(lists0, lists, ngl[..i], dest)
    requires RoundMerges(lists, lists', ngl[i], dest, moved)
    requires moved == Elems(ngl[..i]) - {dest}
    ensures MergedSoFar(lists0, lists', ngl[..i + 1], dest)
  {
    assert ngl[..i + 1][..i] == ngl[..i];
  }

  lemma MergedStart<G>(lists: map<G, seq<NodeDef>>, ngl: seq<G>, dest: G)
    requires dest in lists
    ensures MergedSoFar(lists, lists, ngl[..0], dest)
  {
  }

  /** A round appends the nodes of one group and leaves the lists of the others alone. */
  lemma MergeLists<S, G>(st: Store<S, G>, sg: S, ng: G, dest: G)
    requires sg in st.top.lists && ng in st.low.lists && dest in st.low.lists && ng != dest
    ensures var low := Merge(st, sg, ng, dest).low;
            && dest in low.lists && low.lists[dest] == st.low.lists[dest] + st.low.lists[ng]
            && forall g :: g in low.lists && g != dest ==> g in st.low.lists && low.lists[g] == st.low.lists[g]
  {
  }

  /** The list holds the nodes of the given ids, in that order, as the index has them. */
  ghost predicate InOrder<S, G>(idx: Index<S, G>, ids: seq<int>, nodes: seq<NodeDef>) {
    |nodes| == |ids| && forall i :: 0 <= i < |ids| ==> ids[i] in idx && nodes[i] == idx[ids[i]].nd
  }

  lemma InOrderNext<S, G>(idx: Index<S, G>, ids: seq<int>, i: nat, nodes: seq<NodeDef>)
    requires i < |ids| && ids[i] in idx && InOrder(idx, ids[..i], nodes)
    ensures InOrder(idx, ids[..i + 1], nodes + [idx[ids[i]].nd])
  {
  }

  /** A node moved goes to the end of its new group. */
  lemma MoveLists<S, G>(st: Store<S, G>, l: Loc<S, G>, dest: G)
    requires l.sg in st.top.lists && l.ng in st.low.lists && dest in st.low.lists && l.ng != dest
    ensures dest in MoveNode(st, l, dest).low.lists
    ensures MoveNode(st, l, dest).low.lists[dest] == st.low.lists[dest] + [l.nd]
  {
  }

  lemma MidwayEnd<S, G>(
    st: Store<S, G>, idx: Index<S, G>, host: map<G, S>, dsg: S, dest: G, moved: set<G>)
    requires Midway(st, idx, host, dsg, dest, moved)
    ensures Tidy(st, {}) && Exact(st, MergedIndex(idx, moved, dsg, dest))
    ensures st.top.at == host - moved
  {
  }

  lemma {:induction false} MidwayStep<S, G>(
    st: Store<S, G>, idx: Index<S, G>, host: map<G, S>, dsg: S, dest: G, moved: set<G>, ng: G)
    requires Midway(st, idx, host, dsg, dest, moved)
    requires ng in host && ng !in moved && ng != dest
    requires host[ng] in st.top.lists && ng in st.low.lists && dest in st.low.lists
    ensures Midway(Merge(st, host[ng], ng, dest), idx, host, dsg, dest, moved + {ng})
  {
    hide Tidy, Exact, Merge, MergedIndex;
    MergeKeeps(st, MergedIndex(idx, moved, dsg, dest), host[ng], ng, dsg, dest);
    MergedIndexStep(idx, moved, ng, dsg, dest);
    assert host - moved - {ng} == host - (moved + {ng});
  }

  // ----- move_nodes_to_ng -----------------------------------------------------

  function AddEmptyGroup<S(==), G(==)>(st: Store<S, G>, sg: S, ng: G): Store<S, G>
    requires sg in st.top.lists
  {
    st.(top := Put(st.top, sg, ng), low := NewKey(st.low, ng))
  }

  lemma AddEmptyGroupKeeps<S, G>(st: Store<S, G>, idx: Index<S, G>, sg: S, ng: G)
    requires Tidy(st, {}) && Exact(st, idx) && sg in st.path && ng !in st.low.lists
    ensures Tidy(AddEmptyGroup(st, sg, ng), {ng})
    ensures Exact(AddEmptyGroup(st, sg, ng), idx)
  {
    hide Good, Put, NoneEmpty, NewKey, Inverse;
    PutKeeps(st.top, sg, ng);
    NewKeyOpen(st.low, ng);
    HostAdded(st.top.at, st.low.at, idx, sg, ng);
  }

  lemma HostAdded<S, G>(host: map<G, S>, home: map<NodeDef, G>, idx: Index<S, G>, sg: S, ng: G)
    requires Inverse(host, home, idx) && ng !in host
    ensures Inverse(host[ng := sg], home, idx)
  {
  }

  lemma AddedKeys<S, G>(st: Store<S, G>, sg: S, ng: G)
    requires sg in st.top.lists
    ensures var st' := AddEmptyGroup(st, sg, ng);
            && st'.top.lists.Keys == st.top.lists.Keys
            && st'.low.lists.Keys == st.low.lists.Keys + {ng}
            && st'.low.lists[ng] == []
  {
  }

  /** Take a node off its group, and the group off its super group once it is empty. */
  function TakeOut<S(==), G(==)>(st: Store<S, G>, l: Loc<S, G>): Store<S, G>
    requires l.sg in st.top.lists && l.ng in st.low.lists
  {
    var low := Take(st.low, l.ng, l.nd);
    if low.lists[l.ng] != [] then st.(low := low)
    else DropGroup(st.(low := DropKey(low, l.ng)), l.sg, l.ng)
  }

  /** One round: the node leaves its group and goes to the end of dest. */
  function MoveNode<S(==), G(==)>(st: Store<S, G>, l: Loc<S, G>, dest: G): Store<S, G>
    requires l.sg in st.top.lists && l.ng in st.low.lists && dest in st.low.lists
    requires l.ng != dest
  {
    var st' := TakeOut(st, l);
    st'.(low := Put(st'.low, dest, l.nd))
  }

  ghost predicate Stands<S, G>(st: Store<S, G>, l: Loc<S, G>) {
    && l.nd in st.low.at && st.low.at[l.nd] == l.ng
    && l.ng in st.top.at && st.top.at[l.ng] == l.sg
  }

  lemma StandsInside<S, G>(st: Store<S, G>, l: Loc<S, G>, open: set<G>)
    requires Tidy(st, open) && Stands(st, l)
    ensures l.sg in st.top.lists && l.ng in st.low.lists && l.nd in st.low.lists[l.ng]
  {
  }

  lemma TakeOutTidy<S, G>(st: Store<S, G>, l: Loc<S, G>, open: set<G>)
    requires Tidy(st, open) && Stands(st, l)
    ensures var st' := TakeOut(st, l);
            && Tidy(st', open)
            && st'.low.at == st.low.at - {l.nd}
            && st'.top.at == (if st.low.lists[l.ng] == [l.nd] then st.top.at - {l.ng} else st.top.at)
  {
    TakeGood(st.low, l.ng, l.nd);
    var low := Take(st.low, l.ng, l.nd);
    OneLeft(st.low.lists[l.ng], l.nd);
    if low.lists[l.ng] == [] {
      DropKeyGood(low, l.ng);
      DropGroupTidy(st.(low := DropKey(low, l.ng)), l.sg, l.ng);
    }
  }

  lemma OneLeft<T>(s: seq<T>, x: T)
    requires NoRepeats(s) && x in s
    ensures Remove(s, x) == [] <==> s == [x]
  {
    RemoveNoRepeats(s, x);
  }

  lemma MoveNodeTidy<S, G>(st: Store<S, G>, l: Loc<S, G>, dest: G)
    requires Tidy(st, {dest}) && Stands(st, l) && dest in st.top.at && l.ng != dest
    ensures var st' := MoveNode(st, l, dest);
            && Tidy(st', {})
            && st'.low.at == st.low.at[l.nd := dest]
            && st'.top.at == (if st.low.lists[l.ng] == [l.nd] then st.top.at - {l.ng} else st.top.at)
  {
    hide Good, TopTidy, NoneEmpty, TakeOut, Stands, Put;
    StandsInside(st, l, {dest});
    TakeOutTidy(st, l, {dest});
    var low := TakeOut(st, l).low;
    PutFills(low, dest, l.nd);
    assert st.low.at[l.nd := dest] == (st.low.at - {l.nd})[l.nd := dest];
  }

  lemma MoveInverse<S, G>(
    host: map<G, S>, host': map<G, S>, home: map<NodeDef, G>, idx: Index<S, G>,
    l: Loc<S, G>, dsg: S, dest: G)
    requires Inverse(host, home, idx) && l.nd in home
    requires dest in host' && host'[dest] == dsg
    requires forall nd :: nd in home && nd != l.nd ==>
               home[nd] in host' && host'[home[nd]] == host[home[nd]]
    ensures Inverse(host', home[l.nd := dest], idx[l.nd.nid := Loc(dsg, dest, l.nd)])
  {
  }

  lemma {:induction false} MoveNodeKeeps<S, G>(st: Store<S, G>, idx: Index<S, G>, l: Loc<S, G>, dsg: S, dest: G)
    requires Tidy(st, {dest}) && Exact(st, idx) && Stands(st, l)
    requires dest in st.top.at && st.top.at[dest] == dsg && l.ng != dest
    ensures var st' := MoveNode(st, l, dest);
            && Tidy(st', {})
            && Exact(st', idx[l.nd.nid := Loc(dsg, dest, l.nd)])
            && dest in st'.top.at && st'.top.at[dest] == dsg
  {
    hide Inverse, MoveNode, TopTidy, NoneEmpty, NoRepeats;
    StandsInside(st, l, {dest});
    MoveNodeTidy(st, l, dest);
    forall nd | nd in st.low.at && nd != l.nd
      ensures st.low.lists[l.ng] == [l.nd] ==> st.low.at[nd] != l.ng
    {
      assert nd in st.low.lists[st.low.at[nd]];
    }
    HomesHosted(st, idx);
    MoveInverse(st.top.at, MoveNode(st, l, dest).top.at, st.low.at, idx, l, dsg, dest);
  }

  /** The index after the nodes of `ns` have gone to one group. */
  ghost function MovedIndex<S, G>(idx: Index<S, G>, ns: set<int>, sg: S, ng: G): Index<S, G> {
    map n | n in idx :: if n in ns then Loc(sg, ng, idx[n].nd) else idx[n]
  }

  /** A group no node of the index stands in. */
  ghost predicate Unused<S, G>(idx: Index<S, G>, ng: G) {
    forall n :: n in idx ==> idx[n].ng != ng
  }

  /**
    Inside the loop of move_nodes_to_ng: `idx` still describes the structure at entry;
    the nodes of `done` have since gone to dest, which was empty to begin with.
   */
  ghost predicate Gathering<S, G>(
    st: Store<S, G>, idx: Index<S, G>, dsg: S, dest: G, done: set<int>)
  {
    && Tidy(st, if done == {} then {dest} else {})
    && Exact(st, MovedIndex(idx, done, dsg, dest))
    && Unused(idx, dest)
    && dest in st.top.at && st.top.at[dest] == dsg
  }

  lemma NotYetUsed<S, G>(st: Store<S, G>, idx: Index<S, G>, ng: G)
    requires Tidy(st, {}) && Exact(st, idx) && ng !in st.low.lists
    ensures Unused(idx, ng)
  {
    assert ng !in st.low.lists.Keys;
  }

  lemma TidyPath<S, G>(st: Store<S, G>)
    requires Tidy(st, {})
    ensures forall sg :: sg in st.top.lists ==> sg in st.path
  {
  }

  lemma GatheringStart<S, G>(st: Store<S, G>, idx: Index<S, G>, sg: S, ng: G)
    requires Tidy(st, {}) && Exact(st, idx) && sg in st.top.lists && ng !in st.low.lists
    ensures Gathering(AddEmptyGroup(st, sg, ng), idx, sg, ng, {})
  {
    hide Tidy, Exact, Unused;
    TidyPath(st);
    AddEmptyGroupKeeps(st, idx, sg, ng);
    NotYetUsed(st, idx, ng);
    assert MovedIndex(idx, {}, sg, ng) == idx;
  }

  /** The stale index still tells where a node not yet moved stands. */
  lemma GatheringRead<S, G>(
    st: Store<S, G>, idx: Index<S, G>, dsg: S, dest: G, done: set<int>, n: int)
    requires Gathering(st, idx, dsg, dest, done) && n in idx && n !in done
    ensures Stands(st, idx[n]) && idx[n].ng != dest && idx[n].nd.nid == n
    ensures idx[n].sg in st.top.lists && idx[n].ng in st.low.lists && dest in st.low.lists
  {
    assert MovedIndex(idx, done, dsg, dest)[n] == idx[n];
  }

  lemma {:induction false} GatheringStep<S, G>(
    st: Store<S, G>, idx: Index<S, G>, dsg: S, dest: G, done: set<int>, n: int)
    requires Gathering(st, idx, dsg, dest, done) && n in idx && n !in done
    requires idx[n].sg in st.top.lists && idx[n].ng in st.low.lists && dest in st.low.lists
    requires idx[n].ng != dest
    ensures Gathering(MoveNode(st, idx[n], dest), idx, dsg, dest, done + {n})
  {
    hide Tidy, Exact, Stands, MoveNode, MovedIndex, Unused;
    GatheringRead(st, idx, dsg, dest, done, n);
    OpenMore(st, done, dest);
    MoveNodeKeeps(st, MovedIndex(idx, done, dsg, dest), idx[n], dsg, dest);
    MovedIndexStep(idx, done, n, dsg, dest);
  }

  lemma MovedIndexStep<S, G>(idx: Index<S, G>, done: set<int>, n: int, dsg: S, dest: G)
    requires n in idx
    ensures MovedIndex(idx, done, dsg, dest)[n := Loc(dsg, dest, idx[n].nd)] ==
            MovedIndex(idx, done + {n}, dsg, dest)
  {
  }

  lemma OpenMore<S, G>(st: Store<S, G>, done: set<int>, dest: G)
    requires Tidy(st, if done == {} then {dest} else {})
    ensures Tidy(st, {dest})
  {
  }

  lemma GatheringEnd<S, G>(st: Store<S, G>, idx: Index<S, G>, dsg: S, dest: G, done: set<int>)
    requires Gathering(st, idx, dsg, dest, done) && done != {}
    ensures Tidy(st, {}) && Exact(st, MovedIndex(idx, done, dsg, dest))
  {
  }

  /** Every entry of an exact index names the node it is filed under, where it stands. */
  lemma ExactEntry<S, G>(st: Store<S, G>, idx: Index<S, G>, open: set<G>, n: int)
    requires Tidy(st, open) && Exact(st, idx) && n in idx
    ensures idx[n].nd.nid == n && Stands(st, idx[n])
    ensures idx[n].sg in st.top.lists && idx[n].ng in st.low.lists
    ensures idx[n].nd in st.low.lists[idx[n].ng]
  {
  }

  lemma ExactStands<S, G>(st: Store<S, G>, idx: Index<S, G>, n: int)
    requires Tidy(st, {}) && Exact(st, idx) && n in idx
    ensures idx[n].ng in st.top.at && st.top.at[idx[n].ng] == idx[n].sg
  {
  }

  // ----- move_nodes_to_own_ng -------------------------------------------------

  /** Put a node into a group of its own at the end of its super group. */
  function Split<S(==), G(==)>(st: Store<S, G>, l: Loc<S, G>, ng: G): Store<S, G>
    requires l.sg in st.top.lists && l.ng in st.low.lists
  {
    st.(top := Put(st.top, l.sg, ng),
        low := Put(NewKey(Take(st.low, l.ng, l.nd), ng), ng, l.nd))
  }

  lemma SplitTidy<S, G>(st: Store<S, G>, l: Loc<S, G>, ng: G)
    requires Tidy(st, {}) && Stands(st, l)
    requires l.ng in st.low.lists && |st.low.lists[l.ng]| > 1 && ng !in st.low.lists
    ensures l.sg in st.top.lists
    ensures var st' := Split(st, l, ng);
            && Tidy(st', {})
            && st'.top.at == st.top.at[ng := l.sg]
            && st'.low.at == st.low.at[l.nd := ng]
  {
    hide Good, NoneEmpty, Put, Take, NewKey;
    StandsInside(st, l, {});
    PutKeeps(st.top, l.sg, ng);
    TakeToNew(st.low, l.ng, l.nd, ng);
  }

  lemma HomesHosted<S, G>(st: Store<S, G>, idx: Index<S, G>)
    requires Exact(st, idx)
    ensures forall nd :: nd in st.low.at ==> st.low.at[nd] in st.top.at
  {
  }

  lemma {:induction false} SplitKeeps<S, G>(st: Store<S, G>, idx: Index<S, G>, l: Loc<S, G>, ng: G)
    requires Tidy(st, {}) && Exact(st, idx) && Stands(st, l)
    requires |st.low.lists[l.ng]| > 1 && ng !in st.low.lists
    ensures var st' := Split(st, l, ng);
            && Tidy(st', {})
            && Exact(st', idx[l.nd.nid := Loc(l.sg, ng, l.nd)])
            && st'.top.at == st.top.at[ng := l.sg]
            && st'.low.at == st.low.at[l.nd := ng]
  {
    hide Inverse;
    SplitTidy(st, l, ng);
    HomesHosted(st, idx);
    MoveInverse(st.top.at, st.top.at[ng := l.sg], st.low.at, idx, l, l.sg, ng);
  }

  /** The index after each node of `own` has gone to a group of its own. */
  ghost function SplitIndex<S, G>(idx: Index<S, G>, own: map<int, G>): Index<S, G> {
    map n | n in idx :: if n in own then Loc(idx[n].sg, own[n], idx[n].nd) else idx[n]
  }

  /** Each node of `ns` has its group to itself. */
  ghost predicate Alone<S, G>(st: Store<S, G>, idx: Index<S, G>, ns: set<int>) {
    forall n :: n in ns && n in idx ==>
      idx[n].ng in st.low.lists && st.low.lists[idx[n].ng] == [idx[n].nd]
  }

  /** Node n has its group to itself. */
  ghost predicate AloneAt<S, G>(st: Store<S, G>, idx: Index<S, G>, n: int) {
    n in idx && idx[n].ng in st.low.lists && |st.low.lists[idx[n].ng]| == 1
  }

  /**
    Inside the loops of move_nodes_to_own_ng: `idx` still describes the structure at
    entry, the nodes of `own` have since been split off, and those of `done` are alone.
   */
  ghost predicate Splitting<S, G>(
    st: Store<S, G>, idx: Index<S, G>, own: map<int, G>, done: set<int>)
  {
    && Tidy(st, {})
    && Exact(st, SplitIndex(idx, own))
    && Alone(st, SplitIndex(idx, own), done)
    && (forall n :: n in own ==> n in idx && own[n] != idx[n].ng)
  }

  lemma SplittingStart<S, G>(st: Store<S, G>, idx: Index<S, G>)
    requires Tidy(st, {}) && Exact(st, idx)
    ensures Splitting(st, idx, map[], {})
  {
    assert SplitIndex(idx, map[]) == idx;
  }

  /** idx' keeps nodes and super groups of idx, and the groups of all but the nodes of ns. */
  ghost predicate SplitFrom<S, G>(idx: Index<S, G>, idx': Index<S, G>, ns: set<int>) {
    && idx'.Keys == idx.Keys
    && forall n :: n in idx ==>
         idx'[n].sg == idx[n].sg && idx'[n].nd == idx[n].nd && (n !in ns ==> idx'[n] == idx[n])
  }

  lemma SomeKey<G>(own: map<int, G>) returns (n: int)
    requires own != map[]
    ensures n in own
  {
    assert (forall k: int :: k !in own) ==> own.Keys == {};
    assert own.Keys == {} ==> own == map[];
    n :| n in own;
  }

  /** Without a rebuild the index at entry stays right only while nothing was split off. */
  lemma SplittingStale<S, G>(st: Store<S, G>, idx: Index<S, G>, own: map<int, G>, done: set<int>)
    requires Splitting(st, idx, own, done)
    ensures Tidy(st, {})
    ensures Exact(st, idx) <==> own == map[]
  {
    if own == map[] {
      assert SplitIndex(idx, own) == idx;
    } else {
      var n := SomeKey(own);
      assert SplitIndex(idx, own)[n].nd in st.low.at;
    }
  }

  /** Two nodes of one group are two nodes of its list. */
  lemma TwoTogether<S, G>(st: Store<S, G>, idx: Index<S, G>, m: int, n: int)
    requires Tidy(st, {}) && Exact(st, idx) && m in idx && n in idx && m != n && idx[m].ng == idx[n].ng
    ensures !AloneAt(st, idx, m)
  {
    hide Tidy, Exact, Stands;
    ExactEntry(st, idx, {}, m);
    ExactEntry(st, idx, {}, n);
  }

  lemma SplittingEnd<S, G>(st: Store<S, G>, idx: Index<S, G>, own: map<int, G>, done: set<int>)
    requires Splitting(st, idx, own, done) && own.Keys <= done
    ensures var idx' := SplitIndex(idx, own);
            Tidy(st, {}) && Exact(st, idx') && Alone(st, idx', done) && SplitFrom(idx, idx', done)
  {
  }

  /** The stale index still tells where a node not yet split off stands. */
  lemma SplittingRead<S, G>(
    st: Store<S, G>, idx: Index<S, G>, own: map<int, G>, done: set<int>, n: int)
    requires Splitting(st, idx, own, done) && n in idx && n !in own
    ensures Stands(st, idx[n]) && idx[n].nd.nid == n
    ensures idx[n].sg in st.top.lists && idx[n].ng in st.low.lists
    ensures idx[n].nd in st.low.lists[idx[n].ng]
  {
    hide Tidy, Exact;
    assert SplitIndex(idx, own)[n] == idx[n];
    ExactEntry(st, SplitIndex(idx, own), {}, n);
  }

  lemma SplittingSkip<S, G>(
    st: Store<S, G>, idx: Index<S, G>, own: map<int, G>, done: set<int>, n: int)
    requires Splitting(st, idx, own, done) && n in idx && n !in own
    requires idx[n].ng in st.low.lists && |st.low.lists[idx[n].ng]| == 1
    ensures Splitting(st, idx, own, done + {n})
  {
    SplittingRead(st, idx, own, done, n);
    hide Tidy, Exact;
  }

  lemma SplittingStep<S, G>(
    st: Store<S, G>, idx: Index<S, G>, own: map<int, G>, done: set<int>, n: int, ng: G)
    requires Splitting(st, idx, own, done) && n in idx && n !in own
    requires idx[n].sg in st.top.lists && idx[n].ng in st.low.lists && idx[n].nd.nid == n
    requires |st.low.lists[idx[n].ng]| > 1 && ng !in st.low.lists
    ensures Splitting(Split(st, idx[n], ng), idx, own[n := ng], done + {n})
  {
    hide Tidy, Exact, SplitIndex, Alone, Split, Stands;
    SplittingRead(st, idx, own, done, n);
    SplitKeeps(st, SplitIndex(idx, own), idx[n], ng);
    SplitIndexStep(idx, own, n, ng);
    SplitAlone(st, SplitIndex(idx, own), done, idx[n], ng);
  }

  lemma SplitIndexStep<S, G>(idx: Index<S, G>, own: map<int, G>, n: int, ng: G)
    requires n in idx
    ensures SplitIndex(idx, own)[n := Loc(idx[n].sg, ng, idx[n].nd)] ==
            SplitIndex(idx, own[n := ng])
  {
  }

  lemma SplitAlone<S, G>(st: Store<S, G>, idx: Index<S, G>, ns: set<int>, l: Loc<S, G>, ng: G)
    requires Alone(st, idx, ns)
    requires l.sg in st.top.lists && l.ng in st.low.lists
    requires |st.low.lists[l.ng]| > 1 && ng !in st.low.lists
    ensures Alone(Split(st, l, ng), idx[l.nd.nid := Loc(l.sg, ng, l.nd)], ns + {l.nd.nid})
  {
    assert [] + [l.nd] == [l.nd];
  }

  /** Splitting whole groups: the groups of `host`, those at entry, keep their places. */
  ghost predicate GroupSplitting<S, G>(
    st: Store<S, G>, idx: Index<S, G>, host: map<G, S>, own: map<int, G>)
  {
    && Splitting(st, idx, own, own.Keys)
    && (forall g :: g in host ==> g in st.top.at && st.top.at[g] == host[g])
    && (forall n :: n in own ==> own[n] !in host)
  }

  ghost function NodesIn<S, G>(idx: Index<S, G>, gs: set<G>): set<int> {
    set n | n in idx && idx[n].ng in gs
  }

  lemma GroupSplittingStart<S, G>(st: Store<S, G>, idx: Index<S, G>)
    requires Tidy(st, {}) && Exact(st, idx)
    ensures GroupSplitting(st, idx, st.top.at, map[])
  {
    SplittingStart(st, idx);
    var none: map<int, G> := map[];
    assert none.Keys == {};
  }

  lemma GroupSplittingHost<S, G>(
    st: Store<S, G>, idx: Index<S, G>, host: map<G, S>, own: map<int, G>, ng: G)
    requires GroupSplitting(st, idx, host, own) && ng in host
    ensures ng in st.low.lists && st.low.lists[ng] != [] && NoRepeats(st.low.lists[ng])
    ensures host[ng] in st.top.lists
  {
  }

  /** The stale index is right about every node still in a group of the entry. */
  lemma GroupSplittingRead<S, G>(
    st: Store<S, G>, idx: Index<S, G>, host: map<G, S>, own: map<int, G>, ng: G, nd: NodeDef)
    requires GroupSplitting(st, idx, host, own)
    requires ng in host && ng in st.low.lists && nd in st.low.lists[ng]
    ensures nd.nid in idx && nd.nid !in own && idx[nd.nid] == Loc(host[ng], ng, nd)
  {
    assert st.low.at[nd] == ng;
  }

  lemma GroupSplittingStep<S, G>(
    st: Store<S, G>, idx: Index<S, G>, host: map<G, S>, own: map<int, G>, ng: G, nd: NodeDef, g: G)
    requires GroupSplitting(st, idx, host, own)
    requires ng in host && ng in st.low.lists && nd in st.low.lists[ng] && host[ng] in st.top.lists
    requires |st.low.lists[ng]| > 1 && g !in st.low.lists
    ensures nd.nid in idx && idx[nd.nid].ng == ng
    ensures GroupSplitting(Split(st, Loc(host[ng], ng, nd), g), idx, host, own[nd.nid := g])
  {
    hide Splitting, Split;
    GroupSplittingRead(st, idx, host, own, ng, nd);
    HostsKept(st, idx, host, own, ng, nd, g);
    SplittingStep(st, idx, own, own.Keys, nd.nid, g);
    assert own[nd.nid := g].Keys == own.Keys + {nd.nid};
  }

  lemma HostsKept<S, G>(
    st: Store<S, G>, idx: Index<S, G>, host: map<G, S>, own: map<int, G>, ng: G, nd: NodeDef, g: G)
    requires GroupSplitting(st, idx, host, own)
    requires ng in host && ng in st.low.lists && host[ng] in st.top.lists && g !in st.low.lists
    ensures g !in host
    ensures var at := Split(st, Loc(host[ng], ng, nd), g).top.at;
            forall h :: h in host ==> h in at && at[h] == host[h]
  {
    assert forall h :: h in host ==> h in st.low.lists.Keys;
  }

  /** With one node left, every node that began in the group is alone. */
  lemma GroupSplittingEnd<S, G>(
    st: Store<S, G>, idx: Index<S, G>, host: map<G, S>, own: map<int, G>, gs: set<G>)
    requires GroupSplitting(st, idx, host, own)
    requires forall g :: g in gs ==> g in host && g in st.low.lists && |st.low.lists[g]| == 1
    requires forall n :: n in own ==> idx[n].ng in gs
    ensures var idx', ns := SplitIndex(idx, own), NodesIn(idx, gs);
            Tidy(st, {}) && Exact(st, idx') && SplitFrom(idx, idx', ns) && Alone(st, idx', ns)
  {
    var idx', ns := SplitIndex(idx, own), NodesIn(idx, gs);
    forall n | n in ns
      ensures idx'[n].ng in st.low.lists && st.low.lists[idx'[n].ng] == [idx'[n].nd]
    {
      if n !in own {
        ExactEntry(st, idx', {}, n);
      }
    }
  }

  // ----- promote_node_groups_to_sgs -------------------------------------------

  /** Give a node group a super group of its own at the end of the path. */
  function Promote<S(==), G(==)>(st: Store<S, G>, sg: S, ng: G, own: S): Store<S, G>
    requires sg in st.top.lists && own != sg
  {
    st.(top := Put(NewKey(Take(st.top, sg, ng), own), own, ng), path := st.path + [own])
  }

  ghost function PromotedIndex<S, G>(idx: Index<S, G>, ng: G, sg: S): Index<S, G> {
    map n | n in idx :: if idx[n].ng == ng then Loc(sg, ng, idx[n].nd) else idx[n]
  }

  lemma {:induction false} PromoteKeeps<S, G>(st: Store<S, G>, idx: Index<S, G>, sg: S, ng: G, own: S)
    requires Tidy(st, {}) && Exact(st, idx) && ng in st.top.at && st.top.at[ng] == sg
    requires |st.top.lists[sg]| > 1 && own !in st.top.lists
    ensures var st' := Promote(st, sg, ng, own);
            && Tidy(st', {})
            && Exact(st', PromotedIndex(idx, ng, own))
            && st'.top.at == st.top.at[ng := own]
  {
    TakeToNew(st.top, sg, ng, own);
    NoRepeatsConcat(st.path, [own]);
    PromoteInverse(st.top.at, st.low.at, idx, ng, own);
  }

  lemma PromoteInverse<S, G>(
    host: map<G, S>, home: map<NodeDef, G>, idx: Index<S, G>, ng: G, own: S)
    requires Inverse(host, home, idx)
    ensures Inverse(host[ng := own], home, PromotedIndex(idx, ng, own))
  {
  }

  /** The index after each group of `own` has gone to a super group of its own. */
  ghost function HostedIndex<S, G>(idx: Index<S, G>, own: map<G, S>): Index<S, G> {
    map n | n in idx :: if idx[n].ng in own then Loc(own[idx[n].ng], idx[n].ng, idx[n].nd) else idx[n]
  }

  /** Each group of gs is the only group of its super group. */
  ghost predicate Sole<S, G>(st: Store<S, G>, gs: set<G>) {
    forall g :: g in gs ==>
      g in st.top.at && st.top.at[g] in st.top.lists && st.top.lists[st.top.at[g]] == [g]
  }

  /**
    Inside the loop of promote_node_groups_to_sgs: `found` still names the host of every
    group left to do, whatever was promoted before it.
   */
  ghost predicate Promoting<S, G>(
    st: Store<S, G>, idx: Index<S, G>, found: map<G, S>, own: map<G, S>, done: set<G>)
  {
    && Tidy(st, {})
    && Exact(st, HostedIndex(idx, own))
    && Sole(st, done)
    && (forall g :: g in found ==> g in st.top.at && st.top.at[g] == found[g])
  }

  lemma PromotingStart<S, G>(st: Store<S, G>, idx: Index<S, G>, found: map<G, S>)
    requires Tidy(st, {}) && Exact(st, idx)
    requires forall g :: g in found ==> g in st.top.at && st.top.at[g] == found[g]
    ensures Promoting(st, idx, found, map[], {})
  {
    assert HostedIndex(idx, map[]) == idx;
  }

  lemma PromotingHost<S, G>(
    st: Store<S, G>, idx: Index<S, G>, found: map<G, S>, own: map<G, S>, done: set<G>, ng: G)
    requires Promoting(st, idx, found, own, done) && ng in found
    ensures found[ng] in st.top.lists && ng in st.top.lists[found[ng]]
  {
  }

  lemma PromotingSkip<S, G>(
    st: Store<S, G>, idx: Index<S, G>, found: map<G, S>, own: map<G, S>, done: set<G>, ng: G)
    requires Promoting(st, idx, found, own, done) && ng in found
    requires found[ng] in st.top.lists && |st.top.lists[found[ng]]| == 1
    ensures Promoting(st, idx, found - {ng}, own, done + {ng})
  {
    PromotingHost(st, idx, found, own, done, ng);
    hide Tidy, Exact;
  }

  lemma {:induction false} PromotingStep<S, G>(
    st: Store<S, G>, idx: Index<S, G>, found: map<G, S>, own: map<G, S>, done: set<G>,
    ng: G, sg: S)
    requires Promoting(st, idx, found, own, done) && ng in found
    requires found[ng] in st.top.lists && |st.top.lists[found[ng]]| > 1 && sg !in st.top.lists
    ensures Promoting(Promote(st, found[ng], ng, sg), idx, found - {ng}, own[ng := sg], done + {ng})
  {
    hide Tidy, Exact, Promote, Sole, PromotedIndex, HostedIndex;
    PromoteKeeps(st, HostedIndex(idx, own), found[ng], ng, sg);
    HostedIndexStep(idx, own, ng, sg);
    PromoteSole(st, done, found[ng], ng, sg);
  }

  lemma HostedIndexStep<S, G>(idx: Index<S, G>, own: map<G, S>, ng: G, sg: S)
    ensures PromotedIndex(HostedIndex(idx, own), ng, sg) == HostedIndex(idx, own[ng := sg])
  {
  }

  lemma PromoteSole<S, G>(st: Store<S, G>, done: set<G>, sg: S, ng: G, own: S)
    requires Sole(st, done) && sg in st.top.lists && |st.top.lists[sg]| > 1
    requires own !in st.top.lists
    ensures Sole(Promote(st, sg, ng, own), done + {ng})
  {
    assert [] + [ng] == [ng];
  }

  /** idx' keeps nodes and groups of idx, and the super groups of all but the groups of gs. */
  ghost predicate PromotedFrom<S, G>(idx: Index<S, G>, idx': Index<S, G>, gs: set<G>) {
    && idx'.Keys == idx.Keys
    && forall n :: n in idx ==>
         idx'[n].ng == idx[n].ng && idx'[n].nd == idx[n].nd &&
         (idx[n].ng !in gs ==> idx'[n] == idx[n])
  }

  lemma PromotingEnd<S, G>(
    st: Store<S, G>, idx: Index<S, G>, found: map<G, S>, own: map<G, S>, done: set<G>)
    requires Promoting(st, idx, found, own, done) && own.Keys <= done
    ensures Tidy(st, {}) && Exact(st, HostedIndex(idx, own)) && Sole(st, done)
    ensures PromotedFrom(idx, HostedIndex(idx, own), done)
  {
  }

  // ----- singletons -----------------------------------------------------------

  /** A node in a group and a super group of its own at the end of the path. */
  function AddSingle<S(==), G(==)>(st: Store<S, G>, sg: S, ng: G, nd: NodeDef): Store<S, G> {
    Store(st.path + [sg], Put(NewKey(st.top, sg), sg, ng), Put(NewKey(st.low, ng), ng, nd))
  }

  lemma AddSingleKeeps<S, G>(st: Store<S, G>, idx: Index<S, G>, sg: S, ng: G, nd: NodeDef)
    requires Tidy(st, {}) && Exact(st, idx)
    requires sg !in st.top.lists && ng !in st.low.lists && nd.nid !in idx
    ensures Tidy(AddSingle(st, sg, ng, nd), {})
    ensures Exact(AddSingle(st, sg, ng, nd), idx[nd.nid := Loc(sg, ng, nd)])
  {
    hide Good, NoneEmpty, Inverse;
    AbsentBelow(st, idx, nd);
    PutNew(st.top, sg, ng);
    PutNew(st.low, ng, nd);
    NoRepeatsSnoc(st.path, sg);
    AddInverse(st.top.at, st.low.at, idx, sg, ng, nd);
  }

  lemma AbsentBelow<S, G>(st: Store<S, G>, idx: Index<S, G>, nd: NodeDef)
    requires Exact(st, idx) && nd.nid !in idx
    ensures nd !in st.low.at
  {
  }

  lemma AddInverse<S, G>(
    host: map<G, S>, home: map<NodeDef, G>, idx: Index<S, G>, sg: S, ng: G, nd: NodeDef)
    requires Inverse(host, home, idx) && ng !in host && nd.nid !in idx
    ensures Inverse(host[ng := sg], home[nd := ng], idx[nd.nid := Loc(sg, ng, nd)])
  {
  }

  /** Every super group has one group, every group one node. */
  ghost predicate AllSingle<S, G>(st: Store<S, G>) {
    && (forall sg :: sg in st.top.lists ==> |st.top.lists[sg]| == 1)
    && (forall ng :: ng in st.low.lists ==> |st.low.lists[ng]| == 1)
  }

  /** A consistent structure of singletons over the nodes of nds. */
  ghost predicate Singletons<S, G>(st: Store<S, G>, idx: Index<S, G>, nds: map<int, NodeDef>) {
    && Tidy(st, {}) && Exact(st, idx) && AllSingle(st)
    && idx.Keys == nds.Keys && (forall n :: n in nds ==> idx[n].nd == nds[n])
  }

  lemma SingletonsStep<S, G>(
    st: Store<S, G>, idx: Index<S, G>, nds: map<int, NodeDef>, sg: S, ng: G, nd: NodeDef)
    requires Singletons(st, idx, nds)
    requires sg !in st.top.lists && ng !in st.low.lists && nd.nid !in nds
    ensures Singletons(AddSingle(st, sg, ng, nd), idx[nd.nid := Loc(sg, ng, nd)], nds[nd.nid := nd])
  {
    hide Tidy, Exact, AddSingle, AllSingle;
    AddSingleKeeps(st, idx, sg, ng, nd);
    AddSingleSingle(st, sg, ng, nd);
  }

  lemma AddSingleSingle<S, G>(st: Store<S, G>, sg: S, ng: G, nd: NodeDef)
    requires AllSingle(st)
    ensures AllSingle(AddSingle(st, sg, ng, nd))
  {
  }

  lemma SingletonsStart<S, G>(st: Store<S, G>)
    requires st.path == [] && st.top == Shelf(map[], map[]) && st.low == Shelf(map[], map[])
    ensures Singletons(st, map[], map[])
  {
  }

  // ----- initialize_lookups ---------------------------------------------------

  /** The lists of super groups and of node groups, without the inverse maps. */
  datatype Lists<!S, !G> = Lists(groups: map<S, seq<G>>, nodes: map<G, seq<NodeDef>>)

  ghost function ListsOf<S, G>(st: Store<S, G>): Lists<S, G> {
    Lists(st.top.lists, st.low.lists)
  }

  /** Every list names objects that have lists of their own. */
  ghost predicate Closed<S, G>(path: seq<S>, t: Lists<S, G>) {
    && (forall sg :: sg in path ==> sg in t.groups)
    && (forall sg, ng :: sg in path && ng in t.groups[sg] ==> ng in t.nodes)
  }

  ghost function IndexNodes<S, G>(idx: Index<S, G>, sg: S, ng: G, ns: seq<NodeDef>): Index<S, G> {
    if ns == [] then idx else
      var nd := ns[|ns| - 1];
      IndexNodes(idx, sg, ng, ns[..|ns| - 1])[nd.nid := Loc(sg, ng, nd)]
  }

  ghost function IndexGroups<S, G>(t: Lists<S, G>, idx: Index<S, G>, sg: S, gs: seq<G>)
    : Index<S, G>
    requires forall ng :: ng in gs ==> ng in t.nodes
  {
    if gs == [] then idx else
      var ng := gs[|gs| - 1];
      IndexNodes(IndexGroups(t, idx, sg, gs[..|gs| - 1]), sg, ng, t.nodes[ng])
  }

  /** The index built by one walk over the path: the last occurrence of a node id wins. */
  ghost function IndexPath<S, G>(t: Lists<S, G>, path: seq<S>): Index<S, G>
    requires Closed(path, t)
  {
    if path == [] then map[] else
      var sg := path[|path| - 1];
      IndexGroups(t, IndexPath(t, path[..|path| - 1]), sg, t.groups[sg])
  }

  lemma {:induction false} IndexNodesAt<S, G>(
    idx: Index<S, G>, sg: S, ng: G, ns: seq<NodeDef>, n: int)
    ensures var r := IndexNodes(idx, sg, ng, ns);
            && (forall nd :: nd in ns ==> nd.nid in r)
            && (n in idx ==> n in r)
            && (n in r ==> (n in idx && r[n] == idx[n]) ||
                           (r[n].sg == sg && r[n].ng == ng && r[n].nd in ns && r[n].nd.nid == n))
  {
    if ns != [] {
      var k := |ns| - 1;
      IndexNodesAt(idx, sg, ng, ns[..k], n);
      assert ns == ns[..k] + [ns[k]];
    }
  }

  lemma {:induction false} IndexGroupsAt<S, G>(
    t: Lists<S, G>, idx: Index<S, G>, sg: S, gs: seq<G>, n: int)
    requires forall ng :: ng in gs ==> ng in t.nodes
    ensures var r := IndexGroups(t, idx, sg, gs);
            && (n in idx ==> n in r)
            && (forall ng, nd :: ng in gs && nd in t.nodes[ng] && nd.nid == n ==> n in r)
            && (n in r ==> (n in idx && r[n] == idx[n]) ||
                           (r[n].sg == sg && r[n].ng in gs && r[n].nd in t.nodes[r[n].ng] &&
                            r[n].nd.nid == n))
  {
    if gs != [] {
      var k := |gs| - 1;
      IndexGroupsAt(t, idx, sg, gs[..k], n);
      assert gs == gs[..k] + [gs[k]];
      IndexNodesAt(IndexGroups(t, idx, sg, gs[..k]), sg, gs[k], t.nodes[gs[k]], n);
    }
  }

  /** Whatever the structure, a rebuilt index covers it and points into it. */
  lemma {:induction false} IndexPathAt<S, G>(t: Lists<S, G>, path: seq<S>, n: int)
    requires Closed(path, t)
    ensures var r := IndexPath(t, path);
            && (forall sg, ng, nd ::
                  sg in path && ng in t.groups[sg] && nd in t.nodes[ng] && nd.nid == n ==> n in r)
            && (n in r ==> r[n].sg in path && r[n].ng in t.groups[r[n].sg] &&
                           r[n].nd in t.nodes[r[n].ng] && r[n].nd.nid == n)
  {
    if path != [] {
      var k := |path| - 1;
      IndexPathAt(t, path[..k], n);
      assert path == path[..k] + [path[k]];
      IndexGroupsAt(t, IndexPath(t, path[..k]), path[k], t.groups[path[k]], n);
    }
  }

  ghost predicate Without(ns: seq<NodeDef>, n: int) {
    forall nd :: nd in ns ==> nd.nid != n
  }

  ghost predicate GroupsWithout<S, G>(t: Lists<S, G>, gs: seq<G>, n: int)
    requires forall ng :: ng in gs ==> ng in t.nodes
  {
    forall ng :: ng in gs ==> Without(t.nodes[ng], n)
  }

  ghost predicate PathWithout<S, G>(t: Lists<S, G>, path: seq<S>, n: int)
    requires Closed(path, t)
  {
    forall sg :: sg in path ==> GroupsWithout(t, t.groups[sg], n)
  }

  /** l is the place of the last node of the group with id n. */
  ghost predicate LastNode<S, G>(l: Loc<S, G>, ns: seq<NodeDef>, n: int) {
    exists k :: 0 <= k < |ns| && ns[k].nid == n && Without(ns[k + 1..], n) && l.nd == ns[k]
  }

  /** l is in the last group with id n. */
  ghost predicate LastGroup<S, G>(l: Loc<S, G>, t: Lists<S, G>, gs: seq<G>, n: int)
    requires forall ng :: ng in gs ==> ng in t.nodes
  {
    exists j :: 0 <= j < |gs| && l.ng == gs[j] && LastNode(l, t.nodes[gs[j]], n) && GroupsWithout(t, gs[j + 1..], n)
  }

  /** l is in the last super group with id n. */
  ghost predicate LastSuper<S, G>(l: Loc<S, G>, t: Lists<S, G>, path: seq<S>, n: int)
    requires Closed(path, t)
  {
    exists i :: 0 <= i < |path| && l.sg == path[i] && LastGroup(l, t, t.groups[path[i]], n) &&
                PathWithout(t, path[i + 1..], n)
  }

  lemma {:induction false} IndexNodesLast<S, G>(
    idx: Index<S, G>, sg: S, ng: G, ns: seq<NodeDef>, n: int)
    ensures var r := IndexNodes(idx, sg, ng, ns);
            if Without(ns, n) then (n in r <==> n in idx) && (n in r ==> r[n] == idx[n])
            else n in r && r[n].sg == sg && r[n].ng == ng && LastNode(r[n], ns, n)
  {
    hide LastNode;
    if ns != [] {
      var k := |ns| - 1;
      LastNodeHere(Loc(sg, ng, ns[k]), ns);
      IndexNodesLast(idx, sg, ng, ns[..k], n);
      assert ns == ns[..k] + [ns[k]];
      if ns[k].nid != n && !Without(ns, n) {
        LastNodeMore(IndexNodes(idx, sg, ng, ns[..k])[n], ns, n);
      }
    }
  }

  lemma LastNodeHere<S, G>(l: Loc<S, G>, ns: seq<NodeDef>)
    requires ns != [] && l.nd == ns[|ns| - 1]
    ensures LastNode(l, ns, l.nd.nid)
  {
    assert ns[|ns| - 1 + 1..] == [];
  }

  lemma LastNodeMore<S, G>(l: Loc<S, G>, ns: seq<NodeDef>, n: int)
    requires ns != [] && ns[|ns| - 1].nid != n && LastNode(l, ns[..|ns| - 1], n)
    ensures LastNode(l, ns, n)
  {
    var k := |ns| - 1;
    var m :| 0 <= m < k && ns[..k][m].nid == n && Without(ns[..k][m + 1..], n) && l.nd == ns[..k][m];
    assert ns[m + 1..] == ns[..k][m + 1..] + [ns[k]];
  }

  lemma {:induction false} IndexGroupsLast<S, G>(
    t: Lists<S, G>, idx: Index<S, G>, sg: S, gs: seq<G>, n: int)
    requires forall ng :: ng in gs ==> ng in t.nodes
    ensures var r := IndexGroups(t, idx, sg, gs);
            if GroupsWithout(t, gs, n) then (n in r <==> n in idx) && (n in r ==> r[n] == idx[n])
            else n in r && r[n].sg == sg && LastGroup(r[n], t, gs, n)
  {
    hide LastNode, Without, LastGroup, GroupsWithout;
    GroupsWithoutNext(t, gs, n);
    if gs != [] {
      var k := |gs| - 1;
      IndexGroupsLast(t, idx, sg, gs[..k], n);
      IndexNodesLast(IndexGroups(t, idx, sg, gs[..k]), sg, gs[k], t.nodes[gs[k]], n);
      if !Without(t.nodes[gs[k]], n) {
        LastGroupHere(IndexGroups(t, idx, sg, gs)[n], t, gs, n);
      } else if !GroupsWithout(t, gs, n) {
        LastGroupMore(IndexGroups(t, idx, sg, gs[..k])[n], t, gs, n);
      }
    }
  }

  lemma GroupsWithoutNext<S, G>(t: Lists<S, G>, gs: seq<G>, n: int)
    requires forall ng :: ng in gs ==> ng in t.nodes
    ensures gs == [] ==> GroupsWithout(t, gs, n)
    ensures gs != [] ==>
              (GroupsWithout(t, gs, n) <==>
               GroupsWithout(t, gs[..|gs| - 1], n) && Without(t.nodes[gs[|gs| - 1]], n))
  {
    hide Without;
    if gs != [] {
      assert gs == gs[..|gs| - 1] + [gs[|gs| - 1]];
    }
  }

  lemma LastGroupHere<S, G>(l: Loc<S, G>, t: Lists<S, G>, gs: seq<G>, n: int)
    requires forall ng :: ng in gs ==> ng in t.nodes
    requires gs != [] && l.ng == gs[|gs| - 1] && LastNode(l, t.nodes[gs[|gs| - 1]], n)
    ensures LastGroup(l, t, gs, n)
  {
    hide LastNode;
    assert gs[|gs| - 1 + 1..] == [];
  }

  lemma LastGroupMore<S, G>(l: Loc<S, G>, t: Lists<S, G>, gs: seq<G>, n: int)
    requires forall ng :: ng in gs ==> ng in t.nodes
    requires gs != [] && Without(t.nodes[gs[|gs| - 1]], n) && LastGroup(l, t, gs[..|gs| - 1], n)
    ensures LastGroup(l, t, gs, n)
  {
    hide LastNode, Without;
    var k := |gs| - 1;
    var m :| 0 <= m < k && l.ng == gs[..k][m] && LastNode(l, t.nodes[gs[..k][m]], n) &&
             GroupsWithout(t, gs[..k][m + 1..], n);
    assert gs[m + 1..] == gs[..k][m + 1..] + [gs[k]];
  }

  /** A rebuilt index gives the last place of every id in the walk over the path. */
  lemma {:induction false} IndexPathLast<S, G>(t: Lists<S, G>, path: seq<S>, n: int)
    requires Closed(path, t)
    ensures var r := IndexPath(t, path);
            && (n in r <==> !PathWithout(t, path, n))
            && (n in r ==> LastSuper(r[n], t, path, n))
  {
    hide LastGroup, GroupsWithout, LastSuper, PathWithout;
    PathWithoutNext(t, path, n);
    if path != [] {
      var k := |path| - 1;
      IndexPathLast(t, path[..k], n);
      IndexGroupsLast(t, IndexPath(t, path[..k]), path[k], t.groups[path[k]], n);
      if !GroupsWithout(t, t.groups[path[k]], n) {
        LastSuperHere(IndexPath(t, path)[n], t, path, n);
      } else if !PathWithout(t, path, n) {
        LastSuperMore(IndexPath(t, path[..k])[n], t, path, n);
      }
    }
  }

  lemma PathWithoutNext<S, G>(t: Lists<S, G>, path: seq<S>, n: int)
    requires Closed(path, t)
    ensures path == [] ==> PathWithout(t, path, n)
    ensures path != [] ==>
              && Closed(path[..|path| - 1], t)
              && (PathWithout(t, path, n) <==>
                  PathWithout(t, path[..|path| - 1], n) && GroupsWithout(t, t.groups[path[|path| - 1]], n))
  {
    hide GroupsWithout;
    if path != [] {
      assert path == path[..|path| - 1] + [path[|path| - 1]];
    }
  }

  lemma LastSuperHere<S, G>(l: Loc<S, G>, t: Lists<S, G>, path: seq<S>, n: int)
    requires Closed(path, t)
    requires path != [] && l.sg == path[|path| - 1] && LastGroup(l, t, t.groups[path[|path| - 1]], n)
    ensures LastSuper(l, t, path, n)
  {
    hide LastGroup;
    assert path[|path| - 1 + 1..] == [];
  }

  lemma LastSuperMore<S, G>(l: Loc<S, G>, t: Lists<S, G>, path: seq<S>, n: int)
    requires Closed(path, t) && path != [] && Closed(path[..|path| - 1], t)
    requires GroupsWithout(t, t.groups[path[|path| - 1]], n) && LastSuper(l, t, path[..|path| - 1], n)
    ensures LastSuper(l, t, path, n)
  {
    hide LastGroup, GroupsWithout;
    var k := |path| - 1;
    var m :| 0 <= m < k && l.sg == path[..k][m] && LastGroup(l, t, t.groups[path[..k][m]], n) &&
             PathWithout(t, path[..k][m + 1..], n);
    assert path[m + 1..] == path[..k][m + 1..] + [path[k]];
  }

  lemma TidyIsClosed<S, G>(st: Store<S, G>, open: set<G>)
    requires Tidy(st, open)
    ensures Closed(st.path, ListsOf(st))
  {
  }

  /** On a tidy structure with unique node ids the rebuilt index is the exact inverse. */
  lemma RebuiltIsExact<S, G>(st: Store<S, G>, idx: Index<S, G>)
    requires Tidy(st, {}) && Exact(st, idx) && Closed(st.path, ListsOf(st))
    ensures IndexPath(ListsOf(st), st.path) == idx
  {
    hide Tidy, Exact, Closed, IndexPath;
    var r := IndexPath(ListsOf(st), st.path);
    forall n
      ensures n in r <==> n in idx
      ensures n in r ==> r[n] == idx[n]
    {
      RebuiltAt(st, idx, n);
    }
  }

  lemma RebuiltAt<S, G>(st: Store<S, G>, idx: Index<S, G>, n: int)
    requires Tidy(st, {}) && Exact(st, idx) && Closed(st.path, ListsOf(st))
    ensures var r := IndexPath(ListsOf(st), st.path);
            (n in r <==> n in idx) && (n in r ==> r[n] == idx[n])
  {
    hide IndexPath, NoRepeats, NoneEmpty;
    IndexPathAt(ListsOf(st), st.path, n);
    if n in idx {
      var ng := idx[n].ng;
      assert idx[n].nd in st.low.lists[ng] && ng in st.top.lists[st.top.at[ng]];
    }
  }
}

/** What the searches of bbgroup/bb_match.py come to, and what is stored of them. */
module Outcomes {
  import opened Seqs
  import opened MatchGraph
  import opened Lockstep
  import opened Choices
  import opened GreedySearch
  import opened Pruning
  import opened PathTables
  import opened Selection

  /** Every listed node is in the graph, carries the hash it is listed under, and is listed once. */
  lemma ListedNodes(g: Graph, M: map<Label, seq<nat>>, x: Label)
    requires AllListed(g, M) && x in M
    ensures |M[x]| >= 2 && NoRepeats(M[x])
    ensures forall k :: 0 <= k < |M[x]| ==> M[x][k] < |g| && g[M[x][k]].itype2 == x
  {
    assert Listed(g, M, x, |g|);
    var ns := M[x];
    forall k | 0 <= k < |ns|
      ensures ns[k] < |g| && g[ns[k]].itype2 == x
    {
      assert ns[k] in NodesUpTo(g, x, |g|);
    }
  }

  /** The longest single-entry prefix of p has n nodes. */
  ghost predicate CutAt(g: Graph, p: Path, n: nat) {
    && 1 <= n <= |p| && InGraph(g, p) && InGraph(g, p[..n]) && SingleEntry(g, p[..n])
    && forall k :: n < k <= |p| ==> InGraph(g, p[..k]) && !SingleEntry(g, p[..k])
  }

  lemma CutIs(g: Graph, p: Path, cut: Path)
    requires 1 <= |cut| && cut <= p && InGraph(g, p) && InGraph(g, cut) && SingleEntry(g, cut)
    requires forall k :: |cut| < k <= |p| ==> !SingleEntry(g, p[..k])
    ensures CutAt(g, p, |cut|)
  {
    assert cut == p[..|cut|];
  }

  /** The full table once a pair of paths of more than one node has been stored. */
  ghost function FullAfter<K>(
    sha: string -> K, t: Table<K>, i: Label, p1: Path, p2: Path, hashes: map<nat, Label>): Table<K>
    requires forall k :: 0 <= k < |p1| ==> p1[k] in hashes
  {
    if |p1| <= 1 then t else
      var a := FullDigest(sha, p1, hashes);
      Stored(t, i, a, AddRows(Rows(t, i, a), p1, p2))
  }

  /** The single-entry table once the prefixes of n > 1 nodes have been stored. */
  ghost function CutAfter<K>(
    sha: string -> K, t: Table<K>, i: Label, p1: Path, p2: Path, hashes: map<nat, Label>, n: nat): Table<K>
    requires n <= |p1| == |p2| && forall k :: 0 <= k < |p1| ==> p1[k] in hashes
  {
    if n <= 1 then t else
      var a := CutDigest(sha, p1, hashes, n);
      Stored(t, i, a, AddRows(Rows(t, i, a), p1[..n], p2[..n]))
  }

  /** Nothing stored in t is missing from t'. */
  ghost predicate Grows<K(!new)>(t: Table<K>, t': Table<K>) {
    forall i, a, p :: p in Rows(t, i, a) ==> p in Rows(t', i, a)
  }

  lemma StoringGrows<K(!new)>(t: Table<K>, i: Label, a: K, p1: Path, p2: Path)
    ensures var t' := Stored(t, i, a, AddRows(Rows(t, i, a), p1, p2));
            Grows(t, t') && p1 in Rows(t', i, a) && p2 in Rows(t', i, a)
  {
    var t' := Stored(t, i, a, AddRows(Rows(t, i, a), p1, p2));
    assert Rows(t', i, a) == AddRows(Rows(t, i, a), p1, p2);
    forall j, b, p | p in Rows(t, j, b)
      ensures p in Rows(t', j, b)
    {
      if (j, b) != (i, a) {
        assert Rows(t', j, b) == Rows(t, j, b);
      }
    }
  }

  lemma FullGrows<K(!new)>(
    sha: string -> K, t: Table<K>, i: Label, p1: Path, p2: Path, hashes: map<nat, Label>)
    requires forall k :: 0 <= k < |p1| ==> p1[k] in hashes
    ensures Grows(t, FullAfter(sha, t, i, p1, p2, hashes))
    ensures |p1| > 1 ==>
              var rows := Rows(FullAfter(sha, t, i, p1, p2, hashes), i, FullDigest(sha, p1, hashes));
              p1 in rows && p2 in rows
  {
    hide Join, Stored, AddRows;
    if |p1| > 1 {
      StoringGrows(t, i, FullDigest(sha, p1, hashes), p1, p2);
    }
  }

  lemma CutGrows<K(!new)>(
    sha: string -> K, t: Table<K>, i: Label, p1: Path, p2: Path, hashes: map<nat, Label>, n: nat)
    requires n <= |p1| == |p2| && forall k :: 0 <= k < |p1| ==> p1[k] in hashes
    ensures Grows(t, CutAfter(sha, t, i, p1, p2, hashes, n))
    ensures n > 1 ==>
              var a := CutDigest(sha, p1, hashes, n);
              var rows := Rows(CutAfter(sha, t, i, p1, p2, hashes, n), i, a);
              p1[..n] in rows && p2[..n] in rows
  {
    hide Join, Stored, AddRows;
    if n > 1 {
      StoringGrows(t, i, CutDigest(sha, p1, hashes, n), p1[..n], p2[..n]);
    }
  }

  /**
    A finished search from x and y, exhaustive and without a dead end, and its longest
    single-entry prefix.
   */
  ghost predicate Outcome(
    env: Env, x: nat, y: nat, p1: Path, p2: Path, hashes: map<nat, Label>, cut: nat)
  {
    && InStep(env, p1, p2, hashes) && p1[0] == x && p2[0] == y
    && (forall k :: 0 <= k < |p1| ==> Exhausted(env, p1, p2, k))
    && !SomeDeadEnd(env, p1, p2) && !Fails(env, x, y) && EndsWith(env, x, y, p1, p2, hashes)
    && WellChosen(env, p1, p2, hashes) && HashedHead(env, x, hashes)
    && CutAt(env.g, p1, cut)
  }

  ghost predicate HashedHead(env: Env, x: nat, hashes: map<nat, Label>) {
    x < |env.g| && x in hashes && hashes[x] == env.g[x].itype2
  }

  /** p is one of the two pruned paths of a search from two nodes of hash i. */
  ghost predicate PrunedFrom(
    env: Env, i: Label, p: Path, x: nat, y: nat, p1: Path, p2: Path, hashes: map<nat, Label>, cut: nat)
  {
    && x < y < |env.g| && env.g[x].itype2 == env.g[y].itype2 == i
    && Outcome(env, x, y, p1, p2, hashes, cut) && 1 < cut <= |p1| == |p2|
    && (p == p1[..cut] || p == p2[..cut])
  }

  ghost predicate Pruned(env: Env, i: Label, p: Path) {
    exists x: nat, y: nat, p1, p2, hashes, cut :: PrunedFrom(env, i, p, x, y, p1, p2, hashes, cut)
  }

  /** Nothing but pruned paths is stored. */
  ghost predicate OnlyPruned<K(!new)>(env: Env, t: Table<K>) {
    forall i, a, p :: p in Rows(t, i, a) ==> Pruned(env, i, p)
  }

  lemma StorePruned<K(!new)>(env: Env, t: Table<K>, i: Label, a: K, p1: Path, p2: Path)
    requires OnlyPruned(env, t) && Pruned(env, i, p1) && Pruned(env, i, p2)
    ensures OnlyPruned(env, Stored(t, i, a, AddRows(Rows(t, i, a), p1, p2)))
  {
    hide Pruned;
    var t' := Stored(t, i, a, AddRows(Rows(t, i, a), p1, p2));
    assert Rows(t', i, a) == AddRows(Rows(t, i, a), p1, p2);
    forall j, b, p | p in Rows(t', j, b)
      ensures Pruned(env, j, p)
    {
      if (j, b) != (i, a) {
        assert Rows(t', j, b) == Rows(t, j, b);
      }
    }
  }

  /** Both paths are in the full table, both prefixes in the other, unless of one node. */
  ghost predicate InTables<K(!new)>(
    sha: string -> K, full: Table<K>, single: Table<K>, i: Label,
    p1: Path, p2: Path, hashes: map<nat, Label>, cut: nat)
  {
    && cut <= |p1| == |p2| && (forall k :: 0 <= k < |p1| ==> p1[k] in hashes)
    && (|p1| > 1 ==>
          var rows := Rows(full, i, FullDigest(sha, p1, hashes));
          p1 in rows && p2 in rows)
    && (cut > 1 ==>
          var rows := Rows(single, i, CutDigest(sha, p1, hashes, cut));
          p1[..cut] in rows && p2[..cut] in rows)
  }

  /** The pair x, y of nodes of hash i has been searched, and what was found is stored. */
  ghost predicate Processed<K(!new)>(
    env: Env, sha: string -> K, full: Table<K>, single: Table<K>, i: Label, x: nat, y: nat)
  {
    exists p1, p2, hashes, cut ::
      Outcome(env, x, y, p1, p2, hashes, cut) && InTables(sha, full, single, i, p1, p2, hashes, cut)
  }

  lemma ProcessedStays<K(!new)>(
    env: Env, sha: string -> K, full: Table<K>, single: Table<K>, full': Table<K>, single': Table<K>,
    i: Label, x: nat, y: nat)
    requires Processed(env, sha, full, single, i, x, y) && Grows(full, full') && Grows(single, single')
    ensures Processed(env, sha, full', single', i, x, y)
  {
    hide Outcome, Join, Rows;
    var p1, p2, hashes, cut :|
      Outcome(env, x, y, p1, p2, hashes, cut) && InTables(sha, full, single, i, p1, p2, hashes, cut);
    assert InTables(sha, full', single', i, p1, p2, hashes, cut);
  }

  /** What any two nodes of one hash have been searched for is in the tables. */
  ghost predicate AllProcessed<K(!new)>(env: Env, sha: string -> K, full: Table<K>, single: Table<K>) {
    forall x: nat, y: nat :: x < y < |env.g| && env.g[x].itype2 == env.g[y].itype2 ==>
      Processed(env, sha, full, single, env.g[x].itype2, x, y)
  }

  lemma ProcessedNoFails<K(!new)>(env: Env, sha: string -> K, full: Table<K>, single: Table<K>)
    requires AllProcessed(env, sha, full, single)
    ensures !SomeFails(env)
  {
    hide InTables, Fails, InStep, SomeDeadEnd, CutAt, Exhausted, EndsWith;
    forall x: nat, y: nat | x < y < |env.g| && env.g[x].itype2 == env.g[y].itype2
      ensures !Fails(env, x, y)
    {
      assert Processed(env, sha, full, single, env.g[x].itype2, x, y);
    }
  }

  lemma GrowsSame<K(!new)>(t: Table<K>)
    ensures Grows(t, t)
  {
  }

  lemma GrowsOn<K(!new)>(t: Table<K>, t': Table<K>, t'': Table<K>)
    requires Grows(t, t') && Grows(t', t'')
    ensures Grows(t, t'')
  {
    hide Rows;
  }

  /** The pairs of places of the nodes ns handled before the loops stand at (z, k). */
  ghost predicate PairsDone<K(!new)>(
    env: Env, sha: string -> K, full: Table<K>, single: Table<K>, i: Label, ns: seq<nat>, z: nat, k: nat)
  {
    forall u, v :: 0 <= u < v < |ns| && (u < z || (u == z && v < k)) ==>
      Processed(env, sha, full, single, i, ns[u], ns[v])
  }

  lemma PairsStay<K(!new)>(
    env: Env, sha: string -> K, full: Table<K>, single: Table<K>, full': Table<K>, single': Table<K>,
    i: Label, ns: seq<nat>, z: nat, k: nat)
    requires PairsDone(env, sha, full, single, i, ns, z, k) && Grows(full, full') && Grows(single, single')
    ensures PairsDone(env, sha, full', single', i, ns, z, k)
  {
    hide Processed, Grows;
    forall u, v | 0 <= u < v < |ns| && (u < z || (u == z && v < k))
      ensures Processed(env, sha, full', single', i, ns[u], ns[v])
    {
      ProcessedStays(env, sha, full, single, full', single', i, ns[u], ns[v]);
    }
  }

  lemma PairsNext<K(!new)>(
    env: Env, sha: string -> K, full: Table<K>, single: Table<K>, i: Label, ns: seq<nat>, z: nat, k: nat)
    requires PairsDone(env, sha, full, single, i, ns, z, k)
    ensures z < k < |ns| && Processed(env, sha, full, single, i, ns[z], ns[k]) ==>
              PairsDone(env, sha, full, single, i, ns, z, k + 1)
    ensures k >= |ns| ==> PairsDone(env, sha, full, single, i, ns, z + 1, z + 2)
    ensures z + 1 >= |ns| ==> PairsDone(env, sha, full, single, i, ns, |ns|, 0)
  {
    hide Processed;
  }

  /** The search from x and y gets stuck, with paths in step that have come to a dead end. */
  ghost predicate FailsAt(env: Env, x: nat, y: nat) {
    Fails(env, x, y) && exists p1, p2, hashes :: DeadSearch(env, x, y, p1, p2, hashes)
  }

  ghost predicate DeadSearch(
    env: Env, x: nat, y: nat, p1: Path, p2: Path, hashes: map<nat, Label>)
  {
    InStep(env, p1, p2, hashes) && p1[0] == x && p2[0] == y && SomeDeadEnd(env, p1, p2)
  }

  /** The search from some two nodes of one hash gets stuck; a condition on the graph alone. */
  ghost predicate SomeFails(env: Env) {
    exists x: nat, y: nat ::
      x < y < |env.g| && env.g[x].itype2 == env.g[y].itype2 && Fails(env, x, y)
  }

  /** The same, with the dead end that the paths come to. */
  ghost predicate SomeDeadSearch(env: Env) {
    exists x: nat, y: nat ::
      x < y < |env.g| && env.g[x].itype2 == env.g[y].itype2 && FailsAt(env, x, y)
  }

  /** The search from some two of the nodes ns gets stuck. */
  ghost predicate HashFails(env: Env, ns: seq<nat>) {
    exists u: nat, v: nat :: u < v < |ns| && Fails(env, ns[u], ns[v])
  }

  lemma PairsNoFails<K(!new)>(
    env: Env, sha: string -> K, full: Table<K>, single: Table<K>, i: Label, ns: seq<nat>)
    requires PairsDone(env, sha, full, single, i, ns, |ns|, 0)
    ensures !HashFails(env, ns)
  {
    hide InTables, Fails, InStep, SomeDeadEnd, CutAt, Exhausted, EndsWith;
    forall u: nat, v: nat | u < v < |ns|
      ensures !Fails(env, ns[u], ns[v])
    {
      assert Processed(env, sha, full, single, i, ns[u], ns[v]);
    }
  }

  lemma DeadSearchMeans(env: Env)
    requires SomeDeadSearch(env)
    ensures SomeFails(env) && !TwinsGoOn(env)
  {
    hide Fails, InStep, SomeDeadEnd, TwinsGoOn;
    var x: nat, y: nat :|
      x < y < |env.g| && env.g[x].itype2 == env.g[y].itype2 && FailsAt(env, x, y);
    var p1, p2, hashes :| DeadSearch(env, x, y, p1, p2, hashes);
    DeadNeedsTwins(env, p1, p2, hashes);
  }

  lemma DeadNeedsTwins(env: Env, p1: Path, p2: Path, hashes: map<nat, Label>)
    requires InStep(env, p1, p2, hashes) && SomeDeadEnd(env, p1, p2)
    requires p1[0] != p2[0] && env.g[p1[0]].itype2 == env.g[p2[0]].itype2
    ensures !TwinsGoOn(env)
  {
    hide TwinsGoOn, InStep, SomeDeadEnd;
    if TwinsGoOn(env) {
      TwinsNoDeadEnd(env, p1, p2, hashes);
      assert false;
    }
  }

  lemma ListedAscending(g: Graph, M: map<Label, seq<nat>>, i: Label, z: nat, k: nat)
    requires AllListed(g, M) && i in M && z < k < |M[i]|
    ensures M[i][z] < M[i][k] < |g| && g[M[i][z]].itype2 == g[M[i][k]].itype2 == i
  {
    ListedNodes(g, M, i);
    assert Listed(g, M, i, |g|);
  }

  lemma ArePruned(env: Env, i: Label, p1: Path, p2: Path, hashes: map<nat, Label>, cut: nat)
    requires 1 < cut <= |p1| == |p2| && p1[0] < p2[0] < |env.g|
    requires env.g[p1[0]].itype2 == env.g[p2[0]].itype2 == i
    requires Outcome(env, p1[0], p2[0], p1, p2, hashes, cut)
    ensures Pruned(env, i, p1[..cut]) && Pruned(env, i, p2[..cut])
  {
    hide Outcome;
    assert PrunedFrom(env, i, p1[..cut], p1[0], p2[0], p1, p2, hashes, cut);
    assert PrunedFrom(env, i, p2[..cut], p1[0], p2[0], p1, p2, hashes, cut);
  }

  lemma OutcomeFacts(
    env: Env, x: nat, y: nat, p1: Path, p2: Path, hashes: map<nat, Label>, cut: nat)
    requires Outcome(env, x, y, p1, p2, hashes, cut)
    ensures cut <= |p1| == |p2| && forall k :: 0 <= k < |p1| ==> p1[k] in hashes
  {
  }

  lemma NowProcessed<K(!new)>(
    env: Env, sha: string -> K, full: Table<K>, single: Table<K>, i: Label, x: nat, y: nat,
    p1: Path, p2: Path, hashes: map<nat, Label>, cut: nat)
    requires Outcome(env, x, y, p1, p2, hashes, cut)
    requires cut <= |p1| == |p2| && forall k :: 0 <= k < |p1| ==> p1[k] in hashes
    ensures var full' := FullAfter(sha, full, i, p1, p2, hashes);
            var single' := CutAfter(sha, single, i, p1, p2, hashes, cut);
            && Grows(full, full') && Grows(single, single')
            && Processed(env, sha, full', single', i, x, y)
  {
    hide Outcome, FullAfter, CutAfter, Grows, Join, Rows;
    FullGrows(sha, full, i, p1, p2, hashes);
    CutGrows(sha, single, i, p1, p2, hashes, cut);
    assert InTables(sha, FullAfter(sha, full, i, p1, p2, hashes),
                    CutAfter(sha, single, i, p1, p2, hashes, cut), i, p1, p2, hashes, cut);
  }

  lemma NoPairs<K(!new)>(
    env: Env, sha: string -> K, full: Table<K>, single: Table<K>, i: Label, ns: seq<nat>)
    ensures PairsDone(env, sha, full, single, i, ns, 0, 1)
  {
  }

  /** Two nodes of one hash stand in its list, in ascending order. */
  lemma PlacesOf(g: Graph, M: map<Label, seq<nat>>, x: nat, y: nat) returns (u: nat, v: nat)
    requires AllListed(g, M) && x < y < |g| && g[x].itype2 == g[y].itype2
    ensures g[x].itype2 in M && u < v < |M[g[x].itype2]|
    ensures M[g[x].itype2][u] == x && M[g[x].itype2][v] == y
  {
    var i := g[x].itype2;
    assert Listed(g, M, i, |g|);
    var ns := NodesUpTo(g, i, |g|);
    assert x in ns && y in ns;
    u :| 0 <= u < |ns| && ns[u] == x;
    v :| 0 <= v < |ns| && ns[v] == y;
  }

  lemma EntryNoEmpty<K(!new)>(g: Graph, t: Table<K>)
    requires EntryTable(g, t)
    ensures NoEmptyBuckets(t)
  {
  }

  lemma InStepFacts(env: Env, p1: seq<nat>, p2: seq<nat>, hashes: map<nat, Label>)
    requires InStep(env, p1, p2, hashes)
    ensures |p1| == |p2| && NoRepeats(p1) && NoRepeats(p2)
    ensures InGraph(env.g, p1) && InGraph(env.g, p2)
    ensures forall k :: 0 <= k < |p1| ==> p1[k] in hashes
  {
  }

  lemma PrefixNoRepeats(p: seq<nat>, q: seq<nat>)
    requires p <= q && NoRepeats(q)
    ensures NoRepeats(p)
  {
  }
}

/** When the paths of the pruned table are entered from outside at their heads only. */
module SideEntries {
  import opened MatchGraph
  import opened Lockstep
  import opened GreedySearch
  import opened Pruning
  import opened PathTables
  import opened Selection
  import opened Outcomes

  ghost predicate Entered(g: Graph, p: Path) {
    InGraph(g, p) && SingleEntry(g, p)
  }

  /** What the table is meant to hold: paths entered at their heads only. */
  ghost predicate AllEntered<K(!new)>(g: Graph, t: Table<K>) {
    forall i, a, p :: p in Rows(t, i, a) ==> Entered(g, p)
  }

  /**
    Wherever the search from two nodes of one hash leaves more than one node of the first
    path, the same prefix of the second is single-entry too; a condition on the graph alone.
   */
  ghost predicate SecondsEntered(env: Env) {
    forall x: nat, y: nat, p1, p2, hashes, cut ::
      x < y < |env.g| && env.g[x].itype2 == env.g[y].itype2 && CutOutcome(env, x, y, p1, p2, hashes, cut) ==>
        Entered(env.g, p2[..cut])
  }

  ghost predicate CutOutcome(
    env: Env, x: nat, y: nat, p1: Path, p2: Path, hashes: map<nat, Label>, cut: nat)
  {
    Outcome(env, x, y, p1, p2, hashes, cut) && 1 < cut <= |p1| == |p2|
  }

  lemma CutUnique(g: Graph, p: Path, m: nat, n: nat)
    requires CutAt(g, p, m) && CutAt(g, p, n)
    ensures m == n
  {
  }

  /** The outcome of a processed pair is the one that was stored. */
  lemma SecondStored<K(!new)>(
    env: Env, sha: string -> K, full: Table<K>, single: Table<K>, i: Label,
    x: nat, y: nat, p1: Path, p2: Path, hashes: map<nat, Label>, cut: nat)
    requires Processed(env, sha, full, single, i, x, y) && CutOutcome(env, x, y, p1, p2, hashes, cut)
    ensures exists a :: p2[..cut] in Rows(single, i, a)
  {
    hide InStep, Exhausted, Fails, SomeDeadEnd, EndsWith, Rows, Join, CutAt;
    var q1, q2, hashes', cut' :|
      Outcome(env, x, y, q1, q2, hashes', cut') && InTables(sha, full, single, i, q1, q2, hashes', cut');
    EndsUnique(env, x, y, p1, p2, hashes, q1, q2, hashes');
    CutUnique(env.g, p1, cut, cut');
  }

  /** Every stored path is entered only at its head, exactly when every second path is. */
  lemma EnteredIff<K(!new)>(env: Env, sha: string -> K, full: Table<K>, single: Table<K>)
    requires OnlyPruned(env, single)
    ensures SecondsEntered(env) ==> AllEntered(env.g, single)
    ensures AllProcessed(env, sha, full, single) && AllEntered(env.g, single) ==> SecondsEntered(env)
  {
    hide Outcome, Processed, Rows, Entered;
    if SecondsEntered(env) {
      forall i, a, p | p in Rows(single, i, a)
        ensures Entered(env.g, p)
      {
        assert Pruned(env, i, p);
        PrunedEntered(env, i, p);
      }
    }
    if AllProcessed(env, sha, full, single) && AllEntered(env.g, single) {
      forall x: nat, y: nat, p1, p2, hashes, cut |
        x < y < |env.g| && env.g[x].itype2 == env.g[y].itype2 && CutOutcome(env, x, y, p1, p2, hashes, cut)
        ensures Entered(env.g, p2[..cut])
      {
        SecondStored(env, sha, full, single, env.g[x].itype2, x, y, p1, p2, hashes, cut);
      }
    }
  }

  lemma PrunedEntered(env: Env, i: Label, p: Path)
    requires SecondsEntered(env) && Pruned(env, i, p)
    ensures Entered(env.g, p)
  {
    hide InStep, Exhausted, Fails, SomeDeadEnd, EndsWith, SingleEntry;
    var x: nat, y: nat, p1, p2, hashes, cut :| PrunedFrom(env, i, p, x, y, p1, p2, hashes, cut);
    assert CutOutcome(env, x, y, p1, p2, hashes, cut);
    assert Entered(env.g, p2[..cut]);
  }

  /** The instances selected from such a table are entered at their heads only. */
  lemma PickedEntered<K(!new)>(g: Graph, t: Table<K>, order: seq<(Label, K)>)
    requires AllEntered(g, t)
    ensures AllEntered(g, PickAll(t, order).normalized)
  {
    hide Rows, PickAll, Entered;
    forall x, y, r | r in Rows(PickAll(t, order).normalized, x, y)
      ensures Entered(g, r)
    {
      PickedWithin(t, order, x, y, r);
    }
  }

  // ----- a condition to check before the run ----------------------------------

  /** No node that agrees with another one has two different predecessors. */
  ghost predicate OneEntry(env: Env) {
    forall u: nat, v: nat, tag, a, b ::
      && u < |env.g| && v < |env.g| && u != v && Agrees(env, u, v, tag)
      && a in env.g[v].preds && b in env.g[v].preds
      ==> a == b
  }

  /** Then what was matched was also entered only from the path. */
  lemma OneEntryEnters(env: Env)
    requires WellFormed(env.g) && Mirrored(env.g) && OneEntry(env)
    ensures SecondsEntered(env)
  {
    hide OneEntry, Mirrored, Entered;
    forall x: nat, y: nat, p1, p2, hashes, cut |
      x < y < |env.g| && env.g[x].itype2 == env.g[y].itype2 && CutOutcome(env, x, y, p1, p2, hashes, cut)
      ensures Entered(env.g, p2[..cut])
    {
      hide Exhausted, Fails, SomeDeadEnd, EndsWith, CutAt, InStep;
      PrefixEntered(env, p1, p2, hashes, cut);
    }
  }

  lemma PrefixEntered(env: Env, p1: Path, p2: Path, hashes: map<nat, Label>, cut: nat)
    requires Mirrored(env.g) && OneEntry(env) && InStep(env, p1, p2, hashes) && cut <= |p2|
    ensures Entered(env.g, p2[..cut])
  {
    hide OneEntry, Mirrored;
    var p := p2[..cut];
    forall k | 0 < k < |p|
      ensures Inside(env.g[p[k]].preds, p)
    {
      assert Justified(env, p1, p2, hashes, k);
      var j: nat :| Linked(env.g, p1, p2, k, j);
      OnlyPredecessor(env, p1[k], p2[k], hashes[p1[k]], p2[j]);
      assert p[j] == p2[j];
    }
  }

  lemma OnlyPredecessor(env: Env, u: nat, v: nat, tag: Label, w: nat)
    requires Mirrored(env.g) && OneEntry(env) && u < |env.g| && v < |env.g| && w < |env.g|
    requires u != v && Agrees(env, u, v, tag) && Edge(env.g, w, v)
    ensures forall i :: 0 <= i < |env.g[v].preds| ==> env.g[v].preds[i] == w
  {
    assert w in env.g[v].preds;
    forall i | 0 <= i < |env.g[v].preds|
      ensures env.g[v].preds[i] == w
    {
      assert env.g[v].preds[i] in env.g[v].preds;
    }
  }
}

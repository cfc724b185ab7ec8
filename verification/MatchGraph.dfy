/** The graph and the node hashes that bbgroup/bb_match.py works on. */
module MatchGraph {

  const DIGEST_WIDTH := 40

  /** A hexadecimal digest: every node hash has the same width. */
  type Label = s: string | |s| == DIGEST_WIDTH witness seq(DIGEST_WIDTH, _ => '0')

  datatype Node = Node(succs: seq<nat>, preds: seq<nat>, itype1: Label, itype2: Label)

  type Graph = seq<Node>

  predicate InGraph(g: Graph, s: seq<nat>) {
    forall i :: 0 <= i < |s| ==> s[i] < |g|
  }

  predicate WellFormed(g: Graph) {
    forall n :: 0 <= n < |g| ==> InGraph(g, g[n].succs) && InGraph(g, g[n].preds)
  }

  // ----- hashBBMatch ----------------------------------------------------------

  /** The nodes below k that carry hash x, in ascending order. */
  function NodesUpTo(g: Graph, x: Label, k: nat): (s: seq<nat>)
    requires k <= |g|
    ensures forall n: nat :: n in s <==> n < k && g[n].itype2 == x
    ensures forall i :: 0 <= i < |s| ==> s[i] < k
    ensures forall i, j :: 0 <= i < j < |s| ==> s[i] < s[j]
  {
    if k == 0 then []
    else if g[k - 1].itype2 == x then NodesUpTo(g, x, k - 1) + [k - 1]
    else NodesUpTo(g, x, k - 1)
  }

  /** How far the list of hash x has been filled when the loops stand at (i, j). */
  ghost function Filled(g: Graph, x: Label, i: nat, j: nat): (k: nat)
    requires i <= j <= |g|
    ensures k <= |g|
  {
    if NodesUpTo(g, x, i) != [] then |g|
    else if i < |g| && g[i].itype2 == x then j
    else 0
  }

  ghost predicate Listed(g: Graph, M: map<Label, seq<nat>>, x: Label, k: nat)
    requires k <= |g|
  {
    if |NodesUpTo(g, x, k)| >= 2 then x in M && M[x] == NodesUpTo(g, x, k) else x !in M
  }

  lemma {:induction false} HeadOfList(g: Graph, x: Label, i: nat, j: nat)
    requires i < j <= |g| && NodesUpTo(g, x, i) == [] && g[i].itype2 == x
    ensures |NodesUpTo(g, x, j)| >= 1 && NodesUpTo(g, x, j)[0] == i
  {
    if i < j - 1 {
      HeadOfList(g, x, i, j - 1);
    }
  }

  /** One comparison of the double loop. */
  lemma PairStep(g: Graph, M: map<Label, seq<nat>>, i: nat, j: nat, x: Label)
    requires i < j < |g| && g[i].itype2 == g[j].itype2 == x
    requires Listed(g, M, x, Filled(g, x, i, j))
    ensures x in M && j in M[x] ==> Listed(g, M, x, Filled(g, x, i, j + 1))
    ensures x in M && j !in M[x] ==> Listed(g, M[x := M[x] + [j]], x, Filled(g, x, i, j + 1))
    ensures x !in M ==> Listed(g, M[x := [i, j]], x, Filled(g, x, i, j + 1))
  {
    if NodesUpTo(g, x, i) == [] {
      HeadOfList(g, x, i, j);
      assert j !in NodesUpTo(g, x, j);
      assert NodesUpTo(g, x, j + 1) == NodesUpTo(g, x, j) + [j];
    } else {
      FilledBefore(g, x, i, j);
    }
  }

  /** A hash met before row i: its list is complete, and has two nodes at least. */
  lemma FilledBefore(g: Graph, x: Label, i: nat, j: nat)
    requires i < j < |g| && g[j].itype2 == x && NodesUpTo(g, x, i) != []
    ensures |NodesUpTo(g, x, |g|)| >= 2 && j in NodesUpTo(g, x, |g|)
  {
    var all := NodesUpTo(g, x, |g|);
    var first := NodesUpTo(g, x, i)[0];
    assert first in NodesUpTo(g, x, i) && first in all && j in all && first != j;
  }

  lemma NextRow(g: Graph, M: map<Label, seq<nat>>, i: nat, x: Label)
    requires i < |g| && Listed(g, M, x, Filled(g, x, i, |g|))
    ensures i + 1 < |g| ==> Listed(g, M, x, Filled(g, x, i + 1, i + 2))
    ensures i + 1 == |g| ==> Listed(g, M, x, |g|)
  {
    if i + 1 < |g| {
      assert NodesUpTo(g, x, i + 2) == NodesUpTo(g, x, i + 1) + (if g[i + 1].itype2 == x then [i + 1] else []);
    }
  }

  /** The lists when the loops stand at (i, j). */
  ghost predicate ListsAt(g: Graph, M: map<Label, seq<nat>>, i: nat, j: nat)
    requires i <= j <= |g|
  {
    forall x: Label :: Listed(g, M, x, Filled(g, x, i, j))
  }

  /** Each hash carried by two nodes or more has a list, of all the nodes that carry it. */
  ghost predicate AllListed(g: Graph, M: map<Label, seq<nat>>) {
    forall x: Label :: Listed(g, M, x, |g|)
  }

  lemma OtherHash(
    g: Graph, M: map<Label, seq<nat>>, M': map<Label, seq<nat>>, i: nat, j: nat, x: Label)
    requires (x in M <==> x in M') && (x in M ==> M'[x] == M[x])
    requires i < j < |g| && !(g[i].itype2 == g[j].itype2 == x)
    requires Listed(g, M, x, Filled(g, x, i, j))
    ensures Listed(g, M', x, Filled(g, x, i, j + 1))
  {
  }

  lemma RowDone(g: Graph, M: map<Label, seq<nat>>, i: nat)
    requires i < |g| && ListsAt(g, M, i, |g|)
    ensures if i + 1 < |g| then ListsAt(g, M, i + 1, i + 2) else AllListed(g, M)
  {
    var i', j' := i + 1, i + 2;
    forall x: Label
      ensures i' < |g| ==> Listed(g, M, x, Filled(g, x, i', j'))
      ensures i' == |g| ==> Listed(g, M, x, |g|)
    {
      assert Listed(g, M, x, Filled(g, x, i, |g|));
      NextRow(g, M, i, x);
    }
  }

  lemma NoneListed(g: Graph)
    ensures if |g| > 0 then ListsAt(g, map[], 0, 1) else AllListed(g, map[])
  {
  }

  method ComparePair(g: Graph, M: map<Label, seq<nat>>, i: nat, j: nat)
    returns (M': map<Label, seq<nat>>)
    requires i < j < |g| && ListsAt(g, M, i, j)
    ensures ListsAt(g, M', i, j + 1)
  {
    hide Filled, NodesUpTo, Listed;
    M' := M;
    var y := g[i].itype2;
    assert Listed(g, M, y, Filled(g, y, i, j));
    if g[i].itype2 == g[j].itype2 {
      PairStep(g, M, i, j, y);
      if y in M {
        if j !in M[y] {
          M' := M[y := M[y] + [j]];
        }
      } else {
        M' := M[y := [i, j]];
      }
    }
    ghost var j' := j + 1;
    forall x: Label
      ensures Listed(g, M', x, Filled(g, x, i, j'))
    {
      assert Listed(g, M, x, Filled(g, x, i, j));
      if !(g[i].itype2 == g[j].itype2 == x) {
        OtherHash(g, M, M', i, j, x);
      }
    }
  }

  method HashBBMatch(g: Graph) returns (M: map<Label, seq<nat>>)
    ensures AllListed(g, M)
  {
    hide Listed, Filled, ListsAt, AllListed;
    M := map[];
    NoneListed(g);
    for i := 0 to |g|
      invariant if i < |g| then ListsAt(g, M, i, i + 1) else AllListed(g, M)
    {
      for j := i + 1 to |g|
        invariant ListsAt(g, M, i, j)
      {
        M := ComparePair(g, M, i, j);
      }
      RowDone(g, M, i);
    }
  }
}

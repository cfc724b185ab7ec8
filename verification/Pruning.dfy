/** Cutting a pair of matched paths down to a single-entry subgraph. */
module Pruning {
  import opened Seqs
  import opened MatchGraph

  /** Only the head of the path is entered from outside it. */
  ghost predicate SingleEntry(g: Graph, p: seq<nat>)
    requires InGraph(g, p)
  {
    forall i :: 0 < i < |p| ==> Inside(g[p[i]].preds, p)
  }

  predicate Inside(preds: seq<nat>, p: seq<nat>) {
    forall k :: 0 <= k < |preds| ==> preds[k] in p
  }

  ghost predicate Mirrored(g: Graph) {
    forall u: nat, v: nat :: u < |g| && v < |g| ==> (v in g[u].succs <==> u in g[v].preds)
  }

  /** On linked blocks, single-entry means that no edge from elsewhere ends below the head. */
  lemma SingleEntryMeans(g: Graph, p: seq<nat>)
    requires WellFormed(g) && Mirrored(g) && InGraph(g, p)
    ensures SingleEntry(g, p) <==>
              forall u: nat, i :: u < |g| && 0 < i < |p| && p[i] in g[u].succs ==> u in p
  {
    if forall u: nat, i :: u < |g| && 0 < i < |p| && p[i] in g[u].succs ==> u in p {
      forall i | 0 < i < |p|
        ensures Inside(g[p[i]].preds, p)
      {
        var preds := g[p[i]].preds;
        forall k | 0 <= k < |preds|
          ensures preds[k] in p
        {
          assert InGraph(g, preds) && preds[k] in preds;
          assert p[i] in g[preds[k]].succs;
        }
      }
    }
    if SingleEntry(g, p) {
      forall u: nat, i | u < |g| && 0 < i < |p| && p[i] in g[u].succs
        ensures u in p
      {
        assert u in g[p[i]].preds;
      }
    }
  }

  /** list.remove: only the first occurrence goes. */
  function RemoveFirst<T(==)>(s: seq<T>, x: T): seq<T> {
    if s == [] then [] else if s[0] == x then s[1..] else [s[0]] + RemoveFirst(s[1..], x)
  }

  /** list.index */
  function IndexOf<T(==)>(s: seq<T>, x: T): (i: nat)
    requires x in s
    ensures i < |s| && s[i] == x && x !in s[..i]
  {
    if s[0] == x then 0 else
      var i := 1 + IndexOf(s[1..], x);
      assert s[..i] == [s[0]] + s[1..][..i - 1];
      i
  }

  lemma {:induction false} RemoveFirstLast<T>(s: seq<T>)
    requires s != [] && NoRepeats(s)
    ensures RemoveFirst(s, s[|s| - 1]) == s[..|s| - 1]
    ensures IndexOf(s, s[|s| - 1]) == |s| - 1
  {
    if |s| > 1 {
      RemoveFirstLast(s[1..]);
      assert s[..|s| - 1] == [s[0]] + s[1..][..|s| - 2];
    }
  }

  /** The inner loops: is some node but the head entered from outside the list? */
  method HasForeignEntry(g: Graph, p: seq<nat>, head: nat) returns (found: bool)
    requires InGraph(g, p) && p != [] && NoRepeats(p) && head == p[0]
    ensures found <==> !SingleEntry(g, p)
  {
    found := false;
    for i := 0 to |p|
      invariant found <==> exists k :: 0 < k < i && !Inside(g[p[k]].preds, p)
    {
      var preds := g[p[i]].preds;
      var j := 0;
      while j < |preds|
        invariant 0 <= j <= |preds|
        invariant forall k :: 0 <= k < j ==> preds[k] in p || p[i] == head
        invariant found <==> exists k :: 0 < k < i && !Inside(g[p[k]].preds, p)
      {
        if preds[j] !in p && p[i] != head {
          assert !Inside(preds, p);
          found := true;
          break;
        }
        j := j + 1;
      }
    }
  }

  lemma HeadAlone(g: Graph, p: seq<nat>)
    requires InGraph(g, p)
    ensures |p| == 1 ==> SingleEntry(g, p)
  {
  }

  /**
    The longest prefix that is single-entry, with the same prefix of the other path. The
    node removed in a round is always the last, whichever node was found at fault.
   */
  method MakeSubgraphSingleEntryPoint(g: Graph, path1: seq<nat>, path2: seq<nat>)
    returns (cut1: seq<nat>, cut2: seq<nat>)
    requires InGraph(g, path1) && |path1| == |path2| >= 1 && NoRepeats(path1) && NoRepeats(path2)
    ensures 1 <= |cut1| == |cut2| && cut1 <= path1 && cut2 <= path2
    ensures InGraph(g, cut1) && SingleEntry(g, cut1)
    ensures forall k :: |cut1| < k <= |path1| ==> !SingleEntry(g, path1[..k])
  {
    hide SingleEntry;
    cut1, cut2 := path1, path2;
    var head := path1[0];
    var removed := true;
    while removed
      invariant 1 <= |cut1| == |cut2| && cut1 <= path1 && cut2 <= path2
      invariant !removed ==> SingleEntry(g, cut1)
      invariant forall k :: |cut1| < k <= |path1| ==> !SingleEntry(g, path1[..k])
      decreases |cut1|, removed
    {
      removed := HasForeignEntry(g, cut1, head);
      if removed {
        HeadAlone(g, cut1);
        var node := cut1[|cut1| - 1];
        RemoveFirstLast(cut1);
        RemoveFirstLast(cut2);
        assert cut1 == path1[..|cut1|];
        var nodeIndex := IndexOf(cut1, node);
        cut1 := RemoveFirst(cut1, node);
        cut2 := RemoveFirst(cut2, cut2[nodeIndex]);
      }
    }
  }
}

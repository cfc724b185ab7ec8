/** The graph that the matcher gets from a flowchart: its blocks, linked, with their hashes. */
module LinkedGraph {
  import opened Linking
  import opened MatchGraph
  import Pruning

  /** Block b as a node of the matcher's graph. */
  ghost predicate IsNode(bbs: BBMan, b: nat, node: Node)
    reads bbs, bbs.objs
  {
    bbs.Valid() && b in bbs.idcache && node.succs == bbs.idcache[b].succs && node.preds == bbs.idcache[b].preds
  }

  ghost predicate IsGraph(bbs: BBMan, g: Graph)
    reads bbs, bbs.objs
  {
    && bbs.Valid() && (forall b: nat :: b in bbs.idcache <==> b < |g|)
    && forall b :: 0 <= b < |g| ==> IsNode(bbs, b, g[b])
  }

  lemma NeighboursInside(bbs: BBMan, g: Graph, b: nat)
    requires IsGraph(bbs, g) && b < |g|
    ensures InGraph(g, g[b].succs) && InGraph(g, g[b].preds)
  {
    assert IsNode(bbs, b, g[b]);
    var succs, preds := bbs.idcache[b].succs, bbs.idcache[b].preds;
    forall i | 0 <= i < |succs|
      ensures succs[i] < |g|
    {
      assert multiset(succs)[succs[i]] > 0;
      LinksCounted(bbs.links, b, succs[i]);
      assert multiset(bbs.links)[(b, succs[i])] > 0;
      assert (b, succs[i]) in bbs.links;
    }
    forall i | 0 <= i < |preds|
      ensures preds[i] < |g|
    {
      assert multiset(preds)[preds[i]] > 0;
      LinksCounted(bbs.links, preds[i], b);
      assert multiset(bbs.links)[(preds[i], b)] > 0;
      assert (preds[i], b) in bbs.links;
    }
  }

  /** Linked blocks make a graph whose edges are mirrored and stay inside. */
  lemma LinkedMirrored(bbs: BBMan, g: Graph)
    requires IsGraph(bbs, g)
    ensures MatchGraph.WellFormed(g) && Pruning.Mirrored(g)
    ensures forall u: nat, v: nat :: u < |g| && v < |g| ==> (v in g[u].succs <==> (u, v) in bbs.links)
  {
    forall n | 0 <= n < |g|
      ensures InGraph(g, g[n].succs) && InGraph(g, g[n].preds)
    {
      NeighboursInside(bbs, g, n);
    }
    forall u: nat, v: nat | u < |g| && v < |g|
      ensures v in g[u].succs <==> u in g[v].preds
      ensures v in g[u].succs <==> (u, v) in bbs.links
    {
      EdgeIsLink(bbs, g, u, v);
    }
  }

  lemma EdgeIsLink(bbs: BBMan, g: Graph, u: nat, v: nat)
    requires IsGraph(bbs, g) && u < |g| && v < |g|
    ensures v in g[u].succs <==> u in g[v].preds
    ensures v in g[u].succs <==> (u, v) in bbs.links
  {
    assert IsNode(bbs, u, g[u]) && IsNode(bbs, v, g[v]);
    bbs.Mirrored(u, v);
    assert v in g[u].succs <==> multiset(g[u].succs)[v] > 0;
  }

  /** Block u lists v as a successor, or v lists u as a predecessor. */
  predicate FlowEdge(fc: seq<FlowBlock>, u: nat, v: nat)
    requires u < |fc| && v < |fc|
  {
    v in fc[u].succs || u in fc[v].preds
  }

  /** The graph of a flowchart, with the given hashes for its blocks. */
  method GraphFromFlowchart(fc: seq<FlowBlock>, itype1: nat -> Label, itype2: nat -> Label) returns (g: Graph)
    requires Linking.WellFormed(fc)
    ensures |g| == |fc| && MatchGraph.WellFormed(g) && Pruning.Mirrored(g)
    ensures forall u: nat, v: nat :: u < |fc| && v < |fc| ==> (v in g[u].succs <==> FlowEdge(fc, u, v))
    ensures forall b: nat :: b < |fc| ==> g[b].itype1 == itype1(b) && g[b].itype2 == itype2(b)
    ensures forall b: nat :: b < |fc| ==> g[b].succs == SuccsAsked(fc, b, |fc|) && g[b].preds == PredsAsked(fc, b, |fc|)
  {
    hide AllLinks, MatchGraph.WellFormed, Pruning.Mirrored;
    var bbs := new BBMan();
    bbs.FromFlowchart(fc);
    g := [];
    for b := 0 to |fc|
      invariant |g| == b && forall n :: 0 <= n < b ==> IsNode(bbs, n, g[n])
      invariant forall n: nat :: n < b ==> g[n].itype1 == itype1(n) && g[n].itype2 == itype2(n)
    {
      var bb := bbs.idcache[b];
      g := g + [Node(bb.succs, bb.preds, itype1(b), itype2(b))];
    }
    LinkedMirrored(bbs, g);
    forall b: nat | b < |fc|
      ensures g[b].succs == SuccsAsked(fc, b, |fc|) && g[b].preds == PredsAsked(fc, b, |fc|)
    {
      assert IsNode(bbs, b, g[b]);
      AskedInTurn(fc, |fc|, b);
    }
    forall u: nat, v: nat | u < |fc| && v < |fc|
      ensures v in g[u].succs <==> FlowEdge(fc, u, v)
    {
      LinkCount(fc, |fc|, u, v);
      assert v in fc[u].succs <==> multiset(fc[u].succs)[v] > 0;
      assert u in fc[v].preds <==> multiset(fc[v].preds)[u] > 0;
    }
  }
}

/**
  The blocks of bbgroup/bb_types.py and the loop of bbgroup/bb_ida.py that links them
  from a flowchart.
 */
module Linking {
  import opened Seqs

  /** A block of the disassembler's flowchart; its id is its place there. */
  datatype FlowBlock = FlowBlock(start: nat, end: nat, succs: seq<nat>, preds: seq<nat>)

  predicate Within(ids: seq<nat>, n: nat) {
    forall i :: 0 <= i < |ids| ==> ids[i] < n
  }

  predicate WellFormed(fc: seq<FlowBlock>) {
    forall b :: 0 <= b < |fc| ==> Within(fc[b].succs, |fc|) && Within(fc[b].preds, |fc|)
  }

  /** Links in the order in which they are made. */
  type Links = seq<(nat, nat)>

  /** The given links and those that the first i successors of block b ask for. */
  ghost function SuccLinks(links: Links, b: nat, succs: seq<nat>, i: nat): Links
    requires i <= |succs|
  {
    if i == 0 then links else SuccLinks(links, b, succs, i - 1) + [(b, succs[i - 1])]
  }

  ghost function PredLinks(links: Links, b: nat, preds: seq<nat>, i: nat): Links
    requires i <= |preds|
  {
    if i == 0 then links else PredLinks(links, b, preds, i - 1) + [(preds[i - 1], b)]
  }

  ghost function BlockLinks(links: Links, b: nat, block: FlowBlock): Links {
    PredLinks(SuccLinks(links, b, block.succs, |block.succs|), b, block.preds, |block.preds|)
  }

  /** The links that the first k blocks ask for: both their successors and their predecessors. */
  ghost function AllLinks(fc: seq<FlowBlock>, k: nat): Links
    requires k <= |fc|
  {
    if k == 0 then [] else BlockLinks(AllLinks(fc, k - 1), k - 1, fc[k - 1])
  }

  class BBDef {
    const id: nat
    const start: nat
    const end: nat
    var succs: seq<nat>
    var preds: seq<nat>

    constructor (id: nat, start: nat, end: nat)
      ensures this.id == id && this.start == start && this.end == end && succs == preds == []
    {
      this.id, this.start, this.end := id, start, end;
      succs, preds := [], [];
    }

    /** add_succ with link_pred: the other block learns of its predecessor, even if it is this one. */
    method AddSucc(bb: BBDef)
      modifies this`succs, bb`preds
      ensures succs == old(succs) + [bb.id] && bb.preds == old(bb.preds) + [id]
    {
      succs := succs + [bb.id];
      bb.preds := bb.preds + [id];
    }

    /** add_pred with link_succ */
    method AddPred(bb: BBDef)
      modifies this`preds, bb`succs
      ensures preds == old(preds) + [bb.id] && bb.succs == old(bb.succs) + [id]
    {
      preds := preds + [bb.id];
      bb.succs := bb.succs + [id];
    }
  }

  /** Where the links from b go to, in order. */
  ghost function SuccsOf(links: Links, b: nat): seq<nat> {
    if links == [] then [] else
      var n := |links| - 1;
      SuccsOf(links[..n], b) + if links[n].0 == b then [links[n].1] else []
  }

  /** Where the links to b come from, in order. */
  ghost function PredsOf(links: Links, b: nat): seq<nat> {
    if links == [] then [] else
      var n := |links| - 1;
      PredsOf(links[..n], b) + if links[n].1 == b then [links[n].0] else []
  }

  lemma {:induction false} LinksCounted(links: Links, u: nat, v: nat)
    ensures multiset(SuccsOf(links, u))[v] == multiset(PredsOf(links, v))[u] == multiset(links)[(u, v)]
  {
    if links != [] {
      var n := |links| - 1;
      LinksCounted(links[..n], u, v);
      assert links == links[..n] + [links[n]];
      LinkAdded(links[..n], links[n].0, links[n].1, u);
      LinkAdded(links[..n], links[n].0, links[n].1, v);
      OneMore(links[..n], links[n], (u, v));
      OneMore(SuccsOf(links[..n], u), links[n].1, v);
      OneMore(PredsOf(links[..n], v), links[n].0, u);
      hide SuccsOf, PredsOf;
    }
  }

  /** The lists of a block hold its neighbours as they were linked. */
  ghost predicate ListsLinks(b: nat, succs: seq<nat>, preds: seq<nat>, links: Links) {
    succs == SuccsOf(links, b) && preds == PredsOf(links, b)
  }

  lemma ListsMore(b: nat, succs: seq<nat>, preds: seq<nat>, links: Links, u: nat, v: nat)
    requires ListsLinks(b, succs, preds, links)
    ensures ListsLinks(b, if b == u then succs + [v] else succs, if b == v then preds + [u] else preds,
                       links + [(u, v)])
  {
    assert (links + [(u, v)])[..|links|] == links;
  }

  ghost predicate EndsIn(links: Links, ids: set<nat>) {
    forall e :: e in links ==> e.0 in ids && e.1 in ids
  }

  lemma EndsInMore(links: Links, ids: set<nat>, ids': set<nat>)
    requires EndsIn(links, ids) && ids <= ids'
    ensures EndsIn(links, ids')
  {
  }

  lemma {:induction false} NoLinks(b: nat, links: Links, ids: set<nat>)
    requires EndsIn(links, ids) && b !in ids
    ensures ListsLinks(b, [], [], links)
  {
    if links != [] {
      NoLinks(b, links[..|links| - 1], ids);
      assert links[|links| - 1] in links;
    }
  }

  class BBMan {
    var idcache: map<nat, BBDef>
    ghost var links: Links
    ghost var objs: set<BBDef>  // the blocks made so far

    ghost predicate Valid()
      reads this, objs
    {
      && (forall b :: b in idcache ==>
            idcache[b] in objs && idcache[b].id == b && ListsLinks(b, idcache[b].succs, idcache[b].preds, links))
      && EndsIn(links, idcache.Keys)
    }

    constructor ()
      ensures Valid() && idcache == map[] && links == [] && objs == {}
    {
      idcache, links, objs := map[], [], {};
    }

    /** Block b was made from the flowchart's block of that number. */
    ghost predicate MadeFrom(fc: seq<FlowBlock>)
      reads this`idcache
    {
      forall b :: b in idcache ==> b < |fc| && idcache[b].start == fc[b].start && idcache[b].end == fc[b].end
    }

    /** bb is the block filed under its own id. */
    ghost predicate Filed(fc: seq<FlowBlock>, bb: BBDef)
      reads this, objs
    {
      Valid() && MadeFrom(fc) && bb.id in idcache && idcache[bb.id] == bb
    }

    method AddNew(fc: seq<FlowBlock>, b: nat) returns (bb: BBDef)
      requires Valid() && MadeFrom(fc) && b < |fc| && b !in idcache
      modifies this`idcache, this`objs
      ensures fresh(bb) && bb.id == b && idcache == old(idcache)[b := bb] && objs == old(objs) + {bb}
      ensures Filed(fc, bb)
    {
      hide ListsLinks, EndsIn;
      NoLinks(b, links, idcache.Keys);
      EndsInMore(links, idcache.Keys, idcache.Keys + {b});
      bb := new BBDef(b, fc[b].start, fc[b].end);
      assert idcache[b := bb].Keys == idcache.Keys + {b};
      idcache, objs := idcache[b := bb], objs + {bb};
    }

    /** Look a block up, and make and add it when it is not there. */
    method Obtain(fc: seq<FlowBlock>, b: nat) returns (bb: BBDef)
      requires Valid() && MadeFrom(fc) && b < |fc|
      modifies this`idcache, this`objs
      ensures Filed(fc, bb) && bb.id == b && bb in objs
      ensures forall x :: x in old(idcache) ==> x in idcache && idcache[x] == old(idcache)[x]
      ensures fresh(objs - old(objs))
    {
      hide ListsLinks, EndsIn, MadeFrom;
      if b in idcache {
        bb := idcache[b];
      } else {
        bb := AddNew(fc, b);
      }
    }

    /** The lists of all blocks as a value. */
    ghost function Lists(): map<nat, (seq<nat>, seq<nat>)>
      requires Valid()
      reads this, objs
    {
      map b | b in idcache :: (idcache[b].succs, idcache[b].preds)
    }

    /** Both lists of a link have been extended. */
    lemma LinkKeeps(was: map<nat, (seq<nat>, seq<nat>)>, before: Links, u: nat, v: nat)
      requires u in idcache && v in idcache && was.Keys == idcache.Keys
      requires forall b :: b in idcache ==>
                 idcache[b] in objs && idcache[b].id == b && ListsLinks(b, was[b].0, was[b].1, before)
      requires EndsIn(before, idcache.Keys)
      requires forall b :: b in idcache ==>
                 && idcache[b].succs == (if b == u then was[b].0 + [v] else was[b].0)
                 && idcache[b].preds == (if b == v then was[b].1 + [u] else was[b].1)
      requires links == before + [(u, v)]
      ensures Valid()
    {
      hide ListsLinks;
      forall b | b in idcache
        ensures ListsLinks(b, idcache[b].succs, idcache[b].preds, links)
      {
        ListsMore(b, was[b].0, was[b].1, before, u, v);
      }
    }

    method LinkSucc(bb: BBDef, b0: BBDef)
      requires Valid() && bb.id in idcache && idcache[bb.id] == bb && b0.id in idcache && idcache[b0.id] == b0
      modifies this`links, bb`succs, b0`preds
      ensures Valid() && links == old(links) + [(bb.id, b0.id)]
    {
      hide ListsLinks;
      ghost var was, before := Lists(), links;
      bb.AddSucc(b0);
      links := links + [(bb.id, b0.id)];
      LinkKeeps(was, before, bb.id, b0.id);
    }

    method LinkPred(bb: BBDef, b0: BBDef)
      requires Valid() && bb.id in idcache && idcache[bb.id] == bb && b0.id in idcache && idcache[b0.id] == b0
      modifies this`links, bb`preds, b0`succs
      ensures Valid() && links == old(links) + [(b0.id, bb.id)]
    {
      hide ListsLinks;
      ghost var was, before := Lists(), links;
      bb.AddPred(b0);
      links := links + [(b0.id, bb.id)];
      LinkKeeps(was, before, b0.id, bb.id);
    }

    /** One round of the first inner loop. */
    method AddSuccessor(fc: seq<FlowBlock>, bb: BBDef, succ: nat)
      requires Filed(fc, bb) && succ < |fc|
      modifies this, objs
      ensures Filed(fc, bb) && links == old(links) + [(bb.id, succ)]
      ensures fresh(objs - old(objs)) && old(idcache.Keys) <= idcache.Keys
    {
      hide ListsLinks, MadeFrom;
      var b0 := Obtain(fc, succ);
      LinkSucc(bb, b0);
    }

    /** One round of the second inner loop. */
    method AddPredecessor(fc: seq<FlowBlock>, bb: BBDef, pred: nat)
      requires Filed(fc, bb) && pred < |fc|
      modifies this, objs
      ensures Filed(fc, bb) && links == old(links) + [(pred, bb.id)]
      ensures fresh(objs - old(objs)) && old(idcache.Keys) <= idcache.Keys
    {
      hide ListsLinks, MadeFrom;
      var b0 := Obtain(fc, pred);
      LinkPred(bb, b0);
    }

    method AddSuccessors(fc: seq<FlowBlock>, bb: BBDef, succs: seq<nat>)
      requires Filed(fc, bb) && Within(succs, |fc|)
      modifies this, objs
      ensures Filed(fc, bb) && links == SuccLinks(old(links), bb.id, succs, |succs|)
      ensures fresh(objs - old(objs)) && old(idcache.Keys) <= idcache.Keys
    {
      hide Filed;
      for i := 0 to |succs|
        invariant Filed(fc, bb) && links == SuccLinks(old(links), bb.id, succs, i)
        invariant fresh(objs - old(objs)) && old(idcache.Keys) <= idcache.Keys
      {
        AddSuccessor(fc, bb, succs[i]);
      }
    }

    method AddPredecessors(fc: seq<FlowBlock>, bb: BBDef, preds: seq<nat>)
      requires Filed(fc, bb) && Within(preds, |fc|)
      modifies this, objs
      ensures Filed(fc, bb) && links == PredLinks(old(links), bb.id, preds, |preds|)
      ensures fresh(objs - old(objs)) && old(idcache.Keys) <= idcache.Keys
    {
      hide Filed;
      for i := 0 to |preds|
        invariant Filed(fc, bb) && links == PredLinks(old(links), bb.id, preds, i)
        invariant fresh(objs - old(objs)) && old(idcache.Keys) <= idcache.Keys
      {
        AddPredecessor(fc, bb, preds[i]);
      }
    }

    /** The body of the main loop. */
    method AddBlock(fc: seq<FlowBlock>, b: nat)
      requires Valid() && MadeFrom(fc) && WellFormed(fc) && b < |fc|
      modifies this, objs
      ensures Valid() && MadeFrom(fc) && b in idcache
      ensures links == BlockLinks(old(links), b, fc[b])
      ensures fresh(objs - old(objs)) && old(idcache.Keys) <= idcache.Keys
    {
      hide Valid, MadeFrom, SuccLinks, PredLinks;
      var bb := Obtain(fc, b);
      AddSuccessors(fc, bb, fc[b].succs);
      AddPredecessors(fc, bb, fc[b].preds);
    }

    /** FromFlowchart without the cache: every block of the flowchart, with all its links. */
    method FromFlowchart(fc: seq<FlowBlock>)
      requires Valid() && idcache == map[] && links == [] && objs == {} && WellFormed(fc)
      modifies this
      ensures Valid() && MadeFrom(fc) && links == AllLinks(fc, |fc|)
      ensures forall b: nat :: b in idcache <==> b < |fc|
    {
      hide Valid, WellFormed, BlockLinks;
      for b := 0 to |fc|
        invariant Valid() && MadeFrom(fc) && links == AllLinks(fc, b) && fresh(objs)
        invariant forall x: nat :: x < b ==> x in idcache.Keys
      {
        AddBlock(fc, b);
      }
    }

    /** Successors and predecessors mirror each other, with multiplicities. */
    lemma Mirrored(u: nat, v: nat)
      requires Valid() && u in idcache && v in idcache
      ensures multiset(idcache[u].succs)[v] == multiset(idcache[v].preds)[u] == multiset(links)[(u, v)]
      ensures v in idcache[u].succs <==> u in idcache[v].preds
    {
      LinksCounted(links, u, v);
      assert v in idcache[u].succs <==> multiset(idcache[u].succs)[v] > 0;
      assert u in idcache[v].preds <==> multiset(idcache[v].preds)[u] > 0;
    }
  }

  lemma OneMore<T>(s: seq<T>, x: T, y: T)
    ensures multiset(s + [x])[y] == multiset(s)[y] + if x == y then 1 else 0
  {
  }

  // ----- the order of the lists -----------------------------------------------

  function Repeat(x: nat, n: nat): (s: seq<nat>)
    ensures |s| == n && forall i :: 0 <= i < n ==> s[i] == x
  {
    if n == 0 then [] else Repeat(x, n - 1) + [x]
  }

  /** One more link. */
  lemma LinkAdded(links: Links, u: nat, v: nat, n: nat)
    ensures SuccsOf(links + [(u, v)], n) == SuccsOf(links, n) + if u == n then [v] else []
    ensures PredsOf(links + [(u, v)], n) == PredsOf(links, n) + if v == n then [u] else []
  {
    assert (links + [(u, v)])[..|links|] == links;
  }

  /** One more entry of a list, seen by the neighbour n. */
  lemma EntryAdded(s: seq<nat>, i: nat, b: nat, n: nat, before: seq<nat>, mine: seq<nat>)
    requires 0 < i <= |s|
    ensures before + Repeat(b, multiset(s[..i - 1])[n]) + (if s[i - 1] == n then [b] else []) ==
            before + Repeat(b, multiset(s[..i])[n])
    ensures mine + s[..i - 1] + [s[i - 1]] == mine + s[..i]
  {
    assert s[..i] == s[..i - 1] + [s[i - 1]];
    OneMore(s[..i - 1], s[i - 1], n);
  }

  /** What block b asks for: its own successors, and itself as often as it names u as a predecessor. */
  ghost function AskedBy(fc: seq<FlowBlock>, u: nat, b: nat): seq<nat>
    requires b < |fc|
  {
    (if b == u then fc[b].succs else []) + Repeat(b, multiset(fc[b].preds)[u])
  }

  /** The successors of block u: what the first k blocks ask for, in turn. */
  ghost function SuccsAsked(fc: seq<FlowBlock>, u: nat, k: nat): seq<nat>
    requires k <= |fc|
  {
    if k == 0 then [] else SuccsAsked(fc, u, k - 1) + AskedBy(fc, u, k - 1)
  }

  /** The predecessors of block v likewise. */
  ghost function PredsAsked(fc: seq<FlowBlock>, v: nat, k: nat): seq<nat>
    requires k <= |fc|
  {
    if k == 0 then [] else
      PredsAsked(fc, v, k - 1) +
      (Repeat(k - 1, multiset(fc[k - 1].succs)[v]) + if k - 1 == v then fc[v].preds else [])
  }

  lemma {:induction false} LinksOfSuccs(links: Links, b: nat, succs: seq<nat>, i: nat, n: nat)
    requires i <= |succs|
    ensures SuccsOf(SuccLinks(links, b, succs, i), n) == SuccsOf(links, n) + if b == n then succs[..i] else []
    ensures PredsOf(SuccLinks(links, b, succs, i), n) ==
            PredsOf(links, n) + Repeat(b, multiset(succs[..i])[n])
  {
    hide SuccsOf, PredsOf, Repeat;
    if i > 0 {
      LinksOfSuccs(links, b, succs, i - 1, n);
      LinkAdded(SuccLinks(links, b, succs, i - 1), b, succs[i - 1], n);
      EntryAdded(succs, i, b, n, PredsOf(links, n), SuccsOf(links, n));
    } else {
      NoEntries(b, succs, n);
    }
  }

  lemma NoEntries(b: nat, s: seq<nat>, n: nat)
    ensures Repeat(b, multiset(s[..0])[n]) == []
  {
  }

  lemma {:induction false} LinksOfPreds(links: Links, b: nat, preds: seq<nat>, i: nat, n: nat)
    requires i <= |preds|
    ensures PredsOf(PredLinks(links, b, preds, i), n) == PredsOf(links, n) + if b == n then preds[..i] else []
    ensures SuccsOf(PredLinks(links, b, preds, i), n) ==
            SuccsOf(links, n) + Repeat(b, multiset(preds[..i])[n])
  {
    hide SuccsOf, PredsOf, Repeat;
    if i > 0 {
      LinksOfPreds(links, b, preds, i - 1, n);
      LinkAdded(PredLinks(links, b, preds, i - 1), preds[i - 1], b, n);
      EntryAdded(preds, i, b, n, SuccsOf(links, n), PredsOf(links, n));
    } else {
      NoEntries(b, preds, n);
    }
  }

  /** The lists of a block hold what the blocks ask for, in turn. */
  lemma {:induction false} AskedInTurn(fc: seq<FlowBlock>, k: nat, n: nat)
    requires k <= |fc|
    ensures SuccsOf(AllLinks(fc, k), n) == SuccsAsked(fc, n, k)
    ensures PredsOf(AllLinks(fc, k), n) == PredsAsked(fc, n, k)
  {
    hide SuccLinks, PredLinks, SuccsOf, PredsOf, Repeat, SuccsAsked, PredsAsked;
    if k == 0 {
      NothingAsked(fc, n);
    } else {
      var b, before := k - 1, AllLinks(fc, k - 1);
      var succs, preds := fc[b].succs, fc[b].preds;
      AskedInTurn(fc, b, n);
      LinksOfSuccs(before, b, succs, |succs|, n);
      LinksOfPreds(SuccLinks(before, b, succs, |succs|), b, preds, |preds|, n);
      assert succs[..|succs|] == succs && preds[..|preds|] == preds;
      AskedNext(fc, b, n);
    }
  }

  lemma AskedNext(fc: seq<FlowBlock>, b: nat, n: nat)
    requires b < |fc|
    ensures SuccsAsked(fc, n, b) + (if b == n then fc[b].succs else []) + Repeat(b, multiset(fc[b].preds)[n]) ==
            SuccsAsked(fc, n, b + 1)
    ensures PredsAsked(fc, n, b) + Repeat(b, multiset(fc[b].succs)[n]) + (if b == n then fc[b].preds else []) ==
            PredsAsked(fc, n, b + 1)
  {
    hide Repeat;
    ConcatAssoc(SuccsAsked(fc, n, b), if b == n then fc[b].succs else [], Repeat(b, multiset(fc[b].preds)[n]));
    ConcatAssoc(PredsAsked(fc, n, b), Repeat(b, multiset(fc[b].succs)[n]), if b == n then fc[b].preds else []);
  }

  lemma NothingAsked(fc: seq<FlowBlock>, n: nat)
    ensures SuccsAsked(fc, n, 0) == PredsAsked(fc, n, 0) == []
    ensures SuccsOf([], n) == PredsOf([], n) == []
  {
  }

  lemma {:induction false} RepeatCount(x: nat, n: nat, y: nat)
    ensures Times(Repeat(x, n), y) == if x == y then n else 0
  {
    if n > 0 {
      RepeatCount(x, n - 1, y);
    }
  }

  ghost function Times(s: seq<nat>, v: nat): nat {
    multiset(s)[v]
  }

  lemma TimesConcat(s: seq<nat>, t: seq<nat>, v: nat)
    ensures Times(s + t, v) == Times(s, v) + Times(t, v) && Times([], v) == 0
  {
  }

  lemma {:induction false} AskedCount(fc: seq<FlowBlock>, k: nat, u: nat, v: nat)
    requires k <= |fc|
    ensures Times(SuccsAsked(fc, u, k), v) ==
            (if u < k then Times(fc[u].succs, v) else 0) + (if v < k then Times(fc[v].preds, u) else 0)
  {
    hide Times;
    TimesConcat([], [], v);
    if k > 0 {
      hide SuccsAsked;
      AskedCount(fc, k - 1, u, v);
      AskedMore(fc, k, u, v);
    }
  }

  lemma AskedMore(fc: seq<FlowBlock>, k: nat, u: nat, v: nat)
    requires 0 < k <= |fc|
    ensures Times(SuccsAsked(fc, u, k), v) ==
            Times(SuccsAsked(fc, u, k - 1), v) + (if k - 1 == u then Times(fc[u].succs, v) else 0) +
            (if k - 1 == v then Times(fc[v].preds, u) else 0)
  {
    hide Times, AskedBy;
    TimesConcat(SuccsAsked(fc, u, k - 1), AskedBy(fc, u, k - 1), v);
    AskedByTimes(fc, u, k - 1, v);
  }

  lemma AskedByTimes(fc: seq<FlowBlock>, u: nat, b: nat, v: nat)
    requires b < |fc|
    ensures Times(AskedBy(fc, u, b), v) ==
            (if b == u then Times(fc[b].succs, v) else 0) + (if b == v then Times(fc[b].preds, u) else 0)
  {
    var n := multiset(fc[b].preds)[u];
    assert n == Times(fc[b].preds, u);
    hide Repeat, Times;
    RepeatCount(b, n, v);
    TimesConcat(if b == u then fc[b].succs else [], Repeat(b, n), v);
  }

  /** Block u asks for a link to v as a successor, or v for one from u as a predecessor. */
  lemma {:induction false} LinkCount(fc: seq<FlowBlock>, k: nat, u: nat, v: nat)
    requires k <= |fc|
    ensures multiset(AllLinks(fc, k))[(u, v)] ==
            (if u < k then multiset(fc[u].succs)[v] else 0) + (if v < k then multiset(fc[v].preds)[u] else 0)
  {
    AskedInTurn(fc, k, u);
    LinksCounted(AllLinks(fc, k), u, v);
    AskedCount(fc, k, u, v);
  }
}

/**
  Which partner a node gets, said of the paths themselves: the hashes are preferred in a
  fixed order, earlier successors to later ones, and a node passed over is not come back to.
 */
module Choices {
  import opened MatchGraph
  import opened Lockstep

  /** How well m agrees with l: by itype1, by itype2, by frequency, or not at all. */
  function Rank(env: Env, l: nat, m: nat): nat
    requires l < |env.g| && m < |env.g|
  {
    if env.g[l].itype1 == env.g[m].itype1 then 0
    else if env.g[l].itype2 == env.g[m].itype2 then 1
    else if env.freqMatch(l, m) then 2
    else 3
  }

  /** The hash recorded for l when it is matched with m. */
  function TagFor(env: Env, l: nat, m: nat): Label
    requires l < |env.g| && m < |env.g|
  {
    if env.g[l].itype1 == env.g[m].itype1 then env.g[l].itype1
    else if env.g[l].itype2 == env.g[m].itype2 then env.g[l].itype2
    else env.freqHash(l, m)
  }

  /** a stands in the list before m first does. */
  ghost predicate Before(ms: seq<nat>, a: nat, m: nat) {
    exists i :: 0 <= i < |ms| && ms[i] == a && m !in ms[..i + 1]
  }

  /** Of the successors ms, a is to be preferred to m as the partner of l. */
  ghost predicate Better(env: Env, ms: seq<nat>, l: nat, a: nat, m: nat)
    requires l < |env.g| && a < |env.g| && m < |env.g|
  {
    Rank(env, l, a) < Rank(env, l, m) || (Rank(env, l, a) == Rank(env, l, m) && Before(ms, a, m))
  }

  /** m is what l is to be matched with below y: eligible, agreeing, and none is better. */
  ghost predicate IsBest(env: Env, s: Search, y: nat, l: nat, m: nat, tag: Label)
    requires l < |env.g| && y < |env.g|
  {
    && Eligible(env, s, y, l, m) && m < |env.g|
    && Rank(env, l, m) < 3 && tag == TagFor(env, l, m)
    && forall a: nat :: a < |env.g| && Eligible(env, s, y, l, a) ==> !Better(env, env.g[y].succs, l, a, m)
  }

  /** Nothing eligible agrees, and everything that could be looked at has been. */
  ghost predicate NoneFits(env: Env, s: Search, y: nat, l: nat, tried: set<nat>)
    requires l < |env.g| && y < |env.g|
  {
    && (forall a: nat :: a < |env.g| && Eligible(env, s, y, l, a) ==> Rank(env, l, a) == 3)
    && forall a :: Edge(env.g, y, a) ==> a in s.visited2 || a == y || a in s.path2 || a in tried
  }

  // ----- on finished paths ----------------------------------------------------

  /**
    p2[k] was taken at place j, and of what was first reached there and left off p2 nothing
    would have been better.
   */
  ghost predicate BestAt(env: Env, p1: seq<nat>, p2: seq<nat>, k: nat, j: nat) {
    && Linked(env.g, p1, p2, k, j)
    && p1[k] < |env.g| && p2[k] < |env.g| && p2[j] < |env.g| && Rank(env, p1[k], p2[k]) < 3
    && forall a: nat :: a < |env.g| && FirstReached(env.g, p2, j, a) && a !in p2 && a != p1[k] ==>
         !Better(env, env.g[p2[j]].succs, p1[k], a, p2[k])
  }

  ghost predicate ChosenBy(
    env: Env, p1: seq<nat>, p2: seq<nat>, hashes: map<nat, Label>, k: nat, i: nat)
  {
    exists j: nat :: j <= i && BestWith(env, p1, p2, hashes, k, j)
  }

  /** The same, with the hash recorded. */
  ghost predicate BestWith(
    env: Env, p1: seq<nat>, p2: seq<nat>, hashes: map<nat, Label>, k: nat, j: nat)
  {
    BestAt(env, p1, p2, k, j) && p1[k] in hashes && hashes[p1[k]] == TagFor(env, p1[k], p2[k])
  }

  /** l was tried at place i and found no partner. */
  ghost predicate Vain(g: Graph, p1: seq<nat>, i: nat, l: nat) {
    FirstReached(g, p1, i, l) && l !in p1
  }

  ghost predicate LinkedBy(g: Graph, p1: seq<nat>, p2: seq<nat>, k: nat, i: nat) {
    exists j: nat :: j <= i && Linked(g, p1, p2, k, j)
  }

  /** What was looked at in vain at place i is not taken at a later place. */
  ghost predicate Settled(g: Graph, p1: seq<nat>, p2: seq<nat>) {
    forall k: nat, i: nat, l: nat ::
      0 < k < |p2| && i < |p2| && Vain(g, p1, i, l) && Edge(g, p2[i], p2[k]) ==> LinkedBy(g, p1, p2, k, i)
  }

  /** Every pair of the paths was the best choice when it was made. */
  ghost predicate WellChosen(env: Env, p1: seq<nat>, p2: seq<nat>, hashes: map<nat, Label>) {
    && (forall k: nat :: 0 < k < |p1| ==> ChosenBy(env, p1, p2, hashes, k, |p1|))
    && Settled(env.g, p1, p2)
  }

  // ----- during the search ----------------------------------------------------

  ghost predicate Seen(g: Graph, p2: seq<nat>, i: nat, marked: set<nat>) {
    forall a :: i < |p2| && Edge(g, p2[i], a) ==> a in marked || a in p2
  }

  /** The same inside pair i, with what the marks have to say about later choices. */
  ghost predicate Choosing(env: Env, s: Search, i: nat, done: seq<nat>) {
    && (forall k: nat :: 0 < k < |s.path1| ==> ChosenBy(env, s.path1, s.path2, s.hashes, k, i))
    && Settled(env.g, s.path1, s.path2)
    && (forall j: nat, l: nat :: j < i && Vain(env.g, s.path1, j, l) ==> Seen(env.g, s.path2, j, s.visited2))
    && (forall l: nat :: l in done && Vain(env.g, s.path1, i, l) ==>
          Seen(env.g, s.path2, i, s.visited2 + s.tmp2))
  }

  lemma ChoosingStart(env: Env, s: Search)
    requires |s.path1| == |s.path2| == 1
    ensures Choosing(env, s, 0, [])
  {
  }

  lemma ChoosingSkip(env: Env, s: Search, i: nat, done: seq<nat>, l: nat)
    requires Choosing(env, s, i, done) && Midway(env, s, i, done) && (l in s.visited1 || l in s.path1)
    ensures Choosing(env, s, i, done + [l])
  {
    hide Seen, ChosenBy, Settled, Reached, Tried;
  }

  lemma SeenMore(g: Graph, p: seq<nat>, q: seq<nat>, i: nat, marked: set<nat>, marked': set<nat>)
    requires p <= q && i < |p| && Seen(g, p, i, marked) && marked <= marked'
    ensures Seen(g, q, i, marked')
  {
  }

  lemma ChoosingVain(env: Env, s: Search, tried: set<nat>, i: nat, done: seq<nat>, l: nat)
    requires Choosing(env, s, i, done) && l < |env.g| && i < |s.path1| == |s.path2| && s.path2[i] < |env.g|
    requires NoneFits(env, s, s.path2[i], l, tried)
    ensures Choosing(env, s.(visited1 := s.visited1 + {l}, tmp2 := s.tmp2 + tried), i, done + [l])
  {
    hide ChosenBy, Settled, Vain, Edge;
    var marked, marked' := s.visited2 + s.tmp2, s.visited2 + (s.tmp2 + tried);
    assert Seen(env.g, s.path2, i, marked');
  }

  lemma VainMore(g: Graph, p: seq<nat>, q: seq<nat>, i: nat, l: nat)
    requires p <= q && i < |p| && Vain(g, q, i, l)
    ensures Vain(g, p, i, l)
  {
    hide FirstReached;
    ReachedMore(g, p, q, i, l);
  }

  lemma BestMore(env: Env, p1: seq<nat>, p2: seq<nat>, q1: seq<nat>, q2: seq<nat>, k: nat, j: nat)
    requires p1 <= q1 && p2 <= q2 && BestAt(env, p1, p2, k, j)
    ensures BestAt(env, q1, q2, k, j)
  {
    hide FirstReached, Better, Rank;
    forall a: nat | a < |env.g| && FirstReached(env.g, q2, j, a) && a !in q2 && a != q1[k]
      ensures !Better(env, env.g[q2[j]].succs, q1[k], a, q2[k])
    {
      ReachedMore(env.g, p2, q2, j, a);
    }
  }

  /** The pair just taken is the best choice at its place. */
  lemma NewBest(env: Env, s: Search, i: nat, done: seq<nat>, l: nat, m: nat, tag: Label)
    requires Marks(env, s, i, done) && i < |s.path1| == |s.path2| && l < |env.g| && s.path2[i] < |env.g|
    requires Edge(env.g, s.path1[i], l) && IsBest(env, s, s.path2[i], l, m, tag)
    ensures BestAt(env, s.path1 + [l], s.path2 + [m], |s.path1|, i)
  {
    hide Reached, Better, Rank;
    var q1, q2, n := s.path1 + [l], s.path2 + [m], |s.path1|;
    assert Linked(env.g, q1, q2, n, i);
    forall a: nat | a < |env.g| && FirstReached(env.g, q2, i, a) && a !in q2 && a != l
      ensures !Better(env, env.g[q2[i]].succs, l, a, m)
    {
      ReachedMore(env.g, s.path2, q2, i, a);
      assert Eligible(env, s, s.path2[i], l, a);
    }
  }

  lemma ChosenMore(env: Env, s: Search, s': Search, i: nat, k: nat)
    requires s.path1 <= s'.path1 && s.path2 <= s'.path2 && ChosenBy(env, s.path1, s.path2, s.hashes, k, i)
    requires s.path1[k] in s'.hashes && s'.hashes[s.path1[k]] == s.hashes[s.path1[k]]
    ensures ChosenBy(env, s'.path1, s'.path2, s'.hashes, k, i)
  {
    hide TagFor, FirstReached, Better, Rank;
    var j: nat :| j <= i && BestWith(env, s.path1, s.path2, s.hashes, k, j);
    BestMore(env, s.path1, s.path2, s'.path1, s'.path2, k, j);
    assert BestWith(env, s'.path1, s'.path2, s'.hashes, k, j);
  }

  lemma LinkedByMore(g: Graph, p1: seq<nat>, p2: seq<nat>, q1: seq<nat>, q2: seq<nat>, k: nat, i: nat)
    requires p1 <= q1 && p2 <= q2 && LinkedBy(g, p1, p2, k, i)
    ensures LinkedBy(g, q1, q2, k, i)
  {
    hide Edge;
    var j: nat :| j <= i && Linked(g, p1, p2, k, j);
    assert Linked(g, q1, q2, k, j);
  }

  lemma ChosenLinked(env: Env, p1: seq<nat>, p2: seq<nat>, hashes: map<nat, Label>, k: nat, i: nat)
    requires ChosenBy(env, p1, p2, hashes, k, i)
    ensures LinkedBy(env.g, p1, p2, k, i)
  {
    hide Rank, TagFor, Better, FirstReached, Linked;
    var j: nat :| j <= i && BestWith(env, p1, p2, hashes, k, j);
  }

  lemma LinkedLater(g: Graph, p1: seq<nat>, p2: seq<nat>, k: nat, i: nat, i': nat)
    requires LinkedBy(g, p1, p2, k, i) && i <= i'
    ensures LinkedBy(g, p1, p2, k, i')
  {
    hide Linked;
  }

  /** A node that is eligible now was not looked at in vain before. */
  lemma SettledMore(env: Env, s: Search, s': Search, i: nat, done: seq<nat>, m: nat)
    requires Choosing(env, s, i, done) && i < |s.path1| == |s.path2|
    requires s.path1 <= s'.path1 && s'.path2 == s.path2 + [m] && |s'.path1| == |s'.path2|
    requires m !in s.visited2 && m !in s.path2
    requires forall k: nat :: 0 < k < |s'.path1| ==> ChosenBy(env, s'.path1, s'.path2, s'.hashes, k, i)
    ensures Settled(env.g, s'.path1, s'.path2)
  {
    hide ChosenBy, Edge, Vain;
    var g, p1, p2, q1, q2 := env.g, s.path1, s.path2, s'.path1, s'.path2;
    forall k: nat, j: nat, l: nat | 0 < k < |q2| && j < |q2| && Vain(g, q1, j, l) && Edge(g, q2[j], q2[k])
      ensures LinkedBy(g, q1, q2, k, j)
    {
      if j < i {
        VainMore(g, p1, q1, j, l);
        assert Seen(g, p2, j, s.visited2);
        assert k < |p2|;
        LinkedByMore(g, p1, p2, q1, q2, k, j);
      } else {
        ChosenLinked(env, q1, q2, s'.hashes, k, i);
        LinkedLater(g, q1, q2, k, i, j);
      }
    }
  }

  lemma ChoosingTake(
    env: Env, s: Search, s': Search, tried: set<nat>, i: nat, done: seq<nat>, l: nat, m: nat, tag: Label)
    requires Choosing(env, s, i, done) && Midway(env, s, i, done)
    requires i < |s.path1| == |s.path2| && l < |env.g| && s.path2[i] < |env.g|
    requires Edge(env.g, s.path1[i], l) && l !in s.path1 && IsBest(env, s, s.path2[i], l, m, tag)
    requires forall n :: n in s.hashes <==> n in s.path1
    requires s'.path1 == s.path1 + [l] && s'.path2 == s.path2 + [m] && s'.hashes == s.hashes[l := tag]
    requires s'.visited2 == s.visited2 + {m} && s'.tmp2 == s.tmp2 + tried
    ensures Choosing(env, s', i, done + [l])
  {
    hide BestAt, Marks, Tried, Settled, Vain, Edge, Rank, Better;
    NewBest(env, s, i, done, l, m, tag);
    assert BestWith(env, s'.path1, s'.path2, s'.hashes, |s.path1|, i);
    forall k: nat | 0 < k < |s'.path1|
      ensures ChosenBy(env, s'.path1, s'.path2, s'.hashes, k, i)
    {
      if k < |s.path1| {
        assert s.path1[k] in s.hashes && s.path1[k] != l;
        ChosenMore(env, s, s', i, k);
      }
    }
    SettledMore(env, s, s', i, done, m);
    hide ChosenBy;
    SeenAfterTake(env, s, s', i, done, l);
  }

  lemma SeenAfterTake(env: Env, s: Search, s': Search, i: nat, done: seq<nat>, l: nat)
    requires Choosing(env, s, i, done) && i < |s.path1| == |s.path2| && l in s'.path1
    requires s.path1 <= s'.path1 && s.path2 <= s'.path2
    requires s.visited2 <= s'.visited2 && s.tmp2 <= s'.tmp2
    ensures forall j: nat, n: nat :: j < i && Vain(env.g, s'.path1, j, n) ==>
              Seen(env.g, s'.path2, j, s'.visited2)
    ensures forall n: nat :: n in done + [l] && Vain(env.g, s'.path1, i, n) ==>
              Seen(env.g, s'.path2, i, s'.visited2 + s'.tmp2)
  {
    hide ChosenBy, Settled, Seen;
    forall j: nat, n: nat | j < i && Vain(env.g, s'.path1, j, n)
      ensures Seen(env.g, s'.path2, j, s'.visited2)
    {
      VainMore(env.g, s.path1, s'.path1, j, n);
      SeenMore(env.g, s.path2, s'.path2, j, s.visited2, s'.visited2);
    }
    forall n: nat | n in done + [l] && Vain(env.g, s'.path1, i, n)
      ensures Seen(env.g, s'.path2, i, s'.visited2 + s'.tmp2)
    {
      assert n in done;
      VainMore(env.g, s.path1, s'.path1, i, n);
      SeenMore(env.g, s.path2, s'.path2, i, s.visited2 + s.tmp2, s'.visited2 + s'.tmp2);
    }
  }

  /** With all successors tried, the marks are merged and the next pair can begin. */
  lemma ChoosingNext(env: Env, s: Search, i: nat, done: seq<nat>)
    requires Choosing(env, s, i, done) && i < |s.path1| == |s.path2|
    requires forall n :: Edge(env.g, s.path1[i], n) ==> n in done
    ensures Choosing(env, s.(visited2 := s.visited2 + s.tmp2, tmp2 := {}), i + 1, [])
  {
    hide ChosenBy, Settled, Seen, Reached;
    AllLater(env, s.path1, s.path2, s.hashes, i, i + 1);
    var s' := s.(visited2 := s.visited2 + s.tmp2, tmp2 := {});
    forall j: nat, l: nat | j < i + 1 && Vain(env.g, s.path1, j, l)
      ensures Seen(env.g, s.path2, j, s'.visited2)
    {
      if j < i {
        SeenMore(env.g, s.path2, s.path2, j, s.visited2, s'.visited2);
      }
    }
  }

  lemma ChoosingPairEnd(env: Env, s: Search, i: nat, done: seq<nat>)
    requires Choosing(env, s, i, done) && Midway(env, s, i, done)
    requires s.path1[i] < |env.g| && done == env.g[s.path1[i]].succs
    ensures Choosing(env, s.(visited2 := s.visited2 + s.tmp2, tmp2 := {}), i + 1, [])
  {
    hide Choosing, Marks, Tried;
    ChoosingNext(env, s, i, done);
  }

  lemma ChoosingSame(env: Env, s: Search, s': Search, i: nat, done: seq<nat>)
    requires Choosing(env, s, i, done) && s'.path1 == s.path1 && s'.path2 == s.path2
    requires s'.hashes == s.hashes && s'.visited2 == s.visited2 && s'.tmp2 == s.tmp2
    ensures Choosing(env, s', i, done)
  {
  }

  /** At the end of the search. */
  lemma ChoosingEnd(env: Env, s: Search, i: nat)
    requires Choosing(env, s, i, []) && i <= |s.path1|
    ensures WellChosen(env, s.path1, s.path2, s.hashes)
  {
    hide ChosenBy, Settled, Seen, Vain;
    AllLater(env, s.path1, s.path2, s.hashes, i, |s.path1|);
  }

  lemma AllLater(env: Env, p1: seq<nat>, p2: seq<nat>, hashes: map<nat, Label>, i: nat, i': nat)
    requires i <= i' && forall k: nat :: 0 < k < |p1| ==> ChosenBy(env, p1, p2, hashes, k, i)
    ensures forall k: nat :: 0 < k < |p1| ==> ChosenBy(env, p1, p2, hashes, k, i')
  {
    hide BestWith;
    forall k: nat | 0 < k < |p1|
      ensures ChosenBy(env, p1, p2, hashes, k, i')
    {
      assert ChosenBy(env, p1, p2, hashes, k, i);
    }
  }

  /** The hash recorded for a node is that of the first kind under which its pair agrees. */
  lemma TagsInOrder(env: Env, p1: seq<nat>, p2: seq<nat>, hashes: map<nat, Label>, k: nat)
    requires WellChosen(env, p1, p2, hashes) && 0 < k < |p1| && k < |p2|
    ensures p1[k] < |env.g| && p2[k] < |env.g| && p1[k] in hashes
    ensures var a, b := env.g[p1[k]], env.g[p2[k]];
            hashes[p1[k]] == if a.itype1 == b.itype1 then a.itype1
                             else if a.itype2 == b.itype2 then a.itype2
                             else env.freqHash(p1[k], p2[k])
  {
    hide Settled, FirstReached, Better;
    assert ChosenBy(env, p1, p2, hashes, k, |p1|);
    var j: nat :| j <= |p1| && BestWith(env, p1, p2, hashes, k, j);
  }
}

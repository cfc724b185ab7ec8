/**
  The lockstep breadth-first search of bbgroup/bb_match.py: two paths of one graph grown
  side by side, a pair of nodes being added when some hash of the two agrees.
 */
module Lockstep {
  import opened Seqs
  import opened MatchGraph

  datatype HashType = Itype1 | Itype2 | Freq

  /** The graph and the frequency comparison, which is taken as given. */
  datatype Env = Env(g: Graph, freqMatch: (nat, nat) -> bool, freqHash: (nat, nat) -> Label)

  ghost predicate Edge(g: Graph, u: nat, v: nat) {
    u < |g| && v in g[u].succs
  }

  /** The two nodes agree under hash h. */
  predicate Same(env: Env, h: HashType, l: nat, m: nat)
    requires l < |env.g| && m < |env.g|
  {
    match h
    case Itype1 => env.g[l].itype1 == env.g[m].itype1
    case Itype2 => env.g[l].itype2 == env.g[m].itype2
    case Freq => env.freqMatch(l, m)
  }

  /** The hash recorded for l once it agrees with m under h. */
  function TagOf(env: Env, h: HashType, l: nat, m: nat): Label
    requires l < |env.g|
  {
    match h
    case Itype1 => env.g[l].itype1
    case Itype2 => env.g[l].itype2
    case Freq => env.freqHash(l, m)
  }

  /** The pair agrees under the given hash, and `tag` is the hash agreed on. */
  ghost predicate AgreesBy(env: Env, h: HashType, l: nat, m: nat, tag: Label)
    requires l < |env.g| && m < |env.g|
  {
    Same(env, h, l, m) && tag == TagOf(env, h, l, m)
  }

  ghost predicate Agrees(env: Env, l: nat, m: nat, tag: Label)
    requires l < |env.g| && m < |env.g|
  {
    exists h :: AgreesBy(env, h, l, m, tag)
  }

  ghost predicate Linked(g: Graph, p1: seq<nat>, p2: seq<nat>, k: nat, j: nat) {
    j < k && k < |p1| && k < |p2| && Edge(g, p1[j], p1[k]) && Edge(g, p2[j], p2[k])
  }

  /** What was asked of the pair at place k > 0 before it was added. */
  ghost predicate Justified(env: Env, p1: seq<nat>, p2: seq<nat>, hashes: map<nat, Label>, k: nat)
    requires k < |p1| && |p1| == |p2| && InGraph(env.g, p1) && InGraph(env.g, p2)
  {
    && p1[k] != p2[k] && p1[k] in hashes
    && Agrees(env, p1[k], p2[k], hashes[p1[k]])
    && exists j: nat :: Linked(env.g, p1, p2, k, j)
  }

  /** Two paths in step: no repeats, equal lengths, every later pair justified. */
  ghost predicate InStep(env: Env, p1: seq<nat>, p2: seq<nat>, hashes: map<nat, Label>) {
    && |p1| == |p2| >= 1 && NoRepeats(p1) && NoRepeats(p2)
    && InGraph(env.g, p1) && InGraph(env.g, p2)
    && (forall n :: n in hashes <==> n in p1)
    && (forall k :: 0 < k < |p1| ==> Justified(env, p1, p2, hashes, k))
  }

  lemma InStepStart(env: Env, a: nat, b: nat, tag: Label)
    requires a < |env.g| && b < |env.g|
    ensures InStep(env, [a], [b], map[a := tag])
  {
  }

  lemma InStepMore(
    env: Env, p1: seq<nat>, p2: seq<nat>, hashes: map<nat, Label>,
    j: nat, l: nat, m: nat, tag: Label)
    requires InStep(env, p1, p2, hashes) && j < |p1|
    requires Edge(env.g, p1[j], l) && Edge(env.g, p2[j], m) && l < |env.g| && m < |env.g|
    requires l !in p1 && m !in p2 && l != m && Agrees(env, l, m, tag)
    ensures InStep(env, p1 + [l], p2 + [m], hashes[l := tag])
  {
    NoRepeatsSnoc(p1, l);
    NoRepeatsSnoc(p2, m);
    var q1, q2, hs, n := p1 + [l], p2 + [m], hashes[l := tag], |p1|;
    forall k | 0 < k < |q1|
      ensures Justified(env, q1, q2, hs, k)
    {
      if k < n {
        assert Justified(env, p1, p2, hashes, k);
        var i: nat :| Linked(env.g, p1, p2, k, i);
        assert Linked(env.g, q1, q2, k, i);
      } else {
        assert Linked(env.g, q1, q2, k, j);
      }
    }
  }

  // ----- what the search leaves undone ----------------------------------------

  ghost predicate Reached(g: Graph, p: seq<nat>, i: nat, n: nat) {
    exists j :: 0 <= j < i && j < |p| && Edge(g, p[j], n)
  }

  /** n is a successor of the node at place i, and of none before it. */
  ghost predicate FirstReached(g: Graph, p: seq<nat>, i: nat, n: nat) {
    i < |p| && Edge(g, p[i], n) && !Reached(g, p, i, n)
  }

  ghost predicate HasSuccs(g: Graph, p: seq<nat>, i: nat) {
    i < |p| && p[i] < |g| && g[p[i]].succs != []
  }

  /**
    The node at place i of p2 has successors, and none of them that is first reached there
    and left off p2 agrees with l.
   */
  ghost predicate NoPartner(env: Env, p2: seq<nat>, i: nat, l: nat)
    requires l < |env.g|
  {
    && HasSuccs(env.g, p2, i)
    && forall m: nat, tag ::
         m < |env.g| && FirstReached(env.g, p2, i, m) && m !in p2 && m != l ==> !Agrees(env, l, m, tag)
  }

  /** Of two nodes first reached at place i and left off both paths, no two agree. */
  ghost predicate Exhausted(env: Env, p1: seq<nat>, p2: seq<nat>, i: nat) {
    forall l: nat :: l < |env.g| && FirstReached(env.g, p1, i, l) && l !in p1 ==> NoPartner(env, p2, i, l)
  }

  /**
    Where the search fails: l is first reached at place i and was not matched before, but
    the node at place i of p2 has no successor to try it with.
   */
  ghost predicate DeadEnd(env: Env, p1: seq<nat>, p2: seq<nat>, i: nat, l: nat) {
    && i < |p2| && p2[i] < |env.g| && env.g[p2[i]].succs == []
    && FirstReached(env.g, p1, i, l) && l !in p1
  }

  ghost predicate SomeDeadEnd(env: Env, p1: seq<nat>, p2: seq<nat>) {
    exists i: nat, l: nat :: DeadEnd(env, p1, p2, i, l)
  }

  /** Exhausted paths have no dead end. */
  lemma NoDeadEnd(env: Env, p1: seq<nat>, p2: seq<nat>)
    requires WellFormed(env.g) && |p1| == |p2| && InGraph(env.g, p1)
    requires forall i :: 0 <= i < |p1| ==> Exhausted(env, p1, p2, i)
    ensures !SomeDeadEnd(env, p1, p2)
  {
    hide Reached;
    forall i: nat, l: nat
      ensures !DeadEnd(env, p1, p2, i, l)
    {
      assert i < |p1| ==> Exhausted(env, p1, p2, i);
      if i < |p1| && Edge(env.g, p1[i], l) {
        EdgeInGraph(env.g, p1[i], l);
      }
    }
  }

  lemma EdgeInGraph(g: Graph, u: nat, v: nat)
    requires WellFormed(g) && Edge(g, u, v)
    ensures v < |g|
  {
    var k :| 0 <= k < |g[u].succs| && g[u].succs[k] == v;
    assert InGraph(g, g[u].succs);
  }

  lemma ReachedMore(g: Graph, p: seq<nat>, q: seq<nat>, i: nat, n: nat)
    requires p <= q && i <= |p|
    ensures Reached(g, p, i, n) <==> Reached(g, q, i, n)
    ensures i < |p| ==> (FirstReached(g, p, i, n) <==> FirstReached(g, q, i, n))
  {
    if Reached(g, q, i, n) {
      var j :| 0 <= j < i && Edge(g, q[j], n);
      assert Edge(g, p[j], n);
    }
    if Reached(g, p, i, n) {
      var j :| 0 <= j < i && Edge(g, p[j], n);
      assert Edge(g, q[j], n);
    }
  }

  lemma NoPartnerMore(env: Env, p2: seq<nat>, q2: seq<nat>, i: nat, l: nat)
    requires l < |env.g| && p2 <= q2 && i < |p2| && NoPartner(env, p2, i, l)
    ensures NoPartner(env, q2, i, l)
  {
    hide Agrees, FirstReached;
    forall m: nat, tag | m < |env.g| && FirstReached(env.g, q2, i, m) && m !in q2 && m != l
      ensures !Agrees(env, l, m, tag)
    {
      ReachedMore(env.g, p2, q2, i, m);
    }
  }

  /** Longer paths stay exhausted where they were. */
  lemma ExhaustedMore(env: Env, p1: seq<nat>, p2: seq<nat>, q1: seq<nat>, q2: seq<nat>, i: nat)
    requires p1 <= q1 && p2 <= q2 && i < |p1| && i < |p2| && Exhausted(env, p1, p2, i)
    ensures Exhausted(env, q1, q2, i)
  {
    hide NoPartner, FirstReached;
    forall l: nat | l < |env.g| && FirstReached(env.g, q1, i, l) && l !in q1
      ensures NoPartner(env, q2, i, l)
    {
      ReachedMore(env.g, p1, q1, i, l);
      NoPartnerMore(env, p2, q2, i, l);
    }
  }

  /** The same for the first k successors of the node at place i only. */
  ghost predicate Tried(env: Env, p1: seq<nat>, p2: seq<nat>, i: nat, done: seq<nat>) {
    forall l: nat :: l in done && l < |env.g| && FirstReached(env.g, p1, i, l) && l !in p1 ==>
      NoPartner(env, p2, i, l)
  }

  /**
    The visited marks when the first successors `done` of place i have been tried: they
    are all explained by the paths and by what was tried.
   */
  ghost predicate Marks(env: Env, s: Search, i: nat, done: seq<nat>) {
    && (forall n :: n in s.visited1 ==> Reached(env.g, s.path1, i, n) || n in done)
    && (forall n :: Reached(env.g, s.path1, i, n) || n in done ==> n in s.visited1 || n in s.path1)
    && (forall m :: m in s.visited2 ==> m in s.path2 || Reached(env.g, s.path2, i, m))
    && (forall m :: m in s.tmp2 ==> i < |s.path2| && Edge(env.g, s.path2[i], m))
  }

  lemma MarksMore(env: Env, s: Search, s': Search, i: nat, done: seq<nat>, l: nat)
    requires Marks(env, s, i, done) && i < |s.path1| == |s.path2|
    requires s.path1 <= s'.path1 && s.path2 <= s'.path2 && |s'.path1| == |s'.path2|
    requires s.visited1 <= s'.visited1 <= s.visited1 + {l} && (l in s'.visited1 || l in s'.path1)
    requires forall m :: m in s'.visited2 ==> m in s.visited2 || m in s'.path2
    requires forall m :: m in s'.tmp2 ==> m in s.tmp2 || Edge(env.g, s.path2[i], m)
    ensures Marks(env, s', i, done + [l])
  {
    hide Reached, Edge;
    forall n
      ensures Reached(env.g, s.path1, i, n) <==> Reached(env.g, s'.path1, i, n)
      ensures Reached(env.g, s.path2, i, n) <==> Reached(env.g, s'.path2, i, n)
    {
      ReachedMore(env.g, s.path1, s'.path1, i, n);
      ReachedMore(env.g, s.path2, s'.path2, i, n);
    }
  }

  lemma TriedMore(
    env: Env, p1: seq<nat>, p2: seq<nat>, q1: seq<nat>, q2: seq<nat>, i: nat, done: seq<nat>, l: nat)
    requires p1 <= q1 && p2 <= q2 && i < |p1| && i < |p2| && Tried(env, p1, p2, i, done)
    requires l in q1 || l in done || (l < |env.g| && FirstReached(env.g, q1, i, l) ==> NoPartner(env, q2, i, l))
    ensures Tried(env, q1, q2, i, done + [l])
  {
    hide NoPartner, FirstReached;
    forall n: nat | n in done + [l] && n < |env.g| && FirstReached(env.g, q1, i, n) && n !in q1
      ensures NoPartner(env, q2, i, n)
    {
      ReachedMore(env.g, p1, q1, i, n);
      if n in done {
        NoPartnerMore(env, p2, q2, i, n);
      }
    }
  }

  /** A node tried in vain has no partner: whatever was first reached here was eligible. */
  lemma TriedInVain(env: Env, s: Search, i: nat, done: seq<nat>, l: nat)
    requires Marks(env, s, i, done) && HasSuccs(env.g, s.path2, i) && l < |env.g|
    requires forall m: nat, tag ::
               m < |env.g| && Eligible(env, s, s.path2[i], l, m) ==> !Agrees(env, l, m, tag)
    ensures NoPartner(env, s.path2, i, l)
  {
    hide Agrees, Reached;
    forall m: nat, tag | m < |env.g| && FirstReached(env.g, s.path2, i, m) && m !in s.path2 && m != l
      ensures !Agrees(env, l, m, tag)
    {
      assert Eligible(env, s, s.path2[i], l, m);
    }
  }

  /** With all successors tried, the marks made at this pair are explained by it. */
  lemma MarksNext(env: Env, s: Search, i: nat, done: seq<nat>)
    requires Marks(env, s, i, done) && i < |s.path1| == |s.path2|
    requires forall n :: n in done <==> Edge(env.g, s.path1[i], n)
    ensures Marks(env, s.(visited2 := s.visited2 + s.tmp2, tmp2 := {}), i + 1, [])
  {
    forall n
      ensures Reached(env.g, s.path1, i, n) || Edge(env.g, s.path1[i], n) <==> Reached(env.g, s.path1, i + 1, n)
      ensures Reached(env.g, s.path2, i, n) || Edge(env.g, s.path2[i], n) ==> Reached(env.g, s.path2, i + 1, n)
    {
    }
  }

  /** Marks and trials together: where the search stands inside a pair. */
  ghost predicate Midway(env: Env, s: Search, i: nat, done: seq<nat>) {
    && i < |s.path1| == |s.path2|
    && Marks(env, s, i, done) && Tried(env, s.path1, s.path2, i, done)
  }

  lemma SkipStep(env: Env, s: Search, i: nat, done: seq<nat>, l: nat)
    requires Midway(env, s, i, done) && (l in s.visited1 || l == s.path1[i] || l in s.path1)
    ensures Midway(env, s, i, done + [l])
  {
    MarksMore(env, s, s, i, done, l);
    TriedMore(env, s.path1, s.path2, s.path1, s.path2, i, done, l);
  }

  lemma VainStep(env: Env, s: Search, tmp2: set<nat>, i: nat, done: seq<nat>, l: nat)
    requires Midway(env, s, i, done) && l < |env.g| && HasSuccs(env.g, s.path2, i)
    requires forall m: nat, tag ::
               m < |env.g| && Eligible(env, s, s.path2[i], l, m) ==> !Agrees(env, l, m, tag)
    requires forall m :: m in tmp2 ==> m in s.tmp2 || Edge(env.g, s.path2[i], m)
    ensures Midway(env, s.(visited1 := s.visited1 + {l}, tmp2 := tmp2), i, done + [l])
  {
    hide Marks, Tried, Edge, Agrees, NoPartner, FirstReached, HasSuccs;
    TriedInVain(env, s, i, done, l);
    MarksMore(env, s, s.(visited1 := s.visited1 + {l}, tmp2 := tmp2), i, done, l);
    TriedMore(env, s.path1, s.path2, s.path1, s.path2, i, done, l);
  }

  lemma TakeStep(env: Env, s: Search, s': Search, i: nat, done: seq<nat>, l: nat, m: nat)
    requires Midway(env, s, i, done)
    requires s'.path1 == s.path1 + [l] && s'.path2 == s.path2 + [m]
    requires s'.visited1 == s.visited1 + {l} && s'.visited2 == s.visited2 + {m}
    requires forall n :: n in s'.tmp2 ==> n in s.tmp2 || Edge(env.g, s.path2[i], n)
    ensures Midway(env, s', i, done + [l])
  {
    hide Marks, Tried, Edge, NoPartner, FirstReached;
    MarksMore(env, s, s', i, done, l);
    TriedMore(env, s.path1, s.path2, s'.path1, s'.path2, i, done, l);
  }

  /** A node about to be tried has not been reached before. */
  lemma RaisedAt(env: Env, s: Search, i: nat, done: seq<nat>, l: nat)
    requires Midway(env, s, i, done) && s.path2[i] < |env.g| && env.g[s.path2[i]].succs == []
    requires Edge(env.g, s.path1[i], l) && l !in s.visited1 && l !in s.path1
    ensures SomeDeadEnd(env, s.path1, s.path2)
  {
    hide Reached, Edge;
    assert DeadEnd(env, s.path1, s.path2, i, l);
  }

  lemma MidwayStart(env: Env, s: Search, i: nat)
    requires i < |s.path1| == |s.path2| && Marks(env, s.(tmp2 := {}), i, [])
    ensures Midway(env, s.(tmp2 := {}), i, [])
  {
  }

  /** All successors tried: the pair is exhausted, and the next one can begin. */
  lemma MidwayEnd(env: Env, s: Search, i: nat, done: seq<nat>)
    requires Midway(env, s, i, done) && s.path1[i] < |env.g| && done == env.g[s.path1[i]].succs
    ensures Exhausted(env, s.path1, s.path2, i)
    ensures Marks(env, s.(visited2 := s.visited2 + s.tmp2, tmp2 := {}), i + 1, [])
  {
    hide Marks, NoPartner;
    MarksNext(env, s, i, done);
  }

  /** The local variables of one search. */
  datatype Search = Search(
    path1: seq<nat>, path2: seq<nat>, queue: seq<(nat, nat)>, hashes: map<nat, Label>,
    visited1: set<nat>, visited2: set<nat>, tmp2: set<nat>)

  /** The queue holds the pairs from place i on, in order. */
  ghost predicate QueueFrom(s: Search, i: nat) {
    && i <= |s.path1| == |s.path2| && |s.queue| == |s.path1| - i
    && forall t :: 0 <= t < |s.queue| ==> s.queue[t] == (s.path1[i + t], s.path2[i + t])
  }

  /** m may be taken as the partner of l below y: new on the second path and not l itself. */
  ghost predicate Eligible(env: Env, s: Search, y: nat, l: nat, m: nat) {
    Edge(env.g, y, m) && m !in s.visited2 && m != y && m !in s.path2 && m != l
  }

  lemma NoMarks(env: Env, s: Search)
    requires s.visited1 == s.visited2 == s.tmp2 == {}
    ensures Marks(env, s.(tmp2 := {}), 0, [])
  {
  }

  lemma AllExhaustedMore(
    env: Env, p1: seq<nat>, p2: seq<nat>, q1: seq<nat>, q2: seq<nat>, i: nat)
    requires p1 <= q1 && p2 <= q2 && i <= |p1| && i <= |p2|
    requires forall j :: 0 <= j < i ==> Exhausted(env, p1, p2, j)
    ensures forall j :: 0 <= j < i ==> Exhausted(env, q1, q2, j)
  {
    hide Exhausted;
    forall j | 0 <= j < i
      ensures Exhausted(env, q1, q2, j)
    {
      ExhaustedMore(env, p1, p2, q1, q2, j);
    }
  }

  lemma QueueStart(s: Search, a: nat, b: nat)
    requires s.path1 == [a] && s.path2 == [b] && s.queue == [(a, b)]
    ensures QueueFrom(s, 0)
  {
  }

  lemma QueueDone(s: Search, i: nat)
    ensures QueueFrom(s, i) && s.queue == [] ==> i == |s.path1|
  {
  }

  lemma PopMarks(env: Env, s: Search, queue: seq<(nat, nat)>, i: nat)
    requires Marks(env, s.(tmp2 := {}), i, [])
    ensures Marks(env, s.(queue := queue).(tmp2 := {}), i, [])
  {
  }

  lemma QueueSame(s: Search, s': Search, i: nat)
    requires s'.path1 == s.path1 && s'.path2 == s.path2 && s'.queue == s.queue
    ensures QueueFrom(s', i) <==> QueueFrom(s, i)
  {
  }

  lemma QueuePop(s: Search, i: nat)
    requires QueueFrom(s, i) && s.queue != []
    ensures i < |s.path1| == |s.path2| && s.queue[0] == (s.path1[i], s.path2[i])
    ensures QueueFrom(s.(queue := s.queue[1..]), i + 1)
  {
    assert s.queue[0] == (s.path1[i + 0], s.path2[i + 0]);
    var s' := s.(queue := s.queue[1..]);
    forall t | 0 <= t < |s'.queue|
      ensures s'.queue[t] == (s.path1[i + 1 + t], s.path2[i + 1 + t])
    {
      assert s.queue[t + 1] == (s.path1[i + (t + 1)], s.path2[i + (t + 1)]);
    }
  }

  /** Paths without repeats are no longer than the graph is large. */
  lemma InStepBound(env: Env, p1: seq<nat>, p2: seq<nat>, hashes: map<nat, Label>)
    requires InStep(env, p1, p2, hashes)
    ensures |p1| == |p2| && 1 <= |p1| <= |env.g| && InGraph(env.g, p1) && InGraph(env.g, p2)
  {
    Pigeonhole(p1, |env.g|);
  }

  lemma {:induction false} Pigeonhole(s: seq<nat>, n: nat)
    requires NoRepeats(s) && forall i :: 0 <= i < |s| ==> s[i] < n
    ensures |s| <= n
    decreases n
  {
    if s != [] {
      assert s[0] < n;
      var last: nat := n - 1;
      var r := Remove<nat>(s, last);
      RemoveNoRepeats<nat>(s, last);
      forall i | 0 <= i < |r|
        ensures r[i] < n - 1
      {
        assert r[i] in r;
      }
      Pigeonhole(r, n - 1);
    }
  }
}

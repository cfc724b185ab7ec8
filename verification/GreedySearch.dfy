/**
  The search of bbgroup/bb_match.py as a function of the graph: which partner each node
  gets, what every pair adds to the paths, and at which pairs the search cannot go on.
 */
module GreedySearch {
  import opened Wrappers
  import opened MatchGraph
  import opened Lockstep
  import opened Choices

  /** The first node of ms that may be matched with l and agrees with it, and the nodes tried. */
  function Scan(
    env: Env, h: HashType, l: nat, y: nat, visited2: set<nat>, path2: seq<nat>, ms: seq<nat>)
    : (r: (Option<nat>, set<nat>))
    requires l < |env.g| && InGraph(env.g, ms)
    ensures r.0.Some? ==> r.0.value in ms
  {
    if ms == [] then (None, {})
    else if ms[0] in visited2 || ms[0] == y || ms[0] in path2
    then Scan(env, h, l, y, visited2, path2, ms[1..])
    else if Same(env, h, l, ms[0]) && l != ms[0] then (Some(ms[0]), {ms[0]})
    else
      var r := Scan(env, h, l, y, visited2, path2, ms[1..]);
      (r.0, {ms[0]} + r.1)
  }

  /** The match under the first hash that gives one. */
  function PartnerOf(env: Env, l: nat, y: nat, visited2: set<nat>, path2: seq<nat>)
    : (r: (Option<(nat, Label)>, set<nat>))
    requires WellFormed(env.g) && l < |env.g| && y < |env.g|
    ensures r.0.Some? ==> r.0.value.0 in env.g[y].succs
  {
    var ms := env.g[y].succs;
    var (m1, t1) := Scan(env, Itype1, l, y, visited2, path2, ms);
    if m1.Some? then (Some((m1.value, TagOf(env, Itype1, l, m1.value))), t1) else
      var (m2, t2) := Scan(env, Itype2, l, y, visited2, path2, ms);
      if m2.Some? then (Some((m2.value, TagOf(env, Itype2, l, m2.value))), t1 + t2) else
        var (m3, t3) := Scan(env, Freq, l, y, visited2, path2, ms);
        if m3.Some? then (Some((m3.value, TagOf(env, Freq, l, m3.value))), t1 + t2 + t3)
        else (None, t1 + t2 + t3)
  }

  lemma ScanStep(
    env: Env, h: HashType, l: nat, y: nat, visited2: set<nat>, path2: seq<nat>, ms: seq<nat>, i: nat)
    requires l < |env.g| && InGraph(env.g, ms) && i < |ms|
    ensures var r, rest := Scan(env, h, l, y, visited2, path2, ms[i..]),
                           Scan(env, h, l, y, visited2, path2, ms[i + 1..]);
            var m := ms[i];
            r == if m in visited2 || m == y || m in path2 then rest
                 else if Same(env, h, l, m) && l != m then (Some(m), {m})
                 else (rest.0, {m} + rest.1)
  {
    assert ms[i..][0] == ms[i] && ms[i..][1..] == ms[i + 1..];
  }

  lemma ScanEnds(
    env: Env, h: HashType, l: nat, y: nat, visited2: set<nat>, path2: seq<nat>, ms: seq<nat>)
    requires l < |env.g| && InGraph(env.g, ms)
    ensures ms[0..] == ms && Scan(env, h, l, y, visited2, path2, ms[|ms|..]) == (None, {})
  {
  }

  /** What is found is eligible and agrees; nothing is found only if nothing eligible agrees. */
  lemma {:induction false} ScanMeans(
    env: Env, h: HashType, l: nat, y: nat, s: Search, ms: seq<nat>)
    requires l < |env.g| && y < |env.g| && InGraph(env.g, ms)
    requires forall m :: m in ms ==> Edge(env.g, y, m)
    ensures var r := Scan(env, h, l, y, s.visited2, s.path2, ms);
            match r.0
            case Some(m) =>
              m < |env.g| && Eligible(env, s, y, l, m) && AgreesBy(env, h, l, m, TagOf(env, h, l, m))
            case None =>
              forall m, tag :: m in ms && Eligible(env, s, y, l, m) ==> !AgreesBy(env, h, l, m, tag)
    ensures Scan(env, h, l, y, s.visited2, s.path2, ms).1 <= set m | m in ms
  {
    if ms != [] {
      ScanMeans(env, h, l, y, s, ms[1..]);
      assert ms == [ms[0]] + ms[1..];
    }
  }

  lemma EligibleListed(env: Env, s: Search, y: nat, l: nat)
    requires y < |env.g|
    ensures forall m :: Eligible(env, s, y, l, m) ==> m in env.g[y].succs
  {
  }

  lemma PartnerMeans(env: Env, l: nat, y: nat, s: Search)
    requires WellFormed(env.g) && l < |env.g| && y < |env.g|
    ensures match PartnerOf(env, l, y, s.visited2, s.path2).0
            case Some((m, tag)) => Eligible(env, s, y, l, m) && m < |env.g| && Agrees(env, l, m, tag)
            case None =>
              forall m: nat, tag :: m < |env.g| && Eligible(env, s, y, l, m) ==> !Agrees(env, l, m, tag)
    ensures forall m :: m in PartnerOf(env, l, y, s.visited2, s.path2).1 ==> Edge(env.g, y, m)
  {
    hide Scan;
    ScanMeans(env, Itype1, l, y, s, env.g[y].succs);
    ScanMeans(env, Itype2, l, y, s, env.g[y].succs);
    ScanMeans(env, Freq, l, y, s, env.g[y].succs);
  }

  /** The first eligible one that agrees is found, and if none is, all have been tried. */
  lemma {:induction false} ScanFirst(env: Env, h: HashType, l: nat, y: nat, s: Search, ms: seq<nat>)
    requires l < |env.g| && y < |env.g| && InGraph(env.g, ms)
    requires forall m :: m in ms ==> Edge(env.g, y, m)
    ensures var r := Scan(env, h, l, y, s.visited2, s.path2, ms);
            match r.0
            case Some(m) =>
              forall a: nat :: a < |env.g| && Eligible(env, s, y, l, a) && Same(env, h, l, a) ==> !Before(ms, a, m)
            case None =>
              forall a :: a in ms ==> a in s.visited2 || a == y || a in s.path2 || a in r.1
  {
    hide Edge;
    if ms != [] {
      ScanFirst(env, h, l, y, s, ms[1..]);
      var r := Scan(env, h, l, y, s.visited2, s.path2, ms);
      assert ms == [ms[0]] + ms[1..];
      if r.0.Some? {
        var m := r.0.value;
        forall a: nat | a < |env.g| && Eligible(env, s, y, l, a) && Same(env, h, l, a)
          ensures !Before(ms, a, m)
        {
          if ms[0] != m && ms[0] != a {
            BeforeRest(ms, a, m);
          }
        }
      }
    }
  }

  lemma BeforeRest(ms: seq<nat>, a: nat, m: nat)
    requires ms != [] && ms[0] != m && ms[0] != a
    ensures Before(ms, a, m) <==> Before(ms[1..], a, m)
  {
    if Before(ms, a, m) {
      var i :| 0 <= i < |ms| && ms[i] == a && m !in ms[..i + 1];
      assert ms[1..][i - 1] == a && ms[1..][..i] == ms[..i + 1][1..];
    }
    if Before(ms[1..], a, m) {
      var i :| 0 <= i < |ms[1..]| && ms[1..][i] == a && m !in ms[1..][..i + 1];
      assert ms[i + 1] == a && ms[..i + 2] == [ms[0]] + ms[1..][..i + 1];
    }
  }

  lemma RankIs(env: Env, l: nat, m: nat)
    requires l < |env.g| && m < |env.g|
    ensures Rank(env, l, m) == if Same(env, Itype1, l, m) then 0 else if Same(env, Itype2, l, m) then 1
                               else if Same(env, Freq, l, m) then 2 else 3
    ensures Same(env, Itype1, l, m) ==> TagFor(env, l, m) == TagOf(env, Itype1, l, m)
    ensures !Same(env, Itype1, l, m) && Same(env, Itype2, l, m) ==> TagFor(env, l, m) == TagOf(env, Itype2, l, m)
    ensures !Same(env, Itype1, l, m) && !Same(env, Itype2, l, m) ==> TagFor(env, l, m) == TagOf(env, Freq, l, m)
  {
  }

  /** What a scan of all successors under h finds. */
  ghost predicate FoundUnder(env: Env, h: HashType, l: nat, y: nat, s: Search, m: nat)
    requires l < |env.g| && y < |env.g|
  {
    && m < |env.g| && Eligible(env, s, y, l, m) && Same(env, h, l, m)
    && forall a: nat :: a < |env.g| && Eligible(env, s, y, l, a) && Same(env, h, l, a) ==>
         !Before(env.g[y].succs, a, m)
  }

  ghost predicate NothingUnder(env: Env, h: HashType, l: nat, y: nat, s: Search)
    requires l < |env.g| && y < |env.g|
  {
    forall a: nat :: a < |env.g| && Eligible(env, s, y, l, a) ==> !Same(env, h, l, a)
  }

  lemma ScanAll(env: Env, h: HashType, l: nat, y: nat, s: Search)
    requires WellFormed(env.g) && l < |env.g| && y < |env.g|
    ensures var r := Scan(env, h, l, y, s.visited2, s.path2, env.g[y].succs);
            match r.0
            case Some(m) => FoundUnder(env, h, l, y, s, m)
            case None =>
              && NothingUnder(env, h, l, y, s)
              && forall a :: Edge(env.g, y, a) ==> a in s.visited2 || a == y || a in s.path2 || a in r.1
  {
    hide Scan, Before, Same, TagOf, Eligible;
    ScanMeans(env, h, l, y, s, env.g[y].succs);
    ScanFirst(env, h, l, y, s, env.g[y].succs);
    EligibleListed(env, s, y, l);
    forall a: nat | a < |env.g|
      ensures Same(env, h, l, a) <==> AgreesBy(env, h, l, a, TagOf(env, h, l, a))
    {
    }
  }

  /** The partner is the best one, and without a partner nothing eligible agrees. */
  lemma PartnerIsBest(env: Env, l: nat, y: nat, s: Search)
    requires WellFormed(env.g) && l < |env.g| && y < |env.g|
    ensures var r := PartnerOf(env, l, y, s.visited2, s.path2);
            match r.0
            case Some((m, tag)) => IsBest(env, s, y, l, m, tag)
            case None => NoneFits(env, s, y, l, r.1)
  {
    hide Scan, Before, Same, TagOf, Rank, TagFor, Eligible, Edge;
    ScanAll(env, Itype1, l, y, s);
    ScanAll(env, Itype2, l, y, s);
    ScanAll(env, Freq, l, y, s);
    forall m: nat | m < |env.g|
      ensures Rank(env, l, m) == if Same(env, Itype1, l, m) then 0 else if Same(env, Itype2, l, m) then 1
                                 else if Same(env, Freq, l, m) then 2 else 3
      ensures TagFor(env, l, m) == if Same(env, Itype1, l, m) then TagOf(env, Itype1, l, m)
                                   else if Same(env, Itype2, l, m) then TagOf(env, Itype2, l, m)
                                   else TagOf(env, Freq, l, m)
    {
      RankIs(env, l, m);
    }
  }

  /** Nothing is done for a successor already met. */
  predicate Skipped(s: Search, x: nat, l: nat) {
    l in s.visited1 || l == x || l in s.path1
  }

  ghost predicate QueueInside(g: Graph, s: Search) {
    forall t :: 0 <= t < |s.queue| ==> s.queue[t].0 < |g| && s.queue[t].1 < |g|
  }

  /** The search after successor l of x, where y has successors to try. */
  ghost function AfterOne(env: Env, s: Search, x: nat, y: nat, l: nat): (s': Search)
    requires WellFormed(env.g) && y < |env.g| && l < |env.g|
    ensures QueueInside(env.g, s) ==> QueueInside(env.g, s')
  {
    if Skipped(s, x, l) then s else
      var s1 := s.(visited1 := s.visited1 + {l});
      var (partner, tried) := PartnerOf(env, l, y, s.visited2, s.path2);
      match partner
      case None => s1.(tmp2 := s.tmp2 + tried)
      case Some((m, tag)) =>
        EdgeInGraph(env.g, y, m);
        s1.(tmp2 := s.tmp2 + tried, path1 := s.path1 + [l], path2 := s.path2 + [m],
            queue := s.queue + [(l, m)], hashes := s.hashes[l := tag],
            visited2 := s.visited2 + {m})
  }

  ghost function AfterAll(env: Env, s: Search, x: nat, y: nat, ls: seq<nat>): (s': Search)
    requires WellFormed(env.g) && y < |env.g| && InGraph(env.g, ls)
    ensures QueueInside(env.g, s) ==> QueueInside(env.g, s')
  {
    if ls == [] then s else
      AfterOne(env, AfterAll(env, s, x, y, ls[..|ls| - 1]), x, y, ls[|ls| - 1])
  }

  /** The search after its next pair. */
  ghost function Advance(env: Env, s: Search): (s': Search)
    requires WellFormed(env.g) && QueueInside(env.g, s)
    ensures QueueInside(env.g, s')
  {
    if s.queue == [] then s else
      AfterPair(env, s.(queue := s.queue[1..]), s.queue[0].0, s.queue[0].1)
  }

  ghost function AfterPair(env: Env, s: Search, x: nat, y: nat): (s': Search)
    requires WellFormed(env.g) && x < |env.g| && y < |env.g|
    ensures QueueInside(env.g, s) ==> QueueInside(env.g, s')
  {
    var s1 := AfterAll(env, s.(tmp2 := {}), x, y, env.g[x].succs);
    s1.(visited2 := s1.visited2 + s1.tmp2)
  }

  function Start(env: Env, a: nat, b: nat): Search
    requires a < |env.g|
  {
    Search([a], [b], [(a, b)], map[a := env.g[a].itype2], {}, {}, {})
  }

  /** The search from a and b after n pairs. */
  ghost function After(env: Env, a: nat, b: nat, n: nat): (s: Search)
    requires WellFormed(env.g) && a < |env.g| && b < |env.g|
    ensures QueueInside(env.g, s)
  {
    if n == 0 then Start(env, a, b) else Advance(env, After(env, a, b, n - 1))
  }

  lemma AfterAllSnoc(env: Env, s: Search, x: nat, y: nat, ls: seq<nat>, k: nat)
    requires WellFormed(env.g) && y < |env.g| && InGraph(env.g, ls) && k < |ls|
    ensures AfterAll(env, s, x, y, ls[..k + 1]) == AfterOne(env, AfterAll(env, s, x, y, ls[..k]), x, y, ls[k])
  {
    hide AfterOne;
    assert ls[..k + 1][..k] == ls[..k];
  }

  lemma NoneTried(env: Env, s: Search, x: nat, y: nat, ls: seq<nat>)
    requires WellFormed(env.g) && y < |env.g| && InGraph(env.g, ls)
    ensures AfterAll(env, s, x, y, ls[..0]) == s
  {
  }

  lemma SkippedSame(env: Env, s: Search, x: nat, y: nat, l: nat)
    requires WellFormed(env.g) && y < |env.g| && l < |env.g|
    ensures Skipped(s, x, l) ==> AfterOne(env, s, x, y, l) == s
  {
  }

  /** The next pair has a successor to try on one side and nothing to try it with on the other. */
  ghost predicate Stuck(env: Env, s: Search)
    requires QueueInside(env.g, s)
  {
    s.queue != [] && StuckAt(env.g, s, s.queue[0].0, s.queue[0].1)
  }

  ghost predicate StuckAt(g: Graph, s: Search, x: nat, y: nat)
    requires x < |g| && y < |g|
  {
    g[y].succs == [] && exists l :: l in g[x].succs && !Skipped(s, x, l)
  }

  /** The search from a and b gets stuck; a condition on the graph alone. */
  ghost predicate Fails(env: Env, a: nat, b: nat) {
    && WellFormed(env.g) && a < |env.g| && b < |env.g|
    && exists n: nat :: Stuck(env, After(env, a, b, n))
  }

  /** The search from a and b ends with these paths and hashes. */
  ghost predicate EndsWith(
    env: Env, a: nat, b: nat, p1: seq<nat>, p2: seq<nat>, hashes: map<nat, Label>)
  {
    && WellFormed(env.g) && a < |env.g| && b < |env.g|
    && exists n: nat :: EndsAfter(env, a, b, n, p1, p2, hashes)
  }

  ghost predicate EndsAfter(
    env: Env, a: nat, b: nat, n: nat, p1: seq<nat>, p2: seq<nat>, hashes: map<nat, Label>)
    requires WellFormed(env.g) && a < |env.g| && b < |env.g|
  {
    var s := After(env, a, b, n);
    s.queue == [] && s.path1 == p1 && s.path2 == p2 && s.hashes == hashes
  }

  /** The graph determines the outcome of a search. */
  lemma EndsUnique(
    env: Env, a: nat, b: nat, p1: seq<nat>, p2: seq<nat>, hashes: map<nat, Label>,
    q1: seq<nat>, q2: seq<nat>, hashes': map<nat, Label>)
    requires EndsWith(env, a, b, p1, p2, hashes) && EndsWith(env, a, b, q1, q2, hashes')
    ensures p1 == q1 && p2 == q2 && hashes == hashes'
  {
    hide After;
    var m: nat :| EndsAfter(env, a, b, m, p1, p2, hashes);
    var n: nat :| EndsAfter(env, a, b, n, q1, q2, hashes');
    if m <= n {
      AfterEnd(env, a, b, m, n);
    } else {
      AfterEnd(env, a, b, n, m);
    }
  }

  lemma AfterStart(env: Env, a: nat, b: nat)
    requires WellFormed(env.g) && a < |env.g| && b < |env.g|
    ensures After(env, a, b, 0) == Start(env, a, b)
  {
  }

  lemma AfterNext(env: Env, a: nat, b: nat, n: nat)
    requires WellFormed(env.g) && a < |env.g| && b < |env.g| && After(env, a, b, n).queue != []
    ensures var s := After(env, a, b, n);
            After(env, a, b, n + 1) ==
            AfterPair(env, s.(queue := s.queue[1..]), s.queue[0].0, s.queue[0].1)
  {
    hide AfterPair, Start;
  }

  /** Taking the pair off the queue does not change whether it gets stuck. */
  lemma StuckNext(env: Env, s: Search)
    requires QueueInside(env.g, s) && s.queue != []
    ensures Stuck(env, s) <==> StuckAt(env.g, s.(queue := s.queue[1..]), s.queue[0].0, s.queue[0].1)
  {
  }

  /** Once the queue is empty nothing more happens. */
  lemma {:induction false} AfterEnd(env: Env, a: nat, b: nat, i: nat, n: nat)
    requires WellFormed(env.g) && a < |env.g| && b < |env.g|
    requires i <= n && After(env, a, b, i).queue == []
    ensures After(env, a, b, n) == After(env, a, b, i)
  {
    hide Advance, Start;
    if i < n {
      AfterEnd(env, a, b, i, n - 1);
      AdvanceEnd(env, After(env, a, b, n - 1));
    }
  }

  lemma AdvanceEnd(env: Env, s: Search)
    requires WellFormed(env.g) && QueueInside(env.g, s) && s.queue == []
    ensures Advance(env, s) == s
  {
  }

  /** A search that runs to the end without getting stuck does not fail. */
  lemma NeverStuck(env: Env, a: nat, b: nat, i: nat)
    requires WellFormed(env.g) && a < |env.g| && b < |env.g|
    requires After(env, a, b, i).queue == []
    requires forall j :: 0 <= j < i ==> !Stuck(env, After(env, a, b, j))
    ensures !Fails(env, a, b)
  {
    hide After, Advance;
    forall n: nat
      ensures !Stuck(env, After(env, a, b, n))
    {
      if n >= i {
        AfterEnd(env, a, b, i, n);
      }
    }
  }

  // ----- the head of the path -------------------------------------------------

  ghost predicate HeadTagged(env: Env, a: nat, s: Search)
    requires a < |env.g|
  {
    s.path1 != [] && s.path1[0] == a && a in s.hashes && s.hashes[a] == env.g[a].itype2
  }

  lemma {:induction false} AllKeepsHead(env: Env, a: nat, s: Search, x: nat, y: nat, ls: seq<nat>)
    requires WellFormed(env.g) && a < |env.g| && y < |env.g| && InGraph(env.g, ls) && HeadTagged(env, a, s)
    ensures HeadTagged(env, a, AfterAll(env, s, x, y, ls))
  {
    hide PartnerOf;
    if ls != [] {
      AllKeepsHead(env, a, s, x, y, ls[..|ls| - 1]);
    }
  }

  /** The head carries its itype2 hash throughout. */
  lemma {:induction false} HeadStays(env: Env, a: nat, b: nat, n: nat)
    requires WellFormed(env.g) && a < |env.g| && b < |env.g|
    ensures HeadTagged(env, a, After(env, a, b, n))
  {
    hide AfterAll;
    if n > 0 {
      HeadStays(env, a, b, n - 1);
      var s := After(env, a, b, n - 1);
      if s.queue != [] {
        var (x, y) := s.queue[0];
        AllKeepsHead(env, a, s.(queue := s.queue[1..], tmp2 := {}), x, y, env.g[x].succs);
      }
    }
  }

  // ----- when no search fails -------------------------------------------------

  /** Of two different nodes that agree, none has successors unless both have. */
  ghost predicate TwinsGoOn(env: Env) {
    forall u: nat, v: nat, tag ::
      u < |env.g| && v < |env.g| && u != v && Agrees(env, u, v, tag) && env.g[u].succs != [] ==>
        env.g[v].succs != []
  }

  /** On such a graph paths in step come to no dead end. */
  lemma TwinsNoDeadEnd(env: Env, p1: seq<nat>, p2: seq<nat>, hashes: map<nat, Label>)
    requires TwinsGoOn(env) && InStep(env, p1, p2, hashes)
    requires p1[0] != p2[0] && env.g[p1[0]].itype2 == env.g[p2[0]].itype2
    ensures !SomeDeadEnd(env, p1, p2)
  {
    hide Reached;
    forall i: nat, l: nat
      ensures !DeadEnd(env, p1, p2, i, l)
    {
      if 0 < i < |p1| {
        assert Justified(env, p1, p2, hashes, i);
      } else if i == 0 {
        assert AgreesBy(env, Itype2, p1[0], p2[0], env.g[p1[0]].itype2);
        assert Agrees(env, p1[0], p2[0], env.g[p1[0]].itype2);
      }
    }
  }
}

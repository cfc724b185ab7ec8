/** Two functions on which the matcher does not do what one would expect. */
module MatcherExamples {
  import opened Wrappers
  import opened MatchGraph
  import opened Lockstep
  import opened GreedySearch
  import opened Pruning
  import opened PathTables
  import opened Outcomes
  import opened SideEntries
  import opened Matcher

  function Hash(c: char): (h: Label)
    ensures h[0] == c
  {
    seq(DIGEST_WIDTH, _ => c)
  }

  /** A block with the same hash of both kinds. */
  function Plain(succs: seq<nat>, preds: seq<nat>, c: char): Node {
    Node(succs, preds, Hash(c), Hash(c))
  }

  /** No two blocks match by frequency. */
  function PlainEnv(g: Graph): Env {
    Env(g, (l, m) => false, (l, m) => Hash('0'))
  }

  // ----- a search that fails --------------------------------------------------

  /** Block 0 leads to block 2, block 1 to nothing, and all three have one hash. */
  function StuckGraph(): Graph {
    [Plain([2], [], 'a'), Plain([], [], 'a'), Plain([], [0], 'a')]
  }

  method FailingRun() returns (raised: bool)
    ensures raised
  {
    var env := PlainEnv(StuckGraph());
    StuckGraphFails(env);
    var matcher := new BBMatcher<string>(env, s => s);
    raised := matcher.FindSubGraphs();
  }

  lemma StuckGraphFails(env: Env)
    requires env == PlainEnv(StuckGraph())
    ensures WellFormed(env.g) && SomeFails(env)
  {
    AfterStart(env, 0, 1);
    assert 2 in env.g[0].succs && !Skipped(Start(env, 0, 1), 0, 2);
    assert Stuck(env, After(env, 0, 1, 0));
    assert Fails(env, 0, 1);
  }

  // ----- a stored path that is entered from outside ---------------------------

  /** 0 -> 1 and 2 -> 3 match, and block 4 leads to block 3 as well. */
  function SideGraph(): Graph {
    [Plain([1], [], 'a'), Plain([], [0], 'b'), Plain([3], [], 'a'), Plain([], [2, 4], 'b'),
     Plain([3], [], 'c')]
  }

  lemma SideGraphFacts(env: Env)
    requires env == PlainEnv(SideGraph())
    ensures WellFormed(env.g) && Mirrored(env.g)
    ensures InGraph(env.g, [0, 1]) && SingleEntry(env.g, [0, 1])
    ensures InGraph(env.g, [2, 3]) && !SingleEntry(env.g, [2, 3])
  {
    hide Hash;
    assert !Inside(env.g[3].preds, [2, 3]) by {
      assert env.g[3].preds[1] == 4;
    }
    assert [2, 3][1] == 3;
  }

  lemma SideGraphTwins(env: Env)
    requires env == PlainEnv(SideGraph())
    ensures TwinsGoOn(env)
  {
    hide Hash;
    forall u: nat, v: nat, tag | u < 5 && v < 5 && u != v && Agrees(env, u, v, tag)
      ensures env.g[u].succs != [] ==> env.g[v].succs != []
    {
      SameLetter(env, u, v, tag);
    }
  }

  lemma SameLetter(env: Env, u: nat, v: nat, tag: Label)
    requires env == PlainEnv(SideGraph()) && u < 5 && v < 5 && Agrees(env, u, v, tag)
    ensures env.g[u].itype1[0] == env.g[v].itype1[0]
  {
    hide Hash;
    var h :| AgreesBy(env, h, u, v, tag);
  }

  /** The search from blocks 0 and 2 finds the two chains. */
  lemma SideSearch(env: Env, p1: Path, p2: Path, hashes: map<nat, Label>)
    requires env == PlainEnv(SideGraph()) && EndsWith(env, 0, 2, p1, p2, hashes)
    ensures p1 == [0, 1] && p2 == [2, 3]
  {
    var s0, s1 := After(env, 0, 2, 0), After(env, 0, 2, 1);
    AfterStart(env, 0, 2);
    AfterNext(env, 0, 2, 0);
    FirstPair(env, s0.(queue := []));
    assert s0.queue[1..] == [];
    AfterNext(env, 0, 2, 1);
    assert s1.queue[1..] == [];
    assert After(env, 0, 2, 2).queue == [];
    assert EndsAfter(env, 0, 2, 2, s1.path1, s1.path2, s1.hashes);
    EndsUnique(env, 0, 2, p1, p2, hashes, s1.path1, s1.path2, s1.hashes);
  }

  lemma FirstPair(env: Env, s: Search)
    requires env == PlainEnv(SideGraph()) && WellFormed(env.g)
    requires s == Start(env, 0, 2).(queue := [])
    ensures var s' := AfterPair(env, s, 0, 2);
            s'.path1 == [0, 1] && s'.path2 == [2, 3] && s'.queue == [(1, 3)]
  {
    assert [1][..0] == [];
    assert AfterAll(env, s, 0, 2, [1]) == AfterOne(env, s, 0, 2, 1);
    assert [3][0] == 3 && Same(env, Itype1, 1, 3);
    assert Scan(env, Itype1, 1, 2, s.visited2, s.path2, [3]).0 == Some(3);
  }

  /** The run does not fail, and a path with a side entry is among the pruned ones. */
  method SideEntryStored() returns (matcher: BBMatcher<string>, raised: bool)
    ensures !raised && matcher.env.g == SideGraph() && InGraph(matcher.env.g, [2, 3])
    ensures exists a :: [2, 3] in Rows(matcher.single, Hash('a'), a)
    ensures !SingleEntry(matcher.env.g, [2, 3]) && !SecondsEntered(matcher.env)
  {
    hide TwinsGoOn, SingleEntry, WellFormed, SecondsEntered, AllEntered, OneEntry, Mirrored, SomeFails,
         SomeDeadSearch, Rows, AllProcessed, Processed, SideGraph, Hash;
    var env := PlainEnv(SideGraph());
    SideGraphFacts(env);
    SideGraphTwins(env);
    matcher := new BBMatcher<string>(env, s => s);
    raised := matcher.FindSubGraphs();
    SideProcessed(env, matcher.sha, matcher.full, matcher.single);
    SideStored(env, matcher.sha, matcher.full, matcher.single);
    SideNotEntered(env.g, matcher.single);
  }

  lemma SideProcessed(env: Env, sha: string -> string, full: Table<string>, single: Table<string>)
    requires env == PlainEnv(SideGraph()) && AllProcessed(env, sha, full, single)
    ensures Processed(env, sha, full, single, Hash('a'), 0, 2)
  {
    hide Processed, Hash;
    assert env.g[0].itype2 == env.g[2].itype2 == Hash('a');
    assert Processed(env, sha, full, single, env.g[0].itype2, 0, 2);
  }

  lemma SideNotEntered(g: Graph, t: Table<string>)
    requires InGraph(g, [2, 3]) && !SingleEntry(g, [2, 3])
    requires exists a :: [2, 3] in Rows(t, Hash('a'), a)
    ensures !AllEntered(g, t)
  {
    hide Rows, SingleEntry, Hash;
    assert !Entered(g, [2, 3]);
  }

  lemma SideStored(env: Env, sha: string -> string, full: Table<string>, single: Table<string>)
    requires env == PlainEnv(SideGraph()) && Processed(env, sha, full, single, Hash('a'), 0, 2)
    ensures exists a :: [2, 3] in Rows(single, Hash('a'), a)
  {
    hide Rows, InStep, Exhausted, Fails, SomeDeadEnd, EndsWith, Join;
    var p1, p2, hashes, cut :|
      Outcome(env, 0, 2, p1, p2, hashes, cut) && InTables(sha, full, single, Hash('a'), p1, p2, hashes, cut);
    SideSearch(env, p1, p2, hashes);
    SideGraphFacts(env);
    assert p1[..2] == [0, 1] && p2[..2] == [2, 3];
    assert cut == 2;
  }
}

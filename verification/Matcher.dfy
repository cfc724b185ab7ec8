/** The subgraph matcher of bbgroup/bb_match.py, started fresh. */
module Matcher {
  import opened Seqs
  import opened MatchGraph
  import opened Lockstep
  import opened Choices
  import opened GreedySearch
  import opened Searching
  import opened Similar
  import opened Outcomes
  import opened SideEntries
  import opened Pruning
  import opened PathTables
  import opened Selection

  class BBMatcher<K(==, !new)> {
    const env: Env
    const sha: string -> K
    const searcher: Searcher
    var M: map<Label, seq<nat>>
    var full: Table<K>          // pathPerNodeHashFull
    var single: Table<K>        // pathPerNodeHash

    ghost predicate Valid()
      reads this
    {
      && WellFormed(env.g) && Injective(sha) && searcher.env == env
      && AllListed(env.g, M)
      && FullTable(env, sha, full)
      && EntryTable(env.g, single) && OnlyPruned(env, single)
    }

    constructor (env: Env, sha: string -> K)
      requires WellFormed(env.g) && Injective(sha)
      ensures Valid() && fresh(searcher) && this.env == env && this.sha == sha
      ensures full == map[] && single == map[]
    {
      this.env, this.sha := env, sha;
      searcher := new Searcher(env);
      full, single := map[], map[];
      new;
      M := HashBBMatch(env.g);
    }

    /** A pair of nodes of one hash: search, prune, and store both outcomes. */
    method ProcessPair(i: Label, x: nat, y: nat)
      returns (raised: bool, ghost p1: Path, ghost p2: Path, ghost hashes: map<nat, Label>, ghost cut: nat)
      requires Valid() && x < y < |env.g|
      requires env.g[x].itype2 == env.g[y].itype2 == i
      modifies this`full, this`single, searcher
      ensures Valid() && InStep(env, p1, p2, hashes) && p1[0] == x && p2[0] == y
      ensures raised <==> Fails(env, x, y)
      ensures raised ==> full == old(full) && single == old(single) && SomeDeadEnd(env, p1, p2)
      ensures !raised ==>
                && Outcome(env, x, y, p1, p2, hashes, cut)
                && full == FullAfter(sha, old(full), i, p1, p2, hashes)
                && single == CutAfter(sha, old(single), i, p1, p2, hashes, cut)
    {
      hide AllListed, Injective, FullTable, EntryTable, WellFormed, InStep, CutAt, FullAfter, CutAfter, Exhausted,
           SomeDeadEnd, Fails, EndsWith, OnlyPruned, WellChosen;
      var path1, path2, nodeHashes;
      raised, path1, path2, nodeHashes := searcher.SearchPair(x, y);
      p1, p2, hashes, cut := path1, path2, nodeHashes, 1;
      InStepFacts(env, path1, path2, nodeHashes);
      if raised {
        return;
      }
      var cut1, cut2 := MakeSubgraphSingleEntryPoint(env.g, path1, path2);
      cut := |cut1|;
      CutIs(env.g, path1, cut1);
      var buffer := StoreFullPaths(i, path1, path2, nodeHashes);
      StoreCutPaths(i, path1, path2, cut1, cut2, nodeHashes, buffer);
    }

    method StoreFullPaths(i: Label, path1: Path, path2: Path, hashes: map<nat, Label>)
      returns (buffer: string)
      requires Valid() && InStep(env, path1, path2, hashes)
      requires path1[0] != path2[0] && env.g[path1[0]].itype2 == env.g[path2[0]].itype2 == i
      modifies this`full
      ensures Valid() && full == FullAfter(sha, old(full), i, path1, path2, hashes)
      ensures |path1| > 1 ==> buffer == Join(Labels(path1, hashes))
    {
      hide AllListed, Injective, FullTable, EntryTable, WellFormed, Stored, AddRows, InStep, Join, OnlyPruned;
      InStepFacts(env, path1, path2, hashes);
      buffer := "";
      if |path1| > 1 {
        buffer := buffer + Join(Labels(path1, hashes));
        assert buffer == Join(Labels(path1, hashes));
        StoreFull(env, sha, full, i, path1, path2, hashes, Labels(path1, hashes));
        full := StoreRows(full, i, sha(buffer), path1, path2);
      }
    }

    /** The digest of the pruned pair continues that of the full pair. */
    method StoreCutPaths(i: Label, ghost path1: Path, ghost path2: Path, cut1: Path, cut2: Path,
                         hashes: map<nat, Label>, buffer: string)
      requires Valid() && 1 <= |cut1| == |cut2| && cut1 <= path1 && cut2 <= path2 && NoRepeats(path1)
      requires |path1| == |path2| && CutAt(env.g, path1, |cut1|)
      requires path1 != [] && path2 != [] && path1[0] < path2[0] && Outcome(env, path1[0], path2[0], path1, path2, hashes, |cut1|)
      requires InGraph(env.g, path1) && InGraph(env.g, path2)
      requires env.g[path1[0]].itype2 == env.g[path2[0]].itype2 == i
      requires forall k :: 0 <= k < |path1| ==> path1[k] in hashes
      requires |path1| > 1 ==> buffer == Join(Labels(path1, hashes))
      modifies this`single
      ensures Valid() && single == CutAfter(sha, old(single), i, path1, path2, hashes, |cut1|)
    {
      hide AllListed, Injective, FullTable, EntryTable, WellFormed, Stored, AddRows, Join, SingleEntry;
      hide Outcome, OnlyPruned, Pruned, NoRepeats;
      assert cut1 == path1[..|cut1|] && cut2 == path2[..|cut1|];
      if |cut1| > 1 {
        PrefixNoRepeats(cut1, path1);
        var a := sha(buffer + Join(Labels(cut1, hashes)));
        StoreEntry(env.g, single, i, a, cut1, cut2);
        ArePruned(env, i, path1, path2, hashes, |cut1|);
        StorePruned(env, single, i, a, cut1, cut2);
        single := StoreRows(single, i, a, cut1, cut2);
      }
    }

    /** The same as a step of the loops: one more pair processed, nothing lost. */
    method PairRound(i: Label, ns: seq<nat>, z: nat, k: nat) returns (raised: bool)
      requires Valid() && z < k < |ns| && ns[z] < ns[k] < |env.g|
      requires env.g[ns[z]].itype2 == env.g[ns[k]].itype2 == i
      requires PairsDone(env, sha, full, single, i, ns, z, k)
      modifies this`full, this`single, searcher
      ensures Valid() && Grows(old(full), full) && Grows(old(single), single)
      ensures !raised ==> PairsDone(env, sha, full, single, i, ns, z, k + 1)
      ensures raised ==> FailsAt(env, ns[z], ns[k])
    {
      hide SomeDeadEnd, Fails, InStep;
      hide Valid, PairsDone, Outcome, InTables, Grows, FullAfter, CutAfter, Processed;
      ghost var p1, p2, hashes, cut;
      ghost var full0, single0 := full, single;
      raised, p1, p2, hashes, cut := ProcessPair(i, ns[z], ns[k]);
      if raised {
        assert DeadSearch(env, ns[z], ns[k], p1, p2, hashes);
        GrowsSame(full);
        GrowsSame(single);
        return;
      }
      OutcomeFacts(env, ns[z], ns[k], p1, p2, hashes, cut);
      NowProcessed(env, sha, full0, single0, i, ns[z], ns[k], p1, p2, hashes, cut);
      PairsStay(env, sha, full0, single0, full, single, i, ns, z, k);
      PairsNext(env, sha, full, single, i, ns, z, k);
    }

    /** One hash: every pair of its nodes, the first before the second in the list. */
    method ProcessHash(i: Label) returns (raised: bool)
      requires Valid() && i in M
      modifies this`full, this`single, searcher
      ensures Valid() && Grows(old(full), full) && Grows(old(single), single)
      ensures !raised ==> PairsDone(env, sha, full, single, i, M[i], |M[i]|, 0)
      ensures raised ==> SomeDeadSearch(env)
      ensures raised <==> HashFails(env, M[i])
    {
      hide Fails, Processed;
      hide AllListed, Injective, FullTable, EntryTable, WellFormed, PairsDone, Grows, OnlyPruned, DeadSearch;
      ListedNodes(env.g, M, i);
      raised := false;
      var ns := M[i];
      GrowsSame(full);
      GrowsSame(single);
      NoPairs(env, sha, full, single, i, ns);
      for z := 0 to |ns| - 1
        invariant Valid() && Grows(old(full), full) && Grows(old(single), single)
        invariant PairsDone(env, sha, full, single, i, ns, z, z + 1)
      {
        for k := z + 1 to |ns|
          invariant Valid() && Grows(old(full), full) && Grows(old(single), single)
          invariant PairsDone(env, sha, full, single, i, ns, z, k)
        {
          ghost var full0, single0 := full, single;
          ListedAscending(env.g, M, i, z, k);
          raised := PairRound(i, ns, z, k);
          GrowsOn(old(full), full0, full);
          GrowsOn(old(single), single0, single);
          if raised {
            assert FailsAt(env, ns[z], ns[k]);
            return;
          }
        }
        PairsNext(env, sha, full, single, i, ns, z, |ns|);
      }
      PairsNext(env, sha, full, single, i, ns, |ns| - 1, |ns|);
      PairsNoFails(env, sha, full, single, i, ns);
    }

    /**
      The hashes are taken in any order. Any two nodes of one hash are searched from, and
      what is found is stored. A failed search ends the whole run: it raises exactly when
      the search from some two nodes of one hash gets stuck, and never on a graph whose
      agreeing nodes have successors together.
     */
    method FindSubGraphs() returns (raised: bool)
      requires Valid()
      modifies this`full, this`single, searcher
      ensures Valid()
      ensures raised <==> SomeFails(env)
      ensures raised ==> SomeDeadSearch(env) && !TwinsGoOn(env)
      ensures !raised ==> AllProcessed(env, sha, full, single)
      ensures !raised ==> (AllEntered(env.g, single) <==> SecondsEntered(env))
      ensures SecondsEntered(env) || (Mirrored(env.g) && OneEntry(env)) ==> AllEntered(env.g, single)
    {
      hide AllEntered, SecondsEntered, Mirrored, OneEntry, OnlyPruned, AllListed;
      hide Valid, PairsDone, Grows, Processed, SomeFails, AllProcessed, SomeDeadSearch, TwinsGoOn;
      raised := false;
      var left := M.Keys;
      while left != {}
        invariant Valid() && left <= M.Keys
        invariant forall i :: i in M && i !in left ==> PairsDone(env, sha, full, single, i, M[i], |M[i]|, 0)
        decreases left
      {
        var i :| i in left;
        left := left - {i};
        ghost var full0, single0 := full, single;
        raised := ProcessHash(i);
        if raised {
          DeadSearchMeans(env);
          StoredEntered();
          return;
        }
        forall j | j in M && j !in left && j != i
          ensures PairsDone(env, sha, full, single, j, M[j], |M[j]|, 0)
        {
          PairsStay(env, sha, full0, single0, full, single, j, M[j], |M[j]|, 0);
        }
      }
      EveryPairProcessed();
      ProcessedNoFails(env, sha, full, single);
      StoredEntered();
    }

    /** What is stored is entered at its head only, as far as the graph provides for it. */
    lemma StoredEntered()
      requires Valid()
      ensures AllProcessed(env, sha, full, single) ==> (AllEntered(env.g, single) <==> SecondsEntered(env))
      ensures SecondsEntered(env) || (Mirrored(env.g) && OneEntry(env)) ==> AllEntered(env.g, single)
    {
      hide AllListed, Injective, FullTable, EntryTable, AllProcessed, AllEntered, SecondsEntered,
           OneEntry, Mirrored, OnlyPruned;
      EnteredIff(env, sha, full, single);
      if Mirrored(env.g) && OneEntry(env) {
        OneEntryEnters(env);
      }
    }

    lemma EveryPairProcessed()
      requires Valid()
      requires forall i :: i in M ==> PairsDone(env, sha, full, single, i, M[i], |M[i]|, 0)
      ensures AllProcessed(env, sha, full, single)
    {
      hide FullTable, EntryTable, Injective, WellFormed, Processed, OnlyPruned;
      forall x: nat, y: nat | x < y < |env.g| && env.g[x].itype2 == env.g[y].itype2
        ensures Processed(env, sha, full, single, env.g[x].itype2, x, y)
      {
        var i := env.g[x].itype2;
        var u, v := PlacesOf(env.g, M, x, y);
        assert PairsDone(env, sha, full, single, i, M[i], |M[i]|, 0);
      }
    }

    /** FindSimilar on the tables of this matcher; one node is answered with all of its hash. */
    method FindSimilarNodes(query: Path) returns (answer: Answer)
      requires Valid() && query != [] && InGraph(env.g, query)
      ensures |query| == 1 ==>
                var all := NodesUpTo(env.g, env.g[query[0]].itype2, |env.g|);
                answer == if |all| >= 2 then OneNode(all) else KeyError
      ensures |query| > 1 ==> answer.Several? && Answered(env.g, full, query, answer.rows)
    {
      hide Injective, FullTable, EntryTable, WellFormed, Answered, NodesUpTo, OnlyPruned;
      assert Listed(env.g, M, env.g[query[0]].itype2, |env.g|);
      answer := FindSimilar(env, sha, M, full, query);
    }

    /** The whole analysis, for subgraphs of at least four blocks. */
    method Analyze() returns (raised: bool, picked: Picked<K>, result: seq<seq<Path>>)
      requires Valid()
      modifies this`full, this`single, searcher
      ensures Valid() && NoEmptyBuckets(single)
      ensures raised <==> SomeFails(env)
      ensures raised ==> SomeDeadSearch(env) && !TwinsGoOn(env)
      ensures !raised ==> AllProcessed(env, sha, full, single)
      ensures !raised ==>
                exists order :: Selected(single, picked, order, 4)
      ensures !raised ==> Instances(picked.normalized, result)
      ensures !raised ==> (AllEntered(env.g, single) <==> SecondsEntered(env))
      ensures !raised && (SecondsEntered(env) || (Mirrored(env.g) && OneEntry(env))) ==>
                AllEntered(env.g, picked.normalized)
    {
      hide AllListed, Injective, FullTable, EntryTable, WellFormed, LongestFirst, PickAll, Sized, OnlyPruned, SelectedInOrder,
           NoEmptyBuckets, AllProcessed, SomeFails, SomeDeadSearch, TwinsGoOn;
      hide AllEntered, SecondsEntered, OneEntry, Mirrored, Instances;
      picked, result := Picked(map[], []), [];
      raised := FindSubGraphs();
      EntryNoEmpty(env.g, single);
      if !raised {
        var sizes := SortByPathLen(single);
        picked := GetMatchedWellFormedFunctions(env.g, single, sizes, 4);
        result := CollectInstances(picked.normalized);
        ghost var order :| Selected(single, picked, order, 4);
        if AllEntered(env.g, single) {
          PickedEntered(env.g, single, order);
        }
      }
    }
  }
}

/** The search of bbgroup/bb_match.py as it is run, against its two descriptions. */
module Searching {
  import opened Wrappers
  import opened MatchGraph
  import opened Lockstep
  import opened Choices
  import opened GreedySearch

  class Searcher {
    const env: Env
    var freq: map<nat, Label>  // the hash that a frequency match writes into both nodes

    constructor (env: Env)
      ensures this.env == env && freq == map[]
    {
      this.env, freq := env, map[];
    }

    method Match(l: nat, m: nat, h: HashType) returns (matched: bool)
      requires l < |env.g| && m < |env.g|
      modifies this`freq
      ensures matched <==> exists tag :: AgreesBy(env, h, l, m, tag)
      ensures matched == Same(env, h, l, m)
      ensures matched <==> match h
                           case Itype1 => env.g[l].itype1 == env.g[m].itype1
                           case Itype2 => env.g[l].itype2 == env.g[m].itype2
                           case Freq => env.freqMatch(l, m)
      ensures matched && h == Freq ==> l in freq && freq[l] == env.freqHash(l, m)
    {
      match h
      case Itype1 =>
        matched := env.g[l].itype1 == env.g[m].itype1;
        assert matched ==> AgreesBy(env, h, l, m, env.g[l].itype1);
      case Itype2 =>
        matched := env.g[l].itype2 == env.g[m].itype2;
        assert matched ==> AgreesBy(env, h, l, m, env.g[l].itype2);
      case Freq =>
        matched := env.freqMatch(l, m);
        if matched {
          var hash := env.freqHash(l, m);
          freq := freq[l := hash][m := hash];
          assert AgreesBy(env, h, l, m, hash);
        }
    }

    /**
      `last` is the value that the loop variable has at the end, None when the loop never
      ran; the source then fails, because the variable was never bound.
     */
    method FindMatchInSuccs(l: nat, y: nat, h: HashType, s: Search, tmp: set<nat>)
      returns (matched: bool, last: Option<nat>, tmp2: set<nat>)
      requires WellFormed(env.g) && l < |env.g| && y < |env.g|
      modifies this`freq
      ensures last.None? <==> env.g[y].succs == []
      ensures var r := Scan(env, h, l, y, s.visited2, s.path2, env.g[y].succs);
              && tmp2 == tmp + r.1 && matched == r.0.Some?
              && (matched ==> last == r.0)
              && (matched && h == Freq ==> l in freq && freq[l] == env.freqHash(l, last.value))
      ensures matched ==> Eligible(env, s, y, l, last.value)
      ensures !matched ==> forall m, tag :: Eligible(env, s, y, l, m) ==> !AgreesBy(env, h, l, m, tag)
    {
      hide Eligible, AgreesBy, Scan;
      ScanMeans(env, h, l, y, s, env.g[y].succs);
      EligibleListed(env, s, y, l);
      matched, last, tmp2 := TrySuccs(l, y, h, s, tmp);
    }

    /** The loop over the successors. */
    method TrySuccs(l: nat, y: nat, h: HashType, s: Search, tmp: set<nat>)
      returns (matched: bool, last: Option<nat>, tmp2: set<nat>)
      requires WellFormed(env.g) && l < |env.g| && y < |env.g|
      modifies this`freq
      ensures last.None? <==> env.g[y].succs == []
      ensures var r := Scan(env, h, l, y, s.visited2, s.path2, env.g[y].succs);
              && tmp2 == tmp + r.1 && matched == r.0.Some?
              && (matched ==> last == r.0)
              && (matched && h == Freq ==> l in freq && freq[l] == env.freqHash(l, last.value))
    {
      hide Same, AgreesBy, Scan;
      matched, last, tmp2 := false, None, tmp;
      var succs := env.g[y].succs;
      ghost var r := Scan(env, h, l, y, s.visited2, s.path2, succs);
      ScanEnds(env, h, l, y, s.visited2, s.path2, succs);
      for i := 0 to |succs|
        invariant last.None? <==> i == 0
        invariant var rest := Scan(env, h, l, y, s.visited2, s.path2, succs[i..]);
                  r.0 == rest.0 && tmp + r.1 == tmp2 + rest.1
      {
        ScanStep(env, h, l, y, s.visited2, s.path2, succs, i);
        var m := succs[i];
        last := Some(m);
        if m !in s.visited2 && m != y && m !in s.path2 {
          tmp2 := tmp2 + {m};
          var same := Match(l, m, h);
          if same && l != m {
            matched := true;
            return;
          }
        }
      }
    }

    /** G[l][hashType], read after a match under that hash. */
    function HashOf(l: nat, h: HashType): Label
      requires l < |env.g| && (h == Freq ==> l in freq)
      reads this
    {
      match h
      case Itype1 => env.g[l].itype1
      case Itype2 => env.g[l].itype2
      case Freq => freq[l]
    }

    /** The three attempts, in the order of the source, each kind of hash after the other. */
    method FindPartner(l: nat, y: nat, s: Search)
      returns (raised: bool, partner: Option<(nat, Label)>, tmp2: set<nat>)
      requires WellFormed(env.g) && l < |env.g| && y < |env.g|
      modifies this`freq
      ensures raised <==> env.g[y].succs == []
      ensures var r := PartnerOf(env, l, y, s.visited2, s.path2);
              !raised ==> partner == r.0 && tmp2 == s.tmp2 + r.1
    {
      hide Scan, Eligible, AgreesBy;
      raised, partner, tmp2 := false, None, s.tmp2;
      var h := Itype1;
      var matched, m;
      matched, m, tmp2 := FindMatchInSuccs(l, y, h, s, tmp2);
      if m.None? {
        return true, None, tmp2;
      }
      if !matched {
        h := Itype2;
        matched, m, tmp2 := FindMatchInSuccs(l, y, h, s, tmp2);
      }
      if !matched {
        h := Freq;
        matched, m, tmp2 := FindMatchInSuccs(l, y, h, s, tmp2);
      }
      if matched {
        partner := Some((m.value, HashOf(l, h)));
      }
    }

    /** One successor l of x, where (x, y) is the pair at place i. */
    method TrySuccessor(l: nat, ghost i: nat, x: nat, y: nat, s: Search, ghost done: seq<nat>)
      returns (raised: bool, s': Search)
      requires WellFormed(env.g) && InStep(env, s.path1, s.path2, s.hashes)
      requires i < |s.path1| && s.path1[i] == x && s.path2[i] == y && Edge(env.g, x, l)
      requires l < |env.g| && QueueFrom(s, i + 1) && Midway(env, s, i, done) && Choosing(env, s, i, done)
      modifies this`freq
      ensures raised <==> env.g[y].succs == [] && !Skipped(s, x, l)
      ensures raised ==> SomeDeadEnd(env, s'.path1, s'.path2)
      ensures !raised ==> s' == AfterOne(env, s, x, y, l)
      ensures !raised ==> Midway(env, s', i, done + [l]) && Choosing(env, s', i, done + [l])
      ensures InStep(env, s'.path1, s'.path2, s'.hashes) && QueueFrom(s', i + 1)
      ensures s.path1 <= s'.path1 && s.path2 <= s'.path2
    {
      hide Midway, Agrees, SomeDeadEnd, PartnerOf, Choosing, IsBest, NoneFits;
      raised, s' := false, s;
      PartnerMeans(env, l, y, s);
      PartnerIsBest(env, l, y, s);
      ghost var tried := PartnerOf(env, l, y, s.visited2, s.path2).1;
      if l in s.visited1 || l == x || l in s.path1 {
        SkipStep(env, s, i, done, l);
        ChoosingSkip(env, s, i, done, l);
      } else {
        s' := s'.(visited1 := s.visited1 + {l});
        var partner, tmp2;
        raised, partner, tmp2 := FindPartner(l, y, s');
        if raised {
          RaisedAt(env, s, i, done, l);
          return;
        }
        s' := s'.(tmp2 := tmp2);
        if partner.None? {
          ChoosingVain(env, s, tried, i, done, l);
          VainStep(env, s, tmp2, i, done, l);
        } else {
          var (m, tag) := partner.value;
          InStepMore(env, s.path1, s.path2, s.hashes, i, l, m, tag);
          s' := s'.(path1 := s.path1 + [l], path2 := s.path2 + [m],
                    queue := s.queue + [(l, m)], hashes := s.hashes[l := tag],
                    visited2 := s.visited2 + {m});
          TakeStep(env, s, s', i, done, l, m);
          ChoosingTake(env, s, s', tried, i, done, l, m, tag);
        }
      }
    }

    /** All successors of the first node of the pair at place i. */
    method ExpandPair(ghost i: nat, x: nat, y: nat, s: Search) returns (raised: bool, s': Search)
      requires WellFormed(env.g) && InStep(env, s.path1, s.path2, s.hashes)
      requires i < |s.path1| && s.path1[i] == x && s.path2[i] == y && QueueFrom(s, i + 1)
      requires Marks(env, s.(tmp2 := {}), i, []) && Choosing(env, s.(tmp2 := {}), i, [])
      modifies this`freq
      ensures raised <==> StuckAt(env.g, s, x, y)
      ensures !raised ==> s' == AfterPair(env, s, x, y)
      ensures !raised ==>
                && Exhausted(env, s'.path1, s'.path2, i)
                && Marks(env, s'.(tmp2 := {}), i + 1, []) && Choosing(env, s'.(tmp2 := {}), i + 1, [])
      ensures raised ==> SomeDeadEnd(env, s'.path1, s'.path2)
      ensures InStep(env, s'.path1, s'.path2, s'.hashes) && QueueFrom(s', i + 1)
      ensures s.path1 <= s'.path1 && s.path2 <= s'.path2
    {
      hide InStep, QueueFrom, Midway, Marks, Exhausted, SomeDeadEnd, AfterOne, AfterAll, Choosing;
      raised, s' := false, s.(tmp2 := {});
      InStepBound(env, s.path1, s.path2, s.hashes);
      MidwayStart(env, s, i);
      QueueSame(s, s', i + 1);
      var succs := env.g[x].succs;
      ghost var s0 := s';
      NoneTried(env, s0, x, y, succs);
      for k := 0 to |succs|
        invariant InStep(env, s'.path1, s'.path2, s'.hashes) && QueueFrom(s', i + 1)
        invariant s.path1 <= s'.path1 && s.path2 <= s'.path2
        invariant Midway(env, s', i, succs[..k]) && Choosing(env, s', i, succs[..k])
        invariant !raised && s' == AfterAll(env, s0, x, y, succs[..k])
        invariant env.g[y].succs == [] ==> s' == s0 && forall l :: l in succs[..k] ==> Skipped(s, x, l)
      {
        AfterAllSnoc(env, s0, x, y, succs, k);
        SkippedSame(env, s', x, y, succs[k]);
        raised, s' := TrySuccessor(succs[k], i, x, y, s', succs[..k]);
        if raised {
          return;
        }
        assert succs[..k + 1] == succs[..k] + [succs[k]];
      }
      assert succs[..|succs|] == succs;
      MidwayEnd(env, s', i, succs);
      ChoosingPairEnd(env, s', i, succs);
      ghost var before := s';
      s' := s'.(visited2 := s'.visited2 + s'.tmp2);
      QueueSame(before, s', i + 1);
    }

    /**
      The search from a pair of nodes. The paths are in step, so the test for different
      lengths never succeeds. It raises exactly when the paths have come to a dead end, and
      otherwise it is exhaustive.
     */
    method SearchPair(a: nat, b: nat)
      returns (raised: bool, path1: seq<nat>, path2: seq<nat>, hashes: map<nat, Label>)
      requires WellFormed(env.g) && a < |env.g| && b < |env.g|
      modifies this`freq
      ensures InStep(env, path1, path2, hashes)
      ensures path1[0] == a && path2[0] == b
      ensures !raised ==> forall i :: 0 <= i < |path1| ==> Exhausted(env, path1, path2, i)
      ensures raised <==> SomeDeadEnd(env, path1, path2)
      ensures raised <==> Fails(env, a, b)
      ensures !raised ==> a in hashes && hashes[a] == env.g[a].itype2
      ensures !raised ==> EndsWith(env, a, b, path1, path2, hashes) && WellChosen(env, path1, path2, hashes)
    {
      hide InStep, QueueFrom, Marks, Exhausted, SomeDeadEnd, AfterPair, Stuck, StuckAt, After, Choosing,
           WellChosen;
      raised := false;
      var s := Search([a], [b], [(a, b)], map[a := env.g[a].itype2], {}, {}, {});
      InStepStart(env, a, b, env.g[a].itype2);
      QueueStart(s, a, b);
      NoMarks(env, s);
      ghost var i := 0;
      AfterStart(env, a, b);
      ChoosingStart(env, s);
      ChoosingSame(env, s, s.(tmp2 := {}), 0, []);
      while s.queue != []
        invariant !raised && s == After(env, a, b, i)
        invariant forall j :: 0 <= j < i ==> !Stuck(env, After(env, a, b, j))
        invariant InStep(env, s.path1, s.path2, s.hashes) && QueueFrom(s, i)
        invariant [a] <= s.path1 && [b] <= s.path2
        invariant Marks(env, s.(tmp2 := {}), i, []) && Choosing(env, s.(tmp2 := {}), i, [])
        invariant forall j :: 0 <= j < i ==> Exhausted(env, s.path1, s.path2, j)
        decreases |env.g| - i
      {
        var (x, y) := s.queue[0];
        QueuePop(s, i);
        InStepBound(env, s.path1, s.path2, s.hashes);
        StuckNext(env, s);
        AfterNext(env, a, b, i);
        PopMarks(env, s, s.queue[1..], i);
        ChoosingSame(env, s.(tmp2 := {}), s.(queue := s.queue[1..]).(tmp2 := {}), i, []);
        s := s.(queue := s.queue[1..]);
        ghost var before := s;
        raised, s := ExpandPair(i, x, y, s);
        if raised {
          InStepBound(env, s.path1, s.path2, s.hashes);
          break;
        }
        AllExhaustedMore(env, before.path1, before.path2, s.path1, s.path2, i);
        i := i + 1;
      }
      QueueDone(s, i);
      InStepBound(env, s.path1, s.path2, s.hashes);
      if !raised {
        NoDeadEnd(env, s.path1, s.path2);
        NeverStuck(env, a, b, i);
        ChoosingEnd(env, s.(tmp2 := {}), i);
        HeadStays(env, a, b, i);
        assert EndsAfter(env, a, b, i, s.path1, s.path2, s.hashes);
      }
      path1, path2, hashes := s.path1, s.path2, s.hashes;
    }
  }
}

/** FindSimilar: the places where a selection of nodes occurs again. */
module Similar {
  import opened Seqs
  import opened MatchGraph
  import opened Lockstep
  import opened Pruning
  import opened PathTables

  datatype Answer = OneNode(nodes: seq<nat>) | Several(rows: seq<Path>) | KeyError

  /** The nodes of w at the places where m has the nodes of the query. */
  function Project(w: Path, m: Path, query: Path): (r: Path)
    requires |w| == |m| && forall k :: 0 <= k < |query| ==> query[k] in m
    ensures |r| == |query|
    ensures forall k :: 0 <= k < |query| ==> r[k] == w[IndexOf(m, query[k])]
  {
    seq(|query|, k requires 0 <= k < |query| => w[IndexOf(m, query[k])])
  }

  lemma ProjectSelf(m: Path, query: Path)
    requires forall k :: 0 <= k < |query| ==> query[k] in m
    ensures Project(m, m, query) == query
  {
  }

  /** m is a path of a bucket from which the query can be read off, starting at head. */
  ghost predicate Hit(rows: seq<Path>, head: nat, query: Path, m: Path) {
    && m in rows && m != [] && m[0] == head && |query| <= |rows[0]|
    && forall k :: 0 <= k < |query| ==> query[k] in m
  }

  ghost predicate SameLengths(rows: seq<Path>) {
    rows != [] && forall r :: 0 <= r < |rows| ==> |rows[r]| == |rows[0]| >= 1
  }

  /** Row r was read off path w of a bucket that also holds the hit m. */
  ghost predicate ReadOff(rows: seq<Path>, head: nat, query: Path, r: Path, m: Path, w: Path) {
    Hit(rows, head, query, m) && w in rows && |w| == |m| && r == Project(w, m, query)
  }

  /** r comes from some bucket of the table under the hash of some node of the query. */
  ghost predicate Justifies<K>(g: Graph, t: Table<K>, query: Path, r: Path, h: nat, a: K, m: Path, w: Path) {
    && h in query && h < |g| && g[h].itype2 in t && a in t[g[h].itype2]
    && ReadOff(t[g[h].itype2][a], h, query, r, m, w)
  }

  ghost predicate FromTable<K(!new)>(g: Graph, t: Table<K>, query: Path, result: seq<Path>) {
    && NoRepeats(result)
    && (result != [] ==> query in result)
    && forall r :: r in result ==> Read(g, t, query, r)
  }

  ghost predicate Read<K(!new)>(g: Graph, t: Table<K>, query: Path, r: Path) {
    exists h: nat, a, m, w :: Justifies(g, t, query, r, h, a, m, w)
  }

  /** No bucket under the hash of head holds a hit. */
  ghost predicate NoHit<K(!new)>(g: Graph, t: Table<K>, query: Path, head: nat)
    requires head < |g|
  {
    forall a, m :: g[head].itype2 in t && a in t[g[head].itype2] ==>
      !Hit(t[g[head].itype2][a], head, query, m)
  }

  /** What every path of the bucket shows at the places of the hit m is in the result. */
  ghost predicate AllRead(rows: seq<Path>, head: nat, query: Path, m: Path, result: seq<Path>) {
    && Hit(rows, head, query, m)
    && forall w :: w in rows && |w| == |m| ==> Project(w, m, query) in result
  }

  /** A bucket with a hit has been read in full from one of its hits. */
  ghost predicate BucketRead(rows: seq<Path>, head: nat, query: Path, result: seq<Path>) {
    forall m :: Hit(rows, head, query, m) ==> exists n :: AllRead(rows, head, query, n, result)
  }

  lemma BucketReadMore(rows: seq<Path>, head: nat, query: Path, result: seq<Path>, result': seq<Path>)
    requires BucketRead(rows, head, query, result) && forall r :: r in result ==> r in result'
    ensures BucketRead(rows, head, query, result')
  {
    if m :| Hit(rows, head, query, m) {
      var n :| AllRead(rows, head, query, n, result);
      assert AllRead(rows, head, query, n, result');
    }
  }

  /** Every bucket under the hash of head has been read. */
  ghost predicate HashRead<K(!new)>(g: Graph, t: Table<K>, query: Path, head: nat, result: seq<Path>)
    requires head < |g|
  {
    forall a :: g[head].itype2 in t && a in t[g[head].itype2] ==>
      BucketRead(t[g[head].itype2][a], head, query, result)
  }

  /**
    Rows read off the table; none exactly when no node of the query heads a hit, and
    otherwise all that the buckets of the first such node show.
   */
  ghost predicate Answered<K(!new)>(g: Graph, t: Table<K>, query: Path, rows: seq<Path>)
    requires InGraph(g, query)
  {
    && FromTable(g, t, query, rows)
    && (rows == [] <==> forall k :: 0 <= k < |query| ==> NoHit(g, t, query, query[k]))
    && (rows != [] ==>
          exists k :: (0 <= k < |query| && HashRead(g, t, query, query[k], rows) &&
                       forall j :: 0 <= j < k ==> NoHit(g, t, query, query[j])))
  }

  /** Append what the paths of one bucket show at the places of a hit. */
  method ReadRows<K(==, !new)>(
    g: Graph, t: Table<K>, query: Path, h: nat, a: K, m: Path, result: seq<Path>)
    returns (result': seq<Path>)
    requires h in query && h < |g| && g[h].itype2 in t && a in t[g[h].itype2]
    requires SameLengths(t[g[h].itype2][a]) && Hit(t[g[h].itype2][a], h, query, m)
    requires FromTable(g, t, query, result)
    ensures FromTable(g, t, query, result') && result' != [] && result <= result'
    ensures AllRead(t[g[h].itype2][a], h, query, m, result')
  {
    hide NoRepeats, Read;
    var rows := t[g[h].itype2][a];
    result' := result;
    var hit :| 0 <= hit < |rows| && rows[hit] == m;
    ProjectSelf(m, query);
    for k := 0 to |rows|
      invariant NoRepeats(result')
      invariant result <= result'
      invariant forall n :: 0 <= n < k ==> Project(rows[n], m, query) in result'
      invariant forall r :: r in result' ==> Read(g, t, query, r)
      invariant k > hit ==> query in result'
    {
      var subset := Project(rows[k], m, query);
      RowRead(g, t, query, h, a, m, rows[k]);
      if subset !in result' {
        NoRepeatsSnoc(result', subset);
        result' := result' + [subset];
      }
    }
  }

  lemma RowRead<K(!new)>(g: Graph, t: Table<K>, query: Path, h: nat, a: K, m: Path, w: Path)
    requires h in query && h < |g| && g[h].itype2 in t && a in t[g[h].itype2]
    requires Hit(t[g[h].itype2][a], h, query, m) && w in t[g[h].itype2][a] && |w| == |m|
    ensures Read(g, t, query, Project(w, m, query))
  {
    var rows, r := t[g[h].itype2][a], Project(w, m, query);
    assert ReadOff(rows, h, query, r, m, w);
    assert Justifies(g, t, query, r, h, a, m, w);
  }

  /** One bucket: only its first hit is used. */
  method SearchBucket<K(==, !new)>(
    g: Graph, t: Table<K>, query: Path, h: nat, a: K, result: seq<Path>)
    returns (result': seq<Path>, found: bool)
    requires h in query && h < |g| && g[h].itype2 in t && a in t[g[h].itype2]
    requires SameLengths(t[g[h].itype2][a]) && FromTable(g, t, query, result)
    ensures FromTable(g, t, query, result') && result <= result'
    ensures !found ==> result' == result && forall m :: !Hit(t[g[h].itype2][a], h, query, m)
    ensures found ==> result' != [] && exists m :: AllRead(t[g[h].itype2][a], h, query, m, result')
  {
    hide FromTable, AllRead, Project;
    var rows := t[g[h].itype2][a];
    result', found := result, false;
    if |query| <= |rows[0]| {
      for k := 0 to |rows|
        invariant forall r :: 0 <= r < k ==> !Hit(rows, h, query, rows[r])
      {
        if h == rows[k][0] && Elems(query) <= Elems(rows[k]) {
          forall n | 0 <= n < |query|
            ensures query[n] in rows[k]
          {
            assert query[n] in Elems(query);
          }
          result' := ReadRows(g, t, query, h, a, rows[k], result);
          return result', true;
        }
        assert !Hit(rows, h, query, rows[k]) by {
          NotHit(rows, h, query, rows[k]);
        }
      }
    }
  }

  lemma NotHit(rows: seq<Path>, head: nat, query: Path, m: Path)
    requires m != [] && !(m[0] == head && Elems(query) <= Elems(m))
    ensures !Hit(rows, head, query, m)
  {
    if forall k :: 0 <= k < |query| ==> query[k] in m {
      forall x | x in Elems(query)
        ensures x in Elems(m)
      {
        var k :| 0 <= k < |query| && query[k] == x;
      }
    }
  }

  /** Every bucket under the hash of one node of the query, in any order. */
  method SearchHash<K(==, !new)>(g: Graph, t: Table<K>, query: Path, h: nat)
    returns (result: seq<Path>)
    requires h in query && h < |g|
    requires forall a :: g[h].itype2 in t && a in t[g[h].itype2] ==> SameLengths(t[g[h].itype2][a])
    ensures FromTable(g, t, query, result)
    ensures result == [] <==> NoHit(g, t, query, h)
    ensures HashRead(g, t, query, h, result)
  {
    hide SameLengths, Hit, FromTable, BucketRead;
    EmptyFromTable(g, t, query);
    result := [];
    var x := g[h].itype2;
    if x !in t {
      return;
    }
    var left := t[x].Keys;
    ghost var hit := false;
    while left != {}
      invariant left <= t[x].Keys && FromTable(g, t, query, result)
      invariant hit <==> result != []
      invariant !hit ==> forall a, m :: a in t[x] && a !in left ==> !Hit(t[x][a], h, query, m)
      invariant hit ==> exists a, m :: a in t[x] && Hit(t[x][a], h, query, m)
      invariant forall a :: a in t[x] && a !in left ==> BucketRead(t[x][a], h, query, result)
      decreases left
    {
      var a :| a in left;
      left := left - {a};
      var found;
      ghost var before := result;
      result, found := SearchBucket(g, t, query, h, a, result);
      BucketDone(t[x][a], h, query, result, found);
      forall b | b in t[x] && b !in left && b != a
        ensures BucketRead(t[x][b], h, query, result)
      {
        BucketReadMore(t[x][b], h, query, before, result);
      }
      hit := hit || found;
    }
  }

  lemma BucketDone(rows: seq<Path>, head: nat, query: Path, result: seq<Path>, found: bool)
    requires !found ==> forall m :: !Hit(rows, head, query, m)
    requires found ==> exists m :: AllRead(rows, head, query, m, result)
    ensures BucketRead(rows, head, query, result)
    ensures found ==> exists m :: Hit(rows, head, query, m)
  {
    if found {
      var m :| AllRead(rows, head, query, m, result);
    }
  }

  /** Buckets of a full table hold paths of one length, so that projecting never overruns. */
  lemma FullSameLengths<K(!new)>(env: Env, sha: string -> K, t: Table<K>, x: Label, a: K)
    requires FullTable(env, sha, t) && x in t && a in t[x]
    ensures SameLengths(t[x][a])
  {
    var ls :| FullBucket(env, sha, x, a, t[x][a], ls);
    var rows := t[x][a];
    forall r | 0 <= r < |rows|
      ensures |rows[r]| == |rows[0]| >= 1
    {
      assert GoodPath(env.g, x, rows[r]) && GoodPath(env.g, x, rows[0]);
    }
  }

  /**
    FindSimilar under itype2 hashes. For one node: the list of its hash, if there is one.
    For several: nothing when no node of the query heads a hit; otherwise rows without
    repeats, the query among them, each read off a path at the places of a hit, and
    all that the buckets of the first such node show is there.
   */
  method FindSimilar<K(==, !new)>(
    env: Env, ghost sha: string -> K, M: map<Label, seq<nat>>, full: Table<K>, query: Path)
    returns (answer: Answer)
    requires FullTable(env, sha, full) && query != [] && InGraph(env.g, query)
    ensures |query| == 1 ==>
              var x := env.g[query[0]].itype2;
              answer == if x in M then OneNode(M[x]) else KeyError
    ensures |query| > 1 ==> answer.Several? && Answered(env.g, full, query, answer.rows)
  {
    hide FullTable, FromTable, NoHit, SameLengths, HashRead;
    if |query| == 1 {
      var x := env.g[query[0]].itype2;
      return if x in M then OneNode(M[x]) else KeyError;
    }
    EmptyFromTable(env.g, full, query);
    for k := 0 to |query|
      invariant forall j :: 0 <= j < k ==> NoHit(env.g, full, query, query[j])
    {
      var h := query[k];
      forall a | env.g[h].itype2 in full && a in full[env.g[h].itype2]
        ensures SameLengths(full[env.g[h].itype2][a])
      {
        FullSameLengths(env, sha, full, env.g[h].itype2, a);
      }
      var result := SearchHash(env.g, full, query, h);
      if |result| > 0 {
        return Several(result);
      }
    }
    answer := Several([]);
  }

  /** p can be read for the query: it starts at node h of the query and has all its nodes. */
  ghost predicate Readable(g: Graph, query: Path, h: nat, p: Path) {
    p != [] && p[0] == h && forall k :: 0 <= k < |query| ==> query[k] in p
  }

  /** m is such a path of a bucket under the hash of the k-th node of the query. */
  ghost predicate Candidate<K>(g: Graph, t: Table<K>, query: Path, k: nat, a: K, m: Path)
    requires InGraph(g, query)
  {
    && k < |query| && m in Rows(t, g[query[k]].itype2, a)
    && |query| <= |Rows(t, g[query[k]].itype2, a)[0]| && Readable(g, query, query[k], m)
  }

  /** r has, node by node, what w has at the places where m has the nodes of the query. */
  ghost predicate SamePlaces(query: Path, r: Path, m: Path, w: Path) {
    |r| == |query| && forall k :: 0 <= k < |query| ==> Opposite(m, query[k], w, r[k])
  }

  /** Where x stands first in m, there y stands in w. */
  ghost predicate Opposite(m: Path, x: nat, w: Path, y: nat) {
    exists i :: 0 <= i < |m| && i < |w| && m[i] == x && x !in m[..i] && w[i] == y
  }

  /** What an answer is, in terms of the paths of the table. */
  lemma AnswerMeans<K(!new)>(g: Graph, t: Table<K>, query: Path, rows: seq<Path>)
    requires InGraph(g, query) && Answered(g, t, query, rows)
    ensures forall r :: r in rows ==>
              exists k, a, m, w :: 0 <= k < |query| && m in Rows(t, g[query[k]].itype2, a) &&
                w in Rows(t, g[query[k]].itype2, a) &&
                Readable(g, query, query[k], m) && SamePlaces(query, r, m, w)
    ensures rows == [] <==> forall k: nat, a, m :: !Candidate(g, t, query, k, a, m)
  {
    hide HashRead;
    forall r | r in rows
      ensures exists k, a, m, w :: 0 <= k < |query| && m in Rows(t, g[query[k]].itype2, a) &&
                w in Rows(t, g[query[k]].itype2, a) &&
                Readable(g, query, query[k], m) && SamePlaces(query, r, m, w)
    {
      var h: nat, a, m, w :| Justifies(g, t, query, r, h, a, m, w);
      var k :| 0 <= k < |query| && query[k] == h;
      ProjectPlaces(query, m, w);
      assert m in Rows(t, g[query[k]].itype2, a) && w in Rows(t, g[query[k]].itype2, a);
    }
    if rows == [] {
      forall k: nat, a, m | k < |query| && m in Rows(t, g[query[k]].itype2, a)
        ensures !Candidate(g, t, query, k, a, m)
      {
        assert NoHit(g, t, query, query[k]);
        assert !Hit(t[g[query[k]].itype2][a], query[k], query, m);
      }
    } else {
      assert rows[0] in rows && Read(g, t, query, rows[0]);
      var h: nat, a, m, w :| Justifies(g, t, query, rows[0], h, a, m, w);
      var k :| 0 <= k < |query| && query[k] == h;
      assert Candidate(g, t, query, k, a, m);
    }
  }

  lemma ProjectPlaces(query: Path, m: Path, w: Path)
    requires |w| == |m| && forall k :: 0 <= k < |query| ==> query[k] in m
    ensures SamePlaces(query, Project(w, m, query), m, w)
  {
    var r := Project(w, m, query);
    forall k | 0 <= k < |query|
      ensures Opposite(m, query[k], w, r[k])
    {
      var i := IndexOf(m, query[k]);
      assert m[i] == query[k] && query[k] !in m[..i] && w[i] == r[k];
    }
  }

  lemma EmptyFromTable<K(!new)>(g: Graph, t: Table<K>, query: Path)
    ensures FromTable(g, t, query, [])
  {
  }
}

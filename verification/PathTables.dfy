/** The tables of matched paths, keyed by node hash and path digest. */
module PathTables {
  import opened Seqs
  import opened MatchGraph
  import opened Lockstep
  import opened Pruning

  type Path = seq<nat>
  type Table<!K> = map<Label, map<K, seq<Path>>>

  // ----- path digests ---------------------------------------------------------

  function Join(ls: seq<Label>): string {
    if ls == [] then "" else ls[0] + Join(ls[1..])
  }

  lemma {:induction false} JoinLength(ls: seq<Label>)
    ensures |Join(ls)| == DIGEST_WIDTH * |ls|
  {
    if ls != [] {
      JoinLength(ls[1..]);
    }
  }

  /** Hashes of one width can be told apart again after they have been joined. */
  lemma {:induction false} JoinInjective(a: seq<Label>, b: seq<Label>)
    requires Join(a) == Join(b)
    ensures a == b
  {
    JoinLength(a);
    JoinLength(b);
    if a != [] {
      assert Join(a)[..DIGEST_WIDTH] == a[0] && Join(a)[DIGEST_WIDTH..] == Join(a[1..]);
      assert Join(b)[..DIGEST_WIDTH] == b[0] && Join(b)[DIGEST_WIDTH..] == Join(b[1..]);
      JoinInjective(a[1..], b[1..]);
    }
  }

  /** The i-th hash stands at its place in the joined text. */
  lemma {:induction false} JoinAt(ls: seq<Label>, i: nat)
    requires i < |ls|
    ensures DIGEST_WIDTH * i + DIGEST_WIDTH <= |Join(ls)|
    ensures Join(ls)[DIGEST_WIDTH * i..DIGEST_WIDTH * i + DIGEST_WIDTH] == ls[i]
  {
    JoinLength(ls);
    if i > 0 {
      JoinAt(ls[1..], i - 1);
      var w, rest := DIGEST_WIDTH, Join(ls[1..]);
      assert Join(ls)[w * i..w * i + w] == rest[w * (i - 1)..w * (i - 1) + w];
    }
  }

  lemma {:induction false} JoinConcat(a: seq<Label>, b: seq<Label>)
    ensures Join(a + b) == Join(a) + Join(b)
  {
    if a == [] {
      assert a + b == b;
    } else {
      JoinConcat(a[1..], b);
      assert (a + b)[1..] == a[1..] + b;
    }
  }

  function Labels(p: Path, hashes: map<nat, Label>): (ls: seq<Label>)
    requires forall k :: 0 <= k < |p| ==> p[k] in hashes
    ensures |ls| == |p| && forall k :: 0 <= k < |p| ==> ls[k] == hashes[p[k]]
  {
    seq(|p|, k requires 0 <= k < |p| => hashes[p[k]])
  }

  ghost predicate Injective<K(!new)>(sha: string -> K) {
    forall s, t :: sha(s) == sha(t) ==> s == t
  }

  /** The digest under which a pair of paths is stored: that of the hashes of its nodes. */
  function FullDigest<K>(sha: string -> K, p1: Path, hashes: map<nat, Label>): K
    requires forall k :: 0 <= k < |p1| ==> p1[k] in hashes
  {
    sha(Join(Labels(p1, hashes)))
  }

  /** The digest of the pruned pair goes on from that of the full pair. */
  function CutDigest<K>(sha: string -> K, p1: Path, hashes: map<nat, Label>, n: nat): K
    requires n <= |p1| && forall k :: 0 <= k < |p1| ==> p1[k] in hashes
  {
    sha(Join(Labels(p1, hashes)) + Join(Labels(p1[..n], hashes)))
  }

  /** Pairs share a digest exactly when their nodes have the same hashes in the same order. */
  lemma FullDigestIff<K(!new)>(
    sha: string -> K, p: Path, hp: map<nat, Label>, q: Path, hq: map<nat, Label>)
    requires Injective(sha)
    requires forall k :: 0 <= k < |p| ==> p[k] in hp
    requires forall k :: 0 <= k < |q| ==> q[k] in hq
    ensures FullDigest(sha, p, hp) == FullDigest(sha, q, hq) <==>
              |p| == |q| && forall k :: 0 <= k < |p| ==> hp[p[k]] == hq[q[k]]
  {
    hide Join;
    if FullDigest(sha, p, hp) == FullDigest(sha, q, hq) {
      SameLabels(sha, Labels(p, hp), Labels(q, hq));
      forall k | 0 <= k < |p|
        ensures hp[p[k]] == hq[q[k]]
      {
        assert Labels(p, hp)[k] == Labels(q, hq)[k];
      }
    }
    if |p| == |q| && forall k :: 0 <= k < |p| ==> hp[p[k]] == hq[q[k]] {
      assert Labels(p, hp) == Labels(q, hq);
    }
  }

  /**
    Pruned pairs share a digest exactly when the hashes of the full path followed by those
    of its prefix are the same; the lengths need not be.
   */
  lemma CutDigestIff<K(!new)>(
    sha: string -> K, p: Path, hp: map<nat, Label>, m: nat, q: Path, hq: map<nat, Label>, n: nat)
    requires Injective(sha) && m <= |p| && n <= |q|
    requires forall k :: 0 <= k < |p| ==> p[k] in hp
    requires forall k :: 0 <= k < |q| ==> q[k] in hq
    ensures CutDigest(sha, p, hp, m) == CutDigest(sha, q, hq, n) <==>
              Labels(p + p[..m], hp) == Labels(q + q[..n], hq)
  {
    hide Join;
    JoinConcat(Labels(p, hp), Labels(p[..m], hp));
    JoinConcat(Labels(q, hq), Labels(q[..n], hq));
    assert Labels(p + p[..m], hp) == Labels(p, hp) + Labels(p[..m], hp);
    assert Labels(q + q[..n], hq) == Labels(q, hq) + Labels(q[..n], hq);
    if CutDigest(sha, p, hp, m) == CutDigest(sha, q, hq, n) {
      SameLabels(sha, Labels(p + p[..m], hp), Labels(q + q[..n], hq));
    }
  }

  /** text is made of the hashes of the blocks of p, in order, DIGEST_WIDTH characters each. */
  ghost predicate Spells(text: string, p: Path, hashes: map<nat, Label>) {
    && |text| == DIGEST_WIDTH * |p|
    && forall k :: 0 <= k < |p| ==>
         p[k] in hashes && text[DIGEST_WIDTH * k..DIGEST_WIDTH * k + DIGEST_WIDTH] == hashes[p[k]]
  }

  /** What is digested: the hashes of the path, and for a pruned pair those of the prefix after them. */
  lemma DigestTexts<K>(sha: string -> K, p: Path, hashes: map<nat, Label>, n: nat)
    returns (text: string, more: string)
    requires n <= |p| && forall k :: 0 <= k < |p| ==> p[k] in hashes
    ensures Spells(text, p, hashes) && FullDigest(sha, p, hashes) == sha(text)
    ensures Spells(more, p[..n], hashes) && CutDigest(sha, p, hashes, n) == sha(text + more)
  {
    text, more := Join(Labels(p, hashes)), Join(Labels(p[..n], hashes));
    JoinSpells(p, hashes);
    JoinSpells(p[..n], hashes);
  }

  lemma JoinSpells(p: Path, hashes: map<nat, Label>)
    requires forall k :: 0 <= k < |p| ==> p[k] in hashes
    ensures Spells(Join(Labels(p, hashes)), p, hashes)
  {
    hide Join;
    var ls := Labels(p, hashes);
    JoinLength(ls);
    forall k | 0 <= k < |p|
      ensures Join(ls)[DIGEST_WIDTH * k..DIGEST_WIDTH * k + DIGEST_WIDTH] == hashes[p[k]]
    {
      JoinAt(ls, k);
    }
  }

  // ----- storing a pair of paths ----------------------------------------------

  function Rows<K(==)>(t: Table<K>, i: Label, a: K): seq<Path> {
    if i in t && a in t[i] then t[i][a] else []
  }

  /** Each path is appended unless the bucket had it already. */
  function AddRows(rows: seq<Path>, p1: Path, p2: Path): seq<Path> {
    rows + (if p1 in rows then [] else [p1]) + (if p2 in rows then [] else [p2])
  }

  function Stored<K(==)>(t: Table<K>, i: Label, a: K, rows: seq<Path>): Table<K> {
    t[i := (if i in t then t[i] else map[])[a := rows]]
  }

  /** Storing: what was there stays in front, the first path comes before the second, nothing else changes. */
  lemma StoredMeans<K>(t: Table<K>, i: Label, a: K, p1: Path, p2: Path)
    ensures var t' := Stored(t, i, a, AddRows(Rows(t, i, a), p1, p2));
            var rows, rows' := Rows(t, i, a), Rows(t', i, a);
            && rows <= rows' && p1 in rows' && p2 in rows'
            && |rows'| == |rows| + (if p1 in rows then 0 else 1) + (if p2 in rows then 0 else 1)
            && (p1 !in rows ==> rows'[|rows|] == p1)
            && (forall j, b :: (j, b) != (i, a) ==> Rows(t', j, b) == Rows(t, j, b))
  {
    var rows := Rows(t, i, a);
    var t' := Stored(t, i, a, AddRows(rows, p1, p2));
    assert Rows(t', i, a) == AddRows(rows, p1, p2);
    assert p1 !in rows && p2 !in rows ==> AddRows(rows, p1, p2)[|rows| + 1] == p2;
  }

  method StoreRows<K(==)>(t: Table<K>, i: Label, a: K, p1: Path, p2: Path) returns (t': Table<K>)
    ensures t' == Stored(t, i, a, AddRows(Rows(t, i, a), p1, p2))
  {
    var rows := Rows(t, i, a);
    var duplicate1, duplicate2 := false, false;
    for k := 0 to |rows|
      invariant duplicate1 <==> p1 in rows[..k]
      invariant duplicate2 <==> p2 in rows[..k]
    {
      assert rows[..k + 1] == rows[..k] + [rows[k]];
      if p1 == rows[k] {
        duplicate1 := true;
      }
      if p2 == rows[k] {
        duplicate2 := true;
      }
    }
    assert rows[..|rows|] == rows;
    ghost var before := rows;
    if !duplicate1 {
      rows := rows + [p1];
    }
    if !duplicate2 {
      rows := rows + [p2];
    }
    assert rows == AddRows(before, p1, p2);
    t' := Stored(t, i, a, rows);
  }

  // ----- what the buckets hold ------------------------------------------------

  /** A path of a full bucket: its head carries the node hash of the bucket. */
  ghost predicate GoodPath(g: Graph, i: Label, p: Path) {
    |p| > 1 && NoRepeats(p) && InGraph(g, p) && g[p[0]].itype2 == i
  }

  ghost predicate GoodRows(g: Graph, i: Label, rows: seq<Path>, n: nat) {
    forall r :: 0 <= r < |rows| ==> GoodPath(g, i, rows[r]) && |rows[r]| == n
  }

  /** p and q were found in step, agreeing place by place on the hashes ls. */
  ghost predicate Found(env: Env, p: Path, q: Path, hashes: map<nat, Label>, ls: seq<Label>) {
    && InStep(env, p, q, hashes)
    && (forall k :: 0 <= k < |p| ==> p[k] in hashes) && Labels(p, hashes) == ls
  }

  ghost predicate Twins(env: Env, p: Path, q: Path, ls: seq<Label>) {
    exists hashes :: Found(env, p, q, hashes, ls) || Found(env, q, p, hashes, ls)
  }

  /** Every path of the bucket was found in step with another one of it. */
  ghost predicate Twinned(env: Env, rows: seq<Path>, ls: seq<Label>) {
    forall p :: p in rows ==> exists q :: q in rows && Twins(env, p, q, ls)
  }

  /**
    A full bucket: its digest is that of a list ls of node hashes, every path has as many
    nodes as ls, and the paths were matched with each other under ls.
   */
  ghost predicate FullBucket<K>(
    env: Env, sha: string -> K, i: Label, a: K, rows: seq<Path>, ls: seq<Label>)
  {
    && rows != [] && NoRepeats(rows) && sha(Join(ls)) == a
    && GoodRows(env.g, i, rows, |ls|) && Twinned(env, rows, ls)
  }

  ghost predicate FullTable<K(!new)>(env: Env, sha: string -> K, t: Table<K>) {
    forall i, a :: i in t && a in t[i] ==> exists ls :: FullBucket(env, sha, i, a, t[i][a], ls)
  }

  /** The first path of a bucket is entered only at its head. */
  ghost predicate EntryBucket(g: Graph, rows: seq<Path>) {
    && rows != [] && |rows[0]| > 1 && NoRepeats(rows[0])
    && InGraph(g, rows[0]) && SingleEntry(g, rows[0])
  }

  ghost predicate EntryTable<K(!new)>(g: Graph, t: Table<K>) {
    forall i, a :: i in t && a in t[i] ==> EntryBucket(g, t[i][a])
  }

  lemma AddFullRows<K(!new)>(
    env: Env, sha: string -> K, i: Label, a: K, rows: seq<Path>, p1: Path, p2: Path,
    hashes: map<nat, Label>, ls: seq<Label>)
    requires NoRepeats(rows)
    requires rows == [] || exists ms :: FullBucket(env, sha, i, a, rows, ms)
    requires Injective(sha) && a == sha(Join(ls)) && Found(env, p1, p2, hashes, ls)
    requires GoodPath(env.g, i, p1) && GoodPath(env.g, i, p2) && |p1| == |p2| == |ls| && p1 != p2
    ensures FullBucket(env, sha, i, a, AddRows(rows, p1, p2), ls)
  {
    hide Join, Injective, GoodPath, NoRepeats, AddRows, GoodRows, Found, Twinned;
    if rows == [] {
      NoRowsGood(env, i, ls);
    } else {
      var ms :| FullBucket(env, sha, i, a, rows, ms);
      SameLabels(sha, ls, ms);
    }
    AddRowsNoRepeats(rows, p1, p2);
    AddGoodRows(env.g, i, rows, |ls|, p1, p2);
    AddTwins(env, rows, p1, p2, hashes, ls);
  }

  lemma AddTwins(
    env: Env, rows: seq<Path>, p1: Path, p2: Path, hashes: map<nat, Label>, ls: seq<Label>)
    requires Twinned(env, rows, ls) && Found(env, p1, p2, hashes, ls)
    ensures Twinned(env, AddRows(rows, p1, p2), ls)
  {
    hide Found;
    var all := AddRows(rows, p1, p2);
    assert Twins(env, p1, p2, ls) && Twins(env, p2, p1, ls);
    assert p1 in all && p2 in all;
    forall p | p in all
      ensures exists q :: q in all && Twins(env, p, q, ls)
    {
      if p in rows {
        var q :| q in rows && Twins(env, p, q, ls);
        assert q in all;
      }
    }
  }

  lemma NoRowsGood(env: Env, i: Label, ls: seq<Label>)
    ensures GoodRows(env.g, i, [], |ls|) && Twinned(env, [], ls)
  {
  }

  lemma AddGoodRows(g: Graph, i: Label, rows: seq<Path>, n: nat, p1: Path, p2: Path)
    requires GoodRows(g, i, rows, n)
    requires GoodPath(g, i, p1) && GoodPath(g, i, p2) && |p1| == |p2| == n
    ensures GoodRows(g, i, AddRows(rows, p1, p2), n) && AddRows(rows, p1, p2) != []
  {
    hide GoodPath;
    var all := AddRows(rows, p1, p2);
    forall r | 0 <= r < |all|
      ensures GoodPath(g, i, all[r]) && |all[r]| == n
    {
      assert all[r] == p1 || all[r] == p2 || (r < |rows| && all[r] == rows[r]);
    }
  }

  lemma SameLabels<K(!new)>(sha: string -> K, ls: seq<Label>, ms: seq<Label>)
    requires Injective(sha) && sha(Join(ls)) == sha(Join(ms))
    ensures ls == ms
  {
    JoinInjective(ls, ms);
  }

  lemma AddRowsNoRepeats(rows: seq<Path>, p1: Path, p2: Path)
    requires NoRepeats(rows) && p1 != p2
    ensures NoRepeats(AddRows(rows, p1, p2))
  {
    var one := rows + (if p1 in rows then [] else [p1]);
    if p1 !in rows {
      NoRepeatsSnoc(rows, p1);
    }
    if p2 !in rows {
      NoRepeatsSnoc(one, p2);
    }
  }

  lemma StoreFull<K(!new)>(
    env: Env, sha: string -> K, t: Table<K>, i: Label, p1: Path, p2: Path,
    hashes: map<nat, Label>, ls: seq<Label>)
    requires FullTable(env, sha, t) && Injective(sha) && Found(env, p1, p2, hashes, ls)
    requires GoodPath(env.g, i, p1) && GoodPath(env.g, i, p2) && |p1| == |p2| == |ls| && p1 != p2
    ensures var a := sha(Join(ls));
            FullTable(env, sha, Stored(t, i, a, AddRows(Rows(t, i, a), p1, p2)))
  {
    var a := sha(Join(ls));
    RowsOfFull(env, sha, t, i, a);
    AddFullRows(env, sha, i, a, Rows(t, i, a), p1, p2, hashes, ls);
    hide FullBucket, AddRows, Join, Found, GoodPath, Injective;
  }

  lemma RowsOfFull<K(!new)>(env: Env, sha: string -> K, t: Table<K>, i: Label, a: K)
    requires FullTable(env, sha, t)
    ensures NoRepeats(Rows(t, i, a))
    ensures Rows(t, i, a) == [] || exists ms :: FullBucket(env, sha, i, a, Rows(t, i, a), ms)
  {
  }

  lemma StoreEntry<K(!new)>(g: Graph, t: Table<K>, i: Label, a: K, p1: Path, p2: Path)
    requires EntryTable(g, t)
    requires |p1| > 1 && NoRepeats(p1) && InGraph(g, p1) && SingleEntry(g, p1)
    ensures EntryTable(g, Stored(t, i, a, AddRows(Rows(t, i, a), p1, p2)))
  {
    var rows := Rows(t, i, a);
    assert rows != [] ==> AddRows(rows, p1, p2)[0] == rows[0];
  }

  /** In a full bucket every node at place k > 0 was matched under the k-th hash of the bucket. */
  lemma {:induction false} BucketAgrees<K(!new)>(
    env: Env, sha: string -> K, i: Label, a: K, rows: seq<Path>, ls: seq<Label>, p: Path, k: nat)
    returns (q: Path)
    requires FullBucket(env, sha, i, a, rows, ls) && p in rows && 0 < k < |ls|
    ensures q in rows && |p| == |q| == |ls| && p[k] < |env.g| && q[k] < |env.g|
    ensures Agrees(env, p[k], q[k], ls[k]) || Agrees(env, q[k], p[k], ls[k])
  {
    hide Found, GoodRows, NoRepeats, Join;
    q :| q in rows && Twins(env, p, q, ls);
    var hashes :| Found(env, p, q, hashes, ls) || Found(env, q, p, hashes, ls);
    if Found(env, p, q, hashes, ls) {
      FoundAgrees(env, p, q, hashes, ls, k);
    } else {
      FoundAgrees(env, q, p, hashes, ls, k);
    }
  }

  lemma FoundAgrees(
    env: Env, p: Path, q: Path, hashes: map<nat, Label>, ls: seq<Label>, k: nat)
    requires Found(env, p, q, hashes, ls) && 0 < k < |ls|
    ensures |p| == |q| == |ls| && p[k] < |env.g| && q[k] < |env.g|
    ensures Agrees(env, p[k], q[k], ls[k])
  {
    assert Justified(env, p, q, hashes, k);
  }
}

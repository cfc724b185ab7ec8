/** Sorting the buckets by path length and selecting instances from them, as values. */
module Selection {
  import opened Seqs
  import opened MatchGraph
  import opened Pruning
  import opened PathTables
  import opened Shelves

  /** All the nodes of row lie in one of the paths selected before. */
  predicate Covered(row: Path, moved: seq<Path>) {
    exists k :: 0 <= k < |moved| && Elems(row) <= Elems(moved[k])
  }

  function Uncovered(rows: seq<Path>, moved: seq<Path>): seq<Path> {
    if rows == [] then []
    else if Covered(rows[0], moved) then Uncovered(rows[1..], moved)
    else [rows[0]] + Uncovered(rows[1..], moved)
  }

  lemma {:induction false} UncoveredRows(rows: seq<Path>, moved: seq<Path>, r: Path)
    ensures r in Uncovered(rows, moved) <==> r in rows && !Covered(r, moved)
  {
    if rows != [] {
      UncoveredRows(rows[1..], moved, r);
    }
  }

  lemma {:induction false} UncoveredSnoc(rows: seq<Path>, moved: seq<Path>, k: nat)
    requires k < |rows|
    ensures Uncovered(rows[..k + 1], moved) ==
            Uncovered(rows[..k], moved) + (if Covered(rows[k], moved) then [] else [rows[k]])
  {
    if k == 0 {
      assert rows[..1] == [rows[0]];
    } else {
      UncoveredSnoc(rows[1..], moved, k - 1);
      assert rows[..k + 1][1..] == rows[1..][..k] && rows[..k][1..] == rows[1..][..k - 1];
    }
  }

  /** What is kept of a bucket: its uncovered paths, if there are two at least. */
  function Kept(rows: seq<Path>, moved: seq<Path>): seq<Path> {
    if |Uncovered(rows, moved)| < 2 then [] else Uncovered(rows, moved)
  }

  datatype Picked<!K> = Picked(normalized: Table<K>, moved: seq<Path>)

  /** The buckets taken in the given order. */
  function PickAll<K(==)>(t: Table<K>, order: seq<(Label, K)>): Picked<K> {
    if order == [] then Picked(map[], []) else
      var n := |order| - 1;
      var p, (x, y) := PickAll(t, order[..n]), order[n];
      var kept := Kept(Rows(t, x, y), p.moved);
      Picked(Stored(p.normalized, x, y, kept), p.moved + kept)
  }

  /** The paths kept of the bucket taken at place n. */
  function KeptAt<K(==)>(t: Table<K>, order: seq<(Label, K)>, n: nat): seq<Path>
    requires n < |order|
  {
    Kept(Rows(t, order[n].0, order[n].1), PickAll(t, order[..n]).moved)
  }

  lemma {:induction false} MovedHas<K>(t: Table<K>, order: seq<(Label, K)>, n: nat, m: Path)
    requires n < |order| && m in KeptAt(t, order, n)
    ensures m in PickAll(t, order).moved
  {
    var k := |order| - 1;
    if n < k {
      assert order[..k][..n] == order[..n];
      MovedHas(t, order[..k], n, m);
    }
  }

  /** No path kept later lies inside a path kept from an earlier bucket. */
  lemma LaterNotInside<K>(t: Table<K>, order: seq<(Label, K)>, s: nat, n: nat, m: Path, r: Path)
    requires s < n < |order| && m in KeptAt(t, order, s) && r in KeptAt(t, order, n)
    ensures !(Elems(r) <= Elems(m))
  {
    assert order[..n][..s] == order[..s];
    MovedHas(t, order[..n], s, m);
    var moved := PickAll(t, order[..n]).moved;
    UncoveredRows(Rows(t, order[n].0, order[n].1), moved, r);
    var k :| 0 <= k < |moved| && moved[k] == m;
    assert Elems(r) <= Elems(moved[k]) ==> Covered(r, moved);
  }

  // ----- the selection, said of its result ------------------------------------

  /** Every node of r lies in m. */
  ghost predicate Holding(m: Path, r: Path) {
    forall k :: 0 <= k < |r| ==> r[k] in m
  }

  /** Some path kept of a bucket taken before place n holds all the nodes of r. */
  ghost predicate HeldBefore<K(!new)>(norm: Table<K>, order: seq<(Label, K)>, n: nat, r: Path)
    requires n <= |order|
  {
    exists s, m :: 0 <= s < n && m in Rows(norm, order[s].0, order[s].1) && Holding(m, r)
  }

  /** Two places of the list hold paths that no earlier one holds. */
  ghost predicate TwoOpen<K(!new)>(
    norm: Table<K>, order: seq<(Label, K)>, n: nat, rows: seq<Path>)
    requires n <= |order|
  {
    exists i, j :: 0 <= i < j < |rows| &&
      !HeldBefore(norm, order, n, rows[i]) && !HeldBefore(norm, order, n, rows[j])
  }

  /**
    What is kept of the bucket at place n: the paths that no path kept before holds, in
    their order, unless there is only one such.
   */
  ghost predicate KeepsOpen<K(!new)>(t: Table<K>, norm: Table<K>, order: seq<(Label, K)>, n: nat)
    requires n < |order|
  {
    var rows, kept := Rows(t, order[n].0, order[n].1), Rows(norm, order[n].0, order[n].1);
    && (TwoOpen(norm, order, n, rows) ==>
          exists places :: Picks(rows, kept, places) &&
            forall i :: 0 <= i < |rows| ==> (i in places <==> !HeldBefore(norm, order, n, rows[i])))
    && (!TwoOpen(norm, order, n, rows) ==> kept == [])
  }

  /** kept is made of the elements of rows at the given places, which ascend. */
  ghost predicate Picks(rows: seq<Path>, kept: seq<Path>, places: seq<nat>) {
    && |kept| == |places|
    && (forall k :: 0 <= k < |places| ==> places[k] < |rows| && kept[k] == rows[places[k]])
    && (forall k, l :: 0 <= k < l < |places| ==> places[k] < places[l])
  }

  lemma CoveredMeans(r: Path, moved: seq<Path>)
    ensures Covered(r, moved) <==> exists m :: m in moved && Holding(m, r)
  {
    if m :| m in moved && Holding(m, r) {
      var k :| 0 <= k < |moved| && moved[k] == m;
      assert Elems(r) <= Elems(moved[k]);
    }
    if Covered(r, moved) {
      var k :| 0 <= k < |moved| && Elems(r) <= Elems(moved[k]);
      forall i | 0 <= i < |r|
        ensures r[i] in moved[k]
      {
        assert r[i] in Elems(r);
      }
      assert Holding(moved[k], r);
    }
  }

  /** Everything moved was kept at some place. */
  lemma {:induction false} MovedFrom<K>(t: Table<K>, order: seq<(Label, K)>, m: Path) returns (s: nat)
    requires m in PickAll(t, order).moved
    ensures s < |order| && m in KeptAt(t, order, s)
  {
    var k := |order| - 1;
    if m in KeptAt(t, order, k) {
      s := k;
    } else {
      s := MovedFrom(t, order[..k], m);
      assert order[..k][..s] == order[..s];
    }
  }

  lemma KeptInNormalized<K>(t: Table<K>, order: seq<(Label, K)>, s: nat)
    requires NoRepeats(order) && s < |order|
    ensures Rows(PickAll(t, order).normalized, order[s].0, order[s].1) == KeptAt(t, order, s)
  {
    NormalizedAt(t, order, s);
  }

  lemma CoveredIsHeld<K(!new)>(t: Table<K>, order: seq<(Label, K)>, n: nat, r: Path)
    requires NoRepeats(order) && n <= |order|
    ensures Covered(r, PickAll(t, order[..n]).moved) <==>
            HeldBefore(PickAll(t, order).normalized, order, n, r)
  {
    hide PickAll, KeptAt, Rows, Covered, Holding;
    var moved, norm := PickAll(t, order[..n]).moved, PickAll(t, order).normalized;
    CoveredMeans(r, moved);
    if m :| m in moved && Holding(m, r) {
      var s := MovedFrom(t, order[..n], m);
      SameKept(t, order, n, s);
      KeptInNormalized(t, order, s);
      assert order[..n][s] == order[s];
    }
    if HeldBefore(norm, order, n, r) {
      var s, m :| 0 <= s < n && m in Rows(norm, order[s].0, order[s].1) && Holding(m, r);
      KeptInNormalized(t, order, s);
      SameKept(t, order, n, s);
      MovedHas(t, order[..n], s, m);
    }
  }

  lemma SameKept<K>(t: Table<K>, order: seq<(Label, K)>, n: nat, s: nat)
    requires s < n <= |order|
    ensures KeptAt(t, order[..n], s) == KeptAt(t, order, s)
  {
    assert order[..n][..s] == order[..s];
  }

  /** The uncovered paths are picked in order. */
  lemma {:induction false} UncoveredPicks(rows: seq<Path>, moved: seq<Path>) returns (places: seq<nat>)
    ensures Picks(rows, Uncovered(rows, moved), places)
    ensures forall i :: 0 <= i < |rows| ==> (i in places <==> !Covered(rows[i], moved))
  {
    hide Covered;
    if rows == [] {
      places := [];
    } else {
      var n := |rows| - 1;
      places := UncoveredPicks(rows[..n], moved);
      UncoveredSnoc(rows, moved, n);
      assert rows[..n + 1] == rows;
      if !Covered(rows[n], moved) {
        places := places + [n];
      }
    }
  }

  lemma TwoPlaces(rows: seq<Path>, kept: seq<Path>, places: seq<nat>)
    requires Picks(rows, kept, places)
    ensures |kept| >= 2 <==> exists i, j :: 0 <= i < j < |rows| && i in places && j in places
  {
    if |kept| >= 2 {
      assert places[0] < places[1] && places[0] in places && places[1] in places;
    }
  }

  /** The selection keeps of every bucket what is not held by a path kept before. */
  lemma KeptExactly<K(!new)>(t: Table<K>, order: seq<(Label, K)>, n: nat)
    requires NoRepeats(order) && n < |order|
    ensures KeepsOpen(t, PickAll(t, order).normalized, order, n)
  {
    hide PickAll, Covered, Uncovered, HeldBefore, Rows, TwoOpen, Picks, KeepsOpen;
    var norm, moved := PickAll(t, order).normalized, PickAll(t, order[..n]).moved;
    var rows := Rows(t, order[n].0, order[n].1);
    KeptInNormalized(t, order, n);
    var places := UncoveredPicks(rows, moved);
    TwoPlaces(rows, Uncovered(rows, moved), places);
    forall i | 0 <= i < |rows|
      ensures Covered(rows[i], moved) <==> HeldBefore(norm, order, n, rows[i])
    {
      CoveredIsHeld(t, order, n, rows[i]);
    }
    OpenPlaces(norm, order, n, rows, places);
    KeepsPlaces(t, norm, order, n, Uncovered(rows, moved), places);
  }

  lemma KeepsPlaces<K(!new)>(
    t: Table<K>, norm: Table<K>, order: seq<(Label, K)>, n: nat, open: seq<Path>, places: seq<nat>)
    requires n < |order|
    requires var rows := Rows(t, order[n].0, order[n].1);
             && Picks(rows, open, places)
             && (forall i :: 0 <= i < |rows| ==> (i in places <==> !HeldBefore(norm, order, n, rows[i])))
             && (TwoOpen(norm, order, n, rows) <==> |open| >= 2)
    requires Rows(norm, order[n].0, order[n].1) == if |open| >= 2 then open else []
    ensures KeepsOpen(t, norm, order, n)
  {
    hide Rows, Picks, HeldBefore, TwoOpen;
  }

  lemma OpenPlaces<K(!new)>(
    norm: Table<K>, order: seq<(Label, K)>, n: nat, rows: seq<Path>, places: seq<nat>)
    requires n <= |order|
    requires forall i :: 0 <= i < |rows| ==> (i in places <==> !HeldBefore(norm, order, n, rows[i]))
    ensures TwoOpen(norm, order, n, rows) <==>
              exists i, j :: 0 <= i < j < |rows| && i in places && j in places
  {
    hide HeldBefore;
  }

  /** norm is what the selection in the given order makes of t. */
  ghost predicate SelectedInOrder<K(!new)>(t: Table<K>, norm: Table<K>, order: seq<(Label, K)>) {
    && (forall n :: 0 <= n < |order| ==> KeepsOpen(t, norm, order, n))
    && (forall x, y :: Rows(norm, x, y) != [] ==> (x, y) in order)
  }

  lemma {:induction false} NormalizedOnly<K>(t: Table<K>, order: seq<(Label, K)>, x: Label, y: K)
    requires (x, y) !in order
    ensures Rows(PickAll(t, order).normalized, x, y) == []
  {
    if order != [] {
      NormalizedOnly(t, order[..|order| - 1], x, y);
      assert order[|order| - 1] != (x, y);
    }
  }

  lemma PickedInOrder<K(!new)>(t: Table<K>, order: seq<(Label, K)>)
    requires NoRepeats(order)
    ensures SelectedInOrder(t, PickAll(t, order).normalized, order)
  {
    hide PickAll, KeepsOpen, Rows;
    forall n | 0 <= n < |order|
      ensures KeepsOpen(t, PickAll(t, order).normalized, order, n)
    {
      KeptExactly(t, order, n);
    }
    forall x, y | Rows(PickAll(t, order).normalized, x, y) != []
      ensures (x, y) in order
    {
      if (x, y) !in order {
        NormalizedOnly(t, order, x, y);
      }
    }
  }

  /** Nothing is asked of a path but that it is not covered and not left alone. */
  lemma KeptIff(rows: seq<Path>, moved: seq<Path>, r: Path)
    ensures r in Kept(rows, moved) <==>
              r in rows && !Covered(r, moved) && |Uncovered(rows, moved)| >= 2
  {
    hide Covered;
    UncoveredRows(rows, moved, r);
  }

  /** The entry of a bucket taken once is what was kept of it: nothing, or two paths or more. */
  lemma {:induction false} NormalizedAt<K>(t: Table<K>, order: seq<(Label, K)>, n: nat)
    requires NoRepeats(order) && n < |order|
    ensures Rows(PickAll(t, order).normalized, order[n].0, order[n].1) == KeptAt(t, order, n)
    ensures KeptAt(t, order, n) == [] || |KeptAt(t, order, n)| >= 2
  {
    var k := |order| - 1;
    if n < k {
      assert order[..k][..n] == order[..n];
      NormalizedAt(t, order[..k], n);
      assert order[n] != order[k];
    }
  }

  /** What is selected of a bucket was in it. */
  lemma {:induction false} PickedWithin<K>(t: Table<K>, order: seq<(Label, K)>, x: Label, y: K, r: Path)
    requires r in Rows(PickAll(t, order).normalized, x, y)
    ensures r in Rows(t, x, y)
  {
    if order != [] {
      var n := |order| - 1;
      if order[n] == (x, y) {
        KeptIff(Rows(t, x, y), PickAll(t, order[..n]).moved, r);
      } else {
        PickedWithin(t, order[..n], x, y, r);
      }
    }
  }

  /** Every path of the bucket that was not kept was covered, or too few were left. */
  lemma NotKept<K>(t: Table<K>, order: seq<(Label, K)>, n: nat, r: Path)
    requires n < |order| && r in Rows(t, order[n].0, order[n].1) && r !in KeptAt(t, order, n)
    ensures var moved := PickAll(t, order[..n]).moved;
            Covered(r, moved) || |Uncovered(Rows(t, order[n].0, order[n].1), moved)| == 1
  {
    UncoveredRows(Rows(t, order[n].0, order[n].1), PickAll(t, order[..n]).moved, r);
  }

  // ----- the external-jump test -----------------------------------------------

  method SubgraphHasExternalJumpsIntoIt(g: Graph, p: Path) returns (jumps: bool)
    requires InGraph(g, p)
    ensures jumps <==> !SingleEntry(g, p)
  {
    var i := 1;
    while i < |p|
      invariant 1 <= i
      invariant forall k :: 0 < k < i && k < |p| ==> Inside(g[p[k]].preds, p)
    {
      if !Inside(g[p[i]].preds, p) {
        return true;
      }
      i := i + 1;
    }
    jumps := false;
  }

  // ----- the length table -----------------------------------------------------

  type SizeDic<!K> = map<nat, seq<(Label, K)>>

  ghost predicate NoEmptyBuckets<K(!new)>(t: Table<K>) {
    forall x, y :: x in t && y in t[x] ==> t[x][y] != []
  }

  /** The length of the first path of each bucket. */
  ghost function Lengths<K(!new)>(t: Table<K>): map<(Label, K), nat>
    requires NoEmptyBuckets(t)
  {
    map x, y | x in t && y in t[x] :: (x, y) := |t[x][y][0]|
  }

  /** Every bucket is listed once, under the length of its first path, and nothing else is. */
  ghost predicate Sized<K(!new)>(t: Table<K>, d: SizeDic<K>)
    requires NoEmptyBuckets(t)
  {
    Good(Shelf(d, Lengths(t))) && NoneEmpty(Shelf(d, Lengths(t)), {})
  }

  /** The table while the buckets of `todo` are still to be listed. */
  ghost predicate SizedBut<K(!new)>(
    t: Table<K>, sh: Shelf<nat, (Label, K)>, todo: set<(Label, K)>)
    requires NoEmptyBuckets(t)
  {
    && Good(sh) && NoneEmpty(sh, {})
    && sh.at == Lengths(t) - todo && todo <= Lengths(t).Keys
  }

  lemma SizedStep<K(!new)>(
    t: Table<K>, sh: Shelf<nat, (Label, K)>, sh': Shelf<nat, (Label, K)>,
    todo: set<(Label, K)>, b: (Label, K))
    requires NoEmptyBuckets(t) && SizedBut(t, sh, todo) && b in todo
    requires Good(sh') && NoneEmpty(sh', {}) && sh'.at == sh.at[b := Lengths(t)[b]]
    ensures SizedBut(t, sh', todo - {b})
  {
    hide Lengths;
    assert Lengths(t) - (todo - {b}) == (Lengths(t) - todo)[b := Lengths(t)[b]];
  }

  lemma SizedEnd<K(!new)>(t: Table<K>, sh: Shelf<nat, (Label, K)>)
    requires NoEmptyBuckets(t) && SizedBut(t, sh, {})
    ensures Sized(t, sh.lists)
  {
    assert sh.at == Lengths(t);
    assert sh == Shelf(sh.lists, Lengths(t));
  }

  /** The buckets whose hash is in left, or is x with a digest in keys. */
  ghost function Todo<K(!new)>(t: Table<K>, left: set<Label>, x: Label, keys: set<K>): set<(Label, K)>
    requires NoEmptyBuckets(t)
  {
    set b | b in Lengths(t).Keys && (b.0 in left || (b.0 == x && b.1 in keys))
  }

  lemma TodoStep<K(!new)>(t: Table<K>, left: set<Label>, x: Label, keys: set<K>, k: K)
    requires NoEmptyBuckets(t) && x in t && k in t[x] && k in keys && x !in left
    ensures (x, k) in Todo(t, left, x, keys) && Lengths(t)[(x, k)] == |t[x][k][0]|
    ensures Todo(t, left, x, keys - {k}) == Todo(t, left, x, keys) - {(x, k)}
  {
  }

  /** One bucket goes to the end of the list of its length. */
  method ListBucket<K(==, !new)>(d: SizeDic<K>, b: (Label, K), a: nat, ghost sh: Shelf<nat, (Label, K)>)
    returns (d': SizeDic<K>, ghost sh': Shelf<nat, (Label, K)>)
    requires Good(sh) && NoneEmpty(sh, {}) && sh.lists == d && b !in sh.at
    ensures Good(sh') && NoneEmpty(sh', {}) && sh'.lists == d' && sh'.at == sh.at[b := a]
  {
    d', sh' := d, sh;
    if a !in d' {
      NewKeyGood(sh, a);
      d' := d'[a := []];
      sh' := NewKey(sh, a);
    }
    PutFills(sh', a, b);
    d' := d'[a := d'[a] + [b]];
    sh' := Put(sh', a, b);
  }

  method ListHash<K(==, !new)>(
    t: Table<K>, x: Label, ghost left: set<Label>, d: SizeDic<K>, ghost sh: Shelf<nat, (Label, K)>)
    returns (d': SizeDic<K>, ghost sh': Shelf<nat, (Label, K)>)
    requires NoEmptyBuckets(t) && x in t && x !in left && sh.lists == d
    requires SizedBut(t, sh, Todo(t, left, x, t[x].Keys))
    ensures SizedBut(t, sh', Todo(t, left, x, {})) && sh'.lists == d'
  {
    hide Todo, Lengths, NoEmptyBuckets;
    d', sh' := d, sh;
    var keys := t[x].Keys;
    while keys != {}
      invariant keys <= t[x].Keys && sh'.lists == d'
      invariant SizedBut(t, sh', Todo(t, left, x, keys))
      decreases keys
    {
      var k :| k in keys;
      TodoStep(t, left, x, keys, k);
      FirstOf(t, x, k);
      ghost var before := sh';
      d', sh' := ListBucket(d', (x, k), |t[x][k][0]|, sh');
      SizedStep(t, before, sh', Todo(t, left, x, keys), (x, k));
      keys := keys - {k};
    }
  }

  lemma FirstOf<K(!new)>(t: Table<K>, x: Label, k: K)
    requires NoEmptyBuckets(t) && x in t && k in t[x]
    ensures t[x][k] != []
  {
  }

  lemma TodoHash<K(!new)>(t: Table<K>, left: set<Label>, x: Label, y: Label)
    requires NoEmptyBuckets(t) && x in t && x in left
    ensures Todo(t, left, y, {}) == Todo(t, left - {x}, x, t[x].Keys)
    ensures Todo(t, left - {x}, x, {}) == Todo(t, left - {x}, y, {})
  {
  }

  lemma TodoAll<K(!new)>(t: Table<K>, x: Label)
    requires NoEmptyBuckets(t)
    ensures Todo(t, t.Keys, x, {}) == Lengths(t).Keys && Todo(t, {}, x, {}) == {}
  {
  }

  lemma NothingListed<K(!new)>(t: Table<K>, sh: Shelf<nat, (Label, K)>)
    requires NoEmptyBuckets(t) && sh == Shelf(map[], map[])
    ensures SizedBut(t, sh, Lengths(t).Keys)
  {
    hide Lengths;
    assert Lengths(t) - Lengths(t).Keys == map[];
  }

  method SortByPathLen<K(==, !new)>(t: Table<K>) returns (d: SizeDic<K>)
    requires NoEmptyBuckets(t)
    ensures Sized(t, d)
  {
    hide Todo, SizedBut, Sized, NoEmptyBuckets, Lengths;
    d := map[];
    ghost var sh: Shelf<nat, (Label, K)> := Shelf(map[], map[]);
    var left := t.Keys;
    ghost var any: Label := seq(DIGEST_WIDTH, _ => '0');
    TodoAll(t, any);
    NothingListed(t, sh);
    while left != {}
      invariant left <= t.Keys && sh.lists == d && SizedBut(t, sh, Todo(t, left, any, {}))
      decreases left
    {
      var x :| x in left;
      TodoHash(t, left, x, any);
      left := left - {x};
      d, sh := ListHash(t, x, left, d, sh);
    }
    SizedEnd(t, sh);
  }

  // ----- the selection --------------------------------------------------------

  /** The buckets of the lengths not below `floor`, longest first, each once. */
  ghost predicate LongestFirst<K(!new)>(t: Table<K>, order: seq<(Label, K)>, floor: nat)
    requires NoEmptyBuckets(t)
  {
    && NoRepeats(order)
    && (forall b :: b in Lengths(t) && Lengths(t)[b] >= floor ==> b in order)
    && (forall n :: 0 <= n < |order| ==> order[n] in Lengths(t) && Lengths(t)[order[n]] >= floor)
    && (forall m, n :: 0 <= m < n < |order| ==> Lengths(t)[order[m]] >= Lengths(t)[order[n]])
  }

  /** The buckets taken longest first, and what is kept of them. */
  ghost predicate Selected<K(!new)>(t: Table<K>, p: Picked<K>, order: seq<(Label, K)>, floor: nat)
    requires NoEmptyBuckets(t)
  {
    LongestFirst(t, order, floor) && p == PickAll(t, order) && SelectedInOrder(t, p.normalized, order)
  }

  method IsCovered(row: Path, moved: seq<Path>) returns (skip: bool)
    ensures skip <==> Covered(row, moved)
  {
    skip := false;
    for k := 0 to |moved|
      invariant skip <==> exists m :: 0 <= m < k && Elems(row) <= Elems(moved[m])
    {
      if Elems(row) <= Elems(moved[k]) {
        skip := true;
        break;
      }
    }
  }

  /** The body of the loop over the buckets of one length. */
  method PickBucket(g: Graph, rows: seq<Path>, moved: seq<Path>) returns (kept: seq<Path>)
    requires EntryBucket(g, rows)
    ensures kept == Kept(rows, moved)
  {
    var jumps := SubgraphHasExternalJumpsIntoIt(g, rows[0]);
    assert !jumps;  // the paths come from findSubGraphs
    kept := [];
    if jumps {
      return;
    }
    for k := 0 to |rows|
      invariant kept == Uncovered(rows[..k], moved)
    {
      UncoveredSnoc(rows, moved, k);
      var skip := IsCovered(rows[k], moved);
      if !skip {
        kept := kept + [rows[k]];
      }
    }
    assert rows[..|rows|] == rows;
    if |kept| < 2 {
      kept := [];
    }
  }

  method PickLength<K(==, !new)>(
    g: Graph, t: Table<K>, items: seq<(Label, K)>, p: Picked<K>, ghost order: seq<(Label, K)>)
    returns (p': Picked<K>)
    requires EntryTable(g, t) && p == PickAll(t, order)
    requires forall k :: 0 <= k < |items| ==> items[k].0 in t && items[k].1 in t[items[k].0]
    ensures p' == PickAll(t, order + items)
  {
    hide Kept, Stored, PickAll, EntryTable;
    p' := p;
    assert order + items[..0] == order;
    for k := 0 to |items|
      invariant p' == PickAll(t, order + items[..k])
    {
      var (x, y) := items[k];
      EntryAt(g, t, x, y);
      var kept := PickBucket(g, t[x][y], p'.moved);
      PickMore(t, order + items[..k], x, y);
      assert order + items[..k + 1] == order + items[..k] + [(x, y)];
      p' := Picked(Stored(p'.normalized, x, y, kept), p'.moved + kept);
    }
    assert items[..|items|] == items;
  }

  lemma EntryAt<K(!new)>(g: Graph, t: Table<K>, x: Label, y: K)
    requires EntryTable(g, t) && x in t && y in t[x]
    ensures EntryBucket(g, t[x][y]) && Rows(t, x, y) == t[x][y]
  {
  }

  lemma PickMore<K>(t: Table<K>, order: seq<(Label, K)>, x: Label, y: K)
    ensures var p := PickAll(t, order);
            var kept := Kept(Rows(t, x, y), p.moved);
            PickAll(t, order + [(x, y)]) == Picked(Stored(p.normalized, x, y, kept), p.moved + kept)
  {
    hide Kept, Stored, Rows;
    assert (order + [(x, y)])[..|order|] == order;
  }

  /** The order so far, when the lengths of `left` are still to come. */
  ghost predicate OrderBut<K(!new)>(len: map<(Label, K), nat>, order: seq<(Label, K)>, left: set<nat>) {
    && NoRepeats(order)
    && (forall b :: b in len && len[b] !in left ==> b in order)
    && (forall n :: 0 <= n < |order| ==>
          order[n] in len && forall k :: k in left ==> k < len[order[n]])
    && (forall m, n :: 0 <= m < n < |order| ==> len[order[m]] >= len[order[n]])
  }

  lemma OrderStart<K(!new)>(len: map<(Label, K), nat>, d: SizeDic<K>)
    requires Good(Shelf(d, len))
    ensures OrderBut(len, [], d.Keys)
  {
    forall b | b in len
      ensures len[b] in d.Keys
    {
      assert Shelf(d, len).at[b] in Shelf(d, len).lists;
    }
  }

  /** The next length: the greatest of those left. */
  lemma OrderStep<K(!new)>(
    len: map<(Label, K), nat>, d: SizeDic<K>, order: seq<(Label, K)>, left: set<nat>, a: nat)
    requires Good(Shelf(d, len)) && OrderBut(len, order, left)
    requires a in left && a in d && forall k :: k in left ==> k <= a
    ensures OrderBut(len, order + d[a], left - {a})
    ensures forall k :: 0 <= k < |d[a]| ==> d[a][k] in len
  {
    var sh, items := Shelf(d, len), d[a];
    forall k | 0 <= k < |items|
      ensures items[k] in len && len[items[k]] == a
    {
      assert items[k] in sh.lists[a];
    }
    forall b | b in order
      ensures b !in items
    {
      var n :| 0 <= n < |order| && order[n] == b;
      assert a < len[order[n]];
    }
    NoRepeatsConcat(order, items);
    var all, left' := order + items, left - {a};
    forall b | b in len && len[b] !in left'
      ensures b in all
    {
      if len[b] == a {
        assert b in sh.lists[sh.at[b]];
      }
    }
  }

  lemma OrderEnd<K(!new)>(t: Table<K>, order: seq<(Label, K)>, left: set<nat>, floor: nat)
    requires NoEmptyBuckets(t) && OrderBut(Lengths(t), order, left)
    requires forall k :: k in left ==> k < floor
    requires forall n :: 0 <= n < |order| ==> order[n] in Lengths(t) && Lengths(t)[order[n]] >= floor
    ensures LongestFirst(t, order, floor)
  {
  }

  method Greatest(s: set<nat>) returns (a: nat)
    requires s != {}
    ensures a in s && forall k :: k in s ==> k <= a
  {
    var left := s;
    assert (forall k: nat :: k !in left) ==> left == {};
    a :| a in left;
    left := left - {a};
    while left != {}
      invariant a in s && left <= s
      invariant forall k :: k in s ==> k in left || k <= a
      decreases left
    {
      assert (forall k: nat :: k !in left) ==> left == {};
      var k :| k in left;
      left := left - {k};
      if a < k {
        a := k;
      }
    }
  }

  /** The buckets of one length are at least `floor` long when that length is. */
  lemma FloorKept<K(!new)>(
    len: map<(Label, K), nat>, d: SizeDic<K>, order: seq<(Label, K)>, a: nat, floor: nat)
    requires Good(Shelf(d, len)) && a in d && floor <= a
    requires forall n :: 0 <= n < |order| ==> order[n] in len && len[order[n]] >= floor
    ensures forall n :: 0 <= n < |order + d[a]| ==>
              (order + d[a])[n] in len && len[(order + d[a])[n]] >= floor
  {
    var sh, all := Shelf(d, len), order + d[a];
    forall n | 0 <= n < |all|
      ensures all[n] in len && len[all[n]] >= floor
    {
      if n >= |order| {
        assert all[n] in sh.lists[a];
      }
    }
  }

  /**
    The selection takes the buckets longest first and never rejects one for jumps into it
    from outside.
   */
  method GetMatchedWellFormedFunctions<K(==, !new)>(g: Graph, t: Table<K>, d: SizeDic<K>, floor: nat)
    returns (p: Picked<K>)
    requires EntryTable(g, t) && NoEmptyBuckets(t) && Sized(t, d)
    ensures exists order :: Selected(t, p, order, floor)
  {
    hide EntryTable, NoEmptyBuckets, Lengths, LongestFirst, OrderBut, Good, NoneEmpty, PickAll, Selected;
    ghost var len, order: seq<(Label, K)> := Lengths(t), [];
    OrderStart(len, d);
    p := Picked(map[], []);
    NothingPicked(t);
    var left := d.Keys;
    while left != {}
      invariant left <= d.Keys && OrderBut(len, order, left)
      invariant p == PickAll(t, order)
      invariant forall n :: 0 <= n < |order| ==> order[n] in len && len[order[n]] >= floor
      decreases left
    {
      var a := Greatest(left);
      if a < floor {
        break;
      }
      OrderStep(len, d, order, left, a);
      FloorKept(len, d, order, a, floor);
      BucketsOf(t, d[a]);
      p := PickLength(g, t, d[a], p, order);
      order := order + d[a];
      left := left - {a};
    }
    OrderEnd(t, order, left, floor);
    LongestIsSelected(t, order, floor);
  }

  lemma LongestIsSelected<K(!new)>(t: Table<K>, order: seq<(Label, K)>, floor: nat)
    requires NoEmptyBuckets(t) && LongestFirst(t, order, floor)
    ensures Selected(t, PickAll(t, order), order, floor)
  {
    hide PickAll, SelectedInOrder, Lengths;
    PickedInOrder(t, order);
  }

  // ----- the list of instances ------------------------------------------------

  ghost predicate IsFilled<K>(t: Table<K>, b: (Label, K)) {
    b.0 in t && b.1 in t[b.0] && t[b.0][b.1] != []
  }

  /** The buckets of `order`, each once, with what they hold. */
  ghost predicate Holds<K(!new)>(t: Table<K>, order: seq<(Label, K)>, result: seq<seq<Path>>) {
    && NoRepeats(order) && |result| == |order|
    && forall n :: 0 <= n < |order| ==> IsFilled(t, order[n]) && result[n] == Rows(t, order[n].0, order[n].1)
  }

  /** Every bucket that is not empty is listed once, in some order. */
  ghost predicate Instances<K(!new)>(t: Table<K>, result: seq<seq<Path>>) {
    exists order :: Holds(t, order, result) && forall b :: IsFilled(t, b) ==> b in order
  }

  /** The buckets but for those of the hashes in left and those of x with a digest in keys. */
  ghost predicate Collected<K(!new)>(
    t: Table<K>, order: seq<(Label, K)>, left: set<Label>, x: Label, keys: set<K>)
  {
    forall b :: IsFilled(t, b) ==> (b in order <==> !(b.0 in left || (b.0 == x && b.1 in keys)))
  }

  lemma HoldsMore<K(!new)>(t: Table<K>, order: seq<(Label, K)>, result: seq<seq<Path>>, b: (Label, K))
    requires Holds(t, order, result) && IsFilled(t, b) && b !in order
    ensures Holds(t, order + [b], result + [t[b.0][b.1]])
  {
    NoRepeatsSnoc(order, b);
    assert Rows(t, b.0, b.1) == t[b.0][b.1];
    hide NoRepeats;
  }

  lemma CollectedNext<K(!new)>(
    t: Table<K>, order: seq<(Label, K)>, left: set<Label>, x: Label, keys: set<K>, k: K)
    requires Collected(t, order, left, x, keys) && k in keys && x !in left
    ensures IsFilled(t, (x, k)) ==>
              (x, k) !in order && Collected(t, order + [(x, k)], left, x, keys - {k})
    ensures !IsFilled(t, (x, k)) ==> Collected(t, order, left, x, keys - {k})
  {
    hide IsFilled;
    forall b
      ensures b in order + [(x, k)] <==> b in order || b == (x, k)
    {
    }
  }

  lemma CollectedHash<K(!new)>(t: Table<K>, order: seq<(Label, K)>, left: set<Label>, x: Label, y: Label)
    requires Collected(t, order, left, y, {}) && x in left && x in t
    ensures Collected(t, order, left - {x}, x, t[x].Keys)
  {
  }

  /** One hash: its buckets, in any order. */
  method CollectHash<K(==, !new)>(
    t: Table<K>, x: Label, ghost left: set<Label>, result: seq<seq<Path>>, ghost order: seq<(Label, K)>)
    returns (result': seq<seq<Path>>, ghost order': seq<(Label, K)>)
    requires x in t && x !in left
    requires Holds(t, order, result) && Collected(t, order, left, x, t[x].Keys)
    ensures Holds(t, order', result') && Collected(t, order', left, x, {})
  {
    hide Holds, Collected;
    result', order' := result, order;
    var keys := t[x].Keys;
    while keys != {}
      invariant keys <= t[x].Keys
      invariant Holds(t, order', result') && Collected(t, order', left, x, keys)
      decreases keys
    {
      var k :| k in keys;
      CollectedNext(t, order', left, x, keys, k);
      keys := keys - {k};
      if t[x][k] != [] {
        HoldsMore(t, order', result', (x, k));
        result', order' := result' + [t[x][k]], order' + [(x, k)];
      }
    }
  }

  /** The list that Analyze returns. */
  method CollectInstances<K(==, !new)>(t: Table<K>) returns (result: seq<seq<Path>>)
    ensures Instances(t, result)
  {
    hide Holds, Collected, IsFilled;
    result := [];
    ghost var order: seq<(Label, K)>, last: Label := [], seq(DIGEST_WIDTH, _ => '0');
    CollectedNothing(t, last);
    var left := t.Keys;
    while left != {}
      invariant left <= t.Keys
      invariant Holds(t, order, result) && Collected(t, order, left, last, {})
      decreases left
    {
      var x :| x in left;
      CollectedHash(t, order, left, x, last);
      left := left - {x};
      result, order := CollectHash(t, x, left, result, order);
      last := x;
    }
    CollectedAll(t, order, last);
  }

  lemma CollectedNothing<K(!new)>(t: Table<K>, x: Label)
    ensures Holds(t, [], []) && Collected(t, [], t.Keys, x, {})
  {
  }

  lemma CollectedAll<K(!new)>(t: Table<K>, order: seq<(Label, K)>, x: Label)
    requires Collected(t, order, {}, x, {})
    ensures forall b :: IsFilled(t, b) ==> b in order
  {
  }

  lemma NothingPicked<K>(t: Table<K>)
    ensures PickAll(t, []) == Picked(map[], [])
  {
  }

  lemma BucketsOf<K(!new)>(t: Table<K>, items: seq<(Label, K)>)
    requires NoEmptyBuckets(t) && forall k :: 0 <= k < |items| ==> items[k] in Lengths(t)
    ensures forall k :: 0 <= k < |items| ==> items[k].0 in t && items[k].1 in t[items[k].0]
  {
  }
}

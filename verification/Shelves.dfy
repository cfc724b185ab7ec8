/**
  One level of the group structure: lists kept under keys, with the inverse map that
  says where each item stands. Super groups holding node groups are one shelf, node
  groups holding nodes another.
 */
module Shelves {
  import opened Seqs

  datatype Shelf<!K, !V> = Shelf(lists: map<K, seq<V>>, at: map<V, K>)

  /** Every item stands once, under the key that `at` names. */
  ghost predicate Good<K, V>(s: Shelf<K, V>) {
    && (forall k, v :: k in s.lists && v in s.lists[k] ==> v in s.at && s.at[v] == k)
    && (forall v :: v in s.at ==> s.at[v] in s.lists && v in s.lists[s.at[v]])
    && (forall k :: k in s.lists ==> NoRepeats(s.lists[k]))
  }

  ghost predicate NoneEmpty<K, V>(s: Shelf<K, V>, open: set<K>) {
    forall k :: k in s.lists && s.lists[k] == [] ==> k in open
  }

  function NewKey<K(==), V>(s: Shelf<K, V>, k: K): Shelf<K, V> {
    s.(lists := s.lists[k := []])
  }

  lemma NewKeyGood<K, V>(s: Shelf<K, V>, k: K)
    requires Good(s) && k !in s.lists
    ensures Good(NewKey(s, k))
  {
  }

  lemma NewKeyOpen<K, V>(s: Shelf<K, V>, k: K)
    requires Good(s) && NoneEmpty(s, {}) && k !in s.lists
    ensures Good(NewKey(s, k)) && NoneEmpty(NewKey(s, k), {k})
    ensures NewKey(s, k).lists.Keys == s.lists.Keys + {k} && NewKey(s, k).at == s.at
  {
    NewKeyGood(s, k);
  }

  function DropKey<K(==), V>(s: Shelf<K, V>, k: K): Shelf<K, V> {
    s.(lists := s.lists - {k})
  }

  lemma DropKeyGood<K, V>(s: Shelf<K, V>, k: K)
    requires Good(s) && k in s.lists && s.lists[k] == []
    ensures Good(DropKey(s, k))
  {
  }

  /** push_back */
  function Put<K(==), V(==)>(s: Shelf<K, V>, k: K, v: V): Shelf<K, V>
    requires k in s.lists
  {
    Shelf(s.lists[k := s.lists[k] + [v]], s.at[v := k])
  }

  lemma PutGood<K, V>(s: Shelf<K, V>, k: K, v: V)
    requires Good(s) && k in s.lists && v !in s.at
    ensures Good(Put(s, k, v))
  {
    assert v !in s.lists[k];
    NoRepeatsConcat(s.lists[k], [v]);
    var s' := Put(s, k, v);
    forall u | u in s'.at
      ensures s'.at[u] in s'.lists && u in s'.lists[s'.at[u]]
    {
      if u != v {
        assert u in s.lists[s.at[u]];
      }
    }
  }

  /** list::remove */
  function Take<K(==), V(==)>(s: Shelf<K, V>, k: K, v: V): Shelf<K, V>
    requires k in s.lists
  {
    Shelf(s.lists[k := Remove(s.lists[k], v)], s.at - {v})
  }

  lemma TakeGood<K, V>(s: Shelf<K, V>, k: K, v: V)
    requires Good(s) && k in s.lists && v in s.lists[k]
    ensures Good(Take(s, k, v))
    ensures |Take(s, k, v).lists[k]| == |s.lists[k]| - 1
  {
    RemoveNoRepeats(s.lists[k], v);
    TakeFiled(s, k, v);
    TakeFound(s, k, v);
    hide NoRepeats, Remove;
  }

  lemma TakeFiled<K, V>(s: Shelf<K, V>, k: K, v: V)
    requires Good(s) && k in s.lists && v in s.lists[k]
    ensures var s' := Take(s, k, v);
            forall k', u :: k' in s'.lists && u in s'.lists[k'] ==> u in s'.at && s'.at[u] == k'
  {
    hide NoRepeats;
    var s' := Take(s, k, v);
    forall k', u | k' in s'.lists && u in s'.lists[k']
      ensures u in s'.at && s'.at[u] == k'
    {
      assert u in s.lists[k'] && s.at[u] == k' && s.at[v] == k;
    }
  }

  lemma TakeFound<K, V>(s: Shelf<K, V>, k: K, v: V)
    requires Good(s) && k in s.lists && v in s.lists[k]
    ensures var s' := Take(s, k, v);
            forall u :: u in s'.at ==> s'.at[u] in s'.lists && u in s'.lists[s'.at[u]]
  {
    hide NoRepeats;
    var s' := Take(s, k, v);
    forall u | u in s'.at
      ensures s'.at[u] in s'.lists && u in s'.lists[s'.at[u]]
    {
      assert u in s.lists[s.at[u]];
    }
  }

  /** Putting an item under a key fills it. */
  lemma PutFills<K, V>(s: Shelf<K, V>, k: K, v: V)
    requires Good(s) && NoneEmpty(s, {k}) && k in s.lists && v !in s.at
    ensures Good(Put(s, k, v)) && NoneEmpty(Put(s, k, v), {})
    ensures Put(s, k, v).lists.Keys == s.lists.Keys && Put(s, k, v).at == s.at[v := k]
  {
    PutGood(s, k, v);
  }

  lemma PutKeeps<K, V>(s: Shelf<K, V>, k: K, v: V)
    requires Good(s) && NoneEmpty(s, {}) && k in s.lists && v !in s.at
    ensures Good(Put(s, k, v)) && NoneEmpty(Put(s, k, v), {})
    ensures Put(s, k, v).lists.Keys == s.lists.Keys && Put(s, k, v).at == s.at[v := k]
  {
    PutGood(s, k, v);
  }

  /** A new key with one new item. */
  lemma PutNew<K, V>(s: Shelf<K, V>, k: K, v: V)
    requires Good(s) && NoneEmpty(s, {}) && k !in s.lists && v !in s.at
    ensures var s' := Put(NewKey(s, k), k, v);
            && Good(s') && NoneEmpty(s', {})
            && s'.lists.Keys == s.lists.Keys + {k}
            && s'.at == s.at[v := k]
  {
    NewKeyGood(s, k);
    PutFills(NewKey(s, k), k, v);
  }

  /** An item goes from a key that holds others to a key of its own. */
  lemma TakeToNew<K, V>(s: Shelf<K, V>, k: K, v: V, own: K)
    requires Good(s) && NoneEmpty(s, {}) && v in s.at && s.at[v] == k
    requires k in s.lists && |s.lists[k]| > 1 && own !in s.lists
    ensures var s' := Put(NewKey(Take(s, k, v), own), own, v);
            && Good(s') && NoneEmpty(s', {})
            && s'.lists.Keys == s.lists.Keys + {own}
            && s'.at == s.at[v := own]
  {
    hide Good, NoneEmpty, Take;
    TakeLeaves(s, k, v);
    PutNew(Take(s, k, v), own, v);
    assert (s.at - {v})[v := own] == s.at[v := own];
  }

  lemma TakeLeaves<K, V>(s: Shelf<K, V>, k: K, v: V)
    requires Good(s) && NoneEmpty(s, {}) && v in s.at && s.at[v] == k
    requires k in s.lists && |s.lists[k]| > 1
    ensures var s' := Take(s, k, v);
            && Good(s') && NoneEmpty(s', {})
            && s'.lists.Keys == s.lists.Keys && s'.at == s.at - {v}
  {
    TakeGood(s, k, v);
  }

  /** Append everything under `from` to the list under `to`, and drop `from`. */
  function Pour<K(==), V(==)>(s: Shelf<K, V>, from: K, to: K): Shelf<K, V>
    requires from in s.lists && to in s.lists
  {
    Shelf(s.lists[to := s.lists[to] + s.lists[from]] - {from},
          map v | v in s.at :: if s.at[v] == from then to else s.at[v])
  }

  lemma PourGood<K, V>(s: Shelf<K, V>, from: K, to: K)
    requires Good(s) && from in s.lists && to in s.lists && from != to
    ensures Good(Pour(s, from, to))
  {
    forall v | v in s.lists[to]
      ensures v !in s.lists[from]
    {
      assert s.at[v] == to;
    }
    NoRepeatsConcat(s.lists[to], s.lists[from]);
    var s' := Pour(s, from, to);
    forall v | v in s'.at
      ensures s'.at[v] in s'.lists && v in s'.lists[s'.at[v]]
    {
      assert v in s.lists[s.at[v]];
    }
  }
}

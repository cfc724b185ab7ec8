/** A dictionary of lists in which every item is filed once, under a known key. */
module Filing {
  import opened Seqs

  ghost predicate Entry(D: map<nat, seq<nat>>, k: nat, p: nat) {
    k in D && p in D[k]
  }

  /** D files exactly the items of `keys`, each once and under its key. */
  ghost predicate Files(D: map<nat, seq<nat>>, keys: map<nat, nat>) {
    && (forall k: nat, p: nat :: Entry(D, k, p) <==> p in keys && keys[p] == k)
    && (forall k: nat :: k in D ==> D[k] != [] && NoRepeats(D[k]))
  }

  /** D.setdefault(k, []).append(p) */
  function Append(D: map<nat, seq<nat>>, k: nat, p: nat): map<nat, seq<nat>> {
    D[k := (if k in D then D[k] else []) + [p]]
  }

  lemma FilesAppend(D: map<nat, seq<nat>>, keys: map<nat, nat>, p: nat, k: nat)
    requires Files(D, keys) && p !in keys
    ensures Files(Append(D, k, p), keys[p := k])
  {
    var D' := Append(D, k, p);
    assert !Entry(D, k, p);
    forall k': nat, r: nat
      ensures Entry(D', k', r) <==> Entry(D, k', r) || (k' == k && r == p)
    {
      if k' == k {
        assert r in D'[k] <==> r == p || (k in D && r in D[k]);
      }
    }
  }

  lemma FileNew(D: map<nat, seq<nat>>, keys: map<nat, nat>, p: nat, k: nat)
    requires Files(D, keys) && p !in keys && k !in D
    ensures Files(D[k := [p]], keys[p := k])
  {
    FilesAppend(D, keys, p, k);
    assert [] + [p] == [p];
  }

  /** The keys once the first i of the items `ws`, all filed under q, are filed q ahead. */
  ghost function Moved(keys: map<nat, nat>, q: nat, ws: seq<nat>, i: nat): map<nat, nat>
    requires i <= |ws|
  {
    map p | p in keys && p !in ws[i..] :: if p in ws then p + q else keys[p]
  }

  lemma MovingStart(D: map<nat, seq<nat>>, keys: map<nat, nat>, q: nat)
    requires Files(D, keys) && q in D
    ensures Files(D - {q}, Moved(keys, q, D[q], 0))
    ensures forall p: nat :: p in D[q] <==> p in keys && keys[p] == q
    ensures NoRepeats(D[q])
  {
    assert D[q][0..] == D[q];
    forall p: nat ensures p in D[q] <==> Entry(D, q, p) {}
    forall k: nat, p: nat ensures Entry(D - {q}, k, p) <==> k != q && Entry(D, k, p) {}
  }

  lemma MovingStep(D: map<nat, seq<nat>>, keys: map<nat, nat>, q: nat, ws: seq<nat>, i: nat)
    requires i < |ws| && NoRepeats(ws) && ws[i] in keys
    requires Files(D, Moved(keys, q, ws, i))
    ensures Files(Append(D, ws[i] + q, ws[i]), Moved(keys, q, ws, i + 1))
  {
    assert ws[i..] == [ws[i]] + ws[i + 1..];
    assert ws[i] !in ws[i + 1..];
    FilesAppend(D, Moved(keys, q, ws, i), ws[i], ws[i] + q);
    assert Moved(keys, q, ws, i + 1) == Moved(keys, q, ws, i)[ws[i] := ws[i] + q];
  }

  lemma AppendElsewhere(D: map<nat, seq<nat>>, q: nat, k: nat, p: nat)
    requires q in D && k != q
    ensures Append(D - {q}, k, p) == Append(D, k, p) - {q}
  {
  }

  lemma FiledWitness(D: map<nat, seq<nat>>, keys: map<nat, nat>, k: nat) returns (p: nat)
    requires Files(D, keys) && k in D
    ensures p in keys && keys[p] == k
  {
    p := D[k][0];
    assert Entry(D, k, p);
  }
}

/**
  The incremental prime sieve of bbgroup/bb_utils.py and the table built from it.
 */
module PrimeSieve {
  import opened NumberTheory
  import opened Filing

  /** s lists the |s| smallest primes, in ascending order. */
  ghost predicate FirstPrimes(s: seq<nat>) {
    && AllPrime(s)
    && (forall i, j :: 0 <= i < j < |s| ==> s[i] < s[j])
    && (forall p: nat :: s != [] && IsPrime(p) && p <= s[|s| - 1] ==> p in s)
  }

  /** FirstPrimes leaves no freedom: there is one such list of each length. */
  lemma {:induction false} FirstPrimesUnique(s: seq<nat>, t: seq<nat>)
    requires FirstPrimes(s) && FirstPrimes(t) && |s| == |t|
    ensures s == t
  {
    hide FirstPrimes;
    if s != [] {
      var n := |s| - 1;
      FirstPrimesPrefix(s);
      FirstPrimesPrefix(t);
      FirstPrimesUnique(s[..n], t[..n]);
      assert s[n] == t[n] by {
        LastNotAbove(s, t);
        LastNotAbove(t, s);
      }
      assert s == s[..n] + [s[n]] && t == t[..n] + [t[n]];
    }
  }

  lemma LastNotAbove(s: seq<nat>, t: seq<nat>)
    requires FirstPrimes(s) && FirstPrimes(t) && |s| == |t| > 0
    requires s[..|s| - 1] == t[..|t| - 1]
    ensures t[|t| - 1] <= s[|s| - 1]
  {
    var n := |s| - 1;
    var last := s[n];
    assert IsPrime(last);
    assert last < t[n] ==> last in t;
  }

  lemma FirstPrimesPrefix(s: seq<nat>)
    requires FirstPrimes(s) && s != []
    ensures FirstPrimes(s[..|s| - 1])
  {
    var n := |s| - 1;
    forall p: nat | n > 0 && IsPrime(p) && p <= s[n - 1]
      ensures p in s[..n]
    {
      assert p in s;
    }
  }

  /** s lists the primes below n, in ascending order. */
  ghost predicate PrimesBelow(s: seq<nat>, n: nat) {
    && (forall i, j :: 0 <= i < j < |s| ==> s[i] < s[j])
    && (forall p: nat :: p in s <==> p < n && IsPrime(p))
  }

  lemma PrimesBelowStep(s: seq<nat>, n: nat)
    requires PrimesBelow(s, n)
    ensures PrimesBelow(if IsPrime(n) then s + [n] else s, n + 1)
  {
    if IsPrime(n) {
      forall i | 0 <= i < |s|
        ensures s[i] < n
      {
        assert s[i] in s;
      }
      forall p: nat
        ensures p in s + [n] <==> p in s || p == n
      {
      }
    }
  }

  lemma PrimesBelowAreFirst(s: seq<nat>, n: nat)
    requires PrimesBelow(s, n)
    ensures FirstPrimes(s)
  {
    forall i | 0 <= i < |s|
      ensures IsPrime(s[i])
    {
      assert s[i] in s;
    }
    if s != [] {
      assert s[|s| - 1] in s;
    }
  }

  // ----- where a prime is filed -----------------------------------------------

  /** The least multiple of p that is not below q. */
  ghost function RoundUp(p: nat, q: nat): nat
    requires p > 0
  {
    if Divides(p, q) then q else q + (p - q % p)
  }

  /** The key of D under which prime p stands when the sieve has reached q. */
  ghost function Slot(p: nat, q: nat): nat
    requires p > 0
  {
    if q <= p * p then p * p else RoundUp(p, q)
  }

  lemma RoundUpStep(p: nat, q: nat)
    requires p > 0
    ensures RoundUp(p, q + 1) == if Divides(p, q) then q + p else RoundUp(p, q)
  {
    var k, r := q / p, q % p;
    assert q == p * k + r;
    if r + 1 < p {
      RemainderUnique(q + 1, p, k, r + 1);
    } else {
      assert p * k + p == p * (k + 1);
      RemainderUnique(q + 1, p, k + 1, 0);
    }
  }

  lemma {:induction false} RoundUpIsLeast(p: nat, q: nat, m: nat)
    requires p > 0
    ensures Divides(p, RoundUp(p, q)) && q <= RoundUp(p, q) < q + p
    ensures Divides(p, m) && m >= q ==> RoundUp(p, q) <= m
  {
    if q == 0 {
      RemainderUnique(0, p, 0, 0);
    } else {
      RoundUpIsLeast(p, q - 1, m);
      RoundUpStep(p, q - 1);
      if Divides(p, q - 1) {
        DividesSum(p, q - 1, p);
        RemainderUnique(p, p, 1, 0);
        if Divides(p, m) && m >= q {
          DividesSum(p, q - 1, m - (q - 1));
          DivisorBound(p, m - (q - 1));
        }
      }
    }
  }

  /** A slot is the least multiple of p that is neither below q nor below p*p. */
  lemma {:induction false} SlotIsLeastMultiple(p: nat, q: nat, m: nat)
    requires p > 0
    ensures Divides(p, Slot(p, q)) && Slot(p, q) >= q && Slot(p, q) >= p * p
    ensures Divides(p, m) && m >= q && m >= p * p ==> Slot(p, q) <= m
  {
    MultipleDivides(p, p);
    RoundUpIsLeast(p, q, m);
  }

  /** Advancing q past a slot moves it on by p; every other slot stays. */
  lemma SlotStep(p: nat, q: nat)
    requires p > 0
    ensures Slot(p, q + 1) == if Slot(p, q) == q then q + p else Slot(p, q)
  {
    RoundUpStep(p, q);
    MultipleDivides(p, p);
  }

  /** All slots of primes below q are below q*q, so filing q there overwrites nothing. */
  lemma {:induction false} SlotBelowSquare(p: nat, q: nat)
    requires 1 < p < q
    ensures Slot(p, q) < q * q
    ensures Slot(p, q) == q ==> !IsPrime(q)
  {
    SquareMonotone(p, q);
    RoundUpIsLeast(p, q, 0);
    SlotIsLeastMultiple(p, q, 0);
  }

  lemma SquareMonotone(p: nat, q: nat)
    requires 1 < p < q
    ensures p * p < q * q && 2 * q <= q * q
  {
  }

  /** A composite number is the slot of its least prime factor. */
  lemma CompositeIsSlot(q: nat) returns (p: nat)
    requires 2 <= q && !IsPrime(q)
    ensures IsPrime(p) && p < q && Slot(p, q) == q
  {
    p := LeastPrimeFactor(q);
  }

  // ----- the dictionary -------------------------------------------------------

  /** Every prime below q with its slot. */
  ghost function Slots(q: nat): map<nat, nat> {
    map p: nat | p < q && IsPrime(p) :: Slot(p, q)
  }

  /** Membership in the dictionary decides primality. */
  lemma KeyIffComposite(D: map<nat, seq<nat>>, q: nat)
    requires 2 <= q && Files(D, Slots(q))
    ensures q in D <==> !IsPrime(q)
  {
    if q in D {
      var p := FiledWitness(D, Slots(q), q);
      SlotBelowSquare(p, q);
    }
    if !IsPrime(q) {
      var p := CompositeIsSlot(q);
      assert Slots(q)[p] == q;
      assert Entry(D, q, p);
    }
  }

  lemma {:induction false} FilesAfterPrime(D: map<nat, seq<nat>>, q: nat)
    requires Files(D, Slots(q)) && IsPrime(q)
    ensures q * q !in D
    ensures Files(D[q * q := [q]], Slots(q + 1))
  {
    if q * q in D {
      var p := FiledWitness(D, Slots(q), q * q);
      SlotBelowSquare(p, q);
    }
    SlotsAfterPrime(q);
    FileNew(D, Slots(q), q, q * q);
  }

  lemma OwnSlot(q: nat)
    requires 2 <= q
    ensures Slot(q, q + 1) == q * q
  {
    assert q * q >= 2 * q;
  }

  lemma SlotsAfterPrime(q: nat)
    requires IsPrime(q)
    ensures Slots(q + 1) == Slots(q)[q := q * q]
  {
    hide Slot, IsPrime;
    PrimesPositive();
    OwnSlot(q);
    forall p: nat | p < q && IsPrime(p)
      ensures Slot(p, q + 1) == Slot(p, q)
    {
      SlotStep(p, q);
      SlotBelowSquare(p, q);
    }
  }

  lemma MovingEnd(q: nat, ws: seq<nat>)
    requires 2 <= q && !IsPrime(q)
    requires forall p: nat :: p in ws <==> p in Slots(q) && Slots(q)[p] == q
    ensures Moved(Slots(q), q, ws, |ws|) == Slots(q + 1)
  {
    hide Slot, IsPrime;
    PrimesPositive();
    assert forall p: nat :: IsPrime(p) && p < q + 1 <==> IsPrime(p) && p < q;
    assert ws[|ws|..] == [];
    forall p: nat | p < q && IsPrime(p)
      ensures Slot(p, q + 1) == if Slot(p, q) == q then q + p else Slot(p, q)
    {
      SlotStep(p, q);
    }
  }

  lemma PrimesPositive()
    ensures forall p: nat :: IsPrime(p) ==> p >= 2
  {
  }

  // ----- the generator --------------------------------------------------------

  class PrimeGenerator {
    var D: map<nat, seq<nat>>  // composite -> primes witnessing it
    var q: nat                 // the number under test
    var atYield: bool          // suspended at `yield q`, before q is filed
    ghost var yielded: seq<nat>

    ghost predicate Valid()
      reads this
    {
      && 2 <= q
      && Files(D, Slots(q))
      && PrimesBelow(yielded, if atYield then q + 1 else q)
      && (atYield ==> IsPrime(q))
    }

    constructor ()
      ensures Valid() && yielded == []
    {
      D, q, atYield, yielded := map[], 2, false, [];
    }

    /** Resume the generator and run it to its next yield. */
    method Next() returns (p: nat)
      requires Valid()
      modifies this
      ensures Valid() && FirstPrimes(yielded)
      ensures yielded == old(yielded) + [p]
    {
      if atYield {
        FilePrime();
      }
      ghost var next := PrimesUnbounded(q);
      while q in D
        invariant Valid() && !atYield && q <= next
        invariant yielded == old(yielded)
        decreases next - q
      {
        SkipComposite();
      }
      Yield();
      p := q;
      PrimesBelowAreFirst(yielded, q + 1);
    }

    method FilePrime()
      requires Valid() && atYield
      modifies this`D, this`q, this`atYield
      ensures Valid() && !atYield && q == old(q) + 1
    {
      FilesAfterPrime(D, q);
      D := D[q * q := [q]];
      q := q + 1;
      atYield := false;
    }

    method SkipComposite()
      requires Valid() && !atYield && q in D
      modifies this`D, this`q
      ensures Valid() && q == old(q) + 1 && !IsPrime(old(q))
    {
      hide Files, Slots, PrimesBelow, IsPrime;
      PrimesBelowStep(yielded, q);
      D := MoveWitnesses(D, q);
      q := q + 1;
    }

    method Yield()
      requires Valid() && !atYield && q !in D
      modifies this`atYield, this`yielded
      ensures Valid() && atYield && yielded == old(yielded) + [q]
    {
      KeyIffComposite(D, q);
      PrimesBelowStep(yielded, q);
      atYield := true;
      yielded := yielded + [q];
    }
  }

  /** The composite branch: file every witness of q under its next multiple. */
  method MoveWitnesses(D: map<nat, seq<nat>>, q: nat) returns (D': map<nat, seq<nat>>)
    requires 2 <= q && Files(D, Slots(q)) && q in D
    ensures !IsPrime(q) && Files(D', Slots(q + 1))
  {
    hide Files, Moved, Slot, IsPrime;
    PrimesPositive();
    KeyIffComposite(D, q);
    MovingStart(D, Slots(q), q);
    var ws := D[q];
    D' := D;
    for i := 0 to |ws|
      invariant q in D' && D'[q] == ws
      invariant Files(D' - {q}, Moved(Slots(q), q, ws, i))
    {
      assert ws[i] in ws;
      MovingStep(D' - {q}, Slots(q), q, ws, i);
      AppendElsewhere(D', q, ws[i] + q, ws[i]);
      D' := Append(D', ws[i] + q, ws[i]);
    }
    MovingEnd(q, ws);
    D' := D' - {q};
  }

  /** The prime table, built on a cache miss. */
  method CachedPrimes(count: int) returns (L: seq<nat>)
    ensures |L| == if count <= 1 then 1 else count
    ensures FirstPrimes(L)
  {
    var generator := new PrimeGenerator();
    L := [];
    var left := count;
    while true
      invariant generator.Valid() && generator.yielded == L && fresh(generator)
      invariant FirstPrimes(L) && |L| == count - left
      invariant left == count || 1 <= left
      decreases left
    {
      var p := generator.Next();
      L := L + [p];
      if left <= 1 {
        break;
      }
      left := left - 1;
    }
  }
}

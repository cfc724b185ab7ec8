/** Facts about lists without repeats, as the linked lists of the source are used. */
module Seqs {

  ghost predicate NoRepeats<T>(s: seq<T>) {
    forall i, j :: 0 <= i < j < |s| ==> s[i] != s[j]
  }

  /** std::list::remove: every element equal to x goes, the others keep their order. */
  function Remove<T(==)>(s: seq<T>, x: T): (r: seq<T>)
    ensures forall y :: y in r ==> y in s && y != x
    ensures forall y :: y in s && y != x ==> y in r
    ensures |r| <= |s|
  {
    if s == [] then []
    else if s[0] == x then Remove(s[1..], x)
    else [s[0]] + Remove(s[1..], x)
  }

  ghost predicate Before<T>(s: seq<T>, x: T, y: T) {
    exists i, j :: 0 <= i < j < |s| && s[i] == x && s[j] == y
  }

  /** t is what is left of s: nothing new, and the order is the same. */
  ghost predicate Thinned<T>(s: seq<T>, t: seq<T>) {
    && (forall x :: x in t ==> x in s)
    && forall i, j :: 0 <= i < j < |t| ==> Before(s, t[i], t[j])
  }

  lemma ThinnedSelf<T>(s: seq<T>)
    ensures Thinned(s, s)
  {
  }

  lemma ThinnedOn<T>(s: seq<T>, t: seq<T>, u: seq<T>)
    requires Thinned(s, t) && Thinned(t, u)
    ensures Thinned(s, u)
  {
    forall i, j | 0 <= i < j < |u|
      ensures Before(s, u[i], u[j])
    {
      assert Before(t, u[i], u[j]);
      var a, b :| 0 <= a < b < |t| && t[a] == u[i] && t[b] == u[j];
      assert Before(s, t[a], t[b]);
    }
  }

  lemma {:induction false} RemoveThins<T>(s: seq<T>, x: T)
    ensures Thinned(s, Remove(s, x))
  {
    if s != [] {
      var t, u := s[1..], Remove(s[1..], x);
      RemoveThins(t, x);
      forall y, z | Before(t, y, z)
        ensures Before(s, y, z)
      {
        var i, j :| 0 <= i < j < |t| && t[i] == y && t[j] == z;
        assert s[i + 1] == y && s[j + 1] == z;
      }
      forall z | z in t
        ensures Before(s, s[0], z)
      {
        var j :| 0 <= j < |t| && t[j] == z;
        assert s[j + 1] == z;
      }
      if s[0] != x {
        var r := Remove(s, x);
        assert r == [s[0]] + u;
        forall i, j | 0 <= i < j < |r|
          ensures Before(s, r[i], r[j])
        {
          if i > 0 {
            assert Before(t, u[i - 1], u[j - 1]);
          }
        }
      }
    }
  }

  lemma {:induction false} RemoveNoRepeats<T>(s: seq<T>, x: T)
    requires NoRepeats(s)
    ensures NoRepeats(Remove(s, x))
    ensures |Remove(s, x)| == if x in s then |s| - 1 else |s|
  {
    if s != [] {
      RemoveNoRepeats(s[1..], x);
      assert s == [s[0]] + s[1..];
      assert s[0] !in s[1..];
    }
  }

  lemma {:induction false} RemoveAbsent<T>(s: seq<T>, x: T)
    requires x !in s
    ensures Remove(s, x) == s
  {
    if s != [] {
      RemoveAbsent(s[1..], x);
    }
  }

  /** pop_back removes the last element and nothing else. */
  lemma {:induction false} RemoveLast<T>(s: seq<T>)
    requires s != [] && NoRepeats(s)
    ensures Remove(s, s[|s| - 1]) == s[..|s| - 1]
  {
    var x := s[|s| - 1];
    if s[0] == x {
      RemoveAbsent(s[1..], x);
    } else {
      RemoveLast(s[1..]);
      assert s[..|s| - 1] == [s[0]] + s[1..][..|s| - 2];
    }
  }

  lemma NoRepeatsConcat<T>(s: seq<T>, t: seq<T>)
    requires NoRepeats(s) && NoRepeats(t)
    requires forall x :: x in s ==> x !in t
    ensures NoRepeats(s + t)
  {
    forall i, j | 0 <= i < j < |s + t|
      ensures (s + t)[i] != (s + t)[j]
    {
      if i < |s| <= j {
        assert s[i] in s && t[j - |s|] in t;
      }
    }
  }

  lemma NoRepeatsSnoc<T>(s: seq<T>, x: T)
    requires NoRepeats(s) && x !in s
    ensures NoRepeats(s + [x])
  {
  }

  lemma ConcatAssoc<T>(a: seq<T>, b: seq<T>, c: seq<T>)
    ensures a + b + c == a + (b + c)
  {
  }

  /** A list taken apart again at a mark. */
  lemma AroundMark<T>(a: seq<T>, x: T, b: seq<T>)
    ensures (a + [x] + b)[..|a|] == a && (a + [x] + b)[|a| + 1..] == b
  {
  }

  function Elems<T(==)>(s: seq<T>): set<T> {
    set x | x in s
  }

  lemma NoElems<T>(s: seq<T>)
    ensures Elems(s[..0]) == {}
  {
  }

  /** The elements of a prefix, and the next one. */
  lemma ElemsNext<T>(s: seq<T>, i: nat)
    requires i < |s|
    ensures Elems(s[..i + 1]) == Elems(s[..i]) + {s[i]}
    ensures NoRepeats(s) ==> s[i] !in Elems(s[..i])
  {
    assert s[..i + 1] == s[..i] + [s[i]];
  }
}

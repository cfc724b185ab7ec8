/**
  The arithmetic behind the prime fingerprints: divisibility, Euclid's lemma,
  the infinitude of the primes, and uniqueness of prime factorisations.
 */
module NumberTheory {

  predicate Divides(d: nat, n: nat)
    requires d > 0
  {
    n % d == 0
  }

  ghost predicate IsPrime(p: nat) {
    2 <= p && forall d: nat :: 2 <= d < p ==> !Divides(d, p)
  }

  // ----- divisibility ---------------------------------------------------------

  /** The remainder is the only r in [0, d) for which n is d*k + r. */
  lemma RemainderUnique(n: int, d: nat, k: int, r: int)
    requires d > 0 && 0 <= r < d && n == d * k + r
    ensures n % d == r && n / d == k
  {
    var k', r' := n / d, n % d;
    assert n == d * k' + r';
    var e := k - k';
    assert d * e == r' - r;
    assert e >= 1 ==> d * e >= d;
    assert e <= -1 ==> d * -e >= d;
    assert d * -e == -(d * e);
  }

  lemma MultipleDivides(d: nat, k: nat)
    requires d > 0
    ensures Divides(d, d * k)
  {
    RemainderUnique(d * k, d, k, 0);
  }

  lemma DividesProduct(d: nat, a: nat, b: nat)
    requires d > 0 && Divides(d, a)
    ensures Divides(d, a * b)
  {
    var k := a / d;
    assert a * b == d * (k * b) by {
      assert a == d * k;
    }
    MultipleDivides(d, k * b);
  }

  lemma DividesSum(d: nat, a: nat, b: nat)
    requires d > 0 && Divides(d, a)
    ensures Divides(d, a + b) <==> Divides(d, b)
  {
    var k, m, r := a / d, b / d, b % d;
    assert a + b == d * (k + m) + r by {
      assert a == d * k && b == d * m + r;
    }
    RemainderUnique(a + b, d, k + m, r);
  }

  lemma DividesTransitive(d: nat, e: nat, n: nat)
    requires d > 0 && e > 0 && Divides(d, e) && Divides(e, n)
    ensures Divides(d, n)
  {
    DividesProduct(d, e, n / e);
  }

  lemma DivisorBound(d: nat, n: nat)
    requires d > 0 && n > 0 && Divides(d, n)
    ensures d <= n
  {
    assert n == d * (n / d);
  }

  // ----- prime factors --------------------------------------------------------

  /** The least divisor above 1: it is prime, and small unless n is prime itself. */
  lemma LeastPrimeFactor(n: nat) returns (p: nat)
    requires 2 <= n
    ensures IsPrime(p) && p <= n && Divides(p, n)
    ensures IsPrime(n) ==> p == n
    ensures !IsPrime(n) ==> p < n && p * p <= n
  {
    p := 2;
    while !Divides(p, n)
      invariant 2 <= p <= n
      invariant forall d: nat :: 2 <= d < p ==> !Divides(d, n)
      decreases n - p
    {
      if p == n {
        RemainderUnique(n, n, 1, 0);
      }
      p := p + 1;
    }
    forall d: nat | 2 <= d < p
      ensures !Divides(d, p)
    {
      if Divides(d, p) {
        DividesTransitive(d, p, n);
      }
    }
    if p < n {
      LeastDivisorSmall(p, n);
    }
  }

  lemma LeastDivisorSmall(p: nat, n: nat)
    requires 2 <= p < n && Divides(p, n)
    requires forall d: nat :: 2 <= d < p ==> !Divides(d, n)
    ensures p * p <= n
  {
    var k := n / p;
    assert n == p * k;
    assert k <= 1 ==> p * k <= p;
    assert k >= 2;
    assert Divides(k, n) by {
      assert p * k == k * p;
      MultipleDivides(k, p);
    }
    assert k >= p;
    assert p * k >= p * p;
  }

  function Factorial(n: nat): (f: nat)
    ensures f >= 1
  {
    if n == 0 then 1 else n * Factorial(n - 1)
  }

  lemma {:induction false} DividesFactorial(d: nat, n: nat)
    requires 1 <= d <= n
    ensures Divides(d, Factorial(n))
  {
    if d == n {
      MultipleDivides(d, Factorial(n - 1));
    } else {
      DividesFactorial(d, n - 1);
      DividesProduct(d, Factorial(n - 1), n);
      assert Factorial(n - 1) * n == Factorial(n);
    }
  }

  /** There is always a prime above n: no prime up to n divides n! + 1. */
  lemma PrimesUnbounded(n: nat) returns (p: nat)
    ensures n < p && IsPrime(p)
  {
    p := LeastPrimeFactor(Factorial(n) + 1);
    if p <= n {
      DividesFactorial(p, n);
      DividesSum(p, Factorial(n), 1);
      assert Divides(p, 1);
      DivisorBound(p, 1);
      assert false;
    }
  }

  // ----- Euclid's lemma -------------------------------------------------------

  /** A common divisor of a and b that is a combination of them. */
  lemma {:induction false} Bezout(a: nat, b: nat) returns (g: nat, x: int, y: int)
    requires a > 0
    ensures g > 0 && Divides(g, a) && Divides(g, b)
    ensures g == a * x + b * y
    decreases b
  {
    if b == 0 {
      g, x, y := a, 1, 0;
      RemainderUnique(a, a, 1, 0);
      RemainderUnique(0, a, 0, 0);
    } else {
      var q, r := a / b, a % b;
      var u, v;
      g, u, v := Bezout(b, r);
      assert a == b * q + r;
      x, y := v, u - q * v;
      assert b * (u - q * v) == b * u - (b * q) * v;
      DividesProduct(g, b, q);
      DividesSum(g, b * q, r);
      assert (a - b * q) * v == a * v - (b * q) * v;
    }
  }

  /** Euclid's lemma. */
  lemma EuclidsLemma(p: nat, a: nat, b: nat)
    requires IsPrime(p) && Divides(p, a * b)
    ensures Divides(p, a) || Divides(p, b)
  {
    var g, x, y := Bezout(p, a);
    DivisorBound(g, p);
    if g == 1 {
      var k := a * b / p;
      assert a * b == p * k;
      assert b == b * (p * x + a * y);
      assert b * (p * x + a * y) == p * (b * x) + (a * b) * y;
      assert (p * k) * y == p * (k * y);
      assert b == p * (b * x + k * y) + 0;
      RemainderUnique(b, p, b * x + k * y, 0);
    } else {
      assert g == p;
    }
  }

  // ----- products and unique factorisation ------------------------------------

  function Product(s: seq<nat>): (r: nat) {
    if s == [] then 1 else s[0] * Product(s[1..])
  }

  ghost predicate AllPrime(s: seq<nat>) {
    forall i :: 0 <= i < |s| ==> IsPrime(s[i])
  }

  lemma {:induction false} ProductConcat(s: seq<nat>, t: seq<nat>)
    ensures Product(s + t) == Product(s) * Product(t)
  {
    if s == [] {
      assert s + t == t;
    } else {
      assert (s + t)[1..] == s[1..] + t;
      ProductConcat(s[1..], t);
      assert s[0] * (Product(s[1..]) * Product(t)) == s[0] * Product(s[1..]) * Product(t);
    }
  }

  lemma ProductSnoc(s: seq<nat>, x: nat)
    ensures Product(s + [x]) == Product(s) * x
  {
    ProductConcat(s, [x]);
    assert Product([x]) == x;
  }

  /** One factor can be pulled out of a product, from wherever it stands. */
  lemma ProductRemove(s: seq<nat>, i: nat)
    requires i < |s|
    ensures Product(s) == s[i] * Product(s[..i] + s[i + 1..])
  {
    var left, x, right := s[..i], s[i], s[i + 1..];
    assert s == left + [x] + right;
    ProductMiddle(left, x, right);
  }

  lemma ProductMiddle(left: seq<nat>, x: nat, right: seq<nat>)
    ensures Product(left + [x] + right) == x * Product(left + right)
  {
    ProductSnoc(left, x);
    ProductConcat(left + [x], right);
    ProductConcat(left, right);
    MulRearrange(Product(left), x, Product(right));
  }

  lemma MulRearrange(a: nat, x: nat, b: nat)
    ensures a * x * b == x * (a * b)
  {
  }

  lemma MultisetRemove<T>(s: seq<T>, i: nat)
    requires i < |s|
    ensures multiset(s[..i] + s[i + 1..]) == multiset(s) - multiset{s[i]}
  {
    assert s == s[..i] + [s[i]] + s[i + 1..];
  }

  /** A product does not depend on the order of its factors. */
  lemma {:induction false} ProductOfMultiset(s: seq<nat>, t: seq<nat>)
    requires multiset(s) == multiset(t)
    ensures Product(s) == Product(t)
  {
    if s == [] {
      assert |multiset(t)| == 0;
    } else {
      assert s[0] in multiset(t);
      var i :| 0 <= i < |t| && t[i] == s[0];
      ProductRemove(t, i);
      MultisetRemove(t, i);
      assert s[1..] == s[..0] + s[1..];
      MultisetRemove(s, 0);
      assert multiset(s[1..]) == multiset(t[..i] + t[i + 1..]);
      ProductOfMultiset(s[1..], t[..i] + t[i + 1..]);
    }
  }

  lemma {:induction false} ProductPositive(s: seq<nat>)
    requires AllPrime(s)
    ensures Product(s) >= 1
    ensures s != [] ==> Product(s) >= 2
  {
    if s != [] {
      ProductPositive(s[1..]);
      assert IsPrime(s[0]);
      assert s[0] * Product(s[1..]) >= s[0];
    }
  }

  /** A prime dividing a product of primes is one of the factors. */
  lemma {:induction false} PrimeFactorOfProduct(p: nat, s: seq<nat>)
    requires IsPrime(p) && AllPrime(s) && Divides(p, Product(s))
    ensures p in s
  {
    if s == [] {
      DivisorBound(p, 1);
    } else {
      EuclidsLemma(p, s[0], Product(s[1..]));
      if Divides(p, s[0]) {
        assert IsPrime(s[0]);
        DivisorBound(p, s[0]);
      } else {
        PrimeFactorOfProduct(p, s[1..]);
      }
    }
  }

  /** The fundamental theorem of arithmetic, uniqueness half. */
  lemma {:induction false} UniqueFactorization(s: seq<nat>, t: seq<nat>)
    requires AllPrime(s) && AllPrime(t) && Product(s) == Product(t)
    ensures multiset(s) == multiset(t)
  {
    if s == [] {
      ProductPositive(t);
    } else {
      hide AllPrime, Product;
      var i := CancelHead(s, t);
      UniqueFactorization(s[1..], t[..i] + t[i + 1..]);
      MultisetRestore(s, t, i);
    }
  }

  lemma MultisetRestore<T>(s: seq<T>, t: seq<T>, i: nat)
    requires s != [] && i < |t| && t[i] == s[0]
    requires multiset(s[1..]) == multiset(t[..i] + t[i + 1..])
    ensures multiset(s) == multiset(t)
  {
    assert s == [s[0]] + s[1..];
    assert t == t[..i] + [t[i]] + t[i + 1..];
  }

  /** The first prime of one product is a factor of the other, and can be cancelled. */
  lemma CancelHead(s: seq<nat>, t: seq<nat>) returns (i: nat)
    requires AllPrime(s) && AllPrime(t) && Product(s) == Product(t) && s != []
    ensures i < |t| && t[i] == s[0]
    ensures AllPrime(s[1..]) && AllPrime(t[..i] + t[i + 1..])
    ensures Product(s[1..]) == Product(t[..i] + t[i + 1..])
  {
    hide IsPrime;
    var p := s[0];
    HeadDivides(s);
    PrimeFactorOfProduct(p, t);
    i :| 0 <= i < |t| && t[i] == p;
    ProductRemove(t, i);
    Cancel(p, Product(s[1..]), Product(t[..i] + t[i + 1..]));
  }

  lemma HeadDivides(s: seq<nat>)
    requires AllPrime(s) && s != []
    ensures IsPrime(s[0]) && s[0] > 0 && Divides(s[0], Product(s))
  {
    MultipleDivides(s[0], Product(s[1..]));
  }

  lemma Cancel(p: nat, a: nat, b: nat)
    requires p > 0 && p * a == p * b
    ensures a == b
  {
    RemainderUnique(p * a, p, a, 0);
    RemainderUnique(p * a, p, b, 0);
  }
}

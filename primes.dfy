/** Primality, as the delay-length search uses it, and Euclid's theorem that
    above every number there is a prime: the fact that makes the search stop. */
module Primes {

  /** d is a positive divisor of n. */
  predicate Divides(d: int, n: int) {
    d > 0 && n % d == 0
  }

  /** n is prime: at least 2, and no divisor strictly between 1 and n. */
  predicate IsPrime(n: int) {
    n >= 2 && forall d :: 2 <= d < n ==> !Divides(d, n)
  }

  /** A prime above 2 is odd. */
  lemma PrimeAboveTwoIsOdd(p: int)
    requires IsPrime(p) && p > 2
    ensures p % 2 == 1
  {
    assert !Divides(2, p);
  }

  lemma MultipleDivisible(a: int, k: int)
    requires a > 0
    ensures Divides(a, a * k)
  {
    RemainderUnique(a * k, a, k, 0);
  }

  lemma {:induction false} DividesTransitive(a: int, b: int, c: int)
    requires Divides(a, b) && Divides(b, c)
    ensures Divides(a, c)
  {
    var i, j := b / a, c / b;
    assert b == a * i;
    assert c == b * j;
    assert c == a * (i * j);
    MultipleDivisible(a, i * j);
  }

  function Factorial(n: nat): (f: nat)
    ensures f >= 1
  {
    if n == 0 then 1 else n * Factorial(n - 1)
  }

  /** Every number from 1 to n divides n!. */
  lemma {:induction false} FactorialDivisible(n: nat, d: int)
    requires 1 <= d <= n
    ensures Divides(d, Factorial(n))
    decreases n
  {
    assert Factorial(n) == n * Factorial(n - 1);
    if d == n {
      MultipleDivisible(n, Factorial(n - 1));
    } else {
      FactorialDivisible(n - 1, d);
      MultipleDivisible(Factorial(n - 1), n);
      DividesTransitive(d, Factorial(n - 1), Factorial(n));
    }
  }

  /** Every m >= 2 has a prime divisor. */
  lemma {:induction false} PrimeFactor(m: int) returns (p: int)
    requires m >= 2
    ensures IsPrime(p) && Divides(p, m)
    decreases m
  {
    if IsPrime(m) {
      p := m;
    } else {
      var d :| 2 <= d < m && Divides(d, m);
      p := PrimeFactor(d);
      DividesTransitive(p, d, m);
    }
  }

  lemma MultipleBounds(p: int, k: int)
    requires p > 0
    ensures k >= 1 ==> p * k >= p
    ensures k <= -1 ==> p * k <= -p
    ensures k == 0 ==> p * k == 0
  {
  }

  /** Euclidean remainder is unique: x == p * q + r with 0 <= r < p gives x % p == r. */
  lemma RemainderUnique(x: int, p: int, q: int, r: int)
    requires p > 0 && 0 <= r < p && x == p * q + r
    ensures x % p == r
  {
    var k := q - x / p;
    assert p * k == x % p - r;
    MultipleBounds(p, k);
  }

  /** A divisor of f above 1 does not divide f + 1. */
  lemma SuccessorNotDivisible(p: int, f: int)
    requires p >= 2 && Divides(p, f)
    ensures !Divides(p, f + 1)
  {
    RemainderUnique(f + 1, p, f / p, 1);
  }

  /** Euclid: for every n there is a prime greater than n. */
  lemma PrimeAbove(n: nat) returns (p: int)
    ensures IsPrime(p) && p > n
  {
    var f := Factorial(n);
    p := PrimeFactor(f + 1);
    if p <= n {
      FactorialDivisible(n, p);
      SuccessorNotDivisible(p, f);
      assert false;
    }
  }
}

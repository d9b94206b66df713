/** The two prime tables of prime_tables.h: trial division on the fly, and a sieve. */
module Primes {

  ghost predicate Divides(d: nat, n: nat) {
    exists q: nat :: q * d == n
  }

  ghost predicate IsPrimeNumber(n: int) {
    n >= 2 && forall d: nat :: 2 <= d < n ==> !Divides(d, n)
  }

  /** `r` is the smallest prime number greater than `p`. */
  ghost predicate IsNextPrime(p: int, r: int) {
    p < r && IsPrimeNumber(r) && forall k :: p < k < r ==> !IsPrimeNumber(k)
  }

  // ---------------------------------------------------------------- divisors

  lemma {:induction false} DividesIsZeroRest(d: nat, n: nat)
    requires d > 0
    ensures n % d == 0 <==> Divides(d, n)
  {
    if n % d == 0 {
      assert n / d * d == n;
    }
    if Divides(d, n) {
      var q: nat :| q * d == n;
      RestOfMultiple(q, d);
    }
  }

  lemma {:induction false} RestOfMultiple(q: nat, d: nat)
    requires d > 0
    ensures q * d % d == 0
  {
    var n := q * d;
    var r := n % d;
    assert n == n / d * d + r;
    assert (q - n / d) * d == r;
    if q - n / d >= 1 {
      Grows(1, q - n / d, d);
      assert false;
    }
    if q - n / d <= -1 {
      Grows(1, n / d - q, d);
      assert false;
    }
  }

  lemma {:induction false} Grows(a: int, b: int, d: nat)
    requires a <= b
    ensures a * d <= b * d
  {
  }

  lemma {:induction false} DividesTransitive(a: nat, b: nat, c: nat)
    requires Divides(a, b) && Divides(b, c)
    ensures Divides(a, c)
  {
    var q: nat :| q * a == b;
    var r: nat :| r * b == c;
    assert r * q * a == c;
  }

  /** A proper divisor comes with one whose square does not exceed the number. */
  lemma {:induction false} SmallDivisor(d: nat, n: nat) returns (e: nat)
    requires 2 <= d < n && Divides(d, n)
    ensures 2 <= e < n && e * e <= n && Divides(e, n)
  {
    var q: nat :| q * d == n;
    assert q == 0 ==> q * d == 0;
    assert q == 1 ==> q * d == d;
    assert d * q == n;
    if d <= q {
      e := d;
      Grows(d, q, d);
    } else {
      e := q;
      Grows(q, d, q);
      Grows(2, d, q);
    }
  }

  /** No divisor from 2 on whose square is at most `n` lies below `i`. */
  ghost predicate NoSmallDivisor(n: nat, i: nat) {
    forall d: nat :: 2 <= d < i && d * d <= n ==> !Divides(d, n)
  }

  /** When the squares are used up, the number is prime. */
  lemma {:induction false} NoSmallDivisorIsPrime(n: nat, i: nat)
    requires n >= 2 && i >= 2 && i * i > n
    ensures NoSmallDivisor(n, i) <==> IsPrimeNumber(n)
  {
    if NoSmallDivisor(n, i) {
      forall d: nat | 2 <= d < n ensures !Divides(d, n) {
        SmallSquares(n, i);
        if Divides(d, n) {
          var e := SmallDivisor(d, n);
          assert false;
        }
      }
    } else {
      var d: nat :| 2 <= d < i && d * d <= n && Divides(d, n);
      Grows(2, d, d);
    }
  }

  lemma {:induction false} SmallSquares(n: nat, i: nat)
    requires i * i > n
    ensures forall e: nat :: e * e <= n ==> e < i
  {
    forall e: nat | e >= i ensures e * e > n {
      Grows(i, e, i);
      Grows(i, e, e);
    }
  }

  lemma {:induction false} IsBelowSquare(i: nat, n: nat)
    requires i >= 2 && i * i <= n
    ensures i < n
  {
    Grows(2, i, i);
  }

  // ---------------------------------------------------------------- on the fly

  method IsDivisible(n: nat, i: nat) returns (divisible: bool)
    requires i > 0
    ensures divisible <==> Divides(i, n)
  {
    DividesIsZeroRest(i, n);
    divisible := n % i == 0;
  }

  method IsPrime(n: int) returns (prime: bool)
    ensures prime <==> IsPrimeNumber(n)
  {
    if n <= 1 {
      return false;
    }
    var i := 2;
    while i * i <= n
      invariant i >= 2 && NoSmallDivisor(n, i)
      decreases n - i
    {
      IsBelowSquare(i, n);
      var divisible := IsDivisible(n, i);
      if divisible {
        return false;
      }
      i := i + 1;
    }
    NoSmallDivisorIsPrime(n, i);
    prime := true;
  }

  function Factorial(n: nat): (f: nat)
    ensures f >= 1
  {
    if n == 0 then 1 else n * Factorial(n - 1)
  }

  lemma {:induction false} DividesFactorial(d: nat, n: nat)
    requires 1 <= d <= n
    ensures Divides(d, Factorial(n))
  {
    if d == n {
      assert Factorial(n - 1) * d == Factorial(n);
    } else {
      DividesFactorial(d, n - 1);
      assert n * Factorial(n - 1) == Factorial(n);
      DividesTransitive(d, Factorial(n - 1), Factorial(n));
    }
  }

  lemma {:induction false} PrimeFactor(n: nat) returns (p: nat)
    requires n >= 2
    ensures IsPrimeNumber(p) && Divides(p, n) && p <= n
  {
    if IsPrimeNumber(n) {
      p := n;
      assert 1 * n == n;
    } else {
      var d: nat :| 2 <= d < n && Divides(d, n);
      p := PrimeFactor(d);
      DividesTransitive(p, d, n);
    }
  }

  /** There is no greatest prime number. */
  lemma {:induction false} PrimesGoOn(p: nat) returns (q: nat)
    ensures p < q && IsPrimeNumber(q)
  {
    q := PrimeFactor(Factorial(p) + 1);
    if q <= p {
      DividesFactorial(q, p);
      DividesBoth(q, Factorial(p));
    }
  }

  lemma {:induction false} DividesBoth(q: nat, n: nat)
    requires q >= 2 && Divides(q, n)
    ensures !Divides(q, n + 1)
  {
    var a: nat :| a * q == n;
    forall b: nat ensures b * q != n + 1 {
      assert b * q - a * q == (b - a) * q;
      if b - a >= 1 {
        Grows(1, b - a, q);
      } else {
        Grows(b - a, 0, q);
      }
    }
  }

  /** `OnTheFlyPrimeTable::GetNextPrime`. The search ends because there is always a next prime. */
  method GetNextPrime(p: int) returns (r: int)
    ensures p < 0 ==> r == -1
    ensures p >= 0 ==> IsNextPrime(p, r)
  {
    if p < 0 {
      return -1;
    }
    ghost var bound := PrimesGoOn(p);
    var n := p + 1;
    while true
      invariant p < n <= bound && forall k :: p < k < n ==> !IsPrimeNumber(k)
      decreases bound - n
    {
      var prime := IsPrime(n);
      if prime {
        return n;
      }
      n := n + 1;
    }
  }

  lemma {:induction false} NextPrimeIsUnique(p: int, a: int, b: int)
    requires IsNextPrime(p, a) && IsNextPrime(p, b)
    ensures a == b
  {
  }

  // ---------------------------------------------------------------- the sieve

  /** No divisor below `i` has marked `k`. */
  ghost predicate Unmarked(k: nat, i: nat) {
    k >= 2 && NoSmallDivisor(k, i)
  }

  /** Nor has `i`, as far as its multiples from its square on but below `j`. */
  ghost predicate UnmarkedBelow(k: nat, i: nat, j: nat) {
    Unmarked(k, i) && !(i * i <= k < j && Divides(i, k))
  }

  lemma {:induction false} NextMultiple(i: nat, j: nat, k: nat)
    requires i > 0 && Divides(i, j)
    requires j < k < j + i
    ensures !Divides(i, k)
  {
    var m: nat :| m * i == j;
    forall q: nat ensures q * i != k {
      if q <= m {
        Grows(q, m, i);
      } else {
        Grows(m + 1, q, i);
      }
    }
  }

  lemma {:induction false} MultipleAfter(i: nat, j: nat)
    requires Divides(i, j)
    ensures Divides(i, j + i)
  {
    var m: nat :| m * i == j;
    assert (m + 1) * i == j + i;
  }

  /** Marking one multiple. */
  lemma {:induction false} MarkOne(k: nat, i: nat, j: nat)
    requires i >= 2 && Divides(i, j) && i * i <= j
    ensures UnmarkedBelow(k, i, j + i) <==> UnmarkedBelow(k, i, j) && k != j
  {
    if j < k < j + i {
      NextMultiple(i, j, k);
    }
  }

  /** After all multiples of `i` are marked, the next candidate is `i + 1`. */
  lemma {:induction false} MarkedAll(k: nat, i: nat, j: nat)
    requires i >= 2 && k < j
    ensures UnmarkedBelow(k, i, j) <==> Unmarked(k, i + 1)
  {
  }

  /** A candidate that is marked has a divisor that has marked all its multiples. */
  lemma {:induction false} SkipMarked(k: nat, i: nat)
    requires i >= 2 && !Unmarked(i, i)
    ensures Unmarked(k, i) <==> Unmarked(k, i + 1)
  {
    var d: nat :| 2 <= d < i && d * d <= i && Divides(d, i);
    if i * i <= k && Divides(i, k) {
      DividesTransitive(d, i, k);
      Grows(1, i, i);
      assert d * d <= k && Divides(d, k);
    }
  }

  /** So has an even candidate. */
  lemma {:induction false} SkipEven(k: nat, i: nat)
    requires i > 2 && i % 2 == 0
    ensures Unmarked(k, i) <==> Unmarked(k, i + 1)
  {
    if i * i <= k && Divides(i, k) {
      assert i / 2 * 2 == i;
      DividesTransitive(2, i, k);
      Grows(2, i, 2);
      Grows(2, i, i);
      assert 2 * 2 <= k && Divides(2, k);
    }
  }

  class PreCalculatedPrimeTable {
    const isPrime: array<bool>

    ghost predicate Valid() reads this, isPrime {
      forall k :: 0 <= k < isPrime.Length ==> (isPrime[k] <==> IsPrimeNumber(k))
    }

    /** The constructor writes the entries 0 and 1, so the table must hold them. */
    constructor (max: nat)
      requires max >= 1
      ensures Valid() && fresh(isPrime) && isPrime.Length == max + 1
    {
      isPrime := new bool[max + 1](_ => true);
      new;
      CalculatePrimesUpTo(max);
    }

    method CalculatePrimesUpTo(max: nat)
      requires isPrime.Length == max + 1 && max >= 1
      modifies isPrime
      ensures Valid()
    {
      for k := 0 to max + 1
        invariant forall j :: 0 <= j < k ==> isPrime[j]
      {
        isPrime[k] := true;
      }
      isPrime[0], isPrime[1] := false, false;
      var i := 2;
      while i * i <= max
        invariant i >= 2 && (i == 2 || i % 2 == 1)
        invariant Sieved(i)
        decreases max - i
      {
        i := NextCandidate(max, i);
      }
      Finish(max, i);
    }

    /** The body of the outer loop. */
    method NextCandidate(max: nat, i: nat) returns (next: nat)
      requires isPrime.Length == max + 1 && i >= 2 && i * i <= max && (i == 2 || i % 2 == 1) && Sieved(i)
      modifies isPrime
      ensures next == i + i % 2 + 1 && i < max && next % 2 == 1 && Sieved(next)
    {
      IsBelowSquare(i, max);
      if isPrime[i] {
        MarkMultiples(max, i);
      } else {
        SkipSieved(i);
      }
      if i % 2 == 1 {
        SkipEvenSieved(i + 1);
      }
      next := i + i % 2 + 1;
    }

    ghost predicate Sieved(i: nat) reads this, isPrime {
      forall k :: 0 <= k < isPrime.Length ==> (isPrime[k] <==> Unmarked(k, i))
    }

    lemma {:induction false} SkipSieved(i: nat)
      requires Sieved(i) && 2 <= i < isPrime.Length && !isPrime[i]
      ensures Sieved(i + 1)
    {
      forall k | 0 <= k < isPrime.Length ensures isPrime[k] <==> Unmarked(k, i + 1) {
        SkipMarked(k, i);
      }
    }

    lemma {:induction false} SkipEvenSieved(i: nat)
      requires Sieved(i) && i > 2 && i % 2 == 0
      ensures Sieved(i + 1)
    {
      forall k | 0 <= k < isPrime.Length ensures isPrime[k] <==> Unmarked(k, i + 1) {
        SkipEven(k, i);
      }
    }

    lemma {:induction false} Finish(max: nat, i: nat)
      requires isPrime.Length == max + 1 && Sieved(i) && i >= 2 && i * i > max
      ensures Valid()
    {
      forall k | 0 <= k < isPrime.Length ensures isPrime[k] <==> IsPrimeNumber(k) {
        if k >= 2 { NoSmallDivisorIsPrime(k, i); }
      }
    }

    /** The inner loop, from the square of `i` on. */
    method MarkMultiples(max: nat, i: nat)
      requires isPrime.Length == max + 1 && 2 <= i && Sieved(i)
      modifies isPrime
      ensures Sieved(i + 1)
    {
      var j := i * i;
      assert Divides(i, j);
      while j <= max
        invariant i * i <= j && Divides(i, j)
        invariant forall k :: 0 <= k <= max ==> (isPrime[k] <==> UnmarkedBelow(k, i, j))
        decreases max - j
      {
        forall k | 0 <= k <= max ensures UnmarkedBelow(k, i, j + i) <==> UnmarkedBelow(k, i, j) && k != j {
          MarkOne(k, i, j);
        }
        MultipleAfter(i, j);
        isPrime[j] := false;
        j := j + i;
      }
      forall k | 0 <= k <= max ensures isPrime[k] <==> Unmarked(k, i + 1) {
        MarkedAll(k, i, j);
      }
    }

    method IsPrime(n: int) returns (prime: bool)
      requires Valid()
      ensures prime <==> n < isPrime.Length && IsPrimeNumber(n)
    {
      prime := 0 <= n < isPrime.Length && isPrime[n];
    }

    /** `GetNextPrime`; below -1 the search would leave the table. */
    method GetNextPrime(p: int) returns (r: int)
      requires Valid() && p >= -1
      ensures r == -1 <==> forall q :: p < q < isPrime.Length ==> !IsPrimeNumber(q)
      ensures r != -1 ==> r < isPrime.Length && IsNextPrime(p, r)
    {
      var n := p + 1;
      while n < isPrime.Length
        invariant p < n && forall k :: p < k < n ==> !IsPrimeNumber(k)
      {
        if isPrime[n] {
          return n;
        }
        n := n + 1;
      }
      r := -1;
    }
  }

  /** The two tables agree, as far as the second one reaches. */
  method CompareTables(table: PreCalculatedPrimeTable, p: int) returns (a: int, b: int)
    requires table.Valid() && p >= 0
    ensures b != -1 ==> a == b
    ensures b == -1 ==> a >= table.isPrime.Length
  {
    a := GetNextPrime(p);
    b := table.GetNextPrime(p);
    if b != -1 {
      NextPrimeIsUnique(p, a, b);
    }
  }
}

/**
  The two prime tables: trial division on the fly, and a sieve filled in advance.
 */
module PrimeTables {

  // ---------------------------------------------------------------- primes

  function Mul(a: int, b: int): int { a * b }

  ghost predicate Divides(d: int, n: int) {
    exists k :: n == Mul(d, k)
  }

  /** A number above one that nothing between one and itself divides. */
  ghost predicate Prime(n: int) {
    n >= 2 && forall d :: 2 <= d < n ==> !Divides(d, n)
  }

  lemma {:induction false} RemainderIff(d: int, n: int)
    requires d > 0
    ensures n % d == 0 <==> Divides(d, n)
  {
    if n % d == 0 {
      assert n == Mul(d, n / d);
    }
    if k :| n == Mul(d, k) {
      RemainderOfMultiple(d, k, n / d, n % d);
    }
  }

  lemma {:induction false} RemainderOfMultiple(d: int, k: int, q: int, r: int)
    requires d > 0 && d * k == d * q + r && 0 <= r < d
    ensures r == 0
  {
    assert d * (k - q) == r;
    if k - q >= 1 {
      MulMono(1, k - q, d);
    } else if k - q <= -1 {
      MulMono(1, q - k, d);
    }
  }

  lemma {:induction false} MulMono(a: int, b: int, c: int)
    requires a <= b && 0 <= c
    ensures a * c <= b * c
  {
    assert (b - a) * c >= 0;
  }

  lemma {:induction false} DividesTransitive(a: int, b: int, c: int)
    requires Divides(a, b) && Divides(b, c)
    ensures Divides(a, c)
  {
    var k :| b == Mul(a, k);
    var m :| c == Mul(b, m);
    assert c == Mul(a, k * m);
  }

  /** A proper divisor and its cofactor lie between one and the number. */
  lemma {:induction false} CofactorBounds(d: int, k: int, n: int)
    requires n == d * k && 2 <= d < n
    ensures 2 <= k < n
  {
    if k <= 1 {
      MulMono(k, 1, d);
    } else if k >= n {
      MulMono(2, d, k);
    }
  }

  /** A number above one that is not prime has a divisor above one whose square is not larger. */
  lemma {:induction false} SmallDivisor(n: int) returns (m: int)
    requires n >= 2 && !Prime(n)
    ensures 2 <= m < n && Divides(m, n) && m * m <= n
  {
    var d :| 2 <= d < n && Divides(d, n);
    var k :| n == Mul(d, k);
    CofactorBounds(d, k, n);
    if d <= k {
      m := d;
      MulMono(d, k, d);
    } else {
      m := k;
      assert n == Mul(k, d);
      MulMono(k, d, k);
    }
  }

  /** It even has a prime divisor whose square is not larger. */
  lemma {:induction false} SmallPrimeDivisor(n: int) returns (p: int)
    requires n >= 2 && !Prime(n)
    ensures Prime(p) && Divides(p, n) && p * p <= n && p < n
    decreases n
  {
    var m := SmallDivisor(n);
    if Prime(m) {
      p := m;
    } else {
      p := SmallPrimeDivisor(m);
      DividesTransitive(p, m, n);
      SquareMono(p, m);
    }
  }

  lemma {:induction false} SquareMono(a: int, b: int)
    requires 0 <= a <= b
    ensures a * a <= b * b
  {
    MulMono(a, b, a);
    MulMono(a, b, b);
  }

  // ---------------------------------------------------------------- trial division

  /** Trying divisors up to the square root decides primality. */
  method IsPrime(n: int) returns (prime: bool)
    ensures prime <==> Prime(n)
  {
    if n <= 1 {
      return false;
    }
    var i := 2;
    while i * i <= n
      invariant 2 <= i
      invariant forall d :: 2 <= d < i && d < n ==> !Divides(d, n)
      decreases n - i
    {
      MulMono(2, i, i);
      RemainderIff(i, n);
      if n % i == 0 {
        return false;
      }
      i := i + 1;
    }
    if !Prime(n) {
      var m := SmallDivisor(n);
      SquareMono(i, m);
      assert false;
    }
    return true;
  }

  // ---------------------------------------------------------------- infinitely many primes

  ghost function Factorial(n: nat): (f: nat)
    ensures f >= 1
  {
    if n == 0 then 1 else n * Factorial(n - 1)
  }

  lemma {:induction false} FactorialMultiple(n: nat, d: int)
    requires 1 <= d <= n
    ensures Divides(d, Factorial(n))
  {
    if d == n {
      assert Factorial(n) == Mul(d, Factorial(n - 1));
    } else {
      FactorialMultiple(n - 1, d);
      assert Factorial(n) == Mul(Factorial(n - 1), n);
      DividesTransitive(d, Factorial(n - 1), Factorial(n));
    }
  }

  /** No number above one divides two neighbours. */
  lemma {:induction false} NoCommonDivisor(p: int, n: int)
    requires p >= 2 && Divides(p, n)
    ensures !Divides(p, n + 1)
  {
    var a :| n == Mul(p, a);
    if b :| n + 1 == Mul(p, b) {
      assert p * (b - a) == 1;
      if b - a >= 1 {
        MulMono(1, b - a, p);
      } else {
        MulMono(b - a, 0, p);
      }
    }
  }

  /** Above every number there is a prime: a prime divisor of the factorial plus one. */
  lemma {:induction false} PrimeAbove(n: nat) returns (p: int)
    ensures Prime(p) && p > n
  {
    var f := Factorial(n) + 1;
    if Prime(f) {
      p := f;
      assert f == Mul(f, 1);
    } else {
      p := SmallPrimeDivisor(f);
    }
    if p <= n {
      FactorialMultiple(n, p);
      NoCommonDivisor(p, Factorial(n));
    }
  }

  /** The least prime above p, for non-negative p; for negative p the loop ends at once. */
  method GetNextPrimeOnTheFly(p: int) returns (next: int)
    ensures p < 0 ==> next == -1
    ensures p >= 0 ==> next > p && Prime(next) && forall n :: p < n < next ==> !Prime(n)
  {
    ghost var bound := 0;
    if p >= 0 {
      bound := PrimeAbove(p);
    }
    var n := p + 1;
    while n > 0
      invariant if p < 0 then n == p + 1 else p < n <= bound
      invariant forall m :: p < m < n ==> !Prime(m)
      decreases bound - n
    {
      var prime := IsPrime(n);
      if prime {
        return n;
      }
      n := n + 1;
    }
    return -1;
  }

  // ---------------------------------------------------------------- the sieve

  class PreCalculatedPrimeTable {
    const isPrimeSize: int
    const isPrime: array<bool>

    /** The table holds the truth for every number up to its maximum. */
    ghost predicate Valid()
      reads this, isPrime
    {
      isPrimeSize == isPrime.Length && forall n :: 0 <= n < isPrime.Length ==> (isPrime[n] <==> Prime(n))
    }

    constructor (max: int)
      requires max >= 1
      ensures Valid() && isPrimeSize == max + 1 && fresh(isPrime)
    {
      isPrimeSize := max + 1;
      isPrime := new bool[max + 1];
      new;
      CalculatePrimesUpTo(isPrime, max);
    }

    method IsPrimeAt(n: int) returns (prime: bool)
      requires Valid()
      ensures prime <==> n < isPrimeSize && Prime(n)
    {
      prime := 0 <= n < isPrimeSize && isPrime[n];
    }

    /** The least prime above p in the table, or -1 when the table holds none. */
    method GetNextPrime(p: int) returns (next: int)
      requires Valid() && p >= -1
      ensures next == -1 ==> forall n :: p < n < isPrimeSize ==> !Prime(n)
      ensures next != -1 ==> p < next < isPrimeSize && Prime(next) && forall n :: p < n < next ==> !Prime(n)
    {
      var n := p + 1;
      while n < isPrimeSize
        invariant n >= p + 1
        invariant forall m :: p < m < n && m < isPrimeSize ==> !Prime(m)
      {
        if isPrime[n] {
          return n;
        }
        n := n + 1;
      }
      return -1;
    }
  }

  /** n is a multiple of d from d squared on. */
  ghost predicate MarkedBy(d: int, n: int) {
    d * d <= n && Divides(d, n)
  }

  /** The candidates of the sieve: two and the odd numbers above it. */
  ghost predicate Candidate(i: int) {
    i == 2 || (i >= 3 && i % 2 == 1)
  }

  /** What the table says once all primes below i were used. */
  ghost predicate SieveState(table: seq<bool>, i: int) {
    forall n :: 0 <= n < |table| ==>
      (table[n] <==> n >= 2 && forall d :: 2 <= d < i && Prime(d) ==> !MarkedBy(d, n))
  }

  /** The sieve of Eratosthenes: after two only odd candidates, marking from the square on, up to the square root. */
  method CalculatePrimesUpTo(isPrime: array<bool>, max: int)
    requires max >= 1 && isPrime.Length == max + 1
    modifies isPrime
    ensures forall n :: 0 <= n <= max ==> (isPrime[n] <==> Prime(n))
  {
    forall n | 0 <= n < isPrime.Length {
      isPrime[n] := true;
    }
    isPrime[0], isPrime[1] := false, false;
    var i := 2;
    ghost var table := isPrime[..];
    while i * i <= max
      invariant Candidate(i)
      invariant table == isPrime[..] && SieveState(table, i)
      decreases max - i
    {
      MulMono(2, i, i);
      CandidateDecided(table, i);
      if isPrime[i] {
        MarkMultiples(isPrime, i, max);
      }
      ghost var before := table;
      table := isPrime[..];
      SieveMovesOn(before, table, i);
      i := i + i % 2 + 1;
    }
    SieveDone(table, i, max);
  }

  /** The inner loop: strikes out the multiples of i from i squared on. */
  method MarkMultiples(isPrime: array<bool>, i: int, max: int)
    requires 2 <= i && isPrime.Length == max + 1
    modifies isPrime
    ensures forall n :: 0 <= n <= max ==> (isPrime[n] <==> old(isPrime[n]) && !MarkedBy(i, n))
  {
    var j := i * i;
    ghost var k := i;
    while j <= max
      invariant j == i * k && k >= i && j >= i * i
      invariant forall n :: 0 <= n <= max ==> (isPrime[n] <==> old(isPrime[n]) && !(MarkedBy(i, n) && n < j))
      decreases max - j
    {
      assert MarkedBy(i, j) by { assert j == Mul(i, k); }
      NoMultipleBetween(i, k);
      isPrime[j] := false;
      j := j + i;
      k := k + 1;
    }
  }

  lemma {:induction false} NoMultipleBetween(i: int, k: int)
    requires i >= 2
    ensures forall n :: i * k < n < i * k + i ==> !Divides(i, n)
  {
    forall n | i * k < n < i * k + i ensures !Divides(i, n) {
      if m :| n == Mul(i, m) {
        if m <= k {
          MulMono(m, k, i);
        } else {
          MulMono(k + 1, m, i);
        }
      }
    }
  }

  /** When the sieve reaches i, the table has decided i. */
  lemma {:induction false} CandidateDecided(table: seq<bool>, i: int)
    requires SieveState(table, i) && 2 <= i < |table|
    ensures table[i] <==> Prime(i)
  {
    if Prime(i) {
      forall d | 2 <= d < i && Prime(d) ensures !MarkedBy(d, i) {
        assert !Divides(d, i);
      }
    } else {
      var p := SmallPrimeDivisor(i);
      assert MarkedBy(p, i);
    }
  }

  /** Using i, if it is prime, and skipping the even number behind an odd one. */
  lemma {:induction false} SieveMovesOn(before: seq<bool>, after: seq<bool>, i: int)
    requires SieveState(before, i) && |after| == |before| && Candidate(i)
    requires forall n :: 0 <= n < |before| ==> (after[n] <==> before[n] && !(Prime(i) && MarkedBy(i, n)))
    ensures SieveState(after, i + i % 2 + 1) && Candidate(i + i % 2 + 1)
  {
    if i > 2 {
      assert i + 1 == Mul(2, (i + 1) / 2);
      assert !Prime(i + 1) by { assert Divides(2, i + 1); }
    }
    forall d | i <= d < i + i % 2 + 1 && Prime(d) ensures d == i {
    }
  }

  lemma {:induction false} SieveDone(table: seq<bool>, i: int, max: int)
    requires SieveState(table, i) && |table| == max + 1 && i >= 2 && i * i > max
    ensures forall n :: 0 <= n <= max ==> (table[n] <==> Prime(n))
  {
    forall n | 0 <= n <= max ensures table[n] <==> Prime(n) {
      if n >= 2 {
        if Prime(n) {
          forall d | 2 <= d < i && Prime(d) ensures !MarkedBy(d, n) {
            MulMono(2, d, d);
            assert d * d <= n ==> d < n;
          }
        } else {
          var p := SmallPrimeDivisor(n);
          if p >= i {
            SquareMono(i, p);
          }
          assert MarkedBy(p, n);
        }
      }
    }
  }
}

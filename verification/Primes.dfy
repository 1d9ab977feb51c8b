// Trial division, and the facts that make an open-ended prime search end.

module Primes {
  import opened Sequences
  import opened Arithmetic

  ghost predicate Divides(d: int, v: int)
    requires d > 0
  {
    v % d == 0
  }

  ghost predicate Prime(v: int) {
    2 <= v && forall d :: 2 <= d < v ==> !Divides(d, v)
  }

  // ------------------------------------------------------------ divisibility

  lemma MultipleDivides(d: int, k: int)
    requires d > 0
    ensures Divides(d, d * k)
  {
    assert d * k == k * d + 0;
    DivModUnique(d, k, 0);
  }

  lemma Quotient(d: int, v: int) returns (k: int)
    requires d > 0 && Divides(d, v)
    ensures v == d * k
    ensures 0 < v ==> 0 < k
    ensures 0 < d < v ==> k >= 2
  {
    k := v / d;
    assert v == d * k;
    MulMonotone(k, 1, d);
    MulMonotone(k, 0, d);
  }

  // ---------------------------------------------------------- trial division

  // A divisor's cofactor: one of the two lies below any d with v < d * d.
  lemma Cofactor(v: int, k: int, d: int) returns (c: int)
    requires 2 <= k < v < d * d && 2 <= d && Divides(k, v)
    ensures 2 <= c < v && Divides(c, v)
    ensures k < d || c < d
  {
    c := Quotient(k, v);
    assert v == c * k;
    MultipleDivides(c, k);
    MulMonotone(2, k, c);
    MulMonotone(d, c, d);
    MulMonotone(d, k, c);
  }

  // Below the square root of v lies a divisor of v if anywhere does.
  lemma DivisorsReachRoot(v: int, d: int)
    requires 2 <= d && 2 <= v < d * d
    requires forall k :: 2 <= k < d && k < v ==> !Divides(k, v)
    ensures Prime(v)
  {
    forall k | 2 <= k < v ensures !Divides(k, v) {
      if Divides(k, v) {
        var c := Cofactor(v, k, d);
        assert false;
      }
    }
  }

  lemma EvenTimes(h: int, c: int)
    ensures (2 * h * c) % 2 == 0
  {
    assert 2 * h * c == 2 * (h * c);
  }

  lemma OddHasNoEvenDivisor(v: int, k: int)
    requires k > 0 && k % 2 == 0 && v % 2 != 0
    ensures !Divides(k, v)
  {
    if Divides(k, v) {
      var c := Quotient(k, v);
      EvenTimes(k / 2, c);
    }
  }

  // `_is_prime`
  method IsPrime(v: int) returns (b: bool)
    ensures b <==> Prime(v)
  {
    if v < 2 {
      return false;
    }
    if v % 2 == 0 {
      assert v != 2 ==> Divides(2, v);
      return v == 2;
    }
    var d := 3;
    while d * d <= v
      invariant d >= 3 && d % 2 == 1
      invariant forall k :: 2 <= k < d && k < v ==> !Divides(k, v)
      decreases v - d
    {
      MulMonotone(3, d, d);
      if v % d == 0 {
        assert Divides(d, v);
        return false;
      }
      assert 3 * d <= d * d;
      assert !Divides(d, v);
      OddHasNoEvenDivisor(v, d + 1);
      d := d + 2;
    }
    DivisorsReachRoot(v, d);
    b := true;
  }

  // -------------------------------------------------------- there is always more

  ghost function Factorial(n: nat): (f: int)
    ensures f >= 1
  {
    if n == 0 then 1 else Grow(n, Factorial(n - 1))
  }

  ghost function Grow(n: int, f: int): (r: int)
    requires n >= 1 && f >= 1
    ensures r >= f && r >= n
  {
    assert n * f >= f && n * f >= n by {
      assert n * f - f == (n - 1) * f;
      assert n * f - n == n * (f - 1);
    }
    n * f
  }

  lemma MulSwap(a: int, b: int, c: int)
    ensures a * (b * c) == b * (a * c)
  {
    assert (a * b) * c == (b * a) * c;
  }

  lemma {:induction false} FactorialDivisible(n: nat, d: int) returns (k: int)
    requires 1 <= d <= n
    ensures Factorial(n) == d * k
  {
    if d == n {
      k := Factorial(n - 1);
    } else {
      var j := FactorialDivisible(n - 1, d);
      k := n * j;
      MulSwap(n, d, j);
    }
  }

  lemma {:induction false} PrimeDivisor(v: int) returns (p: int)
    requires v >= 2
    ensures Prime(p) && Divides(p, v)
    decreases v
  {
    if Prime(v) {
      p := v;
      MultipleDivides(v, 1);
    } else {
      var d :| 2 <= d < v && Divides(d, v);
      p := PrimeDivisor(d);
      var a := Quotient(p, d);
      var b := Quotient(d, v);
      assert v == p * (a * b);
      MultipleDivides(p, a * b);
    }
  }

  lemma NotDividesSuccessor(d: int, k: int, v: int)
    requires d >= 2 && v == d * k
    ensures !Divides(d, v + 1)
  {
    assert v + 1 == k * d + 1;
    DivModUnique(d, k, 1);
  }

  // Euclid: a prime beyond any bound.
  lemma PrimeBeyond(n: int) returns (p: int)
    ensures p > n && Prime(p)
  {
    var m: nat := if n < 1 then 1 else n;
    p := PrimeDivisor(Factorial(m) + 1);
    if p <= m {
      var k := FactorialDivisible(m, p);
      NotDividesSuccessor(p, k, Factorial(m));
      assert false;
    }
  }

  lemma {:induction false} UpperBound(s: set<int>) returns (m: int)
    ensures forall x :: x in s ==> x <= m
  {
    m := 0;
    if x :| x in s {
      m := UpperBound(s - {x});
      assert forall y :: y in s ==> y == x || y in s - {x};
      m := if x > m then x else m;
    }
  }

  // A prime beyond any bound and outside any finite set.
  lemma PrimeOutside(n: int, seen: set<int>) returns (p: int)
    ensures p > n && Prime(p) && p !in seen
  {
    var m := UpperBound(seen);
    p := PrimeBeyond(if m > n then m else n);
  }

  // ---------------------------------------------------------- the n-th prime

  // The first prime from n on that is not in `seen`.
  ghost predicate IsNext(n: int, seen: set<int>, p: int) {
    n <= p && Prime(p) && p !in seen && forall q :: n <= q < p && Prime(q) ==> q in seen
  }

  ghost function Search(n: int, bound: int): (p: int)
    requires n <= bound && Prime(bound)
    ensures IsNext(n, {}, p)
    decreases bound - n
  {
    if Prime(n) then n else Search(n + 1, bound)
  }

  lemma SomePrimeFrom(n: int)
    ensures exists bound :: n <= bound && Prime(bound)
  {
    var b := PrimeBeyond(n);
  }

  ghost function NextPrime(n: int): (p: int)
    ensures IsNext(n, {}, p)
  {
    SomePrimeFrom(n);
    var bound :| n <= bound && Prime(bound);
    Search(n, bound)
  }

  // The k-th prime at or above the base, counting from 0.
  ghost function NthPrime(base: int, k: nat): (p: int)
    ensures Prime(p) && p >= base
  {
    if k == 0 then NextPrime(base) else NextPrime(NthPrime(base, k - 1) + 1)
  }

  ghost function FirstPrimes(base: int, n: nat): (s: seq<int>)
    ensures |s| == n
    ensures forall k :: 0 <= k < n ==> s[k] == NthPrime(base, k)
  {
    if n == 0 then [] else FirstPrimes(base, n - 1) + [NthPrime(base, n - 1)]
  }

  lemma {:induction false} NthPrimeIncreases(base: int, j: nat, k: nat)
    requires j < k
    ensures NthPrime(base, j) < NthPrime(base, k)
  {
    if j < k - 1 {
      NthPrimeIncreases(base, j, k - 1);
    }
  }

  lemma {:induction false} LocatePrime(base: int, n: nat, q: int) returns (k: nat)
    requires Prime(q) && NthPrime(base, n) <= q
    ensures n <= k && NthPrime(base, k) == q
    decreases q - NthPrime(base, n)
  {
    if NthPrime(base, n) == q {
      k := n;
    } else {
      k := LocatePrime(base, n + 1, q);
    }
  }

  // `FirstPrimes` runs through the primes at or above the base in order and leaves
  // none out: it is the only sequence its name could mean.
  lemma EveryPrimeIsNth(base: int, q: int) returns (k: nat)
    requires Prime(q) && base <= q
    ensures NthPrime(base, k) == q
  {
    k := LocatePrime(base, 0, q);
  }

  lemma FirstPrimesIncrease(base: int, n: nat)
    ensures forall j, k :: 0 <= j < k < n ==> FirstPrimes(base, n)[j] < FirstPrimes(base, n)[k]
  {
    forall j, k | 0 <= j < k < n ensures FirstPrimes(base, n)[j] < FirstPrimes(base, n)[k] {
      NthPrimeIncreases(base, j, k);
    }
  }

  // A smaller base never gives a larger k-th prime.
  lemma {:induction false} NthPrimeMonotone(base: int, base': int, k: nat)
    requires base <= base'
    ensures NthPrime(base, k) <= NthPrime(base', k)
  {
    if k > 0 {
      NthPrimeMonotone(base, base', k - 1);
    }
  }

  lemma NthNotAmongFirst(base: int, n: nat)
    ensures NthPrime(base, n) !in FirstPrimes(base, n)
  {
    forall k | 0 <= k < n ensures FirstPrimes(base, n)[k] != NthPrime(base, n) {
      NthPrimeIncreases(base, k, n);
    }
  }

  lemma FirstPrimesMember(base: int, n: nat, k: nat)
    requires k < n
    ensures NthPrime(base, k) in FirstPrimes(base, n)
  {
    assert FirstPrimes(base, n)[k] == NthPrime(base, k);
  }

  // With the first n primes from the base used up, the search answers the next.
  lemma NextAfterFirst(base: int, n: nat, start: int, p: int)
    requires base - 1 <= start < NthPrime(base, n)
    requires IsNext(start + 1, Elements(FirstPrimes(base, n)), p)
    ensures p == NthPrime(base, n)
  {
    NthNotAmongFirst(base, n);
    var k := EveryPrimeIsNth(base, p);
    if k < n {
      FirstPrimesMember(base, n, k);
      assert false;
    }
    if k > n {
      NthPrimeIncreases(base, n, k);
      assert false;
    }
  }
}

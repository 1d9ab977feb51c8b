// The two derivations of a hashed table's head sizes: consecutive primes from a
// base, and the same primes drawn by a search that restarts for every order.

module HashGeometry {
  import opened Sequences
  import opened Arithmetic
  import opened Primes

  function Sum(s: seq<int>): int {
    if s == [] then 0 else Sum(s[..|s| - 1]) + s[|s| - 1]
  }

  lemma SumAppend(s: seq<int>, x: int)
    ensures Sum(s + [x]) == Sum(s) + x
  {
    assert (s + [x])[..|s|] == s;
  }

  // Where each head's segment starts: the heads before it, added up.
  ghost predicate PrefixSums(primes: seq<int>, offsets: seq<int>) {
    |offsets| == |primes| && forall h :: 0 <= h < |primes| ==> offsets[h] == Sum(primes[..h])
  }

  lemma PrefixSumsAppend(primes: seq<int>, offsets: seq<int>, p: int)
    requires PrefixSums(primes, offsets)
    ensures PrefixSums(primes + [p], offsets + [Sum(primes)])
  {
    forall h | 0 <= h <= |primes|
      ensures (offsets + [Sum(primes)])[h] == Sum((primes + [p])[..h])
    {
      assert (primes + [p])[..h] == primes[..h];
      if h == |primes| {
        assert primes[..h] == primes;
      }
    }
  }

  // The least multiple of `quantum` that is no less than `total`.
  ghost predicate RoundedUp(total: int, quantum: nat, padded: int) {
    quantum > 0 && padded % quantum == 0 && total <= padded < total + quantum
  }

  // Python's `-(-total // quantum) * quantum`, whose division floors.
  function RoundUp(total: int, quantum: nat): (padded: int)
    requires quantum > 0
    ensures RoundedUp(total, quantum, padded)
  {
    var q := (-total) / quantum;
    DivModUnique(quantum, -q, 0);
    assert -total == q * quantum + (-total) % quantum;
    -q * quantum
  }

  // The lists a derivation has built: each head's size, and where it starts.
  ghost predicate Laid(primes: seq<int>, offsets: seq<int>, total: int) {
    PrefixSums(primes, offsets) && total == Sum(primes)
  }

  lemma NothingLaid()
    ensures Laid([], [], 0)
  {
  }

  lemma LayNext(primes: seq<int>, offsets: seq<int>, total: int, p: int)
    requires Laid(primes, offsets, total)
    ensures Laid(primes + [p], offsets + [total], total + p)
  {
    PrefixSumsAppend(primes, offsets, p);
    SumAppend(primes, p);
  }

  // The search for one head's prime.
  method SearchFrom(start: int) returns (prime: int)
    ensures prime == NextPrime(start)
  {
    hide Prime;
    prime := start;
    ghost var next := NextPrime(start);
    var found := IsPrime(prime);
    while !found
      invariant start <= prime <= next && (found <==> Prime(prime))
      decreases next - prime
    {
      prime := prime + 1;
      found := IsPrime(prime);
    }
  }

  // The h-th prime, by the state the search is in before it.
  lemma NextOfNth(base: int, h: nat, prime: int)
    requires prime == if h == 0 then base - 1 else NthPrime(base, h - 1)
    ensures NextPrime(prime + 1) == NthPrime(base, h)
  {
  }

  // `ngram_hash_geometry`
  method NgramHashGeometry(base: int, heads: nat, divisibleBy: nat)
    returns (primes: seq<int>, offsets: seq<int>, padded: int)
    requires divisibleBy > 0
    ensures primes == FirstPrimes(base, heads)
    ensures PrefixSums(primes, offsets)
    ensures RoundedUp(Sum(primes), divisibleBy, padded)
  {
    hide Prime, NextPrime, PrefixSums, Sum;
    primes, offsets := [], [];
    var total := 0;
    var prime := base - 1;
    NothingLaid();
    for h := 0 to heads
      invariant primes == FirstPrimes(base, h) && Laid(primes, offsets, total)
      invariant prime == if h == 0 then base - 1 else NthPrime(base, h - 1)
    {
      NextOfNth(base, h, prime);
      prime := SearchFrom(prime + 1);
      LayNext(primes, offsets, total, prime);
      primes := primes + [prime];
      offsets := offsets + [total];
      total := total + prime;
    }
    padded := RoundUp(total, divisibleBy);
  }

  // `_next_prime_after`
  method NextPrimeAfter(start: int, seen: set<int>) returns (candidate: int)
    ensures IsNext(start + 1, seen, candidate)
  {
    ghost var bound := PrimeOutside(start, seen);
    candidate := start + 1;
    var prime := IsPrime(candidate);
    while !prime || candidate in seen
      invariant start < candidate <= bound && (prime <==> Prime(candidate))
      invariant forall q :: start + 1 <= q < candidate && Prime(q) ==> q in seen
      decreases bound - candidate
    {
      candidate := candidate + 1;
      prime := IsPrime(candidate);
    }
  }

  datatype Geometry = Geometry(primes: seq<int>, offsets: seq<int>)

  // Every module's primes, one module after another.
  function AllPrimes(modules: seq<Geometry>): seq<int> {
    if modules == [] then [] else AllPrimes(modules[..|modules| - 1]) + modules[|modules| - 1].primes
  }

  // The search, part way: what has been drawn so far is the first |drawn| primes.
  ghost predicate Drawing(base: int, seen: set<int>, drawn: seq<int>) {
    drawn == FirstPrimes(base, |drawn|) && seen == Elements(drawn)
  }

  // ... and the search may go on from `current`.
  ghost predicate Ready(base: int, drawn: seq<int>, current: int) {
    base - 1 <= current < NthPrime(base, |drawn|)
  }

  lemma DrawNext(base: int, seen: set<int>, before: seq<int>, primes: seq<int>, current: int, p: int)
    requires Drawing(base, seen, before + primes) && Ready(base, before + primes, current)
    requires IsNext(current + 1, seen, p)
    ensures Drawing(base, seen + {p}, before + (primes + [p])) && Ready(base, before + (primes + [p]), p)
  {
    hide Prime, IsNext, NextPrime, NthPrime;
    var drawn := before + primes;
    NextAfterFirst(base, |drawn|, current, p);
    NthPrimeIncreases(base, |drawn|, |drawn| + 1);
    assert FirstPrimes(base, |drawn| + 1) == drawn + [p];
    assert Elements(drawn + [p]) == seen + {p};
    assert drawn + [p] == before + (primes + [p]);
  }

  lemma Restart(base: int, drawn: seq<int>)
    ensures Ready(base, drawn, base - 1)
  {
  }

  lemma NextMultiple(o: nat, heads: nat)
    ensures (o + 1) * heads == o * heads + heads
  {
  }

  // One module: the loop over its orders and heads. The ghost `before` is what the
  // modules before it took.
  method ModuleGeometry(base: int, orders: nat, heads: nat, seen0: set<int>, ghost before: seq<int>)
    returns (g: Geometry, seen: set<int>)
    requires Drawing(base, seen0, before)
    ensures Drawing(base, seen, before + g.primes)
    ensures |g.primes| == orders * heads && PrefixSums(g.primes, g.offsets)
  {
    hide Drawing, Ready, PrefixSums, Sum;
    seen := seen0;
    var primes, offsets, total := [], [], 0;
    assert before + primes == before;
    NothingLaid();
    for o := 0 to orders
      invariant Drawing(base, seen, before + primes) && Laid(primes, offsets, total)
      invariant |primes| == o * heads
    {
      var current := base - 1;
      Restart(base, before + primes);
      ghost var already := |primes|;
      for h := 0 to heads
        invariant Drawing(base, seen, before + primes) && Laid(primes, offsets, total)
        invariant Ready(base, before + primes, current)
        invariant |primes| == already + h
      {
        var p := NextPrimeAfter(current, seen);
        DrawNext(base, seen, before, primes, current, p);
        LayNext(primes, offsets, total, p);
        current := p;
        seen := seen + {current};
        primes := primes + [current];
        offsets := offsets + [total];
        total := total + current;
      }
      NextMultiple(o, heads);
    }
    g := Geometry(primes, offsets);
  }

  // `engram_geometry`. Restarting at the base for every order and skipping what is
  // used comes to the same as never restarting: over all modules, orders and heads
  // it draws exactly the primes `NgramHashGeometry` would, in the same order.
  method EngramGeometry(base: int, orders: nat, heads: nat, modules: nat) returns (out: seq<Geometry>)
    ensures |out| == modules && SameSize(out, orders * heads)
    ensures AllPrimes(out) == FirstPrimes(base, modules * (orders * heads))
    ensures forall m :: 0 <= m < modules ==> PrefixSums(out[m].primes, out[m].offsets)
  {
    hide Prime, PrefixSums;
    out := [];
    var seen: set<int> := {};
    for m := 0 to modules
      invariant |out| == m && Drawing(base, seen, AllPrimes(out)) && SameSize(out, orders * heads)
      invariant forall i :: 0 <= i < m ==> PrefixSums(out[i].primes, out[i].offsets)
    {
      var g;
      g, seen := ModuleGeometry(base, orders, heads, seen, AllPrimes(out));
      assert (out + [g])[..m] == out;
      out := out + [g];
    }
    AllPrimesLength(out, orders * heads);
  }

  ghost predicate SameSize(modules: seq<Geometry>, size: nat) {
    forall m :: 0 <= m < |modules| ==> |modules[m].primes| == size
  }

  // No prime serves two heads, whatever their modules.
  lemma NoPrimeRepeats(base: int, n: nat, i: nat, j: nat)
    requires i < n && j < n && FirstPrimes(base, n)[i] == FirstPrimes(base, n)[j]
    ensures i == j
  {
    FirstPrimesIncrease(base, n);
  }

  lemma {:induction false} AllPrimesLength(modules: seq<Geometry>, size: nat)
    requires SameSize(modules, size)
    ensures |AllPrimes(modules)| == |modules| * size
  {
    if modules != [] {
      AllPrimesLength(modules[..|modules| - 1], size);
      NextMultiple(|modules| - 1, size);
    }
  }

  // Module m's j-th prime, among all the primes drawn.
  lemma {:induction false} PrimeOfModule(modules: seq<Geometry>, size: nat, m: nat, j: nat)
    requires m < |modules| && j < size && SameSize(modules, size)
    ensures m * size + j < |AllPrimes(modules)|
    ensures AllPrimes(modules)[m * size + j] == modules[m].primes[j]
  {
    var k := |modules| - 1;
    AllPrimesLength(modules[..k], size);
    if m < k {
      PrimeOfModule(modules[..k], size, m, j);
    }
  }

  // The modules' primes by index: module m's j-th is the (m * size + j)-th prime.
  lemma ModulePrimeIsNth(base: int, modules: seq<Geometry>, size: nat, m: nat, j: nat)
    requires SameSize(modules, size) && AllPrimes(modules) == FirstPrimes(base, |modules| * size)
    requires m < |modules| && j < size
    ensures modules[m].primes[j] == NthPrime(base, m * size + j)
  {
    PrimeOfModule(modules, size, m, j);
  }
}

// Facts about products and floor division the other modules lean on.

module Arithmetic {

  function Min(a: int, b: int): (m: int)
    ensures m <= a && m <= b && (m == a || m == b)
  {
    if a < b then a else b
  }

  lemma MulBounds(x: int, d: int)
    requires d > 0
    ensures x >= 1 ==> x * d >= d
    ensures x <= -1 ==> x * d <= -d
  {
  }

  lemma MulMonotone(a: int, b: int, c: int)
    requires 0 <= c
    ensures a <= b ==> a * c <= b * c
  {
  }

  lemma DivModUnique(d: int, k: int, r: int)
    requires 0 <= r < d
    ensures (k * d + r) / d == k && (k * d + r) % d == r
  {
    var v := k * d + r;
    var q, s := v / d, v % d;
    MulBounds(q - k, d);
    assert (q - k) * d == q * d - k * d == r - s;
  }

  // `divmod`
  function DivMod(at: nat, size: nat): (r: (nat, nat))
    requires size > 0
    ensures at == r.0 * size + r.1 && r.1 < size
  {
    assert at == at / size * size + at % size;
    (at / size, at % size)
  }

  // Where item k starts, when each takes `size`.
  function At(k: nat, size: nat): nat {
    k * size
  }

  lemma AtMeans(a: nat, size: nat)
    ensures At(a, size) == a * size
  {
  }

  lemma AtAdds(a: nat, b: nat, size: nat)
    ensures At(a + b, size) == At(a, size) + At(b, size)
    ensures At(1, size) == size && At(0, size) == 0
  {
  }

  // Items do not overlap.
  lemma AtApart(s: nat, t: nat, size: nat)
    ensures s < t ==> At(s, size) + size <= At(t, size)
  {
    if s < t {
      MulMonotone(s + 1, t, size);
    }
  }

  lemma AtOrder(n: nat, m: nat, size: nat)
    ensures At(n, size) < At(m, size) ==> n < m
    ensures size > 0 && n < m ==> At(n, size) < At(m, size)
  {
    AtApart(n, m, size);
    if m <= n {
      MulMonotone(m, n, size);
    }
  }

  // Item k of n groups of `size` is in one of them.
  lemma GroupOf(k: nat, n: nat, size: nat)
    requires k < At(n, size)
    ensures size > 0 && k / size < n
  {
    assert size > 0;
    if k / size >= n {
      MulMonotone(n, k / size, size);
    }
  }

  lemma PlaceInGroups(a: nat, r: nat, n: nat, size: nat)
    requires a < n && r < size
    ensures At(a, size) + r < At(n, size)
    ensures (At(a, size) + r) / size == a && (At(a, size) + r) % size == r
  {
    MulMonotone(a + 1, n, size);
    DivModUnique(size, a, r);
  }
}

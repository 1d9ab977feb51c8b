// float32 bit patterns rounded to bf16 by an addition and a shift: the nearest
// value, ties to even (roundTiesToEven, section 4.3.1 of IEEE 754-2019).

module Bf16 {
  import opened Arithmetic

  const LOW: nat := 0x1_0000
  const HIDDEN: nat := 0x80_0000
  const INFINITY: nat := 0x7F80_0000
  const SIGN_BIT: nat := 0x8000_0000
  const QUIET_NAN: nat := 0x7FC0_0000

  function Pow2(n: nat): (p: nat)
    ensures p > 0
  {
    if n == 0 then 1 else 2 * Pow2(n - 1)
  }

  // ---------------------------------------------------------- what patterns denote

  // A pattern without its sign, in units of the least subnormal, 2^-149.
  function Mag(a: nat): nat {
    if a < HIDDEN then a else (HIDDEN + a % HIDDEN) * Ulp(a)
  }

  // The spacing of the patterns from a on.
  function Ulp(a: nat): (u: nat)
    ensures u > 0
  {
    Pow2(if a / HIDDEN == 0 then 0 else a / HIDDEN - 1)
  }

  function Value(u: nat): int {
    if u < SIGN_BIT then Mag(u) else 0 - Mag(u - SIGN_BIT) as int
  }

  predicate Finite(u: nat) {
    u % SIGN_BIT < INFINITY
  }

  predicate IsNan(u: nat) {
    u % SIGN_BIT > INFINITY
  }

  // bf16 pattern v is the float32 pattern v with sixteen zero bits after it.
  function Widen(v: nat): nat {
    v * LOW
  }

  lemma {:induction false} MagIncreases(a: nat, b: nat)
    requires a < b
    ensures Mag(a) < Mag(b)
  {
    MagSteps(b - 1);
    if a < b - 1 {
      MagIncreases(a, b - 1);
    }
  }

  lemma MagSteps(a: nat)
    ensures Mag(a + 1) == Mag(a) + Ulp(a)
  {
    if a + 1 < HIDDEN {
    } else if a < HIDDEN {
      assert (a + 1) % HIDDEN == 0 && (a + 1) / HIDDEN == 1;
    } else if a % HIDDEN == HIDDEN - 1 {
      assert (a + 1) % HIDDEN == 0 && (a + 1) / HIDDEN == a / HIDDEN + 1;
    } else {
      assert (a + 1) % HIDDEN == a % HIDDEN + 1 && (a + 1) / HIDDEN == a / HIDDEN;
    }
  }

  // Between one bf16 value and the next the patterns are evenly spaced, also where
  // the next one has a larger exponent.
  lemma MagLinear(q: nat, d: nat)
    requires d <= LOW
    ensures Mag(q * LOW + d) == Mag(q * LOW) + d * Ulp(q * LOW)
  {
    hide Mag, Ulp;
    var e, m := q / 128, q % 128 * LOW;
    assert q * LOW == e * HIDDEN + m && m + LOW <= HIDDEN;
    BinadeMag(e, m);
    BinadeMag(e, m + d);
    var p, u := if e == 0 then 0 else HIDDEN, Ulp(q * LOW);
    assert (p + m + d) * u == (p + m) * u + d * u;
  }

  // A binade's values are evenly spaced, up to the next one's first.
  lemma BinadeMag(e: nat, m: nat)
    requires m <= HIDDEN
    ensures Mag(e * HIDDEN + m) == (if e == 0 then m else HIDDEN + m) * Ulp(e * HIDDEN)
    ensures m < HIDDEN ==> Ulp(e * HIDDEN + m) == Ulp(e * HIDDEN)
  {
    DivModUnique(HIDDEN, e, 0);
    if m < HIDDEN {
      DivModUnique(HIDDEN, e, m);
    } else {
      assert e * HIDDEN + m == (e + 1) * HIDDEN;
      DivModUnique(HIDDEN, e + 1, 0);
    }
  }

  // ------------------------------------------------------------------- rounding

  // The 32-bit expression, wrap-around included.
  function RoundBits(u: nat): (v: nat)
    requires u < 0x1_0000_0000
    ensures v < 0x1_0000
  {
    (u + 0x7FFF + u / LOW % 2) % 0x1_0000_0000 / LOW
  }

  function Dist(u: nat, v: nat): nat {
    var d := Value(Widen(v)) - Value(u);
    if d < 0 then -d else d
  }

  // No finite bf16 value is closer, and among two as close v is the even one.
  ghost predicate NearestEven(u: nat, v: nat) {
    && Finite(Widen(v))
    && forall w: nat :: w < 0x1_0000 && Finite(Widen(w)) ==> Closer(u, v, w)
  }

  ghost predicate Closer(u: nat, v: nat, w: nat) {
    Dist(u, v) < Dist(u, w) || (Dist(u, v) == Dist(u, w) && (Value(Widen(v)) == Value(Widen(w)) || v % 2 == 0))
  }

  // What the addition does to a finite or infinite pattern: up, down, or to even.
  function Chosen(q: nat, r: nat): (b: nat)
    ensures q <= b <= q + 1
    ensures r == 0x8000 ==> b % 2 == 0
  {
    if r < 0x8000 then q else if r > 0x8000 then q + 1 else q + q % 2
  }

  lemma RoundCases(u: nat)
    requires u < 0x1_0000_0000 && u % SIGN_BIT <= INFINITY
    ensures RoundBits(u) == u / SIGN_BIT * 0x8000 + Chosen(u % SIGN_BIT / LOW, u % LOW)
    ensures RoundBits(u) / 0x8000 == u / SIGN_BIT && RoundBits(u) % 0x8000 == Chosen(u % SIGN_BIT / LOW, u % LOW)
  {
    hide RoundBits;
    var q, r := u / LOW, u % LOW;
    assert u == q * LOW + r && q % 0x8000 <= 0x7F80;
    assert u % SIGN_BIT / LOW == q % 0x8000 && u / SIGN_BIT == q / 0x8000;
    RoundedCell(q, r);
  }

  // Unsigned: the chosen neighbour is nearest.
  lemma ChosenIsNearest(a: nat, c: nat)
    ensures NoFarther(Mag(a), Mag(Widen(Chosen(a / LOW, a % LOW))), Mag(Widen(c)), Chosen(a / LOW, a % LOW), c)
  {
    hide Mag, Ulp, Chosen, NoFarther;
    var q, r := a / LOW, a % LOW;
    MagLinear(q, r);
    MagLinear(q, LOW);
    assert (q + 1) * LOW == q * LOW + LOW;
    if c < q {
      MagIncreases(c * LOW, q * LOW);
    } else if c > q + 1 {
      MagIncreases((q + 1) * LOW, c * LOW);
    }
    HalfCell(r, Ulp(q * LOW));
    InCell(q, r, r * Ulp(q * LOW), 0x8000 * Ulp(q * LOW), Mag(q * LOW), c, Mag(Widen(c)));
  }

  ghost predicate NoFarther(x: nat, y: nat, z: nat, b: nat, c: nat) {
    var d, d' := if x < y then y - x else x - y, if x < z then z - x else x - z;
    d < d' || (d == d' && (b == c || b % 2 == 0))
  }

  lemma HalfCell(r: nat, ulp: nat)
    requires ulp > 0 && r < LOW
    ensures r < 0x8000 ==> r * ulp < 0x8000 * ulp
    ensures r > 0x8000 ==> r * ulp > 0x8000 * ulp
    ensures r * ulp < LOW * ulp == 2 * (0x8000 * ulp)
  {
    MulMonotone(r + 1, 0x8000, ulp);
    MulMonotone(0x8000 + 1, r, ulp);
    MulMonotone(r + 1, LOW, ulp);
  }

  // A point `over` above cell q's value, in a cell 2 * half long.
  lemma InCell(q: nat, r: nat, over: nat, half: nat, base: nat, c: nat, z: nat)
    requires r < 0x8000 ==> over < half
    requires r > 0x8000 ==> over > half
    requires r == 0x8000 ==> over == half
    requires over < 2 * half
    requires c < q ==> z < base
    requires c == q ==> z == base
    requires c == q + 1 ==> z == base + 2 * half
    requires c > q + 1 ==> z > base + 2 * half
    ensures var b := Chosen(q, r); NoFarther(base + over, if b == q then base else base + 2 * half, z, b, c)
  {
  }

  // Every finite float32 whose result is finite goes to the nearest bf16 value.
  lemma RoundIsNearestEven(u: nat)
    requires u < 0x1_0000_0000 && Finite(u) && Finite(Widen(RoundBits(u)))
    ensures NearestEven(u, RoundBits(u))
  {
    hide NearestEven, RoundBits, Mag, Chosen, Closer;
    var v := RoundBits(u);
    forall w: nat | w < 0x1_0000 && Finite(Widen(w)) ensures Closer(u, v, w) {
      RoundIsCloser(u, w);
    }
    NearestMeans(u, v);
  }

  lemma NearestMeans(u: nat, v: nat)
    requires Finite(Widen(v)) && forall w: nat :: w < 0x1_0000 && Finite(Widen(w)) ==> Closer(u, v, w)
    ensures NearestEven(u, v)
  {
  }

  lemma RoundIsCloser(u: nat, w: nat)
    requires u < 0x1_0000_0000 && Finite(u) && w < 0x1_0000
    ensures Closer(u, RoundBits(u), w)
  {
    hide RoundBits, Mag, Chosen;
    var v := RoundBits(u);
    RoundCases(u);
    ChosenIsNearest(u % SIGN_BIT, w % 0x8000);
    ChosenIsNearest(u % SIGN_BIT, 0);
    ZeroIsZero();
    Signed(u);
    Signed(Widen(v));
    Signed(Widen(w));
    WidenSplits(v);
    WidenSplits(w);
    assert u % SIGN_BIT % LOW == u % LOW;
  }

  lemma ZeroIsZero()
    ensures Mag(0) == 0 && Widen(0) == 0
  {
  }

  lemma Signed(u: nat)
    requires u < 0x1_0000_0000
    ensures Value(u) == if u / SIGN_BIT == 0 then Mag(u % SIGN_BIT) else 0 - Mag(u % SIGN_BIT) as int
  {
  }

  lemma WidenSplits(v: nat)
    requires v < 0x1_0000
    ensures Widen(v) < 0x1_0000_0000
    ensures Widen(v) / SIGN_BIT == v / 0x8000 && Widen(v) % SIGN_BIT == Widen(v % 0x8000)
  {
    assert v == v / 0x8000 * 0x8000 + v % 0x8000;
  }

  // The standard's overflow rule: infinity exactly from half a step past the largest
  // finite bf16 value on, and the sign kept throughout.
  lemma RoundOverflow(u: nat)
    requires u < 0x1_0000_0000 && Finite(u)
    ensures RoundBits(u) / 0x8000 == u / SIGN_BIT
    ensures RoundBits(u) % 0x8000 <= 0x7F80
    ensures RoundBits(u) % 0x8000 == 0x7F80 <==> u % SIGN_BIT >= 0x7F7F_8000
    ensures RoundBits(u) % 0x8000 == 0x7F80 <==> 2 * Mag(u % SIGN_BIT) >= Mag(Widen(0x7F7F)) + Mag(INFINITY)
  {
    hide RoundBits, Mag;
    RoundCases(u);
    var a := u % SIGN_BIT;
    MagLinear(0x7F7F, 0x8000);
    MagLinear(0x7F7F, LOW);
    HalfCell(0x8000, Ulp(0x7F7F * LOW));
    if a > 0x7F7F_8000 {
      MagIncreases(0x7F7F_8000, a);
    } else if a < 0x7F7F_8000 {
      MagIncreases(a, 0x7F7F_8000);
    }
  }

  // Infinities stay; a NaN does exactly when neither carry reaches out of its payload.
  lemma RoundSpecials(u: nat)
    requires u < 0x1_0000_0000 && !Finite(u)
    ensures u % SIGN_BIT == INFINITY ==> Widen(RoundBits(u)) == u
    ensures IsNan(u) ==> (IsNan(Widen(RoundBits(u))) <==> 0x7F80_8000 < u % SIGN_BIT < 0x7FFF_8000)
  {
    hide RoundBits;
    var a := u % SIGN_BIT;
    if a == INFINITY {
      RoundIsExact(u);
    } else {
      NanCases(u / SIGN_BIT, a);
      WidenSplits(RoundBits(u));
    }
  }

  lemma NanCases(sign: nat, a: nat)
    requires sign < 2 && INFINITY < a < SIGN_BIT
    ensures var v := RoundBits(sign * SIGN_BIT + a) % 0x8000;
            if 0x7F80_8000 < a < 0x7FFF_8000 then v > 0x7F80 else v == 0x7F80 || v == 0
  {
    var q, r := a / LOW, a % LOW;
    hide RoundBits, Chosen;
    assert a == q * LOW + r;
    assert sign * SIGN_BIT + a == (sign * 0x8000 + q) * LOW + r;
    RoundedCell(sign * 0x8000 + q, r);
    NanCell(sign, q, r);
  }

  lemma NanCell(sign: nat, q: nat, r: nat)
    requires sign < 2 && 0x7F80 <= q < 0x8000 && r < LOW
    ensures var v := Chosen(sign * 0x8000 + q, r) % 0x1_0000 % 0x8000;
            if q == 0x7F80 && r <= 0x8000 then v == 0x7F80
            else if q == 0x7FFF && r >= 0x8000 then v == 0
            else 0x7F80 < v
  {
    var b := Chosen(q, r);
    assert Chosen(0x8000 + q, r) == 0x8000 + b;
    if b == 0x8000 {
    } else {
      assert b % 0x8000 == b;
    }
  }

  // The expression on whole cells: a carry out of the top is lost.
  lemma RoundedCell(q: nat, r: nat)
    requires q < 0x1_0000 && r < LOW
    ensures RoundBits(q * LOW + r) == Chosen(q, r) % 0x1_0000
  {
    var n := q * LOW + r + 0x7FFF + q % 2;
    var b := Chosen(q, r);
    assert b * LOW <= n < b * LOW + LOW;
    if b == 0x1_0000 {
      assert n % 0x1_0000_0000 < LOW;
    }
  }

  // Already a bf16 value: kept.
  lemma RoundIsExact(u: nat)
    requires u < 0x1_0000_0000
    ensures Widen(RoundBits(u)) == u <==> u % LOW == 0
  {
    var q := u / LOW;
    if u % LOW == 0 {
      assert u + 0x7FFF + q % 2 == q * LOW + 0x7FFF + q % 2;
      assert (u + 0x7FFF + q % 2) / LOW == q;
    }
  }
}

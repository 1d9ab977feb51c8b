// FP4 quantisation in place, a power-of-two scale for each 32 values: over the reals,
// to the nearest E2M1 value with ties to the even code (section 5.3.3 of the OCP
// Microscaling Formats specification 1.0).

module Fp4 {

  const BLOCK: nat := 32

  const E2M1: seq<real> := [0.0, 0.5, 1.0, 1.5, 2.0, 3.0, 4.0, 6.0]
  const EDGES: seq<real> := [0.25, 0.75, 1.25, 1.75, 2.5, 3.5, 5.0]

  function Abs(x: real): (a: real)
    ensures a >= 0.0 && (a == x || a == -x)
  {
    if x < 0.0 then -x else x
  }

  // `torch.sign`
  function Sign(x: real): real {
    if x > 0.0 then 1.0 else if x < 0.0 then -1.0 else 0.0
  }

  // ------------------------------------------------------------- powers of two

  function Pow2(e: int): (p: real)
    ensures p > 0.0
    decreases if e < 0 then -e else e
  {
    if e == 0 then 1.0 else if e > 0 then 2.0 * Pow2(e - 1) else Pow2(e + 1) / 2.0
  }

  lemma Pow2Double(e: int)
    ensures Pow2(e + 1) == 2.0 * Pow2(e)
  {
  }

  lemma {:induction false} Pow2Order(a: int, b: int)
    requires a < b
    ensures 2.0 * Pow2(a) <= Pow2(b)
    decreases b - a
  {
    Pow2Double(b - 1);
    if a < b - 1 {
      Pow2Order(a, b - 1);
    }
  }

  ghost predicate IsPow2(p: real) {
    exists e :: p == Pow2(e)
  }

  // Two powers of two in the same octave are the same one.
  lemma OneInAnOctave(p: real, q: real, x: real)
    requires IsPow2(p) && IsPow2(q) && x <= p < 2.0 * x && x <= q < 2.0 * x
    ensures p == q
  {
    var a: int :| p == Pow2(a);
    var b: int :| q == Pow2(b);
    if a < b {
      Pow2Order(a, b);
    } else if b < a {
      Pow2Order(b, a);
    }
  }

  function Steps(x: real): (n: nat)
    requires x > 0.0
  {
    if x >= 1.0 then x.Floor else if x < 0.5 then (1.0 / x).Floor else 0
  }

  lemma StepsFall(x: real)
    requires x > 0.0
    ensures x >= 1.0 ==> Steps(x / 2.0) < Steps(x)
    ensures x < 0.5 ==> Steps(x * 2.0) < Steps(x)
  {
    if x < 0.5 {
      var y := 1.0 / x;
      assert y * x == 1.0 && y > 2.0;
      assert 1.0 / (x * 2.0) == y / 2.0;
    }
  }

  // `torch.frexp`
  function Frexp(x: real): (r: (real, int))
    requires x > 0.0
    decreases Steps(x)
  {
    StepsFall(x);
    if x >= 1.0 then
      var r := Frexp(x / 2.0);
      (r.0, r.1 + 1)
    else if x < 0.5 then
      var r := Frexp(x * 2.0);
      (r.0, r.1 - 1)
    else (x, 0)
  }

  ghost predicate IsFrexp(x: real, m: real, e: int) {
    0.5 <= m < 1.0 && x == m * Pow2(e)
  }

  lemma {:induction false} FrexpSplits(x: real)
    requires x > 0.0
    ensures IsFrexp(x, Frexp(x).0, Frexp(x).1)
    decreases Steps(x)
  {
    hide IsFrexp, Steps;
    StepsFall(x);
    if x >= 1.0 {
      FrexpSplits(x / 2.0);
      FrexpDoubles(x / 2.0, Frexp(x / 2.0).0, Frexp(x / 2.0).1);
    } else if x < 0.5 {
      FrexpSplits(x * 2.0);
      FrexpDoubles(x, Frexp(x * 2.0).0, Frexp(x * 2.0).1 - 1);
    } else {
      FrexpHere(x);
    }
  }

  lemma FrexpHere(x: real)
    requires 0.5 <= x < 1.0
    ensures IsFrexp(x, x, 0)
  {
  }

  lemma FrexpDoubles(x: real, m: real, e: int)
    ensures IsFrexp(x, m, e) <==> IsFrexp(x * 2.0, m, e + 1)
  {
    Pow2Double(e);
    var p := Pow2(e);
    hide Pow2;
    assert m * (2.0 * p) == 2.0 * (m * p);
  }

  // The least power of two that is no less than x.
  function Pow2Ceil(x: real): real
    requires x > 0.0
  {
    var r := Frexp(x);
    Pow2(if r.0 == 0.5 then r.1 - 1 else r.1)
  }

  lemma Pow2CeilBounds(x: real)
    requires x > 0.0
    ensures IsPow2(Pow2Ceil(x)) && x <= Pow2Ceil(x) < 2.0 * x
  {
    hide Pow2, Frexp;
    FrexpSplits(x);
    OctaveTop(x, Frexp(x).0, Frexp(x).1);
  }

  lemma OctaveTop(x: real, m: real, e: int)
    requires IsFrexp(x, m, e)
    ensures var p := Pow2(if m == 0.5 then e - 1 else e); IsPow2(p) && x <= p < 2.0 * x
  {
    Pow2Double(e - 1);
    var p := Pow2(e);
    hide Pow2;
    Stretch(x, m, p);
    if m == 0.5 {
      assert IsPow2(Pow2(e - 1));
    } else {
      assert IsPow2(Pow2(e));
    }
  }

  lemma Stretch(x: real, m: real, p: real)
    requires p > 0.0 && x == m * p && 0.5 <= m < 1.0
    ensures x < p && (m == 0.5 ==> 2.0 * x == p) && (m > 0.5 ==> p < 2.0 * x)
  {
    var over, under := m - 0.5, 1.0 - m;
    Spread(over, 0.5, p);
    Spread(m, under, p);
    assert m == over + 0.5 && x == over * p + 0.5 * p;
    assert m + under == 1.0 && x + under * p == p;
  }

  lemma Spread(a: real, b: real, p: real)
    requires p > 0.0
    ensures (a + b) * p == a * p + b * p
    ensures (a > 0.0 ==> a * p > 0.0) && (a == 0.0 ==> a * p == 0.0)
    ensures b > 0.0 ==> b * p > 0.0
  {
  }

  // ------------------------------------------------------------------- one value

  // `torch.searchsorted`: how many edges are below a.
  function SearchSorted(edges: seq<real>, a: real): (i: nat)
    requires forall j, k :: 0 <= j < k < |edges| ==> edges[j] < edges[k]
    ensures i <= |edges|
    ensures forall j :: 0 <= j < i ==> edges[j] < a
    ensures forall j :: i <= j < |edges| ==> a <= edges[j]
  {
    if edges == [] then 0
    else if edges[|edges| - 1] < a then |edges|
    else SearchSorted(edges[..|edges| - 1], a)
  }

  function CodeOf(a: real): (c: nat)
    ensures c < |E2M1|
  {
    var i := SearchSorted(EDGES, a);
    if i < |EDGES| && a == EDGES[i] && i % 2 == 1 then i + 1 else i
  }

  function ToE2m1(v: real): real {
    E2M1[CodeOf(Abs(v))] * Sign(v)
  }

  // The code nearest to a magnitude, the even one of two as near.
  ghost predicate Nearest(codes: seq<real>, a: real, c: nat) {
    c < |codes| && forall d: nat :: d < |codes| ==> NoFarther(codes, a, c, d)
  }

  ghost predicate NoFarther(codes: seq<real>, a: real, c: nat, d: nat)
    requires c < |codes| && d < |codes|
  {
    Nearer(a, codes[c], codes[d], c == d || c % 2 == 0)
  }

  ghost predicate Nearer(a: real, near: real, far: real, tied: bool) {
    Abs(a - near) < Abs(a - far) || (Abs(a - near) == Abs(a - far) && tied)
  }

  // The codes' values increase, and each edge is halfway between two.
  ghost predicate Midpoints(codes: seq<real>, edges: seq<real>) {
    && |codes| == |edges| + 1
    && (forall i, j :: 0 <= i < j < |codes| ==> codes[i] < codes[j])
    && (forall i :: 0 <= i < |edges| ==> HalfWay(codes, edges, i))
  }

  ghost predicate HalfWay(codes: seq<real>, edges: seq<real>, i: nat)
    requires |codes| == |edges| + 1 && i < |edges|
  {
    edges[i] == (codes[i] + codes[i + 1]) / 2.0
  }

  // Code c lies between its edges, on neither unless even.
  ghost predicate Between(edges: seq<real>, a: real, c: nat) {
    && c <= |edges|
    && (0 < c ==> edges[c - 1] < a || (a == edges[c - 1] && c % 2 == 0))
    && (c < |edges| ==> a < edges[c] || (a == edges[c] && c % 2 == 0))
  }

  lemma BetweenIsNearest(codes: seq<real>, edges: seq<real>, a: real, c: nat)
    requires Midpoints(codes, edges) && Between(edges, a, c)
    ensures Nearest(codes, a, c)
  {
    forall d: nat | d < |codes| ensures NoFarther(codes, a, c, d) {
      if d < c {
        assert HalfWay(codes, edges, c - 1);
        assert codes[d] <= codes[c - 1] < codes[c];
      } else if c < d {
        assert HalfWay(codes, edges, c);
        assert codes[c] < codes[c + 1] <= codes[d];
      }
    }
  }

  lemma TableIsMidpoints()
    ensures Midpoints(E2M1, EDGES)
  {
  }

  lemma CodeIsBetween(a: real)
    ensures Between(EDGES, a, CodeOf(a))
  {
  }

  lemma CodeIsNearest(a: real)
    ensures Nearest(E2M1, a, CodeOf(a))
  {
    hide Nearest, Midpoints, Between, CodeOf;
    TableIsMidpoints();
    CodeIsBetween(a);
    BetweenIsNearest(E2M1, EDGES, a, CodeOf(a));
  }

  // A value that is one of the codes' is kept.
  lemma CodesAreKept(c: nat)
    requires c < |E2M1|
    ensures CodeOf(E2M1[c]) == c
  {
    hide CodeOf;
    CodeIsNearest(E2M1[c]);
    assert NoFarther(E2M1, E2M1[c], CodeOf(E2M1[c]), c);
  }

  // ------------------------------------------------------------------- one block

  function Clamp(x: real, lo: real, hi: real): (c: real)
    ensures lo <= hi ==> lo <= c <= hi && (c == x || (c == lo && x < lo) || (c == hi && x > hi))
    ensures lo <= x <= hi ==> c == x
  {
    if x < lo then lo else if x > hi then hi else x
  }

  function Max(a: real, b: real): real {
    if a < b then b else a
  }

  function AbsMax(block: seq<real>): (m: real)
    ensures m >= 0.0
    ensures forall k :: 0 <= k < |block| ==> Abs(block[k]) <= m
    ensures m == 0.0 || exists k :: 0 <= k < |block| && Abs(block[k]) == m
  {
    if block == [] then 0.0
    else
      var rest := AbsMax(block[..|block| - 1]);
      var last := Abs(block[|block| - 1]);
      assert block[..|block| - 1] + [block[|block| - 1]] == block;
      Max(rest, last)
  }

  // A sixth of the greatest magnitude, kept away from zero.
  function Sixth(block: seq<real>): (x: real)
    ensures x > 0.0
  {
    Max(AbsMax(block), 6.0 * Pow2(-126)) / 6.0
  }

  function Scale(block: seq<real>): real {
    Pow2Ceil(Sixth(block))
  }

  function Quantised(x: real, s: real): real
    requires s > 0.0
  {
    ToE2m1(Clamp(x / s, -6.0, 6.0)) * s
  }

  function QuantBlock(block: seq<real>): (out: seq<real>)
    ensures |out| == |block|
  {
    ScalePositive(block);
    seq(|block|, k requires 0 <= k < |block| => Quantised(block[k], Scale(block)))
  }

  lemma ScalePositive(block: seq<real>)
    ensures Scale(block) > 0.0
  {
    hide Pow2Ceil, Sixth;
    Pow2CeilBounds(Sixth(block));
  }

  // The scale is the one power of two p with x <= p < 2x, and no value of the block
  // reaches past the clamp.
  lemma ScaleFits(block: seq<real>)
    ensures var x, p := Sixth(block), Scale(block); IsPow2(p) && x <= p < 2.0 * x
    ensures Scale(block) > 0.0
    ensures forall k :: 0 <= k < |block| ==> Unclamped(block[k], Scale(block))
  {
    hide Pow2Ceil, Pow2, AbsMax;
    Pow2CeilBounds(Sixth(block));
    forall k | 0 <= k < |block| ensures Unclamped(block[k], Scale(block)) {
      QuotientAtMost(Abs(block[k]), 6.0, Scale(block));
      QuotientAbs(block[k], Scale(block));
    }
  }

  // The scale is the least power of two, of those from 2^-126 on, at which six steps reach
  // every value of the block.
  lemma ScaleIsLeast(block: seq<real>, p: real)
    ensures IsPow2(Scale(block)) && Pow2(-126) <= Scale(block) && AbsMax(block) <= 6.0 * Scale(block)
    ensures IsPow2(p) && Pow2(-126) <= p && AbsMax(block) <= 6.0 * p ==> Scale(block) <= p
  {
    hide Pow2, IsPow2, AbsMax, Scale;
    ScaleFits(block);
    var s, x := Scale(block), Sixth(block);
    if IsPow2(p) && Pow2(-126) <= p && AbsMax(block) <= 6.0 * p && p < s {
      AboveLeast(s, p);
      assert false;
    }
  }

  ghost predicate Unclamped(x: real, s: real) {
    s > 0.0 && Clamp(x / s, -6.0, 6.0) == x / s
  }

  lemma QuotientAtMost(a: real, b: real, s: real)
    requires s > 0.0
    ensures a <= b * s ==> a / s <= b
    ensures b * s < a ==> b < a / s
  {
    assert a / s * s == a;
    if a / s > b {
      Spread(b, a / s - b, s);
    } else {
      Spread(a / s, b - a / s, s);
    }
  }

  lemma QuotientAbs(x: real, s: real)
    requires s > 0.0
    ensures Abs(x / s) == Abs(x) / s && Sign(x / s) == Sign(x)
  {
  }

  // Where the codes' values lie at a scale.
  function Scaled(codes: seq<real>, s: real): (scaled: seq<real>)
    ensures |scaled| == |codes|
  {
    seq(|codes|, c requires 0 <= c < |codes| => codes[c] * s)
  }

  // An unclamped value goes to the nearest of the scaled values, the even code's of two
  // as near, and keeps its sign.
  lemma QuantisedIsNearest(x: real, s: real)
    requires Unclamped(x, s)
    ensures var c := CodeOf(Abs(x / s)); Nearest(Scaled(E2M1, s), Abs(x), c) && Quantised(x, s) == Scaled(E2M1, s)[c] * Sign(x)
  {
    hide Nearest, CodeOf, Abs, Sign;
    var c := CodeOf(Abs(x / s));
    CodeIsNearest(Abs(x / s));
    QuotientAbs(x, s);
    NearestScales(E2M1, Abs(x) / s, s, Abs(x), c);
    Swap(E2M1[c], Sign(x), s);
  }

  lemma Swap(a: real, b: real, s: real)
    ensures a * b * s == a * s * b
  {
  }

  lemma NearestScales(codes: seq<real>, a: real, s: real, b: real, c: nat)
    requires s > 0.0 && b == a * s && Nearest(codes, a, c)
    ensures Nearest(Scaled(codes, s), b, c)
  {
    hide Nearer;
    forall d: nat | d < |codes| ensures NoFarther(Scaled(codes, s), b, c, d) {
      assert NoFarther(codes, a, c, d);
      NearerScales(a, codes[c], codes[d], s, c == d || c % 2 == 0, b, Scaled(codes, s)[c], Scaled(codes, s)[d]);
    }
  }

  lemma NearerScales(a: real, near: real, far: real, s: real, tied: bool, b: real, near': real, far': real)
    requires s > 0.0 && b == a * s && near' == near * s && far' == far * s
    requires Nearer(a, near, far, tied)
    ensures Nearer(b, near', far', tied)
  {
    hide Abs;
    DistanceScales(a, near, s);
    DistanceScales(a, far, s);
    OrderScales(Abs(a - near), Abs(a - far), s);
  }

  lemma DistanceScales(a: real, b: real, s: real)
    requires s > 0.0
    ensures Abs(a * s - b * s) == Abs(a - b) * s
  {
    assert (a - b) * s == a * s - b * s;
  }

  lemma OrderScales(a: real, b: real, s: real)
    requires s > 0.0
    ensures a < b ==> a * s < b * s
  {
    Spread(a, b - a, s);
  }

  // Every value of a block goes to the nearest of the eight at the block's scale.
  lemma BlockGoesToNearest(block: seq<real>, k: nat) returns (c: nat)
    requires k < |block|
    ensures c < |E2M1| && Nearest(Scaled(E2M1, Scale(block)), Abs(block[k]), c)
    ensures QuantBlock(block)[k] == Scaled(E2M1, Scale(block))[c] * Sign(block[k])
  {
    hide Scale, Scaled, Nearest, CodeOf, Unclamped, Quantised;
    ScaleFits(block);
    c := CodeOf(Abs(block[k] / Scale(block)));
    QuantisedIsNearest(block[k], Scale(block));
  }

  // ----------------------------------------------------------------- twice is once

  // Code c's value at scale s.
  function Level(c: nat, s: real): real
    requires c < |E2M1|
  {
    E2M1[c] * s
  }

  lemma Levels(c: nat, s: real)
    requires c < |E2M1| && s > 0.0
    ensures 0.0 <= Level(c, s) <= 6.0 * s
    ensures c == 0 ==> Level(c, s) == 0.0
    ensures c < 5 ==> Level(c, s) < 3.0 * s
    ensures c == 5 ==> Level(c, s) == 3.0 * s
    ensures c == 6 ==> Level(c, s) == 4.0 * s
    ensures c == 7 ==> Level(c, s) == 6.0 * s
  {
  }

  lemma LevelsOrder(c: nat, d: nat, s: real)
    requires c < |E2M1| && d < |E2M1| && s > 0.0
    ensures Level(c, s) <= Level(d, s) ==> c <= d
  {
    if d < c {
      TableIsMidpoints();
      OrderScales(E2M1[d], E2M1[c], s);
    }
  }

  // x is that value, or its negation.
  ghost predicate CodedAt(x: real, s: real, c: nat) {
    c < |E2M1| && Abs(x) == Level(c, s)
  }

  lemma SignTimesAbs(x: real)
    ensures Abs(x) * Sign(x) == x
  {
  }

  lemma KeptAt(x: real, s: real, c: nat)
    requires s > 0.0 && CodedAt(x, s, c)
    ensures Quantised(x, s) == x
  {
    hide CodeOf, Abs, Sign, Clamp;
    QuotientAbs(x, s);
    LevelQuotient(c, s);
    CodesAreKept(c);
    NotPastSix(c, x / s);
    Swap(E2M1[c], Sign(x), s);
    SignTimesAbs(x);
  }

  lemma LevelQuotient(c: nat, s: real)
    requires c < |E2M1| && s > 0.0
    ensures Level(c, s) / s == E2M1[c]
  {
  }

  lemma NotPastSix(c: nat, v: real)
    requires c < |E2M1| && Abs(v) == E2M1[c]
    ensures Clamp(v, -6.0, 6.0) == v
  {
  }

  lemma QuantisedIsCoded(x: real, s: real)
    requires Unclamped(x, s)
    ensures CodedAt(Quantised(x, s), s, CodeOf(Abs(x / s)))
  {
    hide CodeOf, Nearest, Quantised;
    var c := CodeOf(Abs(x / s));
    QuantisedIsNearest(x, s);
    CodesAreKept(0);
    Levels(c, s);
    if x == 0.0 {
      assert Abs(x / s) == E2M1[0];
    }
    assert Scaled(E2M1, s)[c] == Level(c, s);
    hide Level;
    SignedLevel(Level(c, s), x);
  }

  lemma SignedLevel(level: real, x: real)
    requires level >= 0.0 && (x == 0.0 ==> level == 0.0)
    ensures Abs(level * Sign(x)) == level
  {
  }

  // The first six codes' values are codes' values at half the scale.
  lemma HalvedScale(x: real, s: real, c: nat) returns (c': nat)
    requires CodedAt(x, s, c) && s > 0.0 && Abs(x) <= 3.0 * s
    ensures CodedAt(x, s / 2.0, c')
  {
    Levels(c, s);
    c' := if c < 3 then 2 * c else if c == 3 then 5 else c + 2;
    LevelHalves(c, s);
  }

  lemma LevelHalves(c: nat, s: real)
    requires c <= 5
    ensures Level(c, s) == Level(if c < 3 then 2 * c else if c == 3 then 5 else c + 2, s / 2.0)
  {
  }

  // A magnitude above three steps is not rounded below them.
  lemma AboveThree(a: real)
    requires a > 3.0
    ensures CodeOf(a) >= 5
  {
    CodeIsBetween(a);
  }

  // The greatest magnitude after quantising is a code's value too, and at least three
  // steps unless the scale was the least there is.
  lemma PeakIsCoded(block: seq<real>) returns (c: nat)
    ensures Scale(block) > 0.0
    ensures c < |E2M1| && AbsMax(QuantBlock(block)) == Level(c, Scale(block))
    ensures AbsMax(block) > 6.0 * Pow2(-126) ==> c >= 5
  {
    hide Scale, AbsMax, Quantised, CodeOf, Level, Abs, Pow2, Unclamped;
    var s, out := Scale(block), QuantBlock(block);
    ScaleFits(block);
    if AbsMax(out) == 0.0 {
      c := 0;
      Levels(0, s);
    } else {
      var k :| 0 <= k < |out| && Abs(out[k]) == AbsMax(out);
      c := CodeOf(Abs(block[k] / s));
      QuantisedIsCoded(block[k], s);
    }
    if AbsMax(block) > 6.0 * Pow2(-126) {
      PeakStays(block, c);
    }
  }

  lemma PeakStays(block: seq<real>, c: nat)
    requires AbsMax(block) > 6.0 * Pow2(-126) && Scale(block) > 0.0
    requires c < |E2M1| && AbsMax(QuantBlock(block)) == Level(c, Scale(block))
    ensures c >= 5
  {
    hide Pow2, AbsMax, Quantised, CodeOf, Scale, Level, Abs, Unclamped;
    var s, out := Scale(block), QuantBlock(block);
    ScaleFits(block);
    assert exists k :: 0 <= k < |block| && Abs(block[k]) == AbsMax(block) by {
      Pow2Positive();
    }
    var k :| 0 <= k < |block| && Abs(block[k]) == AbsMax(block);
    QuotientAtMost(Abs(block[k]), 3.0, s);
    QuotientAbs(block[k], s);
    AboveThree(Abs(block[k] / s));
    QuantisedIsCoded(block[k], s);
    assert Abs(out[k]) <= AbsMax(out);
    LevelsOrder(CodeOf(Abs(block[k] / s)), c, s);
  }

  lemma Pow2Positive()
    ensures 6.0 * Pow2(-126) > 0.0
  {
  }

  // Quantising again takes the same scale, or half of it where nothing is past three
  // steps.
  lemma ScaleAgain(block: seq<real>)
    ensures var s, out := Scale(block), QuantBlock(block);
            s > 0.0 && (Scale(out) == s || (Scale(out) == s / 2.0 && AbsMax(out) <= 3.0 * s))
  {
    hide AbsMax, Scale, QuantBlock, Pow2, Level, IsPow2;
    var s, out := Scale(block), QuantBlock(block);
    var c := PeakIsCoded(block);
    ScaleFits(block);
    ScaleFits(out);
    var least := Pow2(-126);
    LeastIsPow2();
    Levels(c, s);
    if AbsMax(block) <= 6.0 * least {
      OneInAnOctave(s, least, least);
      OneInAnOctave(Scale(out), s, least);
    } else {
      AboveLeast(s, least);
      ScaleOfPeak(s, c, Scale(out), AbsMax(out), Sixth(out));
    }
  }

  lemma LeastIsPow2()
    ensures IsPow2(Pow2(-126))
  {
  }

  lemma AboveLeast(s: real, least: real)
    requires IsPow2(s) && IsPow2(least) && least < s
    ensures 2.0 * least <= s
  {
    var a: int :| s == Pow2(a);
    var b: int :| least == Pow2(b);
    if b < a {
      Pow2Order(b, a);
    } else if a < b {
      Pow2Order(a, b);
    }
  }

  lemma ScaleOfPeak(s: real, c: nat, p: real, peak: real, x: real)
    requires IsPow2(s) && IsPow2(p) && s > 0.0 && x <= p < 2.0 * x
    requires 5 <= c < |E2M1| && peak == Level(c, s) && x == peak / 6.0
    ensures p == s || (p == s / 2.0 && peak <= 3.0 * s)
  {
    hide IsPow2, Level;
    Levels(c, s);
    if c == 5 {
      HalfIsPow2(s);
      OneInAnOctave(p, s / 2.0, x);
    } else {
      OneInAnOctave(p, s, x);
    }
  }

  lemma HalfIsPow2(s: real)
    requires IsPow2(s)
    ensures IsPow2(s / 2.0)
  {
    var e: int :| s == Pow2(e);
    Pow2Double(e - 1);
    assert s / 2.0 == Pow2(e - 1);
  }

  lemma QuantBlockTwice(block: seq<real>)
    ensures QuantBlock(QuantBlock(block)) == QuantBlock(block)
  {
    hide QuantBlock;
    var out := QuantBlock(block);
    forall k: nat | k < |block| ensures QuantBlock(out)[k] == out[k] {
      QuantisedTwice(block, k);
    }
  }

  lemma QuantisedTwice(block: seq<real>, k: nat)
    requires k < |block|
    ensures QuantBlock(QuantBlock(block))[k] == QuantBlock(block)[k]
  {
    hide Scale, AbsMax, Quantised, CodeOf, Level, Abs, Unclamped;
    var s, out := Scale(block), QuantBlock(block);
    ScaleAgain(block);
    ScaleFits(block);
    ScaleFits(out);
    var c := CodeOf(Abs(block[k] / s));
    QuantisedIsCoded(block[k], s);
    if Scale(out) != s {
      c := HalvedScale(out[k], s, c);
    }
    KeptAt(out[k], Scale(out), c);
  }

  // ------------------------------------------------------------------ whole tensors

  function BlockOf(x: seq<real>, b: nat): seq<real>
    requires |x| % BLOCK == 0 && b < |x| / BLOCK
  {
    x[b * BLOCK..b * BLOCK + BLOCK]
  }

  // Every block by its own scale.
  function QuantDequant(x: seq<real>): (out: seq<real>)
    requires |x| % BLOCK == 0
    ensures |out| == |x|
  {
    seq(|x|, k requires 0 <= k < |x| => QuantBlock(BlockOf(x, k / BLOCK))[k % BLOCK])
  }

  lemma QuantDequantBlock(x: seq<real>, b: nat)
    requires |x| % BLOCK == 0 && b < |x| / BLOCK
    ensures BlockOf(QuantDequant(x), b) == QuantBlock(BlockOf(x, b))
  {
    hide QuantBlock;
    forall r: nat | r < BLOCK ensures BlockOf(QuantDequant(x), b)[r] == QuantBlock(BlockOf(x, b))[r] {
      assert (b * BLOCK + r) / BLOCK == b && (b * BLOCK + r) % BLOCK == r;
    }
  }

  lemma QuantDequantTwice(x: seq<real>)
    requires |x| % BLOCK == 0
    ensures QuantDequant(QuantDequant(x)) == QuantDequant(x)
  {
    hide QuantBlock;
    var out := QuantDequant(x);
    forall k: nat | k < |x| ensures QuantDequant(out)[k] == out[k] {
      QuantDequantBlock(x, k / BLOCK);
      QuantBlockTwice(BlockOf(x, k / BLOCK));
    }
  }

  // Every value of a tensor goes to the nearest of the eight at its own block's scale.
  lemma ValueGoesToNearest(x: seq<real>, k: nat) returns (c: nat)
    requires |x| % BLOCK == 0 && k < |x|
    ensures var b := k / BLOCK * BLOCK;
            && b + BLOCK <= |x| && c < |E2M1|
            && var scaled := Scaled(E2M1, Scale(x[b..b + BLOCK]));
            Nearest(scaled, Abs(x[k]), c) && QuantDequant(x)[k] == scaled[c] * Sign(x[k])
  {
    hide QuantBlock, Scale, Scaled, Nearest, Abs, Sign;
    c := BlockGoesToNearest(BlockOf(x, k / BLOCK), k % BLOCK);
    assert BlockOf(x, k / BLOCK)[k % BLOCK] == x[k];
  }

  // `fp4_act_quant` in place: false is a length that does not split into blocks.
  method ActQuant(x: array<real>) returns (ok: bool)
    modifies x
    ensures ok <==> x.Length % BLOCK == 0
    ensures x[..] == if ok then QuantDequant(old(x[..])) else old(x[..])
  {
    ok := x.Length % BLOCK == 0;
    if ok {
      var q := QuantDequant(x[..]);
      forall k | 0 <= k < x.Length {
        x[k] := q[k];
      }
    }
  }
}

// fp8 e4m3 codes times their blocks' e8m0 exponents, read out to bf16 a
// block-aligned chunk of rows at a time.

module Dequant {
  import opened Wrappers
  import opened Tensors
  import opened Arithmetic
  import opened Sequences
  import opened Bf16

  // A stored byte: a code, or an exponent.
  type Code = Byte

  datatype Error = NotBlocked | DivisionByZero | BadShape

  // --------------------------------------------------------------- one product

  // A code without its sign, in units of 2^-9: the table's entries.
  function CodeMag(k: nat): nat {
    if k / 8 == 0 then k % 8 else (8 + k % 8) * Pow2(k / 8 - 1)
  }

  // The spacing of the codes from k on: even in an octave of eight, the first two alike,
  // then doubling. From 0 on that is the whole table.
  lemma CodeSteps(k: nat)
    ensures CodeMag(0) == 0
    ensures CodeMag(k + 1) == CodeMag(k) + Pow2(if k < 8 then 0 else k / 8 - 1)
  {
    if k % 8 == 7 {
      assert (k + 1) / 8 == k / 8 + 1 && (k + 1) % 8 == 0;
    } else {
      assert (k + 1) / 8 == k / 8 && (k + 1) % 8 == k % 8 + 1;
    }
  }

  // The least code, the least normal one, one itself and the greatest, 448, in units of 2^-9.
  lemma CodeLandmarks()
    ensures CodeMag(1) == 1 && CodeMag(8) == 8 && CodeMag(56) == 512 && CodeMag(126) == 448 * 512
  {
    hide Pow2;
    Powers();
    Pow2Add(3, 3);
    Pow2Add(1, 13);
    assert Pow2(14) == 2 * Pow2(13) by {
      Pow2One();
    }
  }

  lemma Pow2One()
    ensures Pow2(1) == 2
  {
  }

  // The codes 0x7F and 0xFF; all the others are numbers.
  predicate CodeIsNan(c: Code) {
    c % 128 == 127
  }

  // Code times 2^(exponent - 127), in units of 2^-149.
  function ProductMag(c: Code, exponent: nat): nat {
    CodeMag(c % 128) * Pow2(exponent + 13)
  }

  // The float32 pattern of a representable magnitude.
  function Encode(n: nat): nat {
    if n < 2 * HIDDEN then n else Encode(n / 2) + HIDDEN
  }

  // The float32 product. A code has four significant bits at most, so the product is
  // exact unless it overflows.
  function Product(c: Code, exponent: Code): (u: nat)
    ensures u < 0x1_0000_0000
  {
    var sign := c / 128 * SIGN_BIT;
    if CodeIsNan(c) || (exponent == 255 && CodeMag(c % 128) == 0) then QUIET_NAN
    else if exponent == 255 || Encode(ProductMag(c, exponent)) > INFINITY then sign + INFINITY
    else sign + Encode(ProductMag(c, exponent))
  }

  lemma {:induction false} Pow2Add(a: nat, b: nat)
    ensures Pow2(a + b) == Pow2(a) * Pow2(b)
  {
    if a > 0 {
      Pow2Add(a - 1, b);
    }
  }

  lemma {:induction false} Pow2Grows(a: nat, b: nat)
    ensures a < b ==> 2 * Pow2(a) <= Pow2(b)
  {
    if a + 1 < b {
      Pow2Grows(a, b - 1);
    }
  }

  lemma Powers()
    ensures Pow2(0) == 1 && Pow2(3) == 8 && Pow2(13) == 0x2000 && Pow2(16) == LOW && Pow2(23) == HIDDEN
  {
    assert Pow2(8) == 256;
    Pow2Add(5, 8);
    Pow2Add(8, 8);
    Pow2Add(7, 16);
  }

  lemma MulAssoc(a: int, b: int, c: int)
    ensures a * b * c == a * (b * c)
  {
  }

  // A product of which the second factor is a power of two of enough zeros.
  lemma Zeros(q: nat, j: nat, z: nat)
    requires j >= z
    ensures q * Pow2(j) % Pow2(z) == 0
  {
    Pow2Add(j - z, z);
    MulAssoc(q, Pow2(j - z), Pow2(z));
    DivModUnique(Pow2(z), q * Pow2(j - z), 0);
  }

  lemma EnoughShift(q: nat, j: nat)
    requires q < 16 && q * Pow2(j) >= HIDDEN
    ensures j >= 16 && q * Pow2(j) % LOW == 0
  {
    hide Pow2;
    Powers();
    if j < 16 {
      Pow2Grows(j, 16);
      MulMonotone(q, 16, Pow2(j));
    } else {
      Zeros(q, j, 16);
    }
  }

  lemma Halve(q: nat, j: nat)
    requires j > 0
    ensures q * Pow2(j) == 2 * (q * Pow2(j - 1))
  {
  }

  // The encoding has this magnitude, and a bf16 holds it exactly when it is a whole
  // number of bf16's least subnormals, as it is from the normals on.
  ghost predicate Encodes(n: nat) {
    && Mag(Encode(n)) == n
    && (Encode(n) % LOW == 0 <==> n % LOW == 0)
    && (Encode(n) >= HIDDEN ==> n % LOW == 0)
  }

  // Four significant bits survive the encoding.
  lemma {:induction false} EncodeExact(q: nat, j: nat)
    requires q < 16
    ensures Encodes(q * Pow2(j))
  {
    hide Pow2, Encodes;
    var n := q * Pow2(j);
    if n >= HIDDEN {
      EnoughShift(q, j);
    }
    if n < 2 * HIDDEN {
      EncodesSmall(n);
    } else {
      Halve(q, j);
      EncodeExact(q, j - 1);
      EnoughShift(q, j - 1);
      EncodesDouble(q * Pow2(j - 1));
    }
  }

  lemma EncodesSmall(n: nat)
    requires n < 2 * HIDDEN && (n >= HIDDEN ==> n % LOW == 0)
    ensures Encodes(n)
  {
    hide Mag;
    MagSmall(n);
  }

  lemma EncodesDouble(h: nat)
    requires HIDDEN <= h && h % LOW == 0 && Encodes(h)
    ensures Encodes(2 * h)
  {
    hide Mag, Encode;
    var a := Encode(h);
    EncodeTwice(h);
    MagDoubles(a);
    LowStays(a, h);
  }

  lemma LowStays(a: nat, h: nat)
    ensures (a + HIDDEN) % LOW == a % LOW
    ensures h % LOW == 0 ==> 2 * h % LOW == 0
  {
  }

  lemma EncodeTwice(h: nat)
    requires h >= HIDDEN
    ensures Encode(2 * h) == Encode(h) + HIDDEN && Encode(h) >= HIDDEN
  {
    assert 2 * h / 2 == h;
  }

  lemma MagSmall(n: nat)
    requires n < 2 * HIDDEN
    ensures Mag(n) == n
  {
  }

  lemma MagDoubles(a: nat)
    requires a >= HIDDEN
    ensures Mag(a + HIDDEN) == 2 * Mag(a)
  {
    assert (a + HIDDEN) / HIDDEN == a / HIDDEN + 1 && (a + HIDDEN) % HIDDEN == a % HIDDEN;
  }

  // A code is q * 2^j with q below 16, and so is its product with a power of two.
  lemma CodeBits(k: nat) returns (q: nat, j: nat)
    requires k < 128
    ensures q < 16 && CodeMag(k) == q * Pow2(j)
  {
    if k / 8 == 0 {
      q, j := k % 8, 0;
    } else {
      q, j := 8 + k % 8, k / 8 - 1;
    }
  }

  lemma ProductBits(c: Code, exponent: nat) returns (q: nat, j: nat)
    ensures q < 16 && ProductMag(c, exponent) == q * Pow2(j)
    ensures ProductMag(c, exponent) == CodeMag(c % 128) * Pow2(exponent) * 0x2000
    ensures exponent >= 3 ==> CodeMag(c % 128) * Pow2(exponent) % 8 == 0
  {
    hide CodeMag, Pow2;
    Powers();
    q, j := CodeBits(c % 128);
    Pow2Add(j, exponent + 13);
    MulAssoc(q, Pow2(j), Pow2(exponent + 13));
    j := j + (exponent + 13);
    Pow2Add(exponent, 13);
    MulAssoc(CodeMag(c % 128), Pow2(exponent), Pow2(13));
    if exponent >= 3 {
      Zeros(CodeMag(c % 128), exponent, 3);
    }
  }

  lemma InfinityMag()
    ensures Mag(INFINITY) == Pow2(277)
  {
    hide Pow2;
    assert INFINITY / HIDDEN == 255 && INFINITY % HIDDEN == 0;
    Powers();
    Pow2Add(23, 254);
  }

  // The product has the code's sign and the exact value, and is finite exactly while
  // that value is below 2^128.
  lemma ProductIsExact(c: Code, exponent: Code)
    requires !CodeIsNan(c) && exponent < 255
    ensures Product(c, exponent) < 0x1_0000_0000
    ensures Finite(Product(c, exponent)) <==> ProductMag(c, exponent) < Pow2(277)
    ensures if Finite(Product(c, exponent))
            then Value(Product(c, exponent)) == if c < 128 then ProductMag(c, exponent) as int else 0 - ProductMag(c, exponent) as int
            else Product(c, exponent) == c / 128 * SIGN_BIT + INFINITY
  {
    hide Mag, Encode, Pow2, ProductMag, Encodes, CodeMag;
    var q, j := ProductBits(c, exponent);
    EncodeExact(q, j);
    EncodedFinite(ProductMag(c, exponent));
    SignOnly(c / 128, Encode(ProductMag(c, exponent)));
  }

  lemma EncodedFinite(n: nat)
    requires Encodes(n)
    ensures Mag(Encode(n)) == n && (Encode(n) < INFINITY <==> n < Pow2(277))
  {
    hide Mag, Encode, Pow2;
    InfinityMag();
    if Encode(n) < INFINITY {
      MagIncreases(Encode(n), INFINITY);
    } else if INFINITY < Encode(n) {
      MagIncreases(INFINITY, Encode(n));
    }
  }

  // What is no number, or not finite, from the start: a NaN code, or the exponent 255,
  // which ldexp makes an infinity.
  lemma ProductSpecials(c: Code, exponent: Code)
    ensures IsNan(Product(c, exponent)) <==> c == 0x7F || c == 0xFF || (exponent == 255 && (c == 0 || c == 0x80))
    ensures exponent == 255 && c !in {0, 0x7F, 0x80, 0xFF} ==>
              Product(c, exponent) == INFINITY + if c < 128 then 0 else SIGN_BIT
    ensures IsNan(Product(c, exponent)) ==> IsNan(Widen(RoundBits(Product(c, exponent))))
  {
    hide Encode, Pow2, RoundBits, ProductMag;
    CodeIsZero(c % 128);
    if IsNan(Product(c, exponent)) {
      RoundSpecials(QUIET_NAN);
    }
  }

  lemma CodeIsZero(k: nat)
    ensures CodeMag(k) == 0 <==> k == 0
  {
  }

  // What is written for a code and its exponent: the bf16 value nearest to their product,
  // where there is one, and a NaN for a NaN.
  lemma ElementIsNearest(c: Code, exponent: Code)
    ensures !CodeIsNan(c) && exponent < 255 && ProductMag(c, exponent) < Pow2(277) && Finite(Widen(Element(c, exponent))) ==>
              && NearestEven(Product(c, exponent), Element(c, exponent))
              && Value(Product(c, exponent)) == if c < 128 then ProductMag(c, exponent) as int else 0 - ProductMag(c, exponent) as int
    ensures CodeIsNan(c) ==> IsNan(Widen(Element(c, exponent)))
  {
    hide Encode, Pow2, RoundBits, ProductMag, CodeMag, Mag, NearestEven;
    ProductSpecials(c, exponent);
    if !CodeIsNan(c) && exponent < 255 && ProductMag(c, exponent) < Pow2(277) && Finite(Widen(Element(c, exponent))) {
      ProductIsExact(c, exponent);
      RoundIsNearestEven(Product(c, exponent));
    }
  }

  // Rounding a code times a power of two changes nothing exactly when the product is a
  // whole number of bf16's least subnormals, 2^-133; every normal product is.
  lemma CodesRoundExactly(c: Code, exponent: Code)
    requires !CodeIsNan(c) && exponent < 255 && Finite(Product(c, exponent))
    ensures Product(c, exponent) < 0x1_0000_0000
    ensures Widen(RoundBits(Product(c, exponent))) == Product(c, exponent)
            <==> CodeMag(c % 128) * Pow2(exponent) % 8 == 0
    ensures exponent >= 3 || Product(c, exponent) % SIGN_BIT >= HIDDEN ==> CodeMag(c % 128) * Pow2(exponent) % 8 == 0
  {
    hide Mag, Encode, CodeMag, RoundBits, Pow2, ProductMag;
    ProductIsExact(c, exponent);
    var q, j := ProductBits(c, exponent);
    EncodeExact(q, j);
    RoundIsExact(Product(c, exponent));
    SignOnly(c / 128, Encode(q * Pow2(j)));
    EighthOfLow(CodeMag(c % 128) * Pow2(exponent));
  }

  lemma SignOnly(sign: nat, a: nat)
    requires sign < 2
    ensures (sign * SIGN_BIT + a) % LOW == a % LOW
    ensures a < SIGN_BIT ==> (sign * SIGN_BIT + a) % SIGN_BIT == a
  {
  }

  lemma EighthOfLow(n: nat)
    ensures n * 0x2000 % LOW == 0 <==> n % 8 == 0
  {
  }

  // A subnormal product can lose bits: the least code at the least exponent is 2^-136.
  lemma SubnormalLosesBits()
    ensures Product(1, 0) == 0x2000 && Finite(0x2000) && RoundBits(0x2000) == 0
  {
    hide Pow2;
    Powers();
    assert CodeMag(1) == 1;
  }

  // --------------------------------------------------------------- whole planes

  // Blocks of blockRows * blockCols codes, `across` of them beside each other, each
  // with one exponent.
  datatype Blocking = Blocking(blockRows: nat, blockCols: nat, across: nat) {
    function Cols(): (c: nat)
      ensures c > 0 <==> across > 0 && blockCols > 0
    {
      MulBounds(across, if blockCols > 0 then blockCols else 1);
      At(across, blockCols)
    }

    // The codes of one row of blocks.
    function BandSize(): (size: nat)
      ensures size > 0 <==> blockRows > 0 && across > 0 && blockCols > 0
    {
      MulBounds(blockRows, if Cols() > 0 then Cols() else 1);
      At(blockRows, Cols())
    }
  }

  lemma AtNested(n: nat, m: nat, size: nat)
    ensures At(n, At(m, size)) == At(At(n, m), size)
  {
    MulAssoc(n, m, size);
  }

  // n rows of blocks.
  ghost predicate Blocked(w: seq<Code>, s: seq<Code>, b: Blocking, n: nat) {
    |w| == At(n, b.BandSize()) && |s| == At(n, b.across)
  }

  function Element(c: Code, exponent: Code): (v: nat)
    ensures v < 0x1_0000
  {
    RoundBits(Product(c, exponent))
  }

  // The exponent code k is multiplied by: that of its band, and of its block across.
  function ExponentOf(b: Blocking, k: nat): nat
    requires b.blockRows > 0 && b.blockCols > 0 && b.across > 0
  {
    At(Quotient(k, b.BandSize()), b.across) + Quotient(k % b.Cols(), b.blockCols)
  }

  function Quotient(k: nat, size: nat): nat
    requires size > 0
  {
    k / size
  }

  lemma ExponentInRange(b: Blocking, k: nat, n: nat)
    requires k < At(n, b.BandSize())
    ensures b.blockRows > 0 && b.blockCols > 0 && b.across > 0
    ensures ExponentOf(b, k) < At(n, b.across)
  {
    hide At;
    GroupOf(k, n, b.BandSize());
    GroupOf(k % b.Cols(), b.across, b.blockCols);
    PlaceInGroups(k / b.BandSize(), k % b.Cols() / b.blockCols, n, b.across);
  }

  function Plane(w: seq<Code>, s: seq<Code>, b: Blocking, n: nat): (out: seq<nat>)
    requires Blocked(w, s, b, n)
    ensures |out| == |w|
  {
    seq(|w|, k requires 0 <= k < |w| => PlaneAt(w, s, b, n, k))
  }

  function PlaneAt(w: seq<Code>, s: seq<Code>, b: Blocking, n: nat, k: nat): nat
    requires Blocked(w, s, b, n) && k < |w|
  {
    ExponentInRange(b, k, n);
    Element(w[k], s[ExponentOf(b, k)])
  }

  // The element in row i and column j is its code under the exponent of its own block.
  ghost predicate MeetsItsExponent(out: seq<nat>, w: seq<Code>, s: seq<Code>, b: Blocking, i: nat, j: nat)
    requires b.blockRows > 0 && b.blockCols > 0
  {
    var k, e := At(i, b.Cols()) + j, At(i / b.blockRows, b.across) + j / b.blockCols;
    k < |w| == |out| && e < |s| && out[k] == Element(w[k], s[e])
  }

  lemma PlaneByCoordinates(w: seq<Code>, s: seq<Code>, b: Blocking, n: nat, i: nat, j: nat)
    requires Blocked(w, s, b, n) && i < At(n, b.blockRows) && j < b.Cols()
    ensures b.blockRows > 0 && b.blockCols > 0 && MeetsItsExponent(Plane(w, s, b, n), w, s, b, i, j)
  {
    hide Element, At, Plane, ExponentOf;
    GroupOf(i, n, b.blockRows);
    Coordinates(b, n, i, j);
    var k := At(i, b.Cols()) + j;
    ExponentInRange(b, k, n);
    PlaneElement(w, s, b, n, k);
  }

  lemma PlaneElement(w: seq<Code>, s: seq<Code>, b: Blocking, n: nat, k: nat)
    requires Blocked(w, s, b, n) && k < |w|
    ensures Plane(w, s, b, n)[k] == PlaneAt(w, s, b, n, k)
  {
  }

  lemma Coordinates(b: Blocking, n: nat, i: nat, j: nat)
    requires b.blockRows > 0 && i < At(n, b.blockRows) && j < b.Cols()
    ensures At(i, b.Cols()) + j < At(n, b.BandSize()) && b.blockCols > 0 && b.across > 0
    ensures ExponentOf(b, At(i, b.Cols()) + j) == At(i / b.blockRows, b.across) + j / b.blockCols
  {
    hide At;
    var cols := b.Cols();
    AtNested(n, b.blockRows, cols);
    PlaceInGroups(i, j, At(n, b.blockRows), cols);
    GroupOf(i, n, b.blockRows);
    var a, x := i / b.blockRows, i % b.blockRows;
    assert i == At(a, b.blockRows) + x by {
      AtMeans(a, b.blockRows);
    }
    PlaceInGroups(x, j, b.blockRows, cols);
    AtAdds(At(a, b.blockRows), x, cols);
    AtNested(a, b.blockRows, cols);
    PlaceInGroups(a, At(x, cols) + j, n, b.BandSize());
  }

  // Bands are independent: planes stacked on each other read out as their parts do.
  lemma PlanesStack(w: seq<Code>, s: seq<Code>, n: nat, w': seq<Code>, s': seq<Code>, n': nat, b: Blocking)
    requires Blocked(w, s, b, n) && Blocked(w', s', b, n')
    ensures Blocked(w + w', s + s', b, n + n')
    ensures Plane(w + w', s + s', b, n + n') == Plane(w, s, b, n) + Plane(w', s', b, n')
  {
    hide Element, At, ExponentOf;
    AtAdds(n, n', b.BandSize());
    AtAdds(n, n', b.across);
    forall k: nat | k < |w + w'|
      ensures Plane(w + w', s + s', b, n + n')[k] == (Plane(w, s, b, n) + Plane(w', s', b, n'))[k]
    {
      ExponentInRange(b, k, n + n');
      if k < |w| {
        ExponentInRange(b, k, n);
      } else {
        ExponentInRange(b, k - |w|, n');
        ExponentShifts(b, n, k - |w|);
      }
    }
  }

  lemma ExponentShifts(b: Blocking, n: nat, k: nat)
    requires b.blockRows > 0 && b.blockCols > 0 && b.across > 0
    ensures ExponentOf(b, At(n, b.BandSize()) + k) == At(n, b.across) + ExponentOf(b, k)
  {
    hide At;
    Shifted(n, k, b.BandSize());
    AtAdds(n, k / b.BandSize(), b.across);
    AtNested(n, b.blockRows, b.Cols());
    Shifted(At(n, b.blockRows), k, b.Cols());
  }

  lemma Shifted(n: nat, k: nat, size: nat)
    requires size > 0
    ensures (At(n, size) + k) / size == n + k / size
    ensures (At(n, size) + k) % size == k % size
  {
    var a, r := k / size, k % size;
    AtAdds(n, a, size);
    DivModUnique(size, n + a, r);
  }

  // ------------------------------------------------------------------- in chunks

  // What the sizes must be for the plane to be read out, in the order they are looked at.
  function Blocks(codes: nat, rows: nat, cols: nat, exponents: nat, srows: nat, scols: nat): (r: Result<Blocking, Error>)
    ensures r.Ok? <==> 0 < srows && 0 < rows && rows % srows == 0 && 0 < scols && cols % scols == 0
                       && codes == At(rows, cols) && exponents == At(srows, scols)
    ensures r.Ok? ==> r.value.across == scols && r.value.Cols() == cols && r.value.blockRows > 0
                      && At(srows, r.value.blockRows) == rows
    ensures r == Err(NotBlocked) <==> srows > 0 && (rows % srows != 0 || (scols > 0 && cols % scols != 0))
    ensures r == Err(BadShape) <==> srows > 0 && rows % srows == 0 && scols > 0 && cols % scols == 0
                                    && (codes != At(rows, cols) || exponents != At(srows, scols))
  {
    if srows == 0 then Err(DivisionByZero)
    else if rows % srows != 0 then Err(NotBlocked)
    else if scols == 0 then Err(DivisionByZero)
    else if cols % scols != 0 then Err(NotBlocked)
    else if codes != At(rows, cols) || exponents != At(srows, scols) then Err(BadShape)
    else
      var down, across := DivMod(rows, srows), DivMod(cols, scols);
      if down.0 == 0 then Err(DivisionByZero)
      else Ok(Blocking(down.0, across.0, scols))
  }

  // The rows of a chunk: whole bands, about 8192 rows of them.
  function Step(blockRows: nat): (step: nat)
    requires blockRows > 0
    ensures 0 < step && step % blockRows == 0
    ensures step <= 8192 || step == blockRows
    ensures step + blockRows > 8192
  {
    var whole := DivMod(8192, blockRows);
    DivModUnique(blockRows, whole.0, 0);
    MulBounds(whole.0, blockRows);
    if whole.0 * blockRows > blockRows then whole.0 * blockRows else blockRows
  }

  // The chunks of the first n bands, joined, are those bands' plane.
  ghost predicate ReadOut(chunks: seq<seq<nat>>, w: seq<Code>, s: seq<Code>, b: Blocking, n: nat) {
    && At(n, b.BandSize()) <= |w| && At(n, b.across) <= |s|
    && Concat(chunks) == Plane(w[..At(n, b.BandSize())], s[..At(n, b.across)], b, n)
  }

  lemma ReadOutMore(chunks: seq<seq<nat>>, w: seq<Code>, s: seq<Code>, b: Blocking, n: nat, m: nat, chunk: seq<nat>)
    requires ReadOut(chunks, w, s, b, n) && n <= m
    requires At(m, b.BandSize()) <= |w| && At(m, b.across) <= |s|
    requires At(n, b.BandSize()) <= At(m, b.BandSize()) && At(n, b.across) <= At(m, b.across)
    requires var w', s' := w[At(n, b.BandSize())..At(m, b.BandSize())], s[At(n, b.across)..At(m, b.across)];
             Blocked(w', s', b, m - n) && chunk == Plane(w', s', b, m - n)
    ensures ReadOut(chunks + [chunk], w, s, b, m)
  {
    hide At, Plane;
    var w0, w1, s0, s1 := At(n, b.BandSize()), At(m, b.BandSize()), At(n, b.across), At(m, b.across);
    PlanesStack(w[..w0], s[..s0], n, w[w0..w1], s[s0..s1], m - n, b);
    assert w[..w0] + w[w0..w1] == w[..w1] && s[..s0] + s[s0..s1] == s[..s1];
    ConcatAppend(chunks, chunk);
  }

  lemma NothingReadOut(w: seq<Code>, s: seq<Code>, b: Blocking)
    ensures ReadOut([], w, s, b, 0)
  {
    AtAdds(0, 0, b.BandSize());
    AtAdds(0, 0, b.across);
  }

  lemma AllReadOut(chunks: seq<seq<nat>>, w: seq<Code>, s: seq<Code>, b: Blocking, n: nat)
    requires ReadOut(chunks, w, s, b, n) && Blocked(w, s, b, n)
    ensures Concat(chunks) == Plane(w, s, b, n)
  {
    assert w[..|w|] == w && s[..|s|] == s;
  }

  // Rows r0 to r1 are bands n to m, as codes and as exponents.
  lemma BandsOfRows(b: Blocking, n: nat, m: nat)
    requires b.blockRows > 0 && n <= m
    ensures At(At(n, b.blockRows), b.Cols()) == At(n, b.BandSize())
    ensures At(n, b.blockRows) / b.blockRows == n
    ensures At(n, b.BandSize()) <= At(m, b.BandSize()) && At(n, b.across) <= At(m, b.across)
    ensures At(m, b.BandSize()) - At(n, b.BandSize()) == At(m - n, b.BandSize())
    ensures At(m, b.across) - At(n, b.across) == At(m - n, b.across)
  {
    hide At;
    AtNested(n, b.blockRows, b.Cols());
    PlaceInGroups(n, 0, n + 1, b.blockRows);
    AtAdds(n, m - n, b.BandSize());
    AtAdds(n, m - n, b.across);
  }

  // A chunk that stops at a step or at the end stops between bands.
  lemma NextBands(n: nat, bands: nat, blockRows: nat, step: nat) returns (m: nat)
    requires blockRows > 0 && step > 0 && step % blockRows == 0 && At(n, blockRows) < At(bands, blockRows)
    ensures n < m <= bands
    ensures At(m, blockRows) == if At(n, blockRows) + step < At(bands, blockRows) then At(n, blockRows) + step else At(bands, blockRows)
  {
    var k := step / blockRows;
    AtMeans(k, blockRows);
    AtAdds(n, k, blockRows);
    AtOrder(n, bands, blockRows);
    AtOrder(n + k, bands, blockRows);
    m := if At(n, blockRows) + step < At(bands, blockRows) then n + k else bands;
  }

  // A chunk is whole rows, no more of them than a step.
  ghost predicate ChunkSized(chunk: seq<nat>, b: Blocking) {
    b.blockRows > 0 && exists rows :: 0 < rows <= Step(b.blockRows) && |chunk| == At(rows, b.Cols())
  }

  ghost predicate ChunksSized(chunks: seq<seq<nat>>, b: Blocking) {
    forall k :: 0 <= k < |chunks| ==> ChunkSized(chunks[k], b)
  }

  lemma NoChunks(b: Blocking)
    ensures ChunksSized([], b)
  {
  }

  lemma RowsSized(chunks: seq<seq<nat>>, chunk: seq<nat>, b: Blocking, n: nat, m: nat)
    requires ChunksSized(chunks, b) && b.blockRows > 0 && n < m
    requires 0 < At(m, b.blockRows) - At(n, b.blockRows) <= Step(b.blockRows)
    requires |chunk| == At(m - n, b.BandSize())
    ensures ChunksSized(chunks + [chunk], b)
  {
    hide At, Step;
    AtNested(m - n, b.blockRows, b.Cols());
    AtAdds(n, m - n, b.blockRows);
    assert ChunkSized(chunk, b);
  }

  lemma ShapeIsBlocked(w: seq<Code>, rows: nat, cols: nat, s: seq<Code>, srows: nat, scols: nat)
    requires Blocks(|w|, rows, cols, |s|, srows, scols).Ok?
    ensures var b := Blocks(|w|, rows, cols, |s|, srows, scols).value;
            Blocked(w, s, b, srows)
  {
    hide At;
    var b := Blocks(|w|, rows, cols, |s|, srows, scols).value;
    AtNested(srows, b.blockRows, b.Cols());
  }

  // One chunk: rows r0 to r1 of the codes, and the exponents of their bands.
  method ReadOutRows(w: seq<Code>, s: seq<Code>, b: Blocking, r0: nat, r1: nat, ghost n: nat, ghost m: nat, ghost bands: nat)
    returns (chunk: seq<nat>)
    requires b.blockRows > 0 && n < m <= bands && Blocked(w, s, b, bands)
    requires r0 == At(n, b.blockRows) && r1 == At(m, b.blockRows)
    ensures At(m, b.BandSize()) <= |w| && At(m, b.across) <= |s|
    ensures At(n, b.BandSize()) <= At(m, b.BandSize()) && At(n, b.across) <= At(m, b.across)
    ensures var w', s' := w[At(n, b.BandSize())..At(m, b.BandSize())], s[At(n, b.across)..At(m, b.across)];
            Blocked(w', s', b, m - n) && chunk == Plane(w', s', b, m - n)
    ensures |chunk| == At(m - n, b.BandSize())
  {
    hide At, Plane;
    BandsOfRows(b, n, m);
    BandsOfRows(b, m, bands);
    var q0: nat, q1: nat := r0 / b.blockRows, r1 / b.blockRows;
    var codes := w[At(r0, b.Cols())..At(r1, b.Cols())];
    var exponents := s[At(q0, b.across)..At(q1, b.across)];
    chunk := Plane(codes, exponents, b, q1 - q0);
  }

  // `dequant_fp8_bf16`: the chunks, joined, are the whole plane read out at once.
  method ReadOutPlane(weight: seq<Code>, rows: nat, cols: nat, scale: seq<Code>, srows: nat, scols: nat)
    returns (r: Result<seq<seq<nat>>, Error>)
    ensures var e := Blocks(|weight|, rows, cols, |scale|, srows, scols);
            if e.Err? then r == Err(e.error)
            else
              && r.Ok? && Blocked(weight, scale, e.value, srows)
              && Concat(r.value) == Plane(weight, scale, e.value, srows)
              && ChunksSized(r.value, e.value)
  {
    hide *;
    var blocks := Blocks(|weight|, rows, cols, |scale|, srows, scols);
    if blocks.Err? {
      return Err(blocks.error);
    }
    var b, chunks := blocks.value, [];
    ShapeIsBlocked(weight, rows, cols, scale, srows, scols);
    NothingReadOut(weight, scale, b);
    NoChunks(b);
    AtAdds(0, 0, b.blockRows);
    var step, r0 := Step(b.blockRows), 0;
    ghost var n := 0;
    while r0 < rows
      invariant 0 <= n <= srows && r0 == At(n, b.blockRows)
      invariant ReadOut(chunks, weight, scale, b, n) && ChunksSized(chunks, b)
      decreases rows - r0
    {
      var r1 := if rows < r0 + step then rows else r0 + step;
      ghost var m := NextBands(n, srows, b.blockRows, step);
      var chunk := ReadOutRows(weight, scale, b, r0, r1, n, m, srows);
      ReadOutMore(chunks, weight, scale, b, n, m, chunk);
      RowsSized(chunks, chunk, b, n, m);
      chunks, r0, n := chunks + [chunk], r1, m;
    }
    AtApart(n, srows, b.blockRows);
    AllReadOut(chunks, weight, scale, b, srows);
    return Ok(chunks);
  }
}

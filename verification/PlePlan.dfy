// `plan_ple_carve` itself: the two geometries, its refusals, and what a carve it
// does not refuse means row by row.

module PlePlan {
  import opened Arithmetic
  import opened Primes
  import opened HashGeometry
  import opened PleCarve

  datatype Carve = Carve(heads: nat, srcParts: nat, dstParts: nat,
                         srcPrimes: seq<int>, srcOffsets: seq<int>, srcPadded: int,
                         dstPrimes: seq<int>, dstOffsets: seq<int>, dstPadded: int,
                         layout: seq<seq<Slice>>, windows: map<nat, (nat, nat)>)
  {
    function SrcRows(): int
      requires srcParts > 0
    {
      srcPadded / srcParts
    }

    function DstRows(): int
      requires dstParts > 0
    {
      dstPadded / dstParts
    }
  }

  // Why the plan stops: a division by zero, an empty head list, or one of its own refusals.
  datatype Why = ZeroDivision | NoHeads | SourceShards | TargetShards | Growth(head: nat, wanted: int, available: int)
  datatype Outcome = WholeTable | Refused(why: Why) | Carved(carve: Carve)

  // The same fraction of the source's base as of its shards: the greatest base of which
  // srcParts are no more than dstParts of the source's.
  ghost predicate IsTargetBase(b: int, srcBase: int, srcParts: nat, dstParts: nat) {
    b * srcParts <= srcBase * dstParts < (b + 1) * srcParts
  }

  // `ple_base_for`
  function BaseFor(srcBase: int, srcParts: nat, dstParts: nat): (b: int)
    requires srcParts > 0
    ensures IsTargetBase(b, srcBase, srcParts, dstParts)
  {
    srcBase * dstParts / srcParts
  }

  lemma TargetBaseIsUnique(a: int, b: int, srcBase: int, srcParts: nat, dstParts: nat)
    requires IsTargetBase(a, srcBase, srcParts, dstParts) && IsTargetBase(b, srcBase, srcParts, dstParts)
    ensures a == b
  {
    var total, d := srcBase * dstParts, a - b;
    assert d * srcParts == a * srcParts - b * srcParts;
    MulBounds(d, srcParts);
  }

  lemma TargetBaseIs(srcBase: int, srcParts: nat, dstParts: nat)
    requires srcParts > 0
    ensures forall b :: IsTargetBase(b, srcBase, srcParts, dstParts) <==> b == BaseFor(srcBase, srcParts, dstParts)
  {
    forall b | IsTargetBase(b, srcBase, srcParts, dstParts) ensures b == BaseFor(srcBase, srcParts, dstParts) {
      TargetBaseIsUnique(b, BaseFor(srcBase, srcParts, dstParts), srcBase, srcParts, dstParts);
    }
  }

  // `(ngram - 1) * per_ngram` heads; a loop over fewer than none runs no times.
  function Heads(ngram: int, perNgram: int): nat {
    var n := (ngram - 1) * perNgram;
    if n < 0 then 0 else n
  }

  ghost function HeadPairs(orders: int, slots: int): set<(int, int)> {
    set o, j | 0 <= o < orders && 0 <= j < slots :: (o, j)
  }

  ghost function SlotsOf(o: int, slots: int): set<(int, int)> {
    set j | 0 <= j < slots :: (o, j)
  }

  lemma {:induction false} SlotsAreCounted(o: int, slots: nat)
    ensures |SlotsOf(o, slots)| == slots
  {
    if slots > 0 {
      SlotsAreCounted(o, slots - 1);
      assert SlotsOf(o, slots) == SlotsOf(o, slots - 1) + {(o, slots - 1)};
    }
  }

  lemma {:induction false} PairsAreProduct(orders: nat, slots: nat)
    ensures |HeadPairs(orders, slots)| == At(orders, slots)
  {
    AtAdds(0, 0, slots);
    if orders > 0 {
      AtAdds(orders - 1, 1, slots);
      PairsAreProduct(orders - 1, slots);
      SlotsAreCounted(orders - 1, slots);
      hide At;
      assert HeadPairs(orders, slots) == HeadPairs(orders - 1, slots) + SlotsOf(orders - 1, slots);
    }
  }

  lemma PairsOf(orders: int, slots: int)
    ensures |HeadPairs(orders, slots)| == if orders < 0 || slots < 0 then 0 else orders * slots
  {
    if orders >= 0 && slots >= 0 {
      PairsAreProduct(orders, slots);
      AtMeans(orders, slots);
    } else {
      assert HeadPairs(orders, slots) == {};
    }
  }

  // One head for each order past the first and each slot of it. Two negative numbers
  // multiply to a positive one here as they do in the program.
  lemma HeadsAreCounted(ngram: int, perNgram: int)
    ensures Heads(ngram, perNgram) == |HeadPairs(ngram - 1, perNgram)| + |HeadPairs(1 - ngram, -perNgram)|
    ensures ngram >= 1 && perNgram >= 0 ==> Heads(ngram, perNgram) == |HeadPairs(ngram - 1, perNgram)|
  {
    PairsOf(ngram - 1, perNgram);
    PairsOf(1 - ngram, -perNgram);
    ProductSign(ngram - 1, perNgram);
  }

  lemma ProductSign(a: int, b: int)
    ensures (a > 0 && b < 0) || (a < 0 && b > 0) ==> a * b < 0
    ensures a == 0 || b == 0 ==> a * b == 0
    ensures a * b == -a * -b
  {
  }

  // ------------------------------------------------------------- what is asked for

  ghost function Padded(primes: seq<int>, quantum: nat): int
    requires quantum > 0
  {
    RoundUp(Sum(primes), quantum)
  }

  lemma RoundedUpIsUnique(total: int, quantum: nat, a: int, b: int)
    requires RoundedUp(total, quantum, a) && RoundedUp(total, quantum, b)
    ensures a == b
  {
    var k := (a - b) / quantum;
    assert a == a / quantum * quantum && b == b / quantum * quantum;
    var d := a / quantum - b / quantum;
    assert a - b == d * quantum;
    MulBounds(d, quantum);
  }

  // The rows head h is to have: its prime, and for the last the padding too.
  function Wanted(dstPrimes: seq<int>, dstPadded: int, h: nat): int
    requires h < |dstPrimes|
  {
    dstPrimes[h] + if h == |dstPrimes| - 1 then dstPadded - Sum(dstPrimes) else 0
  }

  // When a carve exists, in terms of the numbers asked for alone.
  ghost predicate Carvable(srcBase: int, srcParts: nat, heads: nat, divisibleBy: nat, parts: nat) {
    && srcParts > 0 && parts > 0 && divisibleBy > 0 && heads > 0
    && var src, dst := FirstPrimes(srcBase, heads), FirstPrimes(BaseFor(srcBase, srcParts, parts), heads);
    && Padded(src, divisibleBy) % srcParts == 0
    && Padded(dst, divisibleBy) % parts == 0
    && forall h :: 0 <= h < heads ==> Wanted(dst, Padded(dst, divisibleBy), h) <= src[h]
  }

  // ----------------------------------------------------------- what a carve means

  // Output row dstOffsets[h] + i is source row srcOffsets[h] + i, for every head and
  // every row of it; the padding carries on through the last head's own segment.
  ghost predicate SameRows(c: Carve, rows: seq<nat>) {
    && c.heads == |c.dstPrimes| == |c.dstOffsets| == |c.srcPrimes| == |c.srcOffsets| > 0
    && |rows| == c.dstPadded
    && forall h, i :: 0 <= h < c.heads && 0 <= i < Wanted(c.dstPrimes, c.dstPadded, h) ==> RowIs(c, rows, h, i)
  }

  ghost predicate RowIs(c: Carve, rows: seq<nat>, h: int, i: int)
    requires 0 <= h < |c.dstOffsets| == |c.srcOffsets| == |c.srcPrimes|
  {
    && 0 <= c.dstOffsets[h] + i < |rows|
    && rows[c.dstOffsets[h] + i] == c.srcOffsets[h] + i
    && c.srcOffsets[h] + i < c.srcOffsets[h] + c.srcPrimes[h] <= c.srcPadded
  }

  ghost predicate Faithful(c: Carve) {
    && c.srcParts > 0 && c.dstParts > 0
    && c.srcPadded >= 0 && c.dstPadded >= 0
    && c.srcPadded == c.srcParts * c.SrcRows() && c.dstPadded == c.dstParts * c.DstRows()
    && c.SrcRows() > 0 && c.DstRows() > 0
    // The offsets are where the hash looks, the padding less than a quantum.
    && PrefixSums(c.srcPrimes, c.srcOffsets) && PrefixSums(c.dstPrimes, c.dstOffsets)
    // Every output shard has the same number of rows, and together they are the right ones.
    && |c.layout| == c.dstParts
    && (forall s :: 0 <= s < c.dstParts ==> |RowsOf(c.layout[s], c.SrcRows())| == c.DstRows())
    && SameRows(c, LayoutRows(c.layout, c.SrcRows()))
    // No slice crosses a source shard's seam, and each lies in its part's window.
    && (forall s, k :: 0 <= s < c.dstParts && 0 <= k < |c.layout[s]| ==> SliceFits(c, c.layout[s][k]))
    && (forall part :: part in c.windows ==> WindowFits(c, part, LayoutRows(c.layout, c.SrcRows())))
  }

  ghost predicate SliceFits(c: Carve, s: Slice)
    requires c.srcParts > 0 && c.SrcRows() >= 0
  {
    s.part < c.srcParts && s.row0 + s.rows <= c.SrcRows() && InWindow(c.windows, s)
  }

  // A window is part of one stored shard, and the carve needs both its end rows.
  ghost predicate WindowFits(c: Carve, part: nat, rows: seq<nat>)
    requires c.srcParts > 0 && part in c.windows
  {
    var (lo, hi) := c.windows[part];
    && part < c.srcParts && lo < hi <= c.SrcRows()
    && part * c.SrcRows() + lo in rows && part * c.SrcRows() + hi - 1 in rows
  }

  // -------------------------------------------------------------------- the spans

  lemma {:induction false} SumOfPrimes(base: int, n: nat)
    ensures Sum(FirstPrimes(base, n)) >= n
  {
    hide NthPrime, Prime, Sum;
    if n > 0 {
      SumOfPrimes(base, n - 1);
      NthPrimeAtLeastTwo(base, n - 1);
      SumAppend(FirstPrimes(base, n - 1), NthPrime(base, n - 1));
    } else {
      SumOfNothing();
    }
  }

  lemma SumOfNothing()
    ensures Sum([]) == 0
  {
  }

  lemma NthPrimeAtLeastTwo(base: int, k: nat)
    ensures NthPrime(base, k) >= 2
  {
    assert Prime(NthPrime(base, k));
  }

  // A head's segment ends where the next begins, and the last within the total.
  lemma {:induction false} SegmentEnds(primes: seq<int>, h: nat)
    requires h < |primes| && forall i :: 0 <= i < |primes| ==> primes[i] >= 0
    ensures 0 <= Sum(primes[..h])
    ensures Sum(primes[..h]) + primes[h] <= Sum(primes)
    decreases |primes|
  {
    var init := primes[..|primes| - 1];
    if h < |primes| - 1 {
      SegmentEnds(init, h);
      assert init[..h] == primes[..h];
    } else {
      SumNonNegative(init);
    }
  }

  lemma {:induction false} SumNonNegative(s: seq<int>)
    requires forall i :: 0 <= i < |s| ==> s[i] >= 0
    ensures Sum(s) >= 0
  {
    if s != [] {
      SumNonNegative(s[..|s| - 1]);
    }
  }

  ghost function SpanSizes(spans: seq<Span>): seq<int> {
    seq(|spans|, h requires 0 <= h < |spans| => spans[h].rows)
  }

  // Row i of span h, among all the spans' rows.
  lemma {:induction false} SpanRowAt(spans: seq<Span>, h: nat, i: nat)
    requires h < |spans| && i < spans[h].rows
    ensures |SpanRows(spans)| == Sum(SpanSizes(spans))
    ensures 0 <= Sum(SpanSizes(spans)[..h]) + i < |SpanRows(spans)|
    ensures SpanRows(spans)[Sum(SpanSizes(spans)[..h]) + i] == spans[h].row0 + i
  {
    var k := |spans| - 1;
    var init := spans[..k];
    SpanRowsLength(init);
    assert SpanSizes(spans)[..k] == SpanSizes(init);
    SumNonNegative(SpanSizes(spans)[..h]);
    if h < k {
      SpanRowAt(init, h, i);
      assert SpanSizes(init)[..h] == SpanSizes(spans)[..h];
    }
  }

  lemma {:induction false} SpanRowsLength(spans: seq<Span>)
    ensures |SpanRows(spans)| == Sum(SpanSizes(spans))
  {
    if spans != [] {
      SpanRowsLength(spans[..|spans| - 1]);
      assert SpanSizes(spans)[..|spans| - 1] == SpanSizes(spans[..|spans| - 1]);
    }
  }

  // Head h's span: its own segment of the source, as many rows as the head is to have.
  ghost predicate HeadSpans(spans: seq<Span>, srcOffsets: seq<int>, dstPrimes: seq<int>, dstPadded: int) {
    && |spans| == |dstPrimes| == |srcOffsets|
    && forall h :: 0 <= h < |spans| ==>
                     spans[h].row0 == srcOffsets[h] && spans[h].rows == Wanted(dstPrimes, dstPadded, h)
  }

  lemma SpanSizesAre(spans: seq<Span>, srcOffsets: seq<int>, dstPrimes: seq<int>, dstPadded: int)
    requires HeadSpans(spans, srcOffsets, dstPrimes, dstPadded) && |spans| > 0
    ensures forall h :: 0 <= h < |spans| ==> Sum(SpanSizes(spans)[..h]) == Sum(dstPrimes[..h])
    ensures Sum(SpanSizes(spans)) == dstPadded
  {
    var sizes, k := SpanSizes(spans), |spans| - 1;
    assert sizes[..k] == dstPrimes[..k];
    forall h | 0 <= h < |spans| ensures Sum(sizes[..h]) == Sum(dstPrimes[..h]) {
      assert sizes[..h] == dstPrimes[..h];
    }
  }

  // --------------------------------------------------------------------- refusals

  lemma FloorBound(a: int, b: int, c: int)
    requires c > 0 && a <= b * c
    ensures a / c <= b
  {
    var q := a / c;
    MulBounds(q - b, c);
    assert q * c <= a && (q - b) * c == q * c - b * c;
  }

  // Cut to fewer parts, no head's prime outgrows the source's: the padding alone can.
  lemma FewerPartsShrink(srcBase: int, srcParts: nat, parts: nat, h: nat)
    requires srcBase >= 0 && 0 < parts <= srcParts
    ensures NthPrime(BaseFor(srcBase, srcParts, parts), h) <= NthPrime(srcBase, h)
  {
    MulMonotone(parts, srcParts, srcBase);
    FloorBound(srcBase * parts, srcBase, srcParts);
    NthPrimeMonotone(BaseFor(srcBase, srcParts, parts), srcBase, h);
  }

  // ------------------------------------------------------------------ the carve

  // A geometry as `NgramHashGeometry` answers it.
  ghost predicate Derived(base: int, heads: nat, quantum: nat, primes: seq<int>, offsets: seq<int>, padded: int) {
    && quantum > 0
    && primes == FirstPrimes(base, heads) && PrefixSums(primes, offsets) && padded == Padded(primes, quantum)
  }

  // Every span lies inside its own head's segment, and so inside the table.
  lemma SpansInside(base: int, heads: nat, quantum: nat, offsets: seq<int>, padded: int, spans: seq<Span>,
                    dstPrimes: seq<int>, dstPadded: int)
    requires Derived(base, heads, quantum, FirstPrimes(base, heads), offsets, padded)
    requires HeadSpans(spans, offsets, dstPrimes, dstPadded) && |spans| == heads
    requires forall h :: 0 <= h < heads ==> Wanted(dstPrimes, dstPadded, h) <= NthPrime(base, h)
    ensures forall h :: 0 <= h < heads ==>
                          && spans[h].row0 + spans[h].rows <= offsets[h] + NthPrime(base, h) <= padded
                          && spans[h].row0 + spans[h].rows <= padded
  {
    hide NthPrime, Sum;
    var primes := FirstPrimes(base, heads);
    forall h | 0 <= h < heads
      ensures spans[h].row0 + spans[h].rows <= offsets[h] + NthPrime(base, h) <= padded
    {
      assert forall i :: 0 <= i < heads ==> primes[i] >= 0 by {
        forall i | 0 <= i < heads ensures primes[i] >= 0 {
          NthPrimeAtLeastTwo(base, i);
        }
      }
      SegmentEnds(primes, h);
    }
  }

  method HeadSpanList(srcOffsets: seq<int>, dstPrimes: seq<int>, dstPadded: int) returns (spans: seq<Span>)
    requires |srcOffsets| == |dstPrimes| > 0
    requires forall h :: 0 <= h < |srcOffsets| ==> srcOffsets[h] >= 0 && dstPrimes[h] >= 0
    requires dstPadded >= Sum(dstPrimes)
    ensures HeadSpans(spans, srcOffsets, dstPrimes, dstPadded)
  {
    spans := seq(|srcOffsets|, h requires 0 <= h < |srcOffsets| => Span(srcOffsets[h], dstPrimes[h]));
    var k := |spans| - 1;
    spans := spans[k := Span(spans[k].row0, spans[k].rows + dstPadded - Sum(dstPrimes))];
  }

  // What the two loops leave behind, as `SplitSpans` and `LayOut` promise it.
  ghost predicate LaidOut(c: Carve, spans: seq<Span>, flat: seq<Slice>) {
    && c.srcParts > 0 && c.dstParts > 0 && c.SrcRows() > 0 && c.DstRows() > 0
    && c.srcPadded == c.srcParts * c.SrcRows() && c.dstPadded == c.dstParts * c.DstRows()
    && AllInside(flat, c.SrcRows(), c.srcPadded)
    && RowsOf(flat, c.SrcRows()) == SpanRows(spans)
    && |c.layout| == c.dstParts
    && Dealt(c.layout, SpanRows(spans), c.SrcRows(), c.DstRows()) && AllWithin(c.layout, flat)
    && c.windows == Windows(flat)
  }

  lemma InsidePart(s: Slice, srcRows: nat, srcParts: nat)
    requires srcRows > 0 && InsideShard(s, srcRows, srcParts * srcRows)
    ensures s.part < srcParts
  {
    ShardIndex(s.part, srcParts, s.part * srcRows, srcRows);
  }

  lemma SlicesFit(c: Carve, spans: seq<Span>, flat: seq<Slice>, s: nat, k: nat)
    requires LaidOut(c, spans, flat) && s < |c.layout| && k < |c.layout[s]|
    ensures SliceFits(c, c.layout[s][k])
  {
    hide Dealt;
    assert FromOne(c.layout[s][k], flat);
    var j :| 0 <= j < |flat| && Within(c.layout[s][k], flat[j]);
    assert InsideShard(flat[j], c.SrcRows(), c.srcPadded);
    InsidePart(flat[j], c.SrcRows(), c.srcParts);
    WindowsCover(flat, j);
  }

  lemma WindowsFit(c: Carve, spans: seq<Span>, flat: seq<Slice>, part: nat)
    requires LaidOut(c, spans, flat) && part in c.windows
    ensures WindowFits(c, part, SpanRows(spans))
  {
    hide Dealt, AllWithin, RowsOf, SpanRows, Windows;
    var first, last := WindowsTight(flat, part);
    var i :| 0 <= i < |flat| && flat[i] == first;
    var j :| 0 <= j < |flat| && flat[j] == last;
    assert InsideShard(flat[i], c.SrcRows(), c.srcPadded) && InsideShard(flat[j], c.SrcRows(), c.srcPadded);
    InsidePart(first, c.SrcRows(), c.srcParts);
    WindowsCover(flat, i);
    RowsOfEnds(flat, c.SrcRows(), i);
    RowsOfEnds(flat, c.SrcRows(), j);
  }

  // The concatenated shards are the spans' rows.
  lemma ShardsAreSpans(c: Carve, spans: seq<Span>, flat: seq<Slice>)
    requires LaidOut(c, spans, flat) && |SpanRows(spans)| == c.dstPadded
    ensures LayoutRows(c.layout, c.SrcRows()) == SpanRows(spans)
    ensures forall s :: 0 <= s < c.dstParts ==> |RowsOf(c.layout[s], c.SrcRows())| == c.DstRows()
  {
    hide Dealt, AllWithin, RowsOf, SpanRows, Windows, AllInside;
    DealtRows(c.layout, SpanRows(spans), c.SrcRows(), c.DstRows(), c.dstParts);
    assert c.layout[..c.dstParts] == c.layout;
  }

  // A carve's numbers, before its rows.
  ghost predicate Sized(c: Carve, srcBase: int, dstBase: int, quantum: nat) {
    && c.heads > 0
    && Derived(srcBase, c.heads, quantum, c.srcPrimes, c.srcOffsets, c.srcPadded)
    && Derived(dstBase, c.heads, quantum, c.dstPrimes, c.dstOffsets, c.dstPadded)
    && forall h :: 0 <= h < c.heads ==> Wanted(c.dstPrimes, c.dstPadded, h) <= c.srcPrimes[h]
  }

  lemma SpansAreSameRows(c: Carve, srcBase: int, dstBase: int, quantum: nat, spans: seq<Span>)
    requires Sized(c, srcBase, dstBase, quantum) && HeadSpans(spans, c.srcOffsets, c.dstPrimes, c.dstPadded)
    ensures |SpanRows(spans)| == c.dstPadded
    ensures SameRows(c, SpanRows(spans))
  {
    hide NthPrime, Sum, SpanRows, FirstPrimes, Padded;
    var rows := SpanRows(spans);
    SpanRowsLength(spans);
    SpanSizesAre(spans, c.srcOffsets, c.dstPrimes, c.dstPadded);
    SpansInside(srcBase, c.heads, quantum, c.srcOffsets, c.srcPadded, spans, c.dstPrimes, c.dstPadded);
    forall h, i | 0 <= h < c.heads && 0 <= i < Wanted(c.dstPrimes, c.dstPadded, h)
      ensures RowIs(c, rows, h, i)
    {
      SpanRowAt(spans, h, i);
      assert c.srcPrimes[h] == NthPrime(srcBase, h);
    }
  }

  lemma CarveIsFaithful(c: Carve, srcBase: int, dstBase: int, quantum: nat, spans: seq<Span>, flat: seq<Slice>)
    requires Sized(c, srcBase, dstBase, quantum) && HeadSpans(spans, c.srcOffsets, c.dstPrimes, c.dstPadded)
    requires LaidOut(c, spans, flat)
    ensures Faithful(c)
  {
    SpansAreSameRows(c, srcBase, dstBase, quantum, spans);
    ShardsAreSpans(c, spans, flat);
    hide Dealt, AllWithin, RowsOf, SpanRows, Windows, LayoutRows, HeadSpans, SameRows, Sum, Padded;
    forall s, k | 0 <= s < c.dstParts && 0 <= k < |c.layout[s]| ensures SliceFits(c, c.layout[s][k]) {
      SlicesFit(c, spans, flat, s, k);
    }
    forall part | part in c.windows ensures WindowFits(c, part, SpanRows(spans)) {
      WindowsFit(c, spans, flat, part);
    }
  }

  lemma DerivedFacts(base: int, heads: nat, quantum: nat, primes: seq<int>, offsets: seq<int>, padded: int)
    requires quantum > 0 && primes == FirstPrimes(base, heads) && PrefixSums(primes, offsets)
    requires RoundedUp(Sum(primes), quantum, padded)
    ensures Derived(base, heads, quantum, primes, offsets, padded)
    ensures heads <= Sum(primes) <= padded && |offsets| == heads
    ensures forall h :: 0 <= h < heads ==> offsets[h] >= 0 && primes[h] >= 2
  {
    hide NthPrime, Sum;
    RoundedUpIsUnique(Sum(primes), quantum, padded, Padded(primes, quantum));
    SumOfPrimes(base, heads);
    forall h | 0 <= h < heads ensures offsets[h] >= 0 && primes[h] >= 2 {
      assert forall i :: 0 <= i < heads ==> primes[i] >= 0 by {
        forall i | 0 <= i < heads ensures primes[i] >= 0 {
          NthPrimeAtLeastTwo(base, i);
        }
      }
      NthPrimeAtLeastTwo(base, h);
      SegmentEnds(primes, h);
    }
  }

  lemma Divided(n: int, d: nat)
    requires d > 0 && n % d == 0
    ensures n == d * (n / d)
    ensures n > 0 ==> n / d > 0
  {
    MulMonotone(n / d, 0, d);
  }

  // The spans, the flat slices, the shards and the windows of a carve not refused.
  method Cut(c: Carve, ghost srcBase: int, ghost dstBase: int, ghost quantum: nat) returns (carve: Carve)
    requires Sized(c, srcBase, dstBase, quantum)
    requires c.srcParts > 0 && c.dstParts > 0 && c.srcPadded % c.srcParts == 0 && c.dstPadded % c.dstParts == 0
    requires c.srcPadded > 0 && c.dstPadded >= Sum(c.dstPrimes) > 0
    requires forall h :: 0 <= h < c.heads ==> c.srcOffsets[h] >= 0 && c.dstPrimes[h] >= 0
    ensures Faithful(carve) && carve == c.(layout := carve.layout, windows := carve.windows)
  {
    hide NthPrime, Sum, Padded, FirstPrimes;
    Divided(c.srcPadded, c.srcParts);
    Divided(c.dstPadded, c.dstParts);
    var spans := HeadSpanList(c.srcOffsets, c.dstPrimes, c.dstPadded);
    SpansInside(srcBase, c.heads, quantum, c.srcOffsets, c.srcPadded, spans, c.dstPrimes, c.dstPadded);
    SpansAreSameRows(c, srcBase, dstBase, quantum, spans);
    var flat := SplitSpans(spans, c.SrcRows(), c.srcPadded);
    var layout, windows, at := LayOut(flat, c.dstParts, c.SrcRows(), c.DstRows());
    assert at == c.dstPadded;
    carve := c.(layout := layout, windows := windows);
    CarveIsFaithful(carve, srcBase, dstBase, quantum, spans, flat);
  }

  // The derived rows of the source, and those of the target, divide into their shards.
  ghost predicate SourceDivides(srcBase: int, srcParts: nat, heads: nat, divisibleBy: nat) {
    srcParts > 0 && divisibleBy > 0 && Padded(FirstPrimes(srcBase, heads), divisibleBy) % srcParts == 0
  }

  ghost predicate TargetDivides(srcBase: int, srcParts: nat, heads: nat, divisibleBy: nat, parts: nat) {
    && srcParts > 0 && divisibleBy > 0 && parts > 0
    && Padded(FirstPrimes(BaseFor(srcBase, srcParts, parts), heads), divisibleBy) % parts == 0
  }

  // What each refusal says of the numbers asked for; no two can be said of the same ones.
  ghost predicate Because(why: Why, srcBase: int, srcParts: nat, heads: nat, divisibleBy: nat, parts: nat) {
    match why
    case ZeroDivision =>
      srcParts == 0 || divisibleBy == 0 || (parts == 0 && SourceDivides(srcBase, srcParts, heads, divisibleBy))
    case SourceShards => srcParts > 0 && divisibleBy > 0 && !SourceDivides(srcBase, srcParts, heads, divisibleBy)
    case TargetShards =>
      && SourceDivides(srcBase, srcParts, heads, divisibleBy)
      && parts > 0 && !TargetDivides(srcBase, srcParts, heads, divisibleBy, parts)
    case NoHeads =>
      && SourceDivides(srcBase, srcParts, heads, divisibleBy)
      && TargetDivides(srcBase, srcParts, heads, divisibleBy, parts) && heads == 0
    case Growth(h, wanted, available) =>
      && SourceDivides(srcBase, srcParts, heads, divisibleBy)
      && TargetDivides(srcBase, srcParts, heads, divisibleBy, parts) && h < heads
      && var src, dst := FirstPrimes(srcBase, heads), FirstPrimes(BaseFor(srcBase, srcParts, parts), heads);
      && available == src[h] < wanted == Wanted(dst, Padded(dst, divisibleBy), h)
      && forall k :: 0 <= k < h ==> Wanted(dst, Padded(dst, divisibleBy), k) <= src[k]
  }

  // Derive both geometries, refuse what cannot be cut, cut the rest.
  method Plan(srcBase: int, srcParts: nat, ngram: int, perNgram: int, divisibleBy: nat, parts: nat)
    returns (r: Outcome)
    ensures r.WholeTable? <==> parts == srcParts
    ensures r.Carved? <==> parts != srcParts && Carvable(srcBase, srcParts, Heads(ngram, perNgram), divisibleBy, parts)
    ensures r.Carved? ==>
              && Faithful(r.carve) && srcParts > 0
              && Sized(r.carve, srcBase, BaseFor(srcBase, srcParts, parts), divisibleBy)
              && r.carve.heads == Heads(ngram, perNgram) && r.carve.srcParts == srcParts && r.carve.dstParts == parts
    ensures r.Carved? ==>
              forall b :: IsTargetBase(b, srcBase, srcParts, parts) ==>
                            && r.carve.srcPrimes == FirstPrimes(srcBase, r.carve.heads)
                            && r.carve.dstPrimes == FirstPrimes(b, r.carve.heads)
    ensures r.Refused? ==> Because(r.why, srcBase, srcParts, Heads(ngram, perNgram), divisibleBy, parts)
    ensures r.Refused? && r.why.Growth? && parts < srcParts && srcBase >= 0 ==> r.why.head == Heads(ngram, perNgram) - 1
  {
    hide NthPrime, Sum, PrefixSums, Padded, RoundedUp, FirstPrimes, BaseFor, IsTargetBase;
    if parts == srcParts {
      return WholeTable;
    }
    var heads := Heads(ngram, perNgram);
    if srcParts == 0 || divisibleBy == 0 {
      return Refused(ZeroDivision);
    }
    var dstBase := BaseFor(srcBase, srcParts, parts);
    var srcPrimes, srcOffsets, srcPadded := NgramHashGeometry(srcBase, heads, divisibleBy);
    var dstPrimes, dstOffsets, dstPadded := NgramHashGeometry(dstBase, heads, divisibleBy);
    DerivedFacts(srcBase, heads, divisibleBy, srcPrimes, srcOffsets, srcPadded);
    DerivedFacts(dstBase, heads, divisibleBy, dstPrimes, dstOffsets, dstPadded);
    if srcPadded % srcParts != 0 {
      return Refused(SourceShards);
    }
    if parts == 0 {
      return Refused(ZeroDivision);
    }
    if dstPadded % parts != 0 {
      return Refused(TargetShards);
    }
    if heads == 0 {
      return Refused(NoHeads);
    }
    for h := 0 to heads
      invariant forall k :: 0 <= k < h ==> Wanted(dstPrimes, dstPadded, k) <= srcPrimes[k]
    {
      if Wanted(dstPrimes, dstPadded, h) > srcPrimes[h] {
        if parts < srcParts && srcBase >= 0 {
          FewerPartsShrink(srcBase, srcParts, parts, h);
        }
        return Refused(Growth(h, Wanted(dstPrimes, dstPadded, h), srcPrimes[h]));
      }
    }
    var carve := Cut(Carve(heads, srcParts, parts, srcPrimes, srcOffsets, srcPadded,
                           dstPrimes, dstOffsets, dstPadded, [], map[]), srcBase, dstBase, divisibleBy);
    TargetBaseIs(srcBase, srcParts, parts);
    r := Carved(carve);
  }
}

// The Engram tables: one hash table a module, each kept one re-cut by head out of
// its own source module's table.

module EngramCarve {
  import opened Wrappers
  import opened Sequences
  import opened Tensors
  import Download
  import opened Arithmetic
  import opened Primes
  import opened HashGeometry
  import opened PleCarve
  import opened PlePlan
  import opened CarvedPlane

  // ------------------------------------------------------------------------ plan

  datatype Tables = Tables(src: seq<Geometry>, dst: seq<Geometry>, kept: seq<nat>)
  datatype Outcome = NoTables | Unreproducible(m: nat) | PlannedTables(carve: Tables)

  // The modules whose layer survives, in module order.
  function Surviving(layerIds: seq<nat>, srcLayers: seq<nat>, n: nat): seq<nat>
    requires n <= |layerIds|
  {
    if n == 0 then []
    else Surviving(layerIds, srcLayers, n - 1) + if layerIds[n - 1] in srcLayers then [n - 1] else []
  }

  // `kept.sort(key=...)`, stable: by where the module's layer comes in the selection.
  function Insert(m: nat, ms: seq<nat>, layerIds: seq<nat>, srcLayers: seq<nat>): seq<nat>
    requires m < |layerIds| && forall k :: 0 <= k < |ms| ==> ms[k] < |layerIds|
  {
    if ms == [] then [m]
    else
      var last := ms[|ms| - 1];
      if IndexOf(srcLayers, layerIds[last]) <= IndexOf(srcLayers, layerIds[m]) then ms + [m]
      else Insert(m, ms[..|ms| - 1], layerIds, srcLayers) + [last]
  }

  // Module m comes before m': its layer is selected earlier, or it is the earlier module
  // of one layer.
  ghost predicate Before(layerIds: seq<nat>, srcLayers: seq<nat>, m: nat, m': nat)
    requires m < |layerIds| && m' < |layerIds|
  {
    var i, i' := IndexOf(srcLayers, layerIds[m]), IndexOf(srcLayers, layerIds[m']);
    i < i' || (i == i' && m < m')
  }

  ghost predicate Modules(ms: seq<nat>, n: nat) {
    forall k :: 0 <= k < |ms| ==> ms[k] < n
  }

  ghost predicate InOrder(ms: seq<nat>, layerIds: seq<nat>, srcLayers: seq<nat>)
    requires Modules(ms, |layerIds|)
  {
    forall i, j :: 0 <= i < j < |ms| ==> Before(layerIds, srcLayers, ms[i], ms[j])
  }

  ghost predicate Rising(ms: seq<nat>) {
    forall i, j :: 0 <= i < j < |ms| ==> ms[i] < ms[j]
  }

  lemma {:induction false} InsertSorts(m: nat, ms: seq<nat>, layerIds: seq<nat>, srcLayers: seq<nat>)
    requires m < |layerIds| && Modules(ms, m) && InOrder(ms, layerIds, srcLayers)
    ensures var r := Insert(m, ms, layerIds, srcLayers);
            multiset(r) == multiset(ms) + multiset{m} && Modules(r, |layerIds|) && InOrder(r, layerIds, srcLayers)
    ensures forall x :: x in Insert(m, ms, layerIds, srcLayers) ==> x == m || x in ms
  {
    if ms != [] {
      var n := |ms| - 1;
      assert ms == ms[..n] + [ms[n]];
      if IndexOf(srcLayers, layerIds[ms[n]]) > IndexOf(srcLayers, layerIds[m]) {
        InsertSorts(m, ms[..n], layerIds, srcLayers);
        var r := Insert(m, ms[..n], layerIds, srcLayers);
        forall i | 0 <= i < |r| ensures Before(layerIds, srcLayers, r[i], ms[n]) {
          assert r[i] in r;
        }
        AppendInOrder(r, ms[n], layerIds, srcLayers);
      } else {
        forall i | 0 <= i < |ms| ensures Before(layerIds, srcLayers, ms[i], m) {
          assert i < n ==> Before(layerIds, srcLayers, ms[i], ms[n]);
        }
        AppendInOrder(ms, m, layerIds, srcLayers);
      }
    }
  }

  lemma AppendInOrder(ms: seq<nat>, m: nat, layerIds: seq<nat>, srcLayers: seq<nat>)
    requires m < |layerIds| && Modules(ms, |layerIds|) && InOrder(ms, layerIds, srcLayers)
    requires forall i :: 0 <= i < |ms| ==> Before(layerIds, srcLayers, ms[i], m)
    ensures Modules(ms + [m], |layerIds|) && InOrder(ms + [m], layerIds, srcLayers)
  {
    hide Before;
  }

  lemma {:induction false} SurvivingBounds(layerIds: seq<nat>, srcLayers: seq<nat>, n: nat)
    requires n <= |layerIds|
    ensures forall k :: 0 <= k < |Surviving(layerIds, srcLayers, n)| ==> k <= Surviving(layerIds, srcLayers, n)[k] < n
    ensures |Surviving(layerIds, srcLayers, n)| <= n
  {
    if n > 0 {
      SurvivingBounds(layerIds, srcLayers, n - 1);
    }
  }

  // Exactly the modules of selected layers, each once.
  lemma {:induction false} SurvivingAre(layerIds: seq<nat>, srcLayers: seq<nat>, n: nat, m: nat)
    requires n <= |layerIds|
    ensures m in Surviving(layerIds, srcLayers, n) <==> m < n && layerIds[m] in srcLayers
    ensures Rising(Surviving(layerIds, srcLayers, n))
  {
    if n > 0 {
      SurvivingAre(layerIds, srcLayers, n - 1, m);
      SurvivingBounds(layerIds, srcLayers, n - 1);
    }
  }

  method SortKept(ms: seq<nat>, layerIds: seq<nat>, srcLayers: seq<nat>) returns (kept: seq<nat>)
    requires Modules(ms, |layerIds|) && Rising(ms)
    ensures multiset(kept) == multiset(ms)
    ensures Modules(kept, |layerIds|) && InOrder(kept, layerIds, srcLayers)
    ensures InOrder(ms, layerIds, srcLayers) ==> kept == ms
  {
    hide InOrder;
    kept := [];
    assert InOrder([], layerIds, srcLayers) by {
      NothingInOrder(layerIds, srcLayers);
    }
    for k := 0 to |ms|
      invariant multiset(kept) == multiset(ms[..k])
      invariant Modules(kept, |layerIds|) && InOrder(kept, layerIds, srcLayers)
      invariant InOrder(ms, layerIds, srcLayers) ==> kept == ms[..k]
    {
      assert ms[..k + 1] == ms[..k] + [ms[k]];
      forall i | 0 <= i < |kept| ensures kept[i] < ms[k] {
        assert kept[i] in multiset(ms[..k]);
      }
      InsertSorts(ms[k], kept, layerIds, srcLayers);
      if InOrder(ms, layerIds, srcLayers) && k > 0 {
        TwoInOrder(ms, layerIds, srcLayers, k - 1, k);
      }
      kept := Insert(ms[k], kept, layerIds, srcLayers);
    }
    assert ms[..|ms|] == ms;
  }

  lemma NothingInOrder(layerIds: seq<nat>, srcLayers: seq<nat>)
    ensures InOrder([], layerIds, srcLayers)
  {
  }

  lemma TwoInOrder(ms: seq<nat>, layerIds: seq<nat>, srcLayers: seq<nat>, i: nat, j: nat)
    requires Modules(ms, |layerIds|) && InOrder(ms, layerIds, srcLayers) && i < j < |ms|
    ensures Before(layerIds, srcLayers, ms[i], ms[j])
  {
  }

  // A module's geometry as both derivations answer it: head j of module m has the
  // (m * size + j)-th prime from the base.
  ghost predicate Derives(modules: seq<Geometry>, base: int, size: nat) {
    && SameSize(modules, size) && AllPrimes(modules) == FirstPrimes(base, |modules| * size)
    && forall m :: 0 <= m < |modules| ==> PrefixSums(modules[m].primes, modules[m].offsets)
  }

  // The rows the derivation gives module m's table.
  ghost function DerivedRows(base: int, size: nat, m: nat): int {
    Sum(seq<int>(size, j requires 0 <= j < size => NthPrime(base, m * size + j)))
  }

  lemma DerivedSum(modules: seq<Geometry>, base: int, size: nat, m: nat)
    requires Derives(modules, base, size) && m < |modules|
    ensures Sum(modules[m].primes) == DerivedRows(base, size, m)
  {
    var derived := seq<int>(size, j requires 0 <= j < size => NthPrime(base, m * size + j));
    forall j: nat | j < size ensures modules[m].primes[j] == derived[j] {
      ModulePrimeIsNth(base, modules, size, m, j);
    }
    assert modules[m].primes == derived;
  }

  // The config states what the derivation gives, for the first n modules it states.
  ghost predicate Agrees(stated: seq<int>, base: int, size: nat, n: nat) {
    forall m :: 0 <= m < n && m < |stated| ==> stated[m] == DerivedRows(base, size, m)
  }

  // The modules of the selected layers, in selection order, each cut to its own geometry.
  ghost predicate PlannedFor(c: Tables, srcBase: int, vocab: int, size: nat, layerIds: seq<nat>, srcLayers: seq<nat>) {
    && Derives(c.src, srcBase, size) && |c.src| == |layerIds|
    && Derives(c.dst, vocab, size) && |c.dst| == |c.kept|
    && Modules(c.kept, |layerIds|) && InOrder(c.kept, layerIds, srcLayers)
    && multiset(c.kept) == multiset(Surviving(layerIds, srcLayers, |layerIds|))
  }

  // `plan_engram_carve`
  method Plan(srcBase: int, vocab: int, orders: nat, heads: nat, layerIds: seq<nat>, stated: seq<int>, srcLayers: seq<nat>)
    returns (r: Outcome)
    ensures r.NoTables? <==> layerIds == []
    ensures r.PlannedTables? <==> layerIds != [] && Agrees(stated, srcBase, orders * heads, |layerIds|)
    ensures r.PlannedTables? ==> PlannedFor(r.carve, srcBase, vocab, orders * heads, layerIds, srcLayers)
    ensures r.Unreproducible? ==>
              && r.m < |layerIds| && r.m < |stated| && stated[r.m] != DerivedRows(srcBase, orders * heads, r.m)
              && Agrees(stated, srcBase, orders * heads, r.m)
    ensures r.PlannedTables? && Modules(Surviving(layerIds, srcLayers, |layerIds|), |layerIds|)
            && InOrder(Surviving(layerIds, srcLayers, |layerIds|), layerIds, srcLayers) ==>
              r.carve.kept == Surviving(layerIds, srcLayers, |layerIds|)
  {
    if layerIds == [] {
      return NoTables;
    }
    hide *;
    var src := EngramGeometry(srcBase, orders, heads, |layerIds|);
    DerivesMeans(src, srcBase, orders, heads);
    NothingStated(stated, srcBase, orders * heads);
    for m := 0 to |layerIds|
      invariant Agrees(stated, srcBase, orders * heads, m)
    {
      DerivedSum(src, srcBase, orders * heads, m);
      OneMoreStated(stated, srcBase, orders * heads, m, |layerIds|);
      if m < |stated| && Sum(src[m].primes) != stated[m] {
        return Unreproducible(m);
      }
    }
    SurvivingKept(layerIds, srcLayers);
    var kept := SortKept(Surviving(layerIds, srcLayers, |layerIds|), layerIds, srcLayers);
    var dst := EngramGeometry(vocab, orders, heads, |kept|);
    DerivesMeans(dst, vocab, orders, heads);
    PlanMade(Tables(src, dst, kept), srcBase, vocab, orders * heads, layerIds, srcLayers);
    r := PlannedTables(Tables(src, dst, kept));
  }

  lemma DerivesMeans(modules: seq<Geometry>, base: int, orders: nat, heads: nat)
    requires SameSize(modules, orders * heads)
    requires AllPrimes(modules) == FirstPrimes(base, |modules| * (orders * heads))
    requires forall m :: 0 <= m < |modules| ==> PrefixSums(modules[m].primes, modules[m].offsets)
    ensures Derives(modules, base, orders * heads)
  {
  }

  lemma NothingStated(stated: seq<int>, base: int, size: nat)
    ensures Agrees(stated, base, size, 0)
  {
  }

  lemma OneMoreStated(stated: seq<int>, base: int, size: nat, m: nat, n: nat)
    requires Agrees(stated, base, size, m) && m < n
    ensures m < |stated| && stated[m] != DerivedRows(base, size, m) ==> !Agrees(stated, base, size, n)
    ensures m >= |stated| || stated[m] == DerivedRows(base, size, m) ==> Agrees(stated, base, size, m + 1)
  {
    hide DerivedRows;
  }

  lemma SurvivingKept(layerIds: seq<nat>, srcLayers: seq<nat>)
    ensures var ms := Surviving(layerIds, srcLayers, |layerIds|); Modules(ms, |layerIds|) && Rising(ms)
  {
    SurvivingBounds(layerIds, srcLayers, |layerIds|);
    SurvivingAre(layerIds, srcLayers, |layerIds|, 0);
  }

  lemma PlanMade(c: Tables, srcBase: int, vocab: int, size: nat, layerIds: seq<nat>, srcLayers: seq<nat>)
    requires Derives(c.src, srcBase, size) && |c.src| == |layerIds|
    requires Derives(c.dst, vocab, size) && |c.dst| == |c.kept|
    requires Modules(c.kept, |layerIds|) && InOrder(c.kept, layerIds, srcLayers)
    requires multiset(c.kept) == multiset(Surviving(layerIds, srcLayers, |layerIds|))
    ensures PlannedFor(c, srcBase, vocab, size, layerIds, srcLayers)
  {
  }

  // Cut to a base no larger, with the modules kept in order, no head is refused.
  lemma NeverGrows(c: Tables, srcBase: int, vocab: int, size: nat, k: nat, j: nat)
    requires Derives(c.src, srcBase, size) && Derives(c.dst, vocab, size) && vocab <= srcBase
    requires k < |c.dst| == |c.kept| && k <= c.kept[k] < |c.src| && j < size
    ensures c.dst[k].primes[j] <= c.src[c.kept[k]].primes[j]
  {
    hide NthPrime;
    var m := c.kept[k];
    ModulePrimeIsNth(vocab, c.dst, size, k, j);
    ModulePrimeIsNth(srcBase, c.src, size, m, j);
    MulMonotone(k, m, size);
    NthPrimeMonotone(vocab, srcBase, k * size + j);
    if k * size + j < m * size + j {
      NthPrimeIncreases(srcBase, k * size + j, m * size + j);
    }
  }

  // ----------------------------------------------------------------------- apply

  // Head j's piece: a clone of the table, windowed to the first rows of segment j.
  ghost predicate HeadPiece(piece: Piece, src: SrcTensor, row0: int, rows: int)
    reads piece.src
  {
    && piece.row0 == row0 && piece.rows == rows
    && piece.src.name == src.name && piece.src.shard == src.shard && piece.src.shape == src.shape
    && piece.src.start == src.start && piece.src.end == src.end
    && piece.src.keepFrom == row0 && piece.src.keepRows == Some(rows)
  }

  // `apply_engram_carve` over one table. None is a table that is not as tall as
  // derived, or a head that would have to grow.
  method Apply(src: SrcTensor, from: Geometry, to: Geometry) returns (r: Option<seq<Piece>>)
    requires |from.primes| == |from.offsets| == |to.primes| && src.start <= src.end
    requires forall j :: 0 <= j < |from.offsets| ==> from.offsets[j] >= 0 && to.primes[j] >= 0
    ensures r.Some? <==> |src.shape| > 0 && src.shape[0] == Sum(from.primes)
                         && forall j :: 0 <= j < |to.primes| ==> to.primes[j] <= from.primes[j]
    ensures r.Some? ==>
              && |r.value| == |to.primes|
              && (forall j :: 0 <= j < |r.value| ==> fresh(r.value[j].src))
              && (forall j :: 0 <= j < |r.value| ==> HeadPiece(r.value[j], src, from.offsets[j], to.primes[j]))
  {
    if |src.shape| == 0 || src.shape[0] != Sum(from.primes) {
      return None;
    }
    var pieces: seq<Piece> := [];
    for j := 0 to |to.primes|
      invariant |pieces| == j
      invariant forall i :: 0 <= i < j ==> to.primes[i] <= from.primes[i]
      invariant forall i :: 0 <= i < j ==> fresh(pieces[i].src)
      invariant forall i :: 0 <= i < j ==> HeadPiece(pieces[i], src, from.offsets[i], to.primes[i])
    {
      if to.primes[j] > from.primes[j] {
        return None;
      }
      var clone := new SrcTensor(src.name, src.shard, src.shape, src.start, src.end, from.offsets[j], Some(to.primes[j]));
      pieces := pieces + [Piece(clone, from.offsets[j], to.primes[j])];
    }
    r := Some(pieces);
  }

  // -------------------------------------------------------------- what is written

  // The spans of one kept table: its heads' segments of the source, no padding.
  ghost predicate TableSpans(spans: seq<Span>, from: Geometry, to: Geometry) {
    HeadSpans(spans, from.offsets, to.primes, Sum(to.primes))
  }

  // The pieces are the spans, each cached window holding its own rows.
  ghost predicate PiecesReady(cache: Cache, pieces: seq<Piece>, src: SrcTensor, remote: map<string, Bytes>, spans: seq<Span>)
    requires src.shard in remote
    reads set k | 0 <= k < |pieces| :: pieces[k].src
  {
    && |pieces| == |spans|
    && forall j :: 0 <= j < |pieces| ==> PieceReady(cache, pieces[j], src, remote, spans[j])
  }

  ghost predicate PieceReady(cache: Cache, piece: Piece, src: SrcTensor, remote: map<string, Bytes>, span: Span)
    requires src.shard in remote
    reads piece.src
  {
    HeadPiece(piece, src, span.row0, span.rows) && Download.WindowCached(cache, piece.src, remote)
  }

  lemma PieceIsSpan(cache: Cache, piece: Piece, src: SrcTensor, remote: map<string, Bytes>, rows: nat, rowBytes: nat, span: Span)
    requires rows == src.Height() > 0 && StoredShard(src, remote, rowBytes) && StoredPlane([src], remote, rowBytes) && src.shard in remote
    requires PieceReady(cache, piece, src, remote, span) && span.row0 + span.rows <= rows
    ensures piece.src.start <= piece.src.end && InTable([src], rows, Range(span.row0, span.rows))
    ensures PieceRows(cache, piece) == Some(TableRows([src], remote, rows, rowBytes, Range(span.row0, span.rows)))
  {
    hide PieceRows, TableRows;
    assert piece == Piece(piece.src, span.row0, span.rows);
    PieceIsSlice(cache, piece.src, remote, rowBytes, span.row0, span.row0 + span.rows, span.row0, span.rows);
    SliceIsRows([src], remote, rows, rowBytes, 0, span.row0, span.rows);
    assert 0 * rows + span.row0 == span.row0;
  }

  // The pieces, joined, are the spans' rows of the source table.
  lemma {:induction false} PiecesAreSpans(cache: Cache, pieces: seq<Piece>, src: SrcTensor, remote: map<string, Bytes>,
                                          rows: nat, rowBytes: nat, spans: seq<Span>, n: nat)
    requires rows == src.Height() > 0 && StoredShard(src, remote, rowBytes) && StoredPlane([src], remote, rowBytes) && src.shard in remote
    requires PiecesReady(cache, pieces, src, remote, spans) && n <= |spans|
    requires forall j :: 0 <= j < |spans| ==> spans[j].row0 + spans[j].rows <= rows
    ensures Sound(pieces) && InTable([src], rows, SpanRows(spans[..n]))
    ensures PiecesRows(cache, pieces[..n]) == Some(TableRows([src], remote, rows, rowBytes, SpanRows(spans[..n])))
  {
    hide PieceRows, TableRow, StoredPlane, StoredShard, Download.WindowCached;
    assert Sound(pieces) by {
      forall k | 0 <= k < |pieces| ensures pieces[k].src.start <= pieces[k].src.end {
        assert PieceReady(cache, pieces[k], src, remote, spans[k]);
        PieceIsSpan(cache, pieces[k], src, remote, rows, rowBytes, spans[k]);
      }
    }
    if n > 0 {
      PiecesAreSpans(cache, pieces, src, remote, rows, rowBytes, spans, n - 1);
      assert PieceReady(cache, pieces[n - 1], src, remote, spans[n - 1]);
      PieceIsSpan(cache, pieces[n - 1], src, remote, rows, rowBytes, spans[n - 1]);
      PiecesStep(cache, pieces, n - 1);
      assert spans[..n][..n - 1] == spans[..n - 1];
      TableRowsAppend([src], remote, rows, rowBytes, SpanRows(spans[..n - 1]), Range(spans[n - 1].row0, spans[n - 1].rows));
    }
  }

  // Two geometries of the same heads, no head growing.
  ghost predicate Shrinks(from: Geometry, to: Geometry) {
    && PrefixSums(from.primes, from.offsets) && PrefixSums(to.primes, to.offsets)
    && |to.primes| == |to.offsets| == |from.primes| == |from.offsets|
    && forall k :: 0 <= k < |to.primes| ==> 0 <= to.primes[k] <= from.primes[k]
  }

  // Head j's row i, among the rows of the spans.
  lemma HeadRowOfSpans(from: Geometry, to: Geometry, spans: seq<Span>, j: nat, i: nat)
    requires TableSpans(spans, from, to) && Shrinks(from, to) && j < |to.primes| && i < to.primes[j]
    ensures j < |to.offsets| == |from.offsets|
    ensures 0 <= to.offsets[j] + i < |SpanRows(spans)| && 0 <= from.offsets[j] + i < Sum(from.primes)
    ensures SpanRows(spans)[to.offsets[j] + i] == from.offsets[j] + i
  {
    hide SpanRows, Sum;
    SpanSizesAre(spans, from.offsets, to.primes, Sum(to.primes));
    SpanRowAt(spans, j, i);
    SegmentEnds(from.primes, j);
  }

  lemma SpansWithin(from: Geometry, to: Geometry, spans: seq<Span>)
    requires TableSpans(spans, from, to) && Shrinks(from, to)
    ensures forall j :: 0 <= j < |spans| ==> spans[j].row0 + spans[j].rows <= Sum(from.primes)
  {
    forall j | 0 <= j < |spans| ensures spans[j].row0 + spans[j].rows <= Sum(from.primes) {
      SegmentEnds(from.primes, j);
    }
  }

  lemma WholeTable(cache: Cache, pieces: seq<Piece>, src: SrcTensor, remote: map<string, Bytes>, rows: nat, rowBytes: nat,
                   from: Geometry, to: Geometry, spans: seq<Span>)
    requires rows == src.Height() > 0 && StoredShard(src, remote, rowBytes) && StoredPlane([src], remote, rowBytes) && src.shard in remote
    requires rows == Sum(from.primes) && TableSpans(spans, from, to) && Shrinks(from, to)
    requires PiecesReady(cache, pieces, src, remote, spans)
    ensures Sound(pieces) && InTable([src], rows, SpanRows(spans))
    ensures PiecesRows(cache, pieces) == Some(TableRows([src], remote, rows, rowBytes, SpanRows(spans)))
  {
    SpansWithin(from, to, spans);
    PiecesAreSpans(cache, pieces, src, remote, rows, rowBytes, spans, |spans|);
    assert pieces[..|spans|] == pieces && spans[..|spans|] == spans;
  }

  // The spans a cut reads: head j's first rows.
  function SpansOf(from: Geometry, to: Geometry): seq<Span>
    requires Shrinks(from, to)
  {
    seq(|to.primes|, j requires 0 <= j < |to.primes| => Span(OffsetOf(from, j), to.primes[j]))
  }

  function OffsetOf(g: Geometry, j: nat): nat
    requires PrefixSums(g.primes, g.offsets) && j < |g.primes| && forall k :: 0 <= k < |g.primes| ==> g.primes[k] >= 0
  {
    SegmentEnds(g.primes, j);
    g.offsets[j]
  }

  lemma SpansAreTable(from: Geometry, to: Geometry)
    requires Shrinks(from, to)
    ensures TableSpans(SpansOf(from, to), from, to)
  {
  }

  // A kept table, row for row: row to.offsets[j] + i of what is written, head j's
  // row i, is the source table's row from.offsets[j] + i.
  ghost predicate TableKept(src: SrcTensor, remote: map<string, Bytes>, rowBytes: nat, from: Geometry, to: Geometry, written: Bytes)
    requires Shrinks(from, to) && StoredShard(src, remote, rowBytes)
  {
    && |written| == Sum(to.primes) * rowBytes
    && forall j: nat, i: nat :: j < |to.primes| && i < to.primes[j] ==> RowKept(src, remote, rowBytes, from, to, written, j, i)
  }

  // As long as its heads' rows.
  lemma TableLength(cache: Cache, pieces: seq<Piece>, src: SrcTensor, remote: map<string, Bytes>, rowBytes: nat,
                    from: Geometry, to: Geometry)
    requires StoredShard(src, remote, rowBytes) && src.shard in remote
    requires src.Height() == Sum(from.primes) && Shrinks(from, to) && to.primes != [] && src.Height() > 0
    requires PiecesReady(cache, pieces, src, remote, SpansOf(from, to))
    ensures Sound(pieces) && PiecesRows(cache, pieces).Some?
    ensures |PiecesRows(cache, pieces).value| == Sum(to.primes) * rowBytes
  {
    hide PiecesRows, TableRows, PiecesReady, SpanRows, Sum, PrefixSums, StoredShard, StoredPlane, InTable;
    var spans := SpansOf(from, to);
    SpansAreTable(from, to);
    OneShard(src, remote, rowBytes);
    WholeTable(cache, pieces, src, remote, src.Height(), rowBytes, from, to, spans);
    TableRowsLength([src], remote, src.Height(), rowBytes, SpanRows(spans));
    SpanSizesAre(spans, from.offsets, to.primes, Sum(to.primes));
    SpanRowsLength(spans);
    AtMeans(|SpanRows(spans)|, rowBytes);
  }

  ghost predicate RowKept(src: SrcTensor, remote: map<string, Bytes>, rowBytes: nat, from: Geometry, to: Geometry, written: Bytes,
                          j: nat, i: nat)
    requires Shrinks(from, to) && StoredShard(src, remote, rowBytes) && j < |to.primes|
  {
    var at, row := At(OffsetOf(to, j) + i, rowBytes), OffsetOf(from, j) + i;
    && at + rowBytes <= |written| && row < src.Height()
    && written[at..at + rowBytes] == ShardRows(src, remote, rowBytes, row, 1)
  }

  // What the pieces of a table join to.
  lemma TableRowKept(cache: Cache, pieces: seq<Piece>, src: SrcTensor, remote: map<string, Bytes>, rowBytes: nat,
                     from: Geometry, to: Geometry, j: nat, i: nat)
    requires StoredShard(src, remote, rowBytes) && src.shard in remote
    requires src.Height() == Sum(from.primes) && Shrinks(from, to)
    requires PiecesReady(cache, pieces, src, remote, SpansOf(from, to))
    requires j < |to.primes| && i < to.primes[j]
    ensures Sound(pieces) && PiecesRows(cache, pieces).Some?
    ensures RowKept(src, remote, rowBytes, from, to, PiecesRows(cache, pieces).value, j, i)
  {
    hide *;
    var rows, spans := src.Height(), SpansOf(from, to);
    SpansAreTable(from, to);
    HeadRowOfSpans(from, to, spans, j, i);
    OneShard(src, remote, rowBytes);
    WholeTable(cache, pieces, src, remote, rows, rowBytes, from, to, spans);
    OffsetIs(from, to, j);
    var at: nat, row: nat := to.offsets[j] + i, from.offsets[j] + i;
    TableRowsAt([src], remote, rows, rowBytes, SpanRows(spans), at);
    RowOfOneShard(src, remote, rowBytes, row);
    RowKeptMeans(src, remote, rowBytes, from, to, PiecesRows(cache, pieces).value, j, i);
  }

  lemma OneShard(src: SrcTensor, remote: map<string, Bytes>, rowBytes: nat)
    requires StoredShard(src, remote, rowBytes)
    ensures StoredPlane([src], remote, rowBytes)
  {
  }

  lemma OffsetIs(from: Geometry, to: Geometry, j: nat)
    requires Shrinks(from, to) && j < |to.primes|
    ensures j < |from.offsets| == |to.offsets| && OffsetOf(to, j) == to.offsets[j] && OffsetOf(from, j) == from.offsets[j]
  {
  }

  lemma RowOfOneShard(src: SrcTensor, remote: map<string, Bytes>, rowBytes: nat, row: nat)
    requires StoredShard(src, remote, rowBytes) && StoredPlane([src], remote, rowBytes) && row < src.Height()
    ensures RowStored([src], src.Height(), row)
    ensures TableRow([src], remote, src.Height(), rowBytes, row) == ShardRows(src, remote, rowBytes, row, 1)
  {
    hide ShardRows;
    DivModUnique(src.Height(), 0, row);
  }

  lemma RowKeptMeans(src: SrcTensor, remote: map<string, Bytes>, rowBytes: nat, from: Geometry, to: Geometry, written: Bytes,
                     j: nat, i: nat)
    requires Shrinks(from, to) && StoredShard(src, remote, rowBytes) && j < |to.primes|
    requires OffsetOf(from, j) + i < src.Height() && At(OffsetOf(to, j) + i, rowBytes) + rowBytes <= |written|
    requires written[At(OffsetOf(to, j) + i, rowBytes)..At(OffsetOf(to, j) + i, rowBytes) + rowBytes]
             == ShardRows(src, remote, rowBytes, OffsetOf(from, j) + i, 1)
    ensures RowKept(src, remote, rowBytes, from, to, written, j, i)
  {
  }
}

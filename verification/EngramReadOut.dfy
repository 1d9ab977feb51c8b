// A kept Engram table stored as fp8 codes beside their exponents, read out to bf16: each
// row written is the source row's read-out.

module EngramReadOut {
  import opened Wrappers
  import opened Sequences
  import opened Tensors
  import opened Arithmetic
  import opened HashGeometry
  import opened CarvedPlane
  import opened EngramCarve
  import opened EngramTables
  import opened Dequant
  import Safetensors
  import EndToEnd
  import PlePlan

  // ------------------------------------------------------------- rows of a read-out

  // Row g of a plane of rows this wide.
  function RowOf<T>(plane: seq<T>, g: nat, width: nat): seq<T>
    requires At(g, width) + width <= |plane|
  {
    plane[At(g, width)..At(g, width) + width]
  }

  // Where each row has its own exponents, rows are read out one by one.
  lemma RowReadsOut(w: seq<Code>, s: seq<Code>, b: Blocking, n: nat, g: nat)
    requires Blocked(w, s, b, n) && b.blockRows == 1 && g < n
    ensures At(g, b.Cols()) + b.Cols() <= |w| && At(g, b.across) + b.across <= |s|
    ensures Blocked(RowOf(w, g, b.Cols()), RowOf(s, g, b.across), b, 1)
    ensures RowOf(Plane(w, s, b, n), g, b.Cols()) == Plane(RowOf(w, g, b.Cols()), RowOf(s, g, b.across), b, 1)
  {
    hide Plane, At, Blocking.Cols;
    OneRowBands(b);
    var cols := b.Cols();
    RowBounds(g, n, cols);
    RowBounds(g, n, b.across);
    var x, y, u, v := At(g, cols), At(g, cols) + cols, At(g, b.across), At(g, b.across) + b.across;
    PlanesStack(w[..x], s[..u], g, w[x..y], s[u..v], 1, b);
    PlanesStack(w[..y], s[..v], g + 1, w[y..], s[v..], n - g - 1, b);
    assert w[..x] + w[x..y] == w[..y] && s[..u] + s[u..v] == s[..v];
    assert w[..y] + w[y..] == w && s[..v] + s[v..] == s;
    Middle(Plane(w[..x], s[..u], b, g), Plane(w[x..y], s[u..v], b, 1), Plane(w[y..], s[v..], b, n - g - 1));
  }

  lemma OneRowBands(b: Blocking)
    requires b.blockRows == 1
    ensures b.BandSize() == b.Cols()
  {
  }

  lemma RowBounds(g: nat, n: nat, width: nat)
    requires g < n
    ensures At(1, width) == width && At(g + 1, width) == At(g, width) + width
    ensures At(n, width) == At(g + 1, width) + At(n - g - 1, width)
  {
    AtAdds(g, 1, width);
    AtAdds(g + 1, n - g - 1, width);
  }

  lemma Middle<T>(a: seq<T>, b: seq<T>, c: seq<T>)
    ensures (a + b + c)[|a|..|a| + |b|] == b
  {
  }

  // ------------------------------------------------------------------ a kept table

  // The table and its exponents as they are stored.
  ghost predicate StoredPair(weight: SrcTensor, scale: SrcTensor, remote: map<string, Bytes>, b: Blocking) {
    && b.blockRows == 1 && StoredShard(weight, remote, b.Cols()) && StoredShard(scale, remote, b.across)
    && weight.Height() == scale.Height()
  }

  // All of the source, read out.
  ghost function SourceReadOut(weight: SrcTensor, scale: SrcTensor, remote: map<string, Bytes>, b: Blocking): (out: seq<nat>)
    requires StoredPair(weight, scale, remote, b)
    ensures |out| == At(weight.Height(), b.Cols())
  {
    OneRowBands(b);
    Plane(ShardRows(weight, remote, b.Cols(), 0, weight.Height()), ShardRows(scale, remote, b.across, 0, scale.Height()), b,
          weight.Height())
  }

  lemma SourceRowReadsOut(weight: SrcTensor, scale: SrcTensor, remote: map<string, Bytes>, b: Blocking, row: nat)
    requires StoredPair(weight, scale, remote, b) && row < weight.Height()
    ensures At(row, b.Cols()) + b.Cols() <= |SourceReadOut(weight, scale, remote, b)|
    ensures Blocked(ShardRows(weight, remote, b.Cols(), row, 1), ShardRows(scale, remote, b.across, row, 1), b, 1)
    ensures RowOf(SourceReadOut(weight, scale, remote, b), row, b.Cols())
            == Plane(ShardRows(weight, remote, b.Cols(), row, 1), ShardRows(scale, remote, b.across, row, 1), b, 1)
  {
    hide Plane, At, ShardRows, StoredShard, Blocking.Cols;
    OneRowBands(b);
    LocalRow(weight, remote, b.Cols(), row);
    LocalRow(scale, remote, b.across, row);
    RowReadsOut(ShardRows(weight, remote, b.Cols(), 0, weight.Height()),
                ShardRows(scale, remote, b.across, 0, scale.Height()), b, weight.Height(), row);
  }

  // Row offset[j] + i of the bf16 plane is the read-out of source row offset[j] + i.
  ghost predicate RowReadOut(weight: SrcTensor, scale: SrcTensor, remote: map<string, Bytes>, b: Blocking, from: Geometry, to: Geometry,
                             out: seq<nat>, j: nat, i: nat)
    requires StoredPair(weight, scale, remote, b) && Shrinks(from, to) && j < |to.primes|
  {
    var at, row := OffsetOf(to, j) + i, OffsetOf(from, j) + i;
    && row < weight.Height() && At(at, b.Cols()) + b.Cols() <= |out|
    && At(row, b.Cols()) + b.Cols() <= |SourceReadOut(weight, scale, remote, b)|
    && RowOf(out, at, b.Cols()) == RowOf(SourceReadOut(weight, scale, remote, b), row, b.Cols())
  }

  lemma KeptReadsOut(weight: SrcTensor, scale: SrcTensor, remote: map<string, Bytes>, b: Blocking, from: Geometry, to: Geometry,
                     codes: Bytes, exponents: Bytes, rows: nat, j: nat, i: nat)
    requires StoredPair(weight, scale, remote, b) && Shrinks(from, to)
    requires TableKept(weight, remote, b.Cols(), from, to, codes) && TableKept(scale, remote, b.across, from, to, exponents)
    requires rows == Sum(to.primes) && Blocked(codes, exponents, b, rows)
    requires j < |to.primes| && i < to.primes[j]
    ensures RowReadOut(weight, scale, remote, b, from, to, Plane(codes, exponents, b, rows), j, i)
  {
    hide Plane, At, ShardRows, StoredShard, Blocking.Cols, TableKept, Sum, SourceReadOut, OffsetOf, Shrinks, Blocked;
    KeptRow(weight, remote, b.Cols(), from, to, codes, j, i);
    KeptRow(scale, remote, b.across, from, to, exponents, j, i);
    OffsetsKnown(from, to, j);
    var at, row := OffsetOf(to, j) + i, OffsetOf(from, j) + i;
    RowReadsOut(codes, exponents, b, rows, at);
    SourceRowReadsOut(weight, scale, remote, b, row);
  }

  lemma OffsetsKnown(from: Geometry, to: Geometry, j: nat)
    requires Shrinks(from, to) && j < |to.primes|
    ensures PrefixSums(from.primes, from.offsets) && j < |from.primes| && forall k :: 0 <= k < |from.primes| ==> from.primes[k] >= 0
    ensures PrefixSums(to.primes, to.offsets) && forall k :: 0 <= k < |to.primes| ==> to.primes[k] >= 0
  {
  }

  lemma KeptRow(src: SrcTensor, remote: map<string, Bytes>, width: nat, from: Geometry, to: Geometry, written: Bytes, j: nat, i: nat)
    requires Shrinks(from, to) && StoredShard(src, remote, width) && TableKept(src, remote, width, from, to, written)
    requires j < |to.primes| && i < to.primes[j]
    ensures var at, row := OffsetOf(to, j) + i, OffsetOf(from, j) + i;
            && at < Sum(to.primes) && row < src.Height() && At(at, width) + width <= |written|
            && RowOf(written, at, width) == ShardRows(src, remote, width, row, 1)
  {
    hide At, ShardRows, Sum;
    HeadRowBelow(to, j, i);
    assert RowKept(src, remote, width, from, to, written, j, i);
  }

  lemma HeadRowBelow(to: Geometry, j: nat, i: nat)
    requires PrefixSums(to.primes, to.offsets) && (forall k :: 0 <= k < |to.primes| ==> to.primes[k] >= 0)
    requires j < |to.primes| && i < to.primes[j]
    ensures OffsetOf(to, j) + i < Sum(to.primes)
  {
    PlePlan.SegmentEnds(to.primes, j);
  }

  // ------------------------------------------------------------- from the config on

  // The blocks a row of this many codes has under so many exponents.
  function RowBlocking(cols: nat, scols: nat): (b: Blocking)
    requires scols > 0 && cols % scols == 0
    ensures b.blockRows == 1 && b.across == scols && b.Cols() == cols
  {
    var split := DivMod(cols, scols);
    AtMeans(scols, split.0);
    Blocking(1, split.0, scols)
  }

  // The plane written for a table is its module's kept rows, each the source row's
  // read-out.
  ghost predicate PlaneReadOut(c: Tables, q: Request, weight: TablePlane, scale: TablePlane, remote: map<string, Bytes>,
                               cols: nat, scols: nat, out: seq<nat>)
    requires q.Plans(c) && weight.outLayer < |q.srcLayers| && scols > 0 && cols % scols == 0
  {
    var k, b := ModuleFor(c, q, weight), RowBlocking(cols, scols);
    && k < |c.kept| && Shrinks(From(c, k), c.dst[k]) && StoredPair(weight.src, scale.src, remote, b)
    && |out| == Sum(c.dst[k].primes) * cols
    && forall j: nat, i: nat :: j < |c.dst[k].primes| && i < c.dst[k].primes[j] ==>
                                  RowReadOut(weight.src, scale.src, remote, b, From(c, k), c.dst[k], out, j, i)
  }

  // Both planes of one module, kept alike.
  ghost predicate PairKept(c: Tables, q: Request, weight: TablePlane, scale: TablePlane, remote: map<string, Bytes>,
                           cols: nat, scols: nat, codes: Bytes, exponents: Bytes)
    requires q.Plans(c) && weight.outLayer < |q.srcLayers| && scale.outLayer == weight.outLayer
  {
    && PlaneFits(c, q, weight) && PlaneFits(c, q, scale)
    && PlaneKept(c, q, weight, remote, cols, codes) && PlaneKept(c, q, scale, remote, scols, exponents)
  }

  lemma PairReadsOut(c: Tables, q: Request, weight: TablePlane, scale: TablePlane, remote: map<string, Bytes>,
                     cols: nat, scols: nat, codes: Bytes, exponents: Bytes, rows: nat)
    requires q.Plans(c) && weight.outLayer < |q.srcLayers| && scale.outLayer == weight.outLayer
    requires PairKept(c, q, weight, scale, remote, cols, scols, codes, exponents) && scols > 0 && cols % scols == 0
    requires ModuleFor(c, q, weight) < |c.kept| && rows == Sum(c.dst[ModuleFor(c, q, weight)].primes)
    ensures Blocked(codes, exponents, RowBlocking(cols, scols), rows)
    ensures PlaneReadOut(c, q, weight, scale, remote, cols, scols, Plane(codes, exponents, RowBlocking(cols, scols), rows))
  {
    PlansModules(c, q);
    hide Request.Plans, RowReadOut, TableFits, RowKept, Sum, Plane, ModuleFor, From;
    var k, b := ModuleFor(c, q, weight), RowBlocking(cols, scols);
    assert ModuleFor(c, q, scale) == k by {
      SameModule(c, q, weight, scale);
    }
    PlannedModule(c, q, k);
    var from, to := From(c, k), c.dst[k];
    OneRowBands(b);
    AtMeans(rows, cols);
    AtMeans(rows, scols);
    assert StoredPair(weight.src, scale.src, remote, b) by {
      SameHeight(c, q, weight, scale);
    }
    hide TableKept, Shrinks, StoredPair;
    forall j: nat, i: nat | j < |to.primes| && i < to.primes[j]
      ensures RowReadOut(weight.src, scale.src, remote, b, from, to, Plane(codes, exponents, b, rows), j, i)
    {
      KeptReadsOut(weight.src, scale.src, remote, b, from, to, codes, exponents, rows, j, i);
    }
  }

  lemma PlansModules(c: Tables, q: Request)
    requires q.Plans(c)
    ensures Modules(c.kept, |q.layerIds|)
  {
  }

  lemma SameModule(c: Tables, q: Request, weight: TablePlane, scale: TablePlane)
    requires q.Plans(c) && weight.outLayer < |q.srcLayers| && scale.outLayer == weight.outLayer
    ensures ModuleFor(c, q, scale) == ModuleFor(c, q, weight)
  {
  }

  lemma SameHeight(c: Tables, q: Request, weight: TablePlane, scale: TablePlane)
    requires q.Plans(c) && weight.outLayer < |q.srcLayers| && scale.outLayer == weight.outLayer
    requires PlaneFits(c, q, weight) && PlaneFits(c, q, scale)
    ensures weight.src.Height() == scale.src.Height()
  {
  }

  // When there is something to read out: a plan whose module both planes fit, and blocks
  // that divide the rows.
  ghost predicate Readable(q: Request, weight: TablePlane, scale: TablePlane, cols: nat, scols: nat)
    requires weight.outLayer < |q.srcLayers| && scale.outLayer < |q.srcLayers|
  {
    && q.layerIds != [] && Agrees(q.stated, q.srcBase, q.orders * q.heads, |q.layerIds|)
    && (forall c :: q.Plans(c) ==> PlaneFits(c, q, weight) && PlaneFits(c, q, scale))
    && scols > 0 && cols % scols == 0 && q.orders * q.heads > 0
  }

  // Why there are tables, and what sizes they have.
  lemma ReadableIsBuilt(built: Built, q: Request, weight: TablePlane, scale: TablePlane, cols: nat, scols: nat)
    requires weight.outLayer < |q.srcLayers| && scale.outLayer < |q.srcLayers| && Readable(q, weight, scale, cols, scols)
    requires built.NotCarved? <==> q.layerIds == []
    requires built.Refused? <==> q.layerIds != [] && !Agrees(q.stated, q.srcBase, q.orders * q.heads, |q.layerIds|)
    requires built.Unfit? ==> q.Plans(built.carve) && !AllFit(built.carve, q, [weight, scale])
    ensures built.Written? && scols > 0 && cols % scols == 0 && q.orders * q.heads > 0
  {
    hide Agrees, PlaneFits, Request.Plans;
  }

  lemma PairBuilt(c: Tables, q: Request, weight: TablePlane, scale: TablePlane, remote: map<string, Bytes>, cols: nat, scols: nat,
                  tables: seq<Bytes>)
    requires weight.outLayer < |q.srcLayers| && scale.outLayer == weight.outLayer
    requires q.Plans(c) && AllFit(c, q, [weight, scale]) && |tables| == 2
    requires forall p :: 0 <= p < 2 ==> PlaneKept(c, q, [weight, scale][p], remote, [cols, scols][p], tables[p])
    ensures PairKept(c, q, weight, scale, remote, cols, scols, tables[0], tables[1])
    ensures ModuleFor(c, q, weight) < |c.kept| == |c.dst|
    ensures var rows := Sum(c.dst[ModuleFor(c, q, weight)].primes);
            && rows >= 0 && |tables[0]| == rows * cols && |tables[1]| == rows * scols
            && (q.orders * q.heads > 0 ==> rows > 0)
  {
    hide Derives, InOrder, TableFits, StoredShard, RowKept, Sum, ModuleFor, From;
    var planes, widths := [weight, scale], [cols, scols];
    assert PlaneFits(c, q, planes[0]) && PlaneFits(c, q, planes[1]);
    assert PlaneKept(c, q, planes[0], remote, widths[0], tables[0]) && PlaneKept(c, q, planes[1], remote, widths[1], tables[1]);
    SameModule(c, q, weight, scale);
    var k := ModuleFor(c, q, weight);
    PlannedModule(c, q, k);
    PlanePrimes(c, q, k);
  }

  lemma PlanePrimes(c: Tables, q: Request, k: nat)
    requires q.Plans(c) && k < |c.kept| == |c.dst| && forall j :: 0 <= j < |c.dst[k].primes| ==> c.dst[k].primes[j] >= 2
    ensures Sum(c.dst[k].primes) >= 0 && (q.orders * q.heads > 0 ==> Sum(c.dst[k].primes) > 0)
  {
    PlannedGeometry(c.dst, q.vocab, q.orders * q.heads, k);
    PlePlan.SumNonNegative(c.dst[k].primes);
    if q.orders * q.heads > 0 {
      PlePlan.SegmentEnds(c.dst[k].primes, 0);
    }
  }

  // A plane with an exponent row for each row is blocked as `RowBlocking` says.
  lemma BlocksOfRows(codes: nat, rows: nat, cols: nat, exponents: nat, scols: nat)
    requires codes == rows * cols && exponents == rows * scols
    ensures var r := Blocks(codes, rows, cols, exponents, rows, scols);
            && (r.Ok? <==> rows > 0 && scols > 0 && cols % scols == 0)
            && (r.Ok? ==> r.value == RowBlocking(cols, scols))
  {
    AtMeans(rows, cols);
    AtMeans(rows, scols);
    if rows > 0 {
      DivModUnique(rows, 1, 0);
    }
  }

  // Planned, cloned, fetched, joined and read out: the chunks, joined, are a bf16 plane
  // whose rows are the source rows' read-outs.
  method ReadOutTable(remote: map<string, Bytes>, q: Request, weight: TablePlane, scale: TablePlane, cols: nat, scols: nat)
    returns (r: Option<seq<seq<nat>>>, c: Tables)
    requires weight.outLayer < |q.srcLayers| && scale.outLayer == weight.outLayer && SourcesApart([weight, scale])
    requires Listed(weight.src, remote, cols) && Listed(scale.src, remote, scols)
    ensures r.Some? ==> q.Plans(c) && scols > 0 && cols % scols == 0
                        && PlaneReadOut(c, q, weight, scale, remote, cols, scols, Concat(r.value))
    ensures Readable(q, weight, scale, cols, scols) ==> r.Some?
  {
    hide *;
    c := Tables([], [], []);
    var built := CarveTables(remote, q, [weight, scale], [cols, scols]);
    if Readable(q, weight, scale, cols, scols) {
      ReadableIsBuilt(built, q, weight, scale, cols, scols);
    }
    if !built.Written? {
      return None, c;
    }
    c := built.carve;
    PlansModules(c, q);
    PairBuilt(c, q, weight, scale, remote, cols, scols, built.tables);
    var k := ModuleFor(c, q, weight);
    var codes, exponents := built.tables[0], built.tables[1];
    var rows: nat := Sum(c.dst[k].primes);
    var read := ReadOutPlane(codes, rows, cols, exponents, rows, scols);
    BlocksOfRows(|codes|, rows, cols, |exponents|, scols);
    if read.Err? {
      return None, c;
    }
    PairReadsOut(c, q, weight, scale, remote, cols, scols, codes, exponents, rows);
    r := Some(read.value);
  }

  // ------------------------------------------------------------------- in the file

  // `rounded.tobytes()`: two bytes a value, the low one first.
  function Words(values: seq<nat>): (b: Bytes)
    ensures |b| == 2 * |values|
  {
    if values == [] then [] else Words(values[..|values| - 1]) + Safetensors.ToLittle(values[|values| - 1], 2)
  }

  lemma {:induction false} WordsAppend(a: seq<nat>, b: seq<nat>)
    ensures Words(a + b) == Words(a) + Words(b)
  {
    hide Safetensors.ToLittle;
    if b == [] {
      assert a + b == a;
    } else {
      var n := |b| - 1;
      WordsAppend(a, b[..n]);
      assert (a + b)[..|a + b| - 1] == a + b[..n];
    }
  }

  // Reading any value's two bytes gives it back.
  lemma WordReadsBack(values: seq<nat>, k: nat)
    requires k < |values| && values[k] < 0x1_0000
    ensures Safetensors.FromLittle(Words(values)[2 * k..2 * k + 2]) == values[k]
  {
    hide Words;
    WordsCut(values, k, k + 1);
    assert values[k..k + 1] == [values[k]];
    OneWord(values[k]);
  }

  lemma OneWord(v: nat)
    requires v < 0x1_0000
    ensures Safetensors.FromLittle(Words([v])) == v
  {
    assert [v][..0] == [] && Words([v]) == Safetensors.ToLittle(v, 2);
    Safetensors.LittleRoundTrip(v, 2);
    assert Safetensors.Pow256(1) == 256 && Safetensors.Pow256(2) == 0x1_0000;
  }

  lemma WordsCut(values: seq<nat>, from: nat, to: nat)
    requires from <= to <= |values|
    ensures Words(values)[2 * from..2 * to] == Words(values[from..to])
  {
    hide *;
    ThreeParts(values, from, to);
    WordsOfThree(values[..from], values[from..to], values[to..]);
    CutMiddle(Words(values), Words(values[..from]), Words(values[from..to]), Words(values[to..]), 2 * from, 2 * to);
  }

  lemma ThreeParts(values: seq<nat>, from: nat, to: nat)
    requires from <= to <= |values|
    ensures values[..from] + values[from..to] + values[to..] == values
  {
  }

  lemma WordsOfThree(a: seq<nat>, b: seq<nat>, c: seq<nat>)
    ensures Words(a + b + c) == Words(a) + Words(b) + Words(c)
  {
    hide Words;
    WordsAppend(a, b);
    WordsAppend(a + b, c);
  }

  lemma CutMiddle(whole: Bytes, a: Bytes, b: Bytes, c: Bytes, from: nat, to: nat)
    requires whole == a + b + c && |a| == from && |a| + |b| == to
    ensures whole[from..to] == b
  {
  }

  // The chunks as an entry yields them.
  function ChunkWords(chunks: seq<seq<nat>>): (bytes: seq<Bytes>)
    ensures |bytes| == |chunks|
  {
    seq(|chunks|, k requires 0 <= k < |chunks| => Words(chunks[k]))
  }

  lemma {:induction false} ChunksJoin(chunks: seq<seq<nat>>)
    ensures Concat(ChunkWords(chunks)) == Words(Concat(chunks))
  {
    if chunks != [] {
      var n := |chunks| - 1;
      ChunksJoin(chunks[..n]);
      assert ChunkWords(chunks)[..n] == ChunkWords(chunks[..n]);
      WordsAppend(Concat(chunks[..n]), chunks[n]);
    }
  }

  // Head j's row i, where the written file's header says the plane is.
  ghost predicate InFile(weight: SrcTensor, scale: SrcTensor, remote: map<string, Bytes>, b: Blocking, from: Geometry, to: Geometry,
                         j: nat, i: nat, codec: Safetensors.Codec, entries: seq<Safetensors.Entry>, e: nat)
    requires StoredPair(weight, scale, remote, b) && Shrinks(from, to) && j < |to.primes|
    requires Safetensors.Sized(entries) && e < |entries|
  {
    var file := Safetensors.FileOf(codec, entries);
    var found := Safetensors.ReadHeader(codec, file);
    && found.Some? && entries[e].name in found.value
    && var cols, row := b.Cols(), OffsetOf(from, j) + i;
    && var at := found.value[entries[e].name].start + 2 * At(OffsetOf(to, j) + i, cols);
    && At(row, cols) + cols <= |SourceReadOut(weight, scale, remote, b)| && at + 2 * cols <= |file|
    && file[at..at + 2 * cols] == Words(RowOf(SourceReadOut(weight, scale, remote, b), row, cols))
  }

  lemma RowFound(weight: SrcTensor, scale: SrcTensor, remote: map<string, Bytes>, b: Blocking, from: Geometry, to: Geometry,
                 out: seq<nat>, j: nat, i: nat, codec: Safetensors.Codec, entries: seq<Safetensors.Entry>, e: nat)
    requires StoredPair(weight, scale, remote, b) && Shrinks(from, to) && j < |to.primes|
    requires RowReadOut(weight, scale, remote, b, from, to, out, j, i)
    requires codec.Lossless() && Safetensors.Writable(codec, entries) && Safetensors.NamesDistinct(entries)
    requires e < |entries| && entries[e].name != "__metadata__" && entries[e].Content() == Words(out)
    ensures InFile(weight, scale, remote, b, from, to, j, i, codec, entries, e)
  {
    hide At, SourceReadOut, OffsetOf, Shrinks, StoredPair, Blocking.Cols, Words, Safetensors.Entry.Content,
         Safetensors.ReadHeader, Safetensors.FileOf, Safetensors.NamesDistinct;
    OffsetsKnown(from, to, j);
    var place: nat := At(OffsetOf(to, j) + i, b.Cols());
    WordsCut(out, place, place + b.Cols());
    EndToEnd.StretchReadsBack(codec, entries, e, 2 * place, 2 * b.Cols());
  }

  lemma RowOfPlane(c: Tables, q: Request, weight: TablePlane, scale: TablePlane, remote: map<string, Bytes>,
                   cols: nat, scols: nat, out: seq<nat>, j: nat, i: nat)
    requires q.Plans(c) && weight.outLayer < |q.srcLayers| && scols > 0 && cols % scols == 0
    requires PlaneReadOut(c, q, weight, scale, remote, cols, scols, out)
    ensures Modules(c.kept, |q.layerIds|)
    ensures var k, b := ModuleFor(c, q, weight), RowBlocking(cols, scols);
            && k < |c.kept| == |c.dst| && c.kept[k] < |c.src|
            && StoredPair(weight.src, scale.src, remote, b) && Shrinks(From(c, k), c.dst[k])
            && (j < |c.dst[k].primes| && i < c.dst[k].primes[j] ==>
                  RowReadOut(weight.src, scale.src, remote, b, From(c, k), c.dst[k], out, j, i))
  {
    hide RowReadOut, StoredPair, Shrinks, Sum, Derives, InOrder;
  }

  // A reader that opens the file and looks a hashed row up finds the source row, read out.
  lemma RowReadsBack(c: Tables, q: Request, weight: TablePlane, scale: TablePlane, remote: map<string, Bytes>,
                     cols: nat, scols: nat, chunks: seq<seq<nat>>, k: nat, j: nat, i: nat,
                     codec: Safetensors.Codec, entries: seq<Safetensors.Entry>, e: nat)
    requires q.Plans(c) && weight.outLayer < |q.srcLayers| && scols > 0 && cols % scols == 0
    requires PlaneReadOut(c, q, weight, scale, remote, cols, scols, Concat(chunks))
    requires k == ModuleFor(c, q, weight) && k < |c.dst| && j < |c.dst[k].primes| && i < c.dst[k].primes[j]
    requires codec.Lossless() && Safetensors.Writable(codec, entries) && Safetensors.NamesDistinct(entries)
    requires e < |entries| && entries[e].name != "__metadata__" && entries[e].chunks == ChunkWords(chunks)
    ensures k < |c.kept| && c.kept[k] < |c.src|
    ensures StoredPair(weight.src, scale.src, remote, RowBlocking(cols, scols)) && Shrinks(From(c, k), c.dst[k])
    ensures Safetensors.Sized(entries)
    ensures InFile(weight.src, scale.src, remote, RowBlocking(cols, scols), From(c, k), c.dst[k], j, i, codec, entries, e)
  {
    hide Request.Plans, PlaneReadOut, RowReadOut, StoredPair, Shrinks, InFile, Words, Concat, ChunkWords, ModuleFor, From,
         Safetensors.NamesDistinct;
    RowOfPlane(c, q, weight, scale, remote, cols, scols, Concat(chunks), j, i);
    ChunksJoin(chunks);
    RowFound(weight.src, scale.src, remote, RowBlocking(cols, scols), From(c, k), c.dst[k], Concat(chunks), j, i, codec, entries, e);
  }
}

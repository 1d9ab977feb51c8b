// Every kept Engram table, from the config to the bytes written: planned, cloned head
// by head, fetched and joined.

module EngramTables {
  import opened Wrappers
  import opened Sequences
  import opened Tensors
  import opened Primes
  import opened HashGeometry
  import opened PlePlan
  import opened CarvedPlane
  import opened EngramCarve
  import Download

  // What the config and the command line ask for.
  datatype Request = Request(srcBase: int, vocab: int, orders: nat, heads: nat,
                             layerIds: seq<nat>, stated: seq<int>, srcLayers: seq<nat>)
  {
    ghost predicate Plans(c: Tables) {
      PlannedFor(c, srcBase, vocab, orders * heads, layerIds, srcLayers)
    }
  }

  // An output plane: the table it is cut from, and the layer it is written for.
  datatype TablePlane = TablePlane(src: SrcTensor, outLayer: nat)

  function KeptLayers(kept: seq<nat>, layerIds: seq<nat>): seq<nat>
    requires Modules(kept, |layerIds|)
  {
    seq<nat>(|kept|, k requires 0 <= k < |kept| => layerIds[kept[k]])
  }

  // `kept_src_layers.index(src_layer)`, the first kept module of the source layer the
  // plane is cut from; past the end, its ValueError, exactly when no kept module has it.
  function ModuleFor(c: Tables, q: Request, p: TablePlane): (k: nat)
    requires Modules(c.kept, |q.layerIds|) && p.outLayer < |q.srcLayers|
    ensures k <= |c.kept|
    ensures k < |c.kept| ==> q.layerIds[c.kept[k]] == q.srcLayers[p.outLayer]
    ensures forall j :: 0 <= j < k ==> q.layerIds[c.kept[j]] != q.srcLayers[p.outLayer]
    ensures k == |c.kept| <==> forall j :: 0 <= j < |c.kept| ==> q.layerIds[c.kept[j]] != q.srcLayers[p.outLayer]
  {
    var layers := KeptLayers(c.kept, q.layerIds);
    assert forall j :: 0 <= j < |layers| ==> layers[j] == q.layerIds[c.kept[j]];
    IndexOf(layers, q.srcLayers[p.outLayer])
  }

  // The plane's two geometries.
  function From(c: Tables, k: nat): Geometry
    requires k < |c.kept| && c.kept[k] < |c.src|
  {
    c.src[c.kept[k]]
  }

  ghost predicate TableFits(src: SrcTensor, from: Geometry, to: Geometry) {
    && |from.primes| == |from.offsets| == |to.primes|
    && |src.shape| > 0 && src.shape[0] == Sum(from.primes)
    && forall j :: 0 <= j < |to.primes| ==> to.primes[j] <= from.primes[j]
  }

  // Kept module k is the first of this source layer.
  ghost predicate FirstOfLayer(c: Tables, q: Request, k: nat, layer: nat)
    requires Modules(c.kept, |q.layerIds|)
  {
    && k < |c.kept| && q.layerIds[c.kept[k]] == layer
    && forall j :: 0 <= j < k ==> q.layerIds[c.kept[j]] != layer
  }

  // The plane's layer has a kept module, whose derived rows the table has, and no head of
  // it would grow.
  ghost predicate PlaneFits(c: Tables, q: Request, p: TablePlane)
    requires q.Plans(c) && p.outLayer < |q.srcLayers|
  {
    var k := ModuleFor(c, q, p);
    FirstOfLayer(c, q, k, q.srcLayers[p.outLayer]) && TableFits(p.src, From(c, k), c.dst[k])
  }

  // The table as its shard's header lists it: a whole number of rows of this width.
  ghost predicate Listed(src: SrcTensor, remote: map<string, Bytes>, width: nat) {
    && src.shard in remote && src.start <= src.end <= |remote[src.shard]|
    && (|src.shape| > 0 ==> src.end - src.start == src.Height() * width)
  }

  // The tables are told apart by what the cache makes of their names.
  ghost predicate SourcesApart(planes: seq<TablePlane>) {
    forall p, u :: 0 <= p < |planes| && 0 <= u < |planes| && Safe(planes[p].src.name) == Safe(planes[u].src.name) ==>
                     planes[p].src == planes[u].src
  }

  ghost predicate Ready(c: Tables, q: Request, planes: seq<TablePlane>, remote: map<string, Bytes>, widths: seq<nat>) {
    && q.Plans(c) && |widths| == |planes| && SourcesApart(planes)
    && (forall p :: 0 <= p < |planes| ==> planes[p].outLayer < |q.srcLayers| && Listed(planes[p].src, remote, widths[p]))
  }

  // What is written for the plane is its module's kept table.
  ghost predicate PlaneKept(c: Tables, q: Request, p: TablePlane, remote: map<string, Bytes>, width: nat, written: Bytes)
    requires q.Plans(c) && p.outLayer < |q.srcLayers|
  {
    var k := ModuleFor(c, q, p);
    && FirstOfLayer(c, q, k, q.srcLayers[p.outLayer])
    && Shrinks(From(c, k), c.dst[k]) && StoredShard(p.src, remote, width)
    && TableKept(p.src, remote, width, From(c, k), c.dst[k], written)
  }

  // ------------------------------------------------------------------- one plane

  // Planned geometries are prefix sums of primes.
  lemma PlannedGeometry(modules: seq<Geometry>, base: int, size: nat, m: nat)
    requires Derives(modules, base, size) && m < |modules|
    ensures PrefixSums(modules[m].primes, modules[m].offsets) && |modules[m].primes| == size == |modules[m].offsets|
    ensures forall j :: 0 <= j < size ==> modules[m].primes[j] >= 2
  {
    forall j: nat | j < size ensures modules[m].primes[j] >= 2 {
      ModulePrimeIsNth(base, modules, size, m, j);
      NthPrimeAtLeastTwo(base, m * size + j);
    }
  }

  lemma PlannedModule(c: Tables, q: Request, k: nat)
    requires q.Plans(c) && k < |c.kept|
    ensures c.kept[k] < |c.src| && k < |c.dst|
    ensures var from, to := From(c, k), c.dst[k];
            && PrefixSums(from.primes, from.offsets) && PrefixSums(to.primes, to.offsets)
            && |from.primes| == |from.offsets| == |to.primes| == |to.offsets|
            && (forall j :: 0 <= j < |to.primes| ==> from.primes[j] >= 2 && to.primes[j] >= 2)
  {
    hide Derives;
    PlannedGeometry(c.src, q.srcBase, q.orders * q.heads, c.kept[k]);
    PlannedGeometry(c.dst, q.vocab, q.orders * q.heads, k);
  }

  // A geometry's heads are the primes from the first-th on.
  ghost predicate PrimesFrom(g: Geometry, base: int, first: nat) {
    forall j :: 0 <= j < |g.primes| ==> g.primes[j] == NthPrime(base, first + j)
  }

  lemma DerivedPrimes(modules: seq<Geometry>, base: int, size: nat, m: nat)
    requires Derives(modules, base, size) && m < |modules|
    ensures |modules[m].primes| == size && PrimesFrom(modules[m], base, m * size)
  {
    hide NthPrime, AllPrimes;
    forall j | 0 <= j < |modules[m].primes| ensures modules[m].primes[j] == NthPrime(base, m * size + j) {
      ModulePrimeIsNth(base, modules, size, m, j);
    }
  }

  lemma FirstIsModule(c: Tables, q: Request, p: TablePlane, k: nat)
    requires Modules(c.kept, |q.layerIds|) && p.outLayer < |q.srcLayers| && FirstOfLayer(c, q, k, q.srcLayers[p.outLayer])
    ensures k < |c.kept| && k == ModuleFor(c, q, p)
  {
  }

  lemma PlannedAt(c: Tables, q: Request, k: nat)
    requires q.Plans(c) && k < |c.kept|
    ensures c.kept[k] < |c.src| && k < |c.dst|
    ensures Derives(c.src, q.srcBase, q.orders * q.heads) && Derives(c.dst, q.vocab, q.orders * q.heads)
  {
    hide Derives, InOrder;
  }

  // A plane's two geometries by their primes: its source layer's module m has the heads
  // from the (m * size)-th on, and its place k among the kept modules those it is cut to.
  ghost predicate ByPrimes(from: Geometry, to: Geometry, q: Request, m: nat, k: nat) {
    var size := q.orders * q.heads;
    && |from.primes| == |to.primes| == size
    && PrimesFrom(from, q.srcBase, m * size) && PrimesFrom(to, q.vocab, k * size)
  }

  lemma PlaneGeometries(c: Tables, q: Request, p: TablePlane, k: nat)
    requires q.Plans(c) && p.outLayer < |q.srcLayers| && FirstOfLayer(c, q, k, q.srcLayers[p.outLayer])
    ensures k == ModuleFor(c, q, p) && c.kept[k] < |c.src| && k < |c.dst|
    ensures ByPrimes(From(c, k), c.dst[k], q, c.kept[k], k)
  {
    FirstIsModule(c, q, p, k);
    PlannedAt(c, q, k);
    hide FirstOfLayer, ModuleFor, Derives, PrimesFrom, Request.Plans, PlannedFor;
    DerivedPrimes(c.src, q.srcBase, q.orders * q.heads, c.kept[k]);
    DerivedPrimes(c.dst, q.vocab, q.orders * q.heads, k);
  }

  // A table's clones, one a head.
  ghost predicate TablePieces(pieces: seq<Piece>, src: SrcTensor, from: Geometry, to: Geometry)
    requires |from.offsets| == |to.primes|
    reads set j | 0 <= j < |pieces| :: pieces[j].src
  {
    |pieces| == |to.primes| && forall j :: 0 <= j < |pieces| ==> HeadPiece(pieces[j], src, from.offsets[j], to.primes[j])
  }

  // Two heads' clones are cached apart, by their windows alone.
  lemma ClonesApart(pieces: seq<Piece>, src: SrcTensor, from: Geometry, to: Geometry, i: nat, j: nat)
    requires PrefixSums(from.primes, from.offsets) && |from.primes| == |to.primes| && TablePieces(pieces, src, from, to)
    requires forall k :: 0 <= k < |from.primes| ==> from.primes[k] >= 2
    requires i < j < |pieces|
    ensures pieces[i].src.CacheKey() != pieces[j].src.CacheKey()
  {
    hide SrcTensor.CacheKey;
    OffsetsRise(from, i, j);
    assert HeadPiece(pieces[i], src, from.offsets[i], to.primes[i]) && HeadPiece(pieces[j], src, from.offsets[j], to.primes[j]);
    if pieces[i].src.CacheKey() == pieces[j].src.CacheKey() {
      WindowedKeysMeet(pieces[i].src, pieces[j].src);
    }
  }

  lemma {:induction false} OffsetsRise(g: Geometry, i: nat, j: nat)
    requires PrefixSums(g.primes, g.offsets) && i < j < |g.primes| && forall k :: 0 <= k < |g.primes| ==> g.primes[k] >= 2
    ensures g.offsets[i] < g.offsets[j]
  {
    assert g.primes[..j][..j - 1] == g.primes[..j - 1];
    if i < j - 1 {
      OffsetsRise(g, i, j - 1);
    }
  }

  // A head's window lies in its table.
  lemma CloneInside(piece: Piece, src: SrcTensor, remote: map<string, Bytes>, width: nat, from: Geometry, to: Geometry, j: nat)
    requires Listed(src, remote, width) && TableFits(src, from, to) && PrefixSums(from.primes, from.offsets)
    requires (forall k :: 0 <= k < |from.primes| ==> from.primes[k] >= 0) && j < |to.primes| && to.primes[j] >= 0
    requires HeadPiece(piece, src, from.offsets[j], to.primes[j])
    ensures piece.src.shard in remote && piece.src.start <= piece.src.end
    ensures piece.src.Fetched().Got(remote[piece.src.shard]).Some?
  {
    hide SrcTensor.Fetched;
    SegmentEnds(from.primes, j);
    WindowInside(piece.src, remote, width, from.offsets[j], from.offsets[j] + to.primes[j]);
  }

  lemma PiecesAreReady(cache: Cache, pieces: seq<Piece>, src: SrcTensor, remote: map<string, Bytes>, from: Geometry, to: Geometry)
    requires src.shard in remote && Shrinks(from, to) && TablePieces(pieces, src, from, to)
    requires forall j :: 0 <= j < |pieces| ==>
                           pieces[j].src.shard in remote && Download.WindowCached(cache, pieces[j].src, remote)
    ensures PiecesReady(cache, pieces, src, remote, SpansOf(from, to))
  {
    hide Download.WindowCached, PrefixSums;
    var spans := SpansOf(from, to);
    forall j | 0 <= j < |pieces| ensures PieceReady(cache, pieces[j], src, remote, spans[j]) {
      OffsetIs(from, to, j);
    }
  }

  lemma NothingJoins(cache: Cache)
    ensures PiecesRows(cache, []) == Some([]) && Sum([]) == 0
  {
  }

  // Cached clones join to the kept table.
  lemma TableJoins(cache: Cache, pieces: seq<Piece>, src: SrcTensor, remote: map<string, Bytes>, width: nat,
                   from: Geometry, to: Geometry)
    requires Listed(src, remote, width) && TableFits(src, from, to) && Shrinks(from, to) && TablePieces(pieces, src, from, to)
    requires forall j :: 0 <= j < |to.primes| ==> to.primes[j] > 0
    requires forall j :: 0 <= j < |pieces| ==>
                           pieces[j].src.shard in remote && Download.WindowCached(cache, pieces[j].src, remote)
    ensures StoredShard(src, remote, width) && Sound(pieces) && PiecesRows(cache, pieces).Some?
    ensures TableKept(src, remote, width, from, to, PiecesRows(cache, pieces).value)
  {
    hide Download.WindowCached, PiecesRows, RowKept, Sum, PrefixSums, PiecesReady;
    PiecesAreReady(cache, pieces, src, remote, from, to);
    if to.primes == [] {
      NothingJoins(cache);
    } else {
      SegmentEnds(from.primes, 0);
      TableLength(cache, pieces, src, remote, width, from, to);
    }
    forall j: nat, i: nat | j < |to.primes| && i < to.primes[j]
      ensures RowKept(src, remote, width, from, to, PiecesRows(cache, pieces).value, j, i)
    {
      TableRowKept(cache, pieces, src, remote, width, from, to, j, i);
    }
  }

  // ------------------------------------------------------------------- all planes

  // The clones of one plane, as `Apply` leaves them.
  ghost predicate PlaneCloned(c: Tables, q: Request, p: TablePlane, pieces: seq<Piece>)
    requires q.Plans(c) && p.outLayer < |q.srcLayers|
    reads set j | 0 <= j < |pieces| :: pieces[j].src
  {
    var k := ModuleFor(c, q, p);
    k < |c.kept| && |From(c, k).offsets| == |c.dst[k].primes| && TablePieces(pieces, p.src, From(c, k), c.dst[k])
  }

  method CloneAll(c: Tables, q: Request, planes: seq<TablePlane>) returns (all: Option<seq<seq<Piece>>>)
    requires q.Plans(c) && forall p :: 0 <= p < |planes| ==> planes[p].outLayer < |q.srcLayers| && planes[p].src.start <= planes[p].src.end
    ensures all.Some? <==> forall p :: 0 <= p < |planes| ==> PlaneFits(c, q, planes[p])
    ensures all.Some? ==> |all.value| == |planes| && forall p :: 0 <= p < |planes| ==> PlaneCloned(c, q, planes[p], all.value[p])
  {
    hide Request.Plans, PlaneFits, From, ModuleFor;
    var done: seq<seq<Piece>> := [];
    for p := 0 to |planes|
      invariant |done| == p && forall u :: 0 <= u < p ==> PlaneFits(c, q, planes[u])
      invariant forall u :: 0 <= u < p ==> PlaneCloned(c, q, planes[u], done[u])
    {
      var pieces := ClonePlane(c, q, planes[p]);
      if pieces.None? {
        return None;
      }
      done := done + [pieces.value];
    }
    all := Some(done);
  }

  method ClonePlane(c: Tables, q: Request, p: TablePlane) returns (pieces: Option<seq<Piece>>)
    requires q.Plans(c) && p.outLayer < |q.srcLayers| && p.src.start <= p.src.end
    ensures pieces.Some? <==> PlaneFits(c, q, p)
    ensures pieces.Some? ==> PlaneCloned(c, q, p, pieces.value)
  {
    hide Derives, InOrder;
    var k := ModuleFor(c, q, p);
    if k == |c.kept| {
      return None;
    }
    PlannedModule(c, q, k);
    PlannedOffsets(From(c, k));
    pieces := Apply(p.src, From(c, k), c.dst[k]);
  }

  lemma PlannedOffsets(g: Geometry)
    requires PrefixSums(g.primes, g.offsets) && forall j :: 0 <= j < |g.primes| ==> g.primes[j] >= 0
    ensures forall j :: 0 <= j < |g.offsets| ==> g.offsets[j] >= 0
  {
    forall j | 0 <= j < |g.offsets| ensures g.offsets[j] >= 0 {
      SegmentEnds(g.primes, j);
    }
  }

  // Every clone of every plane, to be fetched.
  ghost predicate AreClones(ts: seq<SrcTensor>, all: seq<seq<Piece>>) {
    && (forall p, j :: 0 <= p < |all| && 0 <= j < |all[p]| ==> all[p][j].src in ts)
    && (forall k :: 0 <= k < |ts| ==> IsClone(ts[k], all))
  }

  ghost predicate IsClone(t: SrcTensor, all: seq<seq<Piece>>) {
    exists p, j :: 0 <= p < |all| && 0 <= j < |all[p]| && all[p][j].src == t
  }

  method Clones(all: seq<seq<Piece>>) returns (ts: seq<SrcTensor>)
    ensures AreClones(ts, all)
  {
    ts := [];
    for p := 0 to |all|
      invariant AreClones(ts, all[..p])
    {
      var more := seq<SrcTensor>(|all[p]|, j requires 0 <= j < |all[p]| => all[p][j].src);
      MoreClones(ts, all, p, more);
      ts := ts + more;
    }
    assert all[..|all|] == all;
  }

  lemma MoreClones(ts: seq<SrcTensor>, all: seq<seq<Piece>>, p: nat, more: seq<SrcTensor>)
    requires p < |all| && AreClones(ts, all[..p]) && |more| == |all[p]|
    requires forall j :: 0 <= j < |more| ==> more[j] == all[p][j].src
    ensures AreClones(ts + more, all[..p + 1])
  {
    var now: seq<seq<Piece>>, before: seq<seq<Piece>> := all[..p + 1], all[..p];
    forall u, j | 0 <= u < |now| && 0 <= j < |now[u]| ensures now[u][j].src in ts + more {
      if u < p {
        assert before[u][j].src in ts;
      } else {
        assert more[j] in more;
      }
    }
    forall k | 0 <= k < |ts + more| ensures IsClone((ts + more)[k], now) {
      if k < |ts| {
        assert IsClone(ts[k], before);
        var u, j :| 0 <= u < |before| && 0 <= j < |before[u]| && before[u][j].src == ts[k];
        assert now[u][j].src == ts[k];
      } else {
        assert now[p][k - |ts|].src == more[k - |ts|];
      }
    }
  }

  // ------------------------------------------------------------------- the download

  // A clone of plane p's table.
  lemma CloneOf(c: Tables, q: Request, p: TablePlane, pieces: seq<Piece>, remote: map<string, Bytes>, width: nat, j: nat)
    requires q.Plans(c) && p.outLayer < |q.srcLayers| && PlaneFits(c, q, p) && PlaneCloned(c, q, p, pieces)
    requires Listed(p.src, remote, width) && j < |pieces|
    ensures var t := pieces[j].src;
            && t.shard in remote && t.start <= t.end && t.Fetched().Got(remote[t.shard]).Some?
            && t.keepRows.Some? && SameTensor(t, p.src)
  {
    hide SrcTensor.Fetched, Derives, InOrder;
    var k := ModuleFor(c, q, p);
    PlannedModule(c, q, k);
    CloneInside(pieces[j], p.src, remote, width, From(c, k), c.dst[k], j);
  }

  ghost predicate SameTensor(t: SrcTensor, u: SrcTensor) {
    t.name == u.name && t.shard == u.shard && t.shape == u.shape && t.start == u.start && t.end == u.end
  }

  // Clones that share a blob are windows of one table onto the same rows.
  lemma SharedBlob(t: SrcTensor, u: SrcTensor, src: SrcTensor)
    requires t.keepRows.Some? && u.keepRows.Some? && t.CacheKey() == u.CacheKey()
    requires SameTensor(t, src) && SameTensor(u, src)
    ensures t.Fetched() == u.Fetched()
  {
    WindowedKeysMeet(t, u);
  }

  lemma KeysName(t: SrcTensor, u: SrcTensor)
    requires t.keepRows.Some? && u.keepRows.Some? && t.CacheKey() == u.CacheKey()
    ensures Safe(t.name) == Safe(u.name)
  {
    WindowedKeysMeet(t, u);
  }

  ghost predicate AllCloned(c: Tables, q: Request, planes: seq<TablePlane>, all: seq<seq<Piece>>)
    requires q.Plans(c)
    reads set p, j | 0 <= p < |all| && 0 <= j < |all[p]| :: all[p][j].src
  {
    && |all| == |planes|
    && forall p :: 0 <= p < |planes| ==>
                     planes[p].outLayer < |q.srcLayers| && PlaneFits(c, q, planes[p]) && PlaneCloned(c, q, planes[p], all[p])
  }

  lemma ClonesAskable(c: Tables, q: Request, planes: seq<TablePlane>, all: seq<seq<Piece>>, ts: seq<SrcTensor>,
                      remote: map<string, Bytes>, widths: seq<nat>)
    requires Ready(c, q, planes, remote, widths) && AllCloned(c, q, planes, all) && AreClones(ts, all)
    ensures Download.Askable(ts, remote)
    ensures forall k :: 0 <= k < |ts| ==> ts[k].shard in remote && ts[k].Fetched().Got(remote[ts[k].shard]).Some?
  {
    hide SrcTensor.Fetched, SrcTensor.CacheKey, PlaneFits, PlaneCloned, Listed;
    forall k | 0 <= k < |ts|
      ensures ts[k].shard in remote && ts[k].start <= ts[k].end && ts[k].Fetched().Got(remote[ts[k].shard]).Some?
    {
      assert IsClone(ts[k], all);
      var p, j :| 0 <= p < |all| && 0 <= j < |all[p]| && all[p][j].src == ts[k];
      CloneOf(c, q, planes[p], all[p], remote, widths[p], j);
    }
    forall x, y | 0 <= x < |ts| && 0 <= y < |ts| && ts[x].CacheKey() == ts[y].CacheKey()
      ensures ts[x].Fetched().Got(remote[ts[x].shard]) == ts[y].Fetched().Got(remote[ts[y].shard])
    {
      assert IsClone(ts[x], all) && IsClone(ts[y], all);
      var p, i :| 0 <= p < |all| && 0 <= i < |all[p]| && all[p][i].src == ts[x];
      var u, j :| 0 <= u < |all| && 0 <= j < |all[u]| && all[u][j].src == ts[y];
      CloneOf(c, q, planes[p], all[p], remote, widths[p], i);
      CloneOf(c, q, planes[u], all[u], remote, widths[u], j);
      KeysName(ts[x], ts[y]);
      SharedBlob(ts[x], ts[y], planes[p].src);
    }
  }

  // ------------------------------------------------------------------- the bytes

  lemma PlaneJoins(c: Tables, q: Request, p: TablePlane, pieces: seq<Piece>, remote: map<string, Bytes>, width: nat, cache: Cache)
    requires q.Plans(c) && p.outLayer < |q.srcLayers| && PlaneFits(c, q, p) && PlaneCloned(c, q, p, pieces)
    requires Listed(p.src, remote, width)
    requires forall j :: 0 <= j < |pieces| ==>
                           pieces[j].src.shard in remote && Download.WindowCached(cache, pieces[j].src, remote)
    ensures Sound(pieces) && PiecesRows(cache, pieces).Some?
    ensures PlaneKept(c, q, p, remote, width, PiecesRows(cache, pieces).value)
  {
    hide Download.WindowCached, PiecesRows, TableKept, Derives, InOrder, HeadPiece;
    var k := ModuleFor(c, q, p);
    PlannedModule(c, q, k);
    assert Shrinks(From(c, k), c.dst[k]);
    TableJoins(cache, pieces, p.src, remote, width, From(c, k), c.dst[k]);
  }

  lemma ClonesCached(ts: seq<SrcTensor>, all: seq<seq<Piece>>, cache: Cache, remote: map<string, Bytes>, p: nat)
    requires AreClones(ts, all) && p < |all|
    requires forall k :: 0 <= k < |ts| ==> ts[k].shard in remote && Download.WindowCached(cache, ts[k], remote)
    ensures forall j :: 0 <= j < |all[p]| ==>
                          all[p][j].src.shard in remote && Download.WindowCached(cache, all[p][j].src, remote)
  {
    hide Download.WindowCached;
  }

  // A plane's clones, each cached as its own range.
  ghost predicate PlaneFetched(c: Tables, q: Request, p: TablePlane, pieces: seq<Piece>, cache: Cache, remote: map<string, Bytes>)
    requires q.Plans(c) && p.outLayer < |q.srcLayers|
    reads set j | 0 <= j < |pieces| :: pieces[j].src
  {
    && PlaneFits(c, q, p) && PlaneCloned(c, q, p, pieces)
    && forall j :: 0 <= j < |pieces| ==>
                     pieces[j].src.shard in remote && Download.WindowCached(cache, pieces[j].src, remote)
  }

  // One plane's entry.
  method JoinPlane(ghost c: Tables, ghost q: Request, ghost p: TablePlane, pieces: seq<Piece>, ghost remote: map<string, Bytes>,
                   ghost width: nat, cache: Cache)
    returns (written: Bytes)
    requires q.Plans(c) && p.outLayer < |q.srcLayers| && Listed(p.src, remote, width)
    requires PlaneFetched(c, q, p, pieces, cache, remote)
    ensures PlaneKept(c, q, p, remote, width, written)
  {
    PlaneJoins(c, q, p, pieces, remote, width, cache);
    hide *;
    var joined := JoinPieces(cache, pieces);
    written := joined.value;
  }

  // Every plane's.
  method JoinPlanes(ghost c: Tables, ghost q: Request, planes: seq<TablePlane>, all: seq<seq<Piece>>, ghost remote: map<string, Bytes>,
                    ghost widths: seq<nat>, cache: Cache)
    returns (done: seq<Bytes>)
    requires Ready(c, q, planes, remote, widths) && |all| == |planes|
    requires forall p :: 0 <= p < |planes| ==> PlaneFetched(c, q, planes[p], all[p], cache, remote)
    ensures |done| == |planes| && forall p :: 0 <= p < |planes| ==> PlaneKept(c, q, planes[p], remote, widths[p], done[p])
  {
    hide Request.Plans, PlaneFits, PlaneKept, Listed, SourcesApart, ModuleFor, From, SrcTensor.Fetched, SrcTensor.CacheKey;
    done := [];
    for p := 0 to |planes|
      invariant |done| == p && forall u :: 0 <= u < p ==> PlaneKept(c, q, planes[u], remote, widths[u], done[u])
    {
      var written := JoinPlane(c, q, planes[p], all[p], remote, widths[p], cache);
      done := done + [written];
    }
  }

  // The clones fetched.
  method FetchClones(remote: map<string, Bytes>, ghost c: Tables, ghost q: Request, ghost planes: seq<TablePlane>, all: seq<seq<Piece>>,
                     ghost widths: seq<nat>)
    returns (cache: Cache)
    requires Ready(c, q, planes, remote, widths) && AllCloned(c, q, planes, all)
    ensures forall p :: 0 <= p < |planes| ==> PlaneFetched(c, q, planes[p], all[p], cache, remote)
  {
    hide Request.Plans, PlaneFits, Listed, AreClones, SourcesApart, Download.WindowCached, Download.Askable,
         SrcTensor.Fetched, Tensors.Fetch.Got, ModuleFor, From;
    var ts := Clones(all);
    ClonesAskable(c, q, planes, all, ts, remote, widths);
    var r := Download.FetchAll(remote, ts);
    cache := r.value;
    forall p | 0 <= p < |planes| ensures PlaneFetched(c, q, planes[p], all[p], cache, remote) {
      ClonesCached(ts, all, cache, remote, p);
    }
  }

  lemma ReadyMeans(c: Tables, q: Request, planes: seq<TablePlane>, remote: map<string, Bytes>, widths: seq<nat>)
    requires Ready(c, q, planes, remote, widths)
    ensures q.Plans(c)
    ensures forall p :: 0 <= p < |planes| ==> planes[p].outLayer < |q.srcLayers| && planes[p].src.start <= planes[p].src.end
  {
  }

  // Cloned, fetched and joined: every plane that can be cut comes out as its module's kept
  // table, head for head. None is a plane that cannot.
  method BuildTables(remote: map<string, Bytes>, c: Tables, q: Request, planes: seq<TablePlane>, ghost widths: seq<nat>)
    returns (r: Option<seq<Bytes>>)
    requires Ready(c, q, planes, remote, widths)
    ensures r.Some? <==> forall p :: 0 <= p < |planes| ==> PlaneFits(c, q, planes[p])
    ensures r.Some? ==> |r.value| == |planes|
                        && forall p :: 0 <= p < |planes| ==> PlaneKept(c, q, planes[p], remote, widths[p], r.value[p])
  {
    ReadyMeans(c, q, planes, remote, widths);
    hide Request.Plans, Ready, PlaneFits, PlaneFetched, PlaneKept, ModuleFor, From;
    var all := CloneAll(c, q, planes);
    if all.None? {
      return None;
    }
    var cache := FetchClones(remote, c, q, planes, all.value, widths);
    var done := JoinPlanes(c, q, planes, all.value, remote, widths, cache);
    r := Some(done);
  }

  datatype Built = NotCarved | Refused(m: nat) | Unfit(carve: Tables) | Written(carve: Tables, tables: seq<Bytes>)

  // `plan_engram_carve` to the bytes written.
  method CarveTables(remote: map<string, Bytes>, q: Request, planes: seq<TablePlane>, ghost widths: seq<nat>)
    returns (r: Built)
    requires SourcesApart(planes) && |widths| == |planes|
    requires forall p :: 0 <= p < |planes| ==> planes[p].outLayer < |q.srcLayers| && Listed(planes[p].src, remote, widths[p])
    ensures r.NotCarved? <==> q.layerIds == []
    ensures r.Refused? <==> q.layerIds != [] && !Agrees(q.stated, q.srcBase, q.orders * q.heads, |q.layerIds|)
    ensures r.Refused? ==>
              && r.m < |q.layerIds| && r.m < |q.stated| && q.stated[r.m] != DerivedRows(q.srcBase, q.orders * q.heads, r.m)
              && Agrees(q.stated, q.srcBase, q.orders * q.heads, r.m)
    ensures r.Written? ==>
              && q.Plans(r.carve) && AllFit(r.carve, q, planes) && |r.tables| == |planes|
              && forall p :: 0 <= p < |planes| ==> PlaneKept(r.carve, q, planes[p], remote, widths[p], r.tables[p])
    ensures r.Unfit? ==> q.Plans(r.carve) && !AllFit(r.carve, q, planes)
  {
    hide Agrees, PlannedFor, Listed, PlaneKept, SourcesApart, PlaneFits;
    var plan := EngramCarve.Plan(q.srcBase, q.vocab, q.orders, q.heads, q.layerIds, q.stated, q.srcLayers);
    match plan
    case NoTables => r := NotCarved;
    case Unreproducible(m) => r := Built.Refused(m);
    case PlannedTables(c) =>
      var tables := BuildTables(remote, c, q, planes, widths);
      assert q.Plans(c);
      r := if tables.None? then Unfit(c) else Written(c, tables.value);
  }

  ghost predicate AllFit(c: Tables, q: Request, planes: seq<TablePlane>)
    requires q.Plans(c) && forall p :: 0 <= p < |planes| ==> planes[p].outLayer < |q.srcLayers|
  {
    forall p :: 0 <= p < |planes| ==> PlaneFits(c, q, planes[p])
  }
}

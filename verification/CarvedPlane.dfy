// `apply_ple_carve` and the byte stream `output_entry` makes of a carved plane:
// each output shard's bytes are the bytes of exactly the planned source rows.

module CarvedPlane {
  import opened Wrappers
  import opened Tensors
  import Download
  import opened Arithmetic
  import opened Sequences
  import opened PleCarve
  import opened PlePlan

  const CHUNK: nat := 8 * 1024 * 1024

  // `rows` rows of one source tensor, starting at its row `row0`.
  datatype Piece = Piece(src: SrcTensor, row0: nat, rows: nat)

  class OutTensor {
    const name: string
    const src: SrcTensor
    var rows: Option<nat>
    var pieces: Option<seq<Piece>>

    constructor (name: string, src: SrcTensor)
      ensures this.name == name && this.src == src && rows == None && pieces == None
    {
      this.name, this.src := name, src;
      rows, pieces := None, None;
    }
  }

  ghost predicate AllDistinct<T>(s: seq<T>) {
    forall i, j :: 0 <= i < j < |s| ==> s[i] != s[j]
  }

  // ------------------------------------------------------------------- planning

  // The pieces an output shard's slices name, with the table's own shards.
  function PiecesOf(slices: seq<Slice>, table: seq<SrcTensor>): seq<Piece>
    requires forall k :: 0 <= k < |slices| ==> slices[k].part < |table|
  {
    seq(|slices|, k requires 0 <= k < |slices| =>
      Piece(table[slices[k].part], slices[k].row0, slices[k].rows))
  }

  // Every window a shard is read through is the carve's; shards without one are
  // as they were.
  ghost predicate Windowed(table: seq<SrcTensor>, windows: map<nat, (nat, nat)>)
    reads table
  {
    forall part :: part in windows ==>
                     && part < |table| && windows[part].0 <= windows[part].1
                     && table[part].keepFrom == windows[part].0
                     && table[part].keepRows == Some(windows[part].1 - windows[part].0)
  }

  method MarkWindows(table: seq<SrcTensor>, windows: map<nat, (nat, nat)>)
    requires AllDistinct(table)
    requires forall part :: part in windows ==> part < |table| && windows[part].0 <= windows[part].1
    modifies table
    ensures Windowed(table, windows)
    ensures forall part :: 0 <= part < |table| && part !in windows ==>
                             table[part].keepFrom == old(table[part].keepFrom) && table[part].keepRows == old(table[part].keepRows)
  {
    var left := windows.Keys;
    while |left| > 0
      invariant left <= windows.Keys
      invariant forall part :: part in windows && part !in left ==>
                                 && table[part].keepFrom == windows[part].0
                                 && table[part].keepRows == Some(windows[part].1 - windows[part].0)
      invariant forall part :: 0 <= part < |table| && part !in windows ==>
                                 table[part].keepFrom == old(table[part].keepFrom)
                                 && table[part].keepRows == old(table[part].keepRows)
      decreases |left|
    {
      ghost var some := AnyOf(left);
      var part :| part in left;
      var (lo, hi) := windows[part];
      table[part].keepFrom, table[part].keepRows := lo, Some(hi - lo);
      left := left - {part};
    }
  }

  // The carve's demand on one output plane: its stand-in tensor is as tall as the
  // config's hashing makes a stored shard.
  predicate TallAs(t: SrcTensor, srcRows: int) {
    |t.shape| > 0 && t.shape[0] == srcRows
  }

  lemma CarveCounts(c: Carve)
    requires Faithful(c)
    ensures c.srcParts > 0 && c.dstParts > 0 && c.dstPadded >= 0
  {
  }

  // What the carve makes of output shard p.
  ghost predicate Planned(ot: OutTensor, table: seq<SrcTensor>, c: Carve, p: nat)
    requires c.dstParts > 0 && |table| == c.srcParts
    reads ot
  {
    && SlicesNamed(c, p)
    && ot.pieces == Some(PiecesOf(c.layout[p], table))
    && ot.rows == Some(if c.dstPadded < 0 then 0 else c.DstRows())
  }

  // One output shard: its pieces, its height, and the windows of the whole plane.
  method PlanShard(ot: OutTensor, table: seq<SrcTensor>, c: Carve, p: nat)
    requires c.dstParts > 0 && c.dstPadded >= 0 && |table| == c.srcParts && AllDistinct(table) && SlicesNamed(c, p)
    requires forall part :: part in c.windows ==> part < |table| && c.windows[part].0 <= c.windows[part].1
    modifies ot, table
    ensures Planned(ot, table, c, p) && Windowed(table, c.windows)
  {
    ot.pieces := Some(PiecesOf(c.layout[p], table));
    ot.rows := Some(c.DstRows());
    MarkWindows(table, c.windows);
  }

  lemma CarveNamesParts(c: Carve)
    requires Faithful(c)
    ensures forall p :: 0 <= p < c.dstParts ==> SlicesNamed(c, p)
    ensures forall part :: part in c.windows ==> part < c.srcParts && c.windows[part].0 <= c.windows[part].1
  {
    hide RowsOf, LayoutRows, SameRows;
    forall part | part in c.windows ensures part < c.srcParts && c.windows[part].0 <= c.windows[part].1 {
      assert WindowFits(c, part, LayoutRows(c.layout, c.SrcRows()));
    }
    forall p | 0 <= p < c.dstParts ensures SlicesNamed(c, p) {
      forall k | 0 <= k < |c.layout[p]| ensures c.layout[p][k].part < c.srcParts {
        assert SliceFits(c, c.layout[p][k]);
      }
    }
  }

  // `apply_ple_carve` over one plane: output shard p is `outs[p]`. False is the
  // refusal to guess when a stand-in is not as tall as derived.
  method ApplyPleCarve(outs: seq<OutTensor>, table: seq<SrcTensor>, c: Carve) returns (ok: bool)
    requires Faithful(c) && |outs| <= c.dstParts && |table| == c.srcParts
    requires AllDistinct(outs) && AllDistinct(table)
    modifies outs, table
    ensures ok <==> forall p :: 0 <= p < |outs| ==> outs[p].src.shape != [] && outs[p].src.shape[0] == c.SrcRows()
    ensures ok && outs != [] ==> Windowed(table, c.windows)
    ensures ok ==> forall p :: 0 <= p < |outs| ==> Planned(outs[p], table, c, p)
  {
    CarveNamesParts(c);
    CarveCounts(c);
    hide Faithful, SlicesNamed, Planned, PiecesOf, Windowed, Carve.SrcRows, Carve.DstRows;
    var srcRows := c.SrcRows();
    for p := 0 to |outs|
      invariant forall q :: 0 <= q < p ==> TallAs(outs[q].src, srcRows)
      invariant p > 0 ==> Windowed(table, c.windows)
      invariant forall q :: 0 <= q < p ==> Planned(outs[q], table, c, q)
    {
      if !TallAs(outs[p].src, srcRows) {
        return false;
      }
      PlanShard(outs[p], table, c, p);
    }
    ok := true;
  }

  ghost predicate SlicesNamed(c: Carve, p: nat) {
    p < |c.layout| && forall k :: 0 <= k < |c.layout[p]| ==> c.layout[p][k].part < c.srcParts
  }

  // ----------------------------------------------------------- reading cached rows

  // `_rows_from`: rows of a cached blob, chunk by chunk. None is running out early.
  method RowsFrom(blob: Bytes, rowBytes: nat, skip: nat, rows: nat) returns (r: Option<seq<Bytes>>)
    ensures r.Some? <==> rows * rowBytes == 0 || skip * rowBytes + rows * rowBytes <= |blob|
    ensures r.Some? && rows * rowBytes > 0 ==>
              Concat(r.value) == blob[skip * rowBytes..skip * rowBytes + rows * rowBytes]
    ensures r.Some? && rows * rowBytes == 0 ==> Concat(r.value) == []
    ensures r.Some? ==> forall k :: 0 <= k < |r.value| ==> 0 < |r.value[k]| <= CHUNK
  {
    hide Concat;
    r := ReadFrom(blob, skip * rowBytes, rows * rowBytes);
  }

  // From a position on, until `want` bytes are read.
  method ReadFrom(blob: Bytes, from: nat, want: nat) returns (r: Option<seq<Bytes>>)
    ensures r.Some? <==> want == 0 || from + want <= |blob|
    ensures r.Some? ==> Concat(r.value) == if want == 0 then [] else blob[from..from + want]
    ensures r.Some? ==> forall k :: 0 <= k < |r.value| ==> 0 < |r.value[k]| <= CHUNK
  {
    var at, left := from, want;
    var chunks: seq<Bytes> := [];
    assert Concat(chunks) == [];
    hide Concat;
    while left > 0
      invariant 0 <= left && from <= at && at + left == from + want
      invariant if chunks == [] then at == from else at <= |blob|
      invariant Concat(chunks) == if chunks == [] then [] else blob[from..at]
      invariant forall k :: 0 <= k < |chunks| ==> 0 < |chunks[k]| <= CHUNK
      decreases left
    {
      var buf := if at >= |blob| then [] else blob[at..Min(|blob|, at + Min(CHUNK, left))];
      if buf == [] {
        return None;
      }
      ConcatAppend(chunks, buf);
      assert chunks != [] ==> blob[from..at] + buf == blob[from..at + |buf|];
      left := left - |buf|;
      at := at + |buf|;
      chunks := chunks + [buf];
    }
    r := Some(chunks);
  }

  // -------------------------------------------------------------- rows of a table

  // A plane as the source stores it: shards of rows all of one width.
  ghost predicate StoredPlane(table: seq<SrcTensor>, remote: map<string, Bytes>, rowBytes: nat) {
    forall part :: 0 <= part < |table| ==> StoredShard(table[part], remote, rowBytes)
  }

  ghost predicate StoredShard(t: SrcTensor, remote: map<string, Bytes>, rowBytes: nat) {
    && t.shard in remote && t.start <= t.end <= |remote[t.shard]|
    && |t.shape| > 0 && t.end - t.start == t.Height() * rowBytes
  }

  // Rows row0 .. row0 + n of one stored shard, as bytes.
  ghost function ShardRows(t: SrcTensor, remote: map<string, Bytes>, rowBytes: nat, row0: nat, n: nat): (b: Bytes)
    requires StoredShard(t, remote, rowBytes) && row0 + n <= t.Height()
    ensures |b| == At(n, rowBytes)
  {
    AtAdds(row0 + n, t.Height() - row0 - n, rowBytes);
    AtAdds(row0, n, rowBytes);
    remote[t.shard][t.start + At(row0, rowBytes)..t.start + At(row0 + n, rowBytes)]
  }

  lemma CutInTwo(b: Bytes, from: nat, mid: nat, to: nat)
    requires from <= mid <= to <= |b|
    ensures b[from..to] == b[from..mid] + b[mid..to]
  {
  }

  lemma ShardRowsGrow(t: SrcTensor, remote: map<string, Bytes>, rowBytes: nat, row0: nat, n: nat)
    requires StoredShard(t, remote, rowBytes) && row0 + n < t.Height()
    ensures ShardRows(t, remote, rowBytes, row0, n + 1)
            == ShardRows(t, remote, rowBytes, row0, n) + ShardRows(t, remote, rowBytes, row0 + n, 1)
  {
    var from, mid, to := At(row0, rowBytes), At(row0 + n, rowBytes), At(row0 + n + 1, rowBytes);
    AtAdds(row0, n, rowBytes);
    AtAdds(row0 + n, 1, rowBytes);
    AtAdds(row0 + n + 1, t.Height() - row0 - n - 1, rowBytes);
    CutInTwo(remote[t.shard], t.start + from, t.start + mid, t.start + to);
  }

  // Row r as the carve means it, row r % srcRows of shard r / srcRows, is stored.
  ghost predicate RowStored(table: seq<SrcTensor>, srcRows: nat, r: nat)
    requires srcRows > 0
  {
    r / srcRows < |table| && r % srcRows < table[r / srcRows].Height()
  }

  ghost function TableRow(table: seq<SrcTensor>, remote: map<string, Bytes>, srcRows: nat, rowBytes: nat, r: nat): (b: Bytes)
    requires srcRows > 0 && StoredPlane(table, remote, rowBytes) && RowStored(table, srcRows, r)
    ensures |b| == rowBytes
  {
    assert StoredShard(table[r / srcRows], remote, rowBytes);
    ShardRows(table[r / srcRows], remote, rowBytes, r % srcRows, 1)
  }

  // The rows exist.
  ghost predicate InTable(table: seq<SrcTensor>, srcRows: nat, rows: seq<nat>)
    requires srcRows > 0
  {
    forall i :: 0 <= i < |rows| ==> RowStored(table, srcRows, rows[i])
  }

  ghost function TableRows(table: seq<SrcTensor>, remote: map<string, Bytes>, srcRows: nat, rowBytes: nat, rows: seq<nat>): Bytes
    requires srcRows > 0 && StoredPlane(table, remote, rowBytes) && InTable(table, srcRows, rows)
  {
    if rows == [] then []
    else
      TableRows(table, remote, srcRows, rowBytes, rows[..|rows| - 1])
      + TableRow(table, remote, srcRows, rowBytes, rows[|rows| - 1])
  }

  lemma RangeInPart(rows: seq<nat>, part: nat, srcRows: nat, row0: nat, n: nat)
    requires srcRows > 0 && row0 + n <= srcRows && rows == Range(part * srcRows + row0, n)
    ensures forall i :: 0 <= i < n ==> rows[i] / srcRows == part && rows[i] % srcRows == row0 + i
  {
    forall i | 0 <= i < n ensures rows[i] / srcRows == part && rows[i] % srcRows == row0 + i {
      DivModUnique(srcRows, part, row0 + i);
    }
  }

  // One slice's rows are consecutive bytes of one stored shard.
  lemma {:induction false} SliceIsRows(table: seq<SrcTensor>, remote: map<string, Bytes>, srcRows: nat, rowBytes: nat,
                                      part: nat, row0: nat, n: nat)
    requires srcRows > 0 && StoredPlane(table, remote, rowBytes) && part < |table|
    requires row0 + n <= srcRows && row0 + n <= table[part].Height()
    ensures var rows := Range(part * srcRows + row0, n);
            && StoredShard(table[part], remote, rowBytes) && InTable(table, srcRows, rows)
            && TableRows(table, remote, srcRows, rowBytes, rows)
               == ShardRows(table[part], remote, rowBytes, row0, n)
  {
    hide ShardRows, StoredShard;
    var rows := Range(part * srcRows + row0, n);
    assert StoredShard(table[part], remote, rowBytes);
    RangeInPart(rows, part, srcRows, row0, n);
    if n > 0 {
      SliceIsRows(table, remote, srcRows, rowBytes, part, row0, n - 1);
      assert rows[..n - 1] == Range(part * srcRows + row0, n - 1);
      ShardRowsGrow(table[part], remote, rowBytes, row0, n - 1);
    } else {
      NoRows(table[part], remote, rowBytes, row0);
    }
  }

  lemma NoRows(t: SrcTensor, remote: map<string, Bytes>, rowBytes: nat, row0: nat)
    requires StoredShard(t, remote, rowBytes) && row0 <= t.Height()
    ensures ShardRows(t, remote, rowBytes, row0, 0) == []
  {
  }

  lemma {:induction false} TableRowsAppend(table: seq<SrcTensor>, remote: map<string, Bytes>, srcRows: nat, rowBytes: nat,
                                           a: seq<nat>, b: seq<nat>)
    requires srcRows > 0 && StoredPlane(table, remote, rowBytes) && InTable(table, srcRows, a) && InTable(table, srcRows, b)
    ensures InTable(table, srcRows, a + b)
    ensures TableRows(table, remote, srcRows, rowBytes, a + b)
            == TableRows(table, remote, srcRows, rowBytes, a) + TableRows(table, remote, srcRows, rowBytes, b)
  {
    hide StoredPlane, TableRow;
    if b == [] {
      assert a + b == a;
    } else {
      var init := b[..|b| - 1];
      TableRowsAppend(table, remote, srcRows, rowBytes, a, init);
      assert (a + b)[..|a + b| - 1] == a + init;
    }
  }

  // Row i of the concatenation sits at byte i * rowBytes.
  lemma {:induction false} TableRowsAt(table: seq<SrcTensor>, remote: map<string, Bytes>, srcRows: nat, rowBytes: nat,
                                       rows: seq<nat>, i: nat)
    requires srcRows > 0 && StoredPlane(table, remote, rowBytes) && InTable(table, srcRows, rows) && i < |rows|
    ensures var all := TableRows(table, remote, srcRows, rowBytes, rows);
            && |all| == At(|rows|, rowBytes)
            && At(i, rowBytes) + rowBytes <= |all|
            && all[At(i, rowBytes)..At(i, rowBytes) + rowBytes] == TableRow(table, remote, srcRows, rowBytes, rows[i])
  {
    hide StoredPlane, At, TableRow;
    var n := |rows| - 1;
    var init := rows[..n];
    TableRowsLength(table, remote, srcRows, rowBytes, init);
    AtAdds(n, 1, rowBytes);
    var before, last := TableRows(table, remote, srcRows, rowBytes, init), TableRow(table, remote, srcRows, rowBytes, rows[n]);
    if i < n {
      TableRowsAt(table, remote, srcRows, rowBytes, init, i);
      CutInside(before, last, At(i, rowBytes), At(i, rowBytes) + rowBytes);
    } else {
      assert (before + last)[|before|..|before| + rowBytes] == last;
    }
  }

  lemma CutInside(s: Bytes, t: Bytes, from: nat, to: nat)
    requires from <= to <= |s|
    ensures (s + t)[from..to] == s[from..to]
  {
  }

  lemma {:induction false} TableRowsLength(table: seq<SrcTensor>, remote: map<string, Bytes>, srcRows: nat, rowBytes: nat, rows: seq<nat>)
    requires srcRows > 0 && StoredPlane(table, remote, rowBytes) && InTable(table, srcRows, rows)
    ensures |TableRows(table, remote, srcRows, rowBytes, rows)| == At(|rows|, rowBytes)
  {
    hide StoredPlane, TableRow;
    if rows != [] {
      var n := |rows| - 1;
      TableRowsLength(table, remote, srcRows, rowBytes, rows[..n]);
      AtAdds(n, 1, rowBytes);
    }
  }

  // ------------------------------------------------------- joining cached pieces

  // What reading a piece from the cache gives: None for no blob, or too short a one.
  function PieceRows(cache: Cache, piece: Piece): Option<Bytes>
    requires piece.src.start <= piece.src.end
    reads piece.src
  {
    var rowBytes := piece.src.RowBytes();
    if piece.src.CacheKey() !in cache || piece.row0 < piece.src.keepFrom then None
    else
      Cut(cache[piece.src.CacheKey()], At(piece.row0 - piece.src.keepFrom, rowBytes), At(piece.rows, rowBytes))
  }

  // n bytes of a blob, if it has them.
  function Cut(blob: Bytes, from: nat, n: nat): Option<Bytes> {
    if n == 0 then Some([]) else if from + n <= |blob| then Some(blob[from..from + n]) else None
  }

  ghost predicate Sound(pieces: seq<Piece>) {
    forall k :: 0 <= k < |pieces| ==> pieces[k].src.start <= pieces[k].src.end
  }

  ghost function PiecesRows(cache: Cache, pieces: seq<Piece>): Option<Bytes>
    requires Sound(pieces)
    reads set k | 0 <= k < |pieces| :: pieces[k].src
  {
    if pieces == [] then Some([])
    else
      var before := PiecesRows(cache, pieces[..|pieces| - 1]);
      var last := PieceRows(cache, pieces[|pieces| - 1]);
      if before.Some? && last.Some? then Some(before.value + last.value) else None
  }

  lemma PiecesStep(cache: Cache, pieces: seq<Piece>, k: nat)
    requires Sound(pieces) && k < |pieces|
    ensures PiecesRows(cache, pieces[..k + 1])
            == var before, last := PiecesRows(cache, pieces[..k]), PieceRows(cache, pieces[k]);
               if before.Some? && last.Some? then Some(before.value + last.value) else None
  {
    assert pieces[..k + 1][..k] == pieces[..k];
  }

  method ReadPiece(cache: Cache, piece: Piece) returns (r: Option<Bytes>)
    requires piece.src.start <= piece.src.end
    ensures r == PieceRows(cache, piece)
  {
    if piece.src.CacheKey() !in cache || piece.row0 < piece.src.keepFrom {
      return None;
    }
    var chunks := RowsFrom(cache[piece.src.CacheKey()], piece.src.RowBytes(), piece.row0 - piece.src.keepFrom, piece.rows);
    r := if chunks.None? then None else Some(Concat(chunks.value));
  }

  // `joined`, in `output_entry`: the pieces' rows, one piece after another.
  method JoinPieces(cache: Cache, pieces: seq<Piece>) returns (r: Option<Bytes>)
    requires Sound(pieces)
    ensures r == PiecesRows(cache, pieces)
  {
    hide PieceRows;
    var all := [];
    for k := 0 to |pieces|
      invariant PiecesRows(cache, pieces[..k]) == Some(all)
    {
      var rows := ReadPiece(cache, pieces[k]);
      PiecesStep(cache, pieces, k);
      if rows.None? {
        PiecesFail(cache, pieces, k + 1);
        return None;
      }
      all := all + rows.value;
    }
    assert pieces[..|pieces|] == pieces;
    r := Some(all);
  }

  lemma {:induction false} PiecesFail(cache: Cache, pieces: seq<Piece>, k: nat)
    requires Sound(pieces) && k <= |pieces| && PiecesRows(cache, pieces[..k]) == None
    ensures PiecesRows(cache, pieces) == None
    decreases |pieces| - k
  {
    if k == |pieces| {
      assert pieces[..k] == pieces;
    } else {
      assert pieces[..k + 1][..k] == pieces[..k];
      PiecesFail(cache, pieces, k + 1);
    }
  }

  // Rows of a window's blob are rows of the stored shard.
  lemma PieceIsSlice(cache: Cache, t: SrcTensor, remote: map<string, Bytes>, rowBytes: nat,
                     lo: nat, hi: nat, row0: nat, rows: nat)
    requires t.Height() > 0 && StoredShard(t, remote, rowBytes) && Download.WindowCached(cache, t, remote)
    requires t.keepFrom == lo && t.keepRows == Some(hi - lo) && lo <= row0 && row0 + rows <= hi <= t.Height()
    ensures t.RowBytes() == rowBytes
    ensures PieceRows(cache, Piece(t, row0, rows)) == Some(ShardRows(t, remote, rowBytes, row0, rows))
  {
    hide At, SrcTensor.RowBytes, SrcTensor.KeepBytes, SrcTensor.Height, SrcTensor.Fetched;
    WindowEnds(t, rowBytes, lo, hi);
    assert PieceRows(cache, Piece(t, row0, rows)) == Cut(cache[t.CacheKey()], At(row0 - lo, rowBytes), At(rows, rowBytes));
    RowsInWindow(t, rowBytes, lo, hi, row0, rows);
    CutWithin(remote[t.shard], t.start + At(lo, rowBytes), t.start + At(hi, rowBytes), At(row0 - lo, rowBytes), At(rows, rowBytes));
  }

  // Where a piece's rows lie in its window, and in the shard.
  lemma RowsInWindow(t: SrcTensor, rowBytes: nat, lo: nat, hi: nat, row0: nat, rows: nat)
    requires lo <= row0 && row0 + rows <= hi <= t.Height()
    ensures At(lo, rowBytes) + At(row0 - lo, rowBytes) == At(row0, rowBytes)
    ensures At(row0, rowBytes) + At(rows, rowBytes) == At(row0 + rows, rowBytes) <= At(hi, rowBytes)
  {
    AtAdds(lo, row0 - lo, rowBytes);
    AtAdds(row0, rows, rowBytes);
    AtAdds(row0 + rows, hi - row0 - rows, rowBytes);
  }

  lemma CutWithin(b: Bytes, lo: nat, hi: nat, from: nat, n: nat)
    requires lo + from + n <= hi <= |b|
    ensures b[lo..hi][from..from + n] == b[lo + from..lo + from + n]
  {
    var window, direct := b[lo..hi][from..from + n], b[lo + from..lo + from + n];
    forall i | 0 <= i < n ensures window[i] == direct[i] {
      assert b[lo..hi][from + i] == b[lo + from + i];
    }
  }

  // One row of a whole shard's rows.
  lemma LocalRow(t: SrcTensor, remote: map<string, Bytes>, rowBytes: nat, local: nat)
    requires StoredShard(t, remote, rowBytes) && local < t.Height()
    ensures At(local, rowBytes) + rowBytes <= |ShardRows(t, remote, rowBytes, 0, t.Height())|
    ensures ShardRows(t, remote, rowBytes, 0, t.Height())[At(local, rowBytes)..At(local, rowBytes) + rowBytes]
            == ShardRows(t, remote, rowBytes, local, 1)
  {
    AtAdds(0, 0, rowBytes);
    AtAdds(local, 1, rowBytes);
    AtAdds(local + 1, t.Height() - local - 1, rowBytes);
    CutWithin(remote[t.shard], t.start, t.start + At(t.Height(), rowBytes), At(local, rowBytes), rowBytes);
  }

  // A window's byte range, counted in rows.
  lemma WindowEnds(t: SrcTensor, rowBytes: nat, lo: nat, hi: nat)
    requires t.Height() > 0 && t.end - t.start == t.Height() * rowBytes
    requires t.keepFrom == lo && t.keepRows == Some(hi - lo) && lo <= hi <= t.Height()
    ensures t.RowBytes() == rowBytes
    ensures t.Fetched().lo == t.start + At(lo, rowBytes) && t.Fetched().hi == t.start + At(hi, rowBytes)
  {
    assert t.end - t.start == rowBytes * t.Height() + 0;
    DivModUnique(t.Height(), rowBytes, 0);
    AtAdds(lo, hi - lo, rowBytes);
    assert t.KeepBytes() == At(hi - lo, rowBytes);
  }

  // A window whose rows the shard has lies in the file.
  lemma WindowInside(t: SrcTensor, remote: map<string, Bytes>, rowBytes: nat, lo: nat, hi: nat)
    requires StoredShard(t, remote, rowBytes) && lo <= hi <= t.Height()
    requires t.keepFrom == lo && t.keepRows == Some(hi - lo)
    ensures t.Fetched().Got(remote[t.shard]).Some?
  {
    if t.Height() > 0 {
      WindowEnds(t, rowBytes, lo, hi);
      AtAdds(lo, hi - lo, rowBytes);
      AtAdds(hi, t.Height() - hi, rowBytes);
    }
  }

  // Two windowed tensors share a blob only with one safe name and one window.
  lemma WindowedKeysMeet(t: SrcTensor, u: SrcTensor)
    requires t.keepRows.Some? && u.keepRows.Some? && t.CacheKey() == u.CacheKey()
    ensures Safe(t.name) == Safe(u.name) && t.keepFrom == u.keepFrom && t.keepRows == u.keepRows
  {
    hide KeyText;
    KeysMeet(t.name, Some((t.keepFrom, t.keepRows.value)), u.name, Some((u.keepFrom, u.keepRows.value)));
  }

  // Every window lies inside its shard.
  ghost predicate WindowsReach(table: seq<SrcTensor>, windows: map<nat, (nat, nat)>) {
    forall part :: part in windows ==> part < |table| && windows[part].1 <= table[part].Height()
  }

  // The conditions a carved plane is written under.
  ghost predicate Ready(cache: Cache, table: seq<SrcTensor>, remote: map<string, Bytes>, rowBytes: nat,
                        windows: map<nat, (nat, nat)>)
    reads table
  {
    && StoredPlane(table, remote, rowBytes) && Windowed(table, windows) && WindowsReach(table, windows)
    && forall part :: part in windows ==>
                        table[part].shard in remote && Download.WindowCached(cache, table[part], remote)
  }

  ghost predicate SliceOk(s: Slice, srcRows: nat, windows: map<nat, (nat, nat)>, parts: nat) {
    InWindow(windows, s) && s.part < parts && windows[s.part].0 < windows[s.part].1 <= srcRows
  }

  ghost predicate SlicesOk(slices: seq<Slice>, srcRows: nat, windows: map<nat, (nat, nat)>, parts: nat) {
    forall k :: 0 <= k < |slices| ==> SliceOk(slices[k], srcRows, windows, parts)
  }

  // The window a slice is read through.
  lemma WindowOfSlice(cache: Cache, table: seq<SrcTensor>, remote: map<string, Bytes>, srcRows: nat, rowBytes: nat,
                      windows: map<nat, (nat, nat)>, s: Slice)
    requires srcRows > 0 && Ready(cache, table, remote, rowBytes, windows) && SliceOk(s, srcRows, windows, |table|)
    ensures s.part < |table| && s.part in windows && StoredPlane(table, remote, rowBytes)
    ensures var (t, w) := (table[s.part], windows[s.part]);
            && t.Height() > 0 && StoredShard(t, remote, rowBytes) && t.start <= t.end
            && t.shard in remote && Download.WindowCached(cache, t, remote)
            && w.0 <= w.1 && t.keepFrom == w.0 && t.keepRows == Some(w.1 - w.0)
            && w.0 <= s.row0 && s.row0 + s.rows <= w.1 <= t.Height() && w.1 <= srcRows
  {
    hide Download.WindowCached;
    assert StoredShard(table[s.part], remote, rowBytes);
  }

  // Reading a piece gives these rows of the table.
  ghost predicate PieceReads(cache: Cache, piece: Piece, table: seq<SrcTensor>, remote: map<string, Bytes>, srcRows: nat, rowBytes: nat,
                             rows: seq<nat>)
    requires srcRows > 0 && StoredPlane(table, remote, rowBytes) && piece.src.start <= piece.src.end
    reads piece.src
  {
    InTable(table, srcRows, rows) && PieceRows(cache, piece) == Some(TableRows(table, remote, srcRows, rowBytes, rows))
  }

  lemma PieceOfSlice(cache: Cache, table: seq<SrcTensor>, remote: map<string, Bytes>, srcRows: nat, rowBytes: nat,
                     windows: map<nat, (nat, nat)>, s: Slice)
    requires srcRows > 0 && Ready(cache, table, remote, rowBytes, windows) && SliceOk(s, srcRows, windows, |table|)
    ensures s.part < |table| && table[s.part].start <= table[s.part].end
    ensures PieceReads(cache, Piece(table[s.part], s.row0, s.rows), table, remote, srcRows, rowBytes,
                       SliceRows(s, srcRows))
  {
    hide StoredPlane, StoredShard, Ready, SliceOk, InTable, TableRows, PieceRows, ShardRows, Range, Download.WindowCached;
    WindowOfSlice(cache, table, remote, srcRows, rowBytes, windows, s);
    PieceIsSlice(cache, table[s.part], remote, rowBytes,
                 windows[s.part].0, windows[s.part].1, s.row0, s.rows);
    SliceIsRows(table, remote, srcRows, rowBytes, s.part, s.row0, s.rows);
  }

  lemma PiecesSound(table: seq<SrcTensor>, remote: map<string, Bytes>, srcRows: nat, rowBytes: nat,
                    windows: map<nat, (nat, nat)>, slices: seq<Slice>)
    requires srcRows > 0 && StoredPlane(table, remote, rowBytes) && SlicesOk(slices, srcRows, windows, |table|)
    ensures (forall k :: 0 <= k < |slices| ==> slices[k].part < |table|) && Sound(PiecesOf(slices, table))
  {
    forall k | 0 <= k < |slices| ensures slices[k].part < |table| && table[slices[k].part].start <= table[slices[k].part].end {
      assert SliceOk(slices[k], srcRows, windows, |table|);
      assert StoredShard(table[slices[k].part], remote, rowBytes);
    }
  }

  // What the pieces of the first n slices read back as.
  ghost predicate ReadsBack(cache: Cache, table: seq<SrcTensor>, remote: map<string, Bytes>, srcRows: nat, rowBytes: nat,
                            slices: seq<Slice>, pieces: seq<Piece>)
    requires srcRows > 0 && StoredPlane(table, remote, rowBytes) && Sound(pieces)
    reads set k | 0 <= k < |pieces| :: pieces[k].src
  {
    && InTable(table, srcRows, RowsOf(slices, srcRows))
    && PiecesRows(cache, pieces) == Some(TableRows(table, remote, srcRows, rowBytes, RowsOf(slices, srcRows)))
  }

  lemma ReadsBackStep(cache: Cache, table: seq<SrcTensor>, remote: map<string, Bytes>, srcRows: nat, rowBytes: nat,
                      windows: map<nat, (nat, nat)>, slices: seq<Slice>, pieces: seq<Piece>, n: nat)
    requires srcRows > 0 && Ready(cache, table, remote, rowBytes, windows) && n < |slices| == |pieces|
    requires SliceOk(slices[n], srcRows, windows, |table|)
    requires Sound(pieces) && pieces[n] == Piece(table[slices[n].part], slices[n].row0, slices[n].rows)
    requires ReadsBack(cache, table, remote, srcRows, rowBytes, slices[..n], pieces[..n])
    ensures ReadsBack(cache, table, remote, srcRows, rowBytes, slices[..n + 1], pieces[..n + 1])
  {
    hide TableRow, PieceRows, Windowed, StoredShard, InWindow;
    var s := slices[n];
    PieceOfSlice(cache, table, remote, srcRows, rowBytes, windows, s);
    PiecesStep(cache, pieces, n);
    assert slices[..n + 1] == slices[..n] + [s];
    RowsOfAppend(slices[..n], s, srcRows);
    TableRowsAppend(table, remote, srcRows, rowBytes, RowsOf(slices[..n], srcRows), SliceRows(s, srcRows));
  }

  // The pieces of any slices inside their windows are those slices' rows.
  lemma {:induction false} PiecesAreRows(cache: Cache, table: seq<SrcTensor>, remote: map<string, Bytes>, srcRows: nat, rowBytes: nat,
                                         windows: map<nat, (nat, nat)>, slices: seq<Slice>, n: nat)
    requires srcRows > 0 && Ready(cache, table, remote, rowBytes, windows) && SlicesOk(slices, srcRows, windows, |table|)
    requires n <= |slices|
    ensures (forall k :: 0 <= k < |slices| ==> slices[k].part < |table|) && Sound(PiecesOf(slices, table))
    ensures ReadsBack(cache, table, remote, srcRows, rowBytes, slices[..n], PiecesOf(slices, table)[..n])
  {
    hide TableRow, PieceRows, Windowed, StoredShard, InWindow;
    PiecesSound(table, remote, srcRows, rowBytes, windows, slices);
    if n > 0 {
      PiecesAreRows(cache, table, remote, srcRows, rowBytes, windows, slices, n - 1);
      ReadsBackStep(cache, table, remote, srcRows, rowBytes, windows, slices, PiecesOf(slices, table), n - 1);
    }
  }
}

// From the remote shards to the file a reader opens: output row dstOffsets[h] + i
// is byte for byte source row srcOffsets[h] + i.

module EndToEnd {
  import opened Wrappers
  import opened Tensors
  import opened Arithmetic
  import opened PleCarve
  import opened PlePlan
  import opened CarvedPlane
  import Download
  import Safetensors

  // Output row at is row at % dstRows of shard at / dstRows.
  lemma {:induction false} LayoutRowAt(layout: seq<seq<Slice>>, srcRows: nat, dstRows: nat, p: nat, r: nat)
    requires p < |layout| && r < dstRows
    requires forall s :: 0 <= s < |layout| ==> |RowsOf(layout[s], srcRows)| == dstRows
    ensures At(p, dstRows) + r < |LayoutRows(layout, srcRows)|
    ensures LayoutRows(layout, srcRows)[At(p, dstRows) + r] == RowsOf(layout[p], srcRows)[r]
  {
    hide RowsOf;
    var n := |layout| - 1;
    LayoutLength(layout[..n], srcRows, dstRows);
    if p < n {
      LayoutRowAt(layout[..n], srcRows, dstRows, p, r);
    }
  }

  lemma {:induction false} LayoutLength(layout: seq<seq<Slice>>, srcRows: nat, dstRows: nat)
    requires forall s :: 0 <= s < |layout| ==> |RowsOf(layout[s], srcRows)| == dstRows
    ensures |LayoutRows(layout, srcRows)| == At(|layout|, dstRows)
  {
    hide RowsOf;
    if layout != [] {
      var n := |layout| - 1;
      LayoutLength(layout[..n], srcRows, dstRows);
      AtAdds(n, 1, dstRows);
    }
  }

  lemma CarveSlicesOk(c: Carve, p: nat)
    requires Faithful(c) && p < c.dstParts
    ensures SlicesOk(c.layout[p], c.SrcRows(), c.windows, c.srcParts)
  {
    hide RowsOf, LayoutRows, SameRows;
    forall k | 0 <= k < |c.layout[p]| ensures SliceOk(c.layout[p][k], c.SrcRows(), c.windows, c.srcParts) {
      var s := c.layout[p][k];
      assert SliceFits(c, s);
      assert WindowFits(c, s.part, LayoutRows(c.layout, c.SrcRows()));
    }
  }

  // The bytes written for output shard p are the bytes of the rows planned for it.
  lemma ShardBytes(c: Carve, cache: Cache, table: seq<SrcTensor>, remote: map<string, Bytes>, rowBytes: nat, p: nat)
    requires Faithful(c) && |table| == c.srcParts && p < c.dstParts
    requires Ready(cache, table, remote, rowBytes, c.windows)
    ensures SlicesNamed(c, p) && Sound(PiecesOf(c.layout[p], table))
    ensures InTable(table, c.SrcRows(), RowsOf(c.layout[p], c.SrcRows()))
    ensures PiecesRows(cache, PiecesOf(c.layout[p], table))
            == Some(TableRows(table, remote, c.SrcRows(), rowBytes, RowsOf(c.layout[p], c.SrcRows())))
  {
    CarveNamesParts(c);
    CarveSlicesOk(c, p);
    hide Faithful, RowsOf, SlicesOk, TableRows, Ready;
    var slices := c.layout[p];
    PiecesAreRows(cache, table, remote, c.SrcRows(), rowBytes, c.windows, slices, |slices|);
    assert slices[..|slices|] == slices;
    assert PiecesOf(slices, table)[..|slices|] == PiecesOf(slices, table);
  }

  // Row r of output shard p is head h's row i.
  ghost predicate IsHeadRow(c: Carve, h: nat, i: nat, p: nat, r: nat)
    requires Faithful(c)
  {
    && h < c.heads && i < Wanted(c.dstPrimes, c.dstPadded, h)
    && r < c.DstRows() && c.dstOffsets[h] + i == At(p, c.DstRows()) + r
  }

  // The source row it stands for.
  ghost function SourceRow(c: Carve, h: nat, i: nat): (row: nat)
    requires Faithful(c) && h < c.heads && i < Wanted(c.dstPrimes, c.dstPadded, h)
    ensures row < c.srcPadded
  {
    assert RowIs(c, LayoutRows(c.layout, c.SrcRows()), h, i);
    HeadStart(c, h);
    c.srcOffsets[h] + i
  }

  lemma HeadStart(c: Carve, h: nat)
    requires Faithful(c) && h < c.heads && Wanted(c.dstPrimes, c.dstPadded, h) > 0
    ensures c.srcOffsets[h] >= 0
  {
    var rows := LayoutRows(c.layout, c.SrcRows());
    assert RowIs(c, rows, h, 0);
  }

  lemma HeadRowPlace(c: Carve, h: nat, i: nat, p: nat, r: nat)
    requires Faithful(c) && IsHeadRow(c, h, i, p, r)
    ensures p < c.dstParts && r < |RowsOf(c.layout[p], c.SrcRows())| == c.DstRows()
    ensures RowsOf(c.layout[p], c.SrcRows())[r] == SourceRow(c, h, i)
  {
    hide RowsOf, LayoutRows;
    assert RowIs(c, LayoutRows(c.layout, c.SrcRows()), h, i);
    ShardIndex(p, c.dstParts, c.dstOffsets[h] + i, c.DstRows());
    LayoutRowAt(c.layout, c.SrcRows(), c.DstRows(), p, r);
  }

  // `written` is what `JoinPieces` makes of output shard p.
  ghost predicate Written(c: Carve, cache: Cache, table: seq<SrcTensor>, p: nat, written: Bytes)
    requires |table| == c.srcParts && SlicesNamed(c, p) && Sound(PiecesOf(c.layout[p], table))
    reads table
  {
    PiecesRows(cache, PiecesOf(c.layout[p], table)) == Some(written)
  }

  // The carve as written: wherever head h's row i lands in the output, its bytes are
  // those of head h's row i in the source, padding rows included.
  lemma CarvedRowBytes(c: Carve, cache: Cache, table: seq<SrcTensor>, remote: map<string, Bytes>, rowBytes: nat,
                       h: nat, i: nat, p: nat, r: nat)
    returns (written: Bytes)
    requires Faithful(c) && |table| == c.srcParts && IsHeadRow(c, h, i, p, r)
    requires Ready(cache, table, remote, rowBytes, c.windows)
    ensures SlicesNamed(c, p) && Sound(PiecesOf(c.layout[p], table)) && Written(c, cache, table, p, written)
    ensures |written| == At(c.DstRows(), rowBytes) && At(r, rowBytes) + rowBytes <= |written|
    ensures RowStored(table, c.SrcRows(), SourceRow(c, h, i))
    ensures written[At(r, rowBytes)..At(r, rowBytes) + rowBytes]
            == TableRow(table, remote, c.SrcRows(), rowBytes, SourceRow(c, h, i))
  {
    HeadRowPlace(c, h, i, p, r);
    ShardBytes(c, cache, table, remote, rowBytes, p);
    hide RowsOf, TableRow, TableRows, At, PiecesRows, PiecesOf, SourceRow;
    var rows := RowsOf(c.layout[p], c.SrcRows());
    written := TableRows(table, remote, c.SrcRows(), rowBytes, rows);
    TableRowsAt(table, remote, c.SrcRows(), rowBytes, rows, r);
  }

  // Any stretch of an entry's bytes, found in the file by the header's offset.
  lemma StretchReadsBack(codec: Safetensors.Codec, entries: seq<Safetensors.Entry>, k: nat, from: nat, n: nat)
    requires codec.Lossless() && Safetensors.Writable(codec, entries) && Safetensors.NamesDistinct(entries)
    requires k < |entries| && entries[k].name != "__metadata__" && from + n <= |entries[k].Content()|
    ensures var file := Safetensors.FileOf(codec, entries);
            var found := Safetensors.ReadHeader(codec, file);
            && found.Some? && entries[k].name in found.value
            && var at := found.value[entries[k].name].start + from;
            && at + n <= |file| && file[at..at + n] == entries[k].Content()[from..from + n]
  {
    Safetensors.ReadsWhatWasWritten(codec, entries, k);
    var at := Safetensors.FoundAt(codec, entries, k);
    CutWithin(Safetensors.FileOf(codec, entries), at.start, at.end, from, n);
  }

  // ... and as read back: in any file that holds output shard p, a reader going by
  // the header finds head h's source row at row r of the tensor.
  lemma CarvedRowReadsBack(c: Carve, cache: Cache, table: seq<SrcTensor>, remote: map<string, Bytes>, rowBytes: nat,
                           h: nat, i: nat, p: nat, r: nat,
                           codec: Safetensors.Codec, entries: seq<Safetensors.Entry>, k: nat)
    requires Faithful(c) && |table| == c.srcParts && IsHeadRow(c, h, i, p, r)
    requires Ready(cache, table, remote, rowBytes, c.windows)
    requires codec.Lossless() && Safetensors.Writable(codec, entries) && Safetensors.NamesDistinct(entries)
    requires k < |entries| && entries[k].name != "__metadata__"
    requires SlicesNamed(c, p) && Sound(PiecesOf(c.layout[p], table)) && Written(c, cache, table, p, entries[k].Content())
    ensures RowStored(table, c.SrcRows(), SourceRow(c, h, i))
    ensures var file := Safetensors.FileOf(codec, entries);
            var found := Safetensors.ReadHeader(codec, file);
            && found.Some? && entries[k].name in found.value
            && var at := found.value[entries[k].name].start + At(r, rowBytes);
            && at + rowBytes <= |file|
            && file[at..at + rowBytes] == TableRow(table, remote, c.SrcRows(), rowBytes, SourceRow(c, h, i))
  {
    hide PiecesRows, PiecesOf, TableRow, At, SourceRow, Ready, IsHeadRow,
         Safetensors.ReadHeader, Safetensors.FileOf, Safetensors.Writable, Safetensors.NamesDistinct;
    var written := CarvedRowBytes(c, cache, table, remote, rowBytes, h, i, p, r);
    StretchReadsBack(codec, entries, k, At(r, rowBytes), rowBytes);
  }

  // ------------------------------------------------------------- the whole pipeline

  // The range asked for is the window's rows exactly when the shard has them all. Where it
  // has not, a window from its first row on gets the whole tensor and no more, and one
  // that starts further down takes the bytes after the tensor with it.
  lemma RangeReaches(t: SrcTensor, remote: map<string, Bytes>, rowBytes: nat, lo: nat, hi: nat)
    requires t.Height() > 0 && rowBytes > 0 && StoredShard(t, remote, rowBytes) && lo < hi
    requires t.keepFrom == lo && t.keepRows == Some(hi - lo)
    ensures t.RowBytes() == rowBytes
    ensures t.Fetched().hi - t.Fetched().lo == At(hi - lo, rowBytes) && t.Fetched().hi <= t.end <==> hi <= t.Height()
    ensures hi > t.Height() ==> if lo == 0 then t.Fetched().lo == t.start && t.Fetched().hi == t.end else t.Fetched().hi > t.end
  {
    hide SrcTensor.Fetched, SrcTensor.RowBytes, SrcTensor.Height, At;
    RangeOfWindow(t, rowBytes, lo, hi);
    AtOrder(t.Height(), hi, rowBytes);
    AtOrder(hi, t.Height(), rowBytes);
    AtAdds(lo, hi - lo, rowBytes);
    AtAdds(0, 0, rowBytes);
  }

  // Of that whole tensor no row past its last can be read.
  lemma RowsRunOut(cache: Cache, t: SrcTensor, remote: map<string, Bytes>, rowBytes: nat, hi: nat, row0: nat, rows: nat)
    requires t.Height() > 0 && rowBytes > 0 && StoredShard(t, remote, rowBytes) && Download.WindowCached(cache, t, remote)
    requires t.keepFrom == 0 && t.keepRows == Some(hi) && hi > t.Height() && rows > 0 && row0 + rows > t.Height()
    ensures PieceRows(cache, Piece(t, row0, rows)) == None
  {
    hide SrcTensor.Fetched, SrcTensor.RowBytes, SrcTensor.Height, At;
    RangeReaches(t, remote, rowBytes, 0, hi);
    assert PieceRows(cache, Piece(t, row0, rows)) == CarvedPlane.Cut(cache[t.CacheKey()], At(row0, rowBytes), At(rows, rowBytes));
    RangeOfWindow(t, rowBytes, 0, hi);
    AtOrder(t.Height(), row0 + rows, rowBytes);
    AtAdds(row0, rows, rowBytes);
    AtOrder(0, rows, rowBytes);
    AtAdds(0, 0, rowBytes);
  }

  lemma RangeOfWindow(t: SrcTensor, rowBytes: nat, lo: nat, hi: nat)
    requires t.Height() > 0 && t.end - t.start == t.Height() * rowBytes && lo <= hi
    requires t.keepFrom == lo && t.keepRows == Some(hi - lo)
    ensures t.RowBytes() == rowBytes && t.end == t.start + At(t.Height(), rowBytes)
    ensures t.Fetched().lo == t.start + At(lo, rowBytes)
    ensures t.Fetched().hi == if lo == 0 && t.Height() <= hi then t.end else t.start + At(hi, rowBytes)
  {
    assert t.end - t.start == rowBytes * t.Height() + 0;
    DivModUnique(t.Height(), rowBytes, 0);
    hide SrcTensor.RowBytes;
    AtAdds(lo, hi - lo, rowBytes);
    AtMeans(hi - lo, rowBytes);
    AtMeans(lo, rowBytes);
    AtMeans(t.Height(), rowBytes);
    hide At;
  }

  // The plane's shards are told apart by what the cache makes of their names.
  ghost predicate NamesApart(table: seq<SrcTensor>) {
    forall i, j :: 0 <= i < j < |table| ==> Safe(table[i].name) != Safe(table[j].name)
  }

  // The tensors with a window, and no other.
  ghost predicate AreMarked(ts: seq<SrcTensor>, table: seq<SrcTensor>, windows: map<nat, (nat, nat)>, n: nat)
    requires n <= |table|
  {
    && (forall k :: 0 <= k < |ts| ==> IsMarked(ts[k], table, windows, n))
    && (forall part :: 0 <= part < n && part in windows ==> table[part] in ts)
  }

  ghost predicate IsMarked(t: SrcTensor, table: seq<SrcTensor>, windows: map<nat, (nat, nat)>, n: nat)
    requires n <= |table|
  {
    exists part: nat :: part < n && part in windows && table[part] == t
  }

  method Marked(table: seq<SrcTensor>, windows: map<nat, (nat, nat)>) returns (ts: seq<SrcTensor>)
    ensures AreMarked(ts, table, windows, |table|)
  {
    ts := [];
    for part := 0 to |table|
      invariant AreMarked(ts, table, windows, part)
    {
      OneMoreMarked(ts, table, windows, part);
      if part in windows {
        ts := ts + [table[part]];
      }
    }
  }

  lemma OneMoreMarked(ts: seq<SrcTensor>, table: seq<SrcTensor>, windows: map<nat, (nat, nat)>, part: nat)
    requires part < |table| && AreMarked(ts, table, windows, part)
    ensures AreMarked(if part in windows then ts + [table[part]] else ts, table, windows, part + 1)
  {
    var now := if part in windows then ts + [table[part]] else ts;
    forall k | 0 <= k < |now| ensures IsMarked(now[k], table, windows, part + 1) {
      if k < |ts| {
        assert IsMarked(ts[k], table, windows, part);
      }
    }
  }

  // Windowed tensors with names apart are cached apart.
  lemma MarkedAreAskable(ts: seq<SrcTensor>, table: seq<SrcTensor>, remote: map<string, Bytes>, rowBytes: nat,
                         windows: map<nat, (nat, nat)>)
    requires StoredPlane(table, remote, rowBytes) && Windowed(table, windows) && NamesApart(table)
    requires AreMarked(ts, table, windows, |table|)
    ensures Download.Askable(ts, remote)
  {
    hide SrcTensor.CacheKey, SrcTensor.Fetched;
    forall k | 0 <= k < |ts| ensures ts[k].shard in remote && ts[k].start <= ts[k].end {
      assert IsMarked(ts[k], table, windows, |table|);
    }
    forall j, k | 0 <= j < |ts| && 0 <= k < |ts| && ts[j].CacheKey() == ts[k].CacheKey() ensures ts[j] == ts[k] {
      assert IsMarked(ts[j], table, windows, |table|) && IsMarked(ts[k], table, windows, |table|);
      WindowedKeysMeet(ts[j], ts[k]);
    }
  }

  // Everything the plane needs is in the cache. None is a window past the end of its file.
  method FetchWindows(remote: map<string, Bytes>, table: seq<SrcTensor>, windows: map<nat, (nat, nat)>,
                      ghost rowBytes: nat) returns (r: Option<Cache>)
    requires StoredPlane(table, remote, rowBytes) && Windowed(table, windows) && NamesApart(table)
    ensures r.Some? ==> AllFetched(r.value, table, remote, windows)
    ensures WindowsReach(table, windows) ==> r.Some? && Ready(r.value, table, remote, rowBytes, windows)
  {
    hide *;
    var ts := Marked(table, windows);
    MarkedAreAskable(ts, table, remote, rowBytes, windows);
    r := Download.FetchAll(remote, ts);
    FetchedAll(r, ts, table, remote, rowBytes, windows);
  }

  ghost predicate AllFetched(cache: Cache, table: seq<SrcTensor>, remote: map<string, Bytes>, windows: map<nat, (nat, nat)>)
    reads table
  {
    forall part :: part in windows ==>
                     part < |table| && table[part].shard in remote && Download.WindowCached(cache, table[part], remote)
  }

  lemma FetchedAll(r: Option<Cache>, ts: seq<SrcTensor>, table: seq<SrcTensor>, remote: map<string, Bytes>, rowBytes: nat,
                   windows: map<nat, (nat, nat)>)
    requires StoredPlane(table, remote, rowBytes) && Windowed(table, windows) && AreMarked(ts, table, windows, |table|)
    requires Download.Askable(ts, remote)
    requires r.Some? <==> forall k :: 0 <= k < |ts| ==> ts[k].Fetched().Got(remote[ts[k].shard]).Some?
    requires r.Some? ==> forall k :: 0 <= k < |ts| ==> Download.WindowCached(r.value, ts[k], remote)
    ensures r.Some? ==> AllFetched(r.value, table, remote, windows)
    ensures WindowsReach(table, windows) ==> r.Some? && Ready(r.value, table, remote, rowBytes, windows)
  {
    hide Download.WindowCached, Download.Askable, SrcTensor.Fetched, SrcTensor.Height, StoredPlane, StoredShard;
    if r.Some? {
      forall part | part in windows ensures table[part].shard in remote && Download.WindowCached(r.value, table[part], remote) {
        assert table[part] in ts;
        var k :| 0 <= k < |ts| && ts[k] == table[part];
        MarkedShard(ts, remote, k);
      }
    }
    if WindowsReach(table, windows) {
      forall k | 0 <= k < |ts| ensures ts[k].shard in remote && ts[k].Fetched().Got(remote[ts[k].shard]).Some? {
        assert IsMarked(ts[k], table, windows, |table|);
        var part: nat :| part < |table| && part in windows && table[part] == ts[k];
        OneStored(table, remote, rowBytes, part);
        WindowInside(ts[k], remote, rowBytes, windows[part].0, windows[part].1);
      }
    }
  }

  lemma MarkedShard(ts: seq<SrcTensor>, remote: map<string, Bytes>, k: nat)
    requires Download.Askable(ts, remote) && k < |ts|
    ensures ts[k].shard in remote
  {
  }

  lemma OneStored(table: seq<SrcTensor>, remote: map<string, Bytes>, rowBytes: nat, part: nat)
    requires StoredPlane(table, remote, rowBytes) && part < |table|
    ensures StoredShard(table[part], remote, rowBytes) && table[part].shard in remote
  {
  }

  // Row r of what is written for an output shard is head h's source row i.
  ghost predicate RowWritten(c: Carve, table: seq<SrcTensor>, remote: map<string, Bytes>, rowBytes: nat,
                             written: Bytes, h: nat, i: nat, r: nat)
    requires Faithful(c) && StoredPlane(table, remote, rowBytes)
    requires h < c.heads && i < Wanted(c.dstPrimes, c.dstPadded, h)
  {
    && At(r, rowBytes) + rowBytes <= |written|
    && RowStored(table, c.SrcRows(), SourceRow(c, h, i))
    && written[At(r, rowBytes)..At(r, rowBytes) + rowBytes]
       == TableRow(table, remote, c.SrcRows(), rowBytes, SourceRow(c, h, i))
  }

  // Output shard p, written out: every row of every head that lands in it.
  ghost predicate RowsWritten(c: Carve, table: seq<SrcTensor>, remote: map<string, Bytes>, rowBytes: nat, p: nat, written: Bytes)
    requires Faithful(c) && StoredPlane(table, remote, rowBytes)
  {
    forall h: nat, i: nat, r: nat :: IsHeadRow(c, h, i, p, r) ==> RowWritten(c, table, remote, rowBytes, written, h, i, r)
  }

  lemma AllRowsWritten(c: Carve, cache: Cache, table: seq<SrcTensor>, remote: map<string, Bytes>, rowBytes: nat, p: nat, written: Bytes)
    requires Faithful(c) && |table| == c.srcParts && p < c.dstParts
    requires Ready(cache, table, remote, rowBytes, c.windows)
    requires SlicesNamed(c, p) && Sound(PiecesOf(c.layout[p], table)) && Written(c, cache, table, p, written)
    ensures RowsWritten(c, table, remote, rowBytes, p, written)
  {
    hide PiecesRows, PiecesOf, TableRow, At, SourceRow;
    forall h: nat, i: nat, r: nat | IsHeadRow(c, h, i, p, r)
      ensures RowWritten(c, table, remote, rowBytes, written, h, i, r)
    {
      var same := CarvedRowBytes(c, cache, table, remote, rowBytes, h, i, p, r);
    }
  }

  // One output shard of a planned plane, written from the cache. None is a window that
  // holds too little.
  method WriteShard(cache: Cache, ot: OutTensor, ghost c: Carve, ghost table: seq<SrcTensor>,
                    ghost remote: map<string, Bytes>, ghost rowBytes: nat, ghost p: nat)
    returns (written: Option<Bytes>)
    requires Faithful(c) && |table| == c.srcParts && p < c.dstParts && Planned(ot, table, c, p)
    requires StoredPlane(table, remote, rowBytes)
    ensures Ready(cache, table, remote, rowBytes, c.windows) ==>
              written.Some? && RowsWritten(c, table, remote, rowBytes, p, written.value)
  {
    PlannedIsSound(ot, table, c, remote, rowBytes, p);
    written := JoinPieces(cache, ot.pieces.value);
    if Ready(cache, table, remote, rowBytes, c.windows) {
      ShardBytes(c, cache, table, remote, rowBytes, p);
      hide PiecesOf, TableRows, Ready, RowsOf, Faithful;
      AllRowsWritten(c, cache, table, remote, rowBytes, p, written.value);
    }
  }

  lemma PlannedIsSound(ot: OutTensor, table: seq<SrcTensor>, c: Carve, remote: map<string, Bytes>, rowBytes: nat, p: nat)
    requires c.dstParts > 0 && |table| == c.srcParts && Planned(ot, table, c, p) && StoredPlane(table, remote, rowBytes)
    ensures ot.pieces.Some? && Sound(ot.pieces.value)
  {
    forall k | 0 <= k < |c.layout[p]| ensures table[c.layout[p][k].part].start <= table[c.layout[p][k].part].end {
      assert StoredShard(table[c.layout[p][k].part], remote, rowBytes);
    }
  }

  method WriteShards(cache: Cache, outs: seq<OutTensor>, c: Carve, ghost table: seq<SrcTensor>,
                     ghost remote: map<string, Bytes>, ghost rowBytes: nat)
    returns (all: Option<seq<Bytes>>)
    requires Faithful(c) && |outs| <= c.dstParts && |table| == c.srcParts
    requires forall p :: 0 <= p < |outs| ==> Planned(outs[p], table, c, p)
    requires StoredPlane(table, remote, rowBytes)
    ensures all.Some? ==> |all.value| == |outs|
    ensures Ready(cache, table, remote, rowBytes, c.windows) ==>
              all.Some? && forall p :: 0 <= p < |outs| ==> RowsWritten(c, table, remote, rowBytes, p, all.value[p])
  {
    hide RowsWritten, Planned, Ready, StoredPlane;
    var done := [];
    for p := 0 to |outs|
      invariant |done| == p
      invariant Ready(cache, table, remote, rowBytes, c.windows) ==>
                  forall q :: 0 <= q < p ==> RowsWritten(c, table, remote, rowBytes, q, done[q])
    {
      var bytes := WriteShard(cache, outs[p], c, table, remote, rowBytes, p);
      if bytes.None? {
        return None;
      }
      done := done + [bytes.value];
    }
    all := Some(done);
  }

  // Why a plane is not built: a stand-in of the wrong height, a window past the end of
  // its file, a window that holds fewer rows than the plan reads.
  datatype Failure = WrongHeight | ShortRead | RanOut

  // Plan applied, windows fetched, pieces joined. The first shards stand for the outputs
  // and are the only ones whose height is looked at; where every window lies inside its
  // shard the plane comes out as the carve means it.
  method BuildPlane(remote: map<string, Bytes>, outs: seq<OutTensor>, table: seq<SrcTensor>, c: Carve, ghost rowBytes: nat)
    returns (r: Result<seq<Bytes>, Failure>)
    requires Faithful(c) && |outs| == Min(c.dstParts, c.srcParts) && |table| == c.srcParts
    requires forall p :: 0 <= p < |outs| ==> outs[p].src == table[p]
    requires AllDistinct(outs) && AllDistinct(table) && NamesApart(table)
    requires StoredPlane(table, remote, rowBytes)
    modifies outs, table
    ensures r == Err(WrongHeight) <==> !CheckedTall(table, |outs|, c)
    ensures CheckedTall(table, |outs|, c) && WindowsReach(table, c.windows) ==> r.Ok?
    ensures r.Ok? ==> |r.value| == |outs|
    ensures r.Ok? && WindowsReach(table, c.windows) ==>
              forall p :: 0 <= p < |outs| ==> RowsWritten(c, table, remote, rowBytes, p, r.value[p])
  {
    SomeParts(c);
    hide *;
    var ok := ApplyPleCarve(outs, table, c);
    HeightsChecked(outs, table, c);
    if !ok {
      return Err(WrongHeight);
    }
    r := FetchPlane(remote, outs, table, c, rowBytes);
  }

  // Windows fetched, pieces joined.
  method FetchPlane(remote: map<string, Bytes>, outs: seq<OutTensor>, table: seq<SrcTensor>, c: Carve, ghost rowBytes: nat)
    returns (r: Result<seq<Bytes>, Failure>)
    requires Faithful(c) && |outs| <= c.dstParts && |table| == c.srcParts && NamesApart(table)
    requires StoredPlane(table, remote, rowBytes) && Windowed(table, c.windows)
    requires forall p :: 0 <= p < |outs| ==> Planned(outs[p], table, c, p)
    ensures r != Err(WrongHeight)
    ensures WindowsReach(table, c.windows) ==> r.Ok?
    ensures r.Ok? ==> |r.value| == |outs|
    ensures r.Ok? && WindowsReach(table, c.windows) ==>
              forall p :: 0 <= p < |outs| ==> RowsWritten(c, table, remote, rowBytes, p, r.value[p])
  {
    hide *;
    var cache := FetchWindows(remote, table, c.windows, rowBytes);
    if cache.None? {
      return Err(ShortRead);
    }
    var all := WriteShards(cache.value, outs, c, table, remote, rowBytes);
    r := if all.None? then Err(RanOut) else Ok(all.value);
  }

  // The first n shards are as tall as derived.
  ghost predicate CheckedTall(table: seq<SrcTensor>, n: nat, c: Carve)
    requires c.srcParts > 0 && n <= |table|
  {
    forall p :: 0 <= p < n ==> table[p].shape != [] && table[p].shape[0] == c.SrcRows()
  }

  lemma HeightsChecked(outs: seq<OutTensor>, table: seq<SrcTensor>, c: Carve)
    requires c.srcParts > 0 && |outs| <= |table| && forall p :: 0 <= p < |outs| ==> outs[p].src == table[p]
    ensures CheckedTall(table, |outs|, c) <==> forall p :: 0 <= p < |outs| ==> outs[p].src.shape != [] && outs[p].src.shape[0] == c.SrcRows()
  {
    if CheckedTall(table, |outs|, c) {
    } else {
      var p :| 0 <= p < |outs| && !(table[p].shape != [] && table[p].shape[0] == c.SrcRows());
      assert outs[p].src == table[p];
    }
  }

  lemma SomeParts(c: Carve)
    requires Faithful(c)
    ensures c.srcParts > 0 && c.dstParts > 0 && c.SrcRows() > 0
  {
  }
}

// The stored table's own bytes, and when what is written is rows of it.

module StoredBytes {
  import opened Tensors
  import opened Arithmetic
  import opened HashGeometry
  import opened PleCarve
  import opened PlePlan
  import opened StoredRows
  import opened CarvedPlane
  import opened EndToEnd

  function HeightsOf(table: seq<SrcTensor>): (heights: seq<nat>)
    ensures |heights| == |table|
  {
    seq<nat>(|table|, part requires 0 <= part < |table| => table[part].Height())
  }

  // The stored shards' bytes, one shard after another.
  ghost function AllBytes(table: seq<SrcTensor>, remote: map<string, Bytes>, rowBytes: nat): Bytes
    requires StoredPlane(table, remote, rowBytes)
  {
    if table == [] then []
    else
      var n := |table| - 1;
      assert StoredShard(table[n], remote, rowBytes);
      AllBytes(table[..n], remote, rowBytes) + ShardRows(table[n], remote, rowBytes, 0, table[n].Height())
  }

  lemma {:induction false} AllBytesLength(table: seq<SrcTensor>, remote: map<string, Bytes>, rowBytes: nat)
    requires StoredPlane(table, remote, rowBytes)
    ensures Sum(HeightsOf(table)) >= 0 && |AllBytes(table, remote, rowBytes)| == At(Sum(HeightsOf(table)), rowBytes)
  {
    hide StoredShard;
    AtAdds(0, 0, rowBytes);
    if table != [] {
      var n := |table| - 1;
      assert StoredShard(table[n], remote, rowBytes);
      AllBytesLength(table[..n], remote, rowBytes);
      assert HeightsOf(table)[..n] == HeightsOf(table[..n]);
      AtAdds(Sum(HeightsOf(table[..n])), table[n].Height(), rowBytes);
    }
  }

  // Row `local` of shard `part`, among them.
  lemma {:induction false} StoredRowBytes(table: seq<SrcTensor>, remote: map<string, Bytes>, rowBytes: nat, g: nat, part: nat, local: nat)
    requires StoredPlane(table, remote, rowBytes) && IsStoredRow(HeightsOf(table), g, part, local)
    ensures StoredShard(table[part], remote, rowBytes) && At(g, rowBytes) + rowBytes <= |AllBytes(table, remote, rowBytes)|
    ensures AllBytes(table, remote, rowBytes)[At(g, rowBytes)..At(g, rowBytes) + rowBytes]
            == ShardRows(table[part], remote, rowBytes, local, 1)
  {
    hide StoredShard, ShardRows;
    var n := |table| - 1;
    var init := table[..n];
    assert StoredShard(table[n], remote, rowBytes) && StoredShard(table[part], remote, rowBytes);
    assert HeightsOf(table)[..n] == HeightsOf(init);
    AllBytesLength(init, remote, rowBytes);
    var before, last := AllBytes(init, remote, rowBytes), ShardRows(table[n], remote, rowBytes, 0, table[n].Height());
    if part < n {
      assert HeightsOf(table)[..part] == HeightsOf(init)[..part];
      StoredRowBytes(init, remote, rowBytes, g, part, local);
      CutInside(before, last, At(g, rowBytes), At(g, rowBytes) + rowBytes);
    } else {
      LocalRow(table[n], remote, rowBytes, local);
      AtAdds(Sum(HeightsOf(init)), local, rowBytes);
      CutAfter(before, last, At(local, rowBytes), At(local, rowBytes) + rowBytes);
    }
  }

  lemma CutAfter(s: Bytes, t: Bytes, from: nat, to: nat)
    requires from <= to <= |t|
    ensures (s + t)[|s| + from..|s| + to] == t[from..to]
  {
  }

  // Row r of what is written is row g of the table, byte for byte.
  ghost predicate IsTableRow(table: seq<SrcTensor>, remote: map<string, Bytes>, rowBytes: nat, written: Bytes, r: nat, g: nat)
    requires StoredPlane(table, remote, rowBytes)
  {
    && At(r, rowBytes) + rowBytes <= |written| && At(g, rowBytes) + rowBytes <= |AllBytes(table, remote, rowBytes)|
    && written[At(r, rowBytes)..At(r, rowBytes) + rowBytes]
       == AllBytes(table, remote, rowBytes)[At(g, rowBytes)..At(g, rowBytes) + rowBytes]
  }

  // Where the shards' heights place every row as the carve reads it, every window lies
  // inside its shard and each row written is the table's row of that number.
  lemma WrittenIsTheTable(c: Carve, table: seq<SrcTensor>, remote: map<string, Bytes>, rowBytes: nat, p: nat, written: Bytes,
                          h: nat, i: nat, r: nat)
    requires Faithful(c) && |table| == c.srcParts && StoredPlane(table, remote, rowBytes)
    requires ReadsRight(c, HeightsOf(table)) && RowsWritten(c, table, remote, rowBytes, p, written) && IsHeadRow(c, h, i, p, r)
    ensures IsTableRow(table, remote, rowBytes, written, r, SourceRow(c, h, i))
  {
    hide *;
    RowThere(c, table, remote, rowBytes, p, written, h, i, r);
    HeadRowRight(c, HeightsOf(table), h, i);
    SameRow(table, remote, rowBytes, c.SrcRows(), written, r, SourceRow(c, h, i));
  }

  lemma HeadRowRight(c: Carve, heights: seq<nat>, h: nat, i: nat)
    requires Faithful(c) && ReadsRight(c, heights) && h < c.heads && i < Wanted(c.dstPrimes, c.dstPadded, h)
    ensures c.srcParts > 0 && c.SrcRows() > 0 && RowRight(heights, c.SrcRows(), SourceRow(c, h, i))
  {
    hide RowRight;
    HeadRowRead(c, h, i);
  }

  lemma RowThere(c: Carve, table: seq<SrcTensor>, remote: map<string, Bytes>, rowBytes: nat, p: nat, written: Bytes,
                 h: nat, i: nat, r: nat)
    requires Faithful(c) && StoredPlane(table, remote, rowBytes)
    requires RowsWritten(c, table, remote, rowBytes, p, written) && IsHeadRow(c, h, i, p, r)
    ensures c.srcParts > 0 && c.SrcRows() > 0 && h < c.heads && i < Wanted(c.dstPrimes, c.dstPadded, h)
    ensures RowStored(table, c.SrcRows(), SourceRow(c, h, i)) && At(r, rowBytes) + rowBytes <= |written|
    ensures written[At(r, rowBytes)..At(r, rowBytes) + rowBytes]
            == TableRow(table, remote, c.SrcRows(), rowBytes, SourceRow(c, h, i))
  {
    hide TableRow, SourceRow, StoredPlane, RowStored, At;
    assert RowWritten(c, table, remote, rowBytes, written, h, i, r);
  }

  lemma SameRow(table: seq<SrcTensor>, remote: map<string, Bytes>, rowBytes: nat, srcRows: nat, written: Bytes, r: nat, g: nat)
    requires srcRows > 0 && StoredPlane(table, remote, rowBytes) && RowRight(HeightsOf(table), srcRows, g) && RowStored(table, srcRows, g)
    requires At(r, rowBytes) + rowBytes <= |written|
    requires written[At(r, rowBytes)..At(r, rowBytes) + rowBytes] == TableRow(table, remote, srcRows, rowBytes, g)
    ensures IsTableRow(table, remote, rowBytes, written, r, g)
  {
    hide AllBytes, ShardRows, At, StoredPlane, StoredShard;
    StoredRowBytes(table, remote, rowBytes, g, g / srcRows, g % srcRows);
  }

  lemma HeadRowRead(c: Carve, h: nat, i: nat)
    requires Faithful(c) && h < c.heads && i < Wanted(c.dstPrimes, c.dstPadded, h)
    ensures SourceRow(c, h, i) in LayoutRows(c.layout, c.SrcRows())
  {
    assert RowIs(c, LayoutRows(c.layout, c.SrcRows()), h, i);
  }

  lemma RightMeansReach(c: Carve, table: seq<SrcTensor>)
    requires Faithful(c) && |table| == c.srcParts && ReadsRight(c, HeightsOf(table))
    ensures WindowsReach(table, c.windows)
  {
    SomeParts(c);
    hide Faithful, ReadsRight;
    RightExactly(c, HeightsOf(table));
    forall part | part in c.windows ensures part < |table| && c.windows[part].1 <= table[part].Height() {
      assert PlacedRight(c.windows, c.SrcRows(), HeightsOf(table), part);
    }
  }
}

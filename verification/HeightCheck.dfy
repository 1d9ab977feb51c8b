// A plane the height check lets through and whose rows come out wrong: four stored
// shards derived three rows tall, the third of them really four.

module HeightCheck {
  import opened Wrappers
  import opened Tensors
  import opened Arithmetic
  import opened Primes
  import opened HashGeometry
  import opened PlePlan
  import opened StoredRows
  import opened CarvedPlane
  import opened EndToEnd
  import opened StoredBytes

  // ------------------------------------------------------------------- the carve

  lemma SmallPrimes()
    ensures FirstPrimes(5, 2) == [5, 7] && FirstPrimes(2, 2) == [2, 3]
  {
    assert Prime(2) && Prime(3) && Prime(5) && Prime(7) by {
      FewDivisors();
    }
    assert !Prime(6) by {
      assert Divides(2, 6);
    }
    NextIs(5, 5);
    NextIs(6, 7);
    NextIs(2, 2);
    NextIs(3, 3);
    assert NthPrime(5, 0) == 5 && NthPrime(5, 1) == 7 && NthPrime(2, 0) == 2 && NthPrime(2, 1) == 3;
  }

  lemma FewDivisors()
    ensures Prime(2) && Prime(3) && Prime(5) && Prime(7)
  {
  }

  lemma NextIs(n: int, p: int)
    requires n <= p && Prime(p) && forall q :: n <= q < p ==> !Prime(q)
    ensures NextPrime(n) == p
  {
    hide Prime;
    assert IsNext(n, {}, NextPrime(n));
  }

  lemma SmallSums()
    ensures Sum([5, 7]) == 12 && Sum([2, 3]) == 5 && Sum([5]) == 5 && Sum([2]) == 2
    ensures Padded([5, 7], 4) == 12 && Padded([2, 3], 4) == 8
  {
    assert [5, 7][..1] == [5] && [2, 3][..1] == [2] && [5][..0] == [] && [2][..0] == [];
    assert RoundedUp(12, 4, 12) && RoundedUp(5, 4, 8);
    RoundedUpIsUnique(12, 4, Padded([5, 7], 4), 12);
    RoundedUpIsUnique(5, 4, Padded([2, 3], 4), 8);
  }

  // Two heads, of five and seven rows in four shards, cut to two and three in two.
  lemma SmallIsCarvable()
    ensures BaseFor(5, 4, 2) == 2 && Heads(3, 1) == 2 && Carvable(5, 4, 2, 4, 2)
  {
    SmallPrimes();
    SmallSums();
  }

  method SmallCarve() returns (c: Carve)
    ensures Faithful(c) && c.srcParts == 4 && c.dstParts == 2 && c.SrcRows() == 3 && c.DstRows() == 4
    ensures IsHeadRow(c, 1, 5, 1, 3) && SourceRow(c, 1, 5) == 10 && 3 in c.windows
  {
    SmallIsCarvable();
    hide Carvable, Faithful;
    var r := Plan(5, 4, 3, 1, 4, 2);
    c := r.carve;
    SmallNumbers(c);
    LastRowWindowed(c);
  }

  lemma SmallNumbers(c: Carve)
    requires Sized(c, 5, 2, 4) && c.heads == 2
    ensures c.srcPrimes == [5, 7] && c.srcOffsets == [0, 5] && c.srcPadded == 12
    ensures c.dstPrimes == [2, 3] && c.dstOffsets == [0, 2] && c.dstPadded == 8
  {
    SmallPrimes();
    SmallSums();
    assert [5, 7][..1] == [5] && [2, 3][..1] == [2] && [5, 7][..0] == [] && [2, 3][..0] == [];
    RoundedUpIsUnique(12, 4, c.srcPadded, 12);
    RoundedUpIsUnique(5, 4, c.dstPadded, 8);
  }

  // The second head's last row, padding, is source row 10: row 1 of shard 3.
  lemma LastRowWindowed(c: Carve)
    requires Faithful(c) && c.srcParts == 4 && c.dstParts == 2
    requires c.srcOffsets == [0, 5] && c.srcPadded == 12
    requires c.dstPrimes == [2, 3] && c.dstOffsets == [0, 2] && c.dstPadded == 8
    ensures c.SrcRows() == 3 && c.DstRows() == 4
    ensures IsHeadRow(c, 1, 5, 1, 3) && SourceRow(c, 1, 5) == 10 && 3 in c.windows
  {
    SmallSums();
    HeadRowRead(c, 1, 5);
    CarveRowWindowed(c, 10);
  }

  // ------------------------------------------------------------------- the plane

  // One file, its bytes all different, and the four shards in it one after another.
  function File(): Bytes {
    [0, 1, 2, 3, 4, 5, 6, 7, 8, 9, 10, 11, 12]
  }

  function Remote(): map<string, Bytes> {
    map["file" := File()]
  }

  ghost predicate IsShard(t: SrcTensor, name: string, height: nat, start: nat) {
    t.name == name && t.shard == "file" && t.shape == [height] && t.start == start && t.end == start + height
  }

  ghost predicate IsTable(table: seq<SrcTensor>) {
    && |table| == 4
    && IsShard(table[0], "a", 3, 0) && IsShard(table[1], "b", 3, 3)
    && IsShard(table[2], "c", 4, 6) && IsShard(table[3], "d", 3, 10)
  }

  lemma TableIsStored(table: seq<SrcTensor>)
    requires IsTable(table)
    ensures StoredPlane(table, Remote(), 1) && HeightsOf(table) == [3, 3, 4, 3]
  {
  }

  lemma NamesAreApart(table: seq<SrcTensor>)
    requires IsTable(table)
    ensures NamesApart(table)
  {
    SafeIsName("a");
    SafeIsName("b");
    SafeIsName("c");
    SafeIsName("d");
    hide Safe;
  }

  // Nothing is refused: the two shards looked at are right and every window fits.
  lemma NothingRefused(c: Carve, table: seq<SrcTensor>)
    requires Faithful(c) && c.srcParts == 4 && c.SrcRows() == 3 && IsTable(table)
    ensures CheckedTall(table, 2, c) && WindowsReach(table, c.windows)
  {
    forall part | part in c.windows ensures part < |table| && c.windows[part].1 <= table[part].Height() {
      WindowBounds(c, part);
    }
  }

  // The table's row 10 is the third shard's last; what the carve reads for it is the row
  // after.
  lemma WrongByte(c: Carve, table: seq<SrcTensor>, written: Bytes)
    requires Faithful(c) && c.srcParts == 4 && c.dstParts == 2 && c.SrcRows() == 3 && c.DstRows() == 4 && IsTable(table)
    requires IsHeadRow(c, 1, 5, 1, 3) && SourceRow(c, 1, 5) == 10
    requires StoredPlane(table, Remote(), 1) && RowsWritten(c, table, Remote(), 1, 1, written)
    ensures !IsTableRow(table, Remote(), 1, written, 3, 10)
  {
    RowThere(c, table, Remote(), 1, 1, written, 1, 5, 3);
    TableIsStored(table);
    StoredTen(table);
    ReadTen(table);
    hide RowsWritten, Faithful, AllBytes, TableRow;
    AtMeans(3, 1);
    AtMeans(10, 1);
    assert written[3..4] == [11];
    assert AllBytes(table, Remote(), 1)[10..11] == [10];
  }

  lemma StoredTen(table: seq<SrcTensor>)
    requires IsTable(table) && StoredPlane(table, Remote(), 1)
    ensures At(10, 1) + 1 <= |AllBytes(table, Remote(), 1)|
    ensures AllBytes(table, Remote(), 1)[At(10, 1)..At(10, 1) + 1] == [10]
  {
    TableIsStored(table);
    assert [3, 3, 4, 3][..3] == [3, 3, 4] && [3, 3, 4][..2] == [3, 3] && [3, 3][..1] == [3] && [3][..0] == [];
    assert Sum([3]) == 3 && Sum([3, 3]) == 6 && Sum([3, 3, 4]) == 10;
    StoredRowBytes(table, Remote(), 1, 10, 3, 0);
  }

  lemma ReadTen(table: seq<SrcTensor>)
    requires IsTable(table) && StoredPlane(table, Remote(), 1)
    ensures RowStored(table, 3, 10) && TableRow(table, Remote(), 3, 1, 10) == [11]
  {
  }

  method StoreTable() returns (table: seq<SrcTensor>)
    ensures IsTable(table) && AllDistinct(table) && forall k :: 0 <= k < |table| ==> fresh(table[k])
  {
    var a := new SrcTensor("a", "file", [3], 0, 3, 0, None);
    var b := new SrcTensor("b", "file", [3], 3, 6, 0, None);
    var c := new SrcTensor("c", "file", [4], 6, 10, 0, None);
    var d := new SrcTensor("d", "file", [3], 10, 13, 0, None);
    table := [a, b, c, d];
  }

  // The whole way: the carve is planned, nothing is refused, nothing fails, and a row
  // written is not the table's.
  method WrongAndSilent() returns (c: Carve, table: seq<SrcTensor>, written: seq<Bytes>)
    ensures Faithful(c) && |table| == c.srcParts && StoredPlane(table, Remote(), 1)
    ensures Min(c.dstParts, c.srcParts) == 2 == |written| && CheckedTall(table, 2, c) && WindowsReach(table, c.windows)
    ensures IsHeadRow(c, 1, 5, 1, 3) && !IsTableRow(table, Remote(), 1, written[1], 3, SourceRow(c, 1, 5))
  {
    hide Faithful, StoredPlane, NamesApart, CheckedTall, WindowsReach, RowsWritten, IsTableRow, IsHeadRow, SourceRow;
    c := SmallCarve();
    table := StoreTable();
    TableIsStored(table);
    NamesAreApart(table);
    NothingRefused(c, table);
    var first := new OutTensor("a", table[0]);
    var second := new OutTensor("b", table[1]);
    var r := BuildPlane(Remote(), [first, second], table, c, 1);
    written := r.value;
    WrongByte(c, table, written[1]);
  }
}

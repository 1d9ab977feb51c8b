// How many bytes an output tensor is reckoned to take, and takes; and so how long the
// files are.

module OutputSizes {
  import opened Wrappers
  import opened Sequences
  import opened Tensors
  import opened Arithmetic
  import opened Safetensors

  // An output tensor: its source's dtype, shape and bytes, and what is made of it.
  datatype Output = Output(name: string, dtype: string, shape: seq<nat>, nbytes: nat,
                           rows: Option<nat>, pieced: bool, literal: Option<Bytes>, readOut: bool)
  {
    // `row_bytes` of the source tensor.
    function RowBytes(): nat {
      if shape != [] && shape[0] != 0 then nbytes / shape[0] else nbytes
    }

    // `out_bytes`
    function OutBytes(): nat {
      if literal.Some? then |literal.value|
      else
        var n := if rows.None? || shape == [] then nbytes else RowBytes() * rows.value;
        if readOut then 2 * n else n
    }

    // The dtype and shape of its entry.
    function EntryDtype(): string {
      if literal.None? && readOut then "BF16" else dtype
    }

    function EntryShape(): seq<nat> {
      if literal.None? && rows.Some? && shape != [] && (pieced || shape[0] > rows.value) then [rows.value] + shape[1..]
      else shape
    }

    function EntrySize(): Option<nat> {
      match DtypeBytes(EntryDtype())
      case None => None
      case Some(n) => Some(Volume(n, EntryShape()))
    }

    // As a source header gives it: as many bytes as its dtype and shape say. Only a tensor
    // with rows is pieced, and only fp8 codes are read out.
    ghost predicate Consistent() {
      && DtypeBytes(dtype).Some? && nbytes == Volume(DtypeBytes(dtype).value, shape)
      && (pieced ==> rows.Some? && shape != [])
      && (readOut ==> dtype == "F8_E4M3")
    }

    // The bytes of one row, as the shape says.
    ghost function Width(): nat
      requires DtypeBytes(dtype).Some? && shape != []
    {
      Volume(DtypeBytes(dtype).value, shape[1..])
    }

    // A literal is as long as the tensor it stands for; rows are cut from what has them.
    ghost predicate Measured()
      requires Consistent()
    {
      if literal.Some? then |literal.value| == nbytes
      else
        rows.Some? && shape != [] && Width() > 0 ==>
          if pieced then shape[0] > 0 || rows.value == 0 else shape[0] == 0 || rows.value <= shape[0]
    }
  }

  lemma {:induction false} VolumeHead(n: nat, a: nat, rest: seq<nat>)
    ensures Volume(n, []) == n && Volume(n, [a] + rest) == a * Volume(n, rest)
  {
    if rest == [] {
      assert ([a] + rest)[..0] == [];
      assert Volume(n, [a]) == n * a;
    } else {
      var k := |rest| - 1;
      VolumeHead(n, a, rest[..k]);
      assert ([a] + rest)[..k + 1] == [a] + rest[..k];
      assert a * Volume(n, rest[..k]) * rest[k] == a * (Volume(n, rest[..k]) * rest[k]);
    }
  }

  lemma {:induction false} VolumeDoubles(shape: seq<nat>)
    ensures Volume(2, shape) == 2 * Volume(1, shape)
  {
    if shape != [] {
      var k := |shape| - 1;
      VolumeDoubles(shape[..k]);
    }
  }

  // What is reckoned is what the entry takes, exactly where rows are cut from what has
  // them and a literal is as long as what it stands for.
  lemma OutBytesExactly(o: Output)
    requires o.Consistent()
    ensures o.EntrySize().Some?
    ensures o.OutBytes() == o.EntrySize().value <==> o.Measured()
  {
    var n := DtypeBytes(o.dtype).value;
    if o.literal.None? {
      if o.rows.Some? && o.shape != [] {
        RowsMeasured(o, n);
      }
      if o.readOut {
        VolumeDoubles(o.EntryShape());
      }
    }
  }

  // Before any doubling, with rows.
  lemma RowsMeasured(o: Output, n: nat)
    requires o.Consistent() && DtypeBytes(o.dtype) == Some(n) && o.literal.None? && o.rows.Some? && o.shape != []
    ensures o.RowBytes() * o.rows.value == Volume(n, o.EntryShape()) <==> o.Measured()
  {
    hide DtypeBytes, Volume;
    var height, rows, width := o.shape[0], o.rows.value, o.Width();
    assert o.shape == [height] + o.shape[1..];
    VolumeHead(n, height, o.shape[1..]);
    VolumeHead(n, rows, o.shape[1..]);
    RowWidth(o.nbytes, height, width);
    Compare(height, rows, width);
  }

  lemma RowWidth(nbytes: nat, height: nat, width: nat)
    requires nbytes == height * width
    ensures height > 0 ==> nbytes / height == width
    ensures height == 0 ==> nbytes == 0
  {
    if height > 0 {
      DivModUnique(height, width, 0);
    }
  }

  // Rows times width, for two numbers of rows.
  lemma Compare(height: nat, rows: nat, width: nat)
    ensures width > 0 ==> (width * rows == height * width <==> rows == height) && (rows * width == 0 <==> rows == 0)
    ensures width == 0 ==> width * rows == 0 && height * width == 0 && rows * width == 0
    ensures width * rows == rows * width
  {
    if rows < height {
      MulMonotone(rows + 1, height, width);
    } else if height < rows {
      MulMonotone(height + 1, rows, width);
    }
    MulBounds(rows, if width > 0 then width else 1);
  }

  // ------------------------------------------------------------------- the files

  // An entry made of an output tensor.
  ghost predicate Makes(o: Output, e: Entry) {
    o.Consistent() && e.name == o.name && e.dtype == o.EntryDtype() && e.shape == o.EntryShape()
  }

  ghost predicate AllMake(outs: seq<Output>, entries: seq<Entry>) {
    |outs| == |entries| && forall k :: 0 <= k < |outs| ==> Makes(outs[k], entries[k])
  }

  ghost predicate AllMeasured(outs: seq<Output>) {
    forall k :: 0 <= k < |outs| ==> outs[k].Consistent() && outs[k].Measured()
  }

  function Reckoned(outs: seq<Output>): (rs: seq<Out>)
    ensures |rs| == |outs|
  {
    seq(|outs|, k requires 0 <= k < |outs| => Out(outs[k].name, outs[k].OutBytes()))
  }

  // The reckoned sizes are those of the entries.
  ghost predicate SizesAgree(rs: seq<Out>, entries: seq<Entry>) {
    |rs| == |entries| && Sized(entries) && forall k :: 0 <= k < |rs| ==> rs[k].bytes == entries[k].Size().value
  }

  lemma MeasuredAgree(outs: seq<Output>, entries: seq<Entry>)
    requires AllMake(outs, entries)
    ensures Sized(entries)
    ensures AllMeasured(outs) ==> SizesAgree(Reckoned(outs), entries)
  {
    hide DtypeBytes, Volume, Output.Measured, Output.EntryDtype, Output.EntryShape, Output.OutBytes, Output.Consistent;
    forall k | 0 <= k < |outs|
      ensures entries[k].Size().Some? && outs[k].Consistent()
      ensures outs[k].Measured() ==> outs[k].OutBytes() == entries[k].Size().value
    {
      assert Makes(outs[k], entries[k]);
      OutBytesExactly(outs[k]);
    }
  }

  // A file's data area.
  function DataBytes(batch: seq<Entry>): nat
    requires Sized(batch)
  {
    Offset(batch, |batch|)
  }

  // A written file: all of it but its header is its data area.
  ghost predicate IsFile(codec: Codec, batch: seq<Entry>, file: Bytes) {
    && Writable(codec, batch) && file == FileOf(codec, batch)
    && |file| == 8 + |Blob(codec, HeaderOf(batch, |batch|))| + DataBytes(batch)
  }

  lemma FileIs(codec: Codec, batch: seq<Entry>, file: Bytes)
    requires Writable(codec, batch) && file == FileOf(codec, batch)
    ensures IsFile(codec, batch, file)
  {
    hide DtypeBytes, Volume, HeaderOf, Blob;
    ContentsLength(batch);
  }

  lemma {:induction false} TotalIsData(rs: seq<Out>, entries: seq<Entry>)
    requires SizesAgree(rs, entries)
    ensures Total(rs) == DataBytes(entries)
  {
    hide DtypeBytes, Volume, Entry.Size;
    if rs != [] {
      var n := |rs| - 1;
      TotalIsData(rs[..n], entries[..n]);
      OffsetPrefix(entries, n, n);
    }
  }

  // The entries, in as many batches of the same lengths.
  function Batches<T>(files: seq<seq<Out>>, entries: seq<T>): (batches: seq<seq<T>>)
    requires |Concat(files)| == |entries|
    ensures |batches| == |files|
  {
    if files == [] then []
    else
      var n := |files| - 1;
      var at := |entries| - |files[n]|;
      Batches(files[..n], entries[..at]) + [entries[at..]]
  }

  lemma {:induction false} BatchesJoin<T>(files: seq<seq<Out>>, entries: seq<T>)
    requires |Concat(files)| == |entries|
    ensures Concat(Batches(files, entries)) == entries
  {
    if files != [] {
      var n := |files| - 1;
      var at := |entries| - |files[n]|;
      BatchesJoin(files[..n], entries[..at]);
      ConcatAppend(Batches(files[..n], entries[..at]), entries[at..]);
    }
  }

  lemma {:induction false} BatchesAgree(files: seq<seq<Out>>, rs: seq<Out>, entries: seq<Entry>, f: nat)
    requires Concat(files) == rs && |rs| == |entries| && SizesAgree(rs, entries) && f < |files|
    ensures SizesAgree(files[f], Batches(files, entries)[f])
  {
    hide DtypeBytes, Volume, Entry.Size, SizesAgree;
    var n := |files| - 1;
    var at := |rs| - |files[n]|;
    assert rs[..at] == Concat(files[..n]) && rs[at..] == files[n];
    AgreeCut(rs, entries, at);
    if f < n {
      BatchesAgree(files[..n], rs[..at], entries[..at], f);
    }
  }

  lemma AgreeCut(rs: seq<Out>, entries: seq<Entry>, at: nat)
    requires SizesAgree(rs, entries) && at <= |rs|
    ensures |rs| == |entries| && SizesAgree(rs[..at], entries[..at]) && SizesAgree(rs[at..], entries[at..])
  {
    hide Entry.Size;
  }

  // No data area over the limit but a lone tensor's, and none ended while the next tensor
  // still fitted.
  ghost predicate Limited(batches: seq<seq<Entry>>, f: nat)
    requires f < |batches|
  {
    && Sized(batches[f]) && batches[f] != []
    && (DataBytes(batches[f]) <= MAX_SHARD_BYTES || |batches[f]| == 1)
    && (f > 0 ==> Sized(batches[f - 1]) && DataBytes(batches[f - 1]) + batches[f][0].Size().value > MAX_SHARD_BYTES)
  }

  lemma BatchLimited(files: seq<seq<Out>>, rs: seq<Out>, entries: seq<Entry>, f: nat)
    requires Split(rs, files) && SizesAgree(rs, entries) && f < |files|
    ensures Limited(Batches(files, entries), f)
  {
    hide Batches, DataBytes, Entry.Size;
    BatchesAgree(files, rs, entries, f);
    TotalIsData(files[f], Batches(files, entries)[f]);
    assert Bounded(files[f]);
    if f > 0 {
      assert Full(files, f);
      BatchesAgree(files, rs, entries, f - 1);
      TotalIsData(files[f - 1], Batches(files, entries)[f - 1]);
    }
  }

  // `write_output`: files in order hold the entries in order; where every output is
  // measured, their data areas keep the limit.
  method WriteOutput(codec: Codec, outs: seq<Output>, entries: seq<Entry>)
    returns (files: Option<seq<Bytes>>, batches: seq<seq<Entry>>)
    requires |outs| == |entries| && AllMake(outs, entries)
    ensures Concat(batches) == entries
    ensures files.Some? <==> forall f :: 0 <= f < |batches| ==> Writable(codec, batches[f])
    ensures files.Some? ==> |files.value| == |batches| && forall f :: 0 <= f < |batches| ==> IsFile(codec, batches[f], files.value[f])
    ensures AllMeasured(outs) ==> forall f :: 0 <= f < |batches| ==> Limited(batches, f)
  {
    hide *;
    var split := SplitFiles(Reckoned(outs));
    SplitCovers(Reckoned(outs), split);
    batches := Batches(split, entries);
    BatchesJoin(split, entries);
    LimitsKept(outs, entries, split);
    var done: seq<Bytes> := [];
    for f := 0 to |batches|
      invariant |done| == f
      invariant forall g :: 0 <= g < f ==> Writable(codec, batches[g]) && IsFile(codec, batches[g], done[g])
    {
      var file := WriteSafetensors(codec, batches[f]);
      if file.None? {
        return None, batches;
      }
      FileIs(codec, batches[f], file.value);
      done := done + [file.value];
    }
    files := Some(done);
  }

  lemma SplitCovers(rs: seq<Out>, files: seq<seq<Out>>)
    requires Split(rs, files)
    ensures |Concat(files)| == |rs|
  {
  }

  lemma LimitsKept(outs: seq<Output>, entries: seq<Entry>, files: seq<seq<Out>>)
    requires AllMake(outs, entries) && Split(Reckoned(outs), files) && |Concat(files)| == |entries|
    ensures AllMeasured(outs) ==> forall f :: 0 <= f < |files| ==> Limited(Batches(files, entries), f)
  {
    hide *;
    MeasuredAgree(outs, entries);
    if AllMeasured(outs) {
      forall f: nat | f < |files| ensures Limited(Batches(files, entries), f) {
        BatchLimited(files, Reckoned(outs), entries, f);
      }
    }
  }
}

// The container: writing entries behind a header of offsets, reading the offsets
// back, and splitting the output into files.

module Safetensors {
  import opened Wrappers
  import opened Tensors
  import opened Sequences
  import opened Arithmetic

  // ------------------------------------------------------------- little endian

  function Pow256(n: nat): nat {
    if n == 0 then 1 else 256 * Pow256(n - 1)
  }

  // `to_bytes(n, "little")`
  function ToLittle(v: nat, n: nat): (b: Bytes)
    ensures |b| == n
  {
    if n == 0 then [] else [v % 256] + ToLittle(v / 256, n - 1)
  }

  // `int.from_bytes(b, "little")`
  function FromLittle(b: Bytes): nat {
    if b == [] then 0 else b[0] + 256 * FromLittle(b[1..])
  }

  lemma {:induction false} LittleRoundTrip(v: nat, n: nat)
    ensures FromLittle(ToLittle(v, n)) == v <==> v < Pow256(n)
    ensures FromLittle(ToLittle(v, n)) < Pow256(n)
  {
    if n > 0 {
      LittleRoundTrip(v / 256, n - 1);
      assert ToLittle(v, n)[1..] == ToLittle(v / 256, n - 1);
    }
  }

  lemma Regrouped(q: nat, b: nat, r: nat, a: nat, s: nat)
    requires r < b && s < a
    ensures (q * b + r) * a + s == q * (a * b) + (r * a + s) && r * a + s < a * b
  {
    assert (q * b + r) * a == q * (a * b) + r * a;
    MulMonotone(r + 1, b, a);
  }

  lemma DivideTwice(v: nat, a: nat, b: nat)
    requires a > 0 && b > 0
    ensures a * b > 0 && v / a / b == v / (a * b)
  {
    var (w, s) := DivMod(v, a);
    var (q, r) := DivMod(w, b);
    Regrouped(q, b, r, a, s);
    DivModUnique(a, w, s);
    DivModUnique(b, q, r);
    hide DivMod;
    DivModUnique(a * b, q, r * a + s);
  }

  // Byte i is the i-th digit from the low end, in base 256.
  lemma {:induction false} LittleDigits(v: nat, n: nat, i: nat)
    requires i < n
    ensures Pow256(i) > 0 && ToLittle(v, n)[i] == v / Pow256(i) % 256
  {
    if i > 0 {
      LittleDigits(v / 256, n - 1, i - 1);
      DivideTwice(v, 256, Pow256(i - 1));
    }
  }

  // ------------------------------------------------------------------- the header

  datatype Meta = Meta(dtype: string, shape: seq<nat>, from: nat, to: nat)
  type Header = map<string, Meta>

  // JSON text, taken as given: what is dumped loads again, trailing spaces and all.
  datatype Codec = Codec(dump: Header -> Bytes, load: Bytes -> Header)
  {
    ghost predicate Lossless() {
      forall h: Header, pad: nat :: load(dump(h) + Spaces(pad)) == h
    }
  }

  function Spaces(n: nat): Bytes {
    seq(n, _ => 32)
  }

  // DTYPE_BYTES
  function DtypeBytes(dtype: string): Option<nat> {
    if dtype in ["BOOL", "U8", "I8", "F8_E4M3", "F8_E5M2", "F8_E8M0", "F8_E4M3FN"] then Some(1)
    else if dtype in ["I16", "U16", "F16", "BF16"] then Some(2)
    else if dtype in ["I32", "U32", "F32"] then Some(4)
    else if dtype in ["I64", "U64", "F64"] then Some(8)
    else None
  }

  // A dtype's name says its width, eight bits for each of its bytes.
  lemma EightBits()
    ensures DtypeBytes("I8") == DtypeBytes("U8") == DtypeBytes("F8_E4M3") == DtypeBytes("F8_E8M0") == Some(8 / 8)
  {
  }

  lemma SixteenBits()
    ensures DtypeBytes("I16") == DtypeBytes("U16") == DtypeBytes("F16") == DtypeBytes("BF16") == Some(16 / 8)
  {
  }

  lemma ThirtyTwoBits()
    ensures DtypeBytes("I32") == DtypeBytes("U32") == DtypeBytes("F32") == Some(32 / 8)
  {
  }

  lemma SixtyFourBits()
    ensures DtypeBytes("I64") == DtypeBytes("U64") == DtypeBytes("F64") == Some(64 / 8)
  {
  }

  function Volume(n: nat, shape: seq<nat>): nat {
    if shape == [] then n else Volume(n, shape[..|shape| - 1]) * shape[|shape| - 1]
  }

  // One tensor to write: its bytes come chunk by chunk.
  datatype Entry = Entry(name: string, dtype: string, shape: seq<nat>, chunks: seq<Bytes>)
  {
    function Content(): Bytes {
      Concat(chunks)
    }

    function Size(): Option<nat> {
      match DtypeBytes(dtype)
      case None => None
      case Some(n) => Some(Volume(n, shape))
    }
  }

  ghost predicate Sized(entries: seq<Entry>) {
    forall k :: 0 <= k < |entries| ==> entries[k].Size().Some?
  }

  // Where entry k's bytes start in the data area.
  function Offset(entries: seq<Entry>, k: nat): nat
    requires k <= |entries| && Sized(entries)
  {
    if k == 0 then 0 else Offset(entries, k - 1) + entries[k - 1].Size().value
  }

  function HeaderOf(entries: seq<Entry>, k: nat): Header
    requires k <= |entries| && Sized(entries)
  {
    if k == 0 then map[]
    else
      var e := entries[k - 1];
      HeaderOf(entries, k - 1)[e.name := Meta(e.dtype, e.shape, Offset(entries, k - 1), Offset(entries, k))]
  }

  function Contents(entries: seq<Entry>): Bytes {
    if entries == [] then [] else Contents(entries[..|entries| - 1]) + entries[|entries| - 1].Content()
  }

  // The header text, padded to a multiple of eight.
  function Blob(codec: Codec, h: Header): (b: Bytes)
    ensures |b| % 8 == 0
  {
    var text := codec.dump(h);
    text + Spaces((-|text|) % 8)
  }

  // The text as it was dumped, then fewer than eight blanks.
  lemma BlobIs(codec: Codec, h: Header)
    ensures var text, blob := codec.dump(h), Blob(codec, h);
            && |text| <= |blob| < |text| + 8 && blob[..|text|] == text
            && forall i :: |text| <= i < |blob| ==> blob[i] == ' ' as int
  {
  }

  ghost predicate Filled(entries: seq<Entry>)
    requires Sized(entries)
  {
    forall k :: 0 <= k < |entries| ==> |entries[k].Content()| == entries[k].Size().value
  }

  // When a file gets written: every dtype known, the header's length in eight
  // bytes, and every entry as long as its shape says.
  ghost predicate Writable(codec: Codec, entries: seq<Entry>) {
    && Sized(entries)
    && |Blob(codec, HeaderOf(entries, |entries|))| < Pow256(8)
    && Filled(entries)
  }

  // The file those entries make.
  function FileOf(codec: Codec, entries: seq<Entry>): Bytes
    requires Sized(entries)
  {
    var blob := Blob(codec, HeaderOf(entries, |entries|));
    ToLittle(|blob|, 8) + blob + Contents(entries)
  }

  // `write_safetensors`. None is any of its errors.
  method WriteSafetensors(codec: Codec, entries: seq<Entry>) returns (file: Option<Bytes>)
    ensures file.Some? <==> Writable(codec, entries)
    ensures file.Some? ==> file.value == FileOf(codec, entries)
  {
    hide Offset, HeaderOf, DtypeBytes, Volume, Pow256, Blob, ToLittle, Spaces, Concat;
    for k := 0 to |entries|
      invariant forall i :: 0 <= i < k ==> entries[i].Size().Some?
    {
      if entries[k].Size().None? {
        return None;
      }
    }
    var blob := DumpHeader(codec, entries);
    if |blob| >= Pow256(8) {
      return None;
    }
    var out := ToLittle(|blob|, 8) + blob;
    ghost var head := out;
    for k := 0 to |entries|
      invariant forall i :: 0 <= i < k ==> |entries[i].Content()| == entries[i].Size().value
      invariant out == head + Contents(entries[..k])
    {
      assert entries[..k + 1][..k] == entries[..k];
      var got;
      out, got := AppendChunks(out, entries[k].chunks);
      if got != entries[k].Size().value {
        return None;
      }
    }
    assert entries[..|entries|] == entries;
    file := Some(out);
  }

  // One entry's chunks, counted as they are written.
  method AppendChunks(out0: Bytes, chunks: seq<Bytes>) returns (out: Bytes, got: nat)
    ensures out == out0 + Concat(chunks) && got == |Concat(chunks)|
  {
    out, got := out0, 0;
    for c := 0 to |chunks|
      invariant out == out0 + Concat(chunks[..c]) && got == |Concat(chunks[..c])|
    {
      assert chunks[..c + 1][..c] == chunks[..c];
      out := out + chunks[c];
      got := got + |chunks[c]|;
    }
    assert chunks[..|chunks|] == chunks;
  }

  // The header's dictionary, filled in as the offsets add up, then dumped and padded.
  method DumpHeader(codec: Codec, entries: seq<Entry>) returns (blob: Bytes)
    requires Sized(entries)
    ensures blob == Blob(codec, HeaderOf(entries, |entries|))
  {
    hide DtypeBytes, Volume, Spaces;
    var header: Header := map[];
    var offset: nat := 0;
    for k := 0 to |entries|
      invariant header == HeaderOf(entries, k) && offset == Offset(entries, k)
    {
      var e := entries[k];
      var n := e.Size().value;
      header := header[e.name := Meta(e.dtype, e.shape, offset, offset + n)];
      offset := offset + n;
    }
    var text := codec.dump(header);
    blob := text + Spaces((-|text|) % 8);
  }

  // -------------------------------------------------------------------- reading

  // A tensor as a reader finds it: absolute offsets in the file.
  datatype Found = Found(dtype: string, shape: seq<nat>, start: nat, end: nat)

  // `read_shard_header`. None is a file too short for its own header.
  function ReadHeader(codec: Codec, file: Bytes): Option<map<string, Found>> {
    if |file| < 8 then None
    else
      var n := FromLittle(file[..8]);
      if |file| < 8 + n then None
      else
        var h := codec.load(file[8..8 + n]);
        Some(map name | name in h && name != "__metadata__" ::
               Found(h[name].dtype, h[name].shape, 8 + n + h[name].from, 8 + n + h[name].to))
  }

  ghost predicate NamesDistinct(entries: seq<Entry>) {
    forall i, j :: 0 <= i < j < |entries| ==> entries[i].name != entries[j].name
  }

  lemma {:induction false} OffsetsNest(entries: seq<Entry>, j: nat, k: nat)
    requires Sized(entries) && j <= k <= |entries|
    ensures Offset(entries, j) <= Offset(entries, k)
    decreases k
  {
    hide DtypeBytes, Volume;
    if j < k {
      OffsetsNest(entries, j, k - 1);
    }
  }

  lemma {:induction false} OffsetPrefix(entries: seq<Entry>, m: nat, k: nat)
    requires Sized(entries) && k <= m <= |entries|
    ensures Sized(entries[..m]) && Offset(entries[..m], k) == Offset(entries, k)
  {
    hide DtypeBytes, Volume;
    if k > 0 {
      OffsetPrefix(entries, m, k - 1);
    }
  }

  // Entry k's bytes are where its offsets say, and the data area is as long as the last.
  lemma {:induction false} ContentsTiled(entries: seq<Entry>, k: nat)
    requires Sized(entries) && Filled(entries) && k < |entries|
    ensures |Contents(entries)| == Offset(entries, |entries|)
    ensures Offset(entries, k) <= Offset(entries, k + 1) <= |Contents(entries)|
    ensures Contents(entries)[Offset(entries, k)..Offset(entries, k + 1)] == entries[k].Content()
  {
    hide DtypeBytes, Volume;
    var n := |entries| - 1;
    var init := entries[..n];
    ContentsLength(init);
    OffsetPrefix(entries, n, n);
    OffsetsNest(entries, k + 1, |entries|);
    if k < n {
      ContentsTiled(init, k);
      OffsetPrefix(entries, n, k);
      OffsetPrefix(entries, n, k + 1);
    }
  }

  lemma {:induction false} ContentsLength(entries: seq<Entry>)
    requires Sized(entries) && Filled(entries)
    ensures |Contents(entries)| == Offset(entries, |entries|)
  {
    hide DtypeBytes, Volume;
    if entries != [] {
      var n := |entries| - 1;
      ContentsLength(entries[..n]);
      OffsetPrefix(entries, n, n);
    }
  }

  // A header with distinct names has one line for each entry.
  lemma {:induction false} HeaderLine(entries: seq<Entry>, m: nat, k: nat)
    requires Sized(entries) && NamesDistinct(entries) && k < m <= |entries|
    ensures entries[k].name in HeaderOf(entries, m)
    ensures HeaderOf(entries, m)[entries[k].name]
            == Meta(entries[k].dtype, entries[k].shape, Offset(entries, k), Offset(entries, k + 1))
    decreases m
  {
    hide DtypeBytes, Volume;
    if k < m - 1 {
      HeaderLine(entries, m - 1, k);
    }
  }

  lemma {:induction false} HeaderNames(entries: seq<Entry>, m: nat)
    requires Sized(entries) && m <= |entries|
    ensures forall name :: name in HeaderOf(entries, m) <==> exists k :: 0 <= k < m && entries[k].name == name
  {
    hide DtypeBytes, Volume;
    if m > 0 {
      HeaderNames(entries, m - 1);
    }
  }

  lemma HeaderReads(codec: Codec, entries: seq<Entry>)
    requires codec.Lossless() && Writable(codec, entries)
    ensures var file, h := FileOf(codec, entries), HeaderOf(entries, |entries|);
            var n := |Blob(codec, h)|;
            && |file| >= 8 + n && FromLittle(file[..8]) == n && codec.load(file[8..8 + n]) == h
            && file[8 + n..] == Contents(entries)
  {
    hide HeaderOf, Offset;
    var h := HeaderOf(entries, |entries|);
    var blob := Blob(codec, h);
    LittleRoundTrip(|blob|, 8);
    var file := FileOf(codec, entries);
    assert file[..8] == ToLittle(|blob|, 8);
    assert file[8..8 + |blob|] == blob;
    var pad: nat := (-|codec.dump(h)|) % 8;
    assert codec.load(codec.dump(h) + Spaces(pad)) == h;
  }

  // What a reader of the written file is told about entry k.
  ghost function FoundAt(codec: Codec, entries: seq<Entry>, k: nat): Found
    requires Sized(entries) && k < |entries|
  {
    var base := 8 + |Blob(codec, HeaderOf(entries, |entries|))|;
    Found(entries[k].dtype, entries[k].shape, base + Offset(entries, k), base + Offset(entries, k + 1))
  }

  // Round trip: reading the header of a written file finds every tensor under its
  // name with its dtype and shape, and at its offsets exactly its bytes.
  lemma ReadsWhatWasWritten(codec: Codec, entries: seq<Entry>, k: nat)
    requires codec.Lossless() && Writable(codec, entries) && NamesDistinct(entries)
    requires k < |entries| && entries[k].name != "__metadata__"
    ensures var file := FileOf(codec, entries);
            var found := ReadHeader(codec, file);
            && found.Some? && entries[k].name in found.value
            && found.value[entries[k].name] == FoundAt(codec, entries, k)
            && FoundAt(codec, entries, k).start <= FoundAt(codec, entries, k).end <= |file|
            && file[FoundAt(codec, entries, k).start..FoundAt(codec, entries, k).end] == entries[k].Content()
  {
    hide Contents, HeaderOf, Offset, FileOf, Blob, DtypeBytes, Volume, FromLittle;
    HeaderReads(codec, entries);
    HeaderLine(entries, |entries|, k);
    ContentsTiled(entries, k);
    var file := FileOf(codec, entries);
    var n := |Blob(codec, HeaderOf(entries, |entries|))|;
    TailCut(file, 8 + n, Offset(entries, k), Offset(entries, k + 1));
  }

  lemma TailCut(b: Bytes, base: nat, from: nat, to: nat)
    requires base <= |b| && from <= to <= |b| - base
    ensures b[base + from..base + to] == b[base..][from..to]
  {
    forall i | 0 <= i < to - from ensures b[base + from..base + to][i] == b[base..][from..to][i] {
      assert b[base..][from + i] == b[base + from + i];
    }
  }

  // ... and finds nothing that was not written.
  lemma ReadsNothingElse(codec: Codec, entries: seq<Entry>, name: string)
    requires codec.Lossless() && Writable(codec, entries)
    requires ReadHeader(codec, FileOf(codec, entries)).Some? && name in ReadHeader(codec, FileOf(codec, entries)).value
    ensures exists k :: 0 <= k < |entries| && entries[k].name == name
  {
    hide Contents, HeaderOf, Blob, FileOf, DtypeBytes, Volume, FromLittle;
    HeaderReads(codec, entries);
    HeaderNames(entries, |entries|);
  }

  // The tensors lie back to back from the end of the header to the end of the file.
  lemma FileIsTiled(codec: Codec, entries: seq<Entry>)
    requires codec.Lossless() && Writable(codec, entries) && entries != []
    ensures var file := FileOf(codec, entries);
            && |file| >= 8 && FoundAt(codec, entries, 0).start == 8 + FromLittle(file[..8])
            && FoundAt(codec, entries, |entries| - 1).end == |file|
            && forall k :: 0 < k < |entries| ==> FoundAt(codec, entries, k - 1).end == FoundAt(codec, entries, k).start
  {
    hide Contents, HeaderOf, Blob, FileOf;
    HeaderReads(codec, entries);
    ContentsLength(entries);
  }

  // ------------------------------------------------------------------- file split

  const MAX_SHARD_BYTES: nat := 4 * 1024 * 1024 * 1024

  datatype Out = Out(name: string, bytes: nat)

  function Total(batch: seq<Out>): nat {
    if batch == [] then 0 else Total(batch[..|batch| - 1]) + batch[|batch| - 1].bytes
  }

  // No file over the limit but one tensor's that alone is.
  ghost predicate Bounded(batch: seq<Out>) {
    |batch| > 0 && (Total(batch) <= MAX_SHARD_BYTES || |batch| == 1)
  }

  // A file ended only because the next tensor would not have fitted.
  ghost predicate Full(files: seq<seq<Out>>, f: nat)
    requires 0 < f < |files|
  {
    |files[f]| > 0 && Total(files[f - 1]) + files[f][0].bytes > MAX_SHARD_BYTES
  }

  ghost predicate Split(outs: seq<Out>, files: seq<seq<Out>>) {
    && Concat(files) == outs
    && (forall f :: 0 <= f < |files| ==> Bounded(files[f]))
    && (forall f :: 0 < f < |files| ==> Full(files, f))
  }

  // The files already written, and the batch that will be the next.
  ghost predicate Splitting(outs: seq<Out>, files: seq<seq<Out>>, batch: seq<Out>) {
    if batch == [] then outs == [] && files == [] else Split(outs, files + [batch])
  }

  lemma BatchGrows(outs: seq<Out>, files: seq<seq<Out>>, batch: seq<Out>, ot: Out)
    requires Splitting(outs, files, batch)
    requires batch != [] ==> Total(batch) + ot.bytes <= MAX_SHARD_BYTES
    ensures Splitting(outs + [ot], files, batch + [ot])
  {
    var was, now := files + [batch], files + [batch + [ot]];
    assert now[..|files|] == files && was[..|files|] == files;
    assert (batch + [ot])[..|batch|] == batch;
    if batch != [] {
      forall f | 0 <= f < |now| ensures Bounded(now[f]) {
        assert Bounded(was[f]);
      }
      forall f | 0 < f < |now| ensures Full(now, f) {
        assert Full(was, f);
      }
    }
  }

  lemma BatchEnds(outs: seq<Out>, files: seq<seq<Out>>, batch: seq<Out>, ot: Out)
    requires Splitting(outs, files, batch) && batch != [] && Total(batch) + ot.bytes > MAX_SHARD_BYTES
    ensures Splitting(outs + [ot], files + [batch], [ot])
  {
    var was, now := files + [batch], files + [batch] + [[ot]];
    assert now[..|was|] == was;
    forall f | 0 <= f < |now| ensures Bounded(now[f]) {
      assert f < |was| ==> Bounded(was[f]);
    }
    forall f | 0 < f < |now| ensures Full(now, f) {
      assert f < |was| ==> Full(was, f);
    }
  }

  lemma NothingSplit()
    ensures Splitting([], [], []) && Total([]) == 0
  {
  }

  lemma TotalGrows(batch: seq<Out>, ot: Out)
    ensures Total(batch + [ot]) == Total(batch) + ot.bytes && Total([]) == 0
  {
    assert (batch + [ot])[..|batch|] == batch;
  }

  lemma LastBatch(outs: seq<Out>, files: seq<seq<Out>>, batch: seq<Out>)
    requires Splitting(outs, files, batch)
    ensures Split(outs, if batch == [] then files else files + [batch])
  {
  }

  // `write_output`: which tensors go to which file. Order is kept and nothing lost.
  method SplitFiles(outs: seq<Out>) returns (files: seq<seq<Out>>)
    ensures Split(outs, files)
  {
    hide *;
    files := [];
    var batch: seq<Out>, acc := [], 0;
    NothingSplit();
    for k := 0 to |outs|
      invariant Splitting(outs[..k], files, batch) && acc == Total(batch)
    {
      var ot := outs[k];
      var n := ot.bytes;
      assert outs[..k + 1] == outs[..k] + [ot];
      TotalGrows(batch, ot);
      TotalGrows([], ot);
      if acc + n > MAX_SHARD_BYTES && batch != [] {
        BatchEnds(outs[..k], files, batch, ot);
        files := files + [batch];
        batch, acc := [], 0;
        assert batch + [ot] == [ot];
      } else {
        BatchGrows(outs[..k], files, batch, ot);
      }
      batch := batch + [ot];
      acc := acc + n;
    }
    assert outs[..|outs|] == outs;
    LastBatch(outs, files, batch);
    if batch != [] {
      files := files + [batch];
    }
  }
}

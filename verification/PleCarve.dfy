// `plan_ple_carve`: one hashed table's rows cut out of another's, across the
// source's shard seams and the heads' segment seams.

module PleCarve {
  import opened Arithmetic

  // `rows` rows of one stored shard, from its row `row0` on.
  datatype Slice = Slice(part: nat, row0: nat, rows: nat)

  // `rows` rows of the whole row space, from `row0` on.
  datatype Span = Span(row0: nat, rows: nat)

  function Range(start: nat, n: nat): seq<nat> {
    seq(n, i => start + i)
  }

  // Which rows of the source's row space a slice is, and slices one after another.
  function SliceRows(s: Slice, srcRows: nat): seq<nat> {
    Range(s.part * srcRows + s.row0, s.rows)
  }

  function RowsOf(slices: seq<Slice>, srcRows: nat): seq<nat> {
    if slices == [] then []
    else
      var last := slices[|slices| - 1];
      RowsOf(slices[..|slices| - 1], srcRows) + SliceRows(last, srcRows)
  }

  function SpanRows(spans: seq<Span>): seq<nat> {
    if spans == [] then []
    else
      var last := spans[|spans| - 1];
      SpanRows(spans[..|spans| - 1]) + Range(last.row0, last.rows)
  }

  // Every output shard's rows, one shard after another.
  function LayoutRows(layout: seq<seq<Slice>>, srcRows: nat): seq<nat> {
    if layout == [] then []
    else LayoutRows(layout[..|layout| - 1], srcRows) + RowsOf(layout[|layout| - 1], srcRows)
  }

  lemma RowsOfAppend(slices: seq<Slice>, s: Slice, srcRows: nat)
    ensures RowsOf(slices + [s], srcRows) == RowsOf(slices, srcRows) + Range(s.part * srcRows + s.row0, s.rows)
  {
    assert (slices + [s])[..|slices|] == slices;
  }

  lemma RangeSplits(start: nat, n: nat, k: nat)
    requires k <= n
    ensures Range(start, n) == Range(start, k) + Range(start + k, n - k)
  {
  }

  // A slice that stays inside one stored shard, and the shard inside the table.
  ghost predicate InsideShard(s: Slice, srcRows: nat, limit: nat) {
    0 < s.rows && s.row0 + s.rows <= srcRows && s.part * srcRows + s.row0 + s.rows <= limit
  }

  // The first and last row of a slice are among the slices' rows.
  lemma {:induction false} RowsOfEnds(slices: seq<Slice>, srcRows: nat, k: nat)
    requires k < |slices| && slices[k].rows > 0
    ensures slices[k].part * srcRows + slices[k].row0 in RowsOf(slices, srcRows)
    ensures slices[k].part * srcRows + slices[k].row0 + slices[k].rows - 1 in RowsOf(slices, srcRows)
  {
    var init, last := slices[..|slices| - 1], slices[|slices| - 1];
    if k < |slices| - 1 {
      RowsOfEnds(init, srcRows, k);
    } else {
      var r := Range(last.part * srcRows + last.row0, last.rows);
      assert r[0] in r && r[last.rows - 1] in r;
    }
  }

  ghost predicate AllInside(slices: seq<Slice>, srcRows: nat, limit: nat) {
    forall k :: 0 <= k < |slices| ==> InsideShard(slices[k], srcRows, limit)
  }

  // --------------------------------------------------- cutting at shard seams

  method SplitSpan(flat0: seq<Slice>, span: Span, srcRows: nat, ghost limit: nat) returns (flat: seq<Slice>)
    requires srcRows > 0 && AllInside(flat0, srcRows, limit) && span.row0 + span.rows <= limit
    ensures AllInside(flat, srcRows, limit)
    ensures RowsOf(flat, srcRows) == RowsOf(flat0, srcRows) + Range(span.row0, span.rows)
  {
    flat := flat0;
    var at, left := span.row0, span.rows;
    while left > 0
      invariant at + left == span.row0 + span.rows && 0 <= left <= span.rows
      invariant AllInside(flat, srcRows, limit)
      invariant RowsOf(flat, srcRows) == RowsOf(flat0, srcRows) + Range(span.row0, span.rows - left)
    {
      var (part, local) := DivMod(at, srcRows);
      var take := if left < srcRows - local then left else srcRows - local;
      RowsOfAppend(flat, Slice(part, local, take), srcRows);
      RangeSplits(span.row0, span.rows - left + take, span.rows - left);
      flat := flat + [Slice(part, local, take)];
      at := at + take;
      left := left - take;
    }
  }

  method SplitSpans(spans: seq<Span>, srcRows: nat, ghost limit: nat) returns (flat: seq<Slice>)
    requires srcRows > 0 && forall h :: 0 <= h < |spans| ==> spans[h].row0 + spans[h].rows <= limit
    ensures AllInside(flat, srcRows, limit) && RowsOf(flat, srcRows) == SpanRows(spans)
  {
    flat := [];
    for h := 0 to |spans|
      invariant AllInside(flat, srcRows, limit) && RowsOf(flat, srcRows) == SpanRows(spans[..h])
    {
      flat := SplitSpan(flat, spans[h], srcRows, limit);
      assert spans[..h + 1][..h] == spans[..h];
    }
    assert spans[..|spans|] == spans;
  }

  // ------------------------------------------------------- the row windows

  // The window each part's slices span, as the loop builds it.
  function Windows(slices: seq<Slice>): map<nat, (nat, nat)> {
    if slices == [] then map[]
    else Widen(Windows(slices[..|slices| - 1]), slices[|slices| - 1])
  }

  function Widen(windows: map<nat, (nat, nat)>, s: Slice): map<nat, (nat, nat)> {
    var (lo, hi) := if s.part in windows then windows[s.part] else (s.row0, s.row0 + s.rows);
    windows[s.part := (if lo < s.row0 then lo else s.row0, if hi > s.row0 + s.rows then hi else s.row0 + s.rows)]
  }

  ghost predicate InWindow(windows: map<nat, (nat, nat)>, s: Slice) {
    s.part in windows && windows[s.part].0 <= s.row0 && s.row0 + s.rows <= windows[s.part].1
  }

  // Every slice lies in its part's window ...
  lemma {:induction false} WindowsCover(slices: seq<Slice>, k: nat)
    requires k < |slices|
    ensures InWindow(Windows(slices), slices[k])
  {
    if k < |slices| - 1 {
      WindowsCover(slices[..|slices| - 1], k);
    }
  }

  // ... and each window is one the slices reach to both ends of.
  lemma {:induction false} WindowsTight(slices: seq<Slice>, part: nat) returns (first: Slice, last: Slice)
    requires part in Windows(slices)
    ensures first in slices && first.part == part && first.row0 == Windows(slices)[part].0
    ensures last in slices && last.part == part && last.row0 + last.rows == Windows(slices)[part].1
  {
    var init, s := slices[..|slices| - 1], slices[|slices| - 1];
    first, last := s, s;
    if part in Windows(init) {
      var f, l := WindowsTight(init, part);
      if s.part != part {
        first, last := f, l;
      } else {
        first := if f.row0 < s.row0 then f else s;
        last := if l.row0 + l.rows > s.row0 + s.rows then l else s;
      }
    }
  }

  // --------------------------------------------- dealing the rows out to shards

  // Rows lo .. hi of what has been laid so far.
  function Clip(laid: seq<nat>, lo: nat, hi: nat): seq<nat>
    requires lo <= hi
  {
    laid[Min(lo, |laid|)..Min(hi, |laid|)]
  }

  ghost predicate ShardHolds(layout: seq<seq<Slice>>, laid: seq<nat>, srcRows: nat, dstRows: nat, s: nat)
    requires s < |layout|
  {
    RowsOf(layout[s], srcRows) == Clip(laid, At(s, dstRows), At(s, dstRows) + dstRows)
  }

  // Each output shard holds its own stretch of the rows laid so far.
  ghost predicate Dealt(layout: seq<seq<Slice>>, laid: seq<nat>, srcRows: nat, dstRows: nat) {
    forall s :: 0 <= s < |layout| ==> ShardHolds(layout, laid, srcRows, dstRows, s)
  }

  lemma ClipGrows(laid: seq<nat>, more: seq<nat>, lo: nat, hi: nat)
    requires lo <= |laid| && |laid| + |more| <= hi
    ensures Clip(laid + more, lo, hi) == Clip(laid, lo, hi) + more
  {
  }

  lemma ClipStays(laid: seq<nat>, more: seq<nat>, lo: nat, hi: nat)
    requires lo <= hi && (hi <= |laid| || |laid| + |more| <= lo)
    ensures Clip(laid + more, lo, hi) == Clip(laid, lo, hi)
  {
  }

  lemma DealOne(layout: seq<seq<Slice>>, laid: seq<nat>, srcRows: nat, dstRows: nat, shard: nat, s: Slice)
    requires Dealt(layout, laid, srcRows, dstRows) && shard < |layout|
    requires At(shard, dstRows) <= |laid|
    requires |laid| + s.rows <= At(shard, dstRows) + dstRows
    ensures Dealt(layout[shard := layout[shard] + [s]],
                  laid + Range(s.part * srcRows + s.row0, s.rows), srcRows, dstRows)
  {
    hide At, Clip;
    var layout' := layout[shard := layout[shard] + [s]];
    var more := Range(s.part * srcRows + s.row0, s.rows);
    forall t | 0 <= t < |layout| ensures ShardHolds(layout', laid + more, srcRows, dstRows, t) {
      assert ShardHolds(layout, laid, srcRows, dstRows, t);
      AtApart(t, shard, dstRows);
      AtApart(shard, t, dstRows);
      var lo := At(t, dstRows);
      if t == shard {
        RowsOfAppend(layout[shard], s, srcRows);
        ClipGrows(laid, more, lo, lo + dstRows);
      } else {
        ClipStays(laid, more, lo, lo + dstRows);
      }
    }
  }

  ghost predicate Within(s: Slice, whole: Slice) {
    s.part == whole.part && whole.row0 <= s.row0 && s.row0 + s.rows <= whole.row0 + whole.rows
  }

  // Every slice dealt out is part of one of the slices dealt from.
  ghost predicate AllWithin(layout: seq<seq<Slice>>, flat: seq<Slice>) {
    forall s, k :: 0 <= s < |layout| && 0 <= k < |layout[s]| ==> FromOne(layout[s][k], flat)
  }

  ghost predicate FromOne(s: Slice, flat: seq<Slice>) {
    exists j :: 0 <= j < |flat| && Within(s, flat[j])
  }

  lemma DealOneWithin(layout: seq<seq<Slice>>, flat: seq<Slice>, shard: nat, s: Slice)
    requires AllWithin(layout, flat) && shard < |layout| && FromOne(s, flat)
    ensures AllWithin(layout[shard := layout[shard] + [s]], flat)
  {
    var layout' := layout[shard := layout[shard] + [s]];
    forall t, k | 0 <= t < |layout'| && 0 <= k < |layout'[t]| ensures FromOne(layout'[t][k], flat) {
      if !(t == shard && k == |layout[shard]|) {
        assert layout'[t][k] == layout[t][k];
      }
    }
  }

  // One slice dealt out over as many shards as it reaches.
  method DealSlice(layout0: seq<seq<Slice>>, at0: nat, slice: Slice, srcRows: nat, dstRows: nat,
                   ghost laid: seq<nat>, ghost flat: seq<Slice>)
    returns (layout: seq<seq<Slice>>, at: nat)
    requires dstRows > 0 && at0 == |laid| && at0 + slice.rows <= At(|layout0|, dstRows)
    requires Dealt(layout0, laid, srcRows, dstRows) && AllWithin(layout0, flat) && slice in flat
    ensures |layout| == |layout0| && at == at0 + slice.rows
    ensures Dealt(layout, laid + Range(slice.part * srcRows + slice.row0, slice.rows), srcRows, dstRows)
    ensures AllWithin(layout, flat)
  {
    hide Dealt, AllWithin, RowsOf;
    layout, at := layout0, at0;
    var local, rows := slice.row0, slice.rows;
    ghost var start := slice.part * srcRows + slice.row0;
    assert laid + Range(start, 0) == laid;
    while rows > 0
      invariant |layout| == |layout0| && 0 <= rows <= slice.rows
      invariant at == at0 + (slice.rows - rows) && local == slice.row0 + (slice.rows - rows)
      invariant Dealt(layout, laid + Range(start, slice.rows - rows), srcRows, dstRows)
      invariant AllWithin(layout, flat)
    {
      var (shard, off) := DivMod(at, dstRows);
      AtApart(|layout| - 1, shard, dstRows);
      ShardIndex(shard, |layout|, at, dstRows);
      var take := if rows < dstRows - off then rows else dstRows - off;
      ghost var piece := Slice(slice.part, local, take);
      DealOne(layout, laid + Range(start, slice.rows - rows), srcRows, dstRows, shard, piece);
      DealOneWithin(layout, flat, shard, piece);
      RangeSplits(start, slice.rows - rows + take, slice.rows - rows);
      assert laid + Range(start, slice.rows - rows) + Range(slice.part * srcRows + local, take)
          == laid + Range(start, slice.rows - rows + take);
      layout := layout[shard := layout[shard] + [Slice(slice.part, local, take)]];
      local := local + take;
      at := at + take;
      rows := rows - take;
    }
  }

  lemma ShardIndex(shard: nat, shards: nat, at: nat, dstRows: nat)
    requires dstRows > 0 && At(shard, dstRows) <= at < At(shards, dstRows)
    ensures shard < shards
  {
    AtApart(shards, shard, dstRows);
  }

  // The second loop: the windows, and every slice dealt out in turn.
  method LayOut(flat: seq<Slice>, parts: nat, srcRows: nat, dstRows: nat)
    returns (layout: seq<seq<Slice>>, windows: map<nat, (nat, nat)>, at: nat)
    requires dstRows > 0 && |RowsOf(flat, srcRows)| == At(parts, dstRows)
    ensures |layout| == parts && at == At(parts, dstRows)
    ensures Dealt(layout, RowsOf(flat, srcRows), srcRows, dstRows) && AllWithin(layout, flat)
    ensures windows == Windows(flat)
  {
    hide Dealt, AllWithin, Widen;
    layout := seq(parts, _ => []);
    windows, at := map[], 0;
    NothingDealt(parts, flat, srcRows, dstRows);
    for k := 0 to |flat|
      invariant |layout| == parts && at == |RowsOf(flat[..k], srcRows)|
      invariant Dealt(layout, RowsOf(flat[..k], srcRows), srcRows, dstRows) && AllWithin(layout, flat)
      invariant windows == Windows(flat[..k])
    {
      assert flat[..k + 1][..k] == flat[..k];
      RowsOfPrefix(flat, k + 1, srcRows);
      windows := Widen(windows, flat[k]);
      layout, at := DealSlice(layout, at, flat[k], srcRows, dstRows, RowsOf(flat[..k], srcRows), flat);
    }
    assert flat[..|flat|] == flat;
  }

  lemma NothingDealt(parts: nat, flat: seq<Slice>, srcRows: nat, dstRows: nat)
    ensures Dealt(seq(parts, _ => []), [], srcRows, dstRows) && AllWithin(seq(parts, _ => []), flat)
  {
  }

  lemma {:induction false} RowsOfPrefix(slices: seq<Slice>, k: nat, srcRows: nat)
    requires k <= |slices|
    ensures RowsOf(slices[..k], srcRows) <= RowsOf(slices, srcRows)
  {
    if k < |slices| {
      RowsOfPrefix(slices[..|slices| - 1], k, srcRows);
      assert slices[..|slices| - 1][..k] == slices[..k];
    } else {
      assert slices[..k] == slices;
    }
  }

  lemma {:induction false} DealtRows(layout: seq<seq<Slice>>, laid: seq<nat>, srcRows: nat, dstRows: nat, n: nat)
    requires Dealt(layout, laid, srcRows, dstRows) && n <= |layout|
    requires |laid| == At(|layout|, dstRows)
    ensures At(n, dstRows) <= |laid|
    ensures LayoutRows(layout[..n], srcRows) == laid[..At(n, dstRows)]
    ensures forall s :: 0 <= s < n ==> |RowsOf(layout[s], srcRows)| == dstRows
  {
    hide At;
    AtApart(n, |layout|, dstRows);
    AtAdds(0, 0, dstRows);
    if n > 0 {
      AtAdds(n - 1, 1, dstRows);
      DealtRows(layout, laid, srcRows, dstRows, n - 1);
      assert ShardHolds(layout, laid, srcRows, dstRows, n - 1);
      assert layout[..n][..n - 1] == layout[..n - 1];
    }
  }
}

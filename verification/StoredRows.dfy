// Which row of the file's table a carve reads, whatever the heights of the shards it
// is stored in.

module StoredRows {
  import opened Arithmetic
  import opened HashGeometry
  import opened PleCarve
  import opened PlePlan

  // Counting through the shards as they are stored, row g is this row of this shard.
  ghost predicate IsStoredRow(heights: seq<nat>, g: nat, part: nat, local: nat) {
    part < |heights| && local < heights[part] && Sum(heights[..part]) + local == g
  }

  // Row g % srcRows of shard g / srcRows is the table's row g.
  ghost predicate RowRight(heights: seq<nat>, srcRows: nat, g: nat)
    requires srcRows > 0
  {
    IsStoredRow(heights, g, g / srcRows, g % srcRows)
  }

  ghost predicate RowsRight(rows: seq<nat>, srcRows: nat, heights: seq<nat>)
    requires srcRows > 0
  {
    forall g :: g in rows ==> RowRight(heights, srcRows, g)
  }

  type Windows = map<nat, (nat, nat)>

  // A shard read through a window starts where it should and reaches the window's end.
  ghost predicate PlacedRight(windows: Windows, srcRows: nat, heights: seq<nat>, part: nat)
    requires part in windows
  {
    part < |heights| && Sum(heights[..part]) == At(part, srcRows) && windows[part].1 <= heights[part]
  }

  ghost predicate AllPlaced(windows: Windows, srcRows: nat, heights: seq<nat>) {
    forall part :: part in windows ==> PlacedRight(windows, srcRows, heights, part)
  }

  ghost predicate RowWindowed(windows: Windows, srcRows: nat, g: nat)
    requires srcRows > 0
  {
    var part, local := g / srcRows, g % srcRows;
    part in windows && windows[part].0 <= local < windows[part].1
  }

  ghost predicate EndsRead(rows: seq<nat>, windows: Windows, srcRows: nat, part: nat)
    requires part in windows
  {
    var (lo, hi) := windows[part];
    lo < hi <= srcRows && At(part, srcRows) + lo in rows && At(part, srcRows) + hi - 1 in rows
  }

  // Rows and the windows they are read through.
  ghost predicate Tight(rows: seq<nat>, windows: Windows, srcRows: nat)
    requires srcRows > 0
  {
    && (forall g :: g in rows ==> RowWindowed(windows, srcRows, g))
    && (forall part :: part in windows ==> EndsRead(rows, windows, srcRows, part))
  }

  lemma ReadMeansPlaced(rows: seq<nat>, windows: Windows, srcRows: nat, heights: seq<nat>, part: nat)
    requires srcRows > 0 && part in windows && EndsRead(rows, windows, srcRows, part) && RowsRight(rows, srcRows, heights)
    ensures PlacedRight(windows, srcRows, heights, part)
  {
    hide At;
    var (lo, hi) := windows[part];
    var first, last := At(part, srcRows) + lo, At(part, srcRows) + hi - 1;
    PlaceInGroups(part, lo, part + 1, srcRows);
    PlaceInGroups(part, hi - 1, part + 1, srcRows);
    assert RowRight(heights, srcRows, first) && RowRight(heights, srcRows, last);
  }

  lemma PlacedMeansRead(windows: Windows, srcRows: nat, heights: seq<nat>, g: nat)
    requires srcRows > 0 && RowWindowed(windows, srcRows, g) && AllPlaced(windows, srcRows, heights)
    ensures RowRight(heights, srcRows, g)
  {
    var place := DivMod(g, srcRows);
    AtMeans(place.0, srcRows);
    hide At;
    assert PlacedRight(windows, srcRows, heights, place.0);
  }

  lemma TightIsRight(rows: seq<nat>, windows: Windows, srcRows: nat, heights: seq<nat>)
    requires srcRows > 0 && Tight(rows, windows, srcRows)
    ensures RowsRight(rows, srcRows, heights) <==> AllPlaced(windows, srcRows, heights)
  {
    hide EndsRead, RowWindowed, PlacedRight, RowRight;
    if RowsRight(rows, srcRows, heights) {
      forall part | part in windows ensures PlacedRight(windows, srcRows, heights, part) {
        ReadMeansPlaced(rows, windows, srcRows, heights, part);
      }
    }
    if AllPlaced(windows, srcRows, heights) {
      forall g | g in rows ensures RowRight(heights, srcRows, g) {
        PlacedMeansRead(windows, srcRows, heights, g);
      }
    }
  }

  // ------------------------------------------------------------------ of a carve

  lemma {:induction false} SliceOfRow(slices: seq<Slice>, srcRows: nat, g: nat) returns (k: nat)
    requires g in RowsOf(slices, srcRows)
    ensures k < |slices|
    ensures var s := slices[k]; At(s.part, srcRows) + s.row0 <= g < At(s.part, srcRows) + s.row0 + s.rows
  {
    var n := |slices| - 1;
    if g in RowsOf(slices[..n], srcRows) {
      k := SliceOfRow(slices[..n], srcRows, g);
    } else {
      k := n;
    }
  }

  lemma {:induction false} ShardOfRow(layout: seq<seq<Slice>>, srcRows: nat, g: nat) returns (p: nat)
    requires g in LayoutRows(layout, srcRows)
    ensures p < |layout| && g in RowsOf(layout[p], srcRows)
  {
    var n := |layout| - 1;
    if g in LayoutRows(layout[..n], srcRows) {
      p := ShardOfRow(layout[..n], srcRows, g);
    } else {
      p := n;
    }
  }

  // A row the carve reads lies in its shard's window.
  lemma CarveRowWindowed(c: Carve, g: nat)
    requires Faithful(c) && g in LayoutRows(c.layout, c.SrcRows())
    ensures RowWindowed(c.windows, c.SrcRows(), g)
  {
    hide RowsOf, LayoutRows, SameRows;
    var p := ShardOfRow(c.layout, c.SrcRows(), g);
    var k := SliceOfRow(c.layout[p], c.SrcRows(), g);
    var s := c.layout[p][k];
    assert SliceFits(c, s);
    hide Faithful, At;
    PlaceInGroups(s.part, g - At(s.part, c.SrcRows()), s.part + 1, c.SrcRows());
  }

  lemma CarveIsTight(c: Carve)
    requires Faithful(c)
    ensures Tight(LayoutRows(c.layout, c.SrcRows()), c.windows, c.SrcRows())
  {
    hide RowsOf, LayoutRows, SameRows, RowWindowed;
    var rows := LayoutRows(c.layout, c.SrcRows());
    forall g | g in rows ensures RowWindowed(c.windows, c.SrcRows(), g) {
      CarveRowWindowed(c, g);
    }
    forall part | part in c.windows ensures EndsRead(rows, c.windows, c.SrcRows(), part) {
      assert WindowFits(c, part, rows);
    }
  }

  // Every row the carve reads is the table's own.
  ghost predicate ReadsRight(c: Carve, heights: seq<nat>)
    requires Faithful(c)
  {
    RowsRight(LayoutRows(c.layout, c.SrcRows()), c.SrcRows(), heights)
  }

  // The rows written are the table's own exactly when every shard read through a window
  // starts at its multiple of the derived height and reaches its window's end.
  lemma RightExactly(c: Carve, heights: seq<nat>)
    requires Faithful(c)
    ensures ReadsRight(c, heights) <==> AllPlaced(c.windows, c.SrcRows(), heights)
  {
    CarveIsTight(c);
    hide Tight, RowsRight, AllPlaced, LayoutRows;
    TightIsRight(LayoutRows(c.layout, c.SrcRows()), c.windows, c.SrcRows(), heights);
  }

  lemma CarveShape(c: Carve)
    requires Faithful(c)
    ensures c.srcParts > 0 && c.SrcRows() > 0
  {
  }

  lemma WindowBounds(c: Carve, part: nat)
    requires Faithful(c) && part in c.windows
    ensures c.srcParts > 0 && part < c.srcParts && c.windows[part].0 < c.windows[part].1 <= c.SrcRows()
  {
    assert WindowFits(c, part, LayoutRows(c.layout, c.SrcRows()));
  }

  // Shards all as tall as derived are right.
  lemma EqualHeightsAreRight(c: Carve, heights: seq<nat>)
    requires Faithful(c) && |heights| == c.srcParts && forall k :: 0 <= k < |heights| ==> heights[k] == c.SrcRows()
    ensures ReadsRight(c, heights)
  {
    hide ReadsRight, LayoutRows, Sum, At;
    RightExactly(c, heights);
    forall part | part in c.windows ensures PlacedRight(c.windows, c.SrcRows(), heights, part) {
      WindowBounds(c, part);
      SumOfEqual(heights[..part], c.SrcRows());
    }
  }

  lemma {:induction false} SumOfEqual(heights: seq<nat>, height: nat)
    requires forall k :: 0 <= k < |heights| ==> heights[k] == height
    ensures Sum(heights) == At(|heights|, height)
  {
    AtAdds(0, 0, height);
    if heights != [] {
      SumOfEqual(heights[..|heights| - 1], height);
      AtAdds(|heights| - 1, 1, height);
    }
  }

  // One shard too short for its window is wrong, whichever it is.
  lemma OneShortShard(c: Carve, part: nat) returns (heights: seq<nat>)
    requires Faithful(c) && part in c.windows
    ensures |heights| == c.srcParts && forall k :: 0 <= k < |heights| && k != part ==> heights[k] == c.SrcRows()
    ensures !ReadsRight(c, heights)
  {
    hide ReadsRight, Faithful, Sum, At;
    WindowBounds(c, part);
    heights := seq<nat>(c.srcParts, k => if k == part then c.windows[part].1 - 1 else c.SrcRows());
    RightExactly(c, heights);
    assert !PlacedRight(c.windows, c.SrcRows(), heights, part);
  }

  // ---------------------------------------------------- what the height check is worth

  // The shards the loop looks at have the derived height.
  ghost predicate LookedAt(heights: seq<nat>, n: nat, srcRows: int) {
    forall k :: 0 <= k < n && k < |heights| ==> heights[k] == srcRows
  }

  // Every window ends within its shard, so that nothing fails.
  ghost predicate HeightsReach(windows: Windows, heights: seq<nat>) {
    forall part :: part in windows ==> part < |heights| && windows[part].1 <= heights[part]
  }

  // Looking at the first n shards, with nothing failing afterwards, is enough for the rows
  // to be right exactly when no window is on a shard past the first one not looked at.
  lemma CheckIsEnoughExactly(c: Carve, n: nat)
    requires Faithful(c) && n <= c.srcParts
    ensures (forall heights: seq<nat> ::
               |heights| == c.srcParts && LookedAt(heights, n, c.SrcRows()) && HeightsReach(c.windows, heights) ==>
                 ReadsRight(c, heights))
            <==> (forall part :: part in c.windows ==> part <= n)
  {
    CarveShape(c);
    hide ReadsRight, LookedAt, HeightsReach, Faithful;
    if forall part :: part in c.windows ==> part <= n {
      forall heights: seq<nat> | |heights| == c.srcParts && LookedAt(heights, n, c.SrcRows()) && HeightsReach(c.windows, heights)
        ensures ReadsRight(c, heights)
      {
        CheckIsEnough(c, heights, n);
      }
    } else {
      var part :| part in c.windows && part > n;
      var heights := CheckIsNotEnough(c, part, n);
    }
  }

  lemma CheckIsEnough(c: Carve, heights: seq<nat>, n: nat)
    requires Faithful(c) && |heights| == c.srcParts && LookedAt(heights, n, c.SrcRows()) && HeightsReach(c.windows, heights)
    requires forall part :: part in c.windows ==> part <= n
    ensures ReadsRight(c, heights)
  {
    CarveShape(c);
    hide ReadsRight, Faithful, Sum, At;
    RightExactly(c, heights);
    forall part | part in c.windows ensures PlacedRight(c.windows, c.SrcRows(), heights, part) {
      WindowBounds(c, part);
      SumOfEqual(heights[..part], c.SrcRows());
    }
  }

  // Otherwise a shard in between that is one row too tall moves every row after it, and
  // nothing shows.
  lemma CheckIsNotEnough(c: Carve, part: nat, n: nat) returns (heights: seq<nat>)
    requires Faithful(c) && part in c.windows && n < part
    ensures |heights| == c.srcParts && LookedAt(heights, n, c.SrcRows()) && HeightsReach(c.windows, heights)
    ensures !ReadsRight(c, heights)
  {
    hide ReadsRight, Faithful, Sum, At;
    WindowBounds(c, part);
    var height: nat := c.SrcRows();
    heights := seq<nat>(c.srcParts, k => if k == n then height + 1 else height);
    forall other | other in c.windows ensures other < |heights| && c.windows[other].1 <= heights[other] {
      WindowBounds(c, other);
    }
    SumOfOneTaller(heights[..part], n, c.SrcRows());
    RightExactly(c, heights);
    assert !PlacedRight(c.windows, c.SrcRows(), heights, part);
  }

  lemma {:induction false} SumOfOneTaller(heights: seq<nat>, n: nat, height: nat)
    requires n < |heights| && forall k :: 0 <= k < |heights| ==> heights[k] == if k == n then height + 1 else height
    ensures Sum(heights) == At(|heights|, height) + 1
  {
    var m := |heights| - 1;
    AtAdds(m, 1, height);
    if n < m {
      SumOfOneTaller(heights[..m], n, height);
    } else {
      SumOfEqual(heights[..m], height);
    }
  }
}

// The device's beam search: every lane's cache is a boolean mask over one shared
// pool of slots. It runs the reference search, lane for lane.

module BeamPool {
  import opened Arithmetic
  import opened BeamReference

  // What the loop-carried channels hold between two fires, and the pool's rows.
  datatype Device = Device(scores: seq<Score>, toks: seq<int>, mask: seq<seq<bool>>, slots: seq<nat>, pos: seq<nat>,
                           fill: nat, kvLen: seq<nat>, pool: map<nat, Row>)

  // The slots a mask row admits below n, in slot order.
  function Admitted(row: seq<bool>, n: nat): seq<nat> {
    if n == 0 then []
    else Admitted(row, n - 1) + if n - 1 < |row| && row[n - 1] then [n - 1] else []
  }

  // The rows at those slots. A slot nothing was written to attends to nothing.
  function RowsAt(pool: map<nat, Row>, slots: seq<nat>): seq<Row> {
    if slots == [] then []
    else
      var last := slots[|slots| - 1];
      RowsAt(pool, slots[..|slots| - 1]) + if last in pool then [pool[last]] else []
  }

  // What a lane attends to: the slots its mask admits below its length.
  function Attended(pool: map<nat, Row>, row: seq<bool>, kvLen: nat): seq<Row> {
    RowsAt(pool, Admitted(row, kvLen))
  }

  // The row lane b's token leaves in the pool: it attends to all but its own slot.
  function NewRow(d: Device, b: nat): Row
    requires b < |d.toks| == |d.slots| == |d.pos| == |d.mask| == |d.kvLen|
  {
    Row(d.toks[b], d.pos[b], Attended(d.pool, Others(d.mask[b], d.slots[b]), d.kvLen[b]))
  }

  // A mask row less one slot.
  function Others(row: seq<bool>, slot: nat): (r: seq<bool>)
    ensures |r| == |row|
  {
    seq(|row|, p requires 0 <= p < |row| => row[p] && p != slot)
  }

  ghost predicate Shaped(m: Model, d: Device, poolLen: nat) {
    && |d.scores| == |d.toks| == |d.mask| == |d.slots| == |d.pos| == |d.kvLen| == m.beams
    && forall b :: 0 <= b < m.beams ==> |d.mask[b]| == poolLen
  }

  // The pool after the first n lanes' rows are written.
  function Written(m: Model, d: Device, poolLen: nat, n: nat): map<nat, Row>
    requires Shaped(m, d, poolLen) && n <= m.beams
  {
    if n == 0 then d.pool else Written(m, d, poolLen, n - 1)[d.slots[n - 1] := NewRow(d, n - 1)]
  }

  // What the lanes attend to once their tokens are in.
  function Views(m: Model, d: Device, poolLen: nat): (v: seq<seq<Row>>)
    requires Shaped(m, d, poolLen)
    ensures |v| == m.beams
  {
    var pool := Written(m, d, poolLen, m.beams);
    seq(m.beams, b requires 0 <= b < m.beams => Attended(pool, d.mask[b], d.kvLen[b]))
  }

  // `or_(inherited, newpos)`: the parent's row, and one new slot.
  function Inherit(row: seq<bool>, slot: nat): (r: seq<bool>)
    ensures |r| == |row|
  {
    seq(|row|, p requires 0 <= p < |row| => row[p] || p == slot)
  }

  // What the epilogue makes of the channels, once the extensions are picked: each
  // lane takes its parent's mask row and the next free slot.
  function MoveOn(m: Model, d: Device, r: Report): Device
    requires |d.pos| == |d.mask| == |r.parents| == m.beams && forall b :: 0 <= b < m.beams ==> r.parents[b] < m.beams
  {
    Device(r.scores, r.picked,
           seq(m.beams, b requires 0 <= b < m.beams => Inherit(d.mask[r.parents[b]], d.fill + b)),
           seq<nat>(m.beams, b requires 0 <= b < m.beams => d.fill + b),
           seq<nat>(m.beams, b requires 0 <= b < m.beams => d.pos[b] + 1),
           d.fill + m.beams,
           seq<nat>(m.beams, b requires 0 <= b < m.beams => d.fill + m.beams),
           d.pool)
  }

  // One fire: the forward pass writes and reads the pool, the epilogue picks the
  // lanes' extensions and moves every channel on.
  function Fire(m: Model, d: Device, poolLen: nat): (d': Device)
    requires m.Valid() && Shaped(m, d, poolLen)
    ensures Shaped(m, d', poolLen)
  {
    PickInRange(m, d.scores, Views(m, d, poolLen));
    MoveOn(m, d.(pool := Written(m, d, poolLen, m.beams)), FireReport(m, d, poolLen))
  }

  // What the fire puts on the four host rings.
  function FireReport(m: Model, d: Device, poolLen: nat): (r: Report)
    requires m.Valid() && Shaped(m, d, poolLen)
    ensures |r.picked| == |r.parents| == |r.scores| == |r.greedy| == m.beams
  {
    Pick(m, d.scores, Views(m, d, poolLen))
  }

  // A slot for BOS and one for each lane of each step.
  function PoolLen(m: Model, steps: nat): nat {
    At(steps, m.beams) + 1
  }

  lemma PoolLenIs(m: Model, steps: nat)
    ensures PoolLen(m, steps) == steps * m.beams + 1
  {
  }

  function Start(m: Model, steps: nat): Device {
    Device(Initial(m).scores, seq(m.beams, _ => BOS), seq(m.beams, _ => seq(PoolLen(m, steps), p => p == 0)),
           seq(m.beams, _ => 0), seq(m.beams, _ => 0), 1, seq(m.beams, _ => 1), map[])
  }

  // -------------------------------------------------------------- one lane's path

  // Where the slots of generation g start: BOS has slot 0 to itself, every later
  // generation one slot a lane.
  function GenStart(m: Model, g: nat): nat {
    if g == 0 then 0 else 1 + At(g - 1, m.beams)
  }

  // The slots of one lane's ancestry: exactly one of each generation.
  ghost predicate IsPath(m: Model, path: seq<nat>) {
    forall g :: 0 <= g < |path| ==> GenStart(m, g) <= path[g] < GenStart(m, g + 1)
  }

  // The mask row admits the path's slots and no others.
  ghost predicate Admits(row: seq<bool>, path: seq<nat>) {
    && (forall p :: 0 <= p < |row| ==> (row[p] <==> p in path))
    && forall g :: 0 <= g < |path| ==> path[g] < |row|
  }

  lemma GenStartsRise(m: Model, g: nat, h: nat)
    requires g < h && m.beams > 0
    ensures GenStart(m, g + 1) <= GenStart(m, h)
  {
    if g > 0 {
      AtApart(g - 1, g, m.beams);
      AtApart(g, h - 1, m.beams);
    } else {
      AtAdds(0, 0, m.beams);
    }
  }

  lemma PathRises(m: Model, path: seq<nat>, g: nat, h: nat)
    requires IsPath(m, path) && g < h < |path| && m.beams > 0
    ensures path[g] < path[h]
  {
    GenStartsRise(m, g, h);
  }

  ghost predicate Rising(path: seq<nat>) {
    forall g, h :: 0 <= g < h < |path| ==> path[g] < path[h]
  }

  // The first k slots of the path are those below n.
  ghost predicate SplitsAt(path: seq<nat>, n: nat, k: nat) {
    k <= |path| && (forall g :: 0 <= g < k ==> path[g] < n) && (forall g :: k <= g < |path| ==> path[g] >= n)
  }

  lemma SplitHit(path: seq<nat>, n: nat, k: nat)
    requires n > 0 && Rising(path) && SplitsAt(path, n, k) && n - 1 in path
    ensures k > 0 && path[k - 1] == n - 1 && SplitsAt(path, n - 1, k - 1)
  {
    var g :| 0 <= g < |path| && path[g] == n - 1;
    assert g < k;
    var last := path[k - 1];
    assert g == k - 1;
  }

  lemma SplitMiss(path: seq<nat>, n: nat, k: nat)
    requires n > 0 && SplitsAt(path, n, k) && n - 1 !in path
    ensures SplitsAt(path, n - 1, k)
  {
    forall g | 0 <= g < k ensures path[g] < n - 1 {
      assert path[g] in path;
    }
  }

  // Read in slot order, a rising path is itself.
  lemma {:induction false} AdmittedIsPrefix(row: seq<bool>, path: seq<nat>, n: nat, k: nat)
    requires Admits(row, path) && Rising(path) && SplitsAt(path, n, k)
    ensures Admitted(row, n) == path[..k]
  {
    var first := if k > 0 then path[0] else 0;
    if n == 0 {
      assert k == 0;
    } else if n - 1 in path {
      SplitHit(path, n, k);
      hide Rising, SplitsAt;
      AdmittedIsPrefix(row, path, n - 1, k - 1);
      assert path[..k] == path[..k - 1] + [n - 1];
    } else {
      SplitMiss(path, n, k);
      hide Rising, SplitsAt;
      AdmittedIsPrefix(row, path, n - 1, k);
    }
  }

  // A mask row admits exactly its lane's ancestry, read below any bound past it.
  lemma AdmittedIsPath(m: Model, row: seq<bool>, path: seq<nat>, n: nat)
    requires m.beams > 0 && IsPath(m, path) && Admits(row, path)
    requires forall g :: 0 <= g < |path| ==> path[g] < n
    ensures Admitted(row, n) == path
  {
    forall g, h | 0 <= g < h < |path| ensures path[g] < path[h] {
      PathRises(m, path, g, h);
    }
    AdmittedIsPrefix(row, path, n, |path|);
    assert path[..|path|] == path;
  }

  // -------------------------------------------------------------- the invariant

  // Lane b after n fires: its ancestry has one slot a generation, its last slot is
  // the one its token goes to next, and the rows before that are those its own
  // cache would hold.
  ghost predicate LaneOk(m: Model, d: Device, hyp: seq<int>, b: nat, n: nat, path: seq<nat>)
    requires b < |d.toks| == |d.slots| == |d.pos| == |d.mask| == |d.kvLen|
  {
    var tokens := [BOS] + hyp;
    && |hyp| == n && |path| == n + 1 && IsPath(m, path) && Admits(d.mask[b], path)
    && d.slots[b] == path[n] && d.toks[b] == tokens[n] && d.pos[b] == n
    && (forall g :: 0 <= g < n ==> path[g] in d.pool && d.pool[path[g]] == OwnCache(tokens)[g])
  }

  // The device after n fires, against the reference search after n steps.
  ghost predicate Refines(m: Model, d: Device, n: nat, steps: nat, paths: seq<seq<nat>>)
    requires m.Valid()
  {
    var s := Run(m, n);
    && n <= steps && |paths| == m.beams && Shaped(m, d, PoolLen(m, steps))
    && d.scores == s.scores
    && d.fill == GenStart(m, n + 1) && d.fill <= PoolLen(m, steps)
    && (forall b :: 0 <= b < m.beams ==> d.slots[b] < d.fill)
    && (forall b :: 0 <= b < m.beams ==> d.kvLen[b] == d.fill && LaneOk(m, d, s.hyps[b], b, n, paths[b]))
    // Lanes share a slot only for BOS, and nothing is written past the fill.
    && (n > 0 ==> forall b, c :: 0 <= b < c < m.beams ==> d.slots[b] != d.slots[c])
    && (forall p :: p in d.pool ==> p < GenStart(m, n))
  }

  lemma {:induction false} RowsAtLength(pool: map<nat, Row>, slots: seq<nat>, rows: seq<Row>)
    requires |slots| == |rows| && forall g :: 0 <= g < |slots| ==> slots[g] in pool && pool[slots[g]] == rows[g]
    ensures RowsAt(pool, slots) == rows
  {
    if slots != [] {
      var n := |slots| - 1;
      RowsAtLength(pool, slots[..n], rows[..n]);
    }
  }

  // The row a lane writes is the one its own cache would gain.
  lemma NewRowIsOwn(m: Model, d: Device, hyp: seq<int>, b: nat, n: nat, path: seq<nat>)
    requires m.beams > 0 && b < |d.toks| == |d.slots| == |d.pos| == |d.mask| == |d.kvLen|
    requires LaneOk(m, d, hyp, b, n, path) && d.kvLen[b] == GenStart(m, n + 1)
    ensures NewRow(d, b) == OwnCache([BOS] + hyp)[n]
  {
    var tokens := [BOS] + hyp;
    var row := Others(d.mask[b], d.slots[b]);
    var init := path[..n];
    OwnSlotOut(m, d.mask[b], path, n);
    forall g | 0 <= g < n ensures path[g] < GenStart(m, n + 1) {
      GenStartsRise(m, g, n + 1);
    }
    AdmittedIsPath(m, row, init, d.kvLen[b]);
    OwnCachePrefix(tokens, n);
    RowsAtLength(d.pool, init, OwnCache(tokens)[..n]);
    assert tokens[..|tokens| - 1] == tokens[..n];
  }

  lemma OwnSlotOut(m: Model, row: seq<bool>, path: seq<nat>, n: nat)
    requires m.beams > 0 && IsPath(m, path) && |path| == n + 1 && Admits(row, path)
    ensures path[n] < |row| && Admits(Others(row, path[n]), path[..n])
  {
    var row' := Others(row, path[n]);
    forall p | 0 <= p < |row'| ensures row'[p] <==> p in path[..n] {
      if p in path && p != path[n] {
        var g :| 0 <= g < |path| && path[g] == p;
        assert path[..n][g] == p;
      }
      if p in path[..n] {
        var g :| 0 <= g < n && path[..n][g] == p;
        PathRises(m, path, g, n);
        assert path[g] == p;
      }
    }
  }

  // ------------------------------------------------------------------- one fire

  // What the first k writes do to the pool.
  ghost predicate WroteRows(d: Device, pool: map<nat, Row>, rows: seq<Row>, k: nat)
    requires k <= |rows| <= |d.slots|
  {
    && (forall b :: 0 <= b < k ==> d.slots[b] in pool && pool[d.slots[b]] == rows[b])
    && (forall p :: p in d.pool && p !in d.slots ==> p in pool && pool[p] == d.pool[p])
  }

  lemma WriteOne(d: Device, pool: map<nat, Row>, rows: seq<Row>, k: nat)
    requires k < |rows| <= |d.slots| && WroteRows(d, pool, rows, k)
    requires forall b, c :: 0 <= b < |rows| && 0 <= c < |rows| && d.slots[b] == d.slots[c] ==> rows[b] == rows[c]
    ensures WroteRows(d, pool[d.slots[k] := rows[k]], rows, k + 1)
  {
  }

  // The writes, lane by lane, when lanes that share a slot write the same row.
  lemma {:induction false} WrittenIs(m: Model, d: Device, poolLen: nat, rows: seq<Row>, k: nat, limit: nat)
    requires Shaped(m, d, poolLen) && |rows| == m.beams && k <= m.beams
    requires forall b :: 0 <= b < m.beams ==> NewRow(d, b) == rows[b]
    requires forall b, c :: 0 <= b < m.beams && 0 <= c < m.beams && d.slots[b] == d.slots[c] ==> rows[b] == rows[c]
    requires (forall p :: p in d.pool ==> p < limit) && forall b :: 0 <= b < m.beams ==> d.slots[b] < limit
    ensures WroteRows(d, Written(m, d, poolLen, k), rows, k)
    ensures forall p :: p in Written(m, d, poolLen, k) ==> p < limit
  {
    hide NewRow, WroteRows;
    if k > 0 {
      WrittenIs(m, d, poolLen, rows, k - 1, limit);
      WriteOne(d, Written(m, d, poolLen, k - 1), rows, k - 1);
    } else {
      NothingWrote(d, rows);
    }
  }

  lemma NothingWrote(d: Device, rows: seq<Row>)
    requires |rows| <= |d.slots|
    ensures WroteRows(d, d.pool, rows, 0)
  {
  }

  // The last row of each lane's own cache.
  function OwnRows(s: Beams, n: nat): (rows: seq<Row>)
    requires forall b :: 0 <= b < |s.hyps| ==> |s.hyps[b]| == n
    ensures |rows| == |s.hyps|
  {
    seq(|s.hyps|, b requires 0 <= b < |s.hyps| => OwnCache([BOS] + s.hyps[b])[n])
  }

  lemma WritesOwnRows(m: Model, d: Device, n: nat, steps: nat, paths: seq<seq<nat>>)
    requires m.Valid() && Refines(m, d, n, steps, paths)
    ensures var rows := OwnRows(Run(m, n), n);
            && (forall b :: 0 <= b < m.beams ==> NewRow(d, b) == rows[b])
            && (forall b, c :: 0 <= b < m.beams && 0 <= c < m.beams && d.slots[b] == d.slots[c] ==> rows[b] == rows[c])
  {
    hide OwnCache, NewRow;
    var s := Run(m, n);
    forall b | 0 <= b < m.beams ensures NewRow(d, b) == OwnCache([BOS] + s.hyps[b])[n] {
      NewRowIsOwn(m, d, s.hyps[b], b, n, paths[b]);
    }
    if n == 0 {
      assert forall b :: 0 <= b < m.beams ==> s.hyps[b] == [];
    }
  }

  // After the writes the pool holds every lane's newest row, keeps the others, and
  // ends where the next generation starts.
  lemma PoolAfterWrites(m: Model, d: Device, n: nat, steps: nat, paths: seq<seq<nat>>)
    requires m.Valid() && Refines(m, d, n, steps, paths)
    ensures var pool := Written(m, d, PoolLen(m, steps), m.beams);
            && WroteRows(d, pool, OwnRows(Run(m, n), n), m.beams)
            && forall p :: p in pool ==> p < GenStart(m, n + 1)
  {
    hide OwnCache, NewRow, Run, IsPath, Admits, GenStart, WroteRows;
    var s := Run(m, n);
    WritesOwnRows(m, d, n, steps, paths);
    GenStartsRise(m, n, n + 1);
    GenNonEmpty(m, n);
    forall b | 0 <= b < m.beams ensures d.slots[b] < GenStart(m, n + 1) {
      assert LaneOk(m, d, s.hyps[b], b, n, paths[b]);
      PathBelow(m, paths[b], n);
    }
    WrittenIs(m, d, PoolLen(m, steps), OwnRows(s, n), m.beams, GenStart(m, n + 1));
  }

  lemma GenNonEmpty(m: Model, n: nat)
    requires m.beams > 0
    ensures GenStart(m, n) < GenStart(m, n + 1)
  {
    if n > 0 {
      AtApart(n - 1, n, m.beams);
    }
  }

  lemma KeptInPool(d: Device, pool: map<nat, Row>, rows: seq<Row>, p: nat)
    requires |rows| <= |d.slots| && WroteRows(d, pool, rows, |rows|) && p in d.pool && p !in d.slots
    ensures p in pool && pool[p] == d.pool[p]
  {
  }

  lemma NewInPool(d: Device, pool: map<nat, Row>, rows: seq<Row>, b: nat)
    requires |rows| <= |d.slots| && WroteRows(d, pool, rows, |rows|) && b < |rows|
    ensures d.slots[b] in pool && pool[d.slots[b]] == rows[b]
  {
  }

  // Every lane's whole ancestry is in the pool ...
  lemma AncestryInPool(m: Model, d: Device, n: nat, steps: nat, paths: seq<seq<nat>>, b: nat, g: nat)
    requires m.Valid() && Refines(m, d, n, steps, paths) && b < m.beams && g <= n
    ensures var pool := Written(m, d, PoolLen(m, steps), m.beams);
            && paths[b][g] in pool && pool[paths[b][g]] == OwnCache([BOS] + Run(m, n).hyps[b])[g]
  {
    hide OwnCache, NewRow, Written, Run, IsPath, Admits, GenStart, WroteRows;
    PoolAfterWrites(m, d, n, steps, paths);
    assert LaneOk(m, d, Run(m, n).hyps[b], b, n, paths[b]);
    var pool, rows := Written(m, d, PoolLen(m, steps), m.beams), OwnRows(Run(m, n), n);
    if g < n {
      EarlierSlotKept(m, d, n, steps, paths, b, g);
      KeptInPool(d, pool, rows, paths[b][g]);
    } else {
      NewInPool(d, pool, rows, b);
    }
  }

  // ... and what the lane attends to is what its own cache would hold.
  lemma LaneView(m: Model, d: Device, n: nat, steps: nat, paths: seq<seq<nat>>, b: nat)
    requires m.Valid() && Refines(m, d, n, steps, paths) && b < m.beams
    ensures Attended(Written(m, d, PoolLen(m, steps), m.beams), d.mask[b], d.kvLen[b]) == OwnCache([BOS] + Run(m, n).hyps[b])
  {
    hide OwnCache, NewRow, Written, Run, IsPath, Admits, GenStart;
    var path, tokens := paths[b], [BOS] + Run(m, n).hyps[b];
    assert LaneOk(m, d, Run(m, n).hyps[b], b, n, path);
    forall g | 0 <= g <= n
      ensures path[g] in Written(m, d, PoolLen(m, steps), m.beams)
              && Written(m, d, PoolLen(m, steps), m.beams)[path[g]] == OwnCache(tokens)[g]
    {
      AncestryInPool(m, d, n, steps, paths, b, g);
    }
    PathBelow(m, path, n);
    AdmittedIsPath(m, d.mask[b], path, d.kvLen[b]);
    RowsAtLength(Written(m, d, PoolLen(m, steps), m.beams), path, OwnCache(tokens));
  }

  lemma PathBelow(m: Model, path: seq<nat>, n: nat)
    requires m.beams > 0 && IsPath(m, path) && |path| == n + 1
    ensures forall g :: 0 <= g <= n ==> path[g] < GenStart(m, n + 1)
    ensures forall g :: 0 <= g < n ==> path[g] < GenStart(m, n)
    ensures GenStart(m, n) <= path[n]
  {
    forall g | 0 <= g <= n ensures path[g] < GenStart(m, n + 1) && (g < n ==> path[g] < GenStart(m, n)) {
      GenStartsRise(m, g, n + 1);
      if g < n {
        GenStartsRise(m, g, n);
      }
    }
  }

  // No lane's write lands on an earlier generation's slot.
  lemma EarlierSlotKept(m: Model, d: Device, n: nat, steps: nat, paths: seq<seq<nat>>, b: nat, g: nat)
    requires m.Valid() && Refines(m, d, n, steps, paths) && b < m.beams && g < n
    ensures paths[b][g] in d.pool && paths[b][g] !in d.slots
    ensures d.pool[paths[b][g]] == OwnCache([BOS] + Run(m, n).hyps[b])[g]
  {
    hide OwnCache, Run, IsPath, Admits, GenStart;
    var s := Run(m, n);
    assert LaneOk(m, d, s.hyps[b], b, n, paths[b]);
    PathBelow(m, paths[b], n);
    forall c | 0 <= c < m.beams ensures d.slots[c] != paths[b][g] {
      assert LaneOk(m, d, s.hyps[c], c, n, paths[c]);
      PathBelow(m, paths[c], n);
    }
  }

  // What the fire reports is what the reference step reports.
  lemma ReportsAgree(m: Model, d: Device, n: nat, steps: nat, paths: seq<seq<nat>>)
    requires m.Valid() && Refines(m, d, n, steps, paths)
    ensures FireReport(m, d, PoolLen(m, steps)) == StepReport(m, Run(m, n))
  {
    hide OwnCache, Run, Admitted, RowsAt, Pick;
    var s := Run(m, n);
    forall b | 0 <= b < m.beams ensures Views(m, d, PoolLen(m, steps))[b] == Caches(s.hyps)[b] {
      LaneView(m, d, n, steps, paths, b);
    }
    assert Views(m, d, PoolLen(m, steps)) == Caches(s.hyps);
  }

  // A child's ancestry: its parent's, and a slot of the new generation.
  lemma PathGrows(m: Model, path: seq<nat>, n: nat, slot: nat)
    requires IsPath(m, path) && |path| == n + 1 && GenStart(m, n + 1) <= slot < GenStart(m, n + 2)
    ensures IsPath(m, path + [slot])
  {
    hide GenStart;
  }

  lemma MaskGrows(row: seq<bool>, path: seq<nat>, slot: nat)
    requires Admits(row, path) && slot < |row|
    ensures Admits(Inherit(row, slot), path + [slot])
  {
    var row', path' := Inherit(row, slot), path + [slot];
    forall p | 0 <= p < |row'| ensures row'[p] <==> p in path' {
      assert p in path' <==> p in path || p == slot;
    }
  }

  // Lane b's new slot: in its own generation, and inside the pool.
  lemma NewSlot(m: Model, n: nat, steps: nat, b: nat)
    requires b < m.beams && n < steps
    ensures GenStart(m, n + 1) <= GenStart(m, n + 1) + b < GenStart(m, n + 2) <= PoolLen(m, steps)
    ensures GenStart(m, n + 1) + m.beams == GenStart(m, n + 2)
  {
    AtAdds(n, 1, m.beams);
    AtApart(n + 1, steps, m.beams);
  }

  // Lane b of the next state, when it descends from lane `parent` of this one.
  lemma LaneGrows(m: Model, d: Device, hyp: seq<int>, parent: nat, n: nat, path: seq<nat>,
                  d': Device, b: nat, token: int, slot: nat)
    requires parent < |d.toks| == |d.slots| == |d.pos| == |d.mask| == |d.kvLen|
    requires b < |d'.toks| == |d'.slots| == |d'.pos| == |d'.mask| == |d'.kvLen|
    requires LaneOk(m, d, hyp, parent, n, path)
    requires GenStart(m, n + 1) <= slot < GenStart(m, n + 2) && slot < |d.mask[parent]|
    requires d'.mask[b] == Inherit(d.mask[parent], slot) && d'.slots[b] == slot
    requires d'.toks[b] == token && d'.pos[b] == n + 1
    requires forall g :: 0 <= g <= n ==> path[g] in d'.pool && d'.pool[path[g]] == OwnCache([BOS] + hyp)[g]
    ensures LaneOk(m, d', hyp + [token], b, n + 1, path + [slot])
  {
    hide OwnCache, Admits, IsPath, GenStart, Inherit;
    PathGrows(m, path, n, slot);
    MaskGrows(d.mask[parent], path, slot);
    var tokens := [BOS] + (hyp + [token]);
    assert tokens[..n + 1] == [BOS] + hyp;
    OwnCachePrefix(tokens, n + 1);
    forall g | 0 <= g < n + 1
      ensures (path + [slot])[g] in d'.pool && d'.pool[(path + [slot])[g]] == OwnCache(tokens)[g]
    {
      assert OwnCache(tokens)[..n + 1][g] == OwnCache(tokens)[g];
    }
  }

  // One lane of a fire, channel by channel.
  lemma FireLane(m: Model, d: Device, poolLen: nat, b: nat)
    requires m.Valid() && Shaped(m, d, poolLen) && b < m.beams
    ensures var r, d' := FireReport(m, d, poolLen), Fire(m, d, poolLen);
            && r.parents[b] < m.beams
            && d'.mask[b] == Inherit(d.mask[r.parents[b]], d.fill + b) && d'.slots[b] == d.fill + b
            && d'.toks[b] == r.picked[b] && d'.pos[b] == d.pos[b] + 1 && d'.kvLen[b] == d'.fill
            && Shaped(m, d', poolLen) && |d'.toks| == |d'.slots| == |d'.pos| == |d'.mask| == |d'.kvLen| == m.beams
            && d'.scores == r.scores && d'.fill == d.fill + m.beams && d'.pool == Written(m, d, poolLen, m.beams)
  {
    PickInRange(m, d.scores, Views(m, d, poolLen));
  }

  // One lane of a reference step.
  lemma RunLane(m: Model, n: nat, b: nat)
    requires m.Valid() && b < m.beams
    ensures var s, r := Run(m, n), StepReport(m, Run(m, n));
            && |Run(m, n + 1).hyps| == |Run(m, n + 1).scores| == m.beams
            && r.parents[b] < m.beams && Run(m, n + 1).scores == r.scores
            && Run(m, n + 1).hyps[b] == s.hyps[r.parents[b]] + [r.picked[b]]
  {
    PickInRange(m, Run(m, n).scores, Caches(Run(m, n).hyps));
  }

  lemma LanesOfRefines(m: Model, d: Device, n: nat, steps: nat, paths: seq<seq<nat>>, b: nat)
    requires m.Valid() && Refines(m, d, n, steps, paths) && b < m.beams
    ensures Shaped(m, d, PoolLen(m, steps)) && m.beams > 0 && |d.toks| == |d.slots| == |d.pos| == |d.mask| == |d.kvLen| == m.beams
    ensures |paths| == m.beams && |paths[b]| == n + 1 && |Run(m, n).hyps| == |Run(m, n).scores| == m.beams && |Run(m, n).hyps[b]| == n
    ensures LaneOk(m, d, Run(m, n).hyps[b], b, n, paths[b])
    ensures d.fill == GenStart(m, n + 1) && |d.mask[b]| == PoolLen(m, steps) && d.pos[b] == n
  {
    hide Run;
    assert LaneOk(m, d, Run(m, n).hyps[b], b, n, paths[b]);
  }

  lemma LaneFires(m: Model, d: Device, n: nat, steps: nat, paths: seq<seq<nat>>, b: nat)
    requires m.Valid() && Refines(m, d, n, steps, paths) && n < steps && b < m.beams
    ensures StepReport(m, Run(m, n)).parents[b] < m.beams
    ensures LaneOk(m, Fire(m, d, PoolLen(m, steps)), Run(m, n + 1).hyps[b], b, n + 1,
                   paths[StepReport(m, Run(m, n)).parents[b]] + [d.fill + b])
  {
    hide *;
    LanesOfRefines(m, d, n, steps, paths, b);
    ReportsAgree(m, d, n, steps, paths);
    FireLane(m, d, PoolLen(m, steps), b);
    RunLane(m, n, b);
    var parent := StepReport(m, Run(m, n)).parents[b];
    LanesOfRefines(m, d, n, steps, paths, parent);
    NewSlot(m, n, steps, b);
    var d' := Fire(m, d, PoolLen(m, steps));
    forall g | 0 <= g <= n
      ensures paths[parent][g] in d'.pool && d'.pool[paths[parent][g]] == OwnCache([BOS] + Run(m, n).hyps[parent])[g]
    {
      AncestryInPool(m, d, n, steps, paths, parent, g);
    }
    LaneGrows(m, d, Run(m, n).hyps[parent], parent, n, paths[parent],
              d', b, StepReport(m, Run(m, n)).picked[b], d.fill + b);
  }

  // What makes up `Refines` of the next state.
  lemma RefinesFrom(m: Model, d': Device, n: nat, steps: nat, paths': seq<seq<nat>>, fill: nat)
    requires m.Valid() && n + 1 <= steps && |paths'| == m.beams && Shaped(m, d', PoolLen(m, steps))
    requires d'.scores == Run(m, n + 1).scores && d'.fill == GenStart(m, n + 2) <= PoolLen(m, steps)
    requires d'.fill == fill + m.beams
    requires forall b :: 0 <= b < m.beams ==> LaneOk(m, d', Run(m, n + 1).hyps[b], b, n + 1, paths'[b])
    requires forall b :: 0 <= b < m.beams ==> d'.slots[b] == fill + b && d'.kvLen[b] == d'.fill
    requires forall p :: p in d'.pool ==> p < GenStart(m, n + 1)
    ensures Refines(m, d', n + 1, steps, paths')
  {
    hide Run, GenStart, LaneOk, PoolLen;
  }

  // One fire is one reference step.
  lemma FireRefines(m: Model, d: Device, n: nat, steps: nat, paths: seq<seq<nat>>) returns (paths': seq<seq<nat>>)
    requires m.Valid() && Refines(m, d, n, steps, paths) && n < steps
    ensures Refines(m, Fire(m, d, PoolLen(m, steps)), n + 1, steps, paths')
  {
    hide *;
    SomeLane(m);
    LanesOfRefines(m, d, n, steps, paths, 0);
    ReportsAgree(m, d, n, steps, paths);
    PoolAfterWrites(m, d, n, steps, paths);
    forall b | 0 <= b < m.beams ensures StepReport(m, Run(m, n)).parents[b] < m.beams {
      RunLane(m, n, b);
    }
    var d' := Fire(m, d, PoolLen(m, steps));
    var r := StepReport(m, Run(m, n));
    paths' := seq(m.beams, b requires 0 <= b < m.beams => paths[r.parents[b]] + [d.fill + b]);
    NewSlot(m, n, steps, 0);
    FireLane(m, d, PoolLen(m, steps), 0);
    RunLane(m, n, 0);
    forall b | 0 <= b < m.beams
      ensures |Run(m, n + 1).hyps| == |d'.toks| == |d'.slots| == |d'.pos| == |d'.mask| == |d'.kvLen| == m.beams
      ensures LaneOk(m, d', Run(m, n + 1).hyps[b], b, n + 1, paths'[b])
      ensures d'.slots[b] == d.fill + b && d'.kvLen[b] == d'.fill
    {
      LaneFires(m, d, n, steps, paths, b);
      FireLane(m, d, PoolLen(m, steps), b);
      RunLane(m, n, b);
    }
    RefinesFrom(m, d', n, steps, paths', d.fill);
  }

  lemma SomeLane(m: Model)
    requires m.Valid()
    ensures m.beams > 0
  {
  }

  // ------------------------------------------------------------------ whole runs

  function DeviceRun(m: Model, steps: nat, n: nat): (d: Device)
    requires m.Valid()
    ensures Shaped(m, d, PoolLen(m, steps))
  {
    if n == 0 then Start(m, steps) else Fire(m, DeviceRun(m, steps, n - 1), PoolLen(m, steps))
  }

  lemma StartRefines(m: Model, steps: nat) returns (paths: seq<seq<nat>>)
    requires m.Valid()
    ensures Refines(m, Start(m, steps), 0, steps, paths)
  {
    paths := seq(m.beams, _ => [0]);
    AtAdds(0, steps, m.beams);
    var d := Start(m, steps);
    forall b | 0 <= b < m.beams ensures LaneOk(m, d, [], b, 0, paths[b]) {
      assert [BOS] + [] == [BOS];
      assert forall p :: 0 <= p < |d.mask[b]| ==> (d.mask[b][p] <==> p in [0]);
    }
  }

  // After any number of fires within the budget the pool refines the lanes' own
  // sequences: each lane's mask admits one slot of each generation, its rows there
  // are those of BOS and its hypothesis at their own depths, and every set bit and
  // every written slot is below the lane's length and the pool's.
  lemma {:induction false} DeviceRefinesReference(m: Model, steps: nat, n: nat) returns (paths: seq<seq<nat>>)
    requires m.Valid() && n <= steps
    ensures Refines(m, DeviceRun(m, steps, n), n, steps, paths)
  {
    hide Refines, Fire, Start, PoolLen, Selects, Maximises;
    if n == 0 {
      paths := StartRefines(m, steps);
    } else {
      var before := DeviceRefinesReference(m, steps, n - 1);
      paths := FireRefines(m, DeviceRun(m, steps, n - 1), n - 1, steps, before);
    }
  }

  // What a reader of the masks sees: selected in slot order, the pool's tokens are
  // BOS and the lane's hypothesis, less the last token still to be written.
  lemma MaskedTokens(m: Model, steps: nat, n: nat, b: nat)
    requires m.Valid() && n <= steps && b < m.beams
    ensures var d := DeviceRun(m, steps, n);
            var seen := Attended(Written(m, d, PoolLen(m, steps), m.beams), d.mask[b], d.kvLen[b]);
            && seen == OwnCache([BOS] + Run(m, n).hyps[b])
            && |seen| == n + 1 && d.pos[b] == n
            && (forall g :: 0 <= g <= n ==> seen[g].token == ([BOS] + Run(m, n).hyps[b])[g] && seen[g].position == g)
    ensures var d := DeviceRun(m, steps, n);
            && (forall p :: 0 <= p < |d.mask[b]| && d.mask[b][p] ==> p < d.kvLen[b] <= PoolLen(m, steps))
            && (forall p :: p in d.pool ==> p < PoolLen(m, steps))
  {
    hide Run, Written, DeviceRun, Attended, Refines, OwnCache;
    var paths := DeviceRefinesReference(m, steps, n);
    var d := DeviceRun(m, steps, n);
    LaneView(m, d, n, steps, paths, b);
    SlotsBelow(m, d, n, steps, paths, b);
    OwnCacheTokens([BOS] + Run(m, n).hyps[b]);
  }

  // Set bits lie below what was written with this step, and that below the pool's end.
  lemma SlotsBelow(m: Model, d: Device, n: nat, steps: nat, paths: seq<seq<nat>>, b: nat)
    requires m.Valid() && Refines(m, d, n, steps, paths) && b < m.beams
    ensures b < |d.pos| == |d.mask| == |d.kvLen| && d.pos[b] == n && |Run(m, n).hyps[b]| == n
    ensures forall p :: 0 <= p < |d.mask[b]| && d.mask[b][p] ==> p < d.kvLen[b] <= PoolLen(m, steps)
    ensures forall p :: p in d.pool ==> p < PoolLen(m, steps)
  {
    hide Run, NewRow, GenStart;
    GenStartsRise(m, n, n + 1);
    assert LaneOk(m, d, Run(m, n).hyps[b], b, n, paths[b]);
    PathBelow(m, paths[b], n);
    forall p | 0 <= p < |d.mask[b]| && d.mask[b][p] ensures p < d.kvLen[b] {
      var g :| 0 <= g < |paths[b]| && paths[b][g] == p;
    }
  }

  lemma {:induction false} OwnCacheTokens(tokens: seq<int>)
    ensures forall g :: 0 <= g < |tokens| ==> OwnCache(tokens)[g].token == tokens[g] && OwnCache(tokens)[g].position == g
  {
    if tokens != [] {
      OwnCacheTokens(tokens[..|tokens| - 1]);
    }
  }

  // The reports the host drains are the reference search's, step for step.
  lemma DeviceReports(m: Model, steps: nat, n: nat)
    requires m.Valid() && n < steps
    ensures FireReport(m, DeviceRun(m, steps, n), PoolLen(m, steps)) == StepReport(m, Run(m, n))
  {
    var paths := DeviceRefinesReference(m, steps, n);
    ReportsAgree(m, DeviceRun(m, steps, n), n, steps, paths);
  }
}

// The device runs ahead of the host over four bounded FIFO rings; the host drains
// them one row at a time and keeps the submission window full.

module RunAhead {
  import opened Arithmetic
  import opened BeamReference
  import BeamLaws

  // A row of one of the rings.
  datatype Cell = Picked(toks: seq<int>) | Parents(lanes: seq<nat>) | Scores(scores: seq<Score>) | Greedy(best: seq<nat>)

  // The row a step puts on ring i: out, out_par, out_scr, out_greedy.
  function CellOf(r: Report, i: nat): Cell
    requires i < 4
  {
    if i == 0 then Picked(r.picked) else if i == 1 then Parents(r.parents)
    else if i == 2 then Scores(r.scores) else Greedy(r.greedy)
  }

  // The host's variables: how far into a drain it is, what it has taken, and what it
  // has made of the drains before.
  datatype Host = Host(taken: nat, cells: seq<Cell>, hyps: seq<seq<int>>, scores: seq<Score>, mismatches: nat, consumed: nat)

  // `fired` whole fires and `puts` rows of the next; the rings; and how many fires
  // have been submitted.
  datatype System = System(fired: nat, puts: nat, rings: seq<seq<Cell>>, submitted: nat, host: Host)

  datatype Config = Config(m: Model, budget: nat, window: nat, capacity: nat)
  {
    ghost predicate Valid() {
      m.Valid() && window > 0 && capacity > 0
    }
  }

  // What step k reports.
  function Reported(c: Config, k: nat): (r: Report)
    requires c.m.Valid()
    ensures |r.picked| == |r.parents| == |r.scores| == |r.greedy| == c.m.beams
  {
    StepReport(c.m, Run(c.m, k))
  }

  function Start(c: Config): System {
    System(0, 0, [[], [], [], []], Min(c.window, c.budget),
           Host(0, [], Initial(c.m).hyps, seq(c.m.beams, _ => NegInf), 0, 0))
  }

  // The device puts the next row of the fire it is in, when there is room.
  ghost predicate Put(c: Config, s: System, s': System)
    requires c.Valid()
  {
    && s.puts < 4 && |s.rings| == 4
    && s.fired < s.submitted && |s.rings[s.puts]| < c.capacity
    && var ring := s.rings[s.puts] + [CellOf(Reported(c, s.fired), s.puts)];
    && s' == s.(rings := s.rings[s.puts := ring],
                puts := if s.puts == 3 then 0 else s.puts + 1,
                fired := if s.puts == 3 then s.fired + 1 else s.fired)
  }

  // `count_greedy_mismatches`, then `advance_hypotheses`, on what was taken.
  function Drained(h: Host, picked: seq<int>, parents: seq<nat>, greedy: seq<nat>): Host
    requires |picked| == |parents| == |h.hyps| == |greedy| && forall b :: 0 <= b < |parents| ==> parents[b] < |h.hyps|
  {
    h.(taken := 0, cells := [], consumed := h.consumed + 1,
       mismatches := h.mismatches + BeamLaws.CountMismatches(picked, greedy),
       hyps := AdvanceHypotheses(h.hyps, picked, parents))
  }

  // The cells of one drain are of the rings' own kinds, and fit together.
  ghost predicate Drainable(h: Host, cells: seq<Cell>) {
    && |cells| == 4 && cells[0].Picked? && cells[1].Parents? && cells[2].Scores? && cells[3].Greedy?
    && |cells[0].toks| == |cells[1].lanes| == |h.hyps| == |cells[3].best|
    && forall b :: 0 <= b < |h.hyps| ==> cells[1].lanes[b] < |h.hyps|
  }

  // The host takes the next row of its drain; the last row ends the drain, and the
  // window is topped up by one fire when it has room.
  ghost predicate Take(c: Config, s: System, s': System)
    requires c.Valid()
  {
    && s.host.taken < 4 && |s.rings| == 4 && |s.host.cells| == s.host.taken
    && s.host.consumed < s.submitted && |s.rings[s.host.taken]| > 0
    && var i := s.host.taken;
    && var cells := s.host.cells + [s.rings[i][0]];
    && var rings := s.rings[i := s.rings[i][1..]];
    && var h := if i == 2 && cells[2].Scores? then s.host.(scores := cells[2].scores) else s.host;
    && if i < 3 then s' == s.(rings := rings, host := h.(taken := i + 1, cells := cells))
       else
         && Drainable(h, cells)
         && var h' := Drained(h, cells[0].toks, cells[1].lanes, cells[3].best);
         && var room := s.submitted < c.budget && s.submitted - h'.consumed <= c.window - 1;
         && s' == s.(rings := rings, host := h', submitted := if room then s.submitted + 1 else s.submitted)
  }

  ghost predicate Next(c: Config, s: System, s': System)
    requires c.Valid()
  {
    Put(c, s, s') || Take(c, s, s')
  }

  // ------------------------------------------------------------------ the invariant

  // How many rows have gone onto ring i, and how many have come off it.
  function PutOn(s: System, i: nat): nat {
    if i < s.puts then s.fired + 1 else s.fired
  }

  function TakenOff(s: System, i: nat): nat {
    if i < s.host.taken then s.host.consumed + 1 else s.host.consumed
  }

  // Ring i holds the rows of the steps between, in order.
  ghost predicate RingHolds(c: Config, s: System, i: nat)
    requires c.Valid() && i < 4 && |s.rings| == 4
  {
    && PutOn(s, i) == TakenOff(s, i) + |s.rings[i]| && |s.rings[i]| <= c.capacity
    && forall k :: 0 <= k < |s.rings[i]| ==> s.rings[i][k] == CellOf(Reported(c, TakenOff(s, i) + k), i)
  }

  // The greedy disagreements of the first n steps.
  function Mismatches(c: Config, n: nat): nat
    requires c.m.Valid()
  {
    if n == 0 then 0
    else Mismatches(c, n - 1) + BeamLaws.CountMismatches(Reported(c, n - 1).picked, Reported(c, n - 1).greedy)
  }

  // They are so many different steps and lanes.
  lemma {:induction false} MismatchesAreDisagreements(c: Config, n: nat)
    requires c.m.Valid()
    ensures Mismatches(c, n) == |BeamLaws.Disagreements(c.m, n)|
  {
    hide Run, StepReport, BeamLaws.CountMismatches, BeamLaws.Disagreements;
    if n == 0 {
      BeamLaws.DisagreementsStep(c.m, 0);
    } else {
      MismatchesAreDisagreements(c, n - 1);
      BeamLaws.DisagreementsStep(c.m, n - 1);
    }
  }

  // What a host that has drained k steps, and part of the next, holds.
  ghost predicate HostHolds(c: Config, h: Host)
    requires c.Valid()
  {
    var k := h.consumed;
    && h.taken < 4 && |h.cells| == h.taken
    && (forall i :: 0 <= i < h.taken ==> h.cells[i] == CellOf(Reported(c, k), i))
    && h.hyps == Run(c.m, k).hyps
    && (if h.taken > 2 then h.scores == Reported(c, k).scores
        else k > 0 ==> h.scores == Run(c.m, k).scores)
    && h.mismatches == Mismatches(c, k)
  }

  ghost predicate Inv(c: Config, s: System)
    requires c.Valid()
  {
    && s.puts < 4 && s.host.taken < 4 && |s.rings| == 4
    && (forall i :: 0 <= i < 4 ==> RingHolds(c, s, i))
    && HostHolds(c, s.host)
    && s.fired <= s.submitted && (s.puts > 0 ==> s.fired < s.submitted)
    && s.host.consumed <= s.submitted && (s.host.taken > 0 ==> s.host.consumed < s.submitted)
    && s.submitted == Min(c.budget, s.host.consumed + c.window)
  }

  lemma StartInv(c: Config)
    requires c.Valid()
    ensures Inv(c, Start(c))
  {
  }

  lemma PutRing(c: Config, s: System, s': System, i: nat)
    requires c.Valid() && Inv(c, s) && Put(c, s, s') && i < 4
    ensures RingHolds(c, s', i)
  {
    hide HostHolds, Reported, CellOf;
    assert RingHolds(c, s, i);
  }

  lemma PutInv(c: Config, s: System, s': System)
    requires c.Valid() && Inv(c, s) && Put(c, s, s')
    ensures Inv(c, s')
  {
    hide HostHolds, RingHolds, Reported, CellOf;
    forall i | 0 <= i < 4 ensures RingHolds(c, s', i) {
      PutRing(c, s, s', i);
    }
  }

  lemma StepRows(c: Config, k: nat)
    requires c.Valid()
    ensures var r := Reported(c, k);
            && |r.picked| == |r.parents| == |r.greedy| == |Run(c.m, k).hyps|
            && (forall b :: 0 <= b < |r.parents| ==> r.parents[b] < |Run(c.m, k).hyps|)
            && Run(c.m, k + 1).hyps == AdvanceHypotheses(Run(c.m, k).hyps, r.picked, r.parents)
            && Run(c.m, k + 1).scores == r.scores
  {
    var s := Run(c.m, k);
    PickInRange(c.m, s.scores, Caches(s.hyps));
  }

  lemma TakeRing(c: Config, s: System, s': System, i: nat)
    requires c.Valid() && Inv(c, s) && Take(c, s, s') && i < 4
    ensures RingHolds(c, s', i)
  {
    hide HostHolds, Reported, CellOf, Drainable, Drained;
    assert RingHolds(c, s, i);
    TakenOn(c, s, s', i);
  }

  // What a take does to the counts and to ring i.
  lemma TakenOn(c: Config, s: System, s': System, i: nat)
    requires c.Valid() && Inv(c, s) && Take(c, s, s') && i < 4
    ensures |s'.rings| == 4 && PutOn(s', i) == PutOn(s, i)
    ensures TakenOff(s', i) == TakenOff(s, i) + if i == s.host.taken then 1 else 0
    ensures s'.rings[i] == if i == s.host.taken then s.rings[i][1..] else s.rings[i]
  {
    hide HostHolds, Reported, CellOf, Drainable, RingHolds;
  }

  // The row at the head of the ring the host turns to is this drain's.
  lemma HeadIsMine(c: Config, s: System)
    requires c.Valid() && Inv(c, s) && s.host.taken < 4 && |s.rings[s.host.taken]| > 0
    ensures s.rings[s.host.taken][0] == CellOf(Reported(c, s.host.consumed), s.host.taken)
  {
    hide HostHolds, Reported, CellOf;
    assert RingHolds(c, s, s.host.taken);
  }

  lemma TakeHostPart(c: Config, s: System, s': System)
    requires c.Valid() && Inv(c, s) && Take(c, s, s') && s.host.taken < 3
    ensures HostHolds(c, s'.host)
  {
    HeadIsMine(c, s);
    hide Run, BeamLaws.CountMismatches, AdvanceHypotheses, RingHolds, Reported, Drained, Drainable;
  }

  // A host between drains.
  lemma BetweenDrains(c: Config, h: Host)
    requires c.Valid() && h.taken == 0 && h.cells == [] && h.hyps == Run(c.m, h.consumed).hyps
    requires h.scores == Run(c.m, h.consumed).scores && h.mismatches == Mismatches(c, h.consumed)
    ensures HostHolds(c, h)
  {
  }

  // A host with three rows of its drain in hand.
  lemma NearlyDrained(c: Config, h: Host)
    requires c.Valid() && HostHolds(c, h) && h.taken == 3
    ensures h.hyps == Run(c.m, h.consumed).hyps && h.scores == Reported(c, h.consumed).scores
    ensures h.mismatches == Mismatches(c, h.consumed)
  {
  }

  // A finished drain is one reference step.
  lemma DrainIsStep(c: Config, h: Host)
    requires c.Valid() && HostHolds(c, h) && h.taken == 3
    ensures var r := Reported(c, h.consumed);
            && |r.picked| == |r.parents| == |h.hyps| == |r.greedy|
            && (forall b :: 0 <= b < |r.parents| ==> r.parents[b] < |h.hyps|)
            && HostHolds(c, Drained(h, r.picked, r.parents, r.greedy))
  {
    NearlyDrained(c, h);
    StepRows(c, h.consumed);
    hide Run, BeamLaws.CountMismatches, AdvanceHypotheses, Reported, HostHolds;
    var r := Reported(c, h.consumed);
    BetweenDrains(c, Drained(h, r.picked, r.parents, r.greedy));
  }

  // The rows a drain ends on are the step's own.
  lemma LastTake(c: Config, s: System, s': System)
    requires c.Valid() && Inv(c, s) && Take(c, s, s') && s.host.taken == 3
    ensures var r, h := Reported(c, s.host.consumed), s.host;
            && |r.picked| == |r.parents| == |h.hyps| == |r.greedy|
            && (forall b :: 0 <= b < |r.parents| ==> r.parents[b] < |h.hyps|)
            && s'.host == Drained(h, r.picked, r.parents, r.greedy)
  {
    HeadIsMine(c, s);
    DrainIsStep(c, s.host);
    hide Run, BeamLaws.CountMismatches, AdvanceHypotheses, RingHolds, Reported, Drained, Mismatches;
    var cells := s.host.cells + [s.rings[3][0]];
    assert forall i :: 0 <= i < 3 ==> cells[i] == s.host.cells[i];
  }

  lemma TakeHostLast(c: Config, s: System, s': System)
    requires c.Valid() && Inv(c, s) && Take(c, s, s') && s.host.taken == 3
    ensures HostHolds(c, s'.host)
  {
    LastTake(c, s, s');
    DrainIsStep(c, s.host);
    hide *;
  }

  lemma TakeHost(c: Config, s: System, s': System)
    requires c.Valid() && Inv(c, s) && Take(c, s, s')
    ensures HostHolds(c, s'.host)
  {
    hide HostHolds, Take;
    if s.host.taken < 3 {
      TakeHostPart(c, s, s');
    } else {
      TakeHostLast(c, s, s');
    }
  }

  // A drain's four rows always fit together.
  lemma TakeInv(c: Config, s: System, s': System)
    requires c.Valid() && Inv(c, s) && Take(c, s, s')
    ensures Inv(c, s')
  {
    hide HostHolds, RingHolds, Reported, CellOf, Drainable;
    TakeHost(c, s, s');
    forall i | 0 <= i < 4 ensures RingHolds(c, s', i) {
      TakeRing(c, s, s', i);
    }
    TakenOn(c, s, s', 0);
  }

  // ------------------------------------------------------------------- whole runs

  ghost predicate IsRun(c: Config, run: seq<System>)
    requires c.Valid()
  {
    && |run| > 0 && run[0] == Start(c)
    && forall t :: 0 < t < |run| ==> Moves(c, run, t)
  }

  ghost predicate Moves(c: Config, run: seq<System>, t: nat)
    requires c.Valid() && 0 < t < |run|
  {
    Next(c, run[t - 1], run[t])
  }

  lemma {:induction false} RunInv(c: Config, run: seq<System>, t: nat)
    requires c.Valid() && IsRun(c, run) && t < |run|
    ensures Inv(c, run[t])
  {
    hide Inv, Put, Take, Start;
    if t == 0 {
      StartInv(c);
    } else {
      RunInv(c, run, t - 1);
      assert Moves(c, run, t);
      if Put(c, run[t - 1], run[t]) {
        PutInv(c, run[t - 1], run[t]);
      } else {
        TakeInv(c, run[t - 1], run[t]);
      }
    }
  }

  // However fires and drains interleave, a host that has drained k steps holds the
  // hypotheses and the scores of step k; and whatever it holds of the next drain
  // is all of one step.
  lemma HostSeesWholeSteps(c: Config, run: seq<System>, t: nat)
    requires c.Valid() && IsRun(c, run) && t < |run|
    ensures var h := run[t].host;
            && h.hyps == Run(c.m, h.consumed).hyps
            && (h.taken <= 2 && h.consumed > 0 ==> h.scores == Run(c.m, h.consumed).scores)
            && h.mismatches == |BeamLaws.Disagreements(c.m, h.consumed)|
            && |h.cells| == h.taken < 4
            && (forall i :: 0 <= i < h.taken ==> h.cells[i] == CellOf(Reported(c, h.consumed), i))
    ensures |run[t].rings| == 4 && forall i :: 0 <= i < 4 ==> |run[t].rings[i]| <= c.capacity
    ensures run[t].fired <= run[t].submitted <= c.budget && run[t].submitted - run[t].host.consumed <= c.window
  {
    RunInv(c, run, t);
    MismatchesAreDisagreements(c, run[t].host.consumed);
    hide Run, Reported, CellOf, Mismatches, BeamLaws.Disagreements;
    forall i | 0 <= i < 4 ensures |run[t].rings[i]| <= c.capacity {
      assert RingHolds(c, run[t], i);
    }
  }

  // ---------------------------------------------------------------------- progress

  // Rows still to be put and to be taken.
  function Remaining(c: Config, s: System): int {
    (4 * (c.budget - s.fired) - s.puts) + (4 * (c.budget - s.host.consumed) - s.host.taken)
  }

  lemma StepsShrink(c: Config, s: System, s': System)
    requires c.Valid() && Inv(c, s) && Next(c, s, s')
    ensures 0 <= Remaining(c, s') < Remaining(c, s)
  {
    hide HostHolds, RingHolds, Reported, CellOf, Drainable, Put, Take;
    if Put(c, s, s') {
      PutInv(c, s, s');
      PutCounts(c, s, s');
    } else {
      TakeInv(c, s, s');
      TakeCounts(c, s, s');
    }
  }

  lemma PutCounts(c: Config, s: System, s': System)
    requires c.Valid() && Put(c, s, s')
    ensures 4 * s'.fired + s'.puts == 4 * s.fired + s.puts + 1 && s'.host == s.host
  {
    hide Reported, CellOf;
  }

  lemma TakeCounts(c: Config, s: System, s': System)
    requires c.Valid() && Take(c, s, s')
    ensures s'.fired == s.fired && s'.puts == s.puts
    ensures 4 * s'.host.consumed + s'.host.taken == 4 * s.host.consumed + s.host.taken + 1
  {
    hide Reported, CellOf, Drainable;
  }

  // Every run ends, within eight moves a step.
  lemma {:induction false} RunsEnd(c: Config, run: seq<System>, t: nat)
    requires c.Valid() && IsRun(c, run) && t < |run|
    ensures Remaining(c, run[t]) + t <= 8 * c.budget && Remaining(c, run[t]) >= 0
  {
    hide Inv, Put, Take;
    if t > 0 {
      RunsEnd(c, run, t - 1);
      RunInv(c, run, t - 1);
      assert Moves(c, run, t);
      StepsShrink(c, run[t - 1], run[t]);
    }
  }

  // While a step is left to drain, the device or the host can move: four rings
  // filled and emptied one row at a time do not deadlock.
  lemma SomeMove(c: Config, s: System) returns (s': System)
    requires c.Valid() && Inv(c, s) && s.host.consumed < c.budget
    ensures Next(c, s, s')
  {
    var t := s.host.taken;
    assert RingHolds(c, s, t) && RingHolds(c, s, 3) && RingHolds(c, s, s.puts);
    if |s.rings[t]| > 0 {
      HeadIsMine(c, s);
      StepRows(c, s.host.consumed);
      s' := TakeMove(c, s);
    } else {
      hide HostHolds, Reported, CellOf;
      var ring := s.rings[s.puts] + [CellOf(Reported(c, s.fired), s.puts)];
      s' := s.(rings := s.rings[s.puts := ring],
               puts := if s.puts == 3 then 0 else s.puts + 1,
               fired := if s.puts == 3 then s.fired + 1 else s.fired);
    }
  }

  lemma TakeMove(c: Config, s: System) returns (s': System)
    requires c.Valid() && Inv(c, s) && s.host.consumed < c.budget && |s.rings[s.host.taken]| > 0
    ensures Take(c, s, s')
  {
    HeadIsMine(c, s);
    StepRows(c, s.host.consumed);
    hide Run, BeamLaws.CountMismatches, AdvanceHypotheses, RingHolds, Reported;
    var i := s.host.taken;
    var cells := s.host.cells + [s.rings[i][0]];
    var rings := s.rings[i := s.rings[i][1..]];
    var h := if i == 2 then s.host.(scores := cells[2].scores) else s.host;
    if i < 3 {
      s' := s.(rings := rings, host := h.(taken := i + 1, cells := cells));
    } else {
      var h' := Drained(h, cells[0].toks, cells[1].lanes, cells[3].best);
      var room := s.submitted < c.budget && s.submitted - h'.consumed <= c.window - 1;
      s' := s.(rings := rings, host := h', submitted := if room then s.submitted + 1 else s.submitted);
    }
  }

  ghost predicate Stuck(c: Config, s: System)
    requires c.Valid()
  {
    forall s' {:trigger Put(c, s, s')} {:trigger Take(c, s, s')} :: !Put(c, s, s') && !Take(c, s, s')
  }

  // A run nothing can extend has drained the whole budget: the host's answer is the
  // search's own, after exactly that many steps.
  lemma FinishedRun(c: Config, run: seq<System>)
    requires c.Valid() && IsRun(c, run)
    requires Stuck(c, run[|run| - 1])
    ensures var h := run[|run| - 1].host;
            && h.consumed == c.budget && h.hyps == Run(c.m, c.budget).hyps
            && h.mismatches == |BeamLaws.Disagreements(c.m, c.budget)|
            && (c.budget > 0 ==> h.scores == Run(c.m, c.budget).scores)
  {
    var last := run[|run| - 1];
    RunInv(c, run, |run| - 1);
    if last.host.consumed < c.budget {
      var s' := SomeMove(c, last);
      assert false;
    }
    HostSeesWholeSteps(c, run, |run| - 1);
  }
}

// The program around the search: the device's channels, the host's variables, and
// `main` from its checks to the lane it prints.

module BeamProgram {
  import opened BeamReference
  import opened BeamPool
  import BeamLaws
  import opened RunAhead

  // A ring the device puts rows on and the host takes them off.
  class Ring<T> {
    var rows: seq<T>

    constructor ()
      ensures rows == []
    {
      rows := [];
    }

    method Put(row: T)
      modifies this
      ensures rows == old(rows) + [row]
    {
      rows := rows + [row];
    }

    method TakeHost() returns (row: T)
      requires rows != []
      modifies this
      ensures [row] + rows == old(rows)
    {
      row := rows[0];
      rows := rows[1..];
    }
  }

  // The loop-carried channels: each fire takes every one of them and puts it back.
  class Channels {
    var scores: seq<Score>
    var toks: seq<int>
    var mask: seq<seq<bool>>
    var slots: seq<nat>
    var pos: seq<nat>
    var fill: nat
    var kvLen: seq<nat>
    var pool: map<nat, Row>

    function State(): Device
      reads this
    {
      Device(scores, toks, mask, slots, pos, fill, kvLen, pool)
    }

    constructor (m: Model, steps: nat)
      ensures State() == BeamPool.Start(m, steps)
    {
      scores := Initial(m).scores;
      toks := seq(m.beams, _ => BOS);
      mask := seq(m.beams, _ => seq(PoolLen(m, steps), p => p == 0));
      slots, pos := seq(m.beams, _ => 0), seq(m.beams, _ => 0);
      fill := 1;
      kvLen := seq(m.beams, _ => 1);
      pool := map[];
    }

    // The forward pass: the lanes' rows go into the pool, one slot each.
    method Forward(m: Model, poolLen: nat) returns (views: seq<seq<Row>>)
      requires BeamPool.Shaped(m, State(), poolLen)
      modifies `pool
      ensures State() == old(State()).(pool := Written(m, old(State()), poolLen, m.beams))
      ensures views == Views(m, old(State()), poolLen)
    {
      var before := State();
      views := Views(m, before, poolLen);
      pool := Written(m, before, poolLen, m.beams);
    }

    // `_pool_step`'s channels: every one taken and put back.
    method Advance(m: Model, poolLen: nat) returns (r: Report)
      requires m.Valid() && BeamPool.Shaped(m, State(), poolLen)
      modifies this
      ensures State() == Fire(m, old(State()), poolLen) && r == FireReport(m, old(State()), poolLen)
    {
      hide Written, Views, Pick, Inherit, Selects, Maximises, MoveOn;
      var views := Forward(m, poolLen);
      r := Pick(m, scores, views);
      PickInRange(m, scores, views);
      Epilogue(m, r);
    }

    method Epilogue(m: Model, r: Report)
      requires |pos| == |mask| == |r.parents| == m.beams && forall b :: 0 <= b < m.beams ==> r.parents[b] < m.beams
      modifies this
      ensures State() == MoveOn(m, old(State()), r)
    {
      hide Inherit;
      scores, toks := r.scores, r.picked;
      var base := fill;
      var inherited := mask;
      mask := seq(m.beams, b requires 0 <= b < m.beams => Inherit(inherited[r.parents[b]], base + b));
      var filled := base + m.beams;
      slots := seq<nat>(m.beams, b requires 0 <= b < m.beams => base + b);
      kvLen := seq<nat>(m.beams, b requires 0 <= b < m.beams => filled);
      var depth := pos;
      pos := seq<nat>(m.beams, b requires 0 <= b < m.beams => depth[b] + 1);
      fill := filled;
    }

    // `_pool_step`, with `step` inside it: one report goes onto the four rings, and
    // every channel moves on.
    method PoolStep(m: Model, poolLen: nat, out: Ring<Cell>, outPar: Ring<Cell>, outScr: Ring<Cell>, outGreedy: Ring<Cell>)
      requires m.Valid() && BeamPool.Shaped(m, State(), poolLen)
      requires out != outPar && out != outScr && out != outGreedy && outPar != outScr && outPar != outGreedy && outScr != outGreedy
      modifies this, out, outPar, outScr, outGreedy
      ensures State() == Fire(m, old(State()), poolLen)
      ensures var r := FireReport(m, old(State()), poolLen);
              && out.rows == old(out.rows) + [CellOf(r, 0)] && outPar.rows == old(outPar.rows) + [CellOf(r, 1)]
              && outScr.rows == old(outScr.rows) + [CellOf(r, 2)] && outGreedy.rows == old(outGreedy.rows) + [CellOf(r, 3)]
    {
      hide *;
      var r := Advance(m, poolLen);
      PutReport(r, out, outPar, outScr, outGreedy);
    }
  }

  method PutReport(r: Report, out: Ring<Cell>, outPar: Ring<Cell>, outScr: Ring<Cell>, outGreedy: Ring<Cell>)
    requires out != outPar && out != outScr && out != outGreedy && outPar != outScr && outPar != outGreedy && outScr != outGreedy
    modifies out, outPar, outScr, outGreedy
    ensures out.rows == old(out.rows) + [CellOf(r, 0)] && outPar.rows == old(outPar.rows) + [CellOf(r, 1)]
    ensures outScr.rows == old(outScr.rows) + [CellOf(r, 2)] && outGreedy.rows == old(outGreedy.rows) + [CellOf(r, 3)]
  {
    out.Put(Picked(r.picked));
    outPar.Put(Parents(r.parents));
    outScr.Put(Scores(r.scores));
    outGreedy.Put(Greedy(r.greedy));
  }

  // The host's side: `hypotheses`, `final_scores` and `greedy_mismatches`.
  class HostState {
    var hypotheses: seq<seq<int>>
    var finalScores: seq<Score>
    var greedyMismatches: nat

    constructor (m: Model)
      ensures hypotheses == Initial(m).hyps && finalScores == seq(m.beams, _ => NegInf) && greedyMismatches == 0
    {
      hypotheses := seq(m.beams, _ => []);
      finalScores := seq(m.beams, _ => NegInf);
      greedyMismatches := 0;
    }

    // `drain`: one row off each ring, all of the same step.
    method Drain(out: Ring<Cell>, outPar: Ring<Cell>, outScr: Ring<Cell>, outGreedy: Ring<Cell>, ghost r: Report)
      requires out != outPar && out != outScr && out != outGreedy && outPar != outScr && outPar != outGreedy && outScr != outGreedy
      requires out.rows != [] && outPar.rows != [] && outScr.rows != [] && outGreedy.rows != []
      requires out.rows[0] == CellOf(r, 0) && outPar.rows[0] == CellOf(r, 1)
               && outScr.rows[0] == CellOf(r, 2) && outGreedy.rows[0] == CellOf(r, 3)
      requires |r.picked| == |r.parents| == |r.greedy| == |hypotheses|
      requires forall b :: 0 <= b < |r.parents| ==> r.parents[b] < |hypotheses|
      modifies this, out, outPar, outScr, outGreedy
      ensures hypotheses == AdvanceHypotheses(old(hypotheses), r.picked, r.parents)
      ensures finalScores == r.scores
      ensures greedyMismatches == old(greedyMismatches) + |BeamLaws.Mismatched(r.picked, r.greedy)|
      ensures out.rows == old(out.rows)[1..] && outPar.rows == old(outPar.rows)[1..]
      ensures outScr.rows == old(outScr.rows)[1..] && outGreedy.rows == old(outGreedy.rows)[1..]
    {
      var picked := out.TakeHost();
      var parents := outPar.TakeHost();
      var scores := outScr.TakeHost();
      finalScores := scores.scores;
      var greedy := outGreedy.TakeHost();
      greedyMismatches := greedyMismatches + BeamLaws.CountMismatches(picked.toks, greedy.best);
      BeamLaws.MismatchesAreCounted(picked.toks, greedy.best);
      hypotheses := AdvanceHypotheses(hypotheses, picked.toks, parents.lanes);
    }
  }

  datatype Refusal = NoBeams | PoolTooLong | IdentityViolated(mismatches: nat)
  datatype Outcome = Nothing | Refused(why: Refusal) | Answer(hyp: seq<int>, score: Score, mismatches: nat)

  // The lane the program prints: the last of those no lane's score exceeds.
  ghost predicate IsBest(scores: seq<Score>, best: nat) {
    && best < |scores|
    && (forall lane :: 0 <= lane < |scores| ==> Le(scores[lane], scores[best]))
    && (forall lane :: best < lane < |scores| ==> !Le(scores[best], scores[lane]))
  }

  ghost predicate BestOf(s: Beams, hyp: seq<int>, score: Score) {
    exists best: nat :: IsBest(s.scores, best) && best < |s.hyps| && hyp == s.hyps[best] && score == s.scores[best]
  }

  // The width-one check finds some step whose pick was not the greedy token.
  ghost predicate IdentityFails(m: Model, maxSteps: nat)
    requires m.beams > 0 ==> m.Valid()
  {
    m.beams == 1 && maxSteps > 0 && maxSteps + 1 <= 0xFFFF_FFFF && |BeamLaws.Disagreements(m, maxSteps)| != 0
  }

  // `main`, with every fire drained before the next.
  method Search(m: Model, maxSteps: nat) returns (r: Outcome)
    requires m.beams > 0 ==> m.Valid()
    ensures m.beams == 0 <==> r == Refused(NoBeams)
    ensures m.beams > 0 && maxSteps == 0 <==> r == Nothing
    ensures m.beams > 0 && maxSteps > 0 && maxSteps * m.beams + 1 > 0xFFFF_FFFF <==> r == Refused(PoolTooLong)
    ensures r.Refused? && r.why.IdentityViolated? <==> IdentityFails(m, maxSteps)
    ensures r.Refused? && r.why.IdentityViolated? ==> r.why.mismatches == |BeamLaws.Disagreements(m, maxSteps)|
    ensures r.Answer? ==>
              && m.beams > 0 && maxSteps > 0 && r.mismatches == |BeamLaws.Disagreements(m, maxSteps)|
              && (m.beams == 1 ==> r.mismatches == 0)
              && BestOf(Run(m, maxSteps), r.hyp, r.score)
  {
    hide Run, PoolLen, Mismatches, BeamLaws.Disagreements;
    if m.beams == 0 {
      return Refused(NoBeams);
    }
    if maxSteps == 0 {
      return Nothing;
    }
    var poolLen := PoolLen(m, maxSteps);
    PoolLenIs(m, maxSteps);
    if poolLen > 0xFFFF_FFFF {
      return Refused(PoolTooLong);
    }
    var host, channels := RunProgram(m, maxSteps, poolLen);
    MismatchesAreDisagreements(Config(m, maxSteps, 1, 1), maxSteps);
    var best := BeamLaws.BestLane(host.finalScores);
    if m.beams == 1 && host.greedyMismatches != 0 {
      return Refused(IdentityViolated(host.greedyMismatches));
    }
    assert IsBest(Run(m, maxSteps).scores, best);
    r := Answer(host.hypotheses[best], host.finalScores[best], host.greedyMismatches);
  }

  lemma DeviceStep(m: Model, steps: nat, n: nat)
    requires m.Valid() && n < steps
    ensures FireReport(m, DeviceRun(m, steps, n), PoolLen(m, steps)) == Reported(Config(m, steps, 1, 1), n)
    ensures DeviceRun(m, steps, n + 1) == Fire(m, DeviceRun(m, steps, n), PoolLen(m, steps))
  {
    hide FireReport, Run, Fire;
    DeviceReports(m, steps, n);
  }

  lemma MismatchStep(c: Config, n: nat)
    requires c.m.Valid()
    ensures Mismatches(c, 0) == 0
    ensures Mismatches(c, n + 1) == Mismatches(c, n) + BeamLaws.CountMismatches(Reported(c, n).picked, Reported(c, n).greedy)
  {
  }

  lemma FirstState(m: Model, steps: nat)
    requires m.Valid()
    ensures DeviceRun(m, steps, 0) == BeamPool.Start(m, steps)
  {
  }

  method RunProgram(m: Model, maxSteps: nat, poolLen: nat) returns (host: HostState, channels: Channels)
    requires m.Valid() && maxSteps > 0 && poolLen == PoolLen(m, maxSteps)
    ensures host.hypotheses == Run(m, maxSteps).hyps && host.finalScores == Run(m, maxSteps).scores
    ensures host.greedyMismatches == Mismatches(Config(m, maxSteps, 1, 1), maxSteps)
    ensures channels.State() == DeviceRun(m, maxSteps, maxSteps)
  {
    hide Run, Fire, FireReport, CellOf, BeamLaws.CountMismatches, AdvanceHypotheses, PoolLen, Reported, DeviceRun, Selects, Maximises, Mismatches;
    MismatchStep(Config(m, maxSteps, 1, 1), 0);
    FirstState(m, maxSteps);
    var c := Config(m, maxSteps, 1, 1);
    channels := new Channels(m, maxSteps);
    host := new HostState(m);
    var out := new Ring<Cell>();
    var outPar := new Ring<Cell>();
    var outScr := new Ring<Cell>();
    var outGreedy := new Ring<Cell>();
    RunStarts(m);
    for n := 0 to maxSteps
      invariant channels.State() == DeviceRun(m, maxSteps, n)
      invariant out.rows == outPar.rows == outScr.rows == outGreedy.rows == []
      invariant host.hypotheses == Run(m, n).hyps && (n > 0 ==> host.finalScores == Run(m, n).scores)
      invariant host.greedyMismatches == Mismatches(c, n)
    {
      OneStep(m, maxSteps, n, poolLen, channels, host, out, outPar, outScr, outGreedy);
    }
  }

  // One fire, drained.
  method OneStep(m: Model, ghost steps: nat, ghost n: nat, poolLen: nat, channels: Channels, host: HostState,
                 out: Ring<Cell>, outPar: Ring<Cell>, outScr: Ring<Cell>, outGreedy: Ring<Cell>)
    requires m.Valid() && n < steps && poolLen == PoolLen(m, steps) && channels.State() == DeviceRun(m, steps, n)
    requires out != outPar && out != outScr && out != outGreedy && outPar != outScr && outPar != outGreedy && outScr != outGreedy
    requires out.rows == outPar.rows == outScr.rows == outGreedy.rows == []
    requires host.hypotheses == Run(m, n).hyps && host.greedyMismatches == Mismatches(Config(m, steps, 1, 1), n)
    modifies channels, host, out, outPar, outScr, outGreedy
    ensures channels.State() == DeviceRun(m, steps, n + 1)
    ensures out.rows == outPar.rows == outScr.rows == outGreedy.rows == []
    ensures host.hypotheses == Run(m, n + 1).hyps && host.finalScores == Run(m, n + 1).scores
    ensures host.greedyMismatches == Mismatches(Config(m, steps, 1, 1), n + 1)
  {
    hide *;
    ghost var c := Config(m, steps, 1, 1);
    DeviceStep(m, steps, n);
    StepRows(c, n);
    MismatchStep(c, n);
    BeamLaws.MismatchesAreCounted(Reported(c, n).picked, Reported(c, n).greedy);
    channels.PoolStep(m, poolLen, out, outPar, outScr, outGreedy);
    host.Drain(out, outPar, outScr, outGreedy, Reported(c, n));
  }

  lemma RunStarts(m: Model)
    requires m.Valid()
    ensures Run(m, 0) == Initial(m)
  {
  }
}

// What whole beam-search runs keep: lanes never duplicate, scores are honest, and
// width one is greedy decoding.

module BeamLaws {
  import opened Sequences
  import opened BeamReference

  // ------------------------------------------------------------------- counting

  lemma {:induction false} ElementsSize(s: seq<int>)
    ensures |Elements(s)| <= |s|
    ensures (forall i, j :: 0 <= i < j < |s| ==> s[i] != s[j]) ==> |Elements(s)| == |s|
  {
    if s != [] {
      var init, last := s[..|s| - 1], s[|s| - 1];
      ElementsSize(init);
      assert s == init + [last];
      assert Elements(s) == Elements(init) + {last};
    }
  }

  function Below(n: nat): (r: set<int>)
    ensures forall x :: x in r <==> 0 <= x < n
  {
    if n == 0 then {} else Below(n - 1) + {n - 1}
  }

  lemma {:induction false} BelowSize(n: nat)
    ensures |Below(n)| == n
  {
    if n > 0 {
      BelowSize(n - 1);
    }
  }

  // ------------------------------------------------------------- the first step

  lemma FirstScores(m: Model, p: nat, t: int)
    requires m.Valid() && p < m.beams
    ensures Extension(m, Initial(m), p, t).Fin? <==> p == 0
    ensures p == 0 ==> Extension(m, Initial(m), 0, t) == Fin(m.LogProb(OwnCache([BOS]), t))
  {
    assert [BOS] + [] == [BOS];
  }

  // With a vocabulary that fills the beam, the first step extends lane 0 alone: an
  // impossible lane chosen would leave one of lane 0's extensions out.
  lemma FirstStepFromLaneZero(m: Model, b: nat)
    requires m.Valid() && m.beams <= m.vocab && b < m.beams
    ensures StepReport(m, Initial(m)).parents[b] == 0
  {
    var s := Initial(m);
    var r := StepReport(m, s);
    if r.parents[b] != 0 {
      StepExtends(m, s);
      assert LaneExtends(m, s, r, b);
      FirstScores(m, r.parents[b], r.picked[b]);
      var f: seq<int> := seq(m.beams, j requires 0 <= j < m.beams => if r.parents[j] == 0 then r.picked[j] else -1);
      forall t | 0 <= t < m.vocab ensures t in f {
        FirstScores(m, 0, t);
        StepKeepsBest(m, s, 0, t, b);
        var j :| 0 <= j < |r.parents| && r.parents[j] == 0 && r.picked[j] == t;
        assert f[j] == t;
      }
      assert f[b] == -1;
      BelowSize(m.vocab);
      SubsetCardinality(Below(m.vocab) + {-1}, Elements(f));
      ElementsSize(f);
      assert false;
    }
  }

  // --------------------------------------------------------------- every later step

  ghost predicate LanesDistinct(s: Beams) {
    forall b, b' :: 0 <= b < b' < |s.hyps| ==> s.hyps[b] != s.hyps[b']
  }

  // A step from distinct lanes, or from one lane, gives distinct lanes.
  lemma StepKeepsDistinct(m: Model, s: Beams, b: nat, b': nat)
    requires m.Valid() && |s.hyps| == |s.scores| == m.beams && b < b' < m.beams
    requires StepReport(m, s).parents[b] == StepReport(m, s).parents[b'] || LanesDistinct(s)
    ensures Step(m, s).hyps[b] != Step(m, s).hyps[b']
  {
    var r := StepReport(m, s);
    StepExtends(m, s);
    assert LaneExtends(m, s, r, b) && LaneExtends(m, s, r, b');
    StepKeepsApart(m, s, b, b');
    var p, p' := r.parents[b], r.parents[b'];
    if p != p' {
      assert s.hyps[p] != s.hyps[p'];
      AppendsDiffer(s.hyps[p], s.hyps[p'], r.picked[b], r.picked[b']);
    } else {
      AppendsDiffer(s.hyps[p], s.hyps[p], r.picked[b], r.picked[b']);
    }
  }

  lemma AppendsDiffer(u: seq<int>, v: seq<int>, x: int, y: int)
    ensures u != v || x != y ==> u + [x] != v + [y]
  {
    if u + [x] == v + [y] {
      assert u == (u + [x])[..|u|] && v == (v + [y])[..|v|];
      assert (u + [x])[|u|] == x && (v + [y])[|v|] == y;
    }
  }

  lemma {:induction false} LanesStayDistinct(m: Model, n: nat)
    requires m.Valid() && m.beams <= m.vocab && n > 0
    ensures LanesDistinct(Run(m, n))
  {
    var s := Run(m, n - 1);
    forall b, b' | 0 <= b < b' < m.beams ensures Run(m, n).hyps[b] != Run(m, n).hyps[b'] {
      if n == 1 {
        FirstStepFromLaneZero(m, b);
        FirstStepFromLaneZero(m, b');
      } else {
        LanesStayDistinct(m, n - 1);
      }
      StepKeepsDistinct(m, s, b, b');
    }
  }

  // The B lanes are pairwise distinct after the first step exactly when the
  // vocabulary has B tokens, and then after every later one.
  lemma LanesNeverDuplicate(m: Model, n: nat)
    requires m.Valid() && n > 0
    ensures LanesDistinct(Run(m, 1)) <==> m.beams <= m.vocab
    ensures m.beams <= m.vocab ==> LanesDistinct(Run(m, n))
  {
    if m.beams <= m.vocab {
      LanesStayDistinct(m, 1);
      LanesStayDistinct(m, n);
    } else if LanesDistinct(Run(m, 1)) {
      var s := Initial(m);
      assert Run(m, 0) == s && Run(m, 1) == Step(m, s);
      StepExtends(m, s);
      var picked := StepReport(m, s).picked;
      forall b | 0 <= b < m.beams ensures Run(m, 1).hyps[b] == [picked[b]] && picked[b] in Below(m.vocab) {
        assert LaneExtends(m, s, StepReport(m, s), b);
      }
      ElementsSize(picked);
      BelowSize(m.vocab);
      SubsetCardinality(Elements(picked), Below(m.vocab));
      assert false;
    }
  }

  // --------------------------------------------------------------------- scores

  // The log-probability of a hypothesis, token by token.
  ghost function SumLogProb(m: Model, hyp: seq<int>): real {
    if hyp == [] then 0.0
    else
      var init := hyp[..|hyp| - 1];
      var cache := OwnCache([BOS] + init);
      SumLogProb(m, init) + (m.logit(cache, hyp[|hyp| - 1]) - m.normaliser(cache))
  }

  // A lane whose score is its sum extends to lanes whose scores are theirs.
  lemma ExtensionIsSum(m: Model, s: Beams, p: nat, t: int)
    requires p < |s.hyps| == |s.scores| && s.scores[p] == Fin(SumLogProb(m, s.hyps[p]))
    ensures Extension(m, s, p, t) == Fin(SumLogProb(m, s.hyps[p] + [t]))
  {
    assert (s.hyps[p] + [t])[..|s.hyps[p]|] == s.hyps[p];
  }

  lemma LaneIsSum(m: Model, s: Beams, b: nat)
    requires m.Valid() && |s.hyps| == |s.scores| == m.beams && b < m.beams
    requires var p := StepReport(m, s).parents[b];
             p < m.beams && s.scores[p] == Fin(SumLogProb(m, s.hyps[p]))
    ensures Step(m, s).scores[b] == Fin(SumLogProb(m, Step(m, s).hyps[b]))
  {
    StepExtends(m, s);
    assert LaneExtends(m, s, StepReport(m, s), b);
    ExtensionIsSum(m, s, StepReport(m, s).parents[b], StepReport(m, s).picked[b]);
    hide *;
  }

  lemma {:induction false} ScoresAreSums(m: Model, n: nat, b: nat)
    requires m.Valid() && m.beams <= m.vocab && n > 0 && b < m.beams
    ensures Run(m, n).scores[b] == Fin(SumLogProb(m, Run(m, n).hyps[b]))
  {
    hide Step, StepReport, SumLogProb, Pick;
    var s := Run(m, n - 1);
    PickBounds(m, s, b);
    var p := StepReport(m, s).parents[b];
    if n == 1 {
      FirstStepFromLaneZero(m, b);
      NoTokensNoScore(m);
    } else {
      ScoresAreSums(m, n - 1, p);
    }
    LaneIsSum(m, s, b);
  }

  lemma NoTokensNoScore(m: Model)
    ensures SumLogProb(m, []) == 0.0
  {
  }

  lemma PickBounds(m: Model, s: Beams, b: nat)
    requires m.Valid() && |s.hyps| == |s.scores| == m.beams && b < m.beams
    ensures StepReport(m, s).parents[b] < m.beams
  {
    PickInRange(m, s.scores, Caches(s.hyps));
  }

  // ------------------------------------------------------------------ width one

  // The lanes whose pick is not their greedy token.
  ghost function Mismatched(picked: seq<int>, greedy: seq<nat>): set<nat>
    requires |picked| == |greedy|
  {
    set lane: nat | lane < |picked| && picked[lane] != greedy[lane]
  }

  // `count_greedy_mismatches`
  function CountMismatches(picked: seq<int>, greedy: seq<nat>): nat
    requires |picked| == |greedy|
  {
    if picked == [] then 0
    else
      var n := |picked| - 1;
      CountMismatches(picked[..n], greedy[..n]) + if picked[n] != greedy[n] then 1 else 0
  }

  lemma {:induction false} MismatchesAreCounted(picked: seq<int>, greedy: seq<nat>)
    requires |picked| == |greedy|
    ensures CountMismatches(picked, greedy) == |Mismatched(picked, greedy)|
  {
    if picked != [] {
      var n := |picked| - 1;
      MismatchesAreCounted(picked[..n], greedy[..n]);
      var last: set<nat> := if picked[n] != greedy[n] then {n} else {};
      assert Mismatched(picked, greedy) == Mismatched(picked[..n], greedy[..n]) + last;
    }
  }

  // Step k's pick for the lane is not the lane's greedy token.
  ghost predicate Disagrees(m: Model, k: nat, lane: nat)
    requires m.Valid() && lane < m.beams
  {
    StepReport(m, Run(m, k)).picked[lane] != StepReport(m, Run(m, k)).greedy[lane]
  }

  // Every step and lane of the first n steps at which the two differ.
  ghost function Disagreements(m: Model, n: nat): set<(nat, nat)>
    requires m.Valid()
  {
    set k: nat, lane: nat | k < n && lane < m.beams && Disagrees(m, k, lane) :: (k, lane)
  }

  ghost function AtStep(k: nat, lanes: set<nat>): set<(nat, nat)> {
    set lane | lane in lanes :: (k, lane)
  }

  lemma {:induction false} AtStepSize(k: nat, lanes: set<nat>)
    ensures |AtStep(k, lanes)| == |lanes|
    decreases |lanes|
  {
    if |lanes| > 0 {
      var lane := AnyOf(lanes);
      AtStepSize(k, lanes - {lane});
      assert AtStep(k, lanes) == AtStep(k, lanes - {lane}) + {(k, lane)};
    } else {
      assert AtStep(k, lanes) == {};
    }
  }

  // One more step adds the lanes that step counts.
  lemma DisagreementsStep(m: Model, n: nat)
    requires m.Valid()
    ensures |Disagreements(m, 0)| == 0
    ensures var r := StepReport(m, Run(m, n));
            |Disagreements(m, n + 1)| == |Disagreements(m, n)| + CountMismatches(r.picked, r.greedy)
  {
    hide Run, StepReport, CountMismatches;
    var r := StepReport(m, Run(m, n));
    var lanes := Mismatched(r.picked, r.greedy);
    MismatchesAreCounted(r.picked, r.greedy);
    AtStepSize(n, lanes);
    assert Disagreements(m, 0) == {};
    assert Disagreements(m, n + 1) == Disagreements(m, n) + AtStep(n, lanes);
    assert Disagreements(m, n) !! AtStep(n, lanes);
  }

  // At any width a lane's greedy token is one of the greatest raw logit after that lane's
  // own tokens.
  lemma GreedyIsOwn(m: Model, n: nat, b: nat)
    requires m.Valid() && b < m.beams
    ensures var best := StepReport(m, Run(m, n)).greedy[b];
            var cache := OwnCache([BOS] + Run(m, n).hyps[b]);
            best < m.vocab && forall t: nat :: t < m.vocab ==> m.logit(cache, t) <= m.logit(cache, best)
  {
    hide Run, OwnCache, Chosen, Candidates;
    var s := Run(m, n);
    var cache := OwnCache([BOS] + s.hyps[b]);
    var row := m.Logits(cache);
    assert Caches(s.hyps)[b] == cache;
    assert row != [] && IsArgmax(row, m.argmax(row));
    forall t: nat | t < m.vocab ensures m.logit(cache, t) <= m.logit(cache, m.argmax(row)) {
      assert row[t] <= row[m.argmax(row)];
    }
  }

  // At width one each step takes a token whose raw logit is the row's greatest, as
  // the greedy argmax does: the two can differ on an exact tie and nowhere else.
  lemma WidthOneIsGreedy(m: Model, n: nat)
    requires m.Valid() && m.beams == 1
    ensures var s := Run(m, n);
            var r := StepReport(m, s);
            var row := m.Logits(OwnCache([BOS] + s.hyps[0]));
            && 0 <= r.picked[0] < |row| && r.greedy[0] < |row|
            && row[r.picked[0]] == row[r.greedy[0]]
            && (forall t :: 0 <= t < |row| ==> row[t] <= row[r.picked[0]])
            && ((forall t :: 0 <= t < |row| && t != r.greedy[0] ==> row[t] < row[r.greedy[0]]) ==>
                  CountMismatches(r.picked, r.greedy) == 0)
  {
    var s := Run(m, n);
    var r := StepReport(m, s);
    var cache := OwnCache([BOS] + s.hyps[0]);
    var row := m.Logits(cache);
    assert r.greedy[0] == m.argmax(row);
    assert |row| > 0 && row != [];
    assert IsArgmax(row, r.greedy[0]);
    StepExtends(m, s);
    assert LaneExtends(m, s, r, 0);
    assert s.scores[0].Fin? by {
      if n > 0 {
        ScoresAreSums(m, n, 0);
      }
    }
    forall t | 0 <= t < m.vocab ensures row[t] <= row[r.picked[0]] {
      StepKeepsBest(m, s, 0, t, 0);
      if Kept(r, 0, t) {
        var j :| 0 <= j < |r.parents| && r.parents[j] == 0 && r.picked[j] == t;
      }
    }
  }

  // ---------------------------------------------------------------- the best lane

  // The last of the lanes whose score no lane exceeds.
  method BestLane(scores: seq<Score>) returns (best: nat)
    requires scores != []
    ensures best < |scores|
    ensures forall lane :: 0 <= lane < |scores| ==> Le(scores[lane], scores[best])
    ensures forall lane :: best < lane < |scores| ==> !Le(scores[best], scores[lane])
  {
    best := 0;
    for lane := 1 to |scores|
      invariant best < lane
      invariant forall k :: 0 <= k < lane ==> Le(scores[k], scores[best])
      invariant forall k :: best < k < lane ==> !Le(scores[best], scores[k])
    {
      if Le(scores[best], scores[lane]) {
        best := lane;
      }
    }
  }
}

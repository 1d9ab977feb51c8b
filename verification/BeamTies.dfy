// When the width-one check holds: the beam's pick and the greedy token are one, for all
// the library promises of either call, exactly where a row has one largest logit.

module BeamTies {
  import opened Arithmetic
  import opened BeamReference
  import BeamLaws
  import BeamProgram

  // ----------------------------------------------------------------------- one row

  // A width-one step's candidates: the row, shifted by the score and the normaliser.
  function Shifted(row: seq<real>, score: real, norm: real): (xs: seq<Score>)
    ensures |xs| == |row|
  {
    seq(|row|, t requires 0 <= t < |row| => Plus(Fin(score), row[t] - norm))
  }

  ghost predicate UniqueMaximum(row: seq<real>) {
    exists a: nat :: IsOnlyMaximum(row, a)
  }

  ghost predicate IsOnlyMaximum(row: seq<real>, a: nat) {
    a < |row| && forall t :: 0 <= t < |row| && t != a ==> row[t] < row[a]
  }

  // Whatever the two calls answer, within their promises, it is one token.
  ghost predicate AlwaysAgree(row: seq<real>, score: real, norm: real) {
    forall idx: seq<nat>, a: nat :: IsTopK(Shifted(row, score, norm), 1, idx) && IsArgmax(row, a) ==> idx == [a]
  }

  // The one candidate taken is a largest logit, and any largest logit may be.
  lemma TopOneIsArgmax(row: seq<real>, score: real, norm: real, a: nat)
    requires a < |row|
    ensures IsTopK(Shifted(row, score, norm), 1, [a]) <==> IsArgmax(row, a)
  {
    var xs, idx := Shifted(row, score, norm), [a];
    if IsTopK(xs, 1, idx) {
      forall t | 0 <= t < |row| ensures row[t] <= row[a] {
        assert t in idx <==> t == a;
        assert t !in idx ==> Le(xs[t], xs[idx[0]]);
      }
    }
    if IsArgmax(row, a) {
      forall n, j | 0 <= n < |xs| && 0 <= j < 1 && n !in idx ensures Le(xs[n], xs[idx[j]]) {
        assert row[n] <= row[a];
      }
    }
  }

  lemma PicksAgreeIffUnique(row: seq<real>, score: real, norm: real)
    requires row != []
    ensures AlwaysAgree(row, score, norm) <==> UniqueMaximum(row)
  {
    hide IsTopK, Shifted;
    if AlwaysAgree(row, score, norm) {
      var a := SomeMaximum(row);
      forall t: nat | t < |row| && t != a ensures row[t] < row[a] {
        SameSingle(a, t);
        TopOneIsArgmax(row, score, norm, a);
        assert row[t] == row[a] ==> IsArgmax(row, t);
      }
      assert IsOnlyMaximum(row, a);
    }
    if UniqueMaximum(row) {
      var b: nat :| IsOnlyMaximum(row, b);
      forall idx: seq<nat>, a: nat | IsTopK(Shifted(row, score, norm), 1, idx) && IsArgmax(row, a) ensures idx == [a] {
        OneIndex(row, score, norm, idx);
        TopOneIsArgmax(row, score, norm, idx[0]);
        assert row[b] <= row[a] && row[b] <= row[idx[0]];
      }
    }
  }

  lemma SameSingle(a: nat, t: nat)
    ensures [a] == [t] ==> a == t
  {
    assert [a] == [t] ==> [a][0] == [t][0];
  }

  lemma OneIndex(row: seq<real>, score: real, norm: real, idx: seq<nat>)
    requires IsTopK(Shifted(row, score, norm), 1, idx)
    ensures |idx| == 1 && idx[0] < |row| && idx == [idx[0]]
  {
  }

  lemma {:induction false} SomeMaximum(row: seq<real>) returns (a: nat)
    requires row != []
    ensures IsArgmax(row, a)
  {
    var n := |row| - 1;
    a := n;
    if n > 0 {
      var b := SomeMaximum(row[..n]);
      forall t | 0 <= t < n ensures row[t] <= row[b] {
        assert row[..n][t] == row[t];
      }
      a := if row[b] < row[n] then n else b;
    }
  }

  // ----------------------------------------------------- a library that breaks ties

  // The places of xs from the greatest value down, the later of two equal ones first.
  function InsertPlace(xs: seq<Score>, order: seq<nat>, i: nat): seq<nat>
    requires i < |xs| && forall k :: 0 <= k < |order| ==> order[k] < |xs|
  {
    if order == [] || Le(xs[order[0]], xs[i]) then [i] + order
    else [order[0]] + InsertPlace(xs, order[1..], i)
  }

  ghost predicate Descends(xs: seq<Score>, order: seq<nat>) {
    && (forall k :: 0 <= k < |order| ==> order[k] < |xs|)
    && (forall j, k :: 0 <= j < k < |order| ==> order[j] != order[k] && Le(xs[order[k]], xs[order[j]]))
  }

  lemma {:induction false} InsertDescends(xs: seq<Score>, order: seq<nat>, i: nat)
    requires i < |xs| && Descends(xs, order) && i !in order
    ensures Descends(xs, InsertPlace(xs, order, i)) && |InsertPlace(xs, order, i)| == |order| + 1
    ensures forall x :: x in InsertPlace(xs, order, i) <==> x == i || x in order
  {
    if order == [] {
      PutFirst(xs, order, i);
    } else if Le(xs[order[0]], xs[i]) {
      forall k | 0 <= k < |order| ensures Le(xs[order[k]], xs[i]) {
        assert k > 0 ==> Le(xs[order[k]], xs[order[0]]);
      }
      PutFirst(xs, order, i);
    } else {
      var rest := order[1..];
      assert order == [order[0]] + rest;
      InsertDescends(xs, rest, i);
      var more := InsertPlace(xs, rest, i);
      forall k | 0 <= k < |more| ensures more[k] != order[0] && Le(xs[more[k]], xs[order[0]]) {
        assert more[k] in more;
      }
      PutFirst(xs, more, order[0]);
    }
  }

  lemma PutFirst(xs: seq<Score>, order: seq<nat>, i: nat)
    requires i < |xs| && Descends(xs, order) && forall k :: 0 <= k < |order| ==> order[k] != i && Le(xs[order[k]], xs[i])
    ensures Descends(xs, [i] + order)
  {
    hide Le;
  }

  function Order(xs: seq<Score>, n: nat): (order: seq<nat>)
    requires n <= |xs|
    ensures Descends(xs, order) && |order| == n && forall x: nat :: x in order <==> x < n
  {
    if n == 0 then []
    else
      InsertDescends(xs, Order(xs, n - 1), n - 1);
      InsertPlace(xs, Order(xs, n - 1), n - 1)
  }

  function LastTop(xs: seq<Score>, k: nat): seq<nat> {
    if k <= |xs| then Order(xs, |xs|)[..k] else []
  }

  function FirstMaximum(row: seq<real>): (a: nat)
    ensures row != [] ==> a < |row|
  {
    if |row| <= 1 then 0
    else
      var n, b := |row| - 1, FirstMaximum(row[..|row| - 1]);
      if row[b] < row[n] then n else b
  }

  lemma LastTopSelects(xs: seq<Score>, k: nat)
    requires k <= |xs|
    ensures IsTopK(xs, k, LastTop(xs, k))
  {
    var order := Order(xs, |xs|);
    var idx := order[..k];
    forall n: nat, j | n < |xs| && 0 <= j < k && n !in idx ensures Le(xs[n], xs[idx[j]]) {
      assert n in order;
      var p :| 0 <= p < |order| && order[p] == n;
      TakenAre(order, k, p);
    }
  }

  lemma TakenAre(order: seq<nat>, k: nat, p: nat)
    requires k <= |order| && p < |order|
    ensures p < k ==> order[p] in order[..k]
  {
    if p < k {
      assert order[..k][p] == order[p];
    }
  }

  lemma {:induction false} FirstMaximumMaximises(row: seq<real>)
    requires row != []
    ensures IsArgmax(row, FirstMaximum(row))
  {
    if |row| > 1 {
      var n := |row| - 1;
      FirstMaximumMaximises(row[..n]);
      forall t | 0 <= t < n ensures row[t] <= row[FirstMaximum(row[..n])] {
        assert row[..n][t] == row[t];
      }
    }
  }

  // Two tokens, always equally likely; `top_k` takes the later, the argmax the earlier.
  function TieModel(): Model {
    Model(1, 2, (_: seq<Row>, _: int) => 0.0, (_: seq<Row>) => 0.0,
          (xs: seq<Score>, k: nat) => LastTop(xs, k), (row: seq<real>) => FirstMaximum(row))
  }

  lemma TieModelIsValid()
    ensures TieModel().Valid()
  {
    forall xs: seq<Score>, k: nat | k <= |xs| ensures IsTopK(xs, k, TieModel().topK(xs, k)) {
      LastTopSelects(xs, k);
    }
    forall row: seq<real> | row != [] ensures IsArgmax(row, TieModel().argmax(row)) {
      FirstMaximumMaximises(row);
    }
  }

  // -------------------------------------------------------------------- whole runs

  // At width one the candidates are the row, shifted.
  lemma WidthOneCandidates(m: Model, s: Beams, x: real)
    requires m.vocab > 0 && m.beams == 1 && |s.hyps| == |s.scores| == 1 && s.scores[0] == Fin(x)
    ensures var cache := OwnCache([BOS] + s.hyps[0]);
            Candidates(m, s.scores, Caches(s.hyps)) == Shifted(m.Logits(cache), x, m.normaliser(cache))
  {
    var cache := OwnCache([BOS] + s.hyps[0]);
    var xs, ys := Candidates(m, s.scores, Caches(s.hyps)), Shifted(m.Logits(cache), x, m.normaliser(cache));
    AtAdds(0, 1, m.vocab);
    forall i: nat | i < m.vocab ensures xs[i] == ys[i] {
      AtAdds(0, 0, m.vocab);
      CandidateOf(0, i, 1, m.vocab);
    }
  }

  // The program's step picks by `top_k` over that row, its check by the argmax.
  lemma WidthOnePicks(m: Model, n: nat)
    requires m.Valid() && m.beams == 1
    ensures Run(m, n).scores[0].Fin?
    ensures var s := Run(m, n);
            var cache := OwnCache([BOS] + s.hyps[0]);
            var row := m.Logits(cache);
            var xs, r := Shifted(row, s.scores[0].value, m.normaliser(cache)), StepReport(m, s);
            && IsTopK(xs, 1, m.topK(xs, 1)) && IsArgmax(row, m.argmax(row))
            && r.picked == m.topK(xs, 1) && r.greedy == [m.argmax(row)]
  {
    var s := Run(m, n);
    if n > 0 {
      BeamLaws.ScoresAreSums(m, n, 0);
    }
    PickTokens(m, s, s.scores[0].value);
  }

  lemma PickTokens(m: Model, s: Beams, x: real)
    requires m.Valid() && m.beams == 1 && |s.hyps| == |s.scores| == 1 && s.scores[0] == Fin(x)
    ensures var cache := OwnCache([BOS] + s.hyps[0]);
            var row := m.Logits(cache);
            var xs, r := Shifted(row, x, m.normaliser(cache)), StepReport(m, s);
            && IsTopK(xs, 1, m.topK(xs, 1)) && IsArgmax(row, m.argmax(row))
            && r.picked == m.topK(xs, 1) && r.greedy == [m.argmax(row)]
  {
    hide OwnCache, Shifted, Candidates;
    WidthOneCandidates(m, s, x);
    var cand := Candidates(m, s.scores, Caches(s.hyps));
    ChosenIsTopK(m, cand);
    var idx := Chosen(m, cand);
    AtAdds(0, 1, m.vocab);
    DivModUnique(m.vocab, 0, idx[0]);
    assert Token(idx[0], m.vocab) == idx[0];
    assert StepReport(m, s).picked == idx;
  }

  // One largest logit at a step: no mismatch there, whatever the libraries.
  lemma UniqueAgrees(m: Model, n: nat)
    requires m.Valid() && m.beams == 1 && UniqueMaximum(m.Logits(OwnCache([BOS] + Run(m, n).hyps[0])))
    ensures var r := StepReport(m, Run(m, n)); BeamLaws.CountMismatches(r.picked, r.greedy) == 0
  {
    hide StepReport, Run, OwnCache, Shifted, IsTopK, IsArgmax;
    WidthOnePicks(m, n);
    var s := Run(m, n);
    var cache := OwnCache([BOS] + s.hyps[0]);
    PicksAgreeIffUnique(m.Logits(cache), s.scores[0].value, m.normaliser(cache));
    var r := StepReport(m, s);
    assert r.picked == r.greedy;
  }

  // Runs whose rows all have one largest logit pass the check.
  lemma {:induction false} UniquePasses(m: Model, n: nat)
    requires m.Valid() && m.beams == 1
    requires forall k: nat :: k < n ==> UniqueMaximum(m.Logits(OwnCache([BOS] + Run(m, k).hyps[0])))
    ensures |BeamLaws.Disagreements(m, n)| == 0
  {
    hide Run, StepReport, OwnCache, UniqueMaximum, BeamLaws.CountMismatches, BeamLaws.Disagreements, Model.Logits;
    if n > 0 {
      UniquePasses(m, n - 1);
      UniqueAgrees(m, n - 1);
      BeamLaws.DisagreementsStep(m, n - 1);
    } else {
      BeamLaws.DisagreementsStep(m, 0);
    }
  }

  // A tie at every step is a mismatch at every step.
  lemma {:induction false} TiesMismatch(n: nat)
    ensures TieModel().Valid() && |BeamLaws.Disagreements(TieModel(), n)| == n
  {
    TieModelIsValid();
    hide TieModel, StepReport, Run, BeamLaws.CountMismatches, BeamLaws.Disagreements, Model.Valid;
    if n > 0 {
      TiesMismatch(n - 1);
      TieMismatches(n - 1);
      BeamLaws.DisagreementsStep(TieModel(), n - 1);
    } else {
      BeamLaws.DisagreementsStep(TieModel(), 0);
    }
  }

  lemma TieMismatches(n: nat)
    ensures TieModel().Valid()
    ensures var r := StepReport(TieModel(), Run(TieModel(), n)); BeamLaws.CountMismatches(r.picked, r.greedy) == 1
  {
    TieModelIsValid();
    var m, s := TieModel(), Run(TieModel(), n);
    WidthOnePicks(m, n);
    hide StepReport, Run;
    var cache := OwnCache([BOS] + s.hyps[0]);
    TieRow(s.scores[0].value, cache);
    var r := StepReport(m, s);
    assert r.picked == [1] && r.greedy == [0];
    assert r.picked[..0] == [] && r.greedy[..0] == [];
  }

  lemma TieRow(x: real, cache: seq<Row>)
    ensures var m := TieModel();
            var row := m.Logits(cache);
            var xs := Shifted(row, x, m.normaliser(cache));
            m.topK(xs, 1) == [1] && m.argmax(row) == 0
  {
    var m := TieModel();
    var row := m.Logits(cache);
    var xs := Shifted(row, x, m.normaliser(cache));
    assert row == [0.0, 0.0];
    assert Le(xs[0], xs[1]);
    assert Order(xs, 1) == [0];
    assert Order(xs, 2) == [1, 0];
    assert row[..1] == [0.0];
  }

  // So the search refuses its own answer, as many mismatches as steps.
  lemma TieIsRefused(steps: nat)
    requires 0 < steps < 0xFFFF_FFFF
    ensures TieModel().Valid()
    ensures BeamProgram.IdentityFails(TieModel(), steps) && |BeamLaws.Disagreements(TieModel(), steps)| == steps
  {
    TiesMismatch(steps);
  }
}

// Fixed-width beam search as its rule states it: every lane its own token list and
// its own cache, each step keeping the best extensions of all lanes.

module BeamReference {
  import opened Arithmetic

  const BOS: int := 1

  datatype Score = NegInf | Fin(value: real)

  function Plus(s: Score, x: real): Score {
    if s.NegInf? then NegInf else Fin(s.value + x)
  }

  predicate Le(a: Score, b: Score) {
    a.NegInf? || (b.Fin? && a.value <= b.value)
  }

  // A cached row: what one token leaves behind for later tokens to attend to. It
  // depends on the token, on its position, and on the rows it attended to itself.
  datatype Row = Row(token: int, position: nat, attended: seq<Row>)

  // The cache of a sequence that shares with nobody.
  function OwnCache(tokens: seq<int>): (rows: seq<Row>)
    ensures |rows| == |tokens|
  {
    if tokens == [] then []
    else
      var init := tokens[..|tokens| - 1];
      OwnCache(init) + [Row(tokens[|init|], |init|, OwnCache(init))]
  }

  lemma {:induction false} OwnCachePrefix(tokens: seq<int>, k: nat)
    requires k <= |tokens|
    ensures OwnCache(tokens)[..k] == OwnCache(tokens[..k])
  {
    if k == |tokens| {
      assert tokens[..k] == tokens;
    } else {
      var init := tokens[..|tokens| - 1];
      OwnCachePrefix(init, k);
      assert init[..k] == tokens[..k];
    }
  }

  // The model and the library calls, uninterpreted: the logits of a sequence's next
  // token, the normaliser `log_softmax` takes off a row, and the two selections.
  datatype Model = Model(beams: nat, vocab: nat,
                         logit: (seq<Row>, int) -> real, normaliser: seq<Row> -> real,
                         topK: (seq<Score>, nat) -> seq<nat>, argmax: seq<real> -> nat)
  {
    function LogProb(cache: seq<Row>, token: int): real {
      logit(cache, token) - normaliser(cache)
    }

    ghost predicate Valid() {
      && beams > 0 && vocab > 0
      && Selects(topK) && Maximises(argmax)
    }

    function Logits(cache: seq<Row>): seq<real> {
      seq(vocab, t => logit(cache, t))
    }
  }

  ghost predicate Selects(topK: (seq<Score>, nat) -> seq<nat>) {
    forall xs: seq<Score>, k: nat :: k <= |xs| ==> IsTopK(xs, k, topK(xs, k))
  }

  ghost predicate Maximises(argmax: seq<real> -> nat) {
    forall row: seq<real> :: row != [] ==> IsArgmax(row, argmax(row))
  }

  // What `top_k` promises: k distinct indices, no unchosen entry above a chosen one.
  ghost predicate IsTopK(xs: seq<Score>, k: nat, idx: seq<nat>) {
    && |idx| == k
    && (forall j :: 0 <= j < k ==> idx[j] < |xs|)
    && (forall i, j :: 0 <= i < j < k ==> idx[i] != idx[j])
    && (forall n, j :: 0 <= n < |xs| && 0 <= j < k && n !in idx ==> Le(xs[n], xs[idx[j]]))
  }

  ghost predicate IsArgmax(row: seq<real>, m: nat) {
    m < |row| && forall t :: 0 <= t < |row| ==> row[t] <= row[m]
  }

  datatype Beams = Beams(hyps: seq<seq<int>>, scores: seq<Score>)

  // Candidate i of a step: token i % vocab after lane i / vocab.
  function Lane(i: nat, vocab: nat): nat
    requires vocab > 0
  {
    i / vocab
  }

  function Token(i: nat, vocab: nat): nat
    requires vocab > 0
  {
    i % vocab
  }

  lemma CandidateParts(i: nat, beams: nat, vocab: nat)
    requires vocab > 0 && i < At(beams, vocab)
    ensures Lane(i, vocab) < beams && Token(i, vocab) < vocab
    ensures i == At(Lane(i, vocab), vocab) + Token(i, vocab)
  {
    var (q, r) := DivMod(i, vocab);
    AtApart(beams, q, vocab);
  }

  lemma CandidateOf(lane: nat, token: nat, beams: nat, vocab: nat)
    requires lane < beams && token < vocab
    ensures At(lane, vocab) + token < At(beams, vocab)
    ensures Lane(At(lane, vocab) + token, vocab) == lane && Token(At(lane, vocab) + token, vocab) == token
  {
    AtApart(lane, beams, vocab);
    DivModUnique(vocab, lane, token);
  }

  // The candidates of one step, lane by lane, token by token.
  function Candidates(m: Model, scores: seq<Score>, caches: seq<seq<Row>>): (c: seq<Score>)
    requires m.vocab > 0 && |scores| == |caches| == m.beams
    ensures |c| == At(m.beams, m.vocab)
  {
    seq(At(m.beams, m.vocab), i requires 0 <= i < At(m.beams, m.vocab) => Candidate(m, scores, caches, i))
  }

  function Candidate(m: Model, scores: seq<Score>, caches: seq<seq<Row>>, i: nat): Score
    requires m.vocab > 0 && |scores| == |caches| == m.beams && i < At(m.beams, m.vocab)
  {
    CandidateParts(i, m.beams, m.vocab);
    Plus(scores[Lane(i, m.vocab)], m.LogProb(caches[Lane(i, m.vocab)], Token(i, m.vocab)))
  }

  // `advance_hypotheses`
  function AdvanceHypotheses(hyps: seq<seq<int>>, picked: seq<int>, parents: seq<nat>): (r: seq<seq<int>>)
    requires |picked| == |parents| == |hyps| && forall b :: 0 <= b < |parents| ==> parents[b] < |hyps|
    ensures |r| == |hyps|
  {
    seq(|hyps|, b requires 0 <= b < |hyps| => hyps[parents[b]] + [picked[b]])
  }

  // What one step picks, as the device reports it to the host.
  datatype Report = Report(picked: seq<int>, parents: seq<nat>, scores: seq<Score>, greedy: seq<nat>)

  // The indices `top_k` answers for a step.
  function Chosen(m: Model, cand: seq<Score>): (idx: seq<nat>)
    requires m.Valid() && |cand| == At(m.beams, m.vocab)
    ensures |idx| == m.beams && forall b :: 0 <= b < m.beams ==> idx[b] < |cand|
  {
    EnoughCandidates(m);
    assert IsTopK(cand, m.beams, m.topK(cand, m.beams));
    m.topK(cand, m.beams)
  }

  lemma ChosenIsTopK(m: Model, cand: seq<Score>)
    requires m.Valid() && |cand| == At(m.beams, m.vocab)
    ensures IsTopK(cand, m.beams, Chosen(m, cand))
  {
    EnoughCandidates(m);
  }

  lemma EnoughCandidates(m: Model)
    requires m.vocab > 0
    ensures m.beams <= At(m.beams, m.vocab)
  {
    MulMonotone(1, m.vocab, m.beams);
  }

  // The rows one step reports, from the indices it chose.
  function ReportOf(m: Model, cand: seq<Score>, idx: seq<nat>, caches: seq<seq<Row>>): (r: Report)
    requires m.vocab > 0 && |caches| == |idx| && forall b :: 0 <= b < |idx| ==> idx[b] < |cand|
    ensures |r.picked| == |r.parents| == |r.scores| == |r.greedy| == |idx|
  {
    Report(seq(|idx|, b requires 0 <= b < |idx| => Token(idx[b], m.vocab)),
           seq<nat>(|idx|, b requires 0 <= b < |idx| => Lane(idx[b], m.vocab)),
           seq(|idx|, b requires 0 <= b < |idx| => cand[idx[b]]),
           seq<nat>(|idx|, b requires 0 <= b < |idx| => m.argmax(m.Logits(caches[b]))))
  }

  function Pick(m: Model, scores: seq<Score>, caches: seq<seq<Row>>): (r: Report)
    requires m.Valid() && |scores| == |caches| == m.beams
    ensures |r.picked| == |r.parents| == |r.scores| == |r.greedy| == m.beams
  {
    var cand := Candidates(m, scores, caches);
    ReportOf(m, cand, Chosen(m, cand), caches)
  }

  lemma PickInRange(m: Model, scores: seq<Score>, caches: seq<seq<Row>>)
    requires m.Valid() && |scores| == |caches| == m.beams
    ensures var r := Pick(m, scores, caches);
            forall b :: 0 <= b < m.beams ==> r.parents[b] < m.beams && 0 <= r.picked[b] < m.vocab
  {
    var idx := Chosen(m, Candidates(m, scores, caches));
    forall b | 0 <= b < m.beams ensures Lane(idx[b], m.vocab) < m.beams && Token(idx[b], m.vocab) < m.vocab {
      CandidateParts(idx[b], m.beams, m.vocab);
    }
  }

  function Caches(hyps: seq<seq<int>>): seq<seq<Row>> {
    seq(|hyps|, b requires 0 <= b < |hyps| => OwnCache([BOS] + hyps[b]))
  }

  function Initial(m: Model): Beams {
    Beams(seq(m.beams, _ => []), seq(m.beams, b => if b == 0 then Fin(0.0) else NegInf))
  }

  ghost predicate Shaped(m: Model, s: Beams, n: nat) {
    && |s.hyps| == |s.scores| == m.beams
    && forall b :: 0 <= b < m.beams ==> |s.hyps[b]| == n
  }

  function StepReport(m: Model, s: Beams): (r: Report)
    requires m.Valid() && |s.hyps| == |s.scores| == m.beams
    ensures |r.picked| == |r.parents| == |r.scores| == |r.greedy| == m.beams
  {
    Pick(m, s.scores, Caches(s.hyps))
  }

  function Step(m: Model, s: Beams): Beams
    requires m.Valid() && |s.hyps| == |s.scores| == m.beams
  {
    var r := StepReport(m, s);
    PickInRange(m, s.scores, Caches(s.hyps));
    Beams(AdvanceHypotheses(s.hyps, r.picked, r.parents), r.scores)
  }

  // The state after n steps.
  function Run(m: Model, n: nat): (s: Beams)
    requires m.Valid()
    ensures Shaped(m, s, n)
  {
    if n == 0 then Initial(m)
    else
      var before := Run(m, n - 1);
      PickInRange(m, before.scores, Caches(before.hyps));
      Step(m, before)
  }

  // -------------------------------------------------------- what a step keeps

  // The extension of lane p by token t.
  function Extension(m: Model, s: Beams, p: nat, t: int): Score
    requires p < |s.hyps| == |s.scores|
  {
    Plus(s.scores[p], m.LogProb(OwnCache([BOS] + s.hyps[p]), t))
  }

  lemma CandidateIs(m: Model, s: Beams, p: nat, t: nat)
    requires m.vocab > 0 && |s.hyps| == |s.scores| == m.beams && p < m.beams && t < m.vocab
    ensures At(p, m.vocab) + t < At(m.beams, m.vocab)
    ensures Candidates(m, s.scores, Caches(s.hyps))[At(p, m.vocab) + t] == Extension(m, s, p, t)
  {
    hide At, Lane, Token;
    CandidateOf(p, t, m.beams, m.vocab);
  }

  // Entry b of a step's report, against the index it came from.
  lemma ReportEntry(m: Model, s: Beams, b: nat)
    requires m.Valid() && |s.hyps| == |s.scores| == m.beams && b < m.beams
    ensures var r := StepReport(m, s);
            var idx := Chosen(m, Candidates(m, s.scores, Caches(s.hyps)));
            && r.parents[b] < m.beams && 0 <= r.picked[b] < m.vocab
            && idx[b] == At(r.parents[b], m.vocab) + r.picked[b]
            && r.scores[b] == Extension(m, s, r.parents[b], r.picked[b])
  {
    hide At, Extension, Candidate;
    var cand := Candidates(m, s.scores, Caches(s.hyps));
    var idx := Chosen(m, cand);
    CandidateParts(idx[b], m.beams, m.vocab);
    CandidateIs(m, s, Lane(idx[b], m.vocab), Token(idx[b], m.vocab));
  }

  ghost predicate Kept(r: Report, p: nat, t: int)
    requires |r.parents| == |r.picked|
  {
    exists b :: 0 <= b < |r.parents| && r.parents[b] == p && r.picked[b] == t
  }

  // Lane b extends a surviving lane by one token of the vocabulary and scores as that extension.
  ghost predicate LaneExtends(m: Model, s: Beams, r: Report, b: nat)
    requires m.Valid() && |s.hyps| == |s.scores| == m.beams && r == StepReport(m, s) && b < m.beams
  {
    && r.parents[b] < m.beams && 0 <= r.picked[b] < m.vocab
    && Step(m, s).hyps[b] == s.hyps[r.parents[b]] + [r.picked[b]]
    && Step(m, s).scores[b] == Extension(m, s, r.parents[b], r.picked[b])
  }

  // Each step's lanes are extensions of surviving lanes ...
  lemma StepExtends(m: Model, s: Beams)
    requires m.Valid() && |s.hyps| == |s.scores| == m.beams
    ensures |Step(m, s).hyps| == |Step(m, s).scores| == m.beams
    ensures forall b :: 0 <= b < m.beams ==> LaneExtends(m, s, StepReport(m, s), b)
  {
    PickInRange(m, s.scores, Caches(s.hyps));
    forall b | 0 <= b < m.beams ensures LaneExtends(m, s, StepReport(m, s), b) {
      ReportEntry(m, s, b);
    }
  }

  // ... no two of them the same extension ...
  lemma StepKeepsApart(m: Model, s: Beams, b: nat, b': nat)
    requires m.Valid() && |s.hyps| == |s.scores| == m.beams && b < b' < m.beams
    ensures var r := StepReport(m, s);
            r.parents[b] != r.parents[b'] || r.picked[b] != r.picked[b']
  {
    ReportEntry(m, s, b);
    ReportEntry(m, s, b');
    ChosenIsTopK(m, Candidates(m, s.scores, Caches(s.hyps)));
    hide *;
  }

  // ... and no extension left out beats one that was kept.
  lemma StepKeepsBest(m: Model, s: Beams, p: nat, t: nat, b: nat)
    requires m.Valid() && |s.hyps| == |s.scores| == m.beams
    requires p < m.beams && t < m.vocab && b < m.beams
    ensures Kept(StepReport(m, s), p, t) || Le(Extension(m, s, p, t), Step(m, s).scores[b])
  {
    var cand := Candidates(m, s.scores, Caches(s.hyps));
    var idx := Chosen(m, cand);
    var r := StepReport(m, s);
    var n := At(p, m.vocab) + t;
    PickInRange(m, s.scores, Caches(s.hyps));
    ChosenIsTopK(m, cand);
    CandidateIs(m, s, p, t);
    ReportEntry(m, s, b);
    if n in idx {
      var j :| 0 <= j < |idx| && idx[j] == n;
      CandidateOf(p, t, m.beams, m.vocab);
      assert r.parents[j] == p && r.picked[j] == t;
    }
  }
}

// The drafter's round loop: draft k tokens, verify them in one pass, keep the
// longest prefix the target agrees with, roll the cache back over the rest.

module Speculative {

  type Token = int

  // The models, uninterpreted: the target's greedy token after a sequence, and the
  // drafter's block, which may depend on anything the loop has.
  datatype Models = Models(next: seq<Token> -> Token, draft: (seq<Token>, seq<Token>, nat) -> seq<Token>)

  // The plain greedy run: n tokens after the prompt, one at a time.
  function Greedy(m: Models, prompt: seq<Token>, n: nat): (out: seq<Token>)
    ensures |out| == n
  {
    if n == 0 then []
    else
      var before := Greedy(m, prompt, n - 1);
      before + [m.next(prompt + before)]
  }

  // What the target answers at each verified row: its own token after the cache and
  // the rows up to that one.
  function Truth(m: Models, cache: seq<Token>, rows: seq<Token>): (t: seq<Token>)
    ensures |t| == |rows|
  {
    seq(|rows|, i requires 0 <= i < |rows| => m.next(cache + rows[..i + 1]))
  }

  // The target's cache: the tokens whose keys and values it holds.
  class Cache {
    var tokens: seq<Token>

    constructor (prompt: seq<Token>)
      ensures tokens == prompt
    {
      tokens := prompt;
    }

    // A verifying pass appends every row and answers each.
    method Verify(m: Models, rows: seq<Token>) returns (truth: seq<Token>)
      modifies this
      ensures tokens == old(tokens) + rows && truth == Truth(m, old(tokens), rows)
    {
      truth := Truth(m, tokens, rows);
      tokens := tokens + rows;
    }

    // `rollback_speculative_cache`: of the last `block` rows, the first accepted + 1 stay.
    method Rollback(accepted: nat, block: nat)
      requires accepted < block <= |tokens|
      modifies this
      ensures tokens == old(tokens)[..|old(tokens)| - block + accepted + 1]
    {
      tokens := tokens[..|tokens| - block + accepted + 1];
    }
  }

  datatype Round = Round(proposed: seq<Token>, truth: seq<Token>, accepted: nat, committed: seq<Token>)

  // The longest prefix of the proposal the target agrees with.
  ghost predicate LongestAgreement(proposed: seq<Token>, truth: seq<Token>, accepted: nat) {
    && accepted <= |proposed| < |truth|
    && proposed[..accepted] == truth[..accepted]
    && (accepted < |proposed| ==> proposed[accepted] != truth[accepted])
  }

  // It has one length.
  lemma AgreementIsUnique(proposed: seq<Token>, truth: seq<Token>, a: nat, b: nat)
    requires LongestAgreement(proposed, truth, a) && LongestAgreement(proposed, truth, b)
    ensures a == b
  {
    SamePrefix(proposed, truth, a);
    SamePrefix(proposed, truth, b);
  }

  lemma SamePrefix(s: seq<Token>, t: seq<Token>, n: nat)
    requires n <= |s| && n <= |t| && s[..n] == t[..n]
    ensures forall i :: 0 <= i < n ==> s[i] == t[i]
  {
    forall i | 0 <= i < n ensures s[i] == t[i] {
      assert s[..n][i] == t[..n][i];
    }
  }

  function Agreed(proposed: seq<Token>, truth: seq<Token>): (a: nat)
    requires |proposed| < |truth|
    ensures a <= |proposed|
  {
    if proposed == [] || proposed[0] != truth[0] then 0 else 1 + Agreed(proposed[1..], truth[1..])
  }

  lemma {:induction false} AgreedIsLongest(proposed: seq<Token>, truth: seq<Token>)
    requires |proposed| < |truth|
    ensures LongestAgreement(proposed, truth, Agreed(proposed, truth))
  {
    if proposed != [] && proposed[0] == truth[0] {
      var rest, more := proposed[1..], truth[1..];
      AgreedIsLongest(rest, more);
      var a := Agreed(rest, more);
      assert proposed[..a + 1] == [proposed[0]] + rest[..a] && truth[..a + 1] == [truth[0]] + more[..a];
    }
  }

  method CountAccepted(proposed: seq<Token>, truth: seq<Token>) returns (accepted: nat)
    requires |proposed| < |truth|
    ensures LongestAgreement(proposed, truth, accepted)
  {
    accepted := 0;
    while accepted < |proposed| && proposed[accepted] == truth[accepted]
      invariant accepted <= |proposed|
      invariant proposed[..accepted] == truth[..accepted]
    {
      accepted := accepted + 1;
    }
  }

  // ------------------------------------------------------------- greedy runs

  lemma {:induction false} GreedyPrefix(m: Models, prompt: seq<Token>, n: nat, k: nat)
    requires n <= k
    ensures Greedy(m, prompt, k)[..n] == Greedy(m, prompt, n)
  {
    if n < k {
      GreedyPrefix(m, prompt, n, k - 1);
      var before := Greedy(m, prompt, k - 1);
      assert Greedy(m, prompt, k)[..n] == before[..n];
    } else {
      assert Greedy(m, prompt, k)[..n] == Greedy(m, prompt, n);
    }
  }

  // A list is a greedy run when each of its tokens is the target's after the rest.
  lemma GreedyStep(m: Models, prompt: seq<Token>, out: seq<Token>, t: Token)
    requires out == Greedy(m, prompt, |out|) && t == m.next(prompt + out)
    ensures out + [t] == Greedy(m, prompt, |out| + 1)
  {
  }

  // The first j answers of a verifying pass over agreeing rows carry the greedy run on.
  lemma {:induction false} AgreedRowsAreGreedy(m: Models, prompt: seq<Token>, committed: seq<Token>,
                                              cache: seq<Token>, rows: seq<Token>, j: nat)
    requires committed != [] && committed == Greedy(m, prompt, |committed|)
    requires cache == prompt + committed[..|committed| - 1]
    requires j <= |rows| && rows != [] && rows[0] == committed[|committed| - 1]
    requires forall i :: 1 <= i < j ==> rows[i] == Truth(m, cache, rows)[i - 1]
    ensures committed + Truth(m, cache, rows)[..j] == Greedy(m, prompt, |committed| + j)
  {
    var truth := Truth(m, cache, rows);
    if j == 0 {
      assert committed + truth[..0] == committed;
    } else {
      AgreedRowsAreGreedy(m, prompt, committed, cache, rows, j - 1);
      var out := committed + truth[..j - 1];
      assert rows[..j] == [rows[0]] + truth[..j - 1] by {
        forall i | 0 <= i < j ensures rows[..j][i] == ([rows[0]] + truth[..j - 1])[i] {
          if i > 0 {
            assert rows[i] == truth[i - 1];
          }
        }
      }
      assert cache + rows[..j] == prompt + out;
      GreedyStep(m, prompt, out, truth[j - 1]);
      assert committed + truth[..j] == out + [truth[j - 1]];
    }
  }

  // ------------------------------------------------------------------ one round

  // Between rounds: what is committed is the greedy run, and the cache, the offset
  // and the shared rows cover the prompt and all committed tokens but the last.
  ghost predicate Between(m: Models, prompt: seq<Token>, committed: seq<Token>, cache: seq<Token>,
                          shared: seq<Token>, kvOffset: nat) {
    && committed != [] && committed == Greedy(m, prompt, |committed|)
    && cache == prompt + committed[..|committed| - 1]
    && shared == cache && kvOffset == |cache|
  }

  // A round as traced: k proposals, k + 1 answers, the agreed ones and one more kept.
  ghost predicate SoundRound(r: Round, k: nat) {
    && |r.proposed| == k && |r.truth| == k + 1
    && LongestAgreement(r.proposed, r.truth, r.accepted)
    && r.committed == r.proposed[..r.accepted] + [r.truth[r.accepted]]
  }

  // The round the loop runs from these tokens, the cache holding all but the last.
  function RoundOf(m: Models, prompt: seq<Token>, committed: seq<Token>, k: nat): (r: Round)
    requires committed != [] && |m.draft(committed, prompt + committed[..|committed| - 1], k)| == k
    ensures SoundRound(r, k) && r.committed != []
  {
    var cache := prompt + committed[..|committed| - 1];
    var drafts := m.draft(committed, cache, k);
    var truth := Truth(m, cache, [committed[|committed| - 1]] + drafts);
    var a := Agreed(drafts, truth);
    AgreedIsLongest(drafts, truth);
    Round(drafts, truth, a, drafts[..a] + [truth[a]])
  }

  method DraftRound(m: Models, k: nat, cache: Cache, committed0: seq<Token>, shared0: seq<Token>, kvOffset0: nat,
                    ghost prompt: seq<Token>)
    returns (committed: seq<Token>, shared: seq<Token>, kvOffset: nat, round: Round)
    requires Between(m, prompt, committed0, cache.tokens, shared0, kvOffset0)
    requires |m.draft(committed0, shared0, k)| == k
    modifies cache
    ensures Between(m, prompt, committed, cache.tokens, shared, kvOffset)
    ensures committed == committed0 + round.committed && 1 <= |round.committed| <= k + 1
    ensures committed0 != [] && |m.draft(committed0, prompt + committed0[..|committed0| - 1], k)| == k
    ensures round == RoundOf(m, prompt, committed0, k)
  {
    hide *;
    BetweenMeans(m, prompt, committed0, cache.tokens, shared0, kvOffset0);
    var bs := k + 1;
    var drafts := m.draft(committed0, shared0, k);
    var verifyInput := [committed0[|committed0| - 1]] + drafts;
    ghost var before := cache.tokens;
    var truth := cache.Verify(m, verifyInput);
    var seen := cache.tokens;
    var accepted := CountAccepted(drafts, truth);
    AgreementFits(drafts, truth, accepted);
    var newTokens := drafts[..accepted] + [truth[accepted]];
    round := Round(drafts, truth, accepted, newTokens);
    committed := committed0 + newTokens;
    KeptRows(before, verifyInput, accepted);
    if accepted < bs - 1 {
      cache.Rollback(accepted, bs);
    }
    shared := seen[..|seen| - (bs - (accepted + 1))];
    kvOffset := kvOffset0 + accepted + 1;
    RoundKeepsBetween(m, prompt, committed0, before, shared0, kvOffset0, k, drafts, truth, accepted);
  }

  // What a round leaves is what it found, one round on.
  lemma RoundKeepsBetween(m: Models, prompt: seq<Token>, committed: seq<Token>, cache: seq<Token>, shared: seq<Token>, kvOffset: nat,
                          k: nat, drafts: seq<Token>, truth: seq<Token>, accepted: nat)
    requires Between(m, prompt, committed, cache, shared, kvOffset) && committed != []
    requires drafts == m.draft(committed, shared, k) && |drafts| == k
    requires truth == Truth(m, cache, [committed[|committed| - 1]] + drafts) && LongestAgreement(drafts, truth, accepted)
    ensures var more, rows := drafts[..accepted] + [truth[accepted]], ([committed[|committed| - 1]] + drafts)[..accepted + 1];
            Between(m, prompt, committed + more, cache + rows, cache + rows, kvOffset + accepted + 1)
    ensures |m.draft(committed, prompt + committed[..|committed| - 1], k)| == k
    ensures RoundOf(m, prompt, committed, k) == Round(drafts, truth, accepted, drafts[..accepted] + [truth[accepted]])
  {
    hide Greedy, Agreed;
    var rows := [committed[|committed| - 1]] + drafts;
    assert rows[1..] == drafts;
    RoundIsGreedy(m, prompt, committed, cache, rows, truth, accepted);
    AgreedIsLongest(drafts, truth);
    AgreementIsUnique(drafts, truth, accepted, Agreed(drafts, truth));
    CacheCovers(prompt, committed, cache, drafts, truth, accepted);
  }

  lemma AgreementFits(drafts: seq<Token>, truth: seq<Token>, accepted: nat)
    requires LongestAgreement(drafts, truth, accepted)
    ensures accepted <= |drafts| < |truth|
  {
  }

  // What is left of a verified block once the rejected rows are cut off.
  lemma KeptRows(cache: seq<Token>, rows: seq<Token>, accepted: nat)
    requires accepted < |rows|
    ensures (cache + rows)[..|cache + rows| - |rows| + accepted + 1] == cache + rows[..accepted + 1]
    ensures (cache + rows)[..|cache + rows| - (|rows| - (accepted + 1))] == cache + rows[..accepted + 1]
    ensures accepted + 1 == |rows| ==> rows[..accepted + 1] == rows
  {
  }

  // ... is the prompt and all committed tokens but the last.
  lemma CacheCovers(prompt: seq<Token>, committed: seq<Token>, cache: seq<Token>, drafts: seq<Token>, truth: seq<Token>, accepted: nat)
    requires committed != [] && cache == prompt + committed[..|committed| - 1] && LongestAgreement(drafts, truth, accepted)
    ensures var now := committed + (drafts[..accepted] + [truth[accepted]]);
            cache + ([committed[|committed| - 1]] + drafts)[..accepted + 1] == prompt + now[..|now| - 1]
    ensures drafts[..accepted] + [truth[accepted]] == truth[..accepted + 1]
  {
    var now := committed + (drafts[..accepted] + [truth[accepted]]);
    assert now[..|now| - 1] == committed + drafts[..accepted];
    assert ([committed[|committed| - 1]] + drafts)[..accepted + 1] == [committed[|committed| - 1]] + drafts[..accepted];
    assert committed == committed[..|committed| - 1] + [committed[|committed| - 1]];
  }

  lemma RoundIsGreedy(m: Models, prompt: seq<Token>, committed: seq<Token>, cache: seq<Token>,
                      rows: seq<Token>, truth: seq<Token>, accepted: nat)
    requires committed != [] && committed == Greedy(m, prompt, |committed|)
    requires cache == prompt + committed[..|committed| - 1]
    requires rows != [] && rows[0] == committed[|committed| - 1] && truth == Truth(m, cache, rows)
    requires LongestAgreement(rows[1..], truth, accepted)
    ensures committed + truth[..accepted + 1] == Greedy(m, prompt, |committed| + accepted + 1)
  {
    forall i | 1 <= i < accepted + 1 ensures rows[i] == truth[i - 1] {
      assert rows[1..][..accepted][i - 1] == truth[..accepted][i - 1];
    }
    AgreedRowsAreGreedy(m, prompt, committed, cache, rows, accepted + 1);
  }

  // ------------------------------------------------------------------- the loop

  // The drafter always drafts a block of k.
  ghost predicate DraftsBlocks(m: Models, k: nat) {
    forall committed, shared :: |m.draft(committed, shared, k)| == k
  }

  // The committed tokens, round by round.
  function Flat(rounds: seq<Round>): seq<Token> {
    if rounds == [] then [] else rounds[0].committed + Flat(rounds[1..])
  }

  // The rounds the loop runs from these tokens: until there are enough, or one commits
  // the end token.
  function Rounds(m: Models, prompt: seq<Token>, k: nat, maxTokens: int, eos: Token, committed: seq<Token>): (rounds: seq<Round>)
    requires DraftsBlocks(m, k) && committed != []
    ensures rounds == [] <==> |committed| >= maxTokens
    decreases maxTokens - |committed|
  {
    if |committed| >= maxTokens then []
    else
      var r := RoundOf(m, prompt, committed, k);
      if eos in r.committed then [r] else [r] + Rounds(m, prompt, k, maxTokens, eos, committed + r.committed)
  }

  // What the loop leaves committed.
  function Decoded(m: Models, prompt: seq<Token>, k: nat, maxTokens: int, eos: Token): seq<Token>
    requires DraftsBlocks(m, k)
  {
    [m.next(prompt)] + Flat(Rounds(m, prompt, k, maxTokens, eos, [m.next(prompt)]))
  }

  // `main`'s loop, from the prompt already in the cache. Afterwards the cache covers the
  // prompt and all committed tokens but the last.
  method Decode(m: Models, prompt: seq<Token>, k: nat, maxTokens: int, eos: Token)
    returns (committed: seq<Token>, rounds: seq<Round>, cache: Cache)
    requires DraftsBlocks(m, k)
    ensures rounds == Rounds(m, prompt, k, maxTokens, eos, [m.next(prompt)])
    ensures committed == Decoded(m, prompt, k, maxTokens, eos) == Greedy(m, prompt, |committed|)
    ensures committed != [] && cache.tokens == prompt + committed[..|committed| - 1]
  {
    hide *;
    cache := new Cache(prompt);
    var bonus := m.next(prompt);
    ghost var all := Rounds(m, prompt, k, maxTokens, eos, [bonus]);
    var shared, kvOffset: nat := prompt, |prompt|;
    committed, rounds := [bonus], [];
    PrefillIsBetween(m, prompt);
    NoRounds(bonus);
    assert [] + all == all;
    while |committed| < maxTokens
      invariant Between(m, prompt, committed, cache.tokens, shared, kvOffset) && fresh(cache) && committed != []
      invariant all == rounds + Rounds(m, prompt, k, maxTokens, eos, committed) && committed == [bonus] + Flat(rounds)
      decreases maxTokens - |committed|
    {
      var round;
      DraftIsBlock(m, committed, shared, k);
      ghost var was := committed;
      committed, shared, kvOffset, round := DraftRound(m, k, cache, committed, shared, kvOffset, prompt);
      NextRound(m, prompt, k, maxTokens, eos, was);
      FlatAppend(rounds, round);
      if eos in round.committed {
        rounds := rounds + [round];
        break;
      }
      TakeOne(rounds, round, Rounds(m, prompt, k, maxTokens, eos, committed));
      rounds := rounds + [round];
    }
    assert rounds + [] == rounds;
    DecodedMeans(m, prompt, k, maxTokens, eos);
    BetweenMeans(m, prompt, committed, cache.tokens, shared, kvOffset);
  }

  lemma DraftIsBlock(m: Models, committed: seq<Token>, shared: seq<Token>, k: nat)
    requires DraftsBlocks(m, k)
    ensures |m.draft(committed, shared, k)| == k
  {
  }

  lemma NoRounds(bonus: Token)
    ensures [bonus] + Flat([]) == [bonus]
  {
  }

  lemma TakeOne(rounds: seq<Round>, r: Round, rest: seq<Round>)
    ensures rounds + ([r] + rest) == (rounds + [r]) + rest
  {
  }

  lemma NextRound(m: Models, prompt: seq<Token>, k: nat, maxTokens: int, eos: Token, committed: seq<Token>)
    requires DraftsBlocks(m, k) && committed != [] && |committed| < maxTokens
    ensures var r := RoundOf(m, prompt, committed, k);
            Rounds(m, prompt, k, maxTokens, eos, committed)
            == if eos in r.committed then [r] else [r] + Rounds(m, prompt, k, maxTokens, eos, committed + r.committed)
  {
  }

  lemma DecodedMeans(m: Models, prompt: seq<Token>, k: nat, maxTokens: int, eos: Token)
    requires DraftsBlocks(m, k)
    ensures Decoded(m, prompt, k, maxTokens, eos) == [m.next(prompt)] + Flat(Rounds(m, prompt, k, maxTokens, eos, [m.next(prompt)]))
  {
  }

  // After the prompt's own pass.
  lemma PrefillIsBetween(m: Models, prompt: seq<Token>)
    ensures Between(m, prompt, [m.next(prompt)], prompt, prompt, |prompt|)
  {
    assert prompt + [] == prompt;
    GreedyStep(m, prompt, [], m.next(prompt));
    assert [m.next(prompt)][..0] == [];
  }

  lemma {:induction false} FlatAppend(rounds: seq<Round>, r: Round)
    ensures Flat(rounds + [r]) == Flat(rounds) + r.committed
  {
    if rounds == [] {
      assert ([] + [r])[1..] == [] && [] + [r] == [r];
    } else {
      FlatAppend(rounds[1..], r);
      assert (rounds + [r])[1..] == rounds[1..] + [r];
    }
  }

  lemma BetweenMeans(m: Models, prompt: seq<Token>, committed: seq<Token>, cache: seq<Token>, shared: seq<Token>, kvOffset: nat)
    requires Between(m, prompt, committed, cache, shared, kvOffset)
    ensures committed != [] && committed == Greedy(m, prompt, |committed|)
    ensures cache == prompt + committed[..|committed| - 1] && kvOffset == |cache|
  {
  }

  // ------------------------------------------------------------ what was committed

  // Whatever the drafter, one more round carries the greedy run on.
  lemma RoundExtends(m: Models, prompt: seq<Token>, committed: seq<Token>, k: nat)
    requires DraftsBlocks(m, k) && committed != [] && committed == Greedy(m, prompt, |committed|)
    ensures var now := committed + RoundOf(m, prompt, committed, k).committed; now == Greedy(m, prompt, |now|)
    ensures 1 <= |RoundOf(m, prompt, committed, k).committed| <= k + 1
  {
    var r := RoundOf(m, prompt, committed, k);
    var cache := prompt + committed[..|committed| - 1];
    var rows := [committed[|committed| - 1]] + r.proposed;
    assert rows[1..] == r.proposed;
    RoundIsGreedy(m, prompt, committed, cache, rows, r.truth, r.accepted);
    assert r.committed == r.truth[..r.accepted + 1];
  }

  // The loop's tokens are the target's own greedy run, at most k more than asked for.
  lemma {:induction false} RoundsAreGreedy(m: Models, prompt: seq<Token>, k: nat, maxTokens: int, eos: Token, committed: seq<Token>)
    requires DraftsBlocks(m, k) && committed != [] && committed == Greedy(m, prompt, |committed|)
    ensures var all := committed + Flat(Rounds(m, prompt, k, maxTokens, eos, committed));
            && all == Greedy(m, prompt, |all|)
            && (|all| == |committed| || |all| <= maxTokens + k)
    decreases maxTokens - |committed|
  {
    hide RoundOf, Greedy;
    if |committed| < maxTokens {
      var r := RoundOf(m, prompt, committed, k);
      RoundExtends(m, prompt, committed, k);
      assert [r][1..] == [] && Flat([r]) == r.committed;
      if eos !in r.committed {
        RoundsAreGreedy(m, prompt, k, maxTokens, eos, committed + r.committed);
        var rest := Rounds(m, prompt, k, maxTokens, eos, committed + r.committed);
        assert ([r] + rest)[1..] == rest;
        assert committed + Flat([r] + rest) == committed + r.committed + Flat(rest);
      }
    }
  }

  lemma DecodedIsGreedy(m: Models, prompt: seq<Token>, k: nat, maxTokens: int, eos: Token)
    requires DraftsBlocks(m, k)
    ensures var c := Decoded(m, prompt, k, maxTokens, eos);
            && c != [] && c == Greedy(m, prompt, |c|)
            && |c| <= if maxTokens <= 1 then 1 else maxTokens + k
  {
    hide Greedy;
    PrefillIsBetween(m, prompt);
    BetweenMeans(m, prompt, [m.next(prompt)], prompt, prompt, |prompt|);
    RoundsAreGreedy(m, prompt, k, maxTokens, eos, [m.next(prompt)]);
  }

  // Rounds that stop early only for the end token, and at once when one commits it.
  ghost predicate StopInTime(rounds: seq<Round>, k: nat, maxTokens: int, eos: Token, committed: seq<Token>) {
    && (forall i :: 0 <= i < |rounds| ==> SoundRound(rounds[i], k))
    && (forall i :: 0 <= i < |rounds| - 1 ==> eos !in rounds[i].committed)
    && (|committed + Flat(rounds)| >= maxTokens || (rounds != [] && eos in rounds[|rounds| - 1].committed))
  }

  lemma OneMoreInTime(r: Round, rest: seq<Round>, k: nat, maxTokens: int, eos: Token, committed: seq<Token>)
    requires SoundRound(r, k) && eos !in r.committed && StopInTime(rest, k, maxTokens, eos, committed + r.committed)
    ensures StopInTime([r] + rest, k, maxTokens, eos, committed)
  {
    hide SoundRound;
    var rounds := [r] + rest;
    assert rounds[1..] == rest;
    forall i | 0 <= i < |rounds| - 1 ensures eos !in rounds[i].committed {
      if i > 0 {
        assert rounds[i] == rest[i - 1];
      }
    }
  }

  lemma {:induction false} RoundsStop(m: Models, prompt: seq<Token>, k: nat, maxTokens: int, eos: Token, committed: seq<Token>)
    requires DraftsBlocks(m, k) && committed != []
    ensures StopInTime(Rounds(m, prompt, k, maxTokens, eos, committed), k, maxTokens, eos, committed)
    decreases maxTokens - |committed|
  {
    if |committed| < maxTokens {
      hide RoundOf, SoundRound, Rounds, DraftsBlocks;
      DraftIsBlock(m, committed, prompt + committed[..|committed| - 1], k);
      var r := RoundOf(m, prompt, committed, k);
      NextRound(m, prompt, k, maxTokens, eos, committed);
      if eos !in r.committed {
        RoundsStop(m, prompt, k, maxTokens, eos, committed + r.committed);
        OneMoreInTime(r, Rounds(m, prompt, k, maxTokens, eos, committed + r.committed), k, maxTokens, eos, committed);
      }
    }
  }

  // Two decodes of one target agree as far as both ran, whatever their drafters, block
  // sizes, limits and end tokens.
  lemma DraftersAgree(m: Models, m': Models, prompt: seq<Token>, k: nat, k': nat, maxTokens: int, maxTokens': int, eos: Token, eos': Token)
    requires m.next == m'.next && DraftsBlocks(m, k) && DraftsBlocks(m', k')
    ensures var c, c' := Decoded(m, prompt, k, maxTokens, eos), Decoded(m', prompt, k', maxTokens', eos');
            |c| <= |c'| ==> c'[..|c|] == c
  {
    hide Decoded, Greedy, DraftsBlocks;
    DecodedIsGreedy(m, prompt, k, maxTokens, eos);
    DecodedIsGreedy(m', prompt, k', maxTokens', eos');
    var c, c' := Decoded(m, prompt, k, maxTokens, eos), Decoded(m', prompt, k', maxTokens', eos');
    SameTarget(m, m', prompt, |c'|);
    if |c| <= |c'| {
      GreedyPrefix(m, prompt, |c|, |c'|);
    }
  }

  lemma {:induction false} SameTarget(m: Models, m': Models, prompt: seq<Token>, n: nat)
    requires m.next == m'.next
    ensures Greedy(m', prompt, n) == Greedy(m, prompt, n)
  {
    if n > 0 {
      SameTarget(m, m', prompt, n - 1);
    }
  }

  // ------------------------------------------------------------ after the end token

  // Something follows the first end token.
  predicate EndInside(tokens: seq<Token>, eos: Token) {
    tokens != [] && eos in tokens[..|tokens| - 1]
  }

  lemma {:induction false} EndInRounds(rounds: seq<Round>, eos: Token, first: Token)
    requires rounds != [] && forall i :: 0 <= i < |rounds| ==> rounds[i].committed != []
    requires forall i :: 0 <= i < |rounds| - 1 ==> eos !in rounds[i].committed
    ensures EndInside([first] + Flat(rounds), eos) <==> first == eos || EndInside(rounds[|rounds| - 1].committed, eos)
    decreases |rounds|
  {
    var r := rounds[0].committed;
    if |rounds| == 1 {
      assert Flat(rounds) == r;
      InsideAppend([first], r, eos);
    } else {
      EndInRounds(rounds[1..], eos, r[|r| - 1]);
      var tail := [r[|r| - 1]] + Flat(rounds[1..]);
      assert [first] + Flat(rounds) == ([first] + r[..|r| - 1]) + tail;
      InsideAppend([first] + r[..|r| - 1], tail, eos);
      assert forall x :: x in r[..|r| - 1] ==> x in r;
    }
  }

  lemma InsideAppend(s: seq<Token>, t: seq<Token>, eos: Token)
    requires t != []
    ensures EndInside(s + t, eos) <==> eos in s || EndInside(t, eos)
  {
    assert (s + t)[..|s + t| - 1] == s + t[..|t| - 1];
  }

  // Tokens follow the end token exactly when the prompt's own pass gives it and more were
  // asked for, or when a round commits it before its last place.
  lemma PastTheEnd(m: Models, prompt: seq<Token>, k: nat, maxTokens: int, eos: Token)
    requires DraftsBlocks(m, k)
    ensures var first := m.next(prompt);
            var rounds := Rounds(m, prompt, k, maxTokens, eos, [first]);
            EndInside(Decoded(m, prompt, k, maxTokens, eos), eos)
            <==> (first == eos && maxTokens > 1) || (rounds != [] && EndInside(rounds[|rounds| - 1].committed, eos))
  {
    hide Rounds, EndInside, DraftsBlocks;
    var first := m.next(prompt);
    var rounds := Rounds(m, prompt, k, maxTokens, eos, [first]);
    RoundsStop(m, prompt, k, maxTokens, eos, [first]);
    if rounds == [] {
      OneToken(first, eos);
    } else {
      EndInRounds(rounds, eos, first);
    }
  }

  lemma OneToken(first: Token, eos: Token)
    ensures [first] + Flat([]) == [first] && !EndInside([first], eos)
  {
  }

  // A target and a drafter that only know one token, which is the end token.
  function OneTokenModels(): Models {
    Models(_ => 7, (_: seq<Token>, _: seq<Token>, k: nat) => seq(k, _ => 7))
  }

  // It happens: three end tokens where two tokens were asked for.
  lemma GoesPastTheEnd()
    ensures DraftsBlocks(OneTokenModels(), 1)
    ensures Decoded(OneTokenModels(), [], 1, 2, 7) == [7, 7, 7]
  {
    var m := OneTokenModels();
    assert m.next([]) == 7 && [] + [7][..0] == [];
    assert m.draft([7], [], 1) == [7];
    AllSeven();
    var r := RoundOf(m, [], [7], 1);
    assert r.proposed == [7] && r.truth == [7, 7];
    assert r.committed == [7, 7];
    var rounds := Rounds(m, [], 1, 2, 7, [7]);
    assert rounds == [r];
    assert [r][1..] == [] && Flat([r]) == [7, 7];
  }

  lemma AllSeven()
    ensures Truth(OneTokenModels(), [], [7] + [7]) == [7, 7]
    ensures Agreed([7], [7, 7]) == 1
  {
    assert [7][1..] == [];
  }
}

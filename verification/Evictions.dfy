// Whom the ordered-dict policies evict, in terms of what the trace has asked for so far:
// the seats stand in order of last use, lru takes the first of them, lfu the one asked for
// least often, and lrfu weighs how often against how long ago.

module Evictions {
  import opened Wrappers
  import opened Sequences
  import opened Cuts
  import opened OrderedSeats

  // The cuts among the first n that ask for x, and how many they are.
  ghost function Asking(trace: Trace, n: nat, x: int): set<nat>
    requires n <= |trace|
  {
    set t: nat | t < n && x in trace[t]
  }

  ghost function Uses(trace: Trace, n: nat, x: int): nat
    requires n <= |trace|
  {
    |Asking(trace, n, x)|
  }

  lemma UsesStep(trace: Trace, n: nat, x: int)
    requires n < |trace|
    ensures Uses(trace, 0, x) == 0
    ensures Uses(trace, n + 1, x) == Uses(trace, n, x) + if x in trace[n] then 1 else 0
  {
    var last: set<nat> := if x in trace[n] then {n} else {};
    assert Asking(trace, 0, x) == {};
    assert Asking(trace, n + 1, x) == Asking(trace, n, x) + last;
  }

  // ------------------------------------------------------------ what freq counts

  lemma {:induction false} CountIdsCounts(freq: map<int, nat>, ids: seq<int>, x: int)
    requires Distinct(ids)
    ensures Freq(CountIds(freq, ids), x) == Freq(freq, x) + if x in ids then 1 else 0
  {
    if ids != [] {
      var init := ids[..|ids| - 1];
      CountIdsCounts(freq, init, x);
      assert ids == init + [ids[|ids| - 1]];
    }
  }

  lemma {:induction false} ServeKeepsFreq(policy: Policy, st: State, want: set<int>, ids: seq<int>)
    ensures Serve(policy, st, want, ids).Some? ==> Serve(policy, st, want, ids).value.freq == st.freq
  {
    if ids != [] {
      ServeKeepsFreq(policy, st, want, ids[..|ids| - 1]);
    }
  }

  // After n cuts an id's count is how many of them asked for it.
  lemma {:induction false} FreqIsUses(policy: Policy, trace: Trace, S: nat, n: nat, x: int)
    requires WellFormed(trace) && n <= |trace| && Run(policy, trace, S, n).Some?
    ensures Freq(Run(policy, trace, S, n).value.freq, x) == Uses(trace, n, x)
  {
    hide Serve, Uses, CountIds;
    if n == 0 {
      NeverUsed(trace, x);
    } else {
      FreqIsUses(policy, trace, S, n - 1, x);
      UsesStep(trace, n - 1, x);
      var before := Run(policy, trace, S, n - 1).value;
      CountIdsCounts(before.freq, trace[n - 1], x);
      ServeKeepsFreq(policy, Counted(before, trace[n - 1]), Elements(trace[n - 1]), trace[n - 1]);
    }
  }

  lemma NeverUsed(trace: Trace, x: int)
    ensures Uses(trace, 0, x) == 0
  {
    assert Asking(trace, 0, x) == {};
  }

  // ------------------------------------------------------- part way through a cut

  // The run when the first j ids of cut n are served.
  ghost function During(policy: Policy, trace: Trace, S: nat, n: nat, j: nat): Option<State>
    requires n < |trace| && j <= |trace[n]|
  {
    var before := Run(policy, trace, S, n);
    if before.None? then None
    else Serve(policy, Counted(before.value, trace[n]), Elements(trace[n]), trace[n][..j])
  }

  // Its seats are as many as ever, and its counts include the whole of the cut.
  lemma DuringHolds(policy: Policy, trace: Trace, S: nat, n: nat, j: nat)
    requires WellFormed(trace) && n < |trace| && j <= |trace[n]| && During(policy, trace, S, n, j).Some?
    ensures var st := During(policy, trace, S, n, j).value;
            && Distinct(st.seats) && |st.seats| == S
            && forall x :: Freq(st.freq, x) == Uses(trace, n + 1, x)
  {
    hide Serve, Run, CountIds, Uses, Freq;
    var before := Run(policy, trace, S, n).value;
    RunIsSchedule(policy, trace, S, n);
    ServingCut(policy, Counted(before, trace[n]), trace[n], j);
    var st := During(policy, trace, S, n, j).value;
    forall x ensures Freq(st.freq, x) == Uses(trace, n + 1, x) {
      FreqIsUses(policy, trace, S, n, x);
      CountIdsCounts(before.freq, trace[n], x);
      UsesStep(trace, n, x);
    }
  }

  // A run is its cuts' requests one after another, from the seats it starts with.
  lemma RunIsRequests(policy: Policy, trace: Trace, S: nat, n: nat)
    requires n < |trace|
    ensures Run(policy, trace, S, 0) == Some(State(IdentitySeq(S), map[], 0))
    ensures During(policy, trace, S, n, |trace[n]|) == Run(policy, trace, S, n + 1)
    ensures During(policy, trace, S, n, 0).Some? <==> Run(policy, trace, S, n).Some?
    ensures During(policy, trace, S, n, 0).Some? ==>
              var first, before := During(policy, trace, S, n, 0).value, Run(policy, trace, S, n).value;
              first.seats == before.seats && first.misses == before.misses
  {
    assert trace[n][..|trace[n]|] == trace[n];
    hide CountIds;
  }

  // ------------------------------------------------------------- one seat gives way

  // Seat i gives way, and e takes the last one.
  function Reseated(s: seq<int>, i: nat, e: int): seq<int>
    requires i < |s|
  {
    s[..i] + s[i + 1..] + [e]
  }

  lemma {:induction false} WithoutAt(s: seq<int>, i: nat)
    requires Distinct(s) && i < |s|
    ensures Without(s, s[i]) == s[..i] + s[i + 1..]
  {
    if i > 0 {
      WithoutAt(s[1..], i - 1);
      assert s[0] != s[i];
      assert [s[0]] + (s[1..][..i - 1] + s[1..][i..]) == s[..i] + s[i + 1..];
    }
  }

  // A hit moves its own seat to the end; a miss takes a seat the cut does not want.
  lemma RequestReseats(policy: Policy, st: State, want: set<int>, e: int) returns (i: nat)
    requires Distinct(st.seats) && Request(policy, st, want, e).Some?
    ensures i < |st.seats| && e !in st.seats[..i] + st.seats[i + 1..]
    ensures var now := Request(policy, st, want, e).value;
            && now.seats == Reseated(st.seats, i, e)
            && (e in st.seats ==> st.seats[i] == e && now.misses == st.misses)
            && (e !in st.seats ==> st.seats[i] !in want && now.misses == st.misses + 1
                                   && st.seats[i] == Victim(policy, st.freq, st.seats, want))
  {
    var s := st.seats;
    if e in s {
      i := IndexOf(s, e);
      assert s == s[..i] + [e] + s[i + 1..];
    } else {
      i := VictimPlace(s, want, x => Key(policy, st.freq, s, x));
    }
    WithoutAt(s, i);
  }

  // The first of the least, among the seats the cut does not want.
  lemma {:induction false} VictimPlace(s: seq<int>, want: set<int>, key: int -> real) returns (i: nat)
    requires Candidates(s, want) != []
    ensures i < |s| && s[i] !in want && s[i] == FirstMin(Candidates(s, want), key)
    ensures forall k :: 0 <= k < |s| && s[k] !in want ==> key(s[i]) <= key(s[k])
    ensures forall k :: 0 <= k < i && s[k] !in want ==> key(s[i]) < key(s[k])
  {
    var rest := s[1..];
    assert forall k :: 0 < k < |s| ==> s[k] == rest[k - 1];
    if s[0] in want {
      i := VictimPlace(rest, want, key);
      i := i + 1;
    } else if Candidates(rest, want) == [] {
      CandidateIds(rest, want);
      forall k | 0 < k < |s| ensures s[k] in want {
        assert rest[k - 1] in Elements(rest) && rest[k - 1] !in Elements(Candidates(rest, want));
      }
      i := 0;
    } else {
      var k := VictimPlace(rest, want, key);
      assert Candidates(s, want)[1..] == Candidates(rest, want);
      i := if key(s[0]) <= key(rest[k]) then 0 else k + 1;
    }
  }

  // ---------------------------------------------------------- seats in order of use

  // Where x last is in a list of requests; before it, if nowhere.
  ghost function LastAt(history: seq<int>, x: int): int {
    if history == [] then -1
    else if history[|history| - 1] == x then |history| - 1
    else LastAt(history[..|history| - 1], x)
  }

  lemma {:induction false} LastAtIsLast(history: seq<int>, x: int)
    ensures -1 <= LastAt(history, x) < |history|
    ensures LastAt(history, x) >= 0 ==> history[LastAt(history, x)] == x
    ensures forall t :: LastAt(history, x) < t < |history| ==> history[t] != x
  {
    if history != [] && history[|history| - 1] != x {
      LastAtIsLast(history[..|history| - 1], x);
    }
  }

  ghost predicate ByRecency(seats: seq<int>, history: seq<int>) {
    forall i, k :: 0 <= i < k < |seats| ==> LastAt(history, seats[i]) < LastAt(history, seats[k])
  }

  // What has been seated or asked for, in order: the seats a run starts from, then the ids
  // of the first n cuts.
  ghost function History(trace: Trace, S: nat, n: nat): seq<int>
    requires n <= |trace|
  {
    IdentitySeq(S) + Concat(trace[..n])
  }

  lemma RecencyStep(seats: seq<int>, history: seq<int>, i: nat, e: int)
    requires ByRecency(seats, history) && i < |seats| && e !in seats[..i] + seats[i + 1..]
    ensures ByRecency(Reseated(seats, i, e), history + [e])
  {
    var others, now := seats[..i] + seats[i + 1..], history + [e];
    assert now[..|history|] == history;
    forall a, b | 0 <= a < b < |Reseated(seats, i, e)|
      ensures LastAt(now, Reseated(seats, i, e)[a]) < LastAt(now, Reseated(seats, i, e)[b])
    {
      assert others[a] in others;
      LastAtIsLast(history, others[a]);
      if b < |others| {
        assert others[b] in others;
        assert others[a] == seats[if a < i then a else a + 1] && others[b] == seats[if b < i then b else b + 1];
      }
    }
  }

  lemma {:induction false} IdentityByRecency(S: nat)
    ensures ByRecency(IdentitySeq(S), IdentitySeq(S))
  {
    var s := IdentitySeq(S);
    forall i, k | 0 <= i < k < S ensures LastAt(s, s[i]) < LastAt(s, s[k]) {
      LastAtIsLast(s, s[i]);
      LastAtIsLast(s, s[k]);
    }
  }

  lemma {:induction false} DuringByRecency(policy: Policy, trace: Trace, S: nat, n: nat, j: nat)
    requires WellFormed(trace) && n < |trace| && j <= |trace[n]| && During(policy, trace, S, n, j).Some?
    requires ByRecency(Run(policy, trace, S, n).value.seats, History(trace, S, n))
    ensures ByRecency(During(policy, trace, S, n, j).value.seats, History(trace, S, n) + trace[n][..j])
  {
    hide Run, Request, ByRecency, Elements, CountIds, History;
    var cut, h := trace[n], History(trace, S, n);
    var start := Counted(Run(policy, trace, S, n).value, cut);
    if j == 0 {
      assert h + cut[..0] == h;
    } else {
      assert cut[..j][..j - 1] == cut[..j - 1] && cut[..j - 1] + [cut[j - 1]] == cut[..j];
      DuringByRecency(policy, trace, S, n, j - 1);
      DuringHolds(policy, trace, S, n, j - 1);
      var st := During(policy, trace, S, n, j - 1).value;
      var i := RequestReseats(policy, st, Elements(cut), cut[j - 1]);
      RecencyStep(st.seats, h + cut[..j - 1], i, cut[j - 1]);
      assert h + cut[..j - 1] + [cut[j - 1]] == h + cut[..j];
    }
  }

  // Between cuts the seats stand in the order they were last asked for, whatever the
  // policy; those never asked for stand first, as they started.
  lemma {:induction false} SeatsByRecency(policy: Policy, trace: Trace, S: nat, n: nat)
    requires WellFormed(trace) && n <= |trace| && Run(policy, trace, S, n).Some?
    ensures ByRecency(Run(policy, trace, S, n).value.seats, History(trace, S, n))
  {
    hide ByRecency, Serve;
    if n == 0 {
      assert IdentitySeq(S) + Concat(trace[..0]) == IdentitySeq(S);
      IdentityByRecency(S);
    } else {
      SeatsByRecency(policy, trace, S, n - 1);
      var cut := trace[n - 1];
      assert cut[..|cut|] == cut;
      DuringByRecency(policy, trace, S, n - 1, |cut|);
      assert trace[..n] == trace[..n - 1] + [cut];
      ConcatAppend(trace[..n - 1], cut);
      assert History(trace, S, n - 1) + cut == History(trace, S, n);
    }
  }

  // ------------------------------------------------------------------ lrfu's weights

  ghost function Pow(b: nat, n: nat): nat {
    if n == 0 then 1 else b * Pow(b, n - 1)
  }

  lemma {:induction false} PowPositive(b: nat, n: nat)
    requires b > 0
    ensures Pow(b, n) > 0
  {
    if n > 0 {
      PowPositive(b, n - 1);
    }
  }

  function Times(a: nat, b: nat): nat {
    a * b
  }

  lemma TimesRegroups(a: nat, b: nat, c: nat)
    ensures Times(a, Times(b, c)) == Times(a * b, c)
  {
    assert a * (b * c) == a * b * c;
  }

  lemma {:induction false} PowAdds(b: nat, m: nat, n: nat)
    ensures Pow(b, m + n) == Times(Pow(b, m), Pow(b, n))
  {
    if m > 0 {
      PowAdds(b, m - 1, n);
      TimesRegroups(b, Pow(b, m - 1), Pow(b, n));
    }
  }

  // Nine tenths for every place from the end, in units of a tenth for every seat.
  ghost function Decay(age: nat, S: nat): nat
    requires age <= S
  {
    Times(Pow(9, age), Pow(10, S - age))
  }

  // A policy's weight of an id used so often, so many places from the end of S seats.
  ghost function Weight(policy: Policy, uses: nat, age: nat, S: nat): nat
    requires age <= S
  {
    match policy
    case Lru => 0
    case Lfu => uses
    case Lrfu => Times(uses, Decay(age, S))
  }

  lemma RealProduct(d: real, p: real, f: real, q: real)
    requires d * p == f * q
    ensures (0.9 * d) * (10.0 * p) == f * (9.0 * q)
  {
    assert (0.9 * d) * (10.0 * p) == 9.0 * (d * p);
    assert f * (9.0 * q) == 9.0 * (f * q);
  }

  lemma {:induction false} DecayedInTenths(f: nat, a: nat)
    ensures Decayed(f, a) * Pow(10, a) as real == f as real * Pow(9, a) as real
  {
    if a > 0 {
      DecayedInTenths(f, a - 1);
      RealProduct(Decayed(f, a - 1), Pow(10, a - 1) as real, f as real, Pow(9, a - 1) as real);
    }
  }

  lemma TimesAsReal(a: nat, b: nat)
    ensures Times(a, b) as real == a as real * b as real
  {
  }

  lemma Regrouped(d: real, p: real, q: real, f: real, g: real)
    requires d * p == f * g
    ensures d * (p * q) == f * (g * q)
  {
    assert d * (p * q) == (d * p) * q;
    assert f * (g * q) == (f * g) * q;
  }

  // d is f times g in so many p-ths; so in so many (p * q)-ths it is f times (g * q).
  lemma InUnits(d: real, p: nat, q: nat, f: nat, g: nat)
    requires d * p as real == f as real * g as real
    ensures d * Times(p, q) as real == Times(f, Times(g, q)) as real
  {
    TimesAsReal(p, q);
    TimesAsReal(g, q);
    TimesAsReal(f, Times(g, q));
    Regrouped(d, p as real, q as real, f as real, g as real);
    hide Times;
  }

  // The real number lrfu compares is the whole number of units its weight is.
  lemma DecayedIsWeight(f: nat, age: nat, S: nat)
    requires age <= S
    ensures Decayed(f, age) * Pow(10, S) as real == Times(f, Decay(age, S)) as real
  {
    hide Pow, Decayed, Times;
    DecayedInTenths(f, age);
    PowAdds(10, age, S - age);
    InUnits(Decayed(f, age), Pow(10, age), Pow(10, S - age), f, Pow(9, age));
  }

  lemma SameOrder(x: real, y: real, unit: real, a: nat, b: nat)
    requires unit > 0.0 && x * unit == a as real && y * unit == b as real
    ensures x <= y <==> a <= b
  {
    var d := y - x;
    assert d * unit == y * unit - x * unit;
    assert d >= 0.0 ==> d * unit >= 0.0;
    assert d < 0.0 ==> d * unit < 0.0;
  }

  // Two seats compare as their weights do.
  lemma KeysAreWeights(policy: Policy, freq: map<int, nat>, s: seq<int>, a: nat, b: nat)
    requires Distinct(s) && a < |s| && b < |s|
    ensures Key(policy, freq, s, s[a]) <= Key(policy, freq, s, s[b]) <==>
            Weight(policy, Freq(freq, s[a]), |s| - a, |s|) <= Weight(policy, Freq(freq, s[b]), |s| - b, |s|)
  {
    hide Decayed, Pow, Decay, Freq, Times;
    assert IndexOf(s, s[a]) == a && IndexOf(s, s[b]) == b;
    if policy == Lrfu {
      LrfuOrder(Freq(freq, s[a]), Freq(freq, s[b]), |s| - a, |s| - b, |s|);
    }
  }

  lemma LrfuOrder(f: nat, g: nat, a: nat, b: nat, S: nat)
    requires a <= S && b <= S
    ensures Decayed(f, a) <= Decayed(g, b) <==> Times(f, Decay(a, S)) <= Times(g, Decay(b, S))
  {
    hide *;
    DecayedIsWeight(f, a, S);
    DecayedIsWeight(g, b, S);
    PowPositive(10, S);
    SameOrder(Decayed(f, a), Decayed(g, b), Pow(10, S) as real, Times(f, Decay(a, S)), Times(g, Decay(b, S)));
  }

  // --------------------------------------------------------------------- the victims

  // The weight of seat k, by what the first n cuts asked for.
  ghost function SeatWeight(policy: Policy, trace: Trace, n: nat, seats: seq<int>, k: nat): nat
    requires n <= |trace| && k < |seats|
  {
    Weight(policy, Uses(trace, n, seats[k]), |seats| - k, |seats|)
  }

  // Of the seats the cut does not want seat i weighs least, and those before it more.
  ghost predicate GivesWay(policy: Policy, trace: Trace, n: nat, seats: seq<int>, want: set<int>, i: nat)
    requires n <= |trace|
  {
    && i < |seats| && seats[i] !in want
    && (forall k :: 0 <= k < |seats| && seats[k] !in want ==>
                      SeatWeight(policy, trace, n, seats, i) <= SeatWeight(policy, trace, n, seats, k))
    && (forall k :: 0 <= k < i && seats[k] !in want ==>
                      SeatWeight(policy, trace, n, seats, i) < SeatWeight(policy, trace, n, seats, k))
  }

  // What serving one more id of a cut does to the seats: a hit's own seat, or the one that
  // gives way, is dropped, and the id takes the last.
  ghost predicate Serves(policy: Policy, trace: Trace, n: nat, want: set<int>, st: State, e: int, now: State, i: nat)
    requires n <= |trace|
  {
    && i < |st.seats| && now.seats == Reseated(st.seats, i, e)
    && (e in st.seats ==> st.seats[i] == e && now.misses == st.misses)
    && (e !in st.seats ==> GivesWay(policy, trace, n, st.seats, want, i) && now.misses == st.misses + 1)
  }

  lemma VictimGivesWay(policy: Policy, trace: Trace, n: nat, st: State, want: set<int>, i: nat)
    requires n <= |trace| && Distinct(st.seats) && forall x :: Freq(st.freq, x) == Uses(trace, n, x)
    requires Candidates(st.seats, want) != [] && i < |st.seats| && st.seats[i] == Victim(policy, st.freq, st.seats, want)
    ensures GivesWay(policy, trace, n, st.seats, want, i)
  {
    hide Freq, Uses, Weight, Key, FirstMin;
    var s := st.seats;
    var p := VictimPlace(s, want, x => Key(policy, st.freq, s, x));
    assert p == i;
    forall k: nat | k < |s| && s[k] !in want
      ensures SeatWeight(policy, trace, n, s, i) <= SeatWeight(policy, trace, n, s, k)
      ensures k < i ==> SeatWeight(policy, trace, n, s, i) < SeatWeight(policy, trace, n, s, k)
    {
      KeysAreWeights(policy, st.freq, s, i, k);
      KeysAreWeights(policy, st.freq, s, k, i);
    }
  }

  // Every request of every run, in terms of the trace alone.
  lemma EveryRequest(policy: Policy, trace: Trace, S: nat, n: nat, j: nat) returns (i: nat)
    requires WellFormed(trace) && n < |trace| && j < |trace[n]| && During(policy, trace, S, n, j + 1).Some?
    ensures During(policy, trace, S, n, j).Some?
    ensures Serves(policy, trace, n + 1, Elements(trace[n]), During(policy, trace, S, n, j).value, trace[n][j],
                   During(policy, trace, S, n, j + 1).value, i)
  {
    hide Run, Request, CountIds, Uses, Freq, GivesWay, Victim, Candidates;
    var cut := trace[n];
    assert cut[..j + 1][..j] == cut[..j];
    DuringHolds(policy, trace, S, n, j);
    var st := During(policy, trace, S, n, j).value;
    i := RequestReseats(policy, st, Elements(cut), cut[j]);
    if cut[j] !in st.seats {
      SomeCandidate(policy, st, Elements(cut), cut[j]);
      VictimGivesWay(policy, trace, n + 1, st, Elements(cut), i);
    }
  }

  lemma SomeCandidate(policy: Policy, st: State, want: set<int>, e: int)
    requires Request(policy, st, want, e).Some? && e !in st.seats
    ensures Candidates(st.seats, want) != []
  {
  }

  // Under lru: the id last asked for longest ago of those the cut does not want.
  lemma LruEvictsOldest(trace: Trace, S: nat, n: nat, j: nat, i: nat)
    requires WellFormed(trace) && n < |trace| && j <= |trace[n]| && During(Lru, trace, S, n, j).Some?
    requires GivesWay(Lru, trace, n + 1, During(Lru, trace, S, n, j).value.seats, Elements(trace[n]), i)
    ensures var seats, h := During(Lru, trace, S, n, j).value.seats, History(trace, S, n) + trace[n][..j];
            forall k :: 0 <= k < |seats| && k != i && seats[k] !in Elements(trace[n]) ==>
                          LastAt(h, seats[i]) < LastAt(h, seats[k])
  {
    RunOfDuring(Lru, trace, S, n, j);
    SeatsByRecency(Lru, trace, S, n);
    DuringByRecency(Lru, trace, S, n, j);
    hide *;
    hide During, History, Elements;
    var seats := During(Lru, trace, S, n, j).value.seats;
    FirstGivesWay(trace, n + 1, seats, Elements(trace[n]), i);
    RecencyBefore(seats, History(trace, S, n) + trace[n][..j], i);
  }

  lemma RunOfDuring(policy: Policy, trace: Trace, S: nat, n: nat, j: nat)
    requires n < |trace| && j <= |trace[n]| && During(policy, trace, S, n, j).Some?
    ensures Run(policy, trace, S, n).Some?
  {
  }

  lemma FirstGivesWay(trace: Trace, n: nat, seats: seq<int>, want: set<int>, i: nat)
    requires n <= |trace| && GivesWay(Lru, trace, n, seats, want, i)
    ensures i < |seats| && forall k :: 0 <= k < i ==> seats[k] in want
  {
  }

  lemma RecencyBefore(seats: seq<int>, history: seq<int>, i: nat)
    requires ByRecency(seats, history) && i < |seats|
    ensures forall k :: i < k < |seats| ==> LastAt(history, seats[i]) < LastAt(history, seats[k])
  {
  }

  // Under lfu: the id asked for by the fewest of the cuts so far, the oldest of those.
  lemma LfuEvictsLeastUsed(trace: Trace, n: nat, seats: seq<int>, want: set<int>, i: nat)
    requires n <= |trace|
    ensures GivesWay(Lfu, trace, n, seats, want, i) <==>
              && i < |seats| && seats[i] !in want
              && (forall k :: 0 <= k < |seats| && seats[k] !in want ==> Uses(trace, n, seats[i]) <= Uses(trace, n, seats[k]))
              && (forall k :: 0 <= k < i && seats[k] !in want ==> Uses(trace, n, seats[i]) < Uses(trace, n, seats[k]))
  {
    hide Uses;
    forall k | 0 <= k < |seats| ensures SeatWeight(Lfu, trace, n, seats, k) == Uses(trace, n, seats[k]) {
    }
  }

  // Under lrfu an older seat that is used no more is lighter ...
  lemma {:induction false} OlderDecays(a: nat, b: nat, S: nat)
    requires a < b <= S
    ensures Decay(b, S) < Decay(a, S)
    decreases b - a
  {
    if a + 1 < b {
      OlderDecays(a + 1, b, S);
    }
    PowPositive(9, a);
    PowPositive(10, S - a - 1);
    var p, q := Pow(9, a), Pow(10, S - a - 1);
    NineTenths(p, q);
    assert Decay(a + 1, S) == Times(9 * p, q) && Decay(a, S) == Times(p, 10 * q);
  }

  lemma NineTenths(p: nat, q: nat)
    requires p > 0 && q > 0
    ensures Times(9 * p, q) < Times(p, 10 * q)
  {
    assert p * (10 * q) - (9 * p) * q == p * q;
  }

  // ... so no id gives way to one as old or older that was asked for no more often; and of
  // two asked for equally often the one last asked for earlier goes first.
  lemma LrfuKeepsTheNewer(trace: Trace, n: nat, seats: seq<int>, want: set<int>, i: nat, k: nat)
    requires n <= |trace| && GivesWay(Lrfu, trace, n, seats, want, i) && k < i && seats[k] !in want
    ensures Uses(trace, n, seats[k]) > Uses(trace, n, seats[i])
  {
    hide Uses, Decay;
    if Uses(trace, n, seats[k]) <= Uses(trace, n, seats[i]) {
      OlderDecays(|seats| - i, |seats| - k, |seats|);
      LighterProduct(Uses(trace, n, seats[k]), Uses(trace, n, seats[i]), Decay(|seats| - k, |seats|), Decay(|seats| - i, |seats|));
      assert false;
    }
  }

  lemma LighterProduct(u: nat, v: nat, d: nat, e: nat)
    requires u <= v && d <= e
    ensures Times(u, d) <= Times(v, e)
  {
    assert u * d <= u * e;
    assert u * e <= v * e;
  }

  // ------------------------------------------------------------ one more use never hurts

  lemma {:induction false} DecayedGrows(f: nat, g: nat, n: nat)
    requires f <= g
    ensures Decayed(f, n) <= Decayed(g, n)
  {
    if n > 0 {
      DecayedGrows(f, g, n - 1);
    }
  }

  lemma CountedMore(policy: Policy, freq: map<int, nat>, s: seq<int>, x: int, y: int)
    ensures var more := freq[x := Freq(freq, x) + 1];
            && (y != x ==> Key(policy, more, s, y) == Key(policy, freq, s, y))
            && Key(policy, freq, s, x) <= Key(policy, more, s, x)
  {
    DecayedGrows(Freq(freq, x), Freq(freq, x) + 1, |s| - IndexOf(s, x));
    hide Decayed;
  }

  // Counted once more, an id that was not to give way still is not.
  lemma OneMoreUse(policy: Policy, freq: map<int, nat>, s: seq<int>, want: set<int>, x: int)
    requires Candidates(s, want) != [] && Victim(policy, freq, s, want) != x
    ensures Victim(policy, freq[x := Freq(freq, x) + 1], s, want) != x
  {
    hide Key, FirstMin, Candidates, Freq;
    var more := freq[x := Freq(freq, x) + 1];
    var i := VictimPlace(s, want, y => Key(policy, freq, s, y));
    var k := VictimPlace(s, want, y => Key(policy, more, s, y));
    CountedMore(policy, freq, s, x, s[i]);
    if s[k] == x {
      assert false;
    }
  }
}

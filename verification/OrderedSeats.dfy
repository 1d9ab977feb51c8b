// `sim` under "lru", "lfu" and "lrfu": seats in an insertion-ordered dict.

module OrderedSeats {
  import opened Sequences
  import opened Wrappers
  import opened Cuts

  datatype Policy = Lru | Lfu | Lrfu

  datatype State = State(seats: seq<int>, freq: map<int, nat>, misses: nat)

  function Freq(freq: map<int, nat>, x: int): nat {
    if x in freq then freq[x] else 0
  }

  // The dict without key x; the order of the others is kept.
  function Without(s: seq<int>, x: int): seq<int> {
    if s == [] then []
    else if s[0] == x then s[1..]
    else [s[0]] + Without(s[1..], x)
  }

  // Seats the cut does not ask for, oldest first.
  function Candidates(s: seq<int>, want: set<int>): seq<int> {
    if s == [] then []
    else if s[0] in want then Candidates(s[1..], want)
    else [s[0]] + Candidates(s[1..], want)
  }

  // freq * 0.9^n
  function Decayed(freq: nat, n: nat): real {
    if n == 0 then freq as real else 0.9 * Decayed(freq, n - 1)
  }

  // What `min` compares. Candidates come in seat order, so the first of the least
  // is also the one lfu's second key, the seat's index, picks.
  function Key(policy: Policy, freq: map<int, nat>, s: seq<int>, x: int): real {
    match policy
    case Lru => 0.0
    case Lfu => Freq(freq, x) as real
    case Lrfu => Decayed(Freq(freq, x), |s| - IndexOf(s, x))
  }

  // Python's `min`: the first candidate no other undercuts.
  function FirstMin(cand: seq<int>, key: int -> real): (v: int)
    requires cand != []
    ensures v in cand
  {
    if |cand| == 1 then cand[0]
    else
      var later := FirstMin(cand[1..], key);
      if key(cand[0]) <= key(later) then cand[0] else later
  }

  lemma {:induction false} FirstMinIsFirstLeast(cand: seq<int>, key: int -> real) returns (i: nat)
    requires cand != []
    ensures i < |cand| && cand[i] == FirstMin(cand, key)
    ensures forall j :: 0 <= j < |cand| ==> key(cand[i]) <= key(cand[j])
    ensures forall j :: 0 <= j < i ==> key(cand[i]) < key(cand[j])
  {
    i := 0;
    if |cand| > 1 {
      var rest := cand[1..];
      var k := FirstMinIsFirstLeast(rest, key);
      assert forall j :: 1 <= j < |cand| ==> cand[j] == rest[j - 1];
      if key(cand[0]) > key(rest[k]) {
        i := k + 1;
      }
    }
  }

  function Victim(policy: Policy, freq: map<int, nat>, s: seq<int>, want: set<int>): int
    requires Candidates(s, want) != []
  {
    FirstMin(Candidates(s, want), x => Key(policy, freq, s, x))
  }

  // One id of a cut. None is the error of picking from no candidates.
  function Request(policy: Policy, st: State, want: set<int>, e: int): Option<State> {
    if e in st.seats then Some(st.(seats := Without(st.seats, e) + [e]))
    else if Candidates(st.seats, want) == [] then None
    else
      var victim := Victim(policy, st.freq, st.seats, want);
      Some(st.(seats := Without(st.seats, victim) + [e], misses := st.misses + 1))
  }

  function Serve(policy: Policy, st: State, want: set<int>, ids: seq<int>): Option<State> {
    if ids == [] then Some(st)
    else
      var before := Serve(policy, st, want, ids[..|ids| - 1]);
      if before.None? then None else Request(policy, before.value, want, ids[|ids| - 1])
  }

  function CountIds(freq: map<int, nat>, ids: seq<int>): map<int, nat> {
    if ids == [] then freq
    else
      var e := ids[|ids| - 1];
      var before := CountIds(freq, ids[..|ids| - 1]);
      before[e := Freq(before, e) + 1]
  }

  function Counted(st: State, cut: Cut): State {
    st.(freq := CountIds(st.freq, cut))
  }

  function Initial(S: nat): State {
    State(IdentitySeq(S), map[], 0)
  }

  // The state after the first n cuts.
  function Run(policy: Policy, trace: Trace, S: nat, n: nat): Option<State>
    requires n <= |trace|
  {
    if n == 0 then Some(Initial(S))
    else
      var before := Run(policy, trace, S, n - 1);
      if before.None? then None
      else
        var cut := trace[n - 1];
        Serve(policy, Counted(before.value, cut), Elements(cut), cut)
  }

  // ------------------------------------------------------------------ the loop

  // The two loops over one cut's ids.
  method ServeCut(policy: Policy, seats0: seq<int>, freq0: map<int, nat>, misses0: nat, cut: Cut)
    returns (r: Option<State>)
    ensures r == Serve(policy, Counted(State(seats0, freq0, misses0), cut), Elements(cut), cut)
  {
    hide Victim, Candidates, Without;
    var want := Elements(cut);
    var freq := freq0;
    for j := 0 to |cut|
      invariant freq == CountIds(freq0, cut[..j])
    {
      assert cut[..j + 1][..j] == cut[..j];
      freq := freq[cut[j] := Freq(freq, cut[j]) + 1];
    }
    assert cut[..|cut|] == cut;
    var seats, misses := seats0, misses0;
    ghost var start := State(seats, freq, misses);
    for j := 0 to |cut|
      invariant Serve(policy, start, want, cut[..j]) == Some(State(seats, freq, misses))
    {
      ServeStep(policy, start, want, cut, j);
      var e := cut[j];
      if e in seats {
        seats := Without(seats, e) + [e];
      } else {
        var cand := Candidates(seats, want);
        if cand == [] {
          FailureSticks(policy, start, want, cut, j + 1);
          return None;
        }
        misses := misses + 1;
        var victim := Victim(policy, freq, seats, want);
        seats := Without(seats, victim) + [e];
      }
    }
    r := Some(State(seats, freq, misses));
  }

  method Simulate(trace: Trace, S: nat, policy: Policy) returns (r: Option<nat>)
    ensures r == match Run(policy, trace, S, |trace|) case None => None case Some(st) => Some(st.misses)
  {
    var st := Initial(S);
    for t := 0 to |trace|
      invariant Run(policy, trace, S, t) == Some(st)
    {
      var served := ServeCut(policy, st.seats, st.freq, st.misses, trace[t]);
      if served.None? {
        FailureEndsRun(policy, trace, S, t + 1);
        return None;
      }
      st := served.value;
    }
    r := Some(st.misses);
  }

  lemma ServeStep(policy: Policy, st: State, want: set<int>, ids: seq<int>, j: nat)
    requires j < |ids|
    ensures var before := Serve(policy, st, want, ids[..j]);
            Serve(policy, st, want, ids[..j + 1])
            == if before.None? then None else Request(policy, before.value, want, ids[j])
  {
    assert ids[..j + 1][..j] == ids[..j];
  }

  lemma {:induction false} FailureSticks(policy: Policy, st: State, want: set<int>, ids: seq<int>, j: nat)
    requires j <= |ids| && Serve(policy, st, want, ids[..j]).None?
    ensures Serve(policy, st, want, ids).None?
    decreases |ids| - j
  {
    if j == |ids| {
      assert ids[..j] == ids;
    } else {
      assert ids[..j + 1][..j] == ids[..j];
      FailureSticks(policy, st, want, ids, j + 1);
    }
  }

  lemma {:induction false} FailureEndsRun(policy: Policy, trace: Trace, S: nat, n: nat)
    requires n <= |trace| && Run(policy, trace, S, n).None?
    ensures Run(policy, trace, S, |trace|).None?
    decreases |trace| - n
  {
    if n < |trace| {
      FailureEndsRun(policy, trace, S, n + 1);
    }
  }

  // ------------------------------------------------------- facts about the seats

  lemma {:induction false} WithoutIds(s: seq<int>, x: int)
    requires Distinct(s)
    ensures Elements(Without(s, x)) == Elements(s) - {x} && Distinct(Without(s, x))
    ensures |Without(s, x)| == if x in s then |s| - 1 else |s|
  {
    if s != [] {
      WithoutIds(s[1..], x);
      assert Elements(s) == {s[0]} + Elements(s[1..]);
      if s[0] == x {
        assert x !in s[1..];
      } else {
        var w := Without(s[1..], x);
        assert Elements([s[0]] + w) == {s[0]} + Elements(w);
        assert s[0] !in s[1..];
        assert s[0] !in Elements(w);
        assert x in s <==> x in s[1..];
      }
    }
  }

  lemma {:induction false} CandidateIds(s: seq<int>, want: set<int>)
    ensures Elements(Candidates(s, want)) == Elements(s) - want
  {
    if s != [] {
      CandidateIds(s[1..], want);
      assert Elements(s) == {s[0]} + Elements(s[1..]);
      assert s[0] !in want ==> Elements(Candidates(s, want)) == {s[0]} + Elements(Candidates(s[1..], want));
    }
  }

  // Part way through a cut: `done` is seated and nothing but wanted ids came in.
  ghost predicate Serving(before: State, want: set<int>, done: set<int>, st: State) {
    && Distinct(st.seats) && |st.seats| == |before.seats|
    && done <= Elements(st.seats) <= Elements(before.seats) + done
    && Elements(before.seats) * want <= Elements(st.seats)
    && st.misses == before.misses + |Elements(st.seats) - Elements(before.seats)|
    && st.freq == before.freq
  }

  // Giving x's place up and seating e at the end.
  lemma Reseat(s: seq<int>, x: int, e: int)
    requires Distinct(s) && x in s && (e == x || e !in s)
    ensures var r := Without(s, x) + [e];
            Distinct(r) && |r| == |s| && Elements(r) == Elements(s) - {x} + {e}
  {
    WithoutIds(s, x);
    var w := Without(s, x);
    assert e !in Elements(w);
    assert Elements(w + [e]) == Elements(w) + {e};
  }

  lemma ServingMiss(before: State, want: set<int>, done: set<int>, st: State, e: int, victim: int)
    requires Serving(before, want, done, st) && done <= want && e in want - done
    requires e !in st.seats && victim in Elements(st.seats) - want
    ensures Serving(before, want, done + {e}, st.(seats := Without(st.seats, victim) + [e], misses := st.misses + 1))
  {
    Reseat(st.seats, victim, e);
    var now, was := Elements(st.seats), Elements(before.seats);
    assert victim in was && e !in was;
    assert now - {victim} + {e} - was == (now - was) + {e};
  }

  lemma ServingRequest(policy: Policy, before: State, want: set<int>, done: set<int>, st: State, e: int)
    requires Serving(before, want, done, st) && done <= want && e in want - done
    ensures Request(policy, st, want, e).None? ==> |want| > |before.seats|
    ensures Request(policy, st, want, e).Some? ==> Serving(before, want, done + {e}, Request(policy, st, want, e).value)
  {
    CandidateIds(st.seats, want);
    if e in st.seats {
      Reseat(st.seats, e, e);
      assert Elements(st.seats) - {e} + {e} == Elements(st.seats);
    } else if Candidates(st.seats, want) == [] {
      DistinctCardinality(st.seats);
      assert Elements(st.seats) - want == {};
      SubsetCardinality(Elements(st.seats) + {e}, want);
    } else {
      var victim := Victim(policy, st.freq, st.seats, want);
      assert victim in Elements(Candidates(st.seats, want));
      ServingMiss(before, want, done, st, e, victim);
    }
  }

  lemma {:induction false} ServingCut(policy: Policy, before: State, cut: Cut, n: nat)
    requires Distinct(cut) && Distinct(before.seats) && n <= |cut|
    ensures var r := Serve(policy, before, Elements(cut), cut[..n]);
            && (r.None? ==> |cut| > |before.seats|)
            && (r.Some? ==> Serving(before, Elements(cut), Elements(cut[..n]), r.value))
  {
    DistinctCardinality(cut);
    if n == 0 {
      assert Elements(before.seats) - Elements(before.seats) == {};
    } else {
      ServingCut(policy, before, cut, n - 1);
      assert cut[..n][..n - 1] == cut[..n - 1] && cut[..n] == cut[..n - 1] + [cut[n - 1]];
      assert Elements(cut[..n]) == Elements(cut[..n - 1]) + {cut[n - 1]};
      var r := Serve(policy, before, Elements(cut), cut[..n - 1]);
      if r.Some? {
        assert cut[n - 1] !in cut[..n - 1];
        ServingRequest(policy, before, Elements(cut), Elements(cut[..n - 1]), r.value, cut[n - 1]);
      }
    }
  }

  // What was held before each of the first n cuts, and after the last.
  ghost function Held(policy: Policy, trace: Trace, S: nat, n: nat): seq<set<int>>
    requires n <= |trace| && Run(policy, trace, S, n).Some?
  {
    (if n == 0 then [] else Held(policy, trace, S, n - 1)) + [Elements(Run(policy, trace, S, n).value.seats)]
  }

  lemma CutIsServed(policy: Policy, before: State, cut: Cut)
    requires Distinct(cut) && Distinct(before.seats)
    ensures var r := Serve(policy, before, Elements(cut), cut);
            && (r.None? <==> |cut| > |before.seats|)
            && (r.Some? ==> && Distinct(r.value.seats) && |r.value.seats| == |before.seats| == |Elements(r.value.seats)|
                            && Elements(cut) <= Elements(r.value.seats)
                            && r.value.misses == before.misses + |Elements(r.value.seats) - Elements(before.seats)|)
  {
    ServingCut(policy, before, cut, |cut|);
    assert cut[..|cut|] == cut;
    DistinctCardinality(cut);
    var r := Serve(policy, before, Elements(cut), cut);
    if r.Some? {
      DistinctCardinality(r.value.seats);
      SubsetCardinality(Elements(cut), Elements(r.value.seats));
    }
  }

  lemma RunStep(policy: Policy, trace: Trace, S: nat, n: nat)
    requires WellFormed(trace) && n < |trace| && Run(policy, trace, S, n).Some?
    requires Distinct(Run(policy, trace, S, n).value.seats) && |Run(policy, trace, S, n).value.seats| == S
    ensures var before := Run(policy, trace, S, n).value;
            var r := Run(policy, trace, S, n + 1);
            && (r.Some? <==> |trace[n]| <= S)
            && (r.Some? ==> && Distinct(r.value.seats) && |r.value.seats| == S == |Elements(r.value.seats)|
                            && Elements(trace[n]) <= Elements(r.value.seats)
                            && r.value.misses == before.misses + |Elements(r.value.seats) - Elements(before.seats)|)
  {
    CutIsServed(policy, Counted(Run(policy, trace, S, n).value, trace[n]), trace[n]);
  }

  lemma RunStops(policy: Policy, trace: Trace, S: nat, n: nat)
    requires n < |trace| && Run(policy, trace, S, n).None?
    ensures Run(policy, trace, S, n + 1).None?
  {
  }

  lemma HeldStep(policy: Policy, trace: Trace, S: nat, n: nat)
    requires n < |trace| && Run(policy, trace, S, n).Some? && Run(policy, trace, S, n + 1).Some?
    ensures Held(policy, trace, S, n + 1)
            == Held(policy, trace, S, n) + [Elements(Run(policy, trace, S, n + 1).value.seats)]
  {
  }

  // What a run that has served n cuts has done: it is one particular schedule,
  // and its misses are that schedule's loads.
  ghost predicate AsSchedule(trace: Trace, S: nat, n: nat, st: State, held: seq<set<int>>)
    requires n <= |trace|
  {
    && Distinct(st.seats) && |st.seats| == S
    && ServesFirst(trace, S, held, n) && held[n] == Elements(st.seats)
    && st.misses == Loads(held, n)
  }

  lemma AsScheduleStep(trace: Trace, S: nat, n: nat, st: State, held: seq<set<int>>, st': State)
    requires n < |trace| && AsSchedule(trace, S, n, st, held)
    requires Distinct(st'.seats) && |st'.seats| == S && Elements(trace[n]) <= Elements(st'.seats)
    requires st'.misses == st.misses + |Elements(st'.seats) - Elements(st.seats)|
    ensures AsSchedule(trace, S, n + 1, st', held + [Elements(st'.seats)])
  {
    DistinctCardinality(st'.seats);
    ExtendSchedule(trace, S, held, n, Elements(st'.seats));
  }

  lemma RunContinues(policy: Policy, trace: Trace, S: nat, n: nat)
    requires WellFormed(trace) && n < |trace| && Run(policy, trace, S, n).Some?
    requires AsSchedule(trace, S, n, Run(policy, trace, S, n).value, Held(policy, trace, S, n))
    ensures Run(policy, trace, S, n + 1).Some? <==> |trace[n]| <= S
    ensures Run(policy, trace, S, n + 1).Some? ==>
              AsSchedule(trace, S, n + 1, Run(policy, trace, S, n + 1).value, Held(policy, trace, S, n + 1))
  {
    RunStep(policy, trace, S, n);
    if Run(policy, trace, S, n + 1).Some? {
      AsScheduleStep(trace, S, n, Run(policy, trace, S, n).value, Held(policy, trace, S, n),
                     Run(policy, trace, S, n + 1).value);
      HeldStep(policy, trace, S, n);
    }
  }

  // The simulators run to the end exactly when no cut outnumbers the seats.
  lemma {:induction false} RunIsSchedule(policy: Policy, trace: Trace, S: nat, n: nat)
    requires WellFormed(trace) && n <= |trace|
    ensures Run(policy, trace, S, n).Some? <==> Fits(trace, n, S)
    ensures Run(policy, trace, S, n).Some? ==>
              AsSchedule(trace, S, n, Run(policy, trace, S, n).value, Held(policy, trace, S, n))
  {
    hide Serve, Request;
    if n > 0 {
      RunIsSchedule(policy, trace, S, n - 1);
      if Run(policy, trace, S, n - 1).None? {
        RunStops(policy, trace, S, n - 1);
      } else {
        RunContinues(policy, trace, S, n - 1);
      }
      FitsExtends(trace, n - 1, S);
    }
  }

  lemma HeldIsSchedule(policy: Policy, trace: Trace, S: nat)
    requires WellFormed(trace) && Fits(trace, |trace|, S)
    ensures Run(policy, trace, S, |trace|).Some?
    ensures IsSchedule(trace, S, Held(policy, trace, S, |trace|))
    ensures Run(policy, trace, S, |trace|).value.misses == Loads(Held(policy, trace, S, |trace|), |trace|)
  {
    RunIsSchedule(policy, trace, S, |trace|);
  }

  // -------------------------------------------------------------- LRU inclusion

  // The smaller run's dict is the larger run's with one id x taken out.
  ghost predicate OneFewer(small: seq<int>, large: seq<int>, x: int) {
    Distinct(large) && x in large && small == Without(large, x)
  }

  lemma {:induction false} WithoutCommutes(s: seq<int>, a: int, b: int)
    ensures Without(Without(s, a), b) == Without(Without(s, b), a)
  {
    if s != [] && a != b {
      WithoutCommutes(s[1..], a, b);
    }
  }

  lemma {:induction false} WithoutAppend(s: seq<int>, x: int, e: int)
    ensures x in s ==> Without(s + [e], x) == Without(s, x) + [e]
    ensures x !in s ==> Without(s + [x], x) == s && Without(s, x) == s
  {
    if s != [] {
      WithoutAppend(s[1..], x, e);
      assert (s + [e])[1..] == s[1..] + [e];
      assert (s + [x])[1..] == s[1..] + [x];
    }
  }

  // Taking x out leaves the oldest candidate what it was, unless it was x.
  lemma {:induction false} OldestWithout(s: seq<int>, want: set<int>, x: int)
    ensures Candidates(Without(s, x), want) == Without(Candidates(s, want), x) || x in want
    ensures x in want ==> Candidates(Without(s, x), want) == Candidates(s, want)
  {
    if s != [] {
      OldestWithout(s[1..], want, x);
    }
  }

  lemma LruVictimIsOldest(freq: map<int, nat>, s: seq<int>, want: set<int>)
    requires Candidates(s, want) != []
    ensures Victim(Lru, freq, s, want) == Candidates(s, want)[0]
  {
    FirstMinOfEqualKeys(Candidates(s, want), x => Key(Lru, freq, s, x));
  }

  lemma {:induction false} FirstMinOfEqualKeys(cand: seq<int>, key: int -> real)
    requires cand != [] && forall x :: key(x) == 0.0
    ensures FirstMin(cand, key) == cand[0]
  {
  }

  // One request keeps the larger run one id ahead, and misses there only if it
  // misses in the smaller run too.
  lemma InclusionRequest(small: State, large: State, want: set<int>, e: int, x: int) returns (x': int)
    requires OneFewer(small.seats, large.seats, x) && e in want
    requires Request(Lru, small, want, e).Some? && Request(Lru, large, want, e).Some?
    ensures var s := Request(Lru, small, want, e).value;
            var l := Request(Lru, large, want, e).value;
            && OneFewer(s.seats, l.seats, x')
            && l.misses - large.misses <= s.misses - small.misses
  {
    WithoutIds(large.seats, x);
    WithoutIds(large.seats, e);
    assert e in small.seats <==> e in Elements(small.seats);
    if e in large.seats {
      if e == x {
        LruVictimIsOldest(small.freq, small.seats, want);
        CandidateIds(small.seats, want);
        x' := Candidates(small.seats, want)[0];
        assert x' in Elements(Candidates(small.seats, want));
        assert x' in small.seats;
        WithoutAppend(small.seats, x', e);
        WithoutAppend(small.seats, e, e);
      } else {
        x' := x;
        WithoutCommutes(large.seats, x, e);
        assert x in Elements(Without(large.seats, e));
        WithoutAppend(Without(large.seats, e), x, e);
      }
    } else {
      LruVictimIsOldest(small.freq, small.seats, want);
      LruVictimIsOldest(large.freq, large.seats, want);
      OldestWithout(large.seats, want, x);
      CandidateIds(large.seats, want);
      CandidateIds(small.seats, want);
      var v := Candidates(large.seats, want)[0];
      var w := Candidates(small.seats, want)[0];
      assert v in Elements(Candidates(large.seats, want)) && w in Elements(Candidates(small.seats, want));
      WithoutIds(large.seats, v);
      if v == x {
        x' := w;
        WithoutAppend(small.seats, w, e);
      } else {
        x' := x;
        assert w == v;
        WithoutCommutes(large.seats, x, v);
        assert x in Elements(Without(large.seats, v));
        WithoutAppend(Without(large.seats, v), x, e);
      }
    }
    var victim := if e in large.seats then e else Candidates(large.seats, want)[0];
    Reseat(large.seats, victim, e);
  }

  lemma {:induction false} InclusionCut(small: State, large: State, cut: Cut, n: nat, x: int) returns (x': int)
    requires n <= |cut| && OneFewer(small.seats, large.seats, x)
    requires Serve(Lru, small, Elements(cut), cut[..n]).Some? && Serve(Lru, large, Elements(cut), cut[..n]).Some?
    ensures var s := Serve(Lru, small, Elements(cut), cut[..n]).value;
            var l := Serve(Lru, large, Elements(cut), cut[..n]).value;
            && OneFewer(s.seats, l.seats, x')
            && l.misses - large.misses <= s.misses - small.misses
  {
    x' := x;
    if n > 0 {
      assert cut[..n][..n - 1] == cut[..n - 1];
      x' := InclusionCut(small, large, cut, n - 1, x);
      x' := InclusionRequest(Serve(Lru, small, Elements(cut), cut[..n - 1]).value,
                             Serve(Lru, large, Elements(cut), cut[..n - 1]).value, Elements(cut), cut[n - 1], x');
    }
  }

  lemma RunsToEnd(trace: Trace, S: nat, n: nat)
    requires WellFormed(trace) && n <= |trace| && Fits(trace, n, S)
    ensures Run(Lru, trace, S, n).Some? && Run(Lru, trace, S + 1, n).Some?
  {
    RunIsSchedule(Lru, trace, S, n);
    RunIsSchedule(Lru, trace, S + 1, n);
  }

  lemma InclusionStart(S: nat)
    ensures OneFewer(IdentitySeq(S), IdentitySeq(S + 1), S)
  {
    assert IdentitySeq(S + 1) == IdentitySeq(S) + [S];
    assert S !in IdentitySeq(S);
    WithoutAppend(IdentitySeq(S), S, S);
  }

  lemma {:induction false} InclusionRun(trace: Trace, S: nat, n: nat) returns (x: int)
    requires WellFormed(trace) && n <= |trace| && Fits(trace, n, S)
    ensures Run(Lru, trace, S, n).Some? && Run(Lru, trace, S + 1, n).Some?
    ensures OneFewer(Run(Lru, trace, S, n).value.seats, Run(Lru, trace, S + 1, n).value.seats, x)
    ensures Run(Lru, trace, S + 1, n).value.misses <= Run(Lru, trace, S, n).value.misses
  {
    if n == 0 {
      InclusionStart(S);
      x := S;
    } else {
      RunsToEnd(trace, S, n);
      x := InclusionRun(trace, S, n - 1);
      var cut := trace[n - 1];
      var small := Counted(Run(Lru, trace, S, n - 1).value, cut);
      var large := Counted(Run(Lru, trace, S + 1, n - 1).value, cut);
      assert cut[..|cut|] == cut;
      x := InclusionCut(small, large, cut, |cut|, x);
    }
  }

  // Inclusion: whatever S seats hold after any number of cuts, more seats hold
  // too, so extra seats never cost a miss.
  lemma LruInclusion(trace: Trace, S: nat, S': nat, n: nat)
    requires WellFormed(trace) && n <= |trace| && Fits(trace, n, S) && S <= S'
    ensures Run(Lru, trace, S, n).Some? && Run(Lru, trace, S', n).Some?
    ensures Elements(Run(Lru, trace, S, n).value.seats) <= Elements(Run(Lru, trace, S', n).value.seats)
    ensures Run(Lru, trace, S', n).value.misses <= Run(Lru, trace, S, n).value.misses
    decreases S' - S
  {
    if S == S' {
      RunIsSchedule(Lru, trace, S, n);
    } else {
      var x := InclusionRun(trace, S, n);
      WithoutIds(Run(Lru, trace, S + 1, n).value.seats, x);
      LruInclusion(trace, S + 1, S', n);
    }
  }
}

// `sim` under the "belady" policy, and why nothing beats it.

module Belady {
  import opened Sequences
  import opened Wrappers
  import opened Cuts

  // What the simulator answers for an id that is never asked for again.
  const NEVER: nat := 1_000_000_000

  // The first cut at or after `t` that asks for `x`.
  function NextUse(trace: Trace, t: nat, x: int): (u: nat)
    requires t <= |trace|
    ensures u == NEVER || (t <= u < |trace| && x in trace[u])
    decreases |trace| - t
  {
    if t == |trace| then NEVER
    else if x in trace[t] then t
    else NextUse(trace, t + 1, x)
  }

  // The members of `seats` asked for again by cut `tau`.
  ghost function Soon(trace: Trace, t: nat, seats: set<int>, tau: int): set<int>
    requires t <= |trace|
  {
    set x | x in seats && NextUse(trace, t, x) <= tau
  }

  // Serving cut t by evicting, of the ids the cut does not ask for, those needed latest.
  ghost predicate FarthestFirst(trace: Trace, t: nat, before: set<int>, after: set<int>)
    requires t < |trace|
  {
    && Elements(trace[t]) <= after <= before + Elements(trace[t])
    && |after| == |before|
    && forall x, y :: x in before - after && y in after - Elements(trace[t]) ==>
                        NextUse(trace, t + 1, y) <= NextUse(trace, t + 1, x)
  }

  // Each of the first n cuts was served so.
  ghost predicate FarthestAt(trace: Trace, seats: seq<set<int>>, t: nat)
    requires t < |trace| && t + 1 < |seats|
  {
    FarthestFirst(trace, t, seats[t], seats[t + 1])
  }

  ghost predicate FarthestThroughout(trace: Trace, S: nat, seats: seq<set<int>>, n: nat)
    requires n <= |trace|
  {
    && ServesFirst(trace, S, seats, n)
    && forall t :: 0 <= t < n ==> FarthestAt(trace, seats, t)
  }

  // ---------------------------------------------------------------- optimality

  // Of the seats that survive the cut, either all are needed by tau or none was
  // lost that is.
  lemma KeepsTheNearest(trace: Trace, t: nat, before: set<int>, after: set<int>, tau: int)
    requires t < |trace| && FarthestFirst(trace, t, before, after)
    ensures var cut := Elements(trace[t]);
            || Soon(trace, t + 1, after - cut, tau) == after - cut
            || Soon(trace, t + 1, after - cut, tau) == Soon(trace, t + 1, before - cut, tau)
  {
    var cut := Elements(trace[t]);
    if y :| y in after - cut && NextUse(trace, t + 1, y) > tau {
      forall x | x in before - cut && NextUse(trace, t + 1, x) <= tau
        ensures x in after
      {
        assert x in after || x in before - after;
      }
    }
  }

  // Counting what is needed by tau splits into the cut itself and the rest.
  lemma SoonSplits(trace: Trace, t: nat, seats: set<int>, tau: int)
    requires t < |trace| <= NEVER && t <= tau
    ensures var cut := Elements(trace[t]);
            |Soon(trace, t, seats, tau)| == |seats * cut| + |Soon(trace, t + 1, seats - cut, tau)|
  {
    var cut := Elements(trace[t]);
    assert Soon(trace, t, seats, tau) == (seats * cut) + Soon(trace, t + 1, seats - cut, tau);
  }

  lemma MissingFromCut(cut: set<int>, seats: set<int>)
    ensures |cut - seats| == |cut| - |seats * cut|
  {
    assert cut == (cut - seats) + (seats * cut);
  }

  // One cut served by both: the lead of the farthest-first seats never shrinks
  // below what the other schedule's better-placed seats could still win back.
  lemma PotentialStep(trace: Trace, t: nat, S: nat, before: set<int>, after: set<int>,
                      other: set<int>, other': set<int>, tau: int)
    requires t < |trace| <= NEVER
    requires FarthestFirst(trace, t, before, after) && |before| == S
    requires Elements(trace[t]) <= other' && |other'| <= S
    ensures var cut := Elements(trace[t]);
            var gained := |other' - other| - |after - before|;
            && gained >= |Soon(trace, t, before, t)| - |Soon(trace, t, other, t)|
            && (|| gained >= |Soon(trace, t, before, t)| - |Soon(trace, t, other, t)|
                             + |Soon(trace, t + 1, other', tau)| - |Soon(trace, t + 1, after, tau)|
                || (t <= tau && gained >= |Soon(trace, t, before, tau)| - |Soon(trace, t, other, tau)|
                             + |Soon(trace, t + 1, other', tau)| - |Soon(trace, t + 1, after, tau)|))
  {
    var cut := Elements(trace[t]);
    assert after - before == cut - before;
    MissingFromCut(cut, before);
    MissingFromCut(cut, other);
    assert Soon(trace, t, before, t) == before * cut;
    assert Soon(trace, t, other, t) == other * cut;
    assert other' - other == (cut - other) + ((other' - cut) - other);
    var newA := Soon(trace, t + 1, after, tau);
    var newO := Soon(trace, t + 1, other', tau);
    var keptA := Soon(trace, t + 1, after - cut, tau);
    var keptO := Soon(trace, t + 1, other' - cut, tau);
    assert newA == Soon(trace, t + 1, cut, tau) + keptA;
    assert newO == Soon(trace, t + 1, cut, tau) + keptO;
    assert |newO| - |newA| == |keptO| - |keptA|;
    KeepsTheNearest(trace, t, before, after, tau);
    if keptA == after - cut {
      assert after == cut + (after - cut);
      assert other' == cut + (other' - cut);
      SubsetCardinality(keptO, other' - cut);
    } else if t <= tau {
      SoonSplits(trace, t, before, tau);
      SoonSplits(trace, t, other, tau);
      SubsetCardinality(keptO, Soon(trace, t + 1, other - cut, tau) + ((other' - cut) - other));
    } else {
      assert keptO == {};
    }
  }

  lemma {:induction false} LeadNeverLost(trace: Trace, S: nat, seats: seq<set<int>>, other: seq<set<int>>, n: nat)
    requires n <= |trace| <= NEVER
    requires FarthestThroughout(trace, S, seats, |trace|) && IsSchedule(trace, S, other)
    ensures |seats[n]| == S
    ensures Loads(seats, n) <= Loads(other, n)
    ensures forall tau: int :: Loads(seats, n) + |Soon(trace, n, other[n], tau)|
                               <= Loads(other, n) + |Soon(trace, n, seats[n], tau)|
  {
    IdentityCardinality(S);
    if n > 0 {
      var t := n - 1;
      LeadNeverLost(trace, S, seats, other, t);
      assert FarthestAt(trace, seats, t) && Seated(trace, S, other, t);
      PotentialStep(trace, t, S, seats[t], seats[n], other[t], other[n], t);
      assert Loads(seats, t) + |Soon(trace, t, other[t], t)|
             <= Loads(other, t) + |Soon(trace, t, seats[t], t)|;
      forall tau: int
        ensures Loads(seats, n) + |Soon(trace, n, other[n], tau)|
                <= Loads(other, n) + |Soon(trace, n, seats[n], tau)|
      {
        PotentialStep(trace, t, S, seats[t], seats[n], other[t], other[n], tau);
        assert Loads(seats, t) + |Soon(trace, t, other[t], tau)|
               <= Loads(other, t) + |Soon(trace, t, seats[t], tau)|;
      }
    }
  }

  // Farthest-first eviction loads no more than any schedule whatever.
  lemma FarthestFirstIsOptimal(trace: Trace, S: nat, seats: seq<set<int>>, other: seq<set<int>>)
    requires |trace| <= NEVER
    requires FarthestThroughout(trace, S, seats, |trace|) && IsSchedule(trace, S, other)
    ensures Loads(seats, |trace|) <= Loads(other, |trace|)
  {
    LeadNeverLost(trace, S, seats, other, |trace|);
  }

  // ------------------------------------------------- the simulator's own tables

  // The cuts before n that ask for x.
  function Uses(trace: Trace, n: nat, x: int): seq<nat>
    requires n <= |trace|
  {
    if n == 0 then []
    else if x in trace[n - 1] then Uses(trace, n - 1, x) + [n - 1]
    else Uses(trace, n - 1, x)
  }

  function Lookup<V>(m: map<int, V>, x: int, default: V): V {
    if x in m then m[x] else default
  }

  // `nextuse`: the entry of x's use list its pointer has reached.
  function TableNextUse(nxt: map<int, seq<nat>>, ptr: map<int, nat>, x: int): nat {
    var l := Lookup(nxt, x, []);
    var i := Lookup(ptr, x, 0);
    if i < |l| then l[i] else NEVER
  }

  lemma {:induction false} UseListPrefix(trace: Trace, t: nat, n: nat, x: int)
    requires t <= n <= |trace|
    ensures Uses(trace, t, x) <= Uses(trace, n, x)
    decreases n - t
  {
    if t < n {
      UseListPrefix(trace, t, n - 1, x);
    }
  }

  // A pointer that has counted the uses before t stands at the next use.
  lemma {:induction false} PointerFindsNextUse(trace: Trace, t: nat, x: int)
    requires t <= |trace|
    ensures var l := Uses(trace, |trace|, x);
            var i := |Uses(trace, t, x)|;
            && i <= |l|
            && NextUse(trace, t, x) == if i < |l| then l[i] else NEVER
    decreases |trace| - t
  {
    if t < |trace| {
      PointerFindsNextUse(trace, t + 1, x);
      UseListPrefix(trace, t + 1, |trace|, x);
      if x in trace[t] {
        assert Uses(trace, t + 1, x)[|Uses(trace, t, x)|] == t;
      }
    }
  }

  ghost predicate HoldsUses(nxt: map<int, seq<nat>>, trace: Trace, n: nat)
    requires n <= |trace|
  {
    forall x :: Lookup(nxt, x, []) == Uses(trace, n, x)
  }

  // `nxt`, filled in cut by cut.
  method UseTable(trace: Trace) returns (nxt: map<int, seq<nat>>)
    requires WellFormed(trace)
    ensures HoldsUses(nxt, trace, |trace|)
  {
    nxt := map[];
    for t := 0 to |trace|
      invariant HoldsUses(nxt, trace, t)
    {
      var cut := trace[t];
      for j := 0 to |cut|
        invariant forall x :: Lookup(nxt, x, []) == Uses(trace, t, x) + if x in cut[..j] then [t] else []
      {
        var e := cut[j];
        assert e !in cut[..j] && cut[..j + 1] == cut[..j] + [e];
        nxt := nxt[e := Lookup(nxt, e, []) + [t]];
      }
      assert cut[..|cut|] == cut;
    }
  }

  // `ptr` moved past the current cut, for every id the cut asks for.
  method AdvancePointers(ptr0: map<int, nat>, ghost trace: Trace, t: nat, cut: Cut) returns (ptr: map<int, nat>)
    requires t < |trace| && trace[t] == cut && Distinct(cut)
    requires CountsUses(ptr0, trace, t)
    ensures CountsUses(ptr, trace, t + 1)
  {
    ptr := ptr0;
    for j := 0 to |cut|
      invariant forall x :: Lookup(ptr, x, 0) == |Uses(trace, t, x)| + if x in cut[..j] then 1 else 0
    {
      var e := cut[j];
      assert e !in cut[..j] && cut[..j + 1] == cut[..j] + [e];
      ptr := ptr[e := Lookup(ptr, e, 0) + 1];
    }
    assert cut[..|cut|] == cut;
  }

  ghost predicate CountsUses(ptr: map<int, nat>, trace: Trace, n: nat)
    requires n <= |trace|
  {
    forall x :: Lookup(ptr, x, 0) == |Uses(trace, n, x)|
  }

  lemma TableAnswersNextUse(trace: Trace, t: nat, nxt: map<int, seq<nat>>, ptr: map<int, nat>)
    requires t <= |trace|
    requires HoldsUses(nxt, trace, |trace|) && CountsUses(ptr, trace, t)
    ensures forall x :: TableNextUse(nxt, ptr, x) == NextUse(trace, t, x)
  {
    forall x ensures TableNextUse(nxt, ptr, x) == NextUse(trace, t, x) {
      PointerFindsNextUse(trace, t, x);
      assert Lookup(nxt, x, []) == Uses(trace, |trace|, x);
    }
  }

  // `max(cand, key=nextuse)`, whichever of the tied candidates the set's order puts first.
  lemma {:induction false} LatestExists(cand: set<int>, nxt: map<int, seq<nat>>, ptr: map<int, nat>)
    requires cand != {}
    ensures exists v :: v in cand && forall y :: y in cand ==> TableNextUse(nxt, ptr, y) <= TableNextUse(nxt, ptr, v)
  {
    var x := AnyOf(cand);
    var rest := cand - {x};
    if rest != {} {
      LatestExists(rest, nxt, ptr);
      var v :| v in rest && forall y :: y in rest ==> TableNextUse(nxt, ptr, y) <= TableNextUse(nxt, ptr, v);
      var w := if TableNextUse(nxt, ptr, x) <= TableNextUse(nxt, ptr, v) then v else x;
      assert forall y :: y in cand ==> y == x || y in rest;
      assert w in cand && forall y :: y in cand ==> TableNextUse(nxt, ptr, y) <= TableNextUse(nxt, ptr, w);
    } else {
      assert cand == {x};
    }
  }

  // Part way through cut t: `done` has been served, and every id given up so far
  // is needed no sooner than any that could still be given up.
  ghost predicate Serving(trace: Trace, t: nat, before: set<int>, done: set<int>, seats: set<int>)
    requires t < |trace|
  {
    && |seats| == |before|
    && done <= seats <= before + done
    && before * Elements(trace[t]) <= seats
    && forall x, y :: x in before - seats && y in seats - Elements(trace[t]) ==>
                        NextUse(trace, t + 1, y) <= NextUse(trace, t + 1, x)
  }

  lemma ServingMiss(trace: Trace, t: nat, before: set<int>, done: set<int>, seats: set<int>, e: int, victim: int)
    requires t < |trace| && Serving(trace, t, before, done, seats)
    requires done <= Elements(trace[t]) && e in Elements(trace[t]) - seats
    requires victim in seats - Elements(trace[t])
    requires forall y :: y in seats - Elements(trace[t]) ==> NextUse(trace, t + 1, y) <= NextUse(trace, t + 1, victim)
    ensures Serving(trace, t, before, done + {e}, seats - {victim} + {e})
    ensures |(seats - {victim} + {e}) - before| == |seats - before| + 1
  {
    var next := seats - {victim} + {e};
    assert victim in before;
    assert e !in before;
    assert next - before == (seats - before) + {e};
    forall x, y | x in before - next && y in next - Elements(trace[t])
      ensures NextUse(trace, t + 1, y) <= NextUse(trace, t + 1, x)
    {
      assert y in seats - Elements(trace[t]);
      assert x == victim || x in before - seats;
    }
  }

  method PickVictim(cand: set<int>, nxt: map<int, seq<nat>>, ptr: map<int, nat>, ghost trace: Trace, ghost t: nat)
    returns (victim: int)
    requires cand != {} && t < |trace|
    requires HoldsUses(nxt, trace, |trace|) && CountsUses(ptr, trace, t + 1)
    ensures victim in cand
    ensures forall y :: y in cand ==> NextUse(trace, t + 1, y) <= NextUse(trace, t + 1, victim)
  {
    LatestExists(cand, nxt, ptr);
    victim :| victim in cand && forall y :: y in cand ==> TableNextUse(nxt, ptr, y) <= TableNextUse(nxt, ptr, victim);
    TableAnswersNextUse(trace, t + 1, nxt, ptr);
  }

  lemma ServingDone(trace: Trace, t: nat, before: set<int>, seats: set<int>)
    requires t < |trace| && Distinct(trace[t]) && Serving(trace, t, before, Elements(trace[t]), seats)
    ensures FarthestFirst(trace, t, before, seats) && |trace[t]| <= |before|
  {
    DistinctCardinality(trace[t]);
    SubsetCardinality(Elements(trace[t]), seats);
  }

  lemma NoCandidates(cut: Cut, seats: set<int>, e: int)
    requires Distinct(cut) && e in Elements(cut) - seats && seats - Elements(cut) == {}
    ensures |cut| > |seats|
  {
    DistinctCardinality(cut);
    SubsetCardinality(seats + {e}, Elements(cut));
  }

  // The loop over one cut's ids. None is the `max` of an empty candidate list.
  method ServeCut(seats0: set<int>, cut: Cut, nxt: map<int, seq<nat>>, ptr: map<int, nat>,
                  ghost trace: Trace, ghost t: nat)
    returns (r: Option<(set<int>, nat)>)
    requires t < |trace| && trace[t] == cut && Distinct(cut)
    requires HoldsUses(nxt, trace, |trace|) && CountsUses(ptr, trace, t + 1)
    ensures r.None? <==> |cut| > |seats0|
    ensures r.Some? ==> FarthestFirst(trace, t, seats0, r.value.0) && r.value.1 == |r.value.0 - seats0|
  {
    var want := Elements(cut);
    var seats, misses := seats0, 0;
    for j := 0 to |cut|
      invariant Serving(trace, t, seats0, Elements(cut[..j]), seats)
      invariant misses == |seats - seats0|
    {
      var e := cut[j];
      assert Elements(cut[..j + 1]) == Elements(cut[..j]) + {e} by {
        assert cut[..j + 1] == cut[..j] + [e];
      }
      if e !in seats {
        misses := misses + 1;
        var cand := seats - want;
        if cand == {} {
          NoCandidates(cut, seats, e);
          return None;
        }
        var victim := PickVictim(cand, nxt, ptr, trace, t);
        ServingMiss(trace, t, seats0, Elements(cut[..j]), seats, e, victim);
        seats := seats - {victim} + {e};
      }
    }
    assert cut[..|cut|] == cut;
    ServingDone(trace, t, seats0, seats);
    r := Some((seats, misses));
  }

  // No schedule whatever serves the trace with fewer loads.
  ghost predicate Unbeaten(trace: Trace, S: nat, misses: nat) {
    forall other :: IsSchedule(trace, S, other) ==> misses <= Loads(other, |trace|)
  }

  lemma FarthestStep(trace: Trace, S: nat, seats: seq<set<int>>, n: nat, next: set<int>)
    requires n < |trace| && FarthestThroughout(trace, S, seats, n) && |seats[n]| == S
    requires FarthestFirst(trace, n, seats[n], next)
    ensures FarthestThroughout(trace, S, seats + [next], n + 1)
    ensures Loads(seats + [next], n + 1) == Loads(seats, n) + |next - seats[n]|
  {
    ExtendSchedule(trace, S, seats, n, next);
    forall t | 0 <= t < n + 1 ensures FarthestAt(trace, seats + [next], t) {
      assert t < n ==> FarthestAt(trace, seats, t);
    }
  }

  lemma FarthestIsUnbeaten(trace: Trace, S: nat, seats: seq<set<int>>)
    requires |trace| <= NEVER && FarthestThroughout(trace, S, seats, |trace|)
    ensures Unbeaten(trace, S, Loads(seats, |trace|))
  {
    forall other | IsSchedule(trace, S, other) ensures Loads(seats, |trace|) <= Loads(other, |trace|) {
      FarthestFirstIsOptimal(trace, S, seats, other);
    }
  }

  // `sim(seq, S, "belady")`. The ghost result is what was held before each cut.
  method Simulate(trace: Trace, S: nat) returns (r: Option<nat>, ghost seats: seq<set<int>>)
    requires WellFormed(trace)
    ensures r.None? <==> !Fits(trace, |trace|, S)
    ensures r.Some? ==> IsSchedule(trace, S, seats) && r.value == Loads(seats, |trace|)
    ensures r.Some? && |trace| <= NEVER ==> Unbeaten(trace, S, r.value)
  {
    var nxt := UseTable(trace);
    var ptr: map<int, nat> := map[];
    var now := Identity(S);
    var misses := 0;
    IdentityCardinality(S);
    seats := [now];
    for t := 0 to |trace|
      invariant FarthestThroughout(trace, S, seats, t) && seats[t] == now && |now| == S
      invariant Fits(trace, t, S)
      invariant CountsUses(ptr, trace, t)
      invariant misses == Loads(seats, t)
    {
      ptr := AdvancePointers(ptr, trace, t, trace[t]);
      var served := ServeCut(now, trace[t], nxt, ptr, trace, t);
      if served.None? {
        return None, seats;
      }
      FarthestStep(trace, S, seats, t, served.value.0);
      now := served.value.0;
      misses := misses + served.value.1;
      seats := seats + [now];
    }
    r := Some(misses);
    if |trace| <= NEVER {
      FarthestIsUnbeaten(trace, S, seats);
    }
  }
}

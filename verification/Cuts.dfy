// The vocabulary shared by the seat-replacement simulators: cuts, traces and
// the schedules a replacement policy may be compared with.

module Cuts {
  import opened Sequences

  // One cut: the ids of one step, in the order the simulator's loop visits them.
  type Cut = seq<int>
  type Trace = seq<Cut>

  ghost predicate Distinct(s: seq<int>) {
    forall i, j :: 0 <= i < j < |s| ==> s[i] != s[j]
  }

  ghost predicate WellFormed(trace: Trace) {
    forall t :: 0 <= t < |trace| ==> Distinct(trace[t])
  }

  // No cut of the first `n` asks for more ids than there are seats.
  ghost predicate Fits(trace: Trace, n: nat, S: nat)
    requires n <= |trace|
  {
    forall t :: 0 <= t < n ==> |trace[t]| <= S
  }

  lemma FitsExtends(trace: Trace, n: nat, S: nat)
    requires n < |trace|
    ensures Fits(trace, n + 1, S) <==> Fits(trace, n, S) && |trace[n]| <= S
  {
  }

  // The seats every simulator starts from: ids 0 .. S-1, in order.
  function IdentitySeq(S: nat): (r: seq<int>)
    ensures |r| == S && Distinct(r)
  {
    seq(S, i => i)
  }

  function Identity(S: nat): set<int> {
    Elements(IdentitySeq(S))
  }

  // After cut t at most S ids are seated, all of its own among them.
  ghost predicate Seated(trace: Trace, S: nat, seats: seq<set<int>>, t: nat)
    requires t < |trace| && t + 1 < |seats|
  {
    |seats[t + 1]| <= S && Elements(trace[t]) <= seats[t + 1]
  }

  // Any way at all of running S seats over the trace: `seats[t]` is what is held
  // before cut t. Free to prefetch, to evict early and to leave seats empty.
  ghost predicate IsSchedule(trace: Trace, S: nat, seats: seq<set<int>>) {
    ServesFirst(trace, S, seats, |trace|)
  }

  ghost predicate ServesFirst(trace: Trace, S: nat, seats: seq<set<int>>, n: nat)
    requires n <= |trace|
  {
    && |seats| == n + 1
    && seats[0] == Identity(S)
    && forall t :: 0 <= t < n ==> Seated(trace, S, seats, t)
  }

  // What a schedule has loaded by the time it has served n cuts.
  ghost function Loads(seats: seq<set<int>>, n: nat): nat
    requires n < |seats|
  {
    if n == 0 then 0 else Loads(seats, n - 1) + |seats[n] - seats[n - 1]|
  }

  lemma ExtendSchedule(trace: Trace, S: nat, seats: seq<set<int>>, n: nat, next: set<int>)
    requires n < |trace| && ServesFirst(trace, S, seats, n) && |next| <= S && Elements(trace[n]) <= next
    ensures ServesFirst(trace, S, seats + [next], n + 1)
    ensures Loads(seats + [next], n + 1) == Loads(seats, n) + |next - seats[n]|
  {
    LoadsOfPrefix(seats, [next], n);
    forall t | 0 <= t < n + 1 ensures Seated(trace, S, seats + [next], t) {
      assert t < n ==> Seated(trace, S, seats, t);
    }
  }

  lemma LoadsOfPrefix(seats: seq<set<int>>, more: seq<set<int>>, n: nat)
    requires n < |seats|
    ensures Loads(seats + more, n) == Loads(seats, n)
  {
  }

  lemma DistinctCardinality(s: seq<int>)
    requires Distinct(s)
    ensures |Elements(s)| == |s|
  {
    if s != [] {
      var init := s[..|s| - 1];
      assert s == init + [s[|s| - 1]];
      DistinctCardinality(init);
      assert Elements(s) == Elements(init) + {s[|s| - 1]};
    }
  }

  lemma IdentityCardinality(S: nat)
    ensures |Identity(S)| == S
  {
    DistinctCardinality(IdentitySeq(S));
  }
}

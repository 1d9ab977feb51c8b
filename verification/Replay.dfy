// One row of the replay table: every policy over the same trace and seat count.

module Replay {
  import opened Wrappers
  import opened Cuts
  import Belady
  import OrderedSeats
  import Clock

  ghost predicate NoMore(belady: Option<nat>, other: Option<nat>) {
    belady.Some? && other.Some? && belady.value <= other.value
  }

  // An ordered-dict policy's count, or the cut it stops at.
  ghost predicate Counts(policy: OrderedSeats.Policy, trace: Trace, S: nat, misses: Option<nat>) {
    var run := OrderedSeats.Run(policy, trace, S, |trace|);
    misses.Some? == run.Some? && (misses.Some? ==> misses.value == run.value.misses)
  }

  // The fewest loads that any way of running the seats makes.
  ghost predicate IsFewest(trace: Trace, S: nat, misses: nat) {
    Belady.Unbeaten(trace, S, misses) && exists seats :: IsSchedule(trace, S, seats) && misses == Loads(seats, |trace|)
  }

  // Each column is its own policy's count, and no policy undercuts Belady's, whichever way
  // each of them breaks its ties. A cut larger than the seats stops all but the clock.
  method Row(trace: Trace, S: nat)
    returns (clock: nat, lru: Option<nat>, lfu: Option<nat>, lrfu: Option<nat>, belady: Option<nat>)
    requires WellFormed(trace) && |trace| <= Belady.NEVER && S > 0
    ensures clock == Clock.Run(trace, S, |trace|).misses
    ensures Counts(OrderedSeats.Lru, trace, S, lru) && Counts(OrderedSeats.Lfu, trace, S, lfu)
    ensures Counts(OrderedSeats.Lrfu, trace, S, lrfu)
    ensures belady.Some? ==> IsFewest(trace, S, belady.value)
    ensures Fits(trace, |trace|, S) ==>
              NoMore(belady, lru) && NoMore(belady, lfu) && NoMore(belady, lrfu) && NoMore(belady, Some(clock))
    ensures !Fits(trace, |trace|, S) ==> lru == lfu == lrfu == belady == None
  {
    clock := Clock.Simulate(trace, S);
    lru := OrderedSeats.Simulate(trace, S, OrderedSeats.Lru);
    lfu := OrderedSeats.Simulate(trace, S, OrderedSeats.Lfu);
    lrfu := OrderedSeats.Simulate(trace, S, OrderedSeats.Lrfu);
    ghost var held;
    belady, held := Belady.Simulate(trace, S);
    if belady.Some? {
      CostsAtLeast(trace, S, OrderedSeats.Lru, belady.value);
      CostsAtLeast(trace, S, OrderedSeats.Lfu, belady.value);
      CostsAtLeast(trace, S, OrderedSeats.Lrfu, belady.value);
      ClockCostsAtLeast(trace, S, belady.value);
    } else {
      forall policy ensures OrderedSeats.Run(policy, trace, S, |trace|).None? {
        OrderedSeats.RunIsSchedule(policy, trace, S, |trace|);
      }
    }
  }

  lemma CostsAtLeast(trace: Trace, S: nat, policy: OrderedSeats.Policy, best: nat)
    requires WellFormed(trace) && Fits(trace, |trace|, S) && Belady.Unbeaten(trace, S, best)
    ensures OrderedSeats.Run(policy, trace, S, |trace|).Some?
    ensures best <= OrderedSeats.Run(policy, trace, S, |trace|).value.misses
  {
    OrderedSeats.HeldIsSchedule(policy, trace, S);
  }

  lemma ClockCostsAtLeast(trace: Trace, S: nat, best: nat)
    requires WellFormed(trace) && Fits(trace, |trace|, S) && Belady.Unbeaten(trace, S, best) && S > 0
    ensures best <= Clock.Run(trace, S, |trace|).misses
  {
    Clock.RunIsSchedule(trace, S, |trace|);
    assert IsSchedule(trace, S, Clock.Held(trace, S, |trace|));
  }
}

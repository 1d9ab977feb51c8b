// `sim` under "clock": second-chance replacement, with the ids a cut has already
// been served pinned until the cut ends.

module Clock {
  import opened Sequences
  import opened Cuts

  datatype State = State(inSeat: seq<int>, used: seq<bool>, pinned: seq<bool>, hand: nat, where: map<int, nat>, misses: nat)
  {
    ghost predicate Valid(S: nat) {
      && |inSeat| == |used| == |pinned| == S
      && hand < S
      && Distinct(inSeat)
      && Inverse()
    }

    // `where` undoes `inSeat`, and `inSeat` undoes `where`.
    ghost predicate Inverse() {
      && (forall e :: e in where ==> where[e] < |inSeat| && inSeat[where[e]] == e)
      && (forall s :: 0 <= s < |inSeat| ==> inSeat[s] in where && where[inSeat[s]] == s)
    }
  }

  function Next(hand: nat, S: nat): (r: nat)
    requires hand < S
    ensures r == if hand + 1 < S then hand + 1 else 0
  {
    (hand + 1) % S
  }

  datatype Swept = Swept(seat: nat, used: seq<bool>, hand: nat, probes: nat, broke: bool)

  // At most `budget` probes from the hand on; `broke` says that it left by `break`.
  function Sweep(used: seq<bool>, pinned: seq<bool>, hand: nat, budget: nat): (r: Swept)
    requires |used| == |pinned| && hand < |used| && budget > 0
    ensures r.seat < |used| && |r.used| == |used| && r.hand < |used|
    ensures 1 <= r.probes <= budget
    ensures r.broke ==> !pinned[r.seat] && !r.used[r.seat]
    decreases budget
  {
    var hand' := Next(hand, |used|);
    if !pinned[hand] && !used[hand] then Swept(hand, used, hand', 1, true)
    else
      var used' := if pinned[hand] then used else used[hand := false];
      if budget == 1 then Swept(hand, used', hand', 1, false)
      else
        var rest := Sweep(used', pinned, hand', budget - 1);
        rest.(probes := rest.probes + 1)
  }

  function Mark(st: State, s: nat): State
    requires s < |st.used| == |st.pinned|
  {
    st.(used := st.used[s := true], pinned := st.pinned[s := true])
  }

  // Put e into the seat the sweep ended on.
  function Seat(st: State, e: int, swept: Swept): State
    requires swept.seat < |st.inSeat| == |swept.used| == |st.pinned|
  {
    var s := swept.seat;
    Mark(st.(inSeat := st.inSeat[s := e],
             used := swept.used,
             hand := swept.hand,
             where := (st.where - {st.inSeat[s]})[e := s],
             misses := st.misses + 1), s)
  }

  ghost predicate Shaped(st: State, S: nat) {
    |st.inSeat| == |st.used| == |st.pinned| == S && st.hand < S && forall e :: e in st.where ==> st.where[e] < S
  }

  function Request(st: State, e: int): (r: State)
    requires Shaped(st, |st.inSeat|)
    ensures Shaped(r, |st.inSeat|)
  {
    if e in st.where then Mark(st, st.where[e])
    else Seat(st, e, Sweep(st.used, st.pinned, st.hand, 2 * |st.inSeat|))
  }

  function Serve(st: State, ids: seq<int>): (r: State)
    requires Shaped(st, |st.inSeat|)
    ensures Shaped(r, |st.inSeat|)
  {
    if ids == [] then st
    else Request(Serve(st, ids[..|ids| - 1]), ids[|ids| - 1])
  }

  function Cleared(S: nat): seq<bool> {
    seq(S, _ => false)
  }

  function Initial(S: nat): State {
    State(IdentitySeq(S), Cleared(S), Cleared(S), 0, map e | e in Identity(S) :: e, 0)
  }

  function ServeCut(st: State, cut: Cut): State
    requires Shaped(st, |st.inSeat|)
  {
    Serve(st.(pinned := Cleared(|st.inSeat|)), cut)
  }

  function Run(trace: Trace, S: nat, n: nat): (r: State)
    requires n <= |trace| && S > 0
    ensures Shaped(r, S)
  {
    if n == 0 then Initial(S) else ServeCut(Run(trace, S, n - 1), trace[n - 1])
  }

  // ------------------------------------------------------------------ the loop

  method SweepHand(pinned: array<bool>, used: array<bool>, hand0: nat) returns (seat: nat, hand: nat)
    requires pinned != used && pinned.Length == used.Length && hand0 < used.Length
    modifies used
    ensures var r := Sweep(old(used[..]), pinned[..], hand0, 2 * used.Length);
            seat == r.seat && hand == r.hand && used[..] == r.used
  {
    var S := used.Length;
    hand := hand0;
    seat := hand;
    ghost var answer := Sweep(used[..], pinned[..], hand, 2 * S);
    ghost var probes := 0;
    for k := 0 to 2 * S
      invariant hand < S
      invariant k < 2 * S ==>
                  var rest := Sweep(used[..], pinned[..], hand, 2 * S - k);
                  answer == rest.(probes := rest.probes + probes)
      invariant k == 2 * S ==> seat == answer.seat && hand == answer.hand && used[..] == answer.used
    {
      seat := hand;
      hand := (hand + 1) % S;
      probes := probes + 1;
      if pinned[seat] {
        continue;
      }
      if used[seat] {
        ghost var was := used[..];
        used[seat] := false;
        assert used[..] == was[seat := false];
        continue;
      }
      break;
    }
  }

  // The loop variables say what the state `st` says.
  ghost predicate Holds(st: State, inSeat: seq<int>, used: seq<bool>, pinned: seq<bool>, hand: nat,
                        where: map<int, nat>, misses: nat) {
    st == State(inSeat, used, pinned, hand, where, misses)
  }

  // One id of a cut.
  method ServeOne(ghost st: State, e: int, inSeat: array<int>, used: array<bool>, pinned: array<bool>,
                  hand0: nat, where0: map<int, nat>, misses0: nat)
    returns (hand: nat, where: map<int, nat>, misses: nat)
    requires inSeat.Length == used.Length == pinned.Length && used != pinned && Shaped(st, inSeat.Length)
    requires Holds(st, inSeat[..], used[..], pinned[..], hand0, where0, misses0)
    modifies inSeat, used, pinned
    ensures Holds(Request(st, e), inSeat[..], used[..], pinned[..], hand, where, misses)
  {
    hand, where, misses := hand0, where0, misses0;
    if e in where {
      used[where[e]] := true;
      pinned[where[e]] := true;
      return;
    }
    misses := misses + 1;
    var s;
    s, hand := SweepHand(pinned, used, hand);
    where := where - {inSeat[s]};
    inSeat[s] := e;
    where := where[e := s];
    used[s] := true;
    pinned[s] := true;
  }

  // The ids of a cut, one after another.
  method ServeAll(ghost st: State, cut: Cut, inSeat: array<int>, used: array<bool>, pinned: array<bool>,
                  hand0: nat, where0: map<int, nat>, misses0: nat)
    returns (hand: nat, where: map<int, nat>, misses: nat)
    requires inSeat.Length == used.Length == pinned.Length && used != pinned && Shaped(st, inSeat.Length)
    requires Holds(st, inSeat[..], used[..], pinned[..], hand0, where0, misses0)
    modifies inSeat, used, pinned
    ensures Holds(Serve(st, cut), inSeat[..], used[..], pinned[..], hand, where, misses)
  {
    hide Request, Holds;
    hand, where, misses := hand0, where0, misses0;
    for j := 0 to |cut|
      invariant Holds(Serve(st, cut[..j]), inSeat[..], used[..], pinned[..], hand, where, misses)
    {
      assert cut[..j + 1][..j] == cut[..j];
      hand, where, misses := ServeOne(Serve(st, cut[..j]), cut[j], inSeat, used, pinned, hand, where, misses);
    }
    assert cut[..|cut|] == cut;
  }

  method Simulate(trace: Trace, S: nat) returns (misses: nat)
    requires S > 0
    ensures misses == Run(trace, S, |trace|).misses
  {
    hide Request, Serve;
    var inSeat := new int[S](i => i);
    var used := new bool[S](_ => false);
    var hand: nat := 0;
    var where: map<int, nat> := map e | e in Identity(S) :: e;
    misses := 0;
    ghost var pins := Cleared(S);
    assert inSeat[..] == IdentitySeq(S) && used[..] == Cleared(S);
    for t := 0 to |trace|
      invariant Holds(Run(trace, S, t), inSeat[..], used[..], pins, hand, where, misses)
    {
      var pinned := new bool[S](_ => false);
      assert pinned[..] == Cleared(S);
      hand, where, misses := ServeAll(Run(trace, S, t).(pinned := Cleared(S)), trace[t], inSeat, used, pinned, hand, where, misses);
      pins := pinned[..];
    }
  }

  // ----------------------------------------------------------------- the sweep

  // How far ahead of the hand seat u lies.
  function Ahead(hand: nat, u: nat, S: nat): nat
    requires hand < S && u < S
  {
    if hand <= u then u - hand else u + S - hand
  }

  // A seat nobody pinned is found on its first visit if unused, on its second if not.
  lemma {:induction false} SweepReaches(used: seq<bool>, pinned: seq<bool>, hand: nat, budget: nat, u: nat)
    requires |used| == |pinned| && hand < |used| && budget > 0
    requires u < |used| && !pinned[u]
    requires budget > Ahead(hand, u, |used|) + if used[u] then |used| else 0
    ensures var r := Sweep(used, pinned, hand, budget);
            r.broke && r.probes <= Ahead(hand, u, |used|) + 1 + if used[u] then |used| else 0
    decreases budget
  {
    hide Next;
    if pinned[hand] || used[hand] {
      var used' := if pinned[hand] then used else used[hand := false];
      SweepReaches(used', pinned, Next(hand, |used|), budget - 1, u);
    }
  }

  // -------------------------------------------------------------- what one cut does

  // Part way through a cut: exactly the served ids' seats are pinned.
  ghost predicate Serving(before: State, done: set<int>, st: State) {
    && st.Valid(|before.inSeat|)
    && done <= Elements(st.inSeat)
    && (forall s :: 0 <= s < |st.inSeat| ==> (st.pinned[s] <==> st.inSeat[s] in done))
    && Elements(st.inSeat) <= Elements(before.inSeat) + done
  }

  // A request that misses on an id the cut found seated: it has been evicted since.
  predicate IsReload(before: State, st: State, e: int) {
    e !in st.where && e in before.inSeat
  }

  // How many of a cut's requests are.
  function Reloads(before: State, ids: seq<int>): nat
    requires Shaped(before, |before.inSeat|)
  {
    if ids == [] then 0
    else
      var n := |ids| - 1;
      Reloads(before, ids[..n]) + if IsReload(before, Serve(before, ids[..n]), ids[n]) then 1 else 0
  }

  // New ids and reloads are what is missed.
  ghost predicate Counted(before: State, st: State, reloads: nat) {
    st.misses == before.misses + |Elements(st.inSeat) - Elements(before.inSeat)| + reloads
  }

  lemma SeatedIds(s: seq<int>, k: nat, e: int)
    requires k < |s| && Distinct(s) && e !in s
    ensures Distinct(s[k := e]) && Elements(s[k := e]) == Elements(s) - {s[k]} + {e}
  {
    var r := s[k := e];
    assert forall x :: x in Elements(s) - {s[k]} + {e} ==> x in r by {
      forall x | x in Elements(s) - {s[k]} + {e} ensures x in r {
        if x == e {
          assert r[k] == e;
        } else {
          var i :| 0 <= i < |s| && s[i] == x;
          assert r[i] == x;
        }
      }
    }
  }

  // Loading keeps the two tables inverse to each other whatever the sweep found.
  lemma SeatKeepsInverse(st: State, e: int, swept: Swept)
    requires st.Valid(|st.inSeat|) && e !in st.where
    requires swept.seat < |st.inSeat| == |swept.used| && swept.hand < |st.inSeat|
    ensures Seat(st, e, swept).Valid(|st.inSeat|)
    ensures Elements(Seat(st, e, swept).inSeat) == Elements(st.inSeat) - {st.inSeat[swept.seat]} + {e}
  {
    assert e !in st.inSeat;
    SeatedIds(st.inSeat, swept.seat, e);
    var r := Seat(st, e, swept);
    forall x | x in r.where ensures r.where[x] < |r.inSeat| && r.inSeat[r.where[x]] == x {
      if x != e {
        assert x in st.where && x != st.inSeat[swept.seat];
      }
    }
    forall s | 0 <= s < |r.inSeat| ensures r.inSeat[s] in r.where && r.where[r.inSeat[s]] == s {
      if s != swept.seat {
        assert r.inSeat[s] == st.inSeat[s];
        assert st.inSeat[s] != st.inSeat[swept.seat] && st.inSeat[s] != e;
      }
    }
  }

  lemma RequestKeepsValid(st: State, e: int)
    requires st.Valid(|st.inSeat|)
    ensures Request(st, e).Valid(|st.inSeat|)
  {
    if e !in st.where {
      SeatKeepsInverse(st, e, Sweep(st.used, st.pinned, st.hand, 2 * |st.inSeat|));
    }
  }

  // With fewer ids served than there are seats, some seat is not pinned.
  lemma SomeSeatFree(before: State, done: set<int>, st: State) returns (u: nat)
    requires Serving(before, done, st) && |done| < |st.inSeat|
    ensures u < |st.inSeat| && !st.pinned[u]
  {
    if forall s :: 0 <= s < |st.inSeat| ==> st.pinned[s] {
      DistinctCardinality(st.inSeat);
      SubsetCardinality(Elements(st.inSeat), done);
    }
    u :| 0 <= u < |st.inSeat| && !st.pinned[u];
  }

  // One load of e for old_, which the cut found seated.
  lemma LoadCounts(now: set<int>, was: set<int>, old_: int, e: int)
    requires old_ in now && old_ in was && e !in now
    ensures |now - {old_} + {e} - was| == |now - was| + if e in was then 0 else 1
  {
    if e in was {
      assert now - {old_} + {e} - was == now - was;
    } else {
      assert now - {old_} + {e} - was == (now - was) + {e};
    }
  }

  // While ids remain to be served the hand always stops on an unpinned seat,
  // within two turns, and the id is seated and pinned.
  lemma ServingRequest(before: State, done: set<int>, st: State, e: int, reloads: nat)
    requires Serving(before, done, st) && e !in done && |done| < |st.inSeat| && Counted(before, st, reloads)
    ensures e !in st.where ==>
              var swept := Sweep(st.used, st.pinned, st.hand, 2 * |st.inSeat|);
              swept.broke && !st.pinned[swept.seat] && swept.probes <= 2 * |st.inSeat|
    ensures Serving(before, done + {e}, Request(st, e))
    ensures Counted(before, Request(st, e), reloads + if IsReload(before, st, e) then 1 else 0)
  {
    ServingMeans(before, done, st);
    RequestKeepsValid(st, e);
    if e in st.where {
      HitServes(before, done, st, e, reloads);
    } else {
      hide Serving, Counted;
      var u := SomeSeatFree(before, done, st);
      var swept := Sweep(st.used, st.pinned, st.hand, 2 * |st.inSeat|);
      SweepReaches(st.used, st.pinned, st.hand, 2 * |st.inSeat|, u);
      SeatKeepsInverse(st, e, swept);
      LoadFits(before, done, st, e, swept, reloads);
    }
  }

  lemma HitServes(before: State, done: set<int>, st: State, e: int, reloads: nat)
    requires Serving(before, done, st) && e in st.where && Counted(before, st, reloads)
    ensures Serving(before, done + {e}, Request(st, e))
    ensures Counted(before, Request(st, e), reloads)
  {
    var r := Request(st, e);
    assert r.inSeat[st.where[e]] == e;
  }

  lemma ServingMeans(before: State, done: set<int>, st: State)
    requires Serving(before, done, st)
    ensures st.Valid(|before.inSeat|) && |st.inSeat| == |before.inSeat|
  {
  }

  lemma LoadServes(before: State, done: set<int>, st: State, e: int, swept: Swept)
    requires Serving(before, done, st) && e !in done
    requires swept.seat < |st.inSeat| == |swept.used| && swept.hand < |st.inSeat| && !st.pinned[swept.seat]
    requires Seat(st, e, swept).Valid(|before.inSeat|)
    requires Elements(Seat(st, e, swept).inSeat) == Elements(st.inSeat) - {st.inSeat[swept.seat]} + {e}
    ensures Serving(before, done + {e}, Seat(st, e, swept))
    ensures Seat(st, e, swept).misses == st.misses + 1
  {
  }

  // A load onto an unpinned seat.
  lemma LoadFits(before: State, done: set<int>, st: State, e: int, swept: Swept, reloads: nat)
    requires Serving(before, done, st) && e !in done && e !in st.where && Counted(before, st, reloads)
    requires swept.seat < |st.inSeat| == |swept.used| && swept.hand < |st.inSeat| && !st.pinned[swept.seat]
    requires Seat(st, e, swept).Valid(|before.inSeat|)
    requires Elements(Seat(st, e, swept).inSeat) == Elements(st.inSeat) - {st.inSeat[swept.seat]} + {e}
    ensures Serving(before, done + {e}, Seat(st, e, swept))
    ensures Counted(before, Seat(st, e, swept), reloads + if IsReload(before, st, e) then 1 else 0)
  {
    var old_ := st.inSeat[swept.seat];
    assert old_ in Elements(st.inSeat) && old_ !in done;
    assert e !in Elements(st.inSeat);
    LoadServes(before, done, st, e, swept);
    hide Serving, Seat;
    LoadCounts(Elements(st.inSeat), Elements(before.inSeat), old_, e);
  }

  lemma PrefixGrows(cut: Cut, n: nat)
    requires Distinct(cut) && n < |cut|
    ensures cut[..n + 1][..n] == cut[..n]
    ensures Elements(cut[..n + 1]) == Elements(cut[..n]) + {cut[n]} && cut[n] !in Elements(cut[..n])
    ensures |Elements(cut[..n])| == n
  {
    assert cut[..n + 1] == cut[..n] + [cut[n]];
    DistinctCardinality(cut[..n]);
  }

  // Part way through a cut, with the count.
  ghost predicate ServedSoFar(before: State, cut: Cut, n: nat)
    requires Shaped(before, |before.inSeat|) && n <= |cut|
  {
    && Serving(before, Elements(cut[..n]), Serve(before, cut[..n]))
    && Counted(before, Serve(before, cut[..n]), Reloads(before, cut[..n]))
  }

  lemma ServedMeans(before: State, cut: Cut, n: nat)
    requires Shaped(before, |before.inSeat|) && n <= |cut|
    ensures ServedSoFar(before, cut, n) <==>
            && Serving(before, Elements(cut[..n]), Serve(before, cut[..n]))
            && Counted(before, Serve(before, cut[..n]), Reloads(before, cut[..n]))
  {
  }

  lemma ServingNothing(before: State, cut: Cut)
    requires before.Valid(|before.inSeat|) && before.pinned == Cleared(|before.inSeat|)
    ensures ServedSoFar(before, cut, 0)
  {
    assert Elements(before.inSeat) - Elements(before.inSeat) == {};
  }

  lemma ServeStep(before: State, cut: Cut, n: nat)
    requires Shaped(before, |before.inSeat|) && n < |cut|
    ensures Serve(before, cut[..n + 1]) == Request(Serve(before, cut[..n]), cut[n])
    ensures Reloads(before, cut[..n + 1])
            == Reloads(before, cut[..n]) + if IsReload(before, Serve(before, cut[..n]), cut[n]) then 1 else 0
    ensures |Serve(before, cut[..n]).inSeat| == |before.inSeat|
  {
    assert cut[..n + 1][..n] == cut[..n];
  }

  lemma ServingStep(before: State, cut: Cut, n: nat)
    requires Shaped(before, |before.inSeat|) && Distinct(cut) && n < |cut| <= |before.inSeat|
    requires ServedSoFar(before, cut, n)
    ensures ServedSoFar(before, cut, n + 1)
  {
    hide *;
    ServedMeans(before, cut, n);
    ServedMeans(before, cut, n + 1);
    PrefixGrows(cut, n);
    ServeStep(before, cut, n);
    ServingRequest(before, Elements(cut[..n]), Serve(before, cut[..n]), cut[n], Reloads(before, cut[..n]));
  }

  lemma {:induction false} ServingCut(before: State, cut: Cut, n: nat)
    requires before.Valid(|before.inSeat|) && before.pinned == Cleared(|before.inSeat|)
    requires Distinct(cut) && n <= |cut| <= |before.inSeat|
    ensures ServedSoFar(before, cut, n)
  {
    hide ServedSoFar;
    if n == 0 {
      ServingNothing(before, cut);
    } else {
      ServingCut(before, cut, n - 1);
      ServingStep(before, cut, n - 1);
    }
  }

  lemma {:induction false} ServeKeepsValid(st: State, ids: seq<int>)
    requires st.Valid(|st.inSeat|)
    ensures Serve(st, ids).Valid(|st.inSeat|)
  {
    if ids != [] {
      ServeKeepsValid(st, ids[..|ids| - 1]);
      RequestKeepsValid(Serve(st, ids[..|ids| - 1]), ids[|ids| - 1]);
    }
  }

  function CutReloads(before: State, cut: Cut): nat
    requires Shaped(before, |before.inSeat|)
  {
    Reloads(before.(pinned := Cleared(|before.inSeat|)), cut)
  }

  // After the cut every one of its ids is seated, exactly when they fit; and then it has
  // missed once for each id that is new and once for each reload.
  lemma CutIsSeated(before: State, cut: Cut)
    requires before.Valid(|before.inSeat|) && Distinct(cut)
    ensures var after := ServeCut(before, cut);
            && after.Valid(|before.inSeat|)
            && (Elements(cut) <= Elements(after.inSeat) <==> |cut| <= |before.inSeat|)
            && (|cut| <= |before.inSeat| ==> Counted(before, after, CutReloads(before, cut)))
  {
    var start := before.(pinned := Cleared(|before.inSeat|));
    ServeKeepsValid(start, cut);
    assert cut[..|cut|] == cut;
    var after := ServeCut(before, cut);
    if |cut| <= |before.inSeat| {
      ServingCut(start, cut, |cut|);
    } else if Elements(cut) <= Elements(after.inSeat) {
      DistinctCardinality(cut);
      DistinctCardinality(after.inSeat);
      SubsetCardinality(Elements(cut), Elements(after.inSeat));
    }
  }

  // ---------------------------------------------------------------- whole runs

  lemma InitialValid(S: nat)
    requires S > 0
    ensures Initial(S).Valid(S) && Elements(Initial(S).inSeat) == Identity(S)
  {
    assert forall s :: 0 <= s < S ==> IdentitySeq(S)[s] == s;
  }

  // The two tables are inverse to each other after any cuts at all.
  lemma {:induction false} RunKeepsInverse(trace: Trace, S: nat, n: nat)
    requires S > 0 && n <= |trace|
    ensures Run(trace, S, n).Valid(S)
  {
    if n == 0 {
      InitialValid(S);
    } else {
      RunKeepsInverse(trace, S, n - 1);
      ServeKeepsValid(Run(trace, S, n - 1).(pinned := Cleared(S)), trace[n - 1]);
    }
  }

  ghost function Held(trace: Trace, S: nat, n: nat): seq<set<int>>
    requires n <= |trace| && S > 0
  {
    (if n == 0 then [] else Held(trace, S, n - 1)) + [Elements(Run(trace, S, n).inSeat)]
  }

  function RunReloads(trace: Trace, S: nat, n: nat): nat
    requires n <= |trace| && S > 0
  {
    if n == 0 then 0 else RunReloads(trace, S, n - 1) + CutReloads(Run(trace, S, n - 1), trace[n - 1])
  }

  // What one more cut does to a run, in sets.
  lemma RunStep(trace: Trace, S: nat, n: nat)
    requires WellFormed(trace) && S > 0 && n < |trace| && |trace[n]| <= S
    ensures var before, after := Run(trace, S, n), Run(trace, S, n + 1);
            && |Elements(after.inSeat)| == S && Elements(trace[n]) <= Elements(after.inSeat)
            && after.misses == before.misses + |Elements(after.inSeat) - Elements(before.inSeat)| + CutReloads(before, trace[n])
    ensures Held(trace, S, n + 1) == Held(trace, S, n) + [Elements(Run(trace, S, n + 1).inSeat)]
  {
    hide Serve, Reloads;
    RunKeepsInverse(trace, S, n);
    CutIsSeated(Run(trace, S, n), trace[n]);
    DistinctCardinality(Run(trace, S, n + 1).inSeat);
  }

  // Seat by seat a run is one particular schedule, and it misses once for each load of
  // that schedule and once for each reload.
  lemma {:induction false} RunIsSchedule(trace: Trace, S: nat, n: nat)
    requires WellFormed(trace) && S > 0 && n <= |trace| && Fits(trace, n, S)
    ensures ServesFirst(trace, S, Held(trace, S, n), n)
    ensures Held(trace, S, n)[n] == Elements(Run(trace, S, n).inSeat)
    ensures Run(trace, S, n).misses == Loads(Held(trace, S, n), n) + RunReloads(trace, S, n)
  {
    hide ServeCut, CutReloads;
    if n == 0 {
      InitialValid(S);
    } else {
      RunIsSchedule(trace, S, n - 1);
      RunStep(trace, S, n - 1);
      ExtendSchedule(trace, S, Held(trace, S, n - 1), n - 1, Elements(Run(trace, S, n).inSeat));
    }
  }

  // Request j of cut t is a reload.
  ghost predicate ReloadAt(trace: Trace, S: nat, t: nat, j: nat)
    requires S > 0 && t < |trace| && j < |trace[t]|
  {
    var before := Run(trace, S, t).(pinned := Cleared(S));
    IsReload(before, Serve(before, trace[t][..j]), trace[t][j])
  }

  lemma {:induction false} NoReloads(before: State, cut: Cut, n: nat)
    requires Shaped(before, |before.inSeat|) && n <= |cut|
    ensures Reloads(before, cut[..n]) == 0 <==>
            forall j: nat :: j < n ==> !IsReload(before, Serve(before, cut[..j]), cut[j])
  {
    hide IsReload, Serve;
    if n > 0 {
      NoReloads(before, cut, n - 1);
      ReloadsStep(before, cut, n - 1);
    }
  }

  lemma ReloadsStep(before: State, cut: Cut, n: nat)
    requires Shaped(before, |before.inSeat|) && n < |cut|
    ensures Reloads(before, cut[..n + 1])
            == Reloads(before, cut[..n]) + if IsReload(before, Serve(before, cut[..n]), cut[n]) then 1 else 0
  {
    hide IsReload, Serve;
    assert cut[..n + 1][..n] == cut[..n];
  }

  // The clock misses only what its seats load exactly when no request of the run is one.
  lemma MissesAreLoads(trace: Trace, S: nat, n: nat)
    requires WellFormed(trace) && S > 0 && n <= |trace| && Fits(trace, n, S)
    ensures RunReloads(trace, S, n) == 0 <==> forall t: nat, j: nat :: t < n && j < |trace[t]| ==> !ReloadAt(trace, S, t, j)
    ensures |Held(trace, S, n)| > n
    ensures Run(trace, S, n).misses == Loads(Held(trace, S, n), n) <==> RunReloads(trace, S, n) == 0
  {
    RunIsSchedule(trace, S, n);
    NoneReloadedIff(trace, S, n);
  }

  lemma {:induction false} NoneReloadedIff(trace: Trace, S: nat, n: nat)
    requires S > 0 && n <= |trace|
    ensures RunReloads(trace, S, n) == 0 <==> forall t: nat, j: nat :: t < n && j < |trace[t]| ==> !ReloadAt(trace, S, t, j)
  {
    hide ReloadAt, CutReloads, Run;
    if n > 0 {
      NoneReloadedIff(trace, S, n - 1);
      CutNoReloads(trace, S, n - 1);
    }
  }

  lemma CutNoReloads(trace: Trace, S: nat, t: nat)
    requires S > 0 && t < |trace|
    ensures CutReloads(Run(trace, S, t), trace[t]) == 0 <==> forall j: nat :: j < |trace[t]| ==> !ReloadAt(trace, S, t, j)
  {
    hide IsReload, Serve, Reloads;
    var before := Run(trace, S, t).(pinned := Cleared(S));
    NoReloads(before, trace[t], |trace[t]|);
    assert trace[t][..|trace[t]|] == trace[t];
    forall j: nat | j < |trace[t]|
      ensures ReloadAt(trace, S, t, j) <==> IsReload(before, Serve(before, trace[t][..j]), trace[t][j])
    {
    }
  }

  // A cut that asks for the ids it finds seated before any other.
  ghost predicate HitsFirst(inSeat: seq<int>, cut: Cut) {
    forall i, j :: 0 <= i < j < |cut| && cut[j] in inSeat ==> cut[i] in inSeat
  }

  // Such a cut reloads nothing: while it hits, nobody is evicted.
  lemma {:induction false} HitsFirstKeeps(before: State, cut: Cut, n: nat)
    requires before.Valid(|before.inSeat|) && HitsFirst(before.inSeat, cut) && n <= |cut|
    ensures Reloads(before, cut[..n]) == 0
    ensures (forall i :: 0 <= i < n ==> cut[i] in before.inSeat) ==>
              Serve(before, cut[..n]).inSeat == before.inSeat && Serve(before, cut[..n]).where == before.where
  {
    if n > 0 {
      HitsFirstKeeps(before, cut, n - 1);
      ReloadsStep(before, cut, n - 1);
      ServeStep(before, cut, n - 1);
      if cut[n - 1] in before.inSeat {
        SeatedIsWhere(before, cut[n - 1]);
      }
    }
  }

  lemma SeatedIsWhere(st: State, e: int)
    requires st.Valid(|st.inSeat|) && e in st.inSeat
    ensures e in st.where
  {
    var s :| 0 <= s < |st.inSeat| && st.inSeat[s] == e;
  }

  // So a run whose cuts all do misses exactly what its seats load.
  lemma HitsFirstIsExact(trace: Trace, S: nat, n: nat)
    requires WellFormed(trace) && S > 0 && n <= |trace| && Fits(trace, n, S)
    requires forall t: nat :: t < n ==> HitsFirst(Run(trace, S, t).inSeat, trace[t])
    ensures |Held(trace, S, n)| > n && Run(trace, S, n).misses == Loads(Held(trace, S, n), n)
  {
    hide Loads, HitsFirst;
    RunIsSchedule(trace, S, n);
    NoneReloaded(trace, S, n);
  }

  lemma {:induction false} NoneReloaded(trace: Trace, S: nat, n: nat)
    requires S > 0 && n <= |trace|
    requires forall t: nat :: t < n ==> HitsFirst(Run(trace, S, t).inSeat, trace[t])
    ensures RunReloads(trace, S, n) == 0
  {
    hide HitsFirst, CutReloads, ServeCut, State.Valid, Shaped, Run;
    if n > 0 {
      NoneReloaded(trace, S, n - 1);
      RunKeepsInverse(trace, S, n - 1);
      HitsFirstCut(Run(trace, S, n - 1), trace[n - 1]);
    }
  }

  lemma HitsFirstCut(before: State, cut: Cut)
    requires before.Valid(|before.inSeat|) && HitsFirst(before.inSeat, cut)
    ensures CutReloads(before, cut) == 0
  {
    var start := before.(pinned := Cleared(|before.inSeat|));
    HitsFirstKeeps(start, cut, |cut|);
    assert cut[..|cut|] == cut;
  }

  // An id the cut has yet to reach is fair game: here 0 is evicted for 2 and then
  // loaded again, two misses where one id was missing.
  lemma ReloadsWithinACut()
    ensures Run([[2, 0]], 2, 1).misses == 2
    ensures Elements([2, 0]) - Identity(2) == {2}
  {
    var st := Initial(2).(pinned := Cleared(2));
    assert [2, 0][..1] == [2] && [2][..0] == [];
    var one := Request(st, 2);
    assert Serve(st, [2]) == one;
    assert one.misses == 1 && 0 !in one.where;
    assert Identity(2) == {0, 1} by {
      assert IdentitySeq(2) == [0, 1];
    }
  }
}

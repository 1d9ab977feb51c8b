// Which seat the clock's hand takes, and the second chance: an id asked for since the hand
// last passed its seat is not taken on the hand's next visit there.

module SecondChance {
  import opened Clock

  // When the hand would take seat u, in probes from now: at its next visit if the seat is
  // unmarked, a turn later if it is marked.
  function Turn(used: seq<bool>, hand: nat, u: nat): nat
    requires hand < |used| && u < |used|
  {
    Ahead(hand, u, |used|) + if used[u] then |used| else 0
  }

  lemma HandMoves(hand: nat, u: nat, S: nat)
    requires hand < S && u < S
    ensures Ahead(Next(hand, S), u, S) == if u == hand then S - 1 else Ahead(hand, u, S) - 1
    ensures Ahead(hand, u, S) == 0 <==> u == hand
    ensures Ahead(hand, u, S) < S
  {
  }

  // Where a sweep ends, and which marks it has taken off by then.
  ghost predicate SweptTo(used: seq<bool>, pinned: seq<bool>, hand: nat, r: Swept)
    requires |used| == |pinned| == |r.used| && hand < |used| && r.seat < |used|
  {
    && (r.probes == Ahead(hand, r.seat, |used|) + 1 || r.probes == Ahead(hand, r.seat, |used|) + |used| + 1)
    && r.hand == Next(r.seat, |used|)
    && (r.broke && used[r.seat] ==> r.probes > |used|)
    && forall u :: 0 <= u < |used| ==> (r.used[u] <==> used[u] && (pinned[u] || Ahead(hand, u, |used|) >= r.probes))
  }

  lemma {:induction false} SweepIs(used: seq<bool>, pinned: seq<bool>, hand: nat, budget: nat)
    requires |used| == |pinned| && hand < |used| && 0 < budget <= 2 * |used|
    ensures SweptTo(used, pinned, hand, Sweep(used, pinned, hand, budget))
    decreases budget
  {
    hide SweptTo;
    if (pinned[hand] || used[hand]) && budget > 1 {
      var used' := if pinned[hand] then used else used[hand := false];
      SweepIs(used', pinned, Next(hand, |used|), budget - 1);
      SweptOneMore(used, used', pinned, hand, budget, Sweep(used', pinned, Next(hand, |used|), budget - 1));
    } else {
      SweptOnce(used, pinned, hand, budget);
    }
  }

  lemma SweptOnce(used: seq<bool>, pinned: seq<bool>, hand: nat, budget: nat)
    requires |used| == |pinned| && hand < |used| && budget > 0 && (budget == 1 || (!pinned[hand] && !used[hand]))
    ensures SweptTo(used, pinned, hand, Sweep(used, pinned, hand, budget))
  {
  }

  lemma SweptOneMore(used: seq<bool>, used': seq<bool>, pinned: seq<bool>, hand: nat, budget: nat, rest: Swept)
    requires |used| == |pinned| == |rest.used| && hand < |used| && rest.seat < |used|
    requires rest.probes < budget <= 2 * |used|
    requires (pinned[hand] || used[hand]) && used' == if pinned[hand] then used else used[hand := false]
    requires SweptTo(used', pinned, Next(hand, |used|), rest)
    ensures SweptTo(used, pinned, hand, rest.(probes := rest.probes + 1))
  {
    hide Next, Ahead;
    HandMoves(hand, rest.seat, |used|);
    var r := rest.(probes := rest.probes + 1);
    forall u | 0 <= u < |used|
      ensures r.used[u] <==> used[u] && (pinned[u] || Ahead(hand, u, |used|) >= r.probes)
    {
      HandMoves(hand, u, |used|);
    }
  }

  // While some seat is not pinned, the hand takes the one whose turn is first, and takes off
  // the mark of every seat not pinned that it has passed.
  lemma SweepTakesFirst(used: seq<bool>, pinned: seq<bool>, hand: nat, u: nat)
    requires |used| == |pinned| && hand < |used| && u < |used| && !pinned[u]
    ensures var r := Sweep(used, pinned, hand, 2 * |used|);
            && r.broke && !pinned[r.seat] && r.probes == Turn(used, hand, r.seat) + 1
            && r.hand == Next(r.seat, |used|)
            && Turn(used, hand, r.seat) <= Turn(used, hand, u)
            && (forall v :: 0 <= v < |used| ==> (r.used[v] <==> used[v] && (pinned[v] || Ahead(hand, v, |used|) >= r.probes)))
  {
    var r := Sweep(used, pinned, hand, 2 * |used|);
    HandMoves(hand, u, |used|);
    SweepIs(used, pinned, hand, 2 * |used|);
    SweepReaches(used, pinned, hand, 2 * |used|, u);
    HandMoves(hand, r.seat, |used|);
    if !used[r.seat] {
      SweepReaches(used, pinned, hand, 2 * |used|, r.seat);
    }
  }

  // ------------------------------------------------------------------- one request

  // What one request does, in terms of the seats: an id that is seated is marked and pinned
  // where it is, with nothing else changed; one that is not is marked and pinned in the seat
  // whose turn is first, and the hand stops behind it.
  lemma RequestIs(st: State, e: int, u: nat)
    requires st.Valid(|st.inSeat|) && u < |st.inSeat| && !st.pinned[u]
    ensures e in st.inSeat <==> e in st.where
    ensures var r, S := Request(st, e), |st.inSeat|;
            && e in r.where && r.where[e] < S == |r.used| == |r.pinned| == |r.inSeat|
            && var s := r.where[e];
            && r.inSeat == st.inSeat[s := e] && r.pinned == st.pinned[s := true] && r.used[s]
            && (if e in st.inSeat then
                  st.inSeat[s] == e && r.used == st.used[s := true] && r.hand == st.hand && r.misses == st.misses
                else
                  && !st.pinned[s] && Turn(st.used, st.hand, s) <= Turn(st.used, st.hand, u)
                  && r.hand == Next(s, S) && r.misses == st.misses + 1
                  && forall v :: 0 <= v < S && v != s ==>
                                   (r.used[v] <==> st.used[v] && (st.pinned[v] || Ahead(st.hand, v, S) > Turn(st.used, st.hand, s))))
  {
    if e in st.inSeat {
      SeatedIsWhere(st, e);
    } else {
      SweepTakesFirst(st.used, st.pinned, st.hand, u);
    }
  }

  // ---------------------------------------------------------------- the second chance

  // How far the hand travels to serve an id, and to serve several.
  function Probes(st: State, e: int): nat
    requires Clock.Shaped(st, |st.inSeat|) && |st.inSeat| > 0
  {
    if e in st.where then 0 else Sweep(st.used, st.pinned, st.hand, 2 * |st.inSeat|).probes
  }

  function Travel(st: State, ids: seq<int>): nat
    requires Clock.Shaped(st, |st.inSeat|) && |st.inSeat| > 0
  {
    if ids == [] then 0
    else
      var n := |ids| - 1;
      Travel(st, ids[..n]) + Probes(Serve(st, ids[..n]), ids[n])
  }

  // Seat s holds e, marked, and the hand has so far to go to it.
  ghost predicate Marked(st: State, s: nat, e: int, togo: int)
    requires Clock.Shaped(st, |st.inSeat|)
  {
    s < |st.inSeat| && st.inSeat[s] == e && st.used[s] && Ahead(st.hand, s, |st.inSeat|) == togo
  }

  // Once asked for, an id is seated and marked; a new cut takes no mark off.
  lemma AskedIsMarked(st: State, e: int)
    requires st.Valid(|st.inSeat|)
    ensures var r := Request(st, e);
            && r.Valid(|st.inSeat|) && e in r.where
            && Marked(r, r.where[e], e, Ahead(r.hand, r.where[e], |r.inSeat|))
            && Marked(r.(pinned := Cleared(|r.inSeat|)), r.where[e], e, Ahead(r.hand, r.where[e], |r.inSeat|))
  {
    RequestKeepsValid(st, e);
  }

  // A hand that does not get to the seat leaves it as it is.
  lemma RequestLeavesMarked(st: State, s: nat, e: int, togo: int, x: int)
    requires st.Valid(|st.inSeat|) && Marked(st, s, e, togo) && Probes(st, x) <= togo
    ensures Marked(Request(st, x), s, e, togo - Probes(st, x))
  {
    var S := |st.inSeat|;
    if x !in st.where {
      var r := Sweep(st.used, st.pinned, st.hand, 2 * S);
      SweepIs(st.used, st.pinned, st.hand, 2 * S);
      HandMoves(st.hand, s, S);
      HandMoves(st.hand, r.seat, S);
    }
  }

  // Served some ids, with the hand short of the seat, the id is still there and marked.
  lemma {:induction false} ServeLeavesMarked(st: State, s: nat, e: int, togo: int, ids: seq<int>)
    requires st.Valid(|st.inSeat|) && Marked(st, s, e, togo) && Travel(st, ids) <= togo
    ensures Serve(st, ids).Valid(|st.inSeat|)
    ensures Marked(Serve(st, ids), s, e, togo - Travel(st, ids))
  {
    hide Marked, Request, Probes, Clock.State.Valid;
    if ids != [] {
      var n := |ids| - 1;
      ServedShape(st, ids[..n]);
      ServeLeavesMarked(st, s, e, togo, ids[..n]);
      RequestKeepsValid(Serve(st, ids[..n]), ids[n]);
      RequestLeavesMarked(Serve(st, ids[..n]), s, e, togo - Travel(st, ids[..n]), ids[n]);
    }
  }

  lemma ServedShape(st: State, ids: seq<int>)
    requires st.Valid(|st.inSeat|)
    ensures Clock.Shaped(st, |st.inSeat|)
    ensures Clock.Shaped(Serve(st, ids), |st.inSeat|) && |Serve(st, ids).inSeat| == |st.inSeat|
    ensures Serve(st, ids).Valid(|st.inSeat|)
  {
    ServeKeepsValid(st, ids);
  }

  // On its next visit the hand passes a marked seat.
  lemma PassesMarked(st: State, s: nat, e: int, togo: int, x: int)
    requires st.Valid(|st.inSeat|) && Marked(st, s, e, togo) && x !in st.where && Probes(st, x) <= togo + |st.inSeat|
    ensures |Request(st, x).inSeat| == |st.inSeat| && Request(st, x).inSeat[s] == e
  {
    SweepIs(st.used, st.pinned, st.hand, 2 * |st.inSeat|);
    HandMoves(st.hand, s, |st.inSeat|);
    SweepStops(st);
  }

  lemma SweepStops(st: State)
    requires st.Valid(|st.inSeat|)
    ensures var r := Sweep(st.used, st.pinned, st.hand, 2 * |st.inSeat|); r.broke || r.probes == 2 * |st.inSeat|
  {
    SweepOutOfProbes(st.used, st.pinned, st.hand, 2 * |st.inSeat|);
  }

  lemma {:induction false} SweepOutOfProbes(used: seq<bool>, pinned: seq<bool>, hand: nat, budget: nat)
    requires |used| == |pinned| && hand < |used| && budget > 0
    ensures var r := Sweep(used, pinned, hand, budget); r.broke || r.probes == budget
    decreases budget
  {
    if (pinned[hand] || used[hand]) && budget > 1 {
      SweepOutOfProbes(if pinned[hand] then used else used[hand := false], pinned, Next(hand, |used|), budget - 1);
    }
  }

  // The second chance: asked for, and the hand not having reached its seat since, an id is
  // not what the hand takes on its next visit there, but on the one after at the earliest.
  lemma SecondChance(st: State, e: int, ids: seq<int>, x: int)
    requires st.Valid(|st.inSeat|)
    requires var asked := Request(st, e);
             Clock.Shaped(asked, |asked.inSeat|) && |asked.inSeat| > 0
             && e in asked.where && Travel(asked, ids) <= Ahead(asked.hand, asked.where[e], |asked.inSeat|)
    ensures var asked := Request(st, e);
            var s, now := asked.where[e], Serve(asked, ids);
            && s < |now.inSeat| == |st.inSeat| && now.inSeat[s] == e && now.used[s]
            && (x !in now.where && Probes(now, x) <= Ahead(now.hand, s, |st.inSeat|) + |st.inSeat| ==>
                  |Request(now, x).inSeat| == |st.inSeat| && Request(now, x).inSeat[s] == e)
  {
    hide Request, Serve, Travel, Probes;
    var asked := Request(st, e);
    var s, S := asked.where[e], |st.inSeat|;
    AskedIsMarked(st, e);
    ServedShape(asked, ids);
    ServeLeavesMarked(asked, s, e, Ahead(asked.hand, s, S), ids);
    var now := Serve(asked, ids);
    if x !in now.where && Probes(now, x) <= Ahead(now.hand, s, S) + S {
      PassesMarked(now, s, e, Ahead(now.hand, s, S), x);
    }
  }
}

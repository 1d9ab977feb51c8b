// How the surviving ranges of one remote shard are fetched: near ranges coalesced
// into one request, and the span cut back into one cached blob per tensor.

module Download {
  import opened Wrappers
  import opened Tensors
  import opened Sequences
  import opened Arithmetic

  const COALESCE_GAP: nat := 8 * 1024 * 1024

  ghost predicate SortedByStart(ts: seq<Fetch>) {
    forall i, j :: 0 <= i < j < |ts| ==> ts[i].lo <= ts[j].lo
  }

  // Close enough to ride in the same request as the one before it.
  predicate Near(prev: Fetch, next: Fetch) {
    next.lo - prev.hi <= COALESCE_GAP
  }

  ghost predicate Joined(grp: seq<Fetch>, i: nat)
    requires 0 < i < |grp|
  {
    grp[i].lo - grp[i - 1].hi <= COALESCE_GAP
  }

  ghost predicate Coalesced(grp: seq<Fetch>) {
    |grp| > 0 && forall i :: 0 < i < |grp| ==> Joined(grp, i)
  }

  function Last<T>(s: seq<T>): T
    requires s != []
  {
    s[|s| - 1]
  }

  // A new group starts only where the gap is too wide.
  ghost predicate Parted(groups: seq<seq<Fetch>>, g: nat)
    requires 0 < g < |groups|
  {
    groups[g - 1] != [] && groups[g] != [] && groups[g][0].lo - Last(groups[g - 1]).hi > COALESCE_GAP
  }

  ghost predicate Grouped(ts: seq<Fetch>, groups: seq<seq<Fetch>>) {
    && Concat(groups) == ts
    && (forall g :: 0 <= g < |groups| ==> Coalesced(groups[g]))
    && (forall g :: 0 < g < |groups| ==> Parted(groups, g))
  }

  lemma JoinsLast(groups: seq<seq<Fetch>>, ts: seq<Fetch>, t: Fetch)
    requires Grouped(ts, groups) && groups != [] && Near(Last(Last(groups)), t)
    ensures Grouped(ts + [t], groups[|groups| - 1 := Last(groups) + [t]])
  {
    var n := |groups| - 1;
    var grp, more := groups[n], groups[n] + [t];
    var groups' := groups[n := more];
    assert groups'[..n] == groups[..n];
    forall i | 0 < i < |more| ensures Joined(more, i) {
      assert i < |grp| ==> Joined(grp, i);
    }
    forall g | 0 < g < |groups'| ensures Parted(groups', g) {
      assert Parted(groups, g);
    }
  }

  lemma StartsNew(groups: seq<seq<Fetch>>, ts: seq<Fetch>, t: Fetch)
    requires Grouped(ts, groups) && (groups != [] ==> !Near(Last(Last(groups)), t))
    ensures Grouped(ts + [t], groups + [[t]])
  {
    var groups' := groups + [[t]];
    assert groups'[..|groups|] == groups;
    forall g | 0 < g < |groups'| ensures Parted(groups', g) {
      assert g < |groups| ==> Parted(groups, g);
    }
  }

  // The grouping loop of one shard's tensors, in order of their start.
  method GroupSpans(ts: seq<Fetch>) returns (groups: seq<seq<Fetch>>)
    ensures Grouped(ts, groups)
  {
    groups := [];
    for k := 0 to |ts|
      invariant Grouped(ts[..k], groups)
    {
      hide Grouped;
      assert ts[..k + 1] == ts[..k] + [ts[k]];
      GroupsAreFull(ts[..k], groups);
      if groups != [] && Near(Last(Last(groups)), ts[k]) {
        JoinsLast(groups, ts[..k], ts[k]);
        groups := groups[|groups| - 1 := Last(groups) + [ts[k]]];
      } else {
        StartsNew(groups, ts[..k], ts[k]);
        groups := groups + [[ts[k]]];
      }
    }
    assert ts[..|ts|] == ts;
  }

  lemma GroupsAreFull(ts: seq<Fetch>, groups: seq<seq<Fetch>>)
    requires Grouped(ts, groups)
    ensures groups != [] ==> Last(groups) != []
  {
    if groups != [] {
      assert Coalesced(groups[|groups| - 1]);
    }
  }

  // ----------------------------------------------------------- what a span costs

  function KeptBytes(grp: seq<Fetch>): int {
    if grp == [] then 0 else KeptBytes(grp[..|grp| - 1]) + (Last(grp).hi - Last(grp).lo)
  }

  // `max(t.keep_end for t in grp)`
  function MaxEnd(grp: seq<Fetch>): int
    requires grp != []
  {
    if |grp| == 1 then grp[0].hi
    else
      var before := MaxEnd(grp[..|grp| - 1]);
      if before < Last(grp).hi then Last(grp).hi else before
  }

  lemma {:induction false} MaxEndBounds(grp: seq<Fetch>, i: nat)
    requires i < |grp|
    ensures grp[i].hi <= MaxEnd(grp)
  {
    if i < |grp| - 1 {
      MaxEndBounds(grp[..|grp| - 1], i);
    }
  }

  lemma {:induction false} MaxEndAttained(grp: seq<Fetch>) returns (i: nat)
    requires grp != []
    ensures i < |grp| && grp[i].hi == MaxEnd(grp)
  {
    i := |grp| - 1;
    if |grp| > 1 && MaxEnd(grp[..|grp| - 1]) >= Last(grp).hi {
      i := MaxEndAttained(grp[..|grp| - 1]);
    }
  }

  // What a request fetches beyond its tensors' own bytes: at most one gap a join,
  // however the tensors' ranges overlap.
  lemma {:induction false} SpanWaste(grp: seq<Fetch>)
    requires Coalesced(grp) && forall i :: 0 <= i < |grp| ==> grp[i].lo <= grp[i].hi
    ensures MaxEnd(grp) - grp[0].lo <= KeptBytes(grp) + COALESCE_GAP * (|grp| - 1)
  {
    var k := |grp| - 1;
    var init := grp[..k];
    if k > 0 {
      forall i | 0 < i < k ensures Joined(init, i) {
        assert Joined(grp, i);
      }
      SpanWaste(init);
      MaxEndBounds(init, k - 1);
      assert Joined(grp, k);
    }
  }

  // -------------------------------------------------------------------- fetching

  // Every range runs forward, and two tensors that share a key want the same bytes.
  ghost predicate Fetchable(ts: seq<Fetch>, shard: Bytes) {
    && (forall t :: t in ts ==> 0 <= t.lo <= t.hi)
    && (forall t, u :: t in ts && u in ts && t.key == u.key ==> t.Got(shard) == u.Got(shard))
  }

  // What is cached for these tensors is what belongs there.
  ghost predicate Right(cache: Cache, ts: seq<Fetch>, shard: Bytes) {
    forall t :: t in ts && t.key in cache ==> t.Got(shard) == Some(cache[t.key])
  }

  ghost predicate Extends(more: Cache, cache: Cache) {
    cache.Keys <= more.Keys && forall k :: k in cache ==> more[k] == cache[k]
  }

  ghost predicate AllCached(cache: Cache, ts: seq<Fetch>) {
    forall t :: t in ts ==> t.key in cache
  }

  // Some range runs past the end of the shard.
  ghost predicate RunsPast(ts: seq<Fetch>, shard: Bytes) {
    exists t :: t in ts && t.Got(shard).None?
  }

  // A tensor's range, read out of the span fetched for its group.
  lemma SpanHoldsTensor(shard: Bytes, lo: int, hi: int, t: Fetch)
    requires 0 <= lo <= t.lo <= t.hi <= hi <= |shard|
    ensures t.Got(shard) == Some(shard[lo..hi][t.lo - lo..][..t.hi - t.lo])
  {
    assert shard[lo..hi][t.lo - lo..][..t.hi - t.lo] == shard[t.lo..t.hi];
  }

  lemma CacheOne(cache: Cache, ts: seq<Fetch>, shard: Bytes, t: Fetch, bytes: Bytes)
    requires Fetchable(ts, shard) && Right(cache, ts, shard) && t in ts && t.key !in cache && t.Got(shard) == Some(bytes)
    ensures Right(cache[t.key := bytes], ts, shard) && Extends(cache[t.key := bytes], cache)
  {
  }

  lemma SpanBounds(grp: seq<Fetch>, k: nat, ts: seq<Fetch>, shard: Bytes)
    requires k < |grp| && SortedByStart(grp) && Fetchable(ts, shard) && forall t :: t in grp ==> t in ts
    ensures 0 <= grp[0].lo <= grp[k].lo <= grp[k].hi <= MaxEnd(grp)
  {
    MaxEndBounds(grp, k);
    assert grp[0] in grp && grp[k] in grp;
  }

  lemma SpanTooLong(grp: seq<Fetch>, shard: Bytes)
    requires grp != [] && MaxEnd(grp) > |shard|
    ensures RunsPast(grp, shard)
  {
    var i := MaxEndAttained(grp);
    assert grp[i] in grp && grp[i].Got(shard).None?;
  }

  // One request, and its span handed out to the group's tensors. None is a span the
  // shard is too short for.
  method FetchGroup(shard: Bytes, grp: seq<Fetch>, cache0: Cache, ghost ts: seq<Fetch>) returns (r: Option<Cache>)
    requires grp != [] && SortedByStart(grp) && Fetchable(ts, shard) && forall t :: t in grp ==> t in ts
    requires Right(cache0, ts, shard)
    ensures r.Some? ==> Extends(r.value, cache0) && Right(r.value, ts, shard)
                        && AllCached(r.value, grp) && OnlyThese(r.value, cache0, grp)
    ensures r.None? ==> RunsPast(grp, shard)
  {
    hide Right, Fetchable, SortedByStart, RunsPast;
    if forall t :: t in grp ==> t.key in cache0 {
      return Some(cache0);
    }
    var lo, hi := grp[0].lo, MaxEnd(grp);
    SpanBounds(grp, 0, ts, shard);
    if hi > |shard| {
      SpanTooLong(grp, shard);
      return None;
    }
    var span := shard[lo..hi];
    var cache := cache0;
    for k := 0 to |grp|
      invariant Extends(cache, cache0) && Right(cache, ts, shard) && OnlyThese(cache, cache0, grp)
      invariant forall j :: 0 <= j < k ==> grp[j].key in cache
    {
      var t := grp[k];
      if t.key !in cache {
        SpanBounds(grp, k, ts, shard);
        SpanHoldsTensor(shard, lo, hi, t);
        CacheOne(cache, ts, shard, t, span[t.lo - lo..][..t.hi - t.lo]);
        cache := cache[t.key := span[t.lo - lo..][..t.hi - t.lo]];
      }
    }
    r := Some(cache);
  }

  lemma {:induction false} GroupsHold(groups: seq<seq<Fetch>>, g: nat)
    requires g < |groups|
    ensures forall t :: t in groups[g] ==> t in Concat(groups)
    ensures SortedByStart(Concat(groups)) ==> SortedByStart(groups[g])
  {
    var init, last := groups[..|groups| - 1], Last(groups);
    var all := Concat(groups);
    if g < |groups| - 1 {
      GroupsHold(init, g);
      if SortedByStart(all) {
        forall i, j | 0 <= i < j < |Concat(init)| ensures Concat(init)[i].lo <= Concat(init)[j].lo {
          assert all[i] == Concat(init)[i] && all[j] == Concat(init)[j];
        }
      }
    } else if SortedByStart(all) {
      var n := |Concat(init)|;
      forall i, j | 0 <= i < j < |last| ensures last[i].lo <= last[j].lo {
        assert all[n + i] == last[i] && all[n + j] == last[j];
      }
    }
  }

  lemma {:induction false} AllCachedConcat(cache: Cache, groups: seq<seq<Fetch>>)
    requires forall g :: 0 <= g < |groups| ==> AllCached(cache, groups[g])
    ensures AllCached(cache, Concat(groups))
  {
    if groups != [] {
      AllCachedConcat(cache, groups[..|groups| - 1]);
      assert AllCached(cache, Last(groups));
    }
  }

  // All that one shard is asked for, its ranges in order of their start. Whatever
  // was cached stays, and every tensor's blob ends up holding exactly its range,
  // unless one of them runs past the shard's end.
  method DownloadShard(shard: Bytes, ts: seq<Fetch>, cache0: Cache) returns (r: Option<Cache>)
    requires SortedByStart(ts) && Fetchable(ts, shard) && Right(cache0, ts, shard)
    ensures r.Some? ==> Extends(r.value, cache0) && OnlyThese(r.value, cache0, ts)
    ensures r.Some? ==> forall t :: t in ts ==> t.key in r.value && t.Got(shard) == Some(r.value[t.key])
    ensures r.None? <==> RunsPast(ts, shard)
  {
    hide Coalesced, SortedByStart, MaxEnd, Parted;
    var groups := GroupSpans(ts);
    var cache := cache0;
    for g := 0 to |groups|
      invariant Extends(cache, cache0) && Right(cache, ts, shard) && OnlyThese(cache, cache0, ts)
      invariant forall i :: 0 <= i < g ==> AllCached(cache, groups[i])
    {
      hide Fetchable, Right;
      GroupsHold(groups, g);
      NoEmptyGroup(ts, groups, g);
      var more := FetchGroup(shard, groups[g], cache, ts);
      if more.None? {
        return None;
      }
      cache := more.value;
    }
    AllCachedConcat(cache, groups);
    r := Some(cache);
  }

  lemma NoEmptyGroup(ts: seq<Fetch>, groups: seq<seq<Fetch>>, g: nat)
    requires Grouped(ts, groups) && g < |groups|
    ensures groups[g] != []
  {
    assert Coalesced(groups[g]);
  }

  // ------------------------------------------------------------ every shard's turn

  // `list.sort(key=lambda t: t.fetch_start)`
  function Insert(t: Fetch, ts: seq<Fetch>): seq<Fetch> {
    if ts == [] || t.lo <= ts[0].lo then [t] + ts else [ts[0]] + Insert(t, ts[1..])
  }

  function Sorted(ts: seq<Fetch>): seq<Fetch> {
    if ts == [] then [] else Insert(ts[0], Sorted(ts[1..]))
  }

  lemma {:induction false} InsertKeeps(t: Fetch, ts: seq<Fetch>)
    ensures multiset(Insert(t, ts)) == multiset(ts) + multiset{t}
  {
    if ts != [] && t.lo > ts[0].lo {
      InsertKeeps(t, ts[1..]);
      assert ts == [ts[0]] + ts[1..];
    }
  }

  lemma {:induction false} InsertSorts(t: Fetch, ts: seq<Fetch>)
    requires SortedByStart(ts)
    ensures SortedByStart(Insert(t, ts))
    ensures forall j :: 0 <= j < |Insert(t, ts)| ==> Insert(t, ts)[j] == t || Insert(t, ts)[j] in ts
  {
    if ts != [] && t.lo > ts[0].lo {
      InsertSorts(t, ts[1..]);
    }
  }

  lemma {:induction false} SortedSorts(ts: seq<Fetch>)
    ensures SortedByStart(Sorted(ts)) && multiset(Sorted(ts)) == multiset(ts)
  {
    if ts != [] {
      SortedSorts(ts[1..]);
      InsertSorts(ts[0], Sorted(ts[1..]));
      InsertKeeps(ts[0], Sorted(ts[1..]));
      assert ts == [ts[0]] + ts[1..];
    }
  }

  lemma SortedSame(ts: seq<Fetch>)
    ensures forall t :: t in Sorted(ts) <==> t in ts
  {
    SortedSorts(ts);
    forall t ensures t in Sorted(ts) <==> t in ts {
      assert t in Sorted(ts) <==> t in multiset(Sorted(ts));
      assert t in ts <==> t in multiset(ts);
    }
  }

  // A key means the same bytes wherever it is used.
  ghost predicate FetchableAll(byShard: map<string, seq<Fetch>>, remote: map<string, Bytes>) {
    && byShard.Keys <= remote.Keys
    && (forall s, t :: s in byShard && t in byShard[s] ==> 0 <= t.lo <= t.hi)
    && (forall s, u, t, v :: s in byShard && u in byShard && t in byShard[s] && v in byShard[u] && t.key == v.key ==>
                               t.Got(remote[s]) == v.Got(remote[u]))
  }

  ghost predicate RightAll(cache: Cache, byShard: map<string, seq<Fetch>>, remote: map<string, Bytes>)
    requires FetchableAll(byShard, remote)
  {
    forall s, t :: s in byShard && t in byShard[s] && t.key in cache ==> t.Got(remote[s]) == Some(cache[t.key])
  }

  ghost predicate FilledAll(cache: Cache, byShard: map<string, seq<Fetch>>, remote: map<string, Bytes>)
    requires FetchableAll(byShard, remote)
  {
    forall s, t :: s in byShard && t in byShard[s] ==> t.key in cache && t.Got(remote[s]) == Some(cache[t.key])
  }

  ghost predicate SomeRunsPast(byShard: map<string, seq<Fetch>>, remote: map<string, Bytes>)
    requires FetchableAll(byShard, remote)
  {
    exists s :: s in byShard && RunsPast(byShard[s], remote[s])
  }

  // Nothing is cached that was neither there before nor asked for here.
  ghost predicate OnlyThese(cache: Cache, cache0: Cache, ts: seq<Fetch>) {
    forall k :: k in cache ==> k in cache0 || exists t :: t in ts && t.key == k
  }

  // Every shard's tensors are cached, but for some shards yet to come.
  ghost predicate CachedBut(cache: Cache, byShard: map<string, seq<Fetch>>, left: set<string>) {
    forall s :: s in byShard && s !in left ==> AllCached(cache, byShard[s])
  }

  lemma NothingDone(byShard: map<string, seq<Fetch>>)
    ensures forall cache: Cache :: CachedBut(cache, byShard, byShard.Keys) && Extends(cache, cache)
  {
  }

  // One shard's tensors are in the cache as they should be, and nothing else is new.
  lemma ShardDone(cache: Cache, before: Cache, cache0: Cache, byShard: map<string, seq<Fetch>>, remote: map<string, Bytes>,
                  shard: string, left: set<string>)
    requires FetchableAll(byShard, remote) && RightAll(before, byShard, remote) && shard in byShard
    requires Extends(before, cache0) && CachedBut(before, byShard, left)
    requires Extends(cache, before) && OnlyThese(cache, before, Sorted(byShard[shard]))
    requires forall t :: t in Sorted(byShard[shard]) ==> t.key in cache && t.Got(remote[shard]) == Some(cache[t.key])
    ensures RightAll(cache, byShard, remote) && Extends(cache, cache0) && CachedBut(cache, byShard, left - {shard})
  {
    hide FetchableAll, RightAll, OnlyThese, Sorted;
    SortedSame(byShard[shard]);
    StillRight(cache, before, byShard, remote, shard);
  }

  lemma StillRight(cache: Cache, before: Cache, byShard: map<string, seq<Fetch>>, remote: map<string, Bytes>, shard: string)
    requires FetchableAll(byShard, remote) && RightAll(before, byShard, remote) && shard in byShard
    requires Extends(cache, before) && OnlyThese(cache, before, Sorted(byShard[shard]))
    requires forall t :: t in byShard[shard] ==> t.key in cache && t.Got(remote[shard]) == Some(cache[t.key])
    ensures RightAll(cache, byShard, remote)
  {
    hide Sorted;
    SortedSame(byShard[shard]);
    forall s, v | s in byShard && v in byShard[s] && v.key in cache ensures v.Got(remote[s]) == Some(cache[v.key]) {
      if v.key !in before {
        var t :| t in Sorted(byShard[shard]) && t.key == v.key;
        assert t in byShard[shard];
      }
    }
  }

  lemma OneRunsPast(byShard: map<string, seq<Fetch>>, remote: map<string, Bytes>, shard: string)
    requires FetchableAll(byShard, remote) && shard in byShard && RunsPast(Sorted(byShard[shard]), remote[shard])
    ensures SomeRunsPast(byShard, remote)
  {
    SortedSame(byShard[shard]);
    assert RunsPast(byShard[shard], remote[shard]);
  }

  lemma AllDone(cache: Cache, byShard: map<string, seq<Fetch>>, remote: map<string, Bytes>, left: set<string>)
    requires FetchableAll(byShard, remote) && RightAll(cache, byShard, remote) && CachedBut(cache, byShard, left) && |left| == 0
    ensures FilledAll(cache, byShard, remote) && !SomeRunsPast(byShard, remote)
  {
    forall s, t | s in byShard && t in byShard[s] ensures t.key in cache && t.Got(remote[s]) == Some(cache[t.key]) {
      assert AllCached(cache, byShard[s]);
    }
  }

  // The download loop over `by_shard`: in the end every tensor's blob is its range. None
  // exactly when some range runs past the end of its shard.
  method DownloadAll(remote: map<string, Bytes>, byShard: map<string, seq<Fetch>>, cache0: Cache) returns (r: Option<Cache>)
    requires FetchableAll(byShard, remote) && RightAll(cache0, byShard, remote)
    ensures r.Some? ==> Extends(r.value, cache0) && FilledAll(r.value, byShard, remote)
    ensures r.None? <==> SomeRunsPast(byShard, remote)
  {
    hide *;
    var cache := cache0;
    NothingDone(byShard);
    var left := byShard.Keys;
    while |left| > 0
      invariant left <= byShard.Keys && Extends(cache, cache0) && RightAll(cache, byShard, remote)
      invariant CachedBut(cache, byShard, left)
      decreases |left|
    {
      ghost var some := AnyOf(left);
      var s :| s in left;
      ghost var before := cache;
      SortedSame(byShard[s]);
      SortedSorts(byShard[s]);
      ShardPart(cache, byShard, remote, s);
      var more := DownloadShard(remote[s], Sorted(byShard[s]), cache);
      if more.None? {
        OneRunsPast(byShard, remote, s);
        return None;
      }
      cache := more.value;
      ShardDone(cache, before, cache0, byShard, remote, s, left);
      left := left - {s};
    }
    AllDone(cache, byShard, remote, left);
    r := Some(cache);
  }

  lemma ShardPart(cache: Cache, byShard: map<string, seq<Fetch>>, remote: map<string, Bytes>, s: string)
    requires FetchableAll(byShard, remote) && RightAll(cache, byShard, remote) && s in byShard
    ensures s in remote && Fetchable(Sorted(byShard[s]), remote[s]) && Right(cache, Sorted(byShard[s]), remote[s])
  {
    SortedSame(byShard[s]);
  }

  // ------------------------------------------------------- tensors, by their names

  // A tensor's blob is its range, as the download leaves it.
  ghost predicate WindowCached(cache: Cache, t: SrcTensor, remote: map<string, Bytes>)
    requires t.shard in remote
    reads t
  {
    t.CacheKey() in cache && t.Fetched().Got(remote[t.shard]) == Some(cache[t.CacheKey()])
  }

  // Tensors of known shards, none of which is cached under another's key with other bytes.
  ghost predicate Askable(ts: seq<SrcTensor>, remote: map<string, Bytes>)
    reads ts
  {
    && (forall k :: 0 <= k < |ts| ==> ts[k].shard in remote && ts[k].start <= ts[k].end)
    && (forall j, k :: 0 <= j < |ts| && 0 <= k < |ts| && ts[j].CacheKey() == ts[k].CacheKey() ==>
                         ts[j].Fetched().Got(remote[ts[j].shard]) == ts[k].Fetched().Got(remote[ts[k].shard]))
  }

  // What is asked of each shard is what the first n tensors want of it.
  ghost predicate Asked(byShard: map<string, seq<Fetch>>, ts: seq<SrcTensor>, n: nat)
    requires n <= |ts|
    reads ts
  {
    && (forall k :: 0 <= k < n ==> ts[k].shard in byShard && ts[k].Fetched() in byShard[ts[k].shard])
    && (forall s, f :: s in byShard && f in byShard[s] ==> WantedBy(ts, n, s, f))
    && (forall s :: s in byShard ==> byShard[s] != [])
  }

  ghost predicate WantedBy(ts: seq<SrcTensor>, n: nat, s: string, f: Fetch)
    requires n <= |ts|
    reads ts
  {
    exists k :: 0 <= k < n && ts[k].shard == s && ts[k].Fetched() == f
  }

  // One more range asked of a shard.
  function AskMore(byShard: map<string, seq<Fetch>>, shard: string, f: Fetch): map<string, seq<Fetch>> {
    byShard[shard := (if shard in byShard then byShard[shard] else []) + [f]]
  }

  lemma AskMoreIs(byShard: map<string, seq<Fetch>>, shard: string, f: Fetch)
    ensures var now := AskMore(byShard, shard, f);
            && (forall s :: s in now <==> s in byShard || s == shard)
            && (forall s, g :: s in now ==> (g in now[s] <==> (s in byShard && g in byShard[s]) || (s == shard && g == f)))
  {
  }

  // `by_shard.setdefault(...).append(...)`
  method ByShard(ts: seq<SrcTensor>) returns (byShard: map<string, seq<Fetch>>)
    ensures Asked(byShard, ts, |ts|)
  {
    hide *;
    byShard := map[];
    NothingAsked(ts);
    for k := 0 to |ts|
      invariant Asked(byShard, ts, k)
    {
      OneMoreAsked(byShard, ts, k);
      byShard := AskMore(byShard, ts[k].shard, ts[k].Fetched());
    }
  }

  lemma NothingAsked(ts: seq<SrcTensor>)
    ensures Asked(map[], ts, 0)
  {
  }

  lemma OneMoreAsked(byShard: map<string, seq<Fetch>>, ts: seq<SrcTensor>, k: nat)
    requires k < |ts| && Asked(byShard, ts, k)
    ensures Asked(AskMore(byShard, ts[k].shard, ts[k].Fetched()), ts, k + 1)
  {
    hide WantedBy, AskMore, SrcTensor.Fetched;
    AskMoreIs(byShard, ts[k].shard, ts[k].Fetched());
    StillWanted(byShard, ts, k);
    WantedLast(ts, k);
    var now := AskMore(byShard, ts[k].shard, ts[k].Fetched());
    forall s | s in now ensures now[s] != [] {
      if s in byShard {
        assert byShard[s][0] in now[s];
      } else {
        assert ts[k].Fetched() in now[s];
      }
    }
  }

  lemma StillWanted(byShard: map<string, seq<Fetch>>, ts: seq<SrcTensor>, k: nat)
    requires k < |ts| && Asked(byShard, ts, k)
    ensures forall s, f :: s in byShard && f in byShard[s] ==> WantedBy(ts, k + 1, s, f)
  {
    forall s, f | s in byShard && f in byShard[s] ensures WantedBy(ts, k + 1, s, f) {
      assert WantedBy(ts, k, s, f);
    }
  }

  lemma WantedLast(ts: seq<SrcTensor>, k: nat)
    requires k < |ts|
    ensures WantedBy(ts, k + 1, ts[k].shard, ts[k].Fetched())
  {
  }

  lemma AskedIsFetchable(byShard: map<string, seq<Fetch>>, ts: seq<SrcTensor>, remote: map<string, Bytes>)
    requires Asked(byShard, ts, |ts|) && Askable(ts, remote)
    ensures FetchableAll(byShard, remote)
  {
    forall s | s in byShard ensures s in remote {
      assert WantedBy(ts, |ts|, s, byShard[s][0]);
    }
    forall s, f | s in byShard && f in byShard[s] ensures 0 <= f.lo <= f.hi {
      assert WantedBy(ts, |ts|, s, f);
      var k :| 0 <= k < |ts| && ts[k].shard == s && ts[k].Fetched() == f;
      RangeForward(ts[k]);
    }
    forall s, u, f, g | s in byShard && u in byShard && f in byShard[s] && g in byShard[u] && f.key == g.key
      ensures f.Got(remote[s]) == g.Got(remote[u])
    {
      assert WantedBy(ts, |ts|, s, f) && WantedBy(ts, |ts|, u, g);
    }
  }

  lemma RangeForward(t: SrcTensor)
    requires t.start <= t.end
    ensures 0 <= t.Fetched().lo <= t.Fetched().hi
  {
    var width := t.RowBytes();
    hide SrcTensor.RowBytes;
    WidthNonNegative(t);
    MulMonotone(0, t.keepFrom, width);
    if t.keepRows.Some? {
      MulMonotone(0, t.keepRows.value, width);
    }
  }

  lemma WidthNonNegative(t: SrcTensor)
    requires t.start <= t.end
    ensures t.RowBytes() >= 0
  {
  }

  // The whole tensor survives: no window, no rows to window, or every row in it.
  ghost predicate Whole(t: SrcTensor)
    reads t
  {
    t.keepFrom == 0 && (t.keepRows.None? || t.shape == [] || t.shape[0] <= t.keepRows.value)
  }

  // The bytes of a row: as many as go into the tensor once for each row, or all of them.
  ghost predicate IsRowWidth(t: SrcTensor, width: int) {
    if t.shape != [] && t.shape[0] > 0 then width * t.shape[0] <= t.end - t.start < (width + 1) * t.shape[0]
    else width == t.end - t.start
  }

  lemma RowWidthIs(t: SrcTensor, width: int)
    requires IsRowWidth(t, width)
    ensures t.RowBytes() == width
  {
    if t.shape != [] && t.shape[0] > 0 {
      var bytes, rows := t.end - t.start, t.shape[0];
      assert bytes == width * rows + (bytes - width * rows);
      DivModUnique(rows, width, bytes - width * rows);
    }
  }

  // The range of any tensor: all its bytes if it is whole, or has no rows to choose from;
  // else the rows of its window.
  lemma RangeIs(t: SrcTensor, width: int)
    requires IsRowWidth(t, width)
    ensures Whole(t) ==> t.Fetched().lo == t.start && t.Fetched().hi == t.end
    ensures t.Fetched().lo == t.start + t.keepFrom * width
    ensures t.keepRows.None? || t.shape == [] ==> t.Fetched().hi - t.Fetched().lo == t.end - t.start
    ensures t.keepRows.Some? && t.shape != [] && !Whole(t) ==>
              t.Fetched().hi - t.Fetched().lo == width * t.keepRows.value
  {
    RowWidthIs(t, width);
  }

  lemma SomeRowWidth(t: SrcTensor) returns (width: int)
    ensures IsRowWidth(t, width)
  {
    width := t.end - t.start;
    if t.shape != [] && t.shape[0] > 0 {
      var bytes, rows := t.end - t.start, t.shape[0];
      width := bytes / rows;
      assert bytes == width * rows + bytes % rows;
    }
  }

  // A whole tensor's blob is its own bytes of the shard, from its start to its end.
  ghost predicate WholeCached(cache: Cache, t: SrcTensor, remote: map<string, Bytes>)
    requires t.shard in remote
    reads t
  {
    && t.start <= t.end <= |remote[t.shard]| && t.CacheKey() in cache
    && cache[t.CacheKey()] == remote[t.shard][t.start..t.end]
  }

  lemma WholeIsCached(cache: Cache, t: SrcTensor, remote: map<string, Bytes>)
    requires t.shard in remote && t.start <= t.end && Whole(t) && WindowCached(cache, t, remote)
    ensures WholeCached(cache, t, remote)
  {
    var width := SomeRowWidth(t);
    RangeIs(t, width);
  }

  // The download: every tensor's blob is its range, and a whole one's all its bytes; or
  // some range runs past its shard.
  method FetchAll(remote: map<string, Bytes>, ts: seq<SrcTensor>) returns (r: Option<Cache>)
    requires Askable(ts, remote)
    ensures r.Some? <==> forall k :: 0 <= k < |ts| ==> ts[k].Fetched().Got(remote[ts[k].shard]).Some?
    ensures r.Some? ==> forall k :: 0 <= k < |ts| ==> WindowCached(r.value, ts[k], remote)
    ensures r.Some? ==> forall k :: 0 <= k < |ts| && Whole(ts[k]) ==> WholeCached(r.value, ts[k], remote)
  {
    hide *;
    var byShard := ByShard(ts);
    AskedIsFetchable(byShard, ts, remote);
    NothingRight(byShard, remote);
    r := DownloadAll(remote, byShard, map[]);
    AskedIsAll(r, byShard, ts, remote);
    if r.Some? {
      WholeAreCached(r.value, ts, remote);
    }
  }

  lemma WholeAreCached(cache: Cache, ts: seq<SrcTensor>, remote: map<string, Bytes>)
    requires Askable(ts, remote)
    requires forall k :: 0 <= k < |ts| ==> WindowCached(cache, ts[k], remote)
    ensures forall k :: 0 <= k < |ts| && Whole(ts[k]) ==> WholeCached(cache, ts[k], remote)
  {
    hide WholeCached, WindowCached, Whole;
    forall k | 0 <= k < |ts| && Whole(ts[k]) ensures WholeCached(cache, ts[k], remote) {
      WholeIsCached(cache, ts[k], remote);
    }
  }

  lemma NothingRight(byShard: map<string, seq<Fetch>>, remote: map<string, Bytes>)
    requires FetchableAll(byShard, remote)
    ensures RightAll(map[], byShard, remote)
  {
  }

  lemma AskedIsAll(r: Option<Cache>, byShard: map<string, seq<Fetch>>, ts: seq<SrcTensor>, remote: map<string, Bytes>)
    requires Askable(ts, remote) && Asked(byShard, ts, |ts|) && FetchableAll(byShard, remote)
    requires r.Some? ==> FilledAll(r.value, byShard, remote)
    requires r.None? <==> SomeRunsPast(byShard, remote)
    ensures forall k :: 0 <= k < |ts| ==> ts[k].shard in remote
    ensures r.Some? <==> forall k :: 0 <= k < |ts| ==> ts[k].Fetched().Got(remote[ts[k].shard]).Some?
    ensures r.Some? ==> forall k :: 0 <= k < |ts| ==> WindowCached(r.value, ts[k], remote)
  {
    if r.None? {
      var s :| s in byShard && RunsPast(byShard[s], remote[s]);
      var f :| f in byShard[s] && f.Got(remote[s]).None?;
      assert WantedBy(ts, |ts|, s, f);
    }
  }
}

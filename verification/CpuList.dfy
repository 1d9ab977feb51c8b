// A set of CPUs as the kernel writes it, "0-3,8,10-11", and back.

module CpuList {
  import opened Wrappers
  import opened Sequences
  import opened Text

  datatype Range = Range(lo: nat, hi: nat) {
    function Text(): string {
      if lo != hi then Decimal(lo) + "-" + Decimal(hi) else Decimal(lo)
    }

    // From a start up to a last one.
    ghost predicate Has(x: int) {
      lo <= x <= hi
    }
  }

  // ----------------------------------------------------------------------- parsing

  function Between(lo: int, hi: int): (s: set<int>)
    ensures forall x :: x in s <==> lo <= x <= hi
    decreases hi - lo + 1
  {
    if hi < lo then {} else Between(lo, hi - 1) + {hi}
  }

  // One stripped part; None is a ValueError.
  function PartCpus(part: string): Option<set<int>> {
    if part == "" then Some({})
    else
      match SplitOnce(part, '-')
      case Some((lo, hi)) =>
        var l, h := Int(lo), Int(hi);
        if l.None? || h.None? then None else Some(Between(l.value, h.value))
      case None =>
        match Int(part)
        case None => None
        case Some(n) => Some({n})
  }

  function AllCpus(parts: seq<string>): Option<set<int>> {
    if parts == [] then Some({})
    else
      var n := |parts| - 1;
      var before, last := AllCpus(parts[..n]), PartCpus(Strip(parts[n]));
      if before.None? || last.None? then None else Some(before.value + last.value)
  }

  // `_parse_cpu_list`
  method ParseCpuList(spec: string) returns (cpus: Option<set<int>>)
    ensures cpus == AllCpus(Split(spec, ','))
  {
    var parts := Split(spec, ',');
    var found := {};
    for k := 0 to |parts|
      invariant AllCpus(parts[..k]) == Some(found)
    {
      var part := PartCpus(Strip(parts[k]));
      assert parts[..k + 1][..k] == parts[..k];
      if part.None? {
        FailsOnce(parts, k + 1);
        return None;
      }
      found := found + part.value;
    }
    assert parts[..|parts|] == parts;
    return Some(found);
  }

  // A bad part fails the whole list.
  lemma {:induction false} FailsOnce(parts: seq<string>, k: nat)
    requires k <= |parts| && AllCpus(parts[..k]).None?
    ensures AllCpus(parts).None?
  {
    if k < |parts| {
      assert parts[..|parts| - 1][..k] == parts[..k];
      FailsOnce(parts[..|parts| - 1], k);
    } else {
      assert parts[..k] == parts;
    }
  }

  // -------------------------------------------------------------------- formatting

  // Ranges of a set: in order, with a gap between one and the next, and together the set.
  ghost predicate Canonical(ranges: seq<Range>, cpus: set<int>) {
    && (forall k :: 0 <= k < |ranges| ==> ranges[k].lo <= ranges[k].hi)
    && (forall j, k :: 0 <= j < k < |ranges| ==> ranges[j].hi + 1 < ranges[k].lo)
    && (forall x :: x in cpus <==> Covered(ranges, x))
  }

  ghost predicate Covered(ranges: seq<Range>, x: int) {
    exists k :: 0 <= k < |ranges| && ranges[k].Has(x)
  }

  function Texts(ranges: seq<Range>): (texts: seq<string>)
    ensures |texts| == |ranges|
  {
    seq(|ranges|, k requires 0 <= k < |ranges| => ranges[k].Text())
  }

  ghost predicate Increasing(xs: seq<nat>) {
    forall j, k :: 0 <= j < k < |xs| ==> xs[j] < xs[k]
  }

  ghost predicate Lists(xs: seq<nat>, cpus: set<nat>) {
    Increasing(xs) && forall x: nat :: x in cpus <==> x in xs
  }

  ghost predicate Below(xs: seq<nat>, rest: set<nat>) {
    forall x, y :: x in xs && y in rest ==> x < y
  }

  ghost predicate Least(s: set<nat>, m: nat) {
    m in s && forall y :: y in s ==> m <= y
  }

  // `sorted`
  method Sorted(cpus: set<nat>) returns (xs: seq<nat>)
    ensures Lists(xs, cpus)
  {
    hide Lists, Below;
    xs := [];
    var rest := cpus;
    NothingSorted(cpus);
    while |rest| > 0
      invariant rest <= cpus && Lists(xs, cpus - rest) && Below(xs, rest)
      decreases |rest|
    {
      HasLeast(rest);
      var x :| x in rest && forall y :: y in rest ==> x <= y;
      NextSorted(xs, cpus, rest, x);
      xs := xs + [x];
      rest := rest - {x};
    }
    assert cpus - rest == cpus;
  }

  lemma NothingSorted(cpus: set<nat>)
    ensures Lists([], cpus - cpus) && Below([], cpus)
  {
  }

  lemma NextSorted(xs: seq<nat>, cpus: set<nat>, rest: set<nat>, x: nat)
    requires rest <= cpus && Lists(xs, cpus - rest) && Below(xs, rest) && Least(rest, x)
    ensures Lists(xs + [x], cpus - (rest - {x})) && Below(xs + [x], rest - {x})
  {
    forall k | 0 <= k < |xs| ensures xs[k] < x {
      assert xs[k] in xs;
    }
    forall y: nat ensures y in cpus - (rest - {x}) <==> y in xs + [x] {
      assert y in cpus - rest <==> y in xs;
    }
  }

  lemma {:induction false} HasLeast(s: set<nat>)
    requires |s| > 0
    ensures exists m :: Least(s, m)
  {
    var x :| x in s;
    var rest := s - {x};
    assert s == rest + {x};
    if |rest| > 0 {
      HasLeast(rest);
      var m :| Least(rest, m);
      assert Least(s, if x < m then x else m);
    } else {
      assert Least(s, x);
    }
  }

  // `_format_cpu_list`
  method FormatCpuList(cpus: set<nat>) returns (text: string, ghost ranges: seq<Range>)
    ensures Canonical(ranges, cpus)
    ensures text == Join(Texts(ranges), ',')
    ensures AllCpus(Split(text, ',')) == Some(cpus)
  {
    hide AllCpus, Split;
    if |cpus| == 0 {
      RoundTrip([], cpus);
      return "", [];
    }
    var xs := Sorted(cpus);
    NotEmpty(xs, cpus);
    var texts := [];
    ranges := [];
    var start, prev := xs[0], xs[0];
    OneRange(xs[0]);
    assert xs[..1] == [xs[0]];
    for k := 1 to |xs|
      invariant start <= prev == xs[k - 1]
      invariant Canonical(ranges + [Range(start, prev)], Elements(xs[..k]))
      invariant texts == Texts(ranges)
    {
      var x := xs[k];
      OneMore(xs, k);
      if x == prev + 1 {
        Lengthen(ranges, start, prev, Elements(xs[..k]));
        prev := x;
      } else {
        Append(ranges + [Range(start, prev)], x, Elements(xs[..k]));
        OneMoreText(ranges, Range(start, prev));
        texts := texts + [if start != prev then Decimal(start) + "-" + Decimal(prev) else Decimal(start)];
        ranges := ranges + [Range(start, prev)];
        start, prev := x, x;
      }
    }
    OneMoreText(ranges, Range(start, prev));
    texts := texts + [if start != prev then Decimal(start) + "-" + Decimal(prev) else Decimal(start)];
    ranges := ranges + [Range(start, prev)];
    assert xs[..|xs|] == xs && Elements(xs) == cpus;
    text := Join(texts, ',');
    RoundTrip(ranges, cpus);
  }

  lemma NotEmpty(xs: seq<nat>, cpus: set<nat>)
    requires Lists(xs, cpus) && |cpus| > 0
    ensures xs != []
  {
    var x :| x in cpus;
    assert x in xs;
  }

  lemma OneRange(x: nat)
    ensures Canonical([] + [Range(x, x)], Elements([x]))
  {
    assert [Range(x, x)][0].Has(x);
    assert [] + [Range(x, x)] == [Range(x, x)];
  }

  lemma OneMore(xs: seq<nat>, k: nat)
    requires k < |xs|
    ensures Elements(xs[..k + 1]) == Elements(xs[..k]) + {xs[k]}
  {
    assert xs[..k + 1] == xs[..k] + [xs[k]];
  }

  lemma OneMoreText(ranges: seq<Range>, r: Range)
    ensures Texts(ranges + [r]) == Texts(ranges) + [r.Text()]
  {
  }

  lemma CoveredAppend(ranges: seq<Range>, r: Range, x: int)
    ensures Covered(ranges + [r], x) <==> Covered(ranges, x) || r.Has(x)
  {
    var now := ranges + [r];
    if Covered(ranges, x) {
      var k :| 0 <= k < |ranges| && ranges[k].Has(x);
      assert now[k].Has(x);
    }
    if r.Has(x) {
      assert now[|ranges|].Has(x);
    }
  }

  // The next CPU is right after the last range.
  lemma Lengthen(ranges: seq<Range>, start: nat, prev: nat, s: set<int>)
    requires start <= prev && Canonical(ranges + [Range(start, prev)], s)
    ensures Canonical(ranges + [Range(start, prev + 1)], s + {prev + 1})
  {
    hide Covered;
    var was, now := ranges + [Range(start, prev)], ranges + [Range(start, prev + 1)];
    forall x ensures x in s + {prev + 1} <==> Covered(now, x) {
      CoveredAppend(ranges, Range(start, prev), x);
      CoveredAppend(ranges, Range(start, prev + 1), x);
    }
    forall k | 0 <= k < |ranges| ensures now[k].hi + 1 < start {
      assert was[k].hi + 1 < was[|ranges|].lo;
    }
    forall j, k | 0 <= j < k < |now| ensures now[j].hi + 1 < now[k].lo {
      if k < |ranges| {
        assert was[j].hi + 1 < was[k].lo;
      }
    }
    forall k | 0 <= k < |now| ensures now[k].lo <= now[k].hi {
      if k < |ranges| {
        assert was[k].lo <= was[k].hi;
      }
    }
  }

  // It is further on.
  lemma Append(ranges: seq<Range>, x: nat, s: set<int>)
    requires Canonical(ranges, s) && ranges != [] && ranges[|ranges| - 1].hi + 1 < x
    ensures Canonical(ranges + [Range(x, x)], s + {x})
  {
    hide Covered;
    var now, last := ranges + [Range(x, x)], |ranges| - 1;
    forall k | 0 <= k < |ranges| ensures ranges[k].hi + 1 < x {
      assert ranges[k].lo <= ranges[k].hi && ranges[last].lo <= ranges[last].hi;
    }
    forall y ensures y in s + {x} <==> Covered(now, y) {
      CoveredAppend(ranges, Range(x, x), y);
    }
  }

  // ------------------------------------------------------------------- round trip

  lemma {:induction false} NoSign(s: string, c: char)
    requires !IsDigit(c) && forall k :: 0 <= k < |s| ==> IsDigit(s[k])
    ensures c !in s
  {
  }

  lemma StripKeeps(s: string)
    ensures s != "" && IsDigit(s[0]) && IsDigit(s[|s| - 1]) ==> Strip(s) == s
  {
  }

  lemma PartOfRange(r: Range)
    requires r.lo <= r.hi
    ensures PartCpus(Strip(r.Text())) == Some(Between(r.lo, r.hi)) && ',' !in r.Text()
  {
    hide Int, Decimal, Strip;
    IntOfDecimal(r.lo);
    IntOfDecimal(r.hi);
    var lo, hi := Decimal(r.lo), Decimal(r.hi);
    NoSign(lo, '-');
    NoSign(lo, ',');
    NoSign(hi, ',');
    assert IsDigit(lo[0]) && IsDigit(lo[|lo| - 1]) && IsDigit(hi[|hi| - 1]);
    var t := r.Text();
    StripKeeps(t);
    if r.lo != r.hi {
      SplitIsUnique(lo, hi, '-');
      assert t[0] == lo[0] && t[|t| - 1] == hi[|hi| - 1];
    } else {
      assert Between(r.lo, r.hi) == {r.lo as int};
    }
  }

  lemma {:induction false} RangesParse(ranges: seq<Range>)
    requires forall k :: 0 <= k < |ranges| ==> ranges[k].lo <= ranges[k].hi
    ensures AllCpus(Texts(ranges)).Some?
    ensures forall x :: x in AllCpus(Texts(ranges)).value <==> Covered(ranges, x)
  {
    hide PartCpus, Covered, Texts, AllCpus, Between, Strip, Range.Text;
    if ranges == [] {
      NothingCovered();
    } else {
      var n := |ranges| - 1;
      RangesParse(ranges[..n]);
      PartOfRange(ranges[n]);
      OneMoreText(ranges[..n], ranges[n]);
      OneMorePart(Texts(ranges[..n]), ranges[n].Text());
      assert ranges == ranges[..n] + [ranges[n]];
      forall x ensures x in AllCpus(Texts(ranges)).value <==> Covered(ranges, x) {
        CoveredAppend(ranges[..n], ranges[n], x);
      }
    }
  }

  lemma OneMorePart(parts: seq<string>, part: string)
    requires AllCpus(parts).Some? && PartCpus(Strip(part)).Some?
    ensures AllCpus(parts + [part]) == Some(AllCpus(parts).value + PartCpus(Strip(part)).value)
  {
    assert (parts + [part])[..|parts|] == parts;
  }

  lemma NothingCovered()
    ensures forall x :: !Covered([], x)
    ensures Texts([]) == [] && AllCpus([]) == Some({})
  {
  }

  // What is printed for a set is read back as that set.
  lemma RoundTrip(ranges: seq<Range>, cpus: set<int>)
    requires Canonical(ranges, cpus)
    ensures AllCpus(Split(Join(Texts(ranges), ','), ',')) == Some(cpus)
  {
    hide AllCpus, Split, Covered;
    RangesParse(ranges);
    if ranges == [] {
      EmptyParses();
      assert Texts(ranges) == [];
    } else {
      forall k | 0 <= k < |ranges| ensures ',' !in Texts(ranges)[k] {
        PartOfRange(ranges[k]);
      }
      SplitJoin(Texts(ranges), ',');
    }
    var back := AllCpus(Texts(ranges)).value;
    forall x ensures x in back <==> x in cpus {
      assert x in back <==> Covered(ranges, x);
    }
    assert back == cpus;
  }

  lemma EmptyParses()
    ensures AllCpus(Split("", ',')) == AllCpus([]) == Some({})
  {
    assert Split("", ',') == [""];
    assert [""][..0] == [];
    assert PartCpus(Strip("")) == Some({});
    var none: set<int> := {};
    assert AllCpus([""]) == Some(none + none) && none + none == none;
  }

  // The ranges are maximal: a set has only one such list of them.
  lemma {:induction false} CanonicalIsUnique(a: seq<Range>, b: seq<Range>, cpus: set<int>)
    requires Canonical(a, cpus) && Canonical(b, cpus)
    ensures a == b
  {
    if a == [] || b == [] {
      FirstIsIn(a, cpus);
      FirstIsIn(b, cpus);
    } else {
      LastAgrees(a, b, cpus);
      LastAgrees(b, a, cpus);
      var m, n := |a| - 1, |b| - 1;
      var rest := set x | x in cpus && x < a[m].lo;
      WithoutLast(a, cpus, rest);
      WithoutLast(b, cpus, rest);
      CanonicalIsUnique(a[..m], b[..n], rest);
      assert a == a[..m] + [a[m]] && b == b[..n] + [b[n]];
    }
  }

  lemma FirstIsIn(a: seq<Range>, cpus: set<int>)
    requires Canonical(a, cpus)
    ensures a == [] || a[0].lo in cpus
    ensures a == [] ==> cpus == {}
  {
    if a != [] {
      assert a[0].Has(a[0].lo);
    }
    forall x | x in cpus ensures a != [] {
      assert Covered(a, x);
    }
  }

  lemma LastAgrees(a: seq<Range>, b: seq<Range>, cpus: set<int>)
    requires Canonical(a, cpus) && Canonical(b, cpus) && a != [] && b != []
    ensures a[|a| - 1].hi <= b[|b| - 1].hi
    ensures a[|a| - 1].hi == b[|b| - 1].hi ==> a[|a| - 1].lo <= b[|b| - 1].lo
  {
    var r, q := a[|a| - 1], b[|b| - 1];
    HasIsCovered(a, |a| - 1, r.hi);
    HasIsCovered(b, |b| - 1, r.lo - 1);
    BeforeLast(a);
    BeforeLast(b);
    assert r.hi in cpus;
    assert r.lo - 1 !in cpus;
  }

  lemma HasIsCovered(ranges: seq<Range>, k: nat, x: int)
    requires k < |ranges|
    ensures ranges[k].Has(x) ==> Covered(ranges, x)
  {
  }

  // The last range ends the set, and nothing is right before it.
  lemma BeforeLast(ranges: seq<Range>)
    requires ranges != [] && (forall k :: 0 <= k < |ranges| ==> ranges[k].lo <= ranges[k].hi)
    requires forall j, k :: 0 <= j < k < |ranges| ==> ranges[j].hi + 1 < ranges[k].lo
    ensures !Covered(ranges, ranges[|ranges| - 1].lo - 1)
    ensures forall x :: Covered(ranges, x) ==> x <= ranges[|ranges| - 1].hi
  {
  }

  lemma WithoutLast(a: seq<Range>, cpus: set<int>, rest: set<int>)
    requires Canonical(a, cpus) && a != [] && rest == set x | x in cpus && x < a[|a| - 1].lo
    ensures Canonical(a[..|a| - 1], rest)
  {
    var n := |a| - 1;
    assert a == a[..n] + [a[n]];
    forall x ensures x in rest <==> Covered(a[..n], x) {
      CoveredAppend(a[..n], a[n], x);
    }
  }
}

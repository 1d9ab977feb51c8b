// Which texts are lists of CPUs, and what they say: white space around every number and
// every part, signs, underscores and leading zeros included.

module CpuGrammar {
  import opened Wrappers
  import opened Text
  import opened CpuList

  // A number with what may stand around it.
  datatype Number = Number(before: string, sign: string, numeral: string, after: string)
  {
    function Text(): string {
      before + sign + numeral + after
    }

    ghost predicate Reads() {
      IsNumber(Text(), before, sign, numeral, after)
    }

    ghost function Value(): int {
      if sign == "-" then 0 - ValueOf(numeral) as int else ValueOf(numeral)
    }
  }

  // Between two commas: nothing but white space, one CPU, or a first and a last.
  datatype Part = Nothing(blank: string) | One(cpu: Number) | Span(first: Number, last: Number)
  {
    function Text(): string {
      match this
      case Nothing(blank) => blank
      case One(cpu) => cpu.Text()
      case Span(first, last) => first.Text() + "-" + last.Text()
    }

    // A minus sign would be taken for the dash.
    ghost predicate Reads() {
      match this
      case Nothing(blank) => Blank(blank)
      case One(cpu) => cpu.Reads() && cpu.sign != "-"
      case Span(first, last) => first.Reads() && first.sign != "-" && last.Reads()
    }

    ghost predicate Says(x: int) {
      match this
      case Nothing(_) => false
      case One(cpu) => x == cpu.Value()
      case Span(first, last) => first.Value() <= x <= last.Value()
    }
  }

  // ------------------------------------------------------------------- one part

  ghost predicate SaidBy(cpus: set<int>, p: Part) {
    forall x :: x in cpus <==> p.Says(x)
  }

  lemma NoDash(s: string)
    requires Blank(s) || IsNumeral(s)
    ensures '-' !in s && ',' !in s
  {
    forall k | 0 <= k < |s| ensures s[k] != '-' && s[k] != ',' {
      assert Blank(s) || Fits(s, k);
    }
  }

  lemma NumberHasNoDash(n: Number)
    requires n.Reads()
    ensures n.sign != "-" ==> '-' !in n.Text()
    ensures ',' !in n.Text()
  {
    hide Blank, IsNumeral;
    NoDash(n.before);
    NoDash(n.numeral);
    NoDash(n.after);
  }

  // Without the white space before it, or after it, a number is the same number.
  lemma Trimmed(n: Number)
    requires n.Reads()
    ensures n.(before := "").Reads() && n.(after := "").Reads()
    ensures Int(n.Text()) == Int(n.(before := "").Text()) == Int(n.(after := "").Text()) == Some(n.Value())
  {
    hide IsNumeral, Int, ValueOf;
    assert Blank("");
    var l, r := n.(before := ""), n.(after := "");
    assert l.Text() == "" + n.sign + n.numeral + n.after;
    assert r.Text() == n.before + n.sign + n.numeral + "";
    IntReads(n.Text(), n.before, n.sign, n.numeral, n.after);
    IntReads(l.Text(), "", n.sign, n.numeral, n.after);
    IntReads(r.Text(), n.before, n.sign, n.numeral, "");
  }

  // Where a number's text starts and ends, without that white space.
  lemma NumberIsTight(n: Number)
    requires n.Reads()
    ensures n.before == "" ==> n.Text() != "" && !IsSpace(n.Text()[0])
    ensures n.after == "" ==> n.Text() != "" && !IsSpace(n.Text()[|n.Text()| - 1])
  {
    SignedIsTight(n.sign, n.numeral);
    var t, s := n.sign + n.numeral, n.Text();
    assert s == n.before + t + n.after && t != "";
  }

  lemma OnePart(n: Number)
    requires n.Reads() && n.sign != "-"
    ensures PartCpus(Strip(n.Text())) == Some({n.Value()})
  {
    hide Strip, Int, IsNumeral, Blank, Number.Value;
    var core := n.(before := "", after := "");
    Trimmed(n);
    Trimmed(n.(before := ""));
    assert n.(before := "").(after := "") == core;
    NumberIsTight(core);
    assert n.Text() == n.before + core.Text() + n.after;
    StripPadded(n.before, core.Text(), n.after);
    NumberHasNoDash(core);
  }

  lemma DashedCpus(lo: string, hi: string, l: int, h: int)
    requires '-' !in lo && Int(lo) == Some(l) && Int(hi) == Some(h)
    ensures PartCpus(lo + "-" + hi) == Some(Between(l, h))
  {
    hide Int, Between;
    SplitIsUnique(lo, hi, '-');
  }

  lemma Regrouped(a: string, b: string, c: string, d: string, e: string)
    ensures a + b + c + (d + e) == a + (b + c + d) + e
  {
    var bc := b + c;
    assert a + b + c == a + bc;
    assert a + bc + (d + e) == a + (bc + d) + e;
  }

  lemma TrimmedSpan(before: string, lo: string, hi: string, after: string)
    requires lo != "" && hi != "" && !IsSpace(lo[0]) && !IsSpace(hi[|hi| - 1]) && Blank(before) && Blank(after)
    ensures Strip(before + lo + "-" + (hi + after)) == lo + "-" + hi
  {
    hide Strip, IsSpace, Blank;
    var core := lo + "-" + hi;
    assert core[0] == lo[0] && core[|core| - 1] == hi[|hi| - 1];
    Regrouped(before, lo, "-", hi, after);
    StripPadded(before, core, after);
  }

  lemma SpanPart(first: Number, last: Number)
    requires first.Reads() && first.sign != "-" && last.Reads()
    ensures PartCpus(Strip(first.Text() + "-" + last.Text())) == Some(Between(first.Value(), last.Value()))
  {
    hide Strip, Int, IsNumeral, Blank, Number.Value, PartCpus, Between, IsSpace;
    var l, r := first.(before := ""), last.(after := "");
    Trimmed(first);
    Trimmed(last);
    NumberIsTight(l);
    NumberIsTight(r);
    NumberHasNoDash(l);
    assert first.Text() == first.before + l.Text() && last.Text() == r.Text() + last.after;
    hide Number.Text;
    TrimmedSpan(first.before, l.Text(), r.Text(), last.after);
    DashedCpus(l.Text(), r.Text(), first.Value(), last.Value());
  }

  // A part that reads says its CPUs and no others.
  lemma PartReads(p: Part)
    requires p.Reads()
    ensures PartCpus(Strip(p.Text())).Some? && SaidBy(PartCpus(Strip(p.Text())).value, p)
    ensures ',' !in p.Text()
  {
    hide Strip, IsNumeral, Number.Value, Number.Text, Number.Reads;
    match p
    case Nothing(blank) =>
      StripBlank(blank);
      NoDash(blank);
    case One(cpu) =>
      OnePart(cpu);
      NumberHasNoDash(cpu);
    case Span(first, last) =>
      SpanPart(first, last);
      NumberHasNoDash(first);
      NumberHasNoDash(last);
  }

  // A number with more white space on either side is a number.
  lemma Padded(before: string, s: string, after: string) returns (n: Number)
    requires Blank(before) && Blank(after) && Int(s).Some?
    ensures n.Reads() && n.Text() == before + s + after
    ensures '-' !in s ==> n.sign != "-"
  {
    var a, sign, numeral, b := IntReadsNothingElse(s);
    hide Int, IsNumeral, Blank;
    BlankAdds(before, a);
    BlankAdds(b, after);
    n := Number(before + a, sign, numeral, b + after);
    assert n.Text() == before + s + after;
    if '-' !in s {
      NotNegative(s, a, sign, numeral, b);
    }
  }

  // Any part that is not an error reads.
  lemma PartReadsNothingElse(part: string) returns (p: Part)
    requires PartCpus(Strip(part)).Some?
    ensures p.Reads() && p.Text() == part
  {
    var before, after := StripIs(part);
    var core := Strip(part);
    hide Strip, Int, Number.Reads, Number.Text, Blank, Tight;
    assert Blank("") by {
      NothingToStrip("");
    }
    if core == "" {
      BlankAdds(before, after);
      assert part == before + after;
      p := Nothing(part);
    } else if SplitOnce(core, '-').Some? {
      var (lo, hi) := SplitOnce(core, '-').value;
      var first := Padded(before, lo, "");
      var last := Padded("", hi, after);
      p := Span(first, last);
      assert p.Text() == before + lo + "" + "-" + ("" + hi + after);
      assert part == before + (lo + "-" + hi) + after;
    } else {
      var cpu := Padded(before, core, after);
      p := One(cpu);
    }
  }

  lemma NotNegative(s: string, a: string, sign: string, numeral: string, b: string)
    requires '-' !in s && s == a + sign + numeral + b
    ensures sign != "-"
  {
    assert forall k :: 0 <= k < |sign| ==> s[|a| + k] == sign[k];
  }

  // ----------------------------------------------------------------- whole lists

  ghost predicate AllRead(parts: seq<Part>) {
    forall k :: 0 <= k < |parts| ==> parts[k].Reads()
  }

  ghost predicate SomeSays(parts: seq<Part>, x: int) {
    exists k :: 0 <= k < |parts| && parts[k].Says(x)
  }

  function PartTexts(parts: seq<Part>): (texts: seq<string>)
    ensures |texts| == |parts|
  {
    seq(|parts|, k requires 0 <= k < |parts| => parts[k].Text())
  }

  lemma SaysMore(parts: seq<Part>, p: Part, x: int)
    ensures SomeSays(parts + [p], x) <==> SomeSays(parts, x) || p.Says(x)
  {
    var now := parts + [p];
    if SomeSays(parts, x) {
      var k :| 0 <= k < |parts| && parts[k].Says(x);
      assert now[k].Says(x);
    }
    if p.Says(x) {
      assert now[|parts|].Says(x);
    }
  }

  lemma {:induction false} PartsRead(parts: seq<Part>)
    requires AllRead(parts)
    ensures AllCpus(PartTexts(parts)).Some?
    ensures forall x :: x in AllCpus(PartTexts(parts)).value <==> SomeSays(parts, x)
  {
    hide PartCpus, AllCpus, Strip, SomeSays, Part.Reads, Part.Text, Part.Says;
    if parts == [] {
      NothingSaid();
      assert PartTexts(parts) == [];
    } else {
      var n := |parts| - 1;
      PartsRead(parts[..n]);
      PartReads(parts[n]);
      OneMorePart(PartTexts(parts[..n]), parts[n].Text());
      assert PartTexts(parts) == PartTexts(parts[..n]) + [parts[n].Text()];
      assert parts == parts[..n] + [parts[n]];
      forall x ensures x in AllCpus(PartTexts(parts)).value <==> SomeSays(parts, x) {
        SaysMore(parts[..n], parts[n], x);
      }
    }
  }

  lemma NothingSaid()
    ensures forall x :: !SomeSays([], x)
    ensures AllCpus([]) == Some({})
  {
  }

  // A list whose parts all read is the union of what they say, in any order and however
  // they overlap.
  lemma ListReads(parts: seq<Part>) returns (cpus: set<int>)
    requires parts != [] && AllRead(parts)
    ensures AllCpus(Split(Join(PartTexts(parts), ','), ',')) == Some(cpus)
    ensures forall x :: x in cpus <==> SomeSays(parts, x)
  {
    hide PartCpus, AllCpus, Split, Join, Strip, SomeSays, Part.Reads, Part.Text, Part.Says;
    forall k | 0 <= k < |parts| ensures ',' !in PartTexts(parts)[k] {
      PartReads(parts[k]);
    }
    SplitJoin(PartTexts(parts), ',');
    PartsRead(parts);
    cpus := AllCpus(PartTexts(parts)).value;
  }

  // Any list that is not an error is such a list.
  lemma ListReadsNothingElse(spec: string) returns (parts: seq<Part>)
    requires AllCpus(Split(spec, ',')).Some?
    ensures parts != [] && AllRead(parts) && Join(PartTexts(parts), ',') == spec
  {
    hide PartCpus, AllCpus, Split, Join, Strip, Part.Reads, Part.Text;
    SplitIs(spec, ',');
    parts := PartsReadNothingElse(Split(spec, ','));
    assert PartTexts(parts) == Split(spec, ',');
  }

  lemma {:induction false} PartsReadNothingElse(texts: seq<string>) returns (parts: seq<Part>)
    requires AllCpus(texts).Some?
    ensures AllRead(parts) && |parts| == |texts| && PartTexts(parts) == texts
  {
    hide PartCpus, Strip, Part.Reads, Part.Text;
    parts := [];
    if texts != [] {
      var n := |texts| - 1;
      parts := PartsReadNothingElse(texts[..n]);
      var p := PartReadsNothingElse(texts[n]);
      parts := parts + [p];
      assert texts == texts[..n] + [texts[n]];
      assert PartTexts(parts) == texts;
    }
  }

  // For one, with a blank after the comma and a line end after the last number.
  lemma SpacedList() returns (cpus: set<int>)
    ensures AllCpus(Split("0-3, 8\n", ',')) == Some(cpus) && cpus == {0, 1, 2, 3, 8}
  {
    hide AllCpus, Split, SomeSays, Join, PartTexts, IsNumeral, ValueOf;
    var first, last, lone := Number("", "", "0", ""), Number("", "", "3", ""), Number(" ", "", "8", "\n");
    var span, one := Span(first, last), One(lone);
    Digit("0", 0);
    Digit("3", 3);
    Digit("8", 8);
    PairText(span, one);
    SpacedText();
    cpus := ListReads([span, one]);
    forall x ensures x in cpus <==> 0 <= x <= 3 || x == 8 {
      PairSays(span, one, x);
    }
  }

  lemma SpacedText()
    ensures "" + "" + "0" + "" + "-" + ("" + "" + "3" + "") + "," + (" " + "" + "8" + "\n") == "0-3, 8\n"
  {
  }

  lemma Digit(s: string, n: nat)
    requires |s| == 1 && IsDigit(s[0]) && n == (s[0] - '0') as nat
    ensures IsNumeral(s) && ValueOf(s) == n
  {
    assert s[..0] == "";
  }

  lemma PairText(p: Part, q: Part)
    ensures Join(PartTexts([p, q]), ',') == p.Text() + "," + q.Text()
  {
    assert PartTexts([p, q])[1..] == [q.Text()];
  }

  lemma PairSays(p: Part, q: Part, x: int)
    ensures SomeSays([p, q], x) <==> p.Says(x) || q.Says(x)
  {
    assert [p, q][0] == p && [p, q][1] == q;
  }
}

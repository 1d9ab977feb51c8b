// Strings cut at a separator and put together again.

module Text {
  import opened Wrappers

  // Before and after the first separator.
  function SplitOnce(w: string, sep: char): (r: Option<(string, string)>)
    ensures r.Some? <==> sep in w
    ensures r.Some? ==> w == r.value.0 + [sep] + r.value.1 && sep !in r.value.0
  {
    if w == "" then None
    else if w[0] == sep then Some(("", w[1..]))
    else
      match SplitOnce(w[1..], sep)
      case None => None
      case Some(kv) =>
        assert w == [w[0]] + w[1..];
        Some(([w[0]] + kv.0, kv.1))
  }

  lemma {:induction false} SplitIsUnique(key: string, value: string, sep: char)
    requires sep !in key
    ensures SplitOnce(key + [sep] + value, sep) == Some((key, value))
  {
    var w := key + [sep] + value;
    if key == "" {
      assert w[1..] == value;
    } else {
      assert w[1..] == key[1..] + [sep] + value;
      SplitIsUnique(key[1..], value, sep);
      assert key == [key[0]] + key[1..];
    }
  }

  // `split`: all the parts between separators.
  function Split(w: string, sep: char): (parts: seq<string>)
    ensures parts != []
    decreases |w|
  {
    match SplitOnce(w, sep)
    case None => [w]
    case Some(kv) => [kv.0] + Split(kv.1, sep)
  }

  // `join`
  function Join(parts: seq<string>, sep: char): string {
    if parts == [] then ""
    else if |parts| == 1 then parts[0]
    else parts[0] + [sep] + Join(parts[1..], sep)
  }

  ghost predicate Plain(parts: seq<string>, sep: char) {
    forall k :: 0 <= k < |parts| ==> sep !in parts[k]
  }

  lemma {:induction false} SplitJoin(parts: seq<string>, sep: char)
    requires parts != [] && Plain(parts, sep)
    ensures Split(Join(parts, sep), sep) == parts
  {
    if |parts| > 1 {
      SplitIsUnique(parts[0], Join(parts[1..], sep), sep);
      SplitJoin(parts[1..], sep);
      assert parts == [parts[0]] + parts[1..];
    } else {
      assert parts == [parts[0]];
      assert sep !in parts[0];
    }
  }

  // Every text is its parts joined, and no part has the separator.
  lemma {:induction false} SplitIs(w: string, sep: char)
    ensures Join(Split(w, sep), sep) == w && Plain(Split(w, sep), sep)
    decreases |w|
  {
    match SplitOnce(w, sep)
    case None =>
    case Some(kv) => SplitIs(kv.1, sep);
  }

  // -------------------------------------------------------------------- numbers

  predicate IsDigit(c: char) {
    '0' <= c <= '9'
  }

  predicate IsSpace(c: char) {
    c in " \t\n\r\U{0B}\U{0C}\U{1C}\U{1D}\U{1E}\U{1F}"
  }

  // `str` of a natural number.
  function Decimal(n: nat): (s: string)
    ensures s != "" && forall k :: 0 <= k < |s| ==> IsDigit(s[k])
    ensures s[0] == '0' ==> n == 0 && |s| == 1
  {
    if n < 10 then ['0' + n as char] else Decimal(n / 10) + ['0' + (n % 10) as char]
  }

  // Decimal digits, an underscore allowed between two.
  function Digits(s: string): Option<nat> {
    if s == "" || !IsDigit(s[|s| - 1]) then None
    else
      var n, d := |s| - 1, (s[|s| - 1] - '0') as nat;
      if n == 0 then Some(d)
      else
        match Digits(if s[n - 1] == '_' then s[..n - 1] else s[..n])
        case None => None
        case Some(v) => Some(10 * v + d)
  }

  function Strip(s: string): string {
    if s == "" then ""
    else if IsSpace(s[0]) then Strip(s[1..])
    else if IsSpace(s[|s| - 1]) then Strip(s[..|s| - 1])
    else s
  }

  // `int` of a string; None is its ValueError.
  function Int(s: string): Option<int> {
    var t := Strip(s);
    if t != "" && (t[0] == '-' || t[0] == '+') then
      match Digits(t[1..])
      case None => None
      case Some(v) => Some(if t[0] == '-' then 0 - v as int else v)
    else
      match Digits(t)
      case None => None
      case Some(v) => Some(v)
  }

  lemma {:induction false} DigitsOfDecimal(n: nat)
    ensures Digits(Decimal(n)) == Some(n)
  {
    if n >= 10 {
      DigitsOfDecimal(n / 10);
      var s := Decimal(n);
      assert s[..|s| - 1] == Decimal(n / 10);
      assert IsDigit(s[|s| - 2]);
    }
  }

  lemma IntOfDecimal(n: nat)
    ensures Int(Decimal(n)) == Some(n)
  {
    var s := Decimal(n);
    assert IsDigit(s[0]) && IsDigit(s[|s| - 1]);
    DigitsOfDecimal(n);
  }

  // ----------------------------------------------------------------- white space

  ghost predicate Blank(s: string) {
    forall k :: 0 <= k < |s| ==> IsSpace(s[k])
  }

  // Nothing, or no white space at either end.
  ghost predicate Tight(s: string) {
    s == "" || (!IsSpace(s[0]) && !IsSpace(s[|s| - 1]))
  }

  lemma BlankAdds(a: string, b: string)
    requires Blank(a) && Blank(b)
    ensures Blank(a + b)
  {
  }

  // Stripping takes off exactly the white space at the two ends.
  lemma {:induction false} StripIs(s: string) returns (before: string, after: string)
    ensures s == before + Strip(s) + after && Blank(before) && Blank(after) && Tight(Strip(s))
    decreases |s|
  {
    hide Blank, Tight, IsSpace;
    before, after := "", "";
    NothingToStrip(s);
    if s == "" {
    } else if IsSpace(s[0]) {
      before, after := StripIs(s[1..]);
      BlankAdds([s[0]], before);
      before := [s[0]] + before;
      assert s == [s[0]] + s[1..];
    } else if IsSpace(s[|s| - 1]) {
      before, after := StripIs(s[..|s| - 1]);
      BlankAdds(after, [s[|s| - 1]]);
      after := after + [s[|s| - 1]];
      assert s == s[..|s| - 1] + [s[|s| - 1]];
    } else {
      assert "" + s + "" == s;
    }
  }

  lemma NothingToStrip(s: string)
    ensures Blank("") && Tight("")
    ensures s != "" && !IsSpace(s[0]) && !IsSpace(s[|s| - 1]) ==> Tight(s)
    ensures s != "" && IsSpace(s[0]) ==> Blank([s[0]])
    ensures s != "" && IsSpace(s[|s| - 1]) ==> Blank([s[|s| - 1]])
  {
  }

  lemma {:induction false} StripBlank(s: string)
    requires Blank(s)
    ensures Strip(s) == ""
  {
    if s != "" {
      StripBlank(s[1..]);
    }
  }

  // White space around a text changes nothing.
  lemma {:induction false} StripPadded(before: string, s: string, after: string)
    requires Blank(before) && Blank(after) && Tight(s)
    ensures Strip(before + s + after) == s
    decreases |before| + |after|
  {
    var t := before + s + after;
    if s == "" {
      StripBlank(t);
    } else if before != "" {
      assert t[1..] == before[1..] + s + after;
      StripPadded(before[1..], s, after);
    } else if after != "" {
      var n := |after| - 1;
      assert t[0] == s[0];
      assert t[..|t| - 1] == before + s + after[..n];
      StripPadded(before, s, after[..n]);
    } else {
      assert t == s;
    }
  }

  // --------------------------------------------------------------- numbers, exactly

  // Digits, with single underscores between some of them.
  ghost predicate IsNumeral(s: string) {
    && s != "" && IsDigit(s[0]) && IsDigit(s[|s| - 1])
    && forall k :: 0 <= k < |s| ==> Fits(s, k)
  }

  ghost predicate Fits(s: string, k: nat)
    requires k < |s|
  {
    IsDigit(s[k]) || (s[k] == '_' && k + 1 < |s| && IsDigit(s[k + 1]))
  }

  // What digits say in decimal, whatever is between them.
  ghost function ValueOf(s: string): nat {
    if s == "" then 0
    else
      var n := |s| - 1;
      if IsDigit(s[n]) then 10 * ValueOf(s[..n]) + (s[n] - '0') as nat else ValueOf(s[..n])
  }

  lemma {:induction false} DigitsRead(s: string)
    ensures Digits(s).Some? <==> IsNumeral(s)
    ensures IsNumeral(s) ==> Digits(s) == Some(ValueOf(s))
  {
    if s != "" && IsDigit(s[|s| - 1]) && |s| > 1 {
      var n := |s| - 1;
      var gap := s[n - 1] == '_';
      var init := if gap then s[..n - 1] else s[..n];
      DigitsRead(init);
      InitIsNumeral(s, init);
      assert gap ==> s[..n][..n - 1] == init;
    }
  }

  lemma InitIsNumeral(s: string, init: string)
    requires |s| > 1 && IsDigit(s[|s| - 1])
    requires init == if s[|s| - 2] == '_' then s[..|s| - 2] else s[..|s| - 1]
    ensures IsNumeral(s) <==> IsNumeral(init)
  {
    var n := |s| - 1;
    if IsNumeral(init) {
      forall k | 0 <= k < |s| ensures Fits(s, k) {
        assert k < |init| ==> Fits(init, k);
      }
    }
    if IsNumeral(s) {
      assert Fits(s, n - 1) && (n > 1 ==> Fits(s, n - 2));
      forall k | 0 <= k < |init| ensures Fits(init, k) {
        assert Fits(s, k);
      }
    }
  }

  // A number as `int` reads it: white space, a sign or none, a numeral, white space.
  ghost predicate IsNumber(s: string, before: string, sign: string, numeral: string, after: string) {
    && s == before + sign + numeral + after && Blank(before) && Blank(after)
    && sign in ["", "+", "-"] && IsNumeral(numeral)
  }

  lemma IntReads(s: string, before: string, sign: string, numeral: string, after: string)
    requires IsNumber(s, before, sign, numeral, after)
    ensures Int(s) == Some(if sign == "-" then 0 - ValueOf(numeral) as int else ValueOf(numeral))
  {
    hide Strip, Digits, ValueOf, IsNumeral, Blank, Tight, IsDigit;
    var t := sign + numeral;
    DigitsRead(numeral);
    SignedIsTight(sign, numeral);
    assert s == before + t + after;
    StripPadded(before, t, after);
    hide IsNumber;
    SignTaken(sign, numeral);
  }

  lemma SignTaken(sign: string, numeral: string)
    requires sign in ["", "+", "-"] && numeral != "" && IsDigit(numeral[0])
    ensures var t := sign + numeral;
            && t != "" && (t[0] == '-' || t[0] == '+' <==> sign != "")
            && (sign != "" ==> t[1..] == numeral && [t[0]] == sign)
            && (sign == "" ==> t == numeral)
  {
    var t := sign + numeral;
    if sign != "" {
      assert |sign| == 1 && t[0] == sign[0];
    }
  }

  lemma SignedIsTight(sign: string, numeral: string)
    requires sign in ["", "+", "-"] && IsNumeral(numeral)
    ensures Tight(sign + numeral) && numeral != "" && IsDigit(numeral[0])
  {
  }

  // Nothing else is read as a number.
  lemma IntReadsNothingElse(s: string) returns (before: string, sign: string, numeral: string, after: string)
    requires Int(s).Some?
    ensures IsNumber(s, before, sign, numeral, after)
  {
    before, after := StripIs(s);
    var t := Strip(s);
    hide Strip, Blank;
    if t != "" && (t[0] == '-' || t[0] == '+') {
      sign, numeral := [t[0]], t[1..];
      assert t == sign + numeral;
    } else {
      sign, numeral := "", t;
    }
    DigitsRead(numeral);
  }
}

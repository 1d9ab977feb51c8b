// The kernels' `pie:instantiate` lines, collected into a table of variants: the job
// list of the compile step.

module KernelVariants {
  import opened Wrappers
  import opened Text

  datatype Tier = Baseline | Fp16 | Coopmat {
    function Tag(): (tag: string)
      ensures FromTag(tag) == Some(this)
    {
      match this
      case Baseline => "baseline"
      case Fp16 => "fp16"
      case Coopmat => "coopmat"
    }
  }

  function FromTag(tag: string): Option<Tier> {
    if tag == "baseline" then Some(Baseline)
    else if tag == "fp16" then Some(Fp16)
    else if tag == "coopmat" then Some(Coopmat)
    else None
  }

  // A line that carries the directive: its file, and the words after it.
  datatype Directive = Directive(file: string, words: seq<string>)
  datatype Variant = Variant(file: string, tier: Tier, defines: seq<(string, string)>)

  type Key = (string, Tier)
  type Table = map<Key, Variant>

  datatype Malformed = NoEntrypoint | NotATier(tag: string) | NotADefine(word: string)
  datatype Refusal =
    | BadLine(why: Malformed)
    | Twice(entrypoint: string, tier: Tier)
    | TwoTiers(entrypoint: string, tier: Tier, other: Tier)

  // ------------------------------------------------------------------- one line

  function Defines(words: seq<string>): Result<seq<(string, string)>, Malformed> {
    if words == [] then Ok([])
    else
      match SplitOnce(words[0], '=')
      case None => Err(NotADefine(words[0]))
      case Some(kv) =>
        match Defines(words[1..])
        case Err(e) => Err(e)
        case Ok(rest) => Ok([kv] + rest)
  }

  function Parse(d: Directive): Result<(string, Variant), Malformed> {
    if d.words == [] then Err(NoEntrypoint)
    else
      var name, rest := d.words[0], d.words[1..];
      if rest != [] && rest[0] != "" && rest[0][0] == '@' then
        match FromTag(rest[0][1..])
        case None => Err(NotATier(rest[0][1..]))
        case Some(tier) => WithDefines(d.file, name, tier, rest[1..])
      else WithDefines(d.file, name, Baseline, rest)
  }

  function WithDefines(file: string, name: string, tier: Tier, words: seq<string>): Result<(string, Variant), Malformed> {
    match Defines(words)
    case Err(e) => Err(e)
    case Ok(defines) => Ok((name, Variant(file, tier, defines)))
  }

  // A variant written as a line.
  function Render(name: string, v: Variant): Directive {
    Directive(v.file, [name, "@" + v.tier.Tag()] + Written(v.defines))
  }

  function Written(defines: seq<(string, string)>): (words: seq<string>) {
    seq(|defines|, k requires 0 <= k < |defines| => defines[k].0 + "=" + defines[k].1)
  }

  ghost predicate KeysPlain(defines: seq<(string, string)>) {
    forall k :: 0 <= k < |defines| ==> '=' !in defines[k].0
  }

  lemma {:induction false} DefinesRendered(defines: seq<(string, string)>)
    requires KeysPlain(defines)
    ensures Defines(Written(defines)) == Ok(defines)
  {
    if defines != [] {
      var rest := defines[1..];
      assert Written(defines)[1..] == Written(rest);
      DefinesRendered(rest);
      SplitIsUnique(defines[0].0, defines[0].1, '=');
      assert defines == [defines[0]] + rest;
    }
  }

  // Reading a written variant back.
  lemma ParseRendered(name: string, v: Variant)
    requires KeysPlain(v.defines)
    ensures Parse(Render(name, v)) == Ok((name, v))
  {
    hide Defines, Written, KeysPlain;
    DefinesRendered(v.defines);
    var words := Render(name, v).words;
    assert words[1..][0] == "@" + v.tier.Tag();
    assert words[1..][0][1..] == v.tier.Tag();
    assert words[1..][1..] == Written(v.defines);
  }

  // A line that names no tier is the baseline's.
  lemma ParseUntagged(file: string, name: string, defines: seq<(string, string)>)
    requires KeysPlain(defines) && (defines != [] ==> !AtFirst(defines[0].0))
    ensures Parse(Directive(file, [name] + Written(defines))) == Ok((name, Variant(file, Baseline, defines)))
  {
    hide Defines, KeysPlain;
    DefinesRendered(defines);
    assert ([name] + Written(defines))[1..] == Written(defines);
  }

  predicate AtFirst(w: string) {
    w != "" && w[0] == '@'
  }

  // The reasons a line is refused, in the order they are looked for.
  lemma ParseFails(d: Directive)
    ensures d.words == [] <==> Parse(d) == Err(NoEntrypoint)
    ensures d.words != [] ==>
              var rest := d.words[1..];
              var tagged := rest != [] && AtFirst(rest[0]);
              if tagged && FromTag(rest[0][1..]).None? then Parse(d) == Err(NotATier(rest[0][1..]))
              else
                var words := if tagged then rest[1..] else rest;
                && (Parse(d).Ok? <==> AllDefine(words))
                && (Parse(d).Err? ==> exists k :: 0 <= k < |words| && Parse(d) == Err(NotADefine(words[k]))
                                                  && '=' !in words[k] && AllDefine(words[..k]))
  {
    if d.words != [] {
      var rest := d.words[1..];
      DefinesFail(rest);
      if rest != [] {
        DefinesFail(rest[1..]);
      }
    }
  }

  ghost predicate AllDefine(words: seq<string>) {
    forall k :: 0 <= k < |words| ==> '=' in words[k]
  }

  lemma {:induction false} DefinesFail(words: seq<string>)
    ensures Defines(words).Ok? <==> AllDefine(words)
    ensures Defines(words).Err? ==> exists k :: 0 <= k < |words| && Defines(words) == Err(NotADefine(words[k]))
                                                && '=' !in words[k] && AllDefine(words[..k])
  {
    if words != [] && SplitOnce(words[0], '=').Some? {
      var rest := words[1..];
      DefinesFail(rest);
      if Defines(rest).Err? {
        var k :| 0 <= k < |rest| && Defines(rest) == Err(NotADefine(rest[k])) && '=' !in rest[k] && AllDefine(rest[..k]);
        assert words[k + 1] == rest[k] && AllDefine(words[..k + 1]) by {
          assert words[..k + 1] == [words[0]] + rest[..k];
        }
      } else {
        assert words == [words[0]] + rest;
      }
    } else if words != [] {
      assert words[..0] == [] && words[0] == words[0];
    }
  }

  // ------------------------------------------------------------------- all lines

  ghost predicate Parses(ds: seq<Directive>) {
    forall k :: 0 <= k < |ds| ==> Parse(ds[k]).Ok?
  }

  function KeyOf(d: Directive): Key
    requires Parse(d).Ok?
  {
    var p := Parse(d).value;
    (p.0, p.1.tier)
  }

  // No entrypoint is named by two lines, at whatever tiers.
  ghost predicate NamesApart(ds: seq<Directive>)
    requires Parses(ds)
  {
    forall j, k :: 0 <= j < k < |ds| ==> KeyOf(ds[j]).0 != KeyOf(ds[k]).0
  }

  // The table has each line's variant, under its name and tier, and nothing else.
  ghost predicate Tabulates(t: Table, ds: seq<Directive>)
    requires Parses(ds)
  {
    && (forall k :: 0 <= k < |ds| ==> KeyOf(ds[k]) in t && t[KeyOf(ds[k])] == Parse(ds[k]).value.1)
    && (forall key :: key in t ==> Named(ds, key))
  }

  ghost predicate Named(ds: seq<Directive>, key: Key)
    requires Parses(ds)
  {
    exists k :: 0 <= k < |ds| && KeyOf(ds[k]) == key
  }

  ghost predicate KeysApart(ds: seq<Directive>)
    requires Parses(ds)
  {
    forall j, k :: 0 <= j < k < |ds| ==> KeyOf(ds[j]) != KeyOf(ds[k])
  }

  // What a refusal says is so.
  ghost predicate Blames(ds: seq<Directive>, r: Refusal) {
    match r
    case BadLine(why) => exists k :: 0 <= k < |ds| && Parse(ds[k]) == Err(why)
    case Twice(name, tier) => exists j, k :: 0 <= j < k < |ds| && HasKey(ds[j], (name, tier)) && HasKey(ds[k], (name, tier))
    case TwoTiers(name, a, b) =>
      a != b && exists j, k :: 0 <= j < |ds| && 0 <= k < |ds| && HasKey(ds[j], (name, a)) && HasKey(ds[k], (name, b))
  }

  ghost predicate HasKey(d: Directive, key: Key) {
    Parse(d).Ok? && KeyOf(d) == key
  }

  // No two keys of one name.
  ghost predicate OneTier(keys: set<Key>) {
    forall k, k' :: k in keys && k' in keys && k.0 == k'.0 ==> k == k'
  }

  // The second pass, over the table's keys.
  method OneTierEach(keys: set<Key>) returns (clash: Option<(string, Tier, Tier)>)
    ensures clash.None? ==> OneTier(keys)
    ensures clash.Some? ==> (clash.value.0, clash.value.1) in keys && (clash.value.0, clash.value.2) in keys
                            && clash.value.1 != clash.value.2
  {
    var seen: map<string, Tier> := map[];
    var rest := keys;
    while |rest| > 0
      invariant rest <= keys
      invariant forall k :: k in keys - rest ==> k.0 in seen && seen[k.0] == k.1
      invariant forall name :: name in seen ==> (name, seen[name]) in keys - rest
      decreases |rest|
    {
      var key :| key in rest;
      if key.0 in seen {
        return Some((key.0, seen[key.0], key.1));
      }
      seen := seen[key.0 := key.1];
      rest := rest - {key};
    }
    return None;
  }

  lemma OneMoreLine(ds: seq<Directive>, n: nat, t: Table)
    requires n < |ds| && Parses(ds[..n]) && KeysApart(ds[..n]) && Tabulates(t, ds[..n])
    requires Parse(ds[n]).Ok? && KeyOf(ds[n]) !in t
    ensures Parses(ds[..n + 1]) && KeysApart(ds[..n + 1])
    ensures Tabulates(t[KeyOf(ds[n]) := Parse(ds[n]).value.1], ds[..n + 1])
  {
    hide Parse, KeyOf;
    var t', now := t[KeyOf(ds[n]) := Parse(ds[n]).value.1], ds[..n + 1];
    assert forall k :: 0 <= k < n ==> now[k] == ds[..n][k];
    forall key | key in t' ensures Named(now, key) {
      if key == KeyOf(ds[n]) {
        assert KeyOf(now[n]) == key;
      } else {
        assert Named(ds[..n], key);
        var k :| 0 <= k < n && KeyOf(ds[..n][k]) == key;
        assert KeyOf(now[k]) == key;
      }
    }
  }

  lemma TwiceIsBlamed(ds: seq<Directive>, n: nat, t: Table)
    requires n < |ds| && Parses(ds[..n]) && Tabulates(t, ds[..n]) && Parse(ds[n]).Ok? && KeyOf(ds[n]) in t
    ensures var key := KeyOf(ds[n]); Blames(ds, Twice(key.0, key.1))
  {
    hide Parse, KeyOf;
    var key := KeyOf(ds[n]);
    assert Named(ds[..n], key);
    var j :| 0 <= j < n && KeyOf(ds[..n][j]) == key;
    assert HasKey(ds[j], (key.0, key.1)) && HasKey(ds[n], (key.0, key.1));
  }

  lemma ClashIsBlamed(ds: seq<Directive>, t: Table, name: string, a: Tier, b: Tier)
    requires Parses(ds) && Tabulates(t, ds) && (name, a) in t && (name, b) in t && a != b
    ensures Blames(ds, TwoTiers(name, a, b))
  {
    hide Parse, KeyOf;
    assert Named(ds, (name, a)) && Named(ds, (name, b));
    var j :| 0 <= j < |ds| && KeyOf(ds[j]) == (name, a);
    var k :| 0 <= k < |ds| && KeyOf(ds[k]) == (name, b);
    assert HasKey(ds[j], (name, a)) && HasKey(ds[k], (name, b));
  }

  // A refused tree is one with a bad line or a name on two.
  lemma BlamedIsWrong(ds: seq<Directive>, r: Refusal)
    requires Blames(ds, r)
    ensures !(Parses(ds) && NamesApart(ds))
  {
    hide Parse;
    match r
    case BadLine(why) =>
    case Twice(name, tier) =>
    case TwoTiers(name, a, b) =>
      var j, k :| 0 <= j < |ds| && 0 <= k < |ds| && HasKey(ds[j], (name, a)) && HasKey(ds[k], (name, b));
      if Parses(ds) {
        assert KeyOf(ds[j]).0 == KeyOf(ds[k]).0 && j != k;
      }
  }

  lemma NoClash(ds: seq<Directive>, t: Table)
    requires Parses(ds) && KeysApart(ds) && Tabulates(t, ds) && OneTier(t.Keys)
    ensures NamesApart(ds)
  {
    hide Parse, KeyOf;
    forall j, k | 0 <= j < k < |ds| ensures KeyOf(ds[j]).0 != KeyOf(ds[k]).0 {
      assert KeyOf(ds[j]) in t && KeyOf(ds[k]) in t;
    }
  }

  // A table is made exactly when every line is well formed and names its own
  // entrypoint.
  method Collect(ds: seq<Directive>) returns (r: Result<Table, Refusal>)
    ensures r.Ok? <==> Parses(ds) && NamesApart(ds)
    ensures r.Ok? ==> Tabulates(r.value, ds)
    ensures r.Err? ==> Blames(ds, r.error)
  {
    hide Parse;
    var table: Table := map[];
    var n := 0;
    while n < |ds|
      invariant n <= |ds| && Parses(ds[..n]) && KeysApart(ds[..n]) && Tabulates(table, ds[..n])
    {
      var line := Parse(ds[n]);
      if line.Err? {
        return Err(BadLine(line.error));
      }
      var key := (line.value.0, line.value.1.tier);
      if key in table {
        TwiceIsBlamed(ds, n, table);
        BlamedIsWrong(ds, Twice(key.0, key.1));
        return Err(Twice(key.0, key.1));
      }
      OneMoreLine(ds, n, table);
      table := table[key := line.value.1];
      n := n + 1;
    }
    assert ds[..n] == ds;
    var clash := OneTierEach(table.Keys);
    if clash.Some? {
      var (name, a, b) := clash.value;
      ClashIsBlamed(ds, table, name, a, b);
      BlamedIsWrong(ds, TwoTiers(name, a, b));
      return Err(TwoTiers(name, a, b));
    }
    NoClash(ds, table);
    return Ok(table);
  }

  // The compiled files, one named after each key, are then as many as the keys.
  lemma OutputsApart(ds: seq<Directive>, t: Table, j: Key, k: Key)
    requires Parses(ds) && NamesApart(ds) && Tabulates(t, ds) && j in t && k in t
    ensures j.0 == k.0 ==> j == k
  {
    hide Parse, KeyOf;
    assert Named(ds, j) && Named(ds, k);
    var x :| 0 <= x < |ds| && KeyOf(ds[x]) == j;
    var y :| 0 <= y < |ds| && KeyOf(ds[y]) == k;
  }
}

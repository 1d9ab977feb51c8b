// Where a source tensor's bytes lie, and which rows of it survive.

module Tensors {
  import opened Wrappers
  import opened Text

  type Byte = x: nat | x < 256
  type Bytes = seq<Byte>

  // The file a blob is cached in.
  type Key = string

  // `name.replace("/", "_")`
  function Safe(name: string): string {
    if name == "" then ""
    else [if name[0] == '/' then '_' else name[0]] + Safe(name[1..])
  }

  // Kept from this row on, so many of them; None keeps the whole tensor.
  type Window = Option<(nat, nat)>

  // Two numbers, each after a text of its own.
  function TwoNumbers(tag: string, sep: string, v: (nat, nat)): string {
    tag + Decimal(v.0) + sep + Decimal(v.1)
  }

  function RowsText(window: Window): string {
    match window
    case None => ""
    case Some(kept) => TwoNumbers(".rows", "+", kept)
  }

  // `cache_key`
  function KeyText(name: string, window: Window): Key {
    Safe(name) + RowsText(window) + ".bin"
  }

  class SrcTensor {
    const name: string
    const shard: string
    const shape: seq<nat>
    const start: nat
    const end: nat
    var keepFrom: nat
    var keepRows: Option<nat>

    constructor (name: string, shard: string, shape: seq<nat>, start: nat, end: nat, keepFrom: nat, keepRows: Option<nat>)
      requires start <= end
      ensures this.name == name && this.shard == shard && this.shape == shape
      ensures this.start == start && this.end == end
      ensures this.keepFrom == keepFrom && this.keepRows == keepRows
    {
      this.name, this.shard, this.shape, this.start, this.end := name, shard, shape, start, end;
      this.keepFrom, this.keepRows := keepFrom, keepRows;
    }

    // The rows stored.
    function Height(): nat {
      if |shape| > 0 then shape[0] else 0
    }

    function Nbytes(): int {
      end - start
    }

    function RowBytes(): int {
      if |shape| > 0 && shape[0] != 0 then Nbytes() / shape[0] else Nbytes()
    }

    function FetchStart(): int
      reads this
    {
      start + keepFrom * RowBytes()
    }

    function KeepBytes(): int
      reads this
    {
      if keepRows.None? || |shape| == 0 then Nbytes()
      else if keepFrom == 0 && shape[0] <= keepRows.value then Nbytes()
      else RowBytes() * keepRows.value
    }

    function KeepEnd(): int
      reads this
    {
      FetchStart() + KeepBytes()
    }

    function CacheKey(): Key
      reads this
    {
      KeyText(name, if keepRows.None? then None else Some((keepFrom, keepRows.value)))
    }

    // The download's view of the tensor: which bytes, cached under which key.
    function Fetched(): Fetch
      reads this
    {
      Fetch(CacheKey(), FetchStart(), KeepEnd())
    }
  }

  // Bytes lo .. hi of a shard, to be cached under a key.
  datatype Fetch = Fetch(key: Key, lo: int, hi: int)
  {
    // What asking a shard for the range gives; None is a short read.
    function Got(shard: Bytes): Option<Bytes> {
      if 0 <= lo <= hi <= |shard| then Some(shard[lo..hi]) else None
    }
  }

  type Cache = map<Key, Bytes>

  // ------------------------------------------------------ when two share a blob

  predicate SameSafe(c: char, d: char) {
    c == d || (c in "/_" && d in "/_")
  }

  // Two names are one once safe exactly when they differ in slashes for underscores.
  lemma {:induction false} SafeNamesMeet(a: string, b: string)
    ensures Safe(a) == Safe(b) <==> |a| == |b| && forall i :: 0 <= i < |a| ==> SameSafe(a[i], b[i])
  {
    SafeLength(a);
    SafeLength(b);
    if a != "" && b != "" {
      SafeNamesMeet(a[1..], b[1..]);
      assert a == [a[0]] + a[1..] && b == [b[0]] + b[1..];
      assert Safe(a)[0] == Safe(b)[0] <==> SameSafe(a[0], b[0]);
      assert Safe(a)[1..] == Safe(a[1..]) && Safe(b)[1..] == Safe(b[1..]);
    }
  }

  lemma {:induction false} SafeLength(a: string)
    ensures |Safe(a)| == |a|
  {
    if a != "" {
      SafeLength(a[1..]);
    }
  }

  // A number after something that is no digit can be told from it.
  lemma NumberEnds(x: string, y: string, d: nat, e: nat)
    requires x != "" && y != "" && !IsDigit(x[|x| - 1]) && !IsDigit(y[|y| - 1])
    requires x + Decimal(d) == y + Decimal(e)
    ensures x == y && d == e
  {
    var s := x + Decimal(d);
    assert s[|x| - 1] == x[|x| - 1] && s[|y| - 1] == y[|y| - 1];
    assert |x| == |y|;
    assert x == s[..|x|] && y == s[..|y|] && Decimal(d) == s[|x|..] && Decimal(e) == s[|y|..];
    DigitsOfDecimal(d);
    DigitsOfDecimal(e);
  }

  // A window's text after a name can be told from it.
  lemma WindowEndsKey(x: string, y: string, v: (nat, nat), w: (nat, nat))
    requires x + RowsText(Some(v)) == y + RowsText(Some(w))
    ensures x == y && v == w
  {
    hide Decimal;
    TwoNumbersEnd(x, y, ".rows", "+", v, w);
  }

  lemma TwoNumbersEnd(x: string, y: string, tag: string, sep: string, v: (nat, nat), w: (nat, nat))
    requires tag != "" && !IsDigit(tag[|tag| - 1]) && sep != "" && !IsDigit(sep[|sep| - 1])
    requires x + TwoNumbers(tag, sep, v) == y + TwoNumbers(tag, sep, w)
    ensures x == y && v == w
  {
    hide Decimal;
    var front, front' := x + tag, y + tag;
    var head, head' := front + Decimal(v.0) + sep, front' + Decimal(w.0) + sep;
    assert x + TwoNumbers(tag, sep, v) == head + Decimal(v.1);
    assert y + TwoNumbers(tag, sep, w) == head' + Decimal(w.1);
    hide TwoNumbers;
    NumberEnds(head, head', v.1, w.1);
    SameTail(front + Decimal(v.0), front' + Decimal(w.0), sep);
    NumberEnds(front, front', v.0, w.0);
    SameTail(x, y, tag);
  }

  lemma SameTail(x: string, y: string, tail: string)
    requires x + tail == y + tail
    ensures x == y
  {
    var s := x + tail;
    assert |x| == |y| && x == s[..|x|] && y == s[..|y|];
  }

  // Two tensors share a blob exactly when their safe names and windows are the same, or
  // one is whole and its name reads like the other's with the window after it.
  lemma KeysMeet(a: string, v: Window, b: string, w: Window)
    ensures KeyText(a, v) == KeyText(b, w) <==>
              || (v == w && Safe(a) == Safe(b))
              || (v.Some? && w.None? && Safe(b) == Safe(a) + RowsText(v))
              || (v.None? && w.Some? && Safe(a) == Safe(b) + RowsText(w))
  {
    var x, y := Safe(a) + RowsText(v), Safe(b) + RowsText(w);
    assert KeyText(a, v)[..|x|] == x && KeyText(b, w)[..|y|] == y;
    assert KeyText(a, v) == KeyText(b, w) <==> x == y;
    assert Safe(a) + "" == Safe(a) && Safe(b) + "" == Safe(b);
    if v.Some? && w.Some? && x == y {
      WindowEndsKey(Safe(a), Safe(b), v.value, w.value);
    }
  }

  // A window's blob is named after it.
  lemma KeyOfWindow()
    ensures KeyText("a/w", None) == "a_w.bin" && KeyText("w", Some((0, 4))) == "w.rows0+4.bin"
  {
    FirstFourRows();
    assert Safe("w") == "w" && Safe("/w") == "_w" && Safe("a/w") == "a_w";
    assert "w" + RowsText(Some((0, 4))) + ".bin" == "w.rows0+4.bin";
  }

  // Both can happen.
  lemma BlobsShared()
    ensures KeyText("a/b", None) == KeyText("a_b", None)
    ensures KeyText("w", Some((0, 4))) == KeyText("w.rows0+4", None)
  {
    hide Safe, KeyText, RowsText;
    SafeNamesMeet("a/b", "a_b");
    KeysMeet("a/b", None, "a_b", None);
    SafeIsName("w");
    SafeIsName("w.rows0+4");
    FirstFourRows();
    KeysMeet("w", Some((0, 4)), "w.rows0+4", None);
  }

  lemma FirstFourRows()
    ensures "w" + RowsText(Some((0, 4))) == "w.rows0+4"
  {
    assert Decimal(0) == "0" && Decimal(4) == "4";
    assert RowsText(Some((0, 4))) == ".rows" + "0" + "+" + "4";
  }

  // A name is its own safe form exactly when it has no slash.
  lemma {:induction false} SafeIsName(name: string)
    ensures Safe(name) == name <==> '/' !in name
  {
    if name != "" {
      SafeIsName(name[1..]);
      assert name == [name[0]] + name[1..];
      assert Safe(name)[0] == name[0] <==> name[0] != '/';
      assert Safe(name)[1..] == Safe(name[1..]);
    }
  }
}

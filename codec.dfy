/**
  The serializer collaborator of the cache: values are turned into an opaque blob
  before the adapter stores them, and turned back on read.

  The repository's default serializer is not part of this model, so its wire
  format is not reproduced. This module is a stand-in codec over integer tokens
  that has the one property the cache relies on, the round-trip law
  `Decode(Encode(v)) == Some(v)`, proved below rather than assumed. A blob that
  does not parse decodes to `None` (a codec failure, which the cache treats as a miss).
*/
module Codec {
  import opened Wrappers

  /** The application values the model lets a caller store: a subset of PHP's `mixed`. */
  datatype Value =
    | Null
    | Bool(b: bool)
    | Int(i: int)
    | Str(s: string)
    | List(items: seq<Value>)

  /** The opaque byte-string an adapter persists. */
  type Blob = seq<int>

  const NullTag := 0
  const BoolTag := 1
  const IntTag := 2
  const StrTag := 3
  const ListTag := 4

  /** A token that is the code point of some `char`. */
  predicate IsCharCode(c: int) {
    0 <= c < 0xD800 || 0xE000 <= c < 0x11_0000
  }

  function EncodeChars(s: string): (r: seq<int>)
    ensures |r| == |s|
    ensures forall i :: 0 <= i < |s| ==> r[i] == s[i] as int && IsCharCode(r[i])
  {
    seq(|s|, i requires 0 <= i < |s| => s[i] as int)
  }

  function DecodeChars(codes: seq<int>): (r: Option<string>)
    ensures r.Some? <==> forall i :: 0 <= i < |codes| ==> IsCharCode(codes[i])
    ensures r.Some? ==> EncodeChars(r.value) == codes
  {
    if forall i :: 0 <= i < |codes| ==> IsCharCode(codes[i]) then
      Some(seq(|codes|, i requires 0 <= i < |codes| => codes[i] as char))
    else
      None
  }

  function Encode(v: Value): (b: Blob)
    decreases v, 1
  {
    match v
    case Null => [NullTag]
    case Bool(b) => [BoolTag, if b then 1 else 0]
    case Int(i) => [IntTag, i]
    case Str(s) => [StrTag, |s|] + EncodeChars(s)
    case List(items) => [ListTag, |items|] + EncodeAll(items)
  }

  /** The encodings of `items`, one after the other. */
  function EncodeAll(items: seq<Value>): (b: Blob)
    decreases items, 0
  {
    if items == [] then [] else Encode(items[0]) + EncodeAll(items[1..])
  }

  /**
    Parses one value from the front of `s`; on success returns the value and the
    tokens after it, which are strictly fewer than `s`.
  */
  function DecodeValue(s: seq<int>): (r: Option<(Value, seq<int>)>)
    ensures r.Some? ==> |r.value.1| < |s| && r.value.1 == s[|s| - |r.value.1|..]
    decreases |s|, 0
  {
    if |s| == 0 then None
    else if s[0] == NullTag then Some((Null, s[1..]))
    else if |s| < 2 then None
    else if s[0] == BoolTag then
      if s[1] == 0 then Some((Bool(false), s[2..]))
      else if s[1] == 1 then Some((Bool(true), s[2..]))
      else None
    else if s[0] == IntTag then Some((Int(s[1]), s[2..]))
    else if s[0] == StrTag then
      var n := s[1];
      if n < 0 || |s| < 2 + n then None
      else
        match DecodeChars(s[2..2 + n])
        case None => None
        case Some(str) => Some((Str(str), s[2 + n..]))
    else if s[0] == ListTag then
      var n := s[1];
      if n < 0 then None
      else
        match DecodeItems(s[2..], n)
        case None => None
        case Some((items, rest)) => Some((List(items), rest))
    else None
  }

  /** Parses `n` values in a row from the front of `s`. */
  function DecodeItems(s: seq<int>, n: nat): (r: Option<(seq<Value>, seq<int>)>)
    ensures r.Some? ==> |r.value.0| == n && |r.value.1| <= |s| && r.value.1 == s[|s| - |r.value.1|..]
    decreases |s|, 1, n
  {
    if n == 0 then Some(([], s))
    else
      match DecodeValue(s)
      case None => None
      case Some((v, rest)) =>
        match DecodeItems(rest, n - 1)
        case None => None
        case Some((vs, rest')) => Some(([v] + vs, rest'))
  }

  /** A blob is accepted only when it is exactly one encoded value. */
  function Decode(b: Blob): (r: Option<Value>) {
    match DecodeValue(b)
    case Some((v, rest)) => if rest == [] then Some(v) else None
    case None => None
  }

  lemma {:induction false} DecodeValueEncode(v: Value, rest: seq<int>)
    ensures DecodeValue(Encode(v) + rest) == Some((v, rest))
    decreases v, 1
  {
    var s := Encode(v) + rest;
    match v
    case Null =>
      assert s[1..] == rest;
    case Bool(b) =>
      assert s[2..] == rest;
    case Int(i) =>
      assert s[2..] == rest;
    case Str(str) =>
      var n := |str|;
      assert s[2..2 + n] == EncodeChars(str);
      assert s[2 + n..] == rest;
      var d := DecodeChars(EncodeChars(str));
      assert d.Some?;
      assert EncodeChars(d.value) == EncodeChars(str);
      EncodeCharsInjective(d.value, str);
    case List(items) =>
      assert s[2..] == EncodeAll(items) + rest;
      DecodeItemsEncodeAll(items, rest);
  }

  lemma {:induction false} DecodeItemsEncodeAll(items: seq<Value>, rest: seq<int>)
    ensures DecodeItems(EncodeAll(items) + rest, |items|) == Some((items, rest))
    decreases items, 0
  {
    if items != [] {
      var tail := EncodeAll(items[1..]) + rest;
      assert EncodeAll(items) + rest == Encode(items[0]) + tail;
      DecodeValueEncode(items[0], tail);
      DecodeItemsEncodeAll(items[1..], rest);
      assert [items[0]] + items[1..] == items;
    }
  }

  lemma EncodeCharsInjective(a: string, b: string)
    requires EncodeChars(a) == EncodeChars(b)
    ensures a == b
  {
    assert |a| == |b|;
    forall i | 0 <= i < |a| ensures a[i] == b[i] {
      assert (a[i] as int) as char == (b[i] as int) as char;
    }
  }

  /** The serializer round-trip law: every stored value reads back unchanged. */
  lemma RoundTrip(v: Value)
    ensures Decode(Encode(v)) == Some(v)
  {
    DecodeValueEncode(v, []);
    assert Encode(v) + [] == Encode(v);
  }
}

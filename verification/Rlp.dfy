/** Recursive Length Prefix encoding, Appendix B of the Ethereum Yellow Paper:
    byte strings and nested lists, and the strict decoder that accepts exactly
    the canonical encodings. */
module Rlp {
  import opened Bytes

  datatype Item = Str(data: bytes) | List(items: seq<Item>)

  /** Payload lengths must fit the eight length bytes a header can carry. */
  const LENGTH_BYTES := 8

  predicate Fits(length: nat) { length < Pow256(LENGTH_BYTES) }

  // ---------------------------------------------------------------- encoding

  function HeaderSize(length: nat): nat {
    if length <= 55 then 1 else 1 + |Minimal(length)|
  }

  function Size(item: Item): nat
    decreases item, 1
  {
    match item
    case Str(s) => if |s| == 1 && s[0] < 0x80 then 1 else HeaderSize(|s|) + |s|
    case List(items) => var n := SizeAll(items); HeaderSize(n) + n
  }

  function SizeAll(items: seq<Item>): nat
    decreases items, 0
  {
    if items == [] then 0 else Size(items[0]) + SizeAll(items[1..])
  }

  predicate Encodable(item: Item)
    decreases item, 1
  {
    match item
    case Str(s) => Fits(|s|)
    case List(items) => EncodableAll(items) && Fits(SizeAll(items))
  }

  predicate EncodableAll(items: seq<Item>)
    decreases items, 0
  {
    items == [] || (Encodable(items[0]) && EncodableAll(items[1..]))
  }

  /** The length prefix: base 0x80 for strings, 0xc0 for lists. */
  function Header(base: byte, length: nat): (h: bytes)
    requires base == 0x80 || base == 0xc0
    requires Fits(length)
    ensures |h| == HeaderSize(length)
  {
    if length <= 55 then [base + length]
    else
      MinimalLength(length, LENGTH_BYTES);
      [base + 55 + |Minimal(length)|] + Minimal(length)
  }

  function EncodeStr(s: bytes): bytes
    requires Fits(|s|)
  {
    if |s| == 1 && s[0] < 0x80 then s else Header(0x80, |s|) + s
  }

  function Encode(item: Item): (e: bytes)
    requires Encodable(item)
    ensures |e| == Size(item)
    decreases item, 1
  {
    match item
    case Str(s) => EncodeStr(s)
    case List(items) => Header(0xc0, SizeAll(items)) + EncodeAll(items)
  }

  function EncodeAll(items: seq<Item>): (e: bytes)
    requires EncodableAll(items)
    ensures |e| == SizeAll(items)
    decreases items, 0
  {
    if items == [] then [] else Encode(items[0]) + EncodeAll(items[1..])
  }

  // ---------------------------------------------------------------- decoding

  /** Reads one header and cuts the payload it announces; refuses a header
      longer than necessary. */
  function Split(s: bytes, base: byte): (r: Option<(bytes, bytes)>)
    requires s != [] && base <= s[0] < base + 64
    ensures r.Some? ==> |r.value.0| < |s| && |r.value.1| < |s|
  {
    var tag := s[0] - base;
    if tag <= 55 then
      if |s| < 1 + tag then None else Some((s[1..1 + tag], s[1 + tag..]))
    else
      var k := tag - 55;
      if |s| < 1 + k || s[1] == 0 then None
      else
        var length := Value(s[1..1 + k]);
        if length <= 55 || |s| < 1 + k + length then None
        else Some((s[1 + k..1 + k + length], s[1 + k + length..]))
  }

  /** Decodes one item from the front and returns what follows it. */
  function Decode(s: bytes): (r: Option<(Item, bytes)>)
    ensures r.Some? ==> |r.value.1| < |s|
    decreases |s|, 0
  {
    if s == [] then None
    else if s[0] < 0x80 then Some((Str(s[..1]), s[1..]))
    else if s[0] < 0xc0 then
      match Split(s, 0x80)
      case None => None
      case Some((p, rest)) =>
        if |p| == 1 && p[0] < 0x80 then None else Some((Str(p), rest))
    else
      match Split(s, 0xc0)
      case None => None
      case Some((p, rest)) =>
        match DecodeAll(p)
        case None => None
        case Some(items) => Some((List(items), rest))
  }

  function DecodeAll(s: bytes): Option<seq<Item>>
    decreases |s|, 1
  {
    if s == [] then Some([])
    else
      match Decode(s)
      case None => None
      case Some((item, rest)) =>
        match DecodeAll(rest)
        case None => None
        case Some(items) => Some([item] + items)
  }

  // ------------------------------------------------------------------ proofs

  lemma SmallFits(n: nat)
    requires n < 256
    ensures Fits(n)
  {
    Pow256Monotonic(1, LENGTH_BYTES);
    assert Pow256(1) == 256 * Pow256(0);
  }

  lemma HeaderOfLength(n: nat)
    requires 0 < n && Fits(n)
    ensures var m := Minimal(n); 0 < |m| <= LENGTH_BYTES && m[0] != 0 && Value(m) == n
  {
    MinimalLength(n, LENGTH_BYTES);
    ValueOfMinimal(n);
  }

  lemma SplitOfHeader(base: byte, p: bytes, rest: bytes)
    requires base == 0x80 || base == 0xc0
    requires Fits(|p|)
    ensures var s := Header(base, |p|) + p + rest;
      base <= s[0] < base + 64 && Split(s, base) == Some((p, rest))
  {
    hide Minimal, Value, Fits;
    var s := Header(base, |p|) + p + rest;
    if |p| <= 55 {
      assert s[1..1 + |p|] == p && s[1 + |p|..] == rest;
    } else {
      var m := Minimal(|p|);
      HeaderOfLength(|p|);
      assert s[1..1 + |m|] == m && s[1] == m[0];
      assert s[1 + |m|..1 + |m| + |p|] == p && s[1 + |m| + |p|..] == rest;
    }
  }

  lemma LengthOfHeader(m: bytes)
    requires m != [] && m[0] != 0 && |m| <= LENGTH_BYTES
    ensures Fits(Value(m)) && Minimal(Value(m)) == m
  {
    BigEndianOfValue(m);
    Pow256Monotonic(|m|, LENGTH_BYTES);
    MinimalOfValue(m);
  }

  lemma HeaderOfSplit(base: byte, s: bytes, p: bytes, rest: bytes)
    requires base == 0x80 || base == 0xc0
    requires s != [] && base <= s[0] < base + 64
    requires Split(s, base) == Some((p, rest))
    ensures Fits(|p|) && s == Header(base, |p|) + p + rest
  {
    hide Minimal, Value, Fits;
    var tag := s[0] - base;
    if tag <= 55 {
      SmallFits(|p|);
      assert s == [s[0]] + p + rest;
    } else {
      var m := s[1..1 + tag - 55];
      LengthOfHeader(m);
      assert Header(base, |p|) == [s[0]] + m;
      assert s == [s[0]] + m + p + rest;
    }
  }

  /** Decoding undoes encoding and stops exactly where the encoding ends. */
  lemma {:induction false} DecodeOfEncode(item: Item, rest: bytes)
    requires Encodable(item)
    ensures Decode(Encode(item) + rest) == Some((item, rest))
    decreases item, 1
  {
    match item
    case Str(s) =>
      if |s| == 1 && s[0] < 0x80 {
        assert (s + rest)[..1] == s && (s + rest)[1..] == rest;
      } else {
        SplitOfHeader(0x80, s, rest);
      }
    case List(items) =>
      SplitOfHeader(0xc0, EncodeAll(items), rest);
      DecodeAllOfEncodeAll(items);
  }

  lemma {:induction false} DecodeAllOfEncodeAll(items: seq<Item>)
    requires EncodableAll(items)
    ensures DecodeAll(EncodeAll(items)) == Some(items)
    decreases items, 0
  {
    if items != [] {
      DecodeOfEncode(items[0], EncodeAll(items[1..]));
      DecodeAllOfEncodeAll(items[1..]);
      assert items == [items[0]] + items[1..];
    }
  }

  /** Whatever the decoder accepts is the encoding of what it returns: there is
      one accepted byte string per item. */
  lemma {:induction false} EncodeOfDecode(s: bytes)
    requires Decode(s).Some?
    ensures var (item, rest) := Decode(s).value;
      Encodable(item) && s == Encode(item) + rest
    decreases |s|, 0
  {
    var (item, rest) := Decode(s).value;
    if s[0] < 0x80 {
      SmallFits(1);
      assert s == s[..1] + s[1..];
    } else if s[0] < 0xc0 {
      HeaderOfSplit(0x80, s, item.data, rest);
    } else {
      var (p, _) := Split(s, 0xc0).value;
      HeaderOfSplit(0xc0, s, p, rest);
      EncodeAllOfDecodeAll(p);
    }
  }

  lemma {:induction false} EncodeAllOfDecodeAll(s: bytes)
    requires DecodeAll(s).Some?
    ensures var items := DecodeAll(s).value;
      EncodableAll(items) && s == EncodeAll(items)
    decreases |s|, 1
  {
    if s != [] {
      EncodeOfDecode(s);
      var (item, rest) := Decode(s).value;
      EncodeAllOfDecodeAll(rest);
      assert DecodeAll(s).value[1..] == DecodeAll(rest).value;
    }
  }

  /** No encoding is a proper prefix of another, and equal encodings come from
      equal items. */
  lemma PrefixFree(a: Item, b: Item, afterA: bytes, afterB: bytes)
    requires Encodable(a) && Encodable(b)
    requires Encode(a) + afterA == Encode(b) + afterB
    ensures a == b && afterA == afterB
  {
    DecodeOfEncode(a, afterA);
    DecodeOfEncode(b, afterB);
  }

  /** The first bytes of a byte string's encoding, by its length: one byte below 0x80 is
      itself; up to 55 bytes follow 0x80 plus their number; longer ones follow 0xb7 plus
      the number of length bytes, and the length. */
  lemma StringLayout(s: bytes)
    requires Fits(|s|)
    ensures var e := Encode(Str(s));
      if |s| == 1 && s[0] < 0x80 then e == s
      else if |s| <= 55 then e == [0x80 + |s|] + s
      else exists length :: Spells(length, |s|) && e == [0xb7 + |length|] + length + s
  {
    if |s| > 55 {
      LengthBytes(|s|);
      assert Encode(Str(s)) == [0xb7 + |Minimal(|s|)|] + Minimal(|s|) + s;
    }
  }

  /** And of a list's, by the length of its items' encodings. */
  lemma ListLayout(items: seq<Item>)
    requires Encodable(List(items))
    ensures var e, body := Encode(List(items)), EncodeAll(items);
      if |body| <= 55 then e == [0xc0 + |body|] + body
      else exists length :: Spells(length, |body|) && e == [0xf7 + |length|] + length + body
  {
    var body := EncodeAll(items);
    if |body| > 55 {
      LengthBytes(|body|);
      assert Encode(List(items)) == [0xf7 + |Minimal(|body|)|] + Minimal(|body|) + body;
    }
  }

  lemma LengthBytes(n: nat)
    requires 55 < n && Fits(n)
    ensures Spells(Minimal(n), n)
  {
    HeaderOfLength(n);
  }

  /** At most eight bytes, big-endian, without leading zeros. */
  ghost predicate Spells(length: bytes, n: nat) {
    1 <= |length| <= 8 && length[0] != 0 && Value(length) == n
  }

  // ------------------------------------------- byte strings one after another

  predicate AllFit(batches: seq<bytes>) {
    forall i :: 0 <= i < |batches| ==> Fits(|batches[i]|)
  }

  /** The accepted raw bytes of a channel: each batch wrapped as a byte string. */
  function Wrap(batches: seq<bytes>): bytes
    requires AllFit(batches)
  {
    if batches == [] then [] else EncodeStr(batches[0]) + Wrap(batches[1..])
  }

  /** Reads byte strings from the front until one is missing or malformed. */
  function ReadStrings(raw: bytes): seq<bytes>
    decreases |raw|
  {
    match Decode(raw)
    case Some((Str(b), rest)) => [b] + ReadStrings(rest)
    case _ => []
  }

  lemma {:induction false} WrapSnoc(batches: seq<bytes>, last: bytes)
    requires AllFit(batches) && Fits(|last|)
    ensures AllFit(batches + [last])
    ensures Wrap(batches + [last]) == Wrap(batches) + EncodeStr(last)
  {
    hide EncodeStr, Fits;
    if batches == [] {
      assert batches + [last] == [last];
      assert Wrap([last]) == EncodeStr(last) + Wrap([]);
    } else {
      WrapSnoc(batches[1..], last);
      assert (batches + [last])[1..] == batches[1..] + [last];
    }
  }

  /** A batch cut short anywhere is not readable. */
  lemma CutStringUnreadable(b: bytes, n: nat)
    requires Fits(|b|) && n < |EncodeStr(b)|
    ensures Decode(EncodeStr(b)[..n]).None? && ReadStrings(EncodeStr(b)[..n]) == []
  {
    hide Decode;
    assert Encode(Str(b)) == EncodeStr(b);
    hide Encode, EncodeStr, Encodable, Fits;
    var cut, lost := EncodeStr(b)[..n], EncodeStr(b)[n..];
    if Decode(cut).Some? {
      EncodeOfDecode(cut);
      var (item, rest) := Decode(cut).value;
      Assoc(Encode(item), rest, lost);
      assert cut + lost == EncodeStr(b) + [];
      PrefixFree(item, Str(b), rest + lost, []);
    }
  }

  /** How many leading batches lie entirely within the first `limit` raw bytes. */
  function WholeWithin(batches: seq<bytes>, limit: nat): (k: nat)
    requires AllFit(batches)
    ensures k <= |batches|
  {
    if batches == [] || |EncodeStr(batches[0])| > limit then 0
    else 1 + WholeWithin(batches[1..], limit - |EncodeStr(batches[0])|)
  }

  lemma ReadNext(b: bytes, after: bytes)
    requires Fits(|b|)
    ensures ReadStrings(EncodeStr(b) + after) == [b] + ReadStrings(after)
  {
    assert Encode(Str(b)) == EncodeStr(b);
    hide Decode, Encode, EncodeStr;
    DecodeOfEncode(Str(b), after);
  }

  /** The raw bytes of a channel are uniquely decodable, and a reader that stops
      after `limit` bytes gets exactly the batches that end within them. */
  lemma {:induction false} ReadWrapped(batches: seq<bytes>, limit: nat)
    requires AllFit(batches)
    ensures ReadStrings(Wrap(batches)[..Min(limit, |Wrap(batches)|)])
         == batches[..WholeWithin(batches, limit)]
    ensures limit >= |Wrap(batches)| ==> WholeWithin(batches, limit) == |batches|
    decreases |batches|
  {
    if batches != [] {
      assert AllFit(batches[1..]) && Fits(|batches[0]|);
      hide ReadStrings, EncodeStr, Fits, AllFit;
      var head, tail := EncodeStr(batches[0]), Wrap(batches[1..]);
      CutJoined(head, tail, limit);
      if |head| > limit {
        CutStringUnreadable(batches[0], limit);
      } else {
        var left := limit - |head|;
        ReadNext(batches[0], tail[..Min(left, |tail|)]);
        ReadWrapped(batches[1..], left);
        TakeOneMore(batches, WholeWithin(batches[1..], left));
      }
    }
  }

  lemma CutJoined(head: bytes, tail: bytes, limit: nat)
    ensures (head + tail)[..Min(limit, |head + tail|)]
         == if |head| > limit then head[..limit] else head + tail[..Min(limit - |head|, |tail|)]
  {
  }

  lemma TakeOneMore(batches: seq<bytes>, k: nat)
    requires k < |batches|
    ensures batches[..k + 1] == [batches[0]] + batches[1..][..k]
  {
  }
}

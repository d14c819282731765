/** The EIP-4844 blob codec. A blob of `r` rounds is 4*r field elements of 32
    bytes. Every group of four carries 127 payload bytes: 31 in each element and
    three more (x, y, z) spread as 6-bit chunks over the four high bytes.
    The deployed codec has 1024 rounds; the proofs hold for any number of rounds
    whose payload length fits the three length bytes. */
module BlobCodec {
  import opened Bytes

  datatype EncodeError = DataTooLarge(size: nat)

  datatype DecodeError =
    | InvalidFieldElement(offset: nat)
    | InvalidEncodingVersion(version: byte)
    | InvalidLength(length: nat)
    | NonZeroPadding(offset: nat)

  const BLOB_ENCODING_ROUNDS: nat := 1024

  predicate ValidRounds(r: nat) {
    1 <= r && 127 * r - 4 < 0x100_0000
  }

  function MaxData(r: nat): nat
    requires r >= 1
  {
    127 * r - 4
  }

  // ------------------------------------------------------ the blob as a stream

  /** Encoding version 0 and the three low bytes of the payload length. */
  function BlobHeader(length: nat): (h: bytes)
    ensures |h| == 4
  {
    [0, length / 0x1_0000 % 256, length / 0x100 % 256, length % 256]
  }

  /** Header, payload, zeros: 127 bytes a round. */
  function Stream(r: nat, data: bytes): (s: bytes)
    requires 1 <= r && |data| <= MaxData(r)
    ensures |s| == 127 * r
  {
    BlobHeader(|data|) + data + Zeros(MaxData(r) - |data|)
  }

  /** The four high bytes of a group carrying x, y and z. */
  function High0(x: byte): byte { x % 64 }
  function High1(x: byte, y: byte): byte { x / 64 % 4 * 16 + y % 16 }
  function High2(z: byte): byte { z % 64 }
  function High3(y: byte, z: byte): byte { y / 16 % 16 + z / 64 % 4 * 16 }

  /** Byte `i` of the four field elements that carry the 127 stream bytes `g`. */
  function PackByte(g: bytes, i: nat): byte
    requires |g| == 127 && i < 128
  {
    if i == 0 then High0(g[31])
    else if i == 32 then High1(g[31], g[63])
    else if i == 64 then High2(g[95])
    else if i == 96 then High3(g[63], g[95])
    else g[i - 1]
  }

  function PackRound(g: bytes): (p: bytes)
    requires |g| == 127
    ensures |p| == 128
  {
    seq(128, i requires 0 <= i < 128 => PackByte(g, i))
  }

  /** Bits 0-5 of one high byte and bits 4-5 of another: `(a & 0x3f) | ((b & 0x30) << 2)`. */
  function Join6And2(a: byte, b: byte): byte { a % 64 + b / 16 % 4 * 64 }

  /** Two low nibbles: `(a & 0x0f) | ((b & 0x0f) << 4)`. */
  function JoinNibbles(a: byte, b: byte): byte { a % 16 + b % 16 * 16 }

  /** Byte `i` of the stream bytes that four field elements carry. */
  function UnpackByte(p: bytes, i: nat): byte
    requires |p| == 128 && i < 127
  {
    if i == 31 then Join6And2(p[0], p[32])
    else if i == 63 then JoinNibbles(p[32], p[96])
    else if i == 95 then Join6And2(p[64], p[96])
    else p[i + 1]
  }

  function UnpackRound(p: bytes): (g: bytes)
    requires |p| == 128
    ensures |g| == 127
  {
    seq(127, i requires 0 <= i < 127 => UnpackByte(p, i))
  }

  function Pack(r: nat, s: bytes): (b: bytes)
    requires |s| == 127 * r
    ensures |b| == 128 * r
  {
    if r == 0 then [] else Pack(r - 1, s[..127 * (r - 1)]) + PackRound(s[127 * (r - 1)..])
  }

  function Unpack(r: nat, b: bytes): (s: bytes)
    requires |b| == 128 * r
    ensures |s| == 127 * r
  {
    if r == 0 then [] else Unpack(r - 1, b[..128 * (r - 1)]) + UnpackRound(b[128 * (r - 1)..])
  }

  /** The blob that carries a payload. */
  function Encoded(r: nat, data: bytes): (b: bytes)
    requires 1 <= r && |data| <= MaxData(r)
    ensures |b| == 128 * r
  {
    Pack(r, Stream(r, data))
  }

  // ----------------------------------------------------- packing and unpacking

  lemma SplitNibbles(a: nat, b: nat)
    requires b < 16
    ensures (a * 16 + b) / 16 == a && (a * 16 + b) % 16 == b
  {
  }

  lemma SixAndTwo(x: byte)
    ensures x % 64 + x / 64 % 4 * 64 == x && x % 64 % 64 == x % 64
  {
  }

  lemma TwoNibbles(y: byte)
    ensures y % 16 + y / 16 % 16 * 16 == y && y % 16 % 16 == y % 16
  {
  }

  lemma ChunksRoundTrip(x: byte, y: byte, z: byte)
    ensures Join6And2(High0(x), High1(x, y)) == x
    ensures JoinNibbles(High1(x, y), High3(y, z)) == y
    ensures Join6And2(High2(z), High3(y, z)) == z
  {
    SplitNibbles(x / 64 % 4, y % 16);
    SplitNibbles(z / 64 % 4, y / 16 % 16);
    SixAndTwo(x);
    SixAndTwo(z);
    TwoNibbles(y);
    assert x / 64 % 4 % 4 == x / 64 % 4 && z / 64 % 4 % 4 == z / 64 % 4 && y / 16 % 16 % 16 == y / 16 % 16;
  }

  lemma SplitJoined(a: byte, b: byte)
    ensures Join6And2(a, b) % 64 == a % 64 && Join6And2(a, b) / 64 % 4 == b / 16 % 4
    ensures JoinNibbles(a, b) % 16 == a % 16 && JoinNibbles(a, b) / 16 % 16 == b % 16
  {
  }

  lemma SixBits(h: byte)
    requires h < 64
    ensures h / 16 % 4 * 16 + h % 16 == h && h % 64 == h
  {
  }

  lemma HighBytesRoundTrip(h0: byte, h1: byte, h2: byte, h3: byte)
    requires h1 < 64 && h2 < 64 && h3 < 64
    ensures High0(Join6And2(h0, h1)) == h0 % 64
    ensures High1(Join6And2(h0, h1), JoinNibbles(h1, h3)) == h1
    ensures High2(Join6And2(h2, h3)) == h2
    ensures High3(JoinNibbles(h1, h3), Join6And2(h2, h3)) == h3
  {
    assert High0(Join6And2(h0, h1)) == h0 % 64 by { SplitJoined(h0, h1); }
    assert High1(Join6And2(h0, h1), JoinNibbles(h1, h3)) == h1 by {
      SplitJoined(h0, h1);
      SplitJoined(h1, h3);
      SixBits(h1);
    }
    assert High2(Join6And2(h2, h3)) == h2 by { SplitJoined(h2, h3); SixBits(h2); }
    assert High3(JoinNibbles(h1, h3), Join6And2(h2, h3)) == h3 by {
      SplitJoined(h1, h3);
      SplitJoined(h2, h3);
      SixBits(h3);
    }
  }

  lemma UnpackOfPackRound(g: bytes)
    requires |g| == 127
    ensures UnpackRound(PackRound(g)) == g
  {
    ChunksRoundTrip(g[31], g[63], g[95]);
  }

  lemma PackOfUnpackRound(p: bytes)
    requires |p| == 128 && p[32] < 64 && p[64] < 64 && p[96] < 64
    ensures PackRound(UnpackRound(p)) == p[0 := p[0] % 64]
  {
    HighBytesRoundTrip(p[0], p[32], p[64], p[96]);
  }

  lemma {:induction false} UnpackOfPack(r: nat, s: bytes)
    requires |s| == 127 * r
    ensures Unpack(r, Pack(r, s)) == s
  {
    if r > 0 {
      var front, last := s[..127 * (r - 1)], s[127 * (r - 1)..];
      var b := Pack(r, s);
      assert b[..128 * (r - 1)] == Pack(r - 1, front) && b[128 * (r - 1)..] == PackRound(last);
      UnpackOfPack(r - 1, front);
      UnpackOfPackRound(last);
      assert s == front + last;
    }
  }

  /** Only the top two bits of byte 0 are lost by unpacking. */
  lemma {:induction false} PackOfUnpack(r: nat, b: bytes)
    requires 1 <= r && |b| == 128 * r
    requires forall f :: 1 <= f < 4 * r ==> FieldClear(b, f)
    ensures Pack(r, Unpack(r, b)) == b[0 := b[0] % 64]
  {
    var k := r - 1;
    var front, last := b[..128 * k], b[128 * k..];
    ClearRounds(k, b);
    PackOfUnpackStep(k, b);
    PackOfUnpackRound(last);
    hide Pack, Unpack, PackRound, UnpackRound, FieldClear;
    if k == 0 {
      assert last == b;
    } else {
      PackOfUnpack(k, front);
      assert last[0 := last[0] % 64] == last;
      assert b == front + last;
    }
  }

  /** The fields of the rounds before the last, and those of the last. */
  lemma ClearRounds(k: nat, b: bytes)
    requires |b| == 128 * (k + 1) && forall f :: 1 <= f < 4 * (k + 1) ==> FieldClear(b, f)
    ensures forall f :: 1 <= f < 4 * k ==> FieldClear(b[..128 * k], f)
    ensures var last := b[128 * k..]; last[32] < 64 && last[64] < 64 && last[96] < 64 && (k > 0 ==> last[0] < 64)
  {
    forall f | 1 <= f < 4 * k
      ensures FieldClear(b[..128 * k], f)
    {
      assert FieldClear(b, f);
    }
    assert FieldClear(b, 4 * k + 1) && FieldClear(b, 4 * k + 2) && FieldClear(b, 4 * k + 3);
    assert k > 0 ==> FieldClear(b, 4 * k);
  }

  lemma PackOfUnpackStep(k: nat, b: bytes)
    requires |b| == 128 * (k + 1)
    ensures Pack(k + 1, Unpack(k + 1, b)) == Pack(k, Unpack(k, b[..128 * k])) + PackRound(UnpackRound(b[128 * k..]))
    ensures k == 0 ==> Pack(k, Unpack(k, b[..128 * k])) == []
  {
    hide PackRound, UnpackRound;
    var s := Unpack(k + 1, b);
    assert s == Unpack(k, b[..128 * k]) + UnpackRound(b[128 * k..]);
    assert s[..127 * k] == Unpack(k, b[..128 * k]) && s[127 * k..] == UnpackRound(b[128 * k..]);
  }

  lemma ZeroRound(g: bytes, p: bytes)
    requires |g| == 127 && forall i :: 0 <= i < 127 ==> g[i] == 0
    requires |p| == 128 && forall i :: 0 <= i < 128 ==> p[i] == 0
    ensures PackRound(g) == Zeros(128) && UnpackRound(p) == Zeros(127)
  {
  }

  lemma {:induction false} PackPrefix(r: nat, s: bytes, n: nat)
    requires |s| == 127 * r && n <= r
    requires forall i :: 127 * n <= i < 127 * r ==> s[i] == 0
    ensures Pack(r, s) == Pack(n, s[..127 * n]) + Zeros(128 * (r - n))
  {
    if n == r {
      assert s[..127 * n] == s;
    } else {
      var front := s[..127 * (r - 1)];
      PackPrefix(r - 1, front, n);
      assert front[..127 * n] == s[..127 * n];
      ZeroRound(s[127 * (r - 1)..], Zeros(128));
    }
  }

  lemma {:induction false} UnpackPrefix(r: nat, b: bytes, n: nat)
    requires |b| == 128 * r && n <= r
    requires forall i :: 128 * n <= i < 128 * r ==> b[i] == 0
    ensures Unpack(r, b) == Unpack(n, b[..128 * n]) + Zeros(127 * (r - n))
  {
    if n == r {
      assert b[..128 * n] == b;
    } else {
      var front := b[..128 * (r - 1)];
      UnpackPrefix(r - 1, front, n);
      assert front[..128 * n] == b[..128 * n];
      ZeroRound(Zeros(127), b[128 * (r - 1)..]);
    }
  }

  // ------------------------------------------------------------------ encoder

  /** `out[at..at + n].copy_from_slice(&input[from..from + n])` */
  method CopySlice(out: array<byte>, at: nat, input: bytes, from: nat, n: nat)
    requires at + n <= out.Length && from + n <= |input|
    modifies out
    ensures forall i :: 0 <= i < out.Length ==>
      out[i] == if at <= i < at + n then input[i - at + from] else old(out[i])
  {
    forall i | at <= i < at + n {
      out[i] := input[i - at + from];
    }
  }

  /** Writes the chunks of x, y and z into the high bytes of the round at `pos`. */
  method WriteHighBytes(out: array<byte>, pos: nat, x: byte, y: byte, z: byte)
    requires pos + 128 <= out.Length
    modifies out
    ensures forall i :: 0 <= i < out.Length ==>
      out[i] == if i == pos then High0(x) else if i == pos + 32 then High1(x, y)
                else if i == pos + 64 then High2(z) else if i == pos + 96 then High3(y, z) else old(out[i])
  {
    out[pos] := High0(x);
    out[pos + 32] := High1(x, y);
    out[pos + 64] := High2(z);
    out[pos + 96] := High3(y, z);
  }

  lemma Spliced(before: bytes, after: bytes, pos: nat, part: bytes)
    requires pos + |part| <= |before| == |after|
    requires forall i :: 0 <= i < |after| ==> after[i] == if pos <= i < pos + |part| then part[i - pos] else before[i]
    ensures after == before[..pos] + part + before[pos + |part|..]
  {
  }

  /** One round after the first: four field elements from 127 input bytes. */
  method WriteRound(out: array<byte>, pos: nat, input: bytes, from: nat)
    requires pos + 128 <= out.Length && from + 127 <= |input|
    modifies out
    ensures out[..] == old(out[..])[..pos] + PackRound(input[from..from + 127]) + old(out[..])[pos + 128..]
  {
    var ipos := from;
    CopySlice(out, pos + 1, input, ipos, 31);
    ipos := ipos + 31;
    var x := input[ipos];
    ipos := ipos + 1;
    CopySlice(out, pos + 33, input, ipos, 31);
    ipos := ipos + 31;
    var y := input[ipos];
    ipos := ipos + 1;
    CopySlice(out, pos + 65, input, ipos, 31);
    ipos := ipos + 31;
    var z := input[ipos];
    ipos := ipos + 1;
    CopySlice(out, pos + 97, input, ipos, 31);
    WriteHighBytes(out, pos, x, y, z);
    Spliced(old(out[..]), out[..], pos, PackRound(input[from..from + 127]));
  }

  /** Round 0: the header takes the first four payload bytes of element 0. */
  method WriteFirstRound(out: array<byte>, input: bytes, length: nat)
    requires 128 <= out.Length && 123 <= |input|
    modifies out
    ensures out[..] == PackRound(BlobHeader(length) + input[..123]) + old(out[..])[128..]
  {
    hide High0, High1, High2, High3;
    var header := BlobHeader(length);
    hide BlobHeader;
    out[1] := header[0];
    out[2] := header[1];
    out[3] := header[2];
    out[4] := header[3];
    CopySlice(out, 5, input, 0, 27);
    CopySlice(out, 33, input, 28, 31);
    CopySlice(out, 65, input, 60, 31);
    CopySlice(out, 97, input, 92, 31);
    WriteHighBytes(out, 0, input[27], input[59], input[91]);
    Spliced(old(out[..]), out[..], 0, PackRound(header + input[..123]));
  }

  lemma PackGrows(r: nat, s: bytes, k: nat, input: bytes, before: bytes, after: bytes)
    requires 1 <= k < r && |s| == 127 * r && s[4..] == input
    requires before == Pack(k, s[..127 * k]) + Zeros(128 * (r - k))
    requires after == before[..128 * k] + PackRound(input[127 * k - 4..127 * k + 123]) + before[128 * k + 128..]
    ensures after == Pack(k + 1, s[..127 * (k + 1)]) + Zeros(128 * (r - k - 1))
  {
    NextRound(s, input, k);
    PackStep(k, s[..127 * (k + 1)]);
    hide Pack, PackRound;
    assert before[..128 * k] == Pack(k, s[..127 * k]);
    assert before[128 * k + 128..] == Zeros(128 * (r - k - 1));
  }

  /** Round `k` takes the input bytes that are stream bytes 127 k onwards. */
  lemma NextRound(s: bytes, input: bytes, k: nat)
    requires 1 <= k && 127 * (k + 1) <= |s| && s[4..] == input
    ensures var next := s[..127 * (k + 1)];
      next[..127 * k] == s[..127 * k] && next[127 * k..] == input[127 * k - 4..127 * k + 123]
  {
  }

  lemma PackStep(k: nat, s: bytes)
    requires |s| == 127 * (k + 1)
    ensures Pack(k + 1, s) == Pack(k, s[..127 * k]) + PackRound(s[127 * k..])
  {
    hide PackRound;
  }

  lemma PackStarts(r: nat, data: bytes, input: bytes, out: bytes)
    requires 1 <= r && |data| <= MaxData(r) && input == data + Zeros(MaxData(r) - |data|)
    requires out == PackRound(BlobHeader(|data|) + input[..123]) + Zeros(128 * (r - 1))
    ensures var s := Stream(r, data);
      s[4..] == input && out == Pack(1, s[..127]) + Zeros(128 * (r - 1))
  {
    hide PackRound;
    var s, h := Stream(r, data), BlobHeader(|data|);
    assert s == h + input by { Assoc(h, data, Zeros(MaxData(r) - |data|)); }
    assert s[4..] == input;
    assert s[..127] == h + input[..123];
    PackStep(0, s[..127]);
    assert s[..127][127 * 0..] == s[..127] && Pack(0, s[..127][..127 * 0]) == [];
  }

  /** Where the encoder stops, only zeros are left to pack. */
  lemma PackStops(r: nat, data: bytes, k: nat)
    requires 1 <= k <= r && |data| <= MaxData(r)
    requires 127 * (k - 1) < |data| + 4 <= 127 * k
    ensures var s := Stream(r, data);
      Encoded(r, data) == Pack(k, s[..127 * k]) + Zeros(128 * (r - k))
    ensures k == RoundsFor(|data|)
  {
    var s := Stream(r, data);
    assert forall i :: 127 * k <= i < 127 * r ==> s[i] == 0;
    hide Stream;
    PackPrefix(r, s, k);
  }

  /** The rounds after the first, until nothing is left to write: exactly the rounds
      the decoder will read. */
  method WriteRounds(r: nat, data: bytes, input: bytes, out: array<byte>) returns (ghost rounds: nat)
    requires 1 <= r && |data| <= MaxData(r) && out.Length == 128 * r
    requires var s := Stream(r, data); s[4..] == input && out[..] == Pack(1, s[..127]) + Zeros(128 * (r - 1))
    modifies out
    ensures out[..] == Encoded(r, data) && rounds == RoundsFor(|data|)
  {
    hide Pack, Stream, PackRound, Encoded, RoundsFor;
    ghost var s := Stream(r, data);
    var ipos, pos, k := 123, 128, 1;
    while k < r && ipos < |data|
      invariant 1 <= k <= r && 127 * (k - 1) < |data| + 4
      invariant ipos == 127 * k - 4 && pos == 128 * k
      invariant out[..] == Pack(k, s[..127 * k]) + Zeros(128 * (r - k))
    {
      ghost var before := out[..];
      WriteRound(out, pos, input, ipos);
      PackGrows(r, s, k, input, before, out[..]);
      ipos, pos, k := ipos + 127, pos + 128, k + 1;
    }
    PackStops(r, data, k);
    rounds := k;
  }

  /** The encoder stops at the first round with nothing left to write and still produces
      the packed form of the whole stream. */
  method Encode(r: nat, data: bytes) returns (res: Result<bytes, EncodeError>, ghost rounds: nat)
    requires ValidRounds(r)
    ensures |data| > MaxData(r) ==> res == Err(DataTooLarge(|data|))
    ensures |data| <= MaxData(r) ==> res == Ok(Encoded(r, data)) && rounds == RoundsFor(|data|)
  {
    if |data| > MaxData(r) {
      return Err(DataTooLarge(|data|)), 0;
    }
    var input := data + Zeros(MaxData(r) - |data|);
    var out := new byte[128 * r](_ => 0);
    assert out[128..] == Zeros(128 * (r - 1));
    hide Pack, Stream, PackRound, Encoded, RoundsFor, BlobHeader;
    WriteFirstRound(out, input, |data|);
    PackStarts(r, data, input, out[..]);
    rounds := WriteRounds(r, data, input, out);
    res := Ok(out[..]);
  }

  // ------------------------------------------------------------------ decoder

  function DeclaredLength(b: bytes): nat
    requires |b| >= 5
  {
    b[2] as int * 0x1_0000 + b[3] as int * 0x100 + b[4]
  }

  /** Rounds that hold the header and `length` payload bytes. */
  function RoundsFor(length: nat): nat { (length + 4 + 126) / 127 }

  predicate FieldClear(b: bytes, f: nat)
    requires 32 * f < |b|
  {
    b[32 * f] < 64
  }

  /** The first field element in `f..hi` with one of its two top bits set. */
  function FirstBadField(b: bytes, f: nat, hi: nat): Option<nat>
    requires 32 * hi <= |b|
    decreases hi - f
  {
    if f >= hi then None
    else if !FieldClear(b, f) then Some(f)
    else FirstBadField(b, f + 1, hi)
  }

  lemma {:induction false} BadFieldIsFirst(b: bytes, f: nat, hi: nat)
    requires 32 * hi <= |b|
    ensures match FirstBadField(b, f, hi)
      case None => forall g :: f <= g < hi ==> FieldClear(b, g)
      case Some(bad) => f <= bad < hi && !FieldClear(b, bad) && forall g :: f <= g < bad ==> FieldClear(b, g)
    decreases hi - f
  {
    if f < hi && FieldClear(b, f) {
      BadFieldIsFirst(b, f + 1, hi);
    }
  }

  /** The first non-zero byte at or after `from`. */
  function FirstNonZero(s: bytes, from: nat): Option<nat>
    decreases |s| - from
  {
    if from >= |s| then None
    else if s[from] != 0 then Some(from)
    else FirstNonZero(s, from + 1)
  }

  lemma {:induction false} NonZeroIsFirst(s: bytes, from: nat)
    ensures match FirstNonZero(s, from)
      case None => forall i :: from <= i < |s| ==> s[i] == 0
      case Some(k) => from <= k < |s| && s[k] != 0 && forall i :: from <= i < k ==> s[i] == 0
    decreases |s| - from
  {
    if from < |s| && s[from] == 0 {
      NonZeroIsFirst(s, from + 1);
    }
  }

  /** The payload area after `n` rounds have been unpacked into zeros. */
  function Output(r: nat, b: bytes, n: nat): (out: bytes)
    requires 1 <= n <= r && |b| == 128 * r
    ensures |out| == 127 * r - 4
  {
    Unpack(n, b[..128 * n])[4..] + Zeros(127 * (r - n))
  }

  /** What decoding means: the checks in order, each with its first offender. */
  function Decoded(r: nat, b: bytes): Result<bytes, DecodeError>
    requires ValidRounds(r) && |b| == 128 * r
  {
    var length := DeclaredLength(b);
    if b[1] != 0 then Err(InvalidEncodingVersion(b[1]))
    else if length > MaxData(r) then Err(InvalidLength(length))
    else
      var n := RoundsFor(length);
      match FirstBadField(b, 1, 4 * n)
      case Some(f) => Err(InvalidFieldElement(32 * f))
      case None =>
        var out := Output(r, b, n);
        match FirstNonZero(out, length)
        case Some(i) => Err(NonZeroPadding(i))
        case None =>
          match FirstNonZero(b, 128 * n)
          case Some(i) => Err(NonZeroPadding(i))
          case None => Ok(out[..length])
  }

  method DecodeFieldElement(b: bytes, outputPos: nat, inputPos: nat, output: array<byte>)
    returns (res: Result<(byte, nat, nat), DecodeError>)
    requires outputPos + 31 <= output.Length && inputPos + 32 <= |b|
    modifies output
    ensures b[inputPos] >= 64 ==> res == Err(InvalidFieldElement(inputPos))
    ensures b[inputPos] < 64 ==> res == Ok((b[inputPos], outputPos + 32, inputPos + 32))
    ensures res.Ok? ==> forall i :: 0 <= i < output.Length ==>
      output[i] == if outputPos <= i < outputPos + 31 then b[i - outputPos + inputPos + 1] else old(output[i])
  {
    if b[inputPos] / 64 != 0 {
      return Err(InvalidFieldElement(inputPos));
    }
    CopySlice(output, outputPos, b, inputPos + 1, 31);
    res := Ok((b[inputPos], outputPos + 32, inputPos + 32));
  }

  method ReassembleBytes(outputPos: nat, encoded: bytes, output: array<byte>) returns (pos: nat)
    requires 97 <= outputPos <= output.Length + 1 && |encoded| == 4
    modifies output
    ensures pos == outputPos - 1
    ensures forall i :: 0 <= i < output.Length ==>
      output[i] == if i == pos - 32 then Join6And2(encoded[2], encoded[3])
                   else if i == pos - 64 then JoinNibbles(encoded[1], encoded[3])
                   else if i == pos - 96 then Join6And2(encoded[0], encoded[1])
                   else old(output[i])
  {
    pos := outputPos - 1;
    output[pos - 32] := Join6And2(encoded[2], encoded[3]);
    output[pos - 64] := JoinNibbles(encoded[1], encoded[3]);
    output[pos - 96] := Join6And2(encoded[0], encoded[1]);
  }

  /** A round fails at its first bad field element or moves both positions on. */
  ghost predicate RoundOutcome(b: bytes, lo: nat, hi: nat, outputPos: nat, inputPos: nat, res: Result<(nat, nat), DecodeError>)
    requires 32 * hi <= |b|
  {
    match FirstBadField(b, lo, hi)
    case Some(f) => res == Err(InvalidFieldElement(32 * f))
    case None => res == Ok((outputPos, inputPos))
  }

  /** Field elements `first..4` of round `k`, then the reassembled bytes. The
      output starts four bytes into round 0, behind the header. */
  method DecodeRound(r: nat, b: bytes, k: nat, first: nat, output: array<byte>)
    returns (res: Result<(nat, nat), DecodeError>)
    requires k < r && |b| == 128 * r && output.Length == 127 * r - 4
    requires first == if k == 0 then 1 else 0
    requires k == 0 ==> forall i :: 0 <= i < 27 ==> output[i] == b[i + 5]
    modifies output
    ensures RoundOutcome(b, 4 * k + first, 4 * k + 4, 127 * k + 123, 128 * k + 128, res)
    ensures res.Ok? ==> forall i :: 0 <= i < output.Length ==>
      output[i] == if 127 * k - 4 <= i < 127 * k + 123
                   then UnpackByte(b[128 * k..128 * k + 128], i + 4 - 127 * k) else old(output[i])
  {
    var outputPos, inputPos, q := 127 * k + 32 * first - 4, 128 * k + 32 * first, first;
    var encoded := if k == 0 then [b[0]] else [];
    while q < 4
      invariant first <= q <= 4 && |encoded| == q
      invariant outputPos == 127 * k + 32 * q - 4 && inputPos == 128 * k + 32 * q
      invariant FirstBadField(b, 4 * k + first, 4 * k + 4) == FirstBadField(b, 4 * k + q, 4 * k + 4)
      invariant q >= 1 ==> encoded[0] == b[128 * k]
      invariant q >= 2 ==> encoded[1] == b[128 * k + 32]
      invariant q >= 3 ==> encoded[2] == b[128 * k + 64]
      invariant q >= 4 ==> encoded[3] == b[128 * k + 96]
      invariant forall i :: 0 <= i < output.Length && 127 * k - 4 <= i < outputPos - 1 ==>
        i == 127 * k + 27 || i == 127 * k + 59 || i == 127 * k + 91 || output[i] == b[i + k + 5]
      invariant forall i :: 0 <= i < output.Length && (i < 127 * k - 4 || outputPos - 1 <= i) ==> output[i] == old(output[i])
    {
      assert FieldClear(b, 4 * k + q) <==> b[inputPos] < 64;
      var one := DecodeFieldElement(b, outputPos, inputPos, output);
      if one.Err? {
        return Err(one.error);
      }
      encoded := encoded + [one.value.0];
      outputPos, inputPos, q := one.value.1, one.value.2, q + 1;
    }
    outputPos := ReassembleBytes(outputPos, encoded, output);
    res := Ok((outputPos, inputPos));
  }

  /** A scan from `from` that reports the first non-zero byte. */
  method ScanZero(s: bytes, from: nat) returns (res: Option<nat>)
    ensures res == FirstNonZero(s, from)
  {
    var i := from;
    while i < |s|
      invariant FirstNonZero(s, from) == FirstNonZero(s, i)
      decreases |s| - i
    {
      if s[i] != 0 {
        return Some(i);
      }
      i := i + 1;
    }
    res := None;
  }

  method DecodeFirstRound(r: nat, b: bytes, output: array<byte>) returns (res: Result<(nat, nat), DecodeError>)
    requires 1 <= r && |b| == 128 * r && output.Length == MaxData(r)
    requires forall i :: 0 <= i < output.Length ==> output[i] == 0
    modifies output
    ensures RoundOutcome(b, 1, 4, 123, 128, res)
    ensures res.Ok? ==> output[..] == Output(r, b, 1)
  {
    CopySlice(output, 0, b, 5, 27);
    res := DecodeRound(r, b, 0, 1, output);
    if res.Ok? {
      FirstOutput(r, b, output[..]);
    }
  }

  method DecodeNextRound(r: nat, b: bytes, k: nat, output: array<byte>) returns (res: Result<(nat, nat), DecodeError>)
    requires 1 <= k < r && |b| == 128 * r && output.Length == MaxData(r)
    requires output[..] == Output(r, b, k)
    modifies output
    ensures RoundOutcome(b, 4 * k, 4 * k + 4, 127 * k + 123, 128 * k + 128, res)
    ensures res.Ok? ==> output[..] == Output(r, b, k + 1)
  {
    ghost var before := output[..];
    res := DecodeRound(r, b, k, 0, output);
    if res.Ok? {
      OutputGrows(r, b, k, before, output[..]);
    }
  }

  /** Round 0 and then rounds until the declared length is covered: `n` in all. */
  method DecodeRounds(r: nat, b: bytes, length: nat, output: array<byte>, ghost n: nat) returns (res: Result<nat, DecodeError>)
    requires 1 <= n <= r && |b| == 128 * r
    requires 127 * (n - 1) < length + 4 <= 127 * n
    requires output.Length == MaxData(r) && forall i :: 0 <= i < output.Length ==> output[i] == 0
    modifies output
    ensures match FirstBadField(b, 1, 4 * n)
      case Some(f) => res == Err(InvalidFieldElement(32 * f))
      case None => res == Ok(128 * n) && output[..] == Output(r, b, n)
  {
    hide Output;
    var round := DecodeFirstRound(r, b, output);
    BadFieldSplit(b, 1, 4, 4 * n);
    if round.Err? {
      return Err(round.error);
    }
    var (outputPos, inputPos) := round.value;
    var k := 1;
    while k < r && outputPos < length
      invariant 1 <= k <= n
      invariant outputPos == 127 * k - 4 && inputPos == 128 * k
      invariant FirstBadField(b, 1, 4 * n) == FirstBadField(b, 4 * k, 4 * n)
      invariant output[..] == Output(r, b, k)
    {
      BadFieldSplit(b, 4 * k, 4 * k + 4, 4 * n);
      round := DecodeNextRound(r, b, k, output);
      if round.Err? {
        return Err(round.error);
      }
      outputPos, inputPos, k := round.value.0, round.value.1, k + 1;
    }
    res := Ok(inputPos);
  }

  method Decode(r: nat, b: bytes) returns (res: Result<bytes, DecodeError>)
    requires ValidRounds(r) && |b| == 128 * r
    ensures res == Decoded(r, b)
  {
    if b[1] != 0 {
      return Err(InvalidEncodingVersion(b[1]));
    }
    var length := b[2] as int * 0x1_0000 + b[3] as int * 0x100 + b[4];
    if length > MaxData(r) {
      return Err(InvalidLength(length));
    }
    var output := new byte[MaxData(r)](_ => 0);
    var rounds := DecodeRounds(r, b, length, output, RoundsFor(length));
    if rounds.Err? {
      return Err(rounds.error);
    }
    var pad := ScanZero(output[..], length);
    if pad.Some? {
      return Err(NonZeroPadding(pad.value));
    }
    pad := ScanZero(b, rounds.value);
    if pad.Some? {
      return Err(NonZeroPadding(pad.value));
    }
    res := Ok(output[..length]);
  }

  lemma FirstOutput(r: nat, b: bytes, out: bytes)
    requires 1 <= r && |b| == 128 * r && |out| == 127 * r - 4
    requires forall i :: 0 <= i < |out| ==> out[i] == if i < 123 then UnpackByte(b[..128], i + 4) else 0
    ensures out == Output(r, b, 1)
  {
    assert b[..128][128 * 0..] == b[..128];
    assert Unpack(1, b[..128]) == Unpack(0, []) + UnpackRound(b[..128]);
  }

  lemma OutputGrows(r: nat, b: bytes, k: nat, before: bytes, after: bytes)
    requires 1 <= k < r && |b| == 128 * r
    requires before == Output(r, b, k) && |after| == |before|
    requires forall i :: 0 <= i < |after| ==>
      after[i] == if 127 * k - 4 <= i < 127 * k + 123
                  then UnpackByte(b[128 * k..128 * k + 128], i + 4 - 127 * k) else before[i]
    ensures after == Output(r, b, k + 1)
  {
    var next := b[..128 * (k + 1)];
    assert next[..128 * k] == b[..128 * k] && next[128 * k..] == b[128 * k..128 * k + 128];
    var grown := Unpack(k + 1, next);
    assert grown == Unpack(k, b[..128 * k]) + UnpackRound(b[128 * k..128 * k + 128]);
    assert grown[4..] == Unpack(k, b[..128 * k])[4..] + UnpackRound(b[128 * k..128 * k + 128]);
  }

  lemma {:induction false} BadFieldSplit(b: bytes, lo: nat, mid: nat, hi: nat)
    requires lo <= mid <= hi && 32 * hi <= |b|
    ensures FirstBadField(b, lo, hi)
         == if FirstBadField(b, lo, mid).Some? then FirstBadField(b, lo, mid) else FirstBadField(b, mid, hi)
    decreases mid - lo
  {
    if lo < mid && FieldClear(b, lo) {
      BadFieldSplit(b, lo + 1, mid, hi);
    }
  }
}

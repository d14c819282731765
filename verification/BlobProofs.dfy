/** Encoding and decoding blobs are inverse to each other, up to the two top bits
    of byte 0 that the decoder never looks at. */
module BlobProofs {
  import opened Bytes
  import opened BlobCodec

  lemma {:induction false} PackFirstRound(r: nat, s: bytes)
    requires 1 <= r && |s| == 127 * r
    ensures Pack(r, s)[..128] == PackRound(s[..127])
  {
    var front := s[..127 * (r - 1)];
    if r == 1 {
      assert s[127 * 0..] == s[..127] && Pack(0, front) == [];
    } else {
      PackFirstRound(r - 1, front);
      assert front[..127] == s[..127];
      assert Pack(r, s)[..128] == Pack(r - 1, front)[..128];
    }
  }

  lemma {:induction false} UnpackFirstRound(r: nat, b: bytes)
    requires 1 <= r && |b| == 128 * r
    ensures Unpack(r, b)[..127] == UnpackRound(b[..128])
  {
    var front := b[..128 * (r - 1)];
    if r == 1 {
      assert b[128 * 0..] == b[..128] && Unpack(0, front) == [];
    } else {
      UnpackFirstRound(r - 1, front);
      assert front[..128] == b[..128];
      assert Unpack(r, b)[..127] == Unpack(r - 1, front)[..127];
    }
  }

  lemma {:induction false} PackedFieldsClear(r: nat, s: bytes, f: nat)
    requires |s| == 127 * r && f < 4 * r
    ensures FieldClear(Pack(r, s), f)
  {
    var k := r - 1;
    var front, last := Pack(k, s[..127 * k]), PackRound(s[127 * k..]);
    assert Pack(r, s) == front + last;
    if f < 4 * k {
      PackedFieldsClear(k, s[..127 * k], f);
      assert (front + last)[32 * f] == front[32 * f];
    } else {
      assert (front + last)[32 * f] == last[32 * f - 128 * k];
    }
  }

  lemma NoBadField(b: bytes, hi: nat)
    requires 32 * hi <= |b|
    requires forall f :: 1 <= f < hi ==> FieldClear(b, f)
    ensures FirstBadField(b, 1, hi) == None
  {
    BadFieldIsFirst(b, 1, hi);
  }

  lemma HeaderRoundTrip(length: nat)
    requires length < 0x100_0000
    ensures var h := BlobHeader(length); h[1] as int * 0x1_0000 + h[2] as int * 0x100 + h[3] == length
  {
  }

  lemma HeaderOfBytes(b: bytes)
    requires |b| >= 5 && b[1] == 0
    ensures BlobHeader(DeclaredLength(b)) == b[1..5]
  {
    var b2, b3, b4 := b[2] as int, b[3] as int, b[4] as int;
    var n := b2 * 0x1_0000 + b3 * 0x100 + b4;
    assert n / 0x1_0000 == b2 && n / 0x100 == b2 * 0x100 + b3 && n % 256 == b4;
  }

  /** The header bytes of an encoded blob announce the payload's length. */
  lemma EncodedHeader(r: nat, data: bytes)
    requires ValidRounds(r) && |data| <= MaxData(r)
    ensures var b := Encoded(r, data); b[1] == 0 && DeclaredLength(b) == |data|
  {
    var s := Stream(r, data);
    PackFirstRound(r, s);
    HeaderRoundTrip(|data|);
    var b, p := Encoded(r, data), PackRound(s[..127]);
    assert b[1] == p[1] && b[2] == p[2] && b[3] == p[3] && b[4] == p[4];
  }

  /** Encoder and decoder agree on where the used rounds end. */
  lemma EncodedRounds(r: nat, data: bytes)
    requires ValidRounds(r) && |data| <= MaxData(r)
    ensures var n := RoundsFor(|data|);
      && 1 <= n <= r
      && Output(r, Encoded(r, data), n) == data + Zeros(MaxData(r) - |data|)
      && forall i :: 128 * n <= i < 128 * r ==> Encoded(r, data)[i] == 0
  {
    var s, n, b := Stream(r, data), RoundsFor(|data|), Encoded(r, data);
    PackPrefix(r, s, n);
    assert b[..128 * n] == Pack(n, s[..127 * n]);
    UnpackOfPack(n, s[..127 * n]);
    assert s[..127 * n][4..] + Zeros(127 * (r - n)) == s[4..];
  }

  /** Every payload that fits comes back unchanged. */
  lemma RoundTrip(r: nat, data: bytes)
    requires ValidRounds(r) && |data| <= MaxData(r)
    ensures Decoded(r, Encoded(r, data)) == Ok(data)
  {
    var b, n := Encoded(r, data), RoundsFor(|data|);
    EncodedHeader(r, data);
    EncodedRounds(r, data);
    forall f | 1 <= f < 4 * n
      ensures FieldClear(b, f)
    {
      PackedFieldsClear(r, Stream(r, data), f);
    }
    NoBadField(b, 4 * n);
    NonZeroIsFirst(Output(r, b, n), |data|);
    NonZeroIsFirst(b, 128 * n);
  }

  /** What an accepted blob looks like: the stream of its payload. */
  lemma AcceptedStream(r: nat, b: bytes, data: bytes)
    requires ValidRounds(r) && |b| == 128 * r && Decoded(r, b) == Ok(data)
    ensures |data| <= MaxData(r) && Unpack(r, b) == Stream(r, data)
  {
    hide Decoded, Unpack;
    AcceptedZeros(r, b, data);
    var n, s := RoundsFor(|data|), Unpack(r, b);
    UnpackPrefix(r, b, n);
    assert s[4..] == Output(r, b, n);
    assert s[..4] == BlobHeader(|data|) by {
      UnpackedHeader(r, b);
      HeaderOfBytes(b);
    }
    assert s == s[..4] + s[4..];
  }

  lemma AcceptedZeros(r: nat, b: bytes, data: bytes)
    requires ValidRounds(r) && |b| == 128 * r && Decoded(r, b) == Ok(data)
    ensures b[1] == 0 && |data| == DeclaredLength(b) <= MaxData(r) && RoundsFor(|data|) <= r
    ensures forall i :: 128 * RoundsFor(|data|) <= i < |b| ==> b[i] == 0
    ensures Output(r, b, RoundsFor(|data|)) == data + Zeros(MaxData(r) - |data|)
  {
    var n := RoundsFor(DeclaredLength(b));
    NonZeroIsFirst(Output(r, b, n), |data|);
    NonZeroIsFirst(b, 128 * n);
  }

  lemma UnpackedHeader(r: nat, b: bytes)
    requires 1 <= r && |b| == 128 * r
    ensures Unpack(r, b)[..4] == b[1..5]
  {
    UnpackFirstRound(r, b);
    var s, g := Unpack(r, b), UnpackRound(b[..128]);
    assert s[0] == g[0] && s[1] == g[1] && s[2] == g[2] && s[3] == g[3];
  }

  lemma AcceptedFieldsClear(r: nat, b: bytes)
    requires ValidRounds(r) && |b| == 128 * r && Decoded(r, b).Ok?
    ensures forall f :: 1 <= f < 4 * r ==> FieldClear(b, f)
  {
    var n := RoundsFor(DeclaredLength(b));
    BadFieldIsFirst(b, 1, 4 * n);
    NonZeroIsFirst(b, 128 * n);
  }

  /** An accepted blob is the encoding of its payload, except for the top two
      bits of byte 0. */
  lemma Canonical(r: nat, b: bytes, data: bytes)
    requires ValidRounds(r) && |b| == 128 * r && Decoded(r, b) == Ok(data)
    ensures |data| <= MaxData(r) && Encoded(r, data) == b[0 := b[0] % 64]
  {
    AcceptedStream(r, b, data);
    AcceptedFieldsClear(r, b);
    PackOfUnpack(r, b);
  }

  // ---------------------------------------------- the unchecked bits of byte 0

  lemma {:induction false} SameUnpack(r: nat, b: bytes, h: byte)
    requires |b| == 128 * r && b != [] && h % 64 == b[0] % 64
    ensures Unpack(r, b[0 := h]) == Unpack(r, b)
  {
    var c, k := b[0 := h], r - 1;
    if k == 0 {
      assert c[128 * 0..] == c && b[128 * 0..] == b;
      assert UnpackRound(c) == UnpackRound(b);
    } else {
      SameUnpack(k, b[..128 * k], h);
      assert c[..128 * k] == b[..128 * k][0 := h] && c[128 * k..] == b[128 * k..];
    }
  }

  lemma {:induction false} SameBadField(b: bytes, h: byte, f: nat, hi: nat)
    requires b != [] && 1 <= f && 32 * hi <= |b|
    ensures FirstBadField(b[0 := h], f, hi) == FirstBadField(b, f, hi)
    decreases hi - f
  {
    if f < hi {
      assert FieldClear(b[0 := h], f) == FieldClear(b, f);
      SameBadField(b, h, f + 1, hi);
    }
  }

  lemma {:induction false} SameNonZero(b: bytes, h: byte, from: nat)
    requires b != [] && 1 <= from
    ensures FirstNonZero(b[0 := h], from) == FirstNonZero(b, from)
    decreases |b| - from
  {
    if from < |b| {
      SameNonZero(b, h, from + 1);
    }
  }

  /** Unlike those of every other field element, the top two bits of element 0
      are neither checked nor read. */
  lemma TopBitsIgnored(r: nat, b: bytes, h: byte)
    requires ValidRounds(r) && |b| == 128 * r && h % 64 == b[0] % 64
    ensures Decoded(r, b[0 := h]) == Decoded(r, b)
  {
    var c, n := b[0 := h], RoundsFor(DeclaredLength(b));
    assert DeclaredLength(c) == DeclaredLength(b) && c[1] == b[1];
    hide DeclaredLength;
    if DeclaredLength(b) <= MaxData(r) {
      SameBadField(b, h, 1, 4 * n);
      SameNonZero(b, h, 128 * n);
      SameUnpack(n, b[..128 * n], h);
      assert c[..128 * n] == b[..128 * n][0 := h];
      assert Output(r, c, n) == Output(r, b, n);
      hide Output, FirstBadField, FirstNonZero;
    }
  }

  /** The blob with the two unchecked bits cleared. */
  function Masked(b: bytes): bytes
    requires b != []
  {
    b[0 := b[0] % 64]
  }

  ghost predicate IsEncoding(r: nat, b: bytes, data: bytes)
    requires 1 <= r
  {
    |data| <= MaxData(r) && Encoded(r, data) == b
  }

  lemma EncodingAccepted(r: nat, b: bytes, data: bytes)
    requires ValidRounds(r) && |b| == 128 * r && IsEncoding(r, Masked(b), data)
    ensures Decoded(r, b) == Ok(data)
  {
    hide Decoded, Encoded;
    RoundTrip(r, data);
    TopBitsIgnored(r, b, b[0] % 64);
  }

  lemma AcceptedIsEncoding(r: nat, b: bytes)
    requires ValidRounds(r) && |b| == 128 * r && Decoded(r, b).Ok?
    ensures IsEncoding(r, Masked(b), Decoded(r, b).value)
  {
    Canonical(r, b, Decoded(r, b).value);
  }

  /** Exactly the encodings are accepted, up to those two bits. */
  lemma AcceptedExactly(r: nat, b: bytes)
    requires ValidRounds(r) && |b| == 128 * r
    ensures Decoded(r, b).Ok? <==> exists data :: IsEncoding(r, Masked(b), data)
  {
    if Decoded(r, b).Ok? {
      AcceptedIsEncoding(r, b);
    }
    if data :| IsEncoding(r, Masked(b), data) {
      EncodingAccepted(r, b, data);
    }
  }

  lemma EncodedInjective(r: nat, p: bytes, q: bytes)
    requires ValidRounds(r) && |p| <= MaxData(r) && |q| <= MaxData(r)
    requires Encoded(r, p) == Encoded(r, q)
    ensures p == q
  {
    RoundTrip(r, p);
    RoundTrip(r, q);
  }

  /** Two accepted blobs carry the same payload exactly when they agree outside
      those two bits. */
  lemma SamePayloadExactly(r: nat, a: bytes, p: bytes, b: bytes, q: bytes)
    requires ValidRounds(r) && |a| == |b| == 128 * r
    requires Decoded(r, a) == Ok(p) && Decoded(r, b) == Ok(q)
    ensures p == q <==> Masked(a) == Masked(b)
  {
    Canonical(r, a, p);
    Canonical(r, b, q);
    if Masked(a) == Masked(b) {
      EncodedInjective(r, p, q);
    }
  }

  // ------------------------------------------------------------------ the wire layout

  lemma {:induction false} PackedRoundAt(r: nat, s: bytes, k: nat)
    requires |s| == 127 * r && k < r
    ensures Pack(r, s)[128 * k..128 * k + 128] == PackRound(s[127 * k..127 * k + 127])
  {
    hide PackRound;
    var n := r - 1;
    var front := s[..127 * n];
    assert Pack(r, s) == Pack(n, front) + PackRound(s[127 * n..]);
    if k < n {
      PackedRoundAt(n, front, k);
      assert front[127 * k..127 * k + 127] == s[127 * k..127 * k + 127];
    } else {
      assert s[127 * n..] == s[127 * k..127 * k + 127];
    }
  }

  lemma {:induction false} UnpackedRoundAt(r: nat, b: bytes, k: nat)
    requires |b| == 128 * r && k < r
    ensures Unpack(r, b)[127 * k..127 * k + 127] == UnpackRound(b[128 * k..128 * k + 128])
  {
    hide UnpackRound;
    var n := r - 1;
    var front := b[..128 * n];
    assert Unpack(r, b) == Unpack(n, front) + UnpackRound(b[128 * n..]);
    if k < n {
      UnpackedRoundAt(n, front, k);
      assert front[128 * k..128 * k + 128] == b[128 * k..128 * k + 128];
    } else {
      assert b[128 * n..] == b[128 * k..128 * k + 128];
    }
  }

  /** One round on the wire: 31 payload bytes behind each of four high bytes, and the
      three bytes between them in 6-bit chunks: the first in high bytes 0 and 1, the
      second in 1 and 3, the third in 2 and 3. */
  ghost predicate RoundLayout(b: bytes, s: bytes) {
    && |b| == 128 && |s| == 127
    && (forall i :: 0 <= i < 128 && i != 0 && i != 32 && i != 64 && i != 96 ==> b[i] == s[i - 1])
    && b[0] == s[31] % 64
    && b[32] == s[31] / 64 * 16 + s[63] % 16
    && b[64] == s[95] % 64
    && b[96] == s[63] / 16 + s[95] / 64 * 16
  }

  lemma PackedLayout(g: bytes)
    requires |g| == 127
    ensures RoundLayout(PackRound(g), g)
  {
    HighBits(g[31]);
    HighBits(g[63]);
    HighBits(g[95]);
    var p := PackRound(g);
    assert p[0] == High0(g[31]) && p[32] == High1(g[31], g[63]) && p[64] == High2(g[95]) && p[96] == High3(g[63], g[95]);
    assert High0(g[31]) == g[31] % 64 && High1(g[31], g[63]) == g[31] / 64 * 16 + g[63] % 16;
    assert High2(g[95]) == g[95] % 64 && High3(g[63], g[95]) == g[63] / 16 + g[95] / 64 * 16;
    hide High0, High1, High2, High3;
  }

  lemma HighBits(x: byte)
    ensures x / 64 % 4 == x / 64 && x / 16 % 16 == x / 16
  {
  }

  /** The whole blob on the wire: version 0, the payload's length in three bytes, the
      payload and zeros, cut into rounds. */
  lemma BlobLayout(r: nat, data: bytes, k: nat)
    requires ValidRounds(r) && |data| <= 127 * r - 4 && k < r
    ensures var s := [0, |data| / 65536, |data| / 256 % 256, |data| % 256] + data + Zeros(127 * r - 4 - |data|);
      |Encoded(r, data)| == 128 * r
      && RoundLayout(Encoded(r, data)[128 * k..128 * k + 128], s[127 * k..127 * k + 127])
  {
    var s := [0, |data| / 65536, |data| / 256 % 256, |data| % 256] + data + Zeros(127 * r - 4 - |data|);
    assert |data| / 65536 % 256 == |data| / 65536;
    assert s == Stream(r, data);
    hide Stream, Pack, PackRound, RoundLayout;
    PackedRoundAt(r, s, k);
    PackedLayout(s[127 * k..127 * k + 127]);
  }

  /** The same read back: what a decoder makes of one round. */
  lemma StreamLayout(r: nat, b: bytes, k: nat)
    requires |b| == 128 * r && k < r
    ensures var p, s := b[128 * k..128 * k + 128], Unpack(r, b)[127 * k..127 * k + 127];
      && (forall i :: 0 <= i < 127 && i != 31 && i != 63 && i != 95 ==> s[i] == p[i + 1])
      && s[31] == p[0] % 64 + p[32] / 16 % 4 * 64
      && s[63] == p[32] % 16 + p[96] % 16 * 16
      && s[95] == p[64] % 64 + p[96] / 16 % 4 * 64
  {
    UnpackedRoundAt(r, b, k);
    hide Unpack;
  }

  // --------------------------------------------------------------------- every outcome

  /** The checks that come before: version, length, and the top bits of the field
      elements of the rounds in use, all but the first element. */
  ghost predicate Passes(r: nat, b: bytes, length: nat, rounds: nat)
    requires |b| == 128 * r && 1 <= r
  {
    && b[1] == 0 && length == b[2] as int * 65536 + b[3] as int * 256 + b[4] && length <= 127 * r - 4
    && 127 * (rounds - 1) < length + 4 <= 127 * rounds
  }

  lemma PassesRounds(r: nat, b: bytes)
    requires ValidRounds(r) && |b| == 128 * r && b[1] == 0 && DeclaredLength(b) <= MaxData(r)
    ensures Passes(r, b, DeclaredLength(b), RoundsFor(DeclaredLength(b)))
    ensures 1 <= RoundsFor(DeclaredLength(b)) <= r
  {
  }

  /** What each answer of the decoder says about the blob. */
  lemma DecodeOutcomes(r: nat, b: bytes)
    requires ValidRounds(r) && |b| == 128 * r
    ensures var length := b[2] as int * 65536 + b[3] as int * 256 + b[4];
      match Decoded(r, b)
      case Err(InvalidEncodingVersion(v)) => v == b[1] != 0
      case Err(InvalidLength(n)) => b[1] == 0 && n == length > 127 * r - 4
      case Err(InvalidFieldElement(o)) => exists n: nat :: Passes(r, b, length, n) && FirstHigh(b, o, 128 * n)
      case Err(NonZeroPadding(i)) => exists n: nat :: Passes(r, b, length, n) && 1 <= n <= r && PaddingAt(r, b, length, n, i)
      case Ok(data) => |data| == length && exists n: nat :: Passes(r, b, length, n) && n <= r && Clean(b, 128 * n) && ZeroFrom(b, 128 * n)
  {
    if b[1] == 0 && DeclaredLength(b) <= MaxData(r) {
      var length, n := DeclaredLength(b), RoundsFor(DeclaredLength(b));
      PassesRounds(r, b);
      BadFieldIsFirst(b, 1, 4 * n);
      NonZeroIsFirst(Output(r, b, n), length);
      NonZeroIsFirst(b, 128 * n);
      hide FirstBadField, FirstNonZero, Output, RoundsFor, Passes;
      match FirstBadField(b, 1, 4 * n) {
        case Some(f) => HighAt(b, f, n);
        case None =>
          assert Clean(b, 128 * n);
          if FirstNonZero(Output(r, b, n), length).None? && FirstNonZero(b, 128 * n).None? {
            assert ZeroFrom(b, 128 * n);
          }
      }
    }
  }

  lemma HighAt(b: bytes, f: nat, n: nat)
    requires 1 <= f < 4 * n && 128 * n <= |b| && !FieldClear(b, f) && forall g :: 1 <= g < f ==> FieldClear(b, g)
    ensures FirstHigh(b, 32 * f, 128 * n)
  {
  }

  ghost predicate ZeroFrom(b: bytes, from: nat) { forall i :: from <= i < |b| ==> b[i] == 0 }

  /** The first field element with a top bit set, counting from the second element. */
  ghost predicate FirstHigh(b: bytes, o: nat, end: nat) {
    exists f :: o == 32 * f && 1 <= f && o < end <= |b| && b[o] >= 64 && forall g :: 1 <= g < f ==> FieldClear(b, g)
  }

  ghost predicate Clean(b: bytes, end: nat) {
    end <= |b| && forall g :: 1 <= g && 32 * g < end ==> FieldClear(b, g)
  }

  /** The first non-zero byte behind the payload, in the decoded bytes or else in the
      rounds that are not in use. */
  ghost predicate PaddingAt(r: nat, b: bytes, length: nat, n: nat, i: nat)
    requires |b| == 128 * r && 1 <= n <= r
  {
    var out := Output(r, b, n);
    || (length <= i < |out| && out[i] != 0 && forall j :: length <= j < i ==> out[j] == 0)
    || (128 * n <= i < |b| && b[i] != 0 && (forall j :: 128 * n <= j < i ==> b[j] == 0)
        && forall j :: length <= j < |out| ==> out[j] == 0)
  }
}

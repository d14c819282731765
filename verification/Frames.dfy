/** Frames: their 23-byte envelope, and the list of frames in one L1 payload. */
module Frames {
  import opened Bytes

  datatype Frame = Frame(id: bytes, number: nat, data: bytes, isLast: bool)

  datatype DecodingError =
    | DataTooLarge(size: nat)
    | DataTooShort(size: nat)

  datatype ParseError =
    | FrameDecodingError(error: DecodingError)
    | NoFrames
    | UnsupportedVersion
    | NoFramesDecoded

  const FRAME_OVERHEAD: nat := 23
  const MAX_FRAME_LEN: nat := 1_000_000
  const DERIVATION_VERSION_0: byte := 0

  /** A 16-byte channel id and a 16-bit frame number. */
  predicate ValidFrame(f: Frame) { |f.id| == 16 && f.number < 0x1_0000 }

  predicate ValidFrames(fs: seq<Frame>) { forall i :: 0 <= i < |fs| ==> ValidFrame(fs[i]) }

  function EncodeFrame(f: Frame): (e: bytes)
    requires ValidFrame(f)
    ensures |e| == FRAME_OVERHEAD + |f.data|
  {
    f.id + BigEndian(f.number, 2) + BigEndian(|f.data|, 4) + f.data + [if f.isLast then 1 else 0]
  }

  function DecodeFrame(e: bytes): (r: Result<(nat, Frame), DecodingError>)
    ensures r.Ok? ==> FRAME_OVERHEAD <= r.value.0 <= |e|
  {
    if |e| < FRAME_OVERHEAD then Err(DataTooShort(|e|))
    else
      var length := Value(e[18..22]);
      if length > MAX_FRAME_LEN || length >= |e| - 22 then Err(DataTooLarge(length))
      else
        Ok((FRAME_OVERHEAD + length,
            Frame(e[..16], Value(e[16..18]), e[22..22 + length], e[22 + length] == 1)))
  }

  lemma Widths()
    ensures Pow256(2) == 0x1_0000 && Pow256(4) == 0x1_0000_0000
  {
    assert Pow256(1) == 256 * Pow256(0);
    assert Pow256(2) == 256 * Pow256(1);
    assert Pow256(3) == 256 * Pow256(2);
    assert Pow256(4) == 256 * Pow256(3);
  }

  lemma FrameFields(f: Frame, rest: bytes)
    requires ValidFrame(f) && |f.data| < 0x1_0000_0000
    ensures var e := EncodeFrame(f) + rest;
      && e[..16] == f.id
      && Value(e[16..18]) == f.number
      && Value(e[18..22]) == |f.data|
      && e[22..22 + |f.data|] == f.data
      && e[22 + |f.data|] == (if f.isLast then 1 else 0)
  {
    var e, n, l := EncodeFrame(f) + rest, BigEndian(f.number, 2), BigEndian(|f.data|, 4);
    Widths();
    ValueOfBigEndian(f.number, 2);
    ValueOfBigEndian(|f.data|, 4);
    assert e[16..18] == n && e[18..22] == l;
  }

  lemma BytesOf(n: nat)
    ensures BigEndian(n, 2) == [n / 256 % 256, n % 256]
    ensures BigEndian(n, 4) == [n / 16777216 % 256, n / 65536 % 256, n / 256 % 256, n % 256]
  {
    assert n / 256 / 256 == n / 65536 && n / 65536 / 256 == n / 16777216;
    assert BigEndian(n / 16777216, 1) == BigEndian(n / 16777216 / 256, 0) + [n / 16777216 % 256];
    assert BigEndian(n / 65536, 2) == BigEndian(n / 16777216, 1) + [n / 65536 % 256];
    assert BigEndian(n / 256, 3) == BigEndian(n / 65536, 2) + [n / 256 % 256];
    assert BigEndian(n / 256, 1) == BigEndian(n / 65536, 0) + [n / 256 % 256];
  }

  /** A frame on the wire: 16 id bytes, the number in two, the data's length in four, the
      data, and one byte that is 1 for the last frame. */
  lemma FrameLayout(f: Frame)
    requires ValidFrame(f) && |f.data| < 0x1_0000_0000
    ensures var n, l := f.number, |f.data|;
      && |f.id| == 16
      && EncodeFrame(f) == f.id + [n / 256, n % 256] + [l / 16777216, l / 65536 % 256, l / 256 % 256, l % 256]
                           + f.data + [if f.isLast then 1 else 0]
  {
    var n, l := f.number, |f.data|;
    BytesOf(n);
    BytesOf(l);
    assert n / 256 % 256 == n / 256 && l / 16777216 % 256 == l / 16777216;
    hide BigEndian;
  }

  /** When bytes are no frame: fewer than 23, or a length over 1,000,000 or beyond what
      follows. */
  lemma FrameErrors(e: bytes)
    ensures DecodeFrame(e) == Err(DataTooShort(|e|)) <==> |e| < 23
    ensures |e| >= 23 ==>
      var n := Value(e[18..22]);
      (DecodeFrame(e) == Err(DataTooLarge(n)) <==> n > 1_000_000 || n + 23 > |e|)
      && (DecodeFrame(e).Ok? <==> n <= 1_000_000 && n + 23 <= |e|)
  {
    hide Value;
  }

  /** A frame comes back with its exact length, unless its data is longer than
      the decoder allows, which is the only reason it is refused. */
  lemma DecodeOfEncodeFrame(f: Frame, rest: bytes)
    requires ValidFrame(f) && |f.data| < 0x1_0000_0000
    ensures DecodeFrame(EncodeFrame(f) + rest)
         == if |f.data| <= 1_000_000 then Ok((23 + |f.data|, f)) else Err(DataTooLarge(|f.data|))
  {
    FrameFields(f, rest);
  }

  /** Accepted bytes are the frame's encoding, with every is-last byte other
      than 1 read as 0. */
  lemma EncodeOfDecodeFrame(e: bytes)
    requires DecodeFrame(e).Ok?
    ensures var (n, f) := DecodeFrame(e).value;
      && ValidFrame(f)
      && EncodeFrame(f) == e[..n][n - 1 := if e[n - 1] == 1 then 1 else 0]
  {
    var (n, f) := DecodeFrame(e).value;
    Widths();
    BigEndianOfValue(e[16..18]);
    BigEndianOfValue(e[18..22]);
    assert EncodeFrame(f)[..n - 1] == e[..n - 1];
  }

  // ------------------------------------------------ several frames in a payload

  function EncodeFrames(fs: seq<Frame>): bytes
    requires ValidFrames(fs)
  {
    if fs == [] then [] else EncodeFrame(fs[0]) + EncodeFrames(fs[1..])
  }

  /** The blob or calldata payload: version byte, then the frames. */
  function Payload(fs: seq<Frame>): bytes
    requires ValidFrames(fs)
  {
    [DERIVATION_VERSION_0] + EncodeFrames(fs)
  }

  function DecodeFrames(data: bytes): Result<seq<Frame>, DecodingError>
    decreases |data|
  {
    if data == [] then Ok([])
    else
      match DecodeFrame(data)
      case Err(e) => Err(e)
      case Ok((n, f)) => Joined([f], DecodeFrames(data[n..]))
  }

  function Parsed(encoded: bytes): Result<seq<Frame>, ParseError> {
    if encoded == [] then Err(NoFrames)
    else if encoded[0] != DERIVATION_VERSION_0 then Err(UnsupportedVersion)
    else
      match DecodeFrames(encoded[1..])
      case Err(e) => Err(FrameDecodingError(e))
      case Ok(fs) => if fs == [] then Err(NoFramesDecoded) else Ok(fs)
  }

  /** Frames already read, in front of the outcome for the rest. */
  function Joined(fs: seq<Frame>, rest: Result<seq<Frame>, DecodingError>): Result<seq<Frame>, DecodingError> {
    match rest
    case Err(e) => Err(e)
    case Ok(gs) => Ok(fs + gs)
  }

  lemma JoinedStep(fs: seq<Frame>, f: Frame, rest: Result<seq<Frame>, DecodingError>)
    ensures Joined([], rest) == rest
    ensures Joined(fs, Joined([f], rest)) == Joined(fs + [f], rest)
  {
    if rest.Ok? {
      assert [] + rest.value == rest.value;
      assert fs + ([f] + rest.value) == fs + [f] + rest.value;
    }
  }

  method ParseFrames(encoded: bytes) returns (r: Result<seq<Frame>, ParseError>)
    ensures r == Parsed(encoded)
  {
    hide DecodeFrame;
    if encoded == [] {
      return Err(NoFrames);
    }
    if encoded[0] != DERIVATION_VERSION_0 {
      return Err(UnsupportedVersion);
    }
    var data := encoded[1..];
    var frames, offset := [], 0;
    assert data[0..] == data;
    JoinedStep([], Frame([], 0, [], false), DecodeFrames(data));
    while offset < |data|
      invariant 0 <= offset <= |data|
      invariant DecodeFrames(data) == Joined(frames, DecodeFrames(data[offset..]))
    {
      var one := DecodeFrame(data[offset..]);
      if one.Err? {
        return Err(FrameDecodingError(one.error));
      }
      assert data[offset..][one.value.0..] == data[offset + one.value.0..];
      JoinedStep(frames, one.value.1, DecodeFrames(data[offset + one.value.0..]));
      frames := frames + [one.value.1];
      offset := offset + one.value.0;
    }
    assert frames + [] == frames;
    r := if frames == [] then Err(NoFramesDecoded) else Ok(frames);
  }

  /** The bytes are these frames, one after another, with nothing between or behind. */
  ghost predicate ReadsAs(data: bytes, fs: seq<Frame>)
    decreases |fs|
  {
    if fs == [] then data == []
    else
      match DecodeFrame(data)
      case Ok((n, f)) => f == fs[0] && ReadsAs(data[n..], fs[1..])
      case Err(_) => false
  }

  /** Behind some frames there are bytes, and they are no frame. */
  ghost predicate FailsAs(data: bytes, e: DecodingError)
    decreases |data|
  {
    && data != []
    && match DecodeFrame(data)
       case Err(d) => d == e
       case Ok((n, _)) => FailsAs(data[n..], e)
  }

  lemma {:induction false} FramesRead(data: bytes, fs: seq<Frame>, e: DecodingError)
    ensures DecodeFrames(data) == Ok(fs) <==> ReadsAs(data, fs)
    ensures DecodeFrames(data) == Err(e) <==> FailsAs(data, e)
    decreases |data|
  {
    hide DecodeFrame;
    if data != [] {
      match DecodeFrame(data) {
        case Err(_) =>
        case Ok((n, f)) =>
          FramesRead(data[n..], if fs == [] then [] else fs[1..], e);
          match DecodeFrames(data[n..]) {
            case Err(_) =>
            case Ok(rest) =>
              FramesRead(data[n..], rest, e);
              assert fs != [] ==> fs == [fs[0]] + fs[1..];
              assert ([f] + rest)[1..] == rest;
          }
      }
    }
  }

  /** What each answer of the parser says about the payload. */
  lemma ParseOutcomes(encoded: bytes, fs: seq<Frame>, e: DecodingError)
    ensures Parsed(encoded) == Err(NoFrames) <==> encoded == []
    ensures Parsed(encoded) == Err(UnsupportedVersion) <==> encoded != [] && encoded[0] != 0
    ensures Parsed(encoded) == Err(NoFramesDecoded) <==> encoded == [0]
    ensures Parsed(encoded) == Err(FrameDecodingError(e)) <==> encoded != [] && encoded[0] == 0 && FailsAs(encoded[1..], e)
    ensures Parsed(encoded) == Ok(fs) <==> encoded != [] && encoded[0] == 0 && fs != [] && ReadsAs(encoded[1..], fs)
  {
    if encoded != [] {
      var data := encoded[1..];
      FramesRead(data, fs, e);
      FramesRead(data, [], e);
      hide DecodeFrame, DecodeFrames;
      assert data == [] ==> encoded == [encoded[0]];
      assert ReadsAs(data, []) <==> data == [];
    }
  }

  predicate AllDecodable(fs: seq<Frame>) {
    forall i :: 0 <= i < |fs| ==> |fs[i].data| <= MAX_FRAME_LEN
  }

  lemma {:induction false} DecodeOfEncodeFrames(fs: seq<Frame>)
    requires ValidFrames(fs) && AllDecodable(fs)
    ensures DecodeFrames(EncodeFrames(fs)) == Ok(fs)
  {
    if fs != [] {
      var rest := EncodeFrames(fs[1..]);
      DecodeOfEncodeFrame(fs[0], rest);
      DecodeOfEncodeFrames(fs[1..]);
      assert (EncodeFrame(fs[0]) + rest)[FRAME_OVERHEAD + |fs[0].data|..] == rest;
      assert fs == [fs[0]] + fs[1..];
    }
  }

  /** Frames packed in one payload are parsed back one by one. */
  lemma ParseOfPayload(fs: seq<Frame>)
    requires ValidFrames(fs) && AllDecodable(fs)
    ensures Parsed(Payload(fs)) == if fs == [] then Err(NoFramesDecoded) else Ok(fs)
  {
    DecodeOfEncodeFrames(fs);
    assert Payload(fs)[1..] == EncodeFrames(fs);
  }

  lemma {:induction false} FrameWithin(fs: seq<Frame>, i: nat)
    requires ValidFrames(fs) && i < |fs|
    ensures |fs[i].data| + FRAME_OVERHEAD <= |EncodeFrames(fs)|
  {
    if i > 0 {
      FrameWithin(fs[1..], i - 1);
    }
  }
}

/** The receiving channel: frames arrive in any order, possibly more than once,
    and the channel is ready when every number up to the last frame is held. */
module ChannelAssembly {
  import opened Bytes
  import opened Frames

  datatype ChannelError =
    | FrameIdMismatch
    | ChannelClosed
    | FrameNumberExists(number: nat)
    | FrameBeyondEndFrame(number: nat)

  /** The held frames and the end marker of a receiving channel. */
  datatype Assembly = Assembly(id: bytes, closed: bool, highest: nat, last: nat, inputs: map<nat, Frame>)

  /** Why a frame is refused, if it is. */
  function Refusal(a: Assembly, f: Frame): Option<ChannelError> {
    if f.id != a.id then Some(FrameIdMismatch)
    else if f.isLast && a.closed then Some(ChannelClosed)
    else if f.number in a.inputs then Some(FrameNumberExists(f.number))
    else if a.closed && f.number >= a.last then Some(FrameBeyondEndFrame(f.number))
    else None
  }

  /** The frames that survive the arrival of `f`: a closing frame prunes all that
      lie at or beyond it. */
  function Surviving(a: Assembly, f: Frame): map<nat, Frame> {
    if f.isLast && f.number < a.highest then map k | k in a.inputs && k < f.number :: a.inputs[k] else a.inputs
  }

  function Added(a: Assembly, f: Frame): Assembly {
    if Refusal(a, f).Some? then a
    else
      var highest := if f.isLast && f.number < a.highest then f.number else a.highest;
      Assembly(a.id, a.closed || f.isLast, Max(highest, f.number),
               if f.isLast then f.number else a.last, Surviving(a, f)[f.number := f])
  }

  /** What a held frame counts for. */
  function FrameSize(f: Frame): nat { |f.data| + FRAME_STORAGE_OVERHEAD }

  const FRAME_STORAGE_OVERHEAD: nat := 200

  /** The size of the held frames numbered below `n`. */
  function SizeBelow(inputs: map<nat, Frame>, n: nat): nat {
    if n == 0 then 0 else SizeBelow(inputs, n - 1) + if n - 1 in inputs then FrameSize(inputs[n - 1]) else 0
  }

  lemma {:induction false} SizeOfSame(a: map<nat, Frame>, b: map<nat, Frame>, n: nat, m: nat)
    requires n <= m && forall k :: 0 <= k < n ==> ((k in a <==> k in b) && (k in a ==> a[k] == b[k]))
    requires forall k :: n <= k < m ==> k !in b
    ensures SizeBelow(a, n) == SizeBelow(b, m)
    decreases m
  {
    if n < m {
      SizeOfSame(a, b, n, m - 1);
    } else if n > 0 {
      SizeOfSame(a, b, n - 1, n - 1);
    }
  }

  lemma {:induction false} SizeWithOneMore(a: map<nat, Frame>, f: Frame, n: nat)
    requires f.number !in a && f.number < n
    ensures SizeBelow(a[f.number := f], n) == SizeBelow(a, n) + FrameSize(f)
  {
    if f.number == n - 1 {
      SizeOfSame(a[f.number := f], a, n - 1, n - 1);
    } else {
      SizeWithOneMore(a, f, n - 1);
    }
  }

  lemma {:induction false} SizeGrows(a: map<nat, Frame>, n: nat, m: nat)
    requires n <= m
    ensures SizeBelow(a, n) <= SizeBelow(a, m)
  {
    if n < m {
      SizeGrows(a, n, m - 1);
    }
  }

  lemma SizeStep(a: map<nat, Frame>, n: nat)
    ensures SizeBelow(a, n + 1) == SizeBelow(a, n) + if n in a then FrameSize(a[n]) else 0
  {
  }

  class Channel {
    const id: bytes
    var estimatedSize: nat
    var closed: bool
    var highestFrameNumber: nat
    var lastFrameNumber: nat
    var inputs: map<nat, Frame>
    var highestL1InclusionBlock: nat

    function State(): Assembly
      reads this
    {
      Assembly(id, closed, highestFrameNumber, lastFrameNumber, inputs)
    }

    /** The running size is that of the frames held, and no frame lies beyond the
        highest number. */
    ghost predicate Valid()
      reads this
    {
      && (forall k :: k in inputs ==> k <= highestFrameNumber)
      && estimatedSize == SizeBelow(inputs, highestFrameNumber + 1)
    }

    constructor (id: bytes)
      ensures Valid() && State() == Assembly(id, false, 0, 0, map[]) && highestL1InclusionBlock == 0
    {
      this.id := id;
      closed, highestFrameNumber, lastFrameNumber, inputs := false, 0, 0, map[];
      estimatedSize, highestL1InclusionBlock := 0, 0;
      new;
      SizeOfSame(map[], inputs, 0, 1);
    }

    method AddFrame(frame: Frame, l1InclusionBlock: nat) returns (r: Result<(), ChannelError>)
      requires Valid()
      modifies this
      ensures Valid() && State() == Added(old(State()), frame)
      ensures r == if frame.id != id then Err(FrameIdMismatch)
                   else if frame.isLast && old(closed) then Err(ChannelClosed)
                   else if frame.number in old(inputs) then Err(FrameNumberExists(frame.number))
                   else if old(closed) && frame.number >= old(lastFrameNumber) then Err(FrameBeyondEndFrame(frame.number))
                   else Ok(())
      ensures highestL1InclusionBlock
           == if r.Ok? then Max(old(highestL1InclusionBlock), l1InclusionBlock) else old(highestL1InclusionBlock)
      ensures r.Ok? ==> frame.number in inputs && inputs[frame.number] == frame
      ensures r.Ok? && !frame.isLast ==> estimatedSize == old(estimatedSize) + |frame.data| + 200
    {
      hide SizeBelow;
      if frame.id != id {
        return Err(FrameIdMismatch);
      }
      if frame.isLast && closed {
        return Err(ChannelClosed);
      }
      if frame.number in inputs {
        return Err(FrameNumberExists(frame.number));
      }
      if closed && frame.number >= lastFrameNumber {
        return Err(FrameBeyondEndFrame(frame.number));
      }
      if frame.isLast {
        lastFrameNumber := frame.number;
        closed := true;
        if lastFrameNumber < highestFrameNumber {
          Prune();
        }
      }
      if frame.number > highestFrameNumber {
        SizeOfSame(inputs, inputs, highestFrameNumber + 1, frame.number + 1);
        highestFrameNumber := frame.number;
      }
      if highestL1InclusionBlock < l1InclusionBlock {
        highestL1InclusionBlock := l1InclusionBlock;
      }
      SizeWithOneMore(inputs, frame, highestFrameNumber + 1);
      estimatedSize := estimatedSize + FrameSize(frame);
      inputs := inputs[frame.number := frame];
      r := Ok(());
    }

    /** Drops the frames at or beyond the closing one, and their size. */
    method Prune()
      requires Valid() && lastFrameNumber < highestFrameNumber
      modifies `inputs, `estimatedSize, `highestFrameNumber
      ensures Valid() && highestFrameNumber == lastFrameNumber
      ensures inputs == map k | k in old(inputs) && k < lastFrameNumber :: old(inputs)[k]
    {
      hide SizeBelow;
      ghost var all := SizeBelow(inputs, highestFrameNumber + 1);
      for k := lastFrameNumber to highestFrameNumber + 1
        invariant estimatedSize == all - (SizeBelow(inputs, k) - SizeBelow(inputs, lastFrameNumber))
        modifies `estimatedSize
      {
        SizeGrows(inputs, k + 1, highestFrameNumber + 1);
        SizeGrows(inputs, lastFrameNumber, k);
        SizeStep(inputs, k);
        if k in inputs {
          estimatedSize := estimatedSize - FrameSize(inputs[k]);
        }
      }
      ghost var before := inputs;
      inputs := map k | k in inputs && k < lastFrameNumber :: inputs[k];
      highestFrameNumber := lastFrameNumber;
      SizeOfSame(before, inputs, lastFrameNumber, lastFrameNumber + 1);
    }

    /** `last_frame_number + 1` is 16-bit arithmetic: nothing where it overflows. */
    method IsReady() returns (ready: Option<bool>)
      ensures closed && lastFrameNumber == 0xFFFF ==> ready == None
      ensures !(closed && lastFrameNumber == 0xFFFF) ==> ready == Some(Ready(State()))
    {
      if !closed {
        return Some(false);
      }
      if lastFrameNumber == 0xFFFF {
        return None;
      }
      if |inputs| != lastFrameNumber + 1 {
        return Some(false);
      }
      var i := 0;
      while i <= lastFrameNumber
        invariant 0 <= i <= lastFrameNumber + 1
        invariant forall k :: 0 <= k < i ==> k in inputs
      {
        if i !in inputs {
          return Some(false);
        }
        i := i + 1;
      }
      ready := Some(true);
    }

    method FrameData() returns (r: Option<bytes>)
      ensures r == Data(State())
    {
      if |inputs| == 0 {
        return None;
      }
      var data, i := [], 0;
      PrefixedStep([], [], DataFrom(State(), 0));
      while i <= lastFrameNumber
        invariant 0 <= i <= lastFrameNumber + 1
        invariant Data(State()) == Prefixed(data, DataFrom(State(), i))
      {
        if i !in inputs {
          return None;
        }
        PrefixedStep(data, inputs[i].data, DataFrom(State(), i + 1));
        data := data + inputs[i].data;
        i := i + 1;
      }
      assert data + [] == data;
      r := Some(data);
    }
  }

  // ------------------------------------------------------------------- any arrivals

  /** A channel after these frames. */
  function Fed(id: bytes, arrivals: seq<Frame>): Assembly {
    if arrivals == [] then Assembly(id, false, 0, 0, map[])
    else Added(Fed(id, arrivals[..|arrivals| - 1]), arrivals[|arrivals| - 1])
  }

  /** Nothing is held beyond the end of a closed channel, whatever arrived. */
  lemma {:induction false} NothingBeyondEnd(id: bytes, arrivals: seq<Frame>)
    ensures var a := Fed(id, arrivals);
      (forall k :: k in a.inputs ==> k <= a.highest) && (a.closed ==> forall k :: k in a.inputs ==> k <= a.last)
  {
    if arrivals != [] {
      NothingBeyondEnd(id, arrivals[..|arrivals| - 1]);
    }
  }

  /** A frame of another channel, or a non-closing one numbered past the end of this one. */
  ghost predicate Stray(id: bytes, fs: seq<Frame>, f: Frame) {
    f.id != id || (!f.isLast && f.number >= |fs|)
  }

  /** Of the channel's own frames exactly those that arrived are held, and once closed
      nothing else is. */
  ghost predicate HoldsOwn(a: Assembly, id: bytes, fs: seq<Frame>, arrivals: seq<Frame>) {
    && fs != [] && a.id == id
    && (forall k :: 0 <= k < |fs| ==> (k in a.inputs <==> fs[k] in arrivals))
    && (forall k :: k in a.inputs && k < |fs| ==> a.inputs[k] == fs[k])
    && (a.closed <==> fs[|fs| - 1] in arrivals)
    && (a.closed ==> a.last == |fs| - 1 && forall k :: k in a.inputs ==> k < |fs|)
    && (forall k :: k in a.inputs ==> k <= a.highest)
  }

  lemma HoldsOwnStep(a: Assembly, id: bytes, fs: seq<Frame>, arrivals: seq<Frame>, f: Frame)
    requires Complete(id, fs) && HoldsOwn(a, id, fs, arrivals) && (f in fs || Stray(id, fs, f))
    ensures HoldsOwn(Added(a, f), id, fs, arrivals + [f])
  {
    var b, all := Added(a, f), arrivals + [f];
    if f in fs {
      var i :| 0 <= i < |fs| && fs[i] == f;
      assert f.number == i;
      forall k | 0 <= k < |fs|
        ensures fs[k] in all <==> fs[k] in arrivals || k == i
      {
        assert fs[k].number == k;
      }
    } else {
      assert forall k :: 0 <= k < |fs| ==> fs[k] != f;
    }
  }

  lemma {:induction false} FedHoldsOwn(id: bytes, fs: seq<Frame>, arrivals: seq<Frame>)
    requires Complete(id, fs) && forall f :: f in arrivals ==> f in fs || Stray(id, fs, f)
    ensures HoldsOwn(Fed(id, arrivals), id, fs, arrivals)
  {
    if arrivals != [] {
      var front, f := arrivals[..|arrivals| - 1], arrivals[|arrivals| - 1];
      assert arrivals == front + [f];
      FedHoldsOwn(id, fs, front);
      HoldsOwnStep(Fed(id, front), id, fs, front, f);
    }
  }

  /** Between any frames of other channels and any non-closing ones numbered past the end,
      in whatever order and however often: a channel is ready exactly when each of its
      own frames has arrived, and then holds their data in order. */
  lemma StraysAreHarmless(id: bytes, fs: seq<Frame>, arrivals: seq<Frame>)
    requires Complete(id, fs) && forall f :: f in arrivals ==> f in fs || Stray(id, fs, f)
    ensures var a := Fed(id, arrivals);
      && (Ready(a) <==> forall f :: f in fs ==> f in arrivals)
      && (Ready(a) ==> Data(a) == Some(Concat(FrameDatas(fs))))
  {
    FedHoldsOwn(id, fs, arrivals);
    var a := Fed(id, arrivals);
    hide Fed;
    if forall f :: f in fs ==> f in arrivals {
      assert fs[|fs| - 1] in arrivals;
      RangeSize(|fs|, a.inputs.Keys);
      assert |a.inputs| == |a.inputs.Keys|;
      DataOfHeld(a, fs, 0);
      assert fs[0..] == fs;
    } else {
      var f :| f in fs && f !in arrivals;
      var k :| 0 <= k < |fs| && fs[k] == f;
      assert k !in a.inputs;
    }
  }

  ghost predicate Ready(a: Assembly) {
    a.closed && |a.inputs| == a.last + 1 && forall k :: 0 <= k <= a.last ==> k in a.inputs
  }

  function DataFrom(a: Assembly, i: nat): Option<bytes>
    decreases a.last + 1 - i
  {
    if i > a.last then Some([])
    else if i !in a.inputs then None
    else
      Prefixed(a.inputs[i].data, DataFrom(a, i + 1))
  }

  function Prefixed(front: bytes, rest: Option<bytes>): Option<bytes> {
    match rest
    case None => None
    case Some(d) => Some(front + d)
  }

  lemma PrefixedStep(a: bytes, b: bytes, rest: Option<bytes>)
    ensures Prefixed([], rest) == rest
    ensures Prefixed(a, Prefixed(b, rest)) == Prefixed(a + b, rest)
  {
    if rest.Some? {
      assert [] + rest.value == rest.value;
      assert a + (b + rest.value) == a + b + rest.value;
    }
  }

  function Data(a: Assembly): Option<bytes> {
    if |a.inputs| == 0 then None else DataFrom(a, 0)
  }

  // ------------------------------------------------- delivery in any order

  /** A complete channel: numbered from zero, one id, only the last one closing. */
  ghost predicate Complete(id: bytes, fs: seq<Frame>) {
    && fs != []
    && (forall i :: 0 <= i < |fs| ==> fs[i].id == id && fs[i].number == i && fs[i].isLast == (i == |fs| - 1))
  }

  /** Which frames an arrival order mentions. */
  function Arrived(order: seq<nat>): set<nat> {
    if order == [] then {} else Arrived(order[..|order| - 1]) + {order[|order| - 1]}
  }

  ghost predicate AllOf(n: nat, arrived: set<nat>) { forall k :: 0 <= k < n ==> k in arrived }

  predicate Indices(order: seq<nat>, n: nat) { forall i :: 0 <= i < |order| ==> order[i] < n }

  function Delivered(id: bytes, fs: seq<Frame>, order: seq<nat>): Assembly
    requires Indices(order, |fs|)
  {
    if order == [] then Assembly(id, false, 0, 0, map[])
    else Added(Delivered(id, fs, order[..|order| - 1]), fs[order[|order| - 1]])
  }

  /** The assembly holds exactly the frames numbered in `arrived`. */
  ghost predicate Holds(a: Assembly, id: bytes, fs: seq<Frame>, arrived: set<nat>) {
    && a.id == id && |fs| > 0
    && a.inputs.Keys == arrived
    && (forall k :: k in a.inputs ==> k < |fs| && a.inputs[k] == fs[k])
    && a.closed == (|fs| - 1 in arrived)
    && (a.closed ==> a.last == |fs| - 1)
    && a.highest <= |fs| - 1
  }

  lemma HoldsStep(a: Assembly, id: bytes, fs: seq<Frame>, arrived: set<nat>, i: nat)
    requires Complete(id, fs) && Holds(a, id, fs, arrived) && i < |fs|
    ensures Holds(Added(a, fs[i]), id, fs, arrived + {i})
  {
    if i in arrived {
      assert arrived + {i} == arrived;
    }
  }

  lemma {:induction false} DeliveredHolds(id: bytes, fs: seq<Frame>, order: seq<nat>)
    requires Complete(id, fs) && Indices(order, |fs|)
    ensures Holds(Delivered(id, fs, order), id, fs, Arrived(order))
  {
    if order != [] {
      var front, i := order[..|order| - 1], order[|order| - 1];
      DeliveredHolds(id, fs, front);
      HoldsStep(Delivered(id, fs, front), id, fs, Arrived(front), i);
    }
  }

  function FrameDatas(fs: seq<Frame>): seq<bytes> {
    seq(|fs|, i requires 0 <= i < |fs| => fs[i].data)
  }

  lemma {:induction false} DataOfHeld(a: Assembly, fs: seq<Frame>, i: nat)
    requires a.last == |fs| - 1 && i <= |fs|
    requires forall k :: 0 <= k < |fs| ==> k in a.inputs && a.inputs[k] == fs[k]
    ensures DataFrom(a, i) == Some(Concat(FrameDatas(fs[i..])))
    decreases |fs| - i
  {
    if i < |fs| {
      DataOfHeld(a, fs, i + 1);
      assert FrameDatas(fs[i..])[1..] == FrameDatas(fs[i + 1..]);
    }
  }

  lemma RangeSize(n: nat, s: set<nat>)
    requires forall k :: 0 <= k < n ==> k in s
    requires forall k :: k in s ==> k < n
    ensures |s| == n
    decreases n
  {
    if n == 0 {
      assert s == {};
    } else {
      RangeSize(n - 1, s - {n - 1});
    }
  }

  lemma ReadyWhenAllHeld(a: Assembly, id: bytes, fs: seq<Frame>, arrived: set<nat>)
    requires Complete(id, fs) && Holds(a, id, fs, arrived)
    ensures Ready(a) <==> AllOf(|fs|, arrived)
    ensures Ready(a) ==> Data(a) == Some(Concat(FrameDatas(fs)))
  {
    if AllOf(|fs|, arrived) {
      RangeSize(|fs|, a.inputs.Keys);
      assert |a.inputs| == |a.inputs.Keys|;
      DataOfHeld(a, fs, 0);
      assert fs[0..] == fs;
    }
  }

  /** In whatever order and however often the frames of a channel arrive, it is
      ready exactly when each has arrived, and then holds their data in order. */
  lemma AnyOrderReassembles(id: bytes, fs: seq<Frame>, order: seq<nat>)
    requires Complete(id, fs) && Indices(order, |fs|)
    ensures var a := Delivered(id, fs, order);
      && (Ready(a) <==> AllOf(|fs|, Arrived(order)))
      && (Ready(a) ==> Data(a) == Some(Concat(FrameDatas(fs))))
  {
    DeliveredHolds(id, fs, order);
    ReadyWhenAllHeld(Delivered(id, fs, order), id, fs, Arrived(order));
  }
}

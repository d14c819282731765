/** Draining a closed channel into frames until nothing is ready. */
module ChannelDrain {
  import opened Bytes
  import opened Frames
  import opened ChannelSending

  /** What is still to be cut once `k` frames are out and `left` bytes are ready. */
  function StillToCut(k: nat, left: bytes, size: nat): seq<bytes>
    requires size >= 1
  {
    if k == 0 then Cut([1] + left, size) else if left == [] then [] else Cut(left, size)
  }

  lemma CutFirst(t: bytes, size: nat)
    requires size >= 1 && t != []
    ensures var n := Min(size, |t|); Cut(t, size) == [t[..n]] + (if t[n..] == [] then [] else Cut(t[n..], size))
  {
    if |t| <= size {
      assert t[..|t|] == t && t[|t|..] == [];
      assert [t] + [] == [t];
    }
  }

  /** One frame takes the next piece and leaves the rest to cut. */
  lemma FrameTakesPiece(k: nat, left: bytes, size: nat, data: bytes, rest: bytes)
    requires size >= 1 && left != []
    requires var prefix: bytes := if k == 0 then [1] else [];
      var taken := Min(size - |prefix|, |left|);
      data == prefix + left[..taken] && rest == left[taken..]
    ensures StillToCut(k, left, size) == [data] + StillToCut(k + 1, rest, size)
  {
    var t := if k == 0 then [1] + left else left;
    CutFirst(t, size);
    var n := Min(size, |t|);
    assert t[..n] == data && t[n..] == rest;
  }

  /** `frames` are the first so many of the channel's pieces. */
  ghost predicate CutSoFar(id: bytes, pieces: seq<bytes>, frames: seq<Frame>, left: bytes, size: nat)
    requires size >= 1
  {
    && |frames| <= |pieces|
    && frames == Numbered(id, pieces)[..|frames|]
    && pieces[|frames|..] == StillToCut(|frames|, left, size)
  }

  lemma CutSoFarStep(id: bytes, pieces: seq<bytes>, frames: seq<Frame>, left: bytes, size: nat, f: Frame, rest: bytes)
    requires size >= 1 && left != [] && CutSoFar(id, pieces, frames, left, size)
    requires var prefix: bytes := if |frames| == 0 then [1] else [];
      var taken := Min(size - |prefix|, |left|);
      f == Frame(id, |frames|, prefix + left[..taken], rest == []) && rest == left[taken..]
    ensures CutSoFar(id, pieces, frames + [f], rest, size)
  {
    var k := |frames|;
    FrameTakesPiece(k, left, size, f.data, rest);
    var tail := StillToCut(k + 1, rest, size);
    assert pieces[k..] == [f.data] + tail;
    assert pieces[k] == pieces[k..][0] == f.data;
    assert pieces[k + 1..] == pieces[k..][1..] == tail;
    assert tail == [] <==> rest == [];
    assert Numbered(id, pieces)[k] == f;
    assert Numbered(id, pieces)[..k + 1] == frames + [f];
  }

  // --------------------------------------------------------- the drain loop

  /** How the drain of `stream` stands: brotli channels with room for a payload
      byte advance piece by piece; all others never shed a byte. */
  ghost predicate Draining(brotli: bool, id: bytes, stream: bytes, maxSize: nat, frames: seq<Frame>, left: bytes) {
    if brotli && maxSize >= 24
    then CutSoFar(id, Cut([1] + stream, maxSize - 23), frames, left, maxSize - 23)
    else
      && left == stream
      && (brotli || maxSize < 23 ==> frames == [])
      && (maxSize >= 23 ==> Repeating(id, stream, maxSize, frames))
  }

  /** The frames of a channel that sheds nothing: each carries the same first bytes, and
      none is the last. */
  ghost predicate Repeating(id: bytes, stream: bytes, maxSize: nat, frames: seq<Frame>)
    requires maxSize >= 23
  {
    forall i :: 0 <= i < |frames| ==> frames[i] == Frame(id, i, stream[..Min(maxSize - 23, |stream|)], false)
  }

  /** How it ends. */
  ghost predicate Drained(brotli: bool, id: bytes, stream: bytes, maxSize: nat,
                          frames: seq<Frame>, error: Option<ChannelOutError>, left: bytes)
  {
    if maxSize < 23 then frames == [] && error == Some(MaxFrameSizeTooSmall) && left == stream
    else if !brotli then
      && error == Some(ArithmeticOverflow) && |frames| == MAX_FRAMES && left == stream
      && Repeating(id, stream, maxSize, frames)
    else if maxSize == 23 then frames == [] && error == Some(ArithmeticOverflow) && left == stream
    else
      var pieces := Cut([1] + stream, maxSize - 23);
      if |pieces| <= MAX_FRAMES then frames == Numbered(id, pieces) && error == None && left == []
      else frames == Numbered(id, pieces)[..MAX_FRAMES] && error == Some(ArithmeticOverflow)
  }

  lemma AllCut(id: bytes, stream: bytes, maxSize: nat, frames: seq<Frame>)
    requires maxSize >= 24 && stream != [] && |frames| <= MAX_FRAMES
    requires Draining(true, id, stream, maxSize, frames, [])
    ensures Drained(true, id, stream, maxSize, frames, None, [])
  {
    var pieces := Cut([1] + stream, maxSize - 23);
    assert pieces[|frames|..] == [];
    assert Numbered(id, pieces)[..|frames|] == Numbered(id, pieces);
  }

  lemma TooMany(id: bytes, stream: bytes, maxSize: nat, frames: seq<Frame>, left: bytes, after: bytes)
    requires maxSize >= 24 && stream != [] && left != [] && |frames| == MAX_FRAMES
    requires Draining(true, id, stream, maxSize, frames, left)
    ensures Drained(true, id, stream, maxSize, frames, Some(ArithmeticOverflow), after)
  {
    assert Cut([1] + stream, maxSize - 23)[|frames|..] != [];
  }

  /** What one `output_frame` does to a closed channel with `left` bytes ready. */
  ghost predicate FrameOutcome(brotli: bool, id: bytes, number: nat, left: bytes, maxSize: nat,
                               r: Result<Frame, ChannelOutError>, after: bytes)
  {
    var prefix: bytes := if number == 0 && brotli then [1] else [];
    if maxSize < 23 then r == Err(MaxFrameSizeTooSmall) && after == left
    else if maxSize < 23 + |prefix| then r == Err(ArithmeticOverflow) && after == left
    else
      var taken := Min(maxSize - 23 - |prefix|, |left|);
      && after == (if brotli then left[taken..] else left)
      && r == if number == MAX_FRAMES then Err(ArithmeticOverflow)
              else Ok(Frame(id, number, prefix + left[..taken], after == []))
  }

  lemma DrainGoesOn(brotli: bool, id: bytes, stream: bytes, maxSize: nat, frames: seq<Frame>, left: bytes,
                    r: Result<Frame, ChannelOutError>, after: bytes)
    requires stream != [] && left != [] && |frames| <= MAX_FRAMES
    requires Draining(brotli, id, stream, maxSize, frames, left)
    requires FrameOutcome(brotli, id, |frames|, left, maxSize, r, after)
    ensures match r
      case Ok(f) => |frames| < MAX_FRAMES && Draining(brotli, id, stream, maxSize, frames + [f], after)
      case Err(e) => Drained(brotli, id, stream, maxSize, frames, Some(e), after)
  {
    hide CutSoFar, Cut, Numbered;
    if brotli && maxSize >= 24 {
      match r {
        case Ok(f) => CutSoFarStep(id, Cut([1] + stream, maxSize - 23), frames, left, maxSize - 23, f, after);
        case Err(e) => TooMany(id, stream, maxSize, frames, left, after);
      }
    }
  }

  lemma DrainStarts(brotli: bool, id: bytes, stream: bytes, maxSize: nat)
    ensures Draining(brotli, id, stream, maxSize, [], stream)
  {
    if maxSize >= 24 {
      assert Cut([1] + stream, maxSize - 23)[0..] == Cut([1] + stream, maxSize - 23);
    }
  }

  lemma DrainEnds(brotli: bool, id: bytes, stream: bytes, maxSize: nat, frames: seq<Frame>)
    requires stream != [] && |frames| <= MAX_FRAMES && Draining(brotli, id, stream, maxSize, frames, [])
    ensures Drained(brotli, id, stream, maxSize, frames, None, [])
  {
    hide CutSoFar, Cut, Numbered;
    AllCut(id, stream, maxSize, frames);
  }

  /** How a drain ends, by the frame size and the algorithm. */
  lemma DrainOutcomes(brotli: bool, id: bytes, stream: bytes, maxSize: nat,
                      frames: seq<Frame>, error: Option<ChannelOutError>, left: bytes)
    requires Drained(brotli, id, stream, maxSize, frames, error, left)
    ensures maxSize < 23 ==> frames == [] && error == Some(MaxFrameSizeTooSmall) && left == stream
    ensures maxSize == 23 && brotli ==> frames == [] && error == Some(ArithmeticOverflow) && left == stream
    ensures maxSize >= 23 && !brotli ==>
      && |frames| == 65535 && error == Some(ArithmeticOverflow) && left == stream
      && forall i :: 0 <= i < 65535 ==> frames[i] == Frame(id, i, stream[..Min(maxSize - 23, |stream|)], false)
    ensures maxSize >= 24 && brotli ==>
      var pieces := Cut([1] + stream, maxSize - 23);
      && (|pieces| <= 65535 <==> error == None)
      && (error == None ==> left == [] && frames == Numbered(id, pieces))
      && (error != None ==> error == Some(ArithmeticOverflow) && frames == Numbered(id, pieces)[..65535])
  {
    hide Cut, Numbered;
  }

  method NextFrame(ch: ChannelOut, maxSize: nat) returns (r: Result<Frame, ChannelOutError>)
    requires ch.Valid() && ch.closed && ch.Left().Some?
    modifies ch`frameNumber, ch.compressor.main
    ensures ch.Valid() && ch.compressor.main.raw == old(ch.compressor.main.raw) && ch.Left().Some?
    ensures ch.frameNumber == old(ch.frameNumber) + if r.Ok? then 1 else 0
    ensures FrameOutcome(ch.compressor.main.algo.Brotli?, ch.id, old(ch.frameNumber), old(ch.Left().value), maxSize,
                         r, ch.Left().value)
  {
    hide ChannelOut.Valid;
    r := ch.OutputFrame(maxSize);
  }

  /** Output frames while bytes are ready; any error ends the loop. */
  method Drain(ch: ChannelOut, maxSize: nat) returns (frames: seq<Frame>, error: Option<ChannelOutError>)
    requires ch.Valid() && ch.closed && ch.frameNumber == 0
    requires ch.Left().Some? && ch.Left().value != []
    modifies ch`frameNumber, ch.compressor.main
    ensures ch.Valid() && ch.compressor.main.raw == old(ch.compressor.main.raw)
    ensures ch.Left().Some?
    ensures Drained(ch.compressor.main.algo.Brotli?, ch.id, old(ch.Left().value), maxSize,
                    frames, error, ch.Left().value)
  {
    hide Draining, Drained, FrameOutcome;
    ghost var stream := ch.Left().value;
    ghost var brotli := ch.compressor.main.algo.Brotli?;
    frames, error := [], None;
    var ready := ch.ReadyBytes();
    DrainStarts(brotli, ch.id, stream, maxSize);
    while ready > 0
      invariant ch.Valid() && ch.compressor.main.raw == old(ch.compressor.main.raw)
      invariant ch.frameNumber == |frames| <= MAX_FRAMES
      invariant ch.Left().Some? && ready == |ch.Left().value|
      invariant Draining(brotli, ch.id, stream, maxSize, frames, ch.Left().value)
      decreases MAX_FRAMES - ch.frameNumber
    {
      ghost var left := ch.Left().value;
      var r := NextFrame(ch, maxSize);
      DrainGoesOn(brotli, ch.id, stream, maxSize, frames, left, r, ch.Left().value);
      if r.Err? {
        error := Some(r.error);
        return;
      }
      frames := frames + [r.value];
      ready := ch.ReadyBytes();
    }
    DrainEnds(brotli, ch.id, stream, maxSize, frames);
  }
}

/** The sending channel: batches go in as RLP byte strings, frames come out. */
module ChannelSending {
  import opened Bytes
  import opened Compression
  import opened ShadowCompression
  import opened Frames
  import Rlp

  datatype ChannelOutError =
    | ChannelClosed
    | MaxFrameSizeTooSmall
    | CompressionError(error: CompressorError)
    | BatchEncoding
    | ExceedsMaxRlpBytesPerChannel
    /** A `usize` or `u16` overflow, which panics when overflow checks are on. */
    | ArithmeticOverflow

  // -------------------------------------------------- cutting a byte string

  /** Pieces of `size` bytes, the last one possibly shorter. */
  function Cut(t: bytes, size: nat): (pieces: seq<bytes>)
    requires size >= 1
    ensures pieces != []
    decreases |t|
  {
    if |t| <= size then [t] else [t[..size]] + Cut(t[size..], size)
  }

  /** Nothing is lost or repeated, no piece is too long, and only the last one is
      not full. */
  lemma {:induction false} CutIsExact(t: bytes, size: nat)
    requires size >= 1 && t != []
    ensures Concat(Cut(t, size)) == t
    ensures forall i :: 0 <= i < |Cut(t, size)| ==> 1 <= |Cut(t, size)[i]| <= size
    ensures forall i :: 0 <= i < |Cut(t, size)| - 1 ==> |Cut(t, size)[i]| == size
    decreases |t|
  {
    if |t| <= size {
      assert Concat([t]) == t + Concat([]);
    } else {
      CutIsExact(t[size..], size);
      assert Cut(t, size)[1..] == Cut(t[size..], size);
      assert t == t[..size] + t[size..];
    }
  }

  /** The frames of a channel that carries `pieces`. */
  function Numbered(id: bytes, pieces: seq<bytes>): (fs: seq<Frame>)
    ensures |fs| == |pieces|
  {
    seq(|pieces|, i requires 0 <= i < |pieces| => Frame(id, i, pieces[i], i == |pieces| - 1))
  }

  const MAX_FRAMES: nat := 0xFFFF

  /** An accepted write goes into the real buffer, a refused one does not. */
  lemma WriteEffect(c: Config, s: Shadowed, data: bytes)
    requires !s.main.closed
    ensures var (t, r) := Written(c, s, data);
      && (r.Ok? ==> t.main == Eager(s.main.raw + data, c.compress(s.main.raw + data), false))
      && (r.Err? ==> t.main == s.main)
  {
  }

  class ChannelOut {
    var id: bytes
    const resetId: bytes
    const maxRlpBytesPerChannel: nat -> nat
    var rlpLength: nat
    var closed: bool
    var frameNumber: nat
    const compressor: ShadowCompressor
    ghost var accepted: seq<bytes>

    ghost predicate Valid()
      reads this, compressor, compressor.main, compressor.shadow
    {
      && compressor.Valid()
      && Rlp.AllFit(accepted)
      && compressor.main.raw == Rlp.Wrap(accepted)
      && rlpLength == |compressor.main.raw|
      && frameNumber <= MAX_FRAMES
    }

    /** The compressed bytes not yet in a frame, unless compression failed. */
    ghost function Left(): Option<bytes>
      reads this, compressor.main
    {
      compressor.main.View().out
    }

    /** Before the first frame, what is ready is the compressed form of all that was
        accepted, or nothing if nothing was. */
    ghost predicate Unread()
      reads this, compressor, compressor.main
    {
      Left() == if accepted == [] then Some([]) else compressor.main.compress(compressor.main.raw)
    }

    constructor (id: bytes, resetId: bytes, maxRlpBytesPerChannel: nat -> nat, compressor: ShadowCompressor)
      requires compressor.Valid() && compressor.View() == FRESH
      ensures Valid() && Unread() && accepted == [] && !closed && frameNumber == 0
      ensures this.id == id && this.resetId == resetId && this.compressor == compressor
      ensures this.maxRlpBytesPerChannel == maxRlpBytesPerChannel
    {
      this.id, this.resetId, this.maxRlpBytesPerChannel, this.compressor := id, resetId, maxRlpBytesPerChannel, compressor;
      rlpLength, closed, frameNumber := 0, false, 0;
      accepted := [];
    }

    /** The generator is seeded with a constant, so every reset gives the same id. */
    method Reset()
      requires Valid()
      modifies this, compressor, compressor.main, compressor.shadow
      ensures Valid() && Unread() && accepted == [] && !closed && frameNumber == 0 && id == resetId
      ensures compressor.View() == FRESH
    {
      rlpLength := 0;
      frameNumber := 0;
      closed := false;
      compressor.Reset();
      id := resetId;
      accepted := [];
    }

    /** `encoded` is the batch's own encoding, or `None` if it has none. A batch is
        taken whole or not at all. */
    method AddBatch(encoded: Option<bytes>, timestamp: nat) returns (r: Result<(), ChannelOutError>)
      requires Valid() && (encoded.Some? ==> Rlp.Fits(|encoded.value|))
      modifies `rlpLength, `accepted, compressor, compressor.main, compressor.shadow
      ensures Valid()
      ensures closed ==> r == Err(ChannelClosed)
      ensures !closed && encoded.None? ==> r == Err(BatchEncoding)
      ensures !closed && encoded.Some? ==>
        var rlp := Rlp.EncodeStr(encoded.value);
        if old(rlpLength) + |rlp| > maxRlpBytesPerChannel(timestamp)
        then r == Err(ExceedsMaxRlpBytesPerChannel)
        else
          var (after, answer) := Written(compressor.Settings(), old(compressor.View()), rlp);
          && compressor.View() == after
          && r == if answer.Ok? then Ok(()) else Err(CompressionError(answer.error))
      ensures r.Ok? ==> accepted == old(accepted) + [encoded.value] && Unread()
      ensures r.Err? ==> accepted == old(accepted) && compressor.View().main == old(compressor.View().main)
    {
      if closed {
        return Err(ChannelClosed);
      }
      if encoded.None? {
        return Err(BatchEncoding);
      }
      WriteEffect(compressor.Settings(), compressor.View(), Rlp.EncodeStr(encoded.value));
      hide Written, Rlp.EncodeStr, Rlp.AllFit;
      var rlp := Rlp.EncodeStr(encoded.value);
      if rlpLength + |rlp| > maxRlpBytesPerChannel(timestamp) {
        return Err(ExceedsMaxRlpBytesPerChannel);
      }
      var written := compressor.Write(rlp);
      if written.Err? {
        return Err(CompressionError(written.error));
      }
      rlpLength := rlpLength + |rlp|;
      Rlp.WrapSnoc(accepted, encoded.value);
      hide Rlp.Wrap;
      accepted := accepted + [encoded.value];
      r := Ok(());
    }

    method ReadyBytes() returns (n: nat)
      requires Valid()
      modifies compressor.main
      ensures Valid() && compressor.View() == old(compressor.View())
      ensures n == if Left().Some? then |Left().value| else 0
    {
      n := compressor.Len();
    }

    method Close()
      requires Valid()
      modifies `closed
      ensures Valid() && closed
    {
      closed := true;
    }

    /** The version byte that goes in front of the first frame's data. */
    ghost function Prefix(): bytes
      reads `frameNumber
    {
      if frameNumber == 0 && compressor.main.algo.Brotli? then [1] else []
    }

    /** Reads at most `room` of the ready bytes, and counts what is left. */
    method ReadReady(room: nat) returns (read: Result<bytes, CompressorError>, rest: nat)
      requires Valid()
      modifies compressor.main
      ensures Valid() && unchanged(compressor) && compressor.main.raw == old(compressor.main.raw)
      ensures old(Left()).None? ==> read == Err(BrotliFailed)
      ensures old(Left()).Some? ==>
        var ready := old(Left().value);
        var taken := Min(room, |ready|);
        var left := if compressor.main.algo.Brotli? then ready[taken..] else ready;
        read == Ok(ready[..taken]) && Left() == Some(left) && rest == |left|
    {
      hide Rlp.Wrap, Rlp.AllFit;
      var ready := compressor.Len();
      read := compressor.Read(Min(room, ready));
      rest := compressor.Len();
    }

    method OutputFrame(maxSize: nat) returns (r: Result<Frame, ChannelOutError>)
      requires Valid()
      modifies `frameNumber, compressor.main
      ensures Valid() && unchanged(compressor) && compressor.main.raw == old(compressor.main.raw)
      ensures maxSize < 23 ==> r == Err(MaxFrameSizeTooSmall)
      ensures 23 <= maxSize < 23 + |old(Prefix())| ==> r == Err(ArithmeticOverflow)
      ensures r.Err? ==> frameNumber == old(frameNumber)
      ensures maxSize < 23 + |old(Prefix())| ==> compressor.View() == old(compressor.View())
      ensures maxSize >= 23 + |old(Prefix())| && old(Left()).None? ==>
        r == Err(CompressionError(BrotliFailed))
      ensures maxSize >= 23 + |old(Prefix())| && old(Left()).Some? ==>
        var ready := old(Left().value);
        var taken := Min(maxSize - 23 - |old(Prefix())|, |ready|);
        var left := if compressor.main.algo.Brotli? then ready[taken..] else ready;
        && Left() == Some(left)
        && (if old(frameNumber) == 65535 then r == Err(ArithmeticOverflow)
            else
              && frameNumber == old(frameNumber) + 1
              && r == Ok(Frame(id, old(frameNumber), old(Prefix()) + ready[..taken], closed && left == [])))
    {
      hide Rlp.Wrap, Rlp.AllFit;
      if maxSize < FRAME_OVERHEAD {
        return Err(MaxFrameSizeTooSmall);
      }
      var version := None;
      if frameNumber == 0 {
        version := compressor.ChannelVersionByte();
      }
      var prefixLen := if version.Some? then 1 else 0;
      if maxSize - FRAME_OVERHEAD < prefixLen {
        return Err(ArithmeticOverflow);
      }
      var data := if version.Some? then [version.value] else [];
      var read, rest := ReadReady(maxSize - FRAME_OVERHEAD - prefixLen);
      if read.Err? {
        return Err(CompressionError(read.error));
      }
      data := data + read.value;
      var frame := Frame(id, frameNumber, data, closed && rest == 0);
      if frameNumber == MAX_FRAMES {
        return Err(ArithmeticOverflow);
      }
      frameNumber := frameNumber + 1;
      r := Ok(frame);
    }
  }
}

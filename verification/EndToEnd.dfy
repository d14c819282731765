/** From batches to blobs and back: what the batcher sends is what the derivation
    pipeline reads. */
module EndToEnd {
  import opened Bytes
  import opened Frames
  import opened ChannelAssembly
  import opened ChannelSending
  import opened BlobCodec
  import BlobProofs
  import ChannelDrain
  import Rlp

  /** Packs frames into one blob. */
  method EncodePacked(frames: seq<Frame>) returns (r: Result<bytes, EncodeError>)
    requires ValidFrames(frames)
    ensures |Payload(frames)| > 130_044 ==> r == Err(EncodeError.DataTooLarge(|Payload(frames)|))
    ensures |Payload(frames)| <= 130_044 ==>
      r == Ok(Encoded(BLOB_ENCODING_ROUNDS, Payload(frames))) && |r.value| == 131_072
  {
    var data := [DERIVATION_VERSION_0];
    var i := 0;
    while i < |frames|
      invariant 0 <= i <= |frames|
      invariant Payload(frames) == data + EncodeFrames(frames[i..])
    {
      data := data + EncodeFrame(frames[i]);
      assert frames[i..][1..] == frames[i + 1..];
      i := i + 1;
    }
    assert frames[i..] == [] && data + [] == data;
    var blob, rounds := BlobCodec.Encode(BLOB_ENCODING_ROUNDS, data);
    r := blob;
  }

  /** Decoding a blob and parsing the frames in it. */
  function FramesInBlob(blob: bytes): Option<seq<Frame>>
    requires |blob| == 128 * BLOB_ENCODING_ROUNDS
  {
    match Decoded(BLOB_ENCODING_ROUNDS, blob)
    case Err(_) => None
    case Ok(payload) =>
      match Parsed(payload)
      case Err(_) => None
      case Ok(fs) => Some(fs)
  }

  /** Any frames that fit a blob together come back from it; no frames do not. */
  lemma BlobCarriesFrames(fs: seq<Frame>)
    requires ValidFrames(fs) && |Payload(fs)| <= MaxData(BLOB_ENCODING_ROUNDS)
    ensures FramesInBlob(Encoded(BLOB_ENCODING_ROUNDS, Payload(fs))) == if fs == [] then None else Some(fs)
  {
    BlobProofs.RoundTrip(BLOB_ENCODING_ROUNDS, Payload(fs));
    forall i | 0 <= i < |fs|
      ensures |fs[i].data| <= MAX_FRAME_LEN
    {
      FrameWithin(fs, i);
    }
    ParseOfPayload(fs);
  }

  /** The frames of a drained brotli channel. */
  function ChannelFrames(id: bytes, stream: bytes, maxSize: nat): seq<Frame>
    requires maxSize >= 24
  {
    Numbered(id, Cut([1] + stream, maxSize - 23))
  }

  /** They are numbered from zero, only the last closes, each is at most `maxSize`
      bytes encoded and all but the last exactly that, and their data is the
      version byte followed by the compressed stream. */
  lemma DrainedFrames(id: bytes, stream: bytes, maxSize: nat)
    requires |id| == 16 && maxSize >= 24
    requires |ChannelFrames(id, stream, maxSize)| <= MAX_FRAMES
    ensures var fs := ChannelFrames(id, stream, maxSize);
      && ValidFrames(fs) && Complete(id, fs)
      && (forall i :: 0 <= i < |fs| ==> |EncodeFrame(fs[i])| <= maxSize)
      && (forall i :: 0 <= i < |fs| - 1 ==> |EncodeFrame(fs[i])| == maxSize)
      && Concat(FrameDatas(fs)) == [1] + stream
  {
    var fs, pieces := ChannelFrames(id, stream, maxSize), Cut([1] + stream, maxSize - 23);
    CutIsExact([1] + stream, maxSize - 23);
    assert FrameDatas(fs) == pieces;
  }

  /** Each of them fits a blob alone when `maxSize` leaves room for the version
      byte. */
  lemma FrameInItsOwnBlob(id: bytes, stream: bytes, maxSize: nat, i: nat)
    requires |id| == 16 && 24 <= maxSize <= MaxData(BLOB_ENCODING_ROUNDS) - 1
    requires |ChannelFrames(id, stream, maxSize)| <= MAX_FRAMES && i < |ChannelFrames(id, stream, maxSize)|
    ensures var f := ChannelFrames(id, stream, maxSize)[i];
      && ValidFrame(f) && |Payload([f])| <= MaxData(BLOB_ENCODING_ROUNDS)
      && FramesInBlob(Encoded(BLOB_ENCODING_ROUNDS, Payload([f]))) == Some([f])
  {
    DrainedFrames(id, stream, maxSize);
    var f := ChannelFrames(id, stream, maxSize)[i];
    assert EncodeFrames([f]) == EncodeFrame(f) + EncodeFrames([]);
    BlobCarriesFrames([f]);
  }

  /** What the batch reader makes of assembled channel data: the first byte picks
      the decompressor, the output is cut at `limit`, and byte strings are read
      off one after another. */
  function ReadChannel(data: bytes, limit: nat, brotliSupported: bool,
                       unbrotli: bytes -> Option<bytes>, unzip: bytes -> Option<bytes>): Option<seq<bytes>>
  {
    if data == [] then None
    else
      var decompressed :=
        if data[0] % 16 == 8 || data[0] % 16 == 15 then unzip(data)
        else if data[0] == 1 && brotliSupported then unbrotli(data[1..])
        else None;
      match decompressed
      case None => None
      case Some(raw) => Some(Rlp.ReadStrings(raw[..Min(limit, |raw|)]))
  }

  /** What the reader does, by the first byte: 0x78 and every other byte with low bits 8 or
      15 is zlib, 0x01 is brotli where it is supported, anything else is refused. */
  lemma ReaderByFirstByte(data: bytes, limit: nat, brotliSupported: bool,
                          unbrotli: bytes -> Option<bytes>, unzip: bytes -> Option<bytes>)
    ensures var read := ReadChannel(data, limit, brotliSupported, unbrotli, unzip);
      && (data == [] ==> read.None?)
      && (data != [] && (data[0] % 16 == 8 || data[0] % 16 == 15) ==> (read.Some? <==> unzip(data).Some?))
      && (data != [] && data[0] == 1 ==> (read.Some? <==> brotliSupported && unbrotli(data[1..]).Some?))
      && (data != [] && data[0] != 1 && data[0] % 16 != 8 && data[0] % 16 != 15 ==> read.None?)
  {
    hide Rlp.ReadStrings;
  }

  /** The whole path: whatever batches a channel accepted, whatever size its frames
      are cut to, however those frames arrive, once all have arrived the reader
      gets back the batches that end within its limit, in order. */
  lemma BatchesArrive(batches: seq<bytes>, id: bytes, stream: bytes, maxSize: nat, order: seq<nat>, limit: nat,
                      unbrotli: bytes -> Option<bytes>, unzip: bytes -> Option<bytes>)
    requires Rlp.AllFit(batches) && |id| == 16 && maxSize >= 24
    requires unbrotli(stream) == Some(Rlp.Wrap(batches))
    requires |ChannelFrames(id, stream, maxSize)| <= MAX_FRAMES
    requires Indices(order, |ChannelFrames(id, stream, maxSize)|)
    requires AllOf(|ChannelFrames(id, stream, maxSize)|, Arrived(order))
    ensures var fs := ChannelFrames(id, stream, maxSize);
      var a := Delivered(id, fs, order);
      && Ready(a) && Data(a).Some?
      && ReadChannel(Data(a).value, limit, true, unbrotli, unzip) == Some(batches[..Rlp.WholeWithin(batches, limit)])
      && (limit >= |Rlp.Wrap(batches)| ==> ReadChannel(Data(a).value, limit, true, unbrotli, unzip) == Some(batches))
  {
    hide ChannelFrames, Delivered, Data, Ready, Complete, ValidFrames, Concat;
    hide Rlp.ReadStrings, Rlp.Wrap, Rlp.WholeWithin, Rlp.AllFit;
    var fs := ChannelFrames(id, stream, maxSize);
    DrainedFrames(id, stream, maxSize);
    AnyOrderReassembles(id, fs, order);
    assert ([1] + stream)[1..] == stream;
    Rlp.ReadWrapped(batches, limit);
    assert batches[..|batches|] == batches;
  }

  // ------------------------------------------------------------- any packing of frames

  /** The frames a blob carries, by their numbers. */
  function Selected(frames: seq<Frame>, group: seq<nat>): seq<Frame>
    requires Indices(group, |frames|)
  {
    seq(|group|, i requires 0 <= i < |group| => frames[group[i]])
  }

  /** The order in which frames come out of the blobs. */
  function Flat(plan: seq<seq<nat>>): seq<nat> {
    if plan == [] then [] else Flat(plan[..|plan| - 1]) + plan[|plan| - 1]
  }

  /** A blob holds at least one frame, and what it holds fits. */
  ghost predicate FitsBlob(frames: seq<Frame>, group: seq<nat>)
    requires ValidFrames(frames)
  {
    && group != [] && Indices(group, |frames|)
    && |Payload(Selected(frames, group))| <= MaxData(BLOB_ENCODING_ROUNDS)
  }

  ghost predicate AllFitBlobs(frames: seq<Frame>, plan: seq<seq<nat>>)
    requires ValidFrames(frames)
  {
    forall i :: 0 <= i < |plan| ==> FitsBlob(frames, plan[i])
  }

  lemma {:induction false} FlatIndices(frames: seq<Frame>, plan: seq<seq<nat>>)
    requires ValidFrames(frames) && AllFitBlobs(frames, plan)
    ensures Indices(Flat(plan), |frames|)
  {
    if plan != [] {
      var last := |plan| - 1;
      assert FitsBlob(frames, plan[last]);
      FlatIndices(frames, plan[..last]);
    }
  }

  /** One frame per blob always fits when `maxSize` leaves room for the version byte, so
      that any order of single frames is such a plan. */
  lemma SinglesFit(id: bytes, stream: bytes, maxSize: nat, i: nat)
    requires |id| == 16 && 24 <= maxSize <= MaxData(BLOB_ENCODING_ROUNDS) - 1
    requires |ChannelFrames(id, stream, maxSize)| <= MAX_FRAMES && i < |ChannelFrames(id, stream, maxSize)|
    ensures ValidFrames(ChannelFrames(id, stream, maxSize)) && FitsBlob(ChannelFrames(id, stream, maxSize), [i])
  {
    var fs := ChannelFrames(id, stream, maxSize);
    DrainedFrames(id, stream, maxSize);
    FrameInItsOwnBlob(id, stream, maxSize, i);
    assert Selected(fs, [i]) == [fs[i]];
  }

  /** The same with the classes and methods themselves: drain a closed channel, pack its
      frames into blobs, any number of them together as long as they fit, decode the
      blobs in any order with any repeats, and read what the receiving channel
      assembled. */
  method SendAndReceive(ch: ChannelOut, maxSize: nat, plan: seq<seq<nat>>, limit: nat,
                        unbrotli: bytes -> Option<bytes>, unzip: bytes -> Option<bytes>)
    returns (received: Option<seq<bytes>>)
    requires ch.Valid() && ch.Unread() && ch.frameNumber == 0 && |ch.id| == 16 && ch.compressor.main.algo.Brotli?
    requires maxSize >= 24 && ch.Left().Some? && ch.Left().value != []
    requires unbrotli(ch.Left().value) == Some(ch.compressor.main.raw)
    requires var frames := ChannelFrames(ch.id, ch.Left().value, maxSize);
      |frames| <= MAX_FRAMES && ValidFrames(frames) && AllFitBlobs(frames, plan) && AllOf(|frames|, Arrived(Flat(plan)))
    requires limit >= |ch.compressor.main.raw|
    modifies ch`closed, ch`frameNumber, ch.compressor.main
    ensures received == Some(old(ch.accepted))
  {
    hide ChannelFrames, AllFitBlobs, ValidFrames, AllOf;
    ghost var stream, batches := ch.Left().value, ch.accepted;
    ch.Close();
    var frames, error := ChannelDrain.Drain(ch, maxSize);
    assert frames == ChannelFrames(ch.id, stream, maxSize) by {
      DrainIsChannelFrames(ch.id, stream, maxSize, frames, error, ch.Left().value);
    }
    FlatIndices(frames, plan);
    var data := DeliverAll(frames, plan, ch.id);
    BatchesArrive(batches, ch.id, stream, maxSize, Flat(plan), limit, unbrotli, unzip);
    received := ReadChannel(data.value, limit, true, unbrotli, unzip);
  }

  lemma DrainIsChannelFrames(id: bytes, stream: bytes, maxSize: nat, frames: seq<Frame>,
                             error: Option<ChannelOutError>, left: bytes)
    requires maxSize >= 24 && |ChannelFrames(id, stream, maxSize)| <= MAX_FRAMES
    requires ChannelDrain.Drained(true, id, stream, maxSize, frames, error, left)
    ensures frames == ChannelFrames(id, stream, maxSize) && error == None
  {
  }

  method DeliverAll(frames: seq<Frame>, plan: seq<seq<nat>>, id: bytes) returns (data: Option<bytes>)
    requires ValidFrames(frames) && AllFitBlobs(frames, plan) && Indices(Flat(plan), |frames|)
    ensures data == Data(Delivered(id, frames, Flat(plan)))
  {
    var rx := new Channel(id);
    for i := 0 to |plan|
      invariant rx.Valid() && Indices(Flat(plan[..i]), |frames|) && rx.State() == Delivered(id, frames, Flat(plan[..i]))
    {
      assert FitsBlob(frames, plan[i]);
      var fs := Transmit(frames, plan[i]);
      assert plan[..i + 1][..i] == plan[..i];
      AddAll(rx, frames, plan[i], fs, i, Flat(plan[..i]));
    }
    assert plan[..|plan|] == plan;
    data := rx.FrameData();
  }

  lemma DeliveredNext(id: bytes, frames: seq<Frame>, before: seq<nat>, k: nat)
    requires Indices(before, |frames|) && k < |frames|
    ensures Indices(before + [k], |frames|)
    ensures Delivered(id, frames, before + [k]) == Added(Delivered(id, frames, before), frames[k])
  {
    hide Added;
    assert (before + [k])[..|before|] == before;
  }

  /** The frames of one blob go to the receiving channel in order. */
  method AddAll(rx: Channel, ghost frames: seq<Frame>, group: seq<nat>, fs: seq<Frame>, inclusion: nat, ghost before: seq<nat>)
    requires rx.Valid() && Indices(before, |frames|) && Indices(group, |frames|) && fs == Selected(frames, group)
    requires rx.State() == Delivered(rx.id, frames, before)
    modifies rx
    ensures rx.Valid() && Indices(before + group, |frames|) && rx.State() == Delivered(rx.id, frames, before + group)
  {
    assert before + group[..0] == before;
    for j := 0 to |fs|
      invariant rx.Valid() && Indices(before + group[..j], |frames|)
      invariant rx.State() == Delivered(rx.id, frames, before + group[..j])
    {
      DeliveredNext(rx.id, frames, before + group[..j], group[j]);
      assert before + group[..j] + [group[j]] == before + group[..j + 1];
      hide Delivered, Added, Refusal;
      var _ := rx.AddFrame(fs[j], inclusion);
    }
    assert group[..|fs|] == group;
  }

  /** Some frames through a blob. */
  method Transmit(frames: seq<Frame>, group: seq<nat>) returns (fs: seq<Frame>)
    requires ValidFrames(frames) && FitsBlob(frames, group)
    ensures fs == Selected(frames, group)
  {
    var sent := Selected(frames, group);
    BlobCarriesFrames(sent);
    hide Encoded, Decoded, Parsed, Payload;
    var blob := EncodePacked(sent);
    var payload := BlobCodec.Decode(BLOB_ENCODING_ROUNDS, blob.value);
    var parsed := ParseFrames(payload.value);
    fs := parsed.value;
  }
}

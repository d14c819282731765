# Batcher data path, simulated L1, sequencing and crate selection: a Dafny model

This project models five parts of the sci-chain repository and proves what they
promise, for all inputs and over all runs.

- **The batch data path.** Batches are wrapped in RLP (Recursive Length Prefix),
  compressed, cut into frames, packed into EIP-4844 blobs, and come back through
  blob decoding, frame parsing, channel reassembly and batch reading
  (`BlobCodec`, `BlobProofs`, `Frames`, `ChannelAssembly`, `Compression`,
  `ShadowCompression`, `ShadowGuarantee`, `ChannelSending`, `ChannelDrain`, `Rlp`,
  `EndToEnd`).
- **The account-abstraction transaction codec** of the TypeScript SDK, against an
  independent decoder and the node's field widths (`Hex`, `AaTransaction`, `AaProofs`,
  `AaSpelling`).
- **The simulated L1** with reorgs, its shared view, and the transaction manager on
  top, under every interleaving of their steps (`L1Miner`, `TxManager`,
  `TxManagerRuns`, `TxInclusion`, `TxBlobs`, `TxManagerDrive`).
- **Conductor-gated sequencing and the rollup node's heads** as state machines over an
  abstract engine and pipeline (`L2Chain`, `Conductor`, `Node`).
- **The affected-crates script** (`AffectedCrates`).

Code that updates fields or buffers in place is a class or a method on arrays, and its
`ensures` ties the new state to a function on values. The properties are lemmas about
those functions, over sequences of calls or events.

Outside functions are parameters: compression is any function from bytes to optional
bytes, decompression any function that inverts it on the stream in question, hashing
any function, injective only where a lemma says so, and the random channel id, the
engine's block hashes, signing success and leadership changes are inputs. In the runs of
the transaction manager nobody else signs with its key.

## Where the code differs from its documentation

- `comp/config.rs` promises that accepted data stays within the target size. The
  shadow compressor looks only at writes that alone exceed the target:
  `ShadowGuarantee.GuaranteeExactly`, `ShadowCompression.TwoSmallWritesOverrun`.
- The blob decoder neither checks nor reads the top two bits of byte 0:
  `BlobProofs.TopBitsIgnored`, `AcceptedExactly`.
- A zlib channel never drains, because its `read` does not consume:
  `ChannelDrain.Drain`.
- `act_l1_safe` may move safe below finalized: `L1Miner.FinalizedBelowSafeExactly`.
- A reorg at the miner, past the manager, can strand a submission: it is then never queued
  or canonical again, and waits until a reorg through the manager or a confirmation of the
  discarded block: `TxInclusion.StrandedExactly`, `GoneForEver`, `DirectReorgStrands`.
- A submission answered with a failure by a reorg through the manager can still be mined:
  `TxInclusion.FailedYetMined`, `FailedYetMinedRun`.
- The node asks neither gossip for its parent nor derivation for what was gossiped, so the
  unsafe head can leave the safe fork: `Node.ForkInRuns`, `UnsafeForkRun`.
- `output_frame` accepts a maximum of 23 bytes, which leaves no room for the version
  byte of the first brotli frame and underflows; 24 is enough to make progress.

## Model

| member | source | states |
|---|---|---|
| `EndToEnd.SendAndReceive` | crates/batcher/comp/src/channel_out.rs:129-172 | Close a brotli channel, drain it into frames of at most `maxSize` bytes (24 or more), pack the frames into blobs in any grouping that fits, decode the blobs in any order with any repeats, parse, reassemble and read: the result is exactly the accepted batches in order |
| `EndToEnd.BatchesArrive` | crates/consensus/protocol/src/batch/reader.rs:78-152 | On values, for every stream, frame size and arrival order: once all frames arrived the reader gets the batches that end within its byte limit, and all of them when the limit covers the raw bytes |
| `EndToEnd.ReaderByFirstByte` | crates/consensus/protocol/src/batch/reader.rs:78-130 | By the first byte: low bits 8 or 15 are decompressed as zlib, 0x01 as brotli without that byte where brotli is supported, and anything else, or nothing, is refused |
| `EndToEnd.DrainedFrames` | crates/batcher/comp/src/channel_out.rs:133-172 | The frames of a drained channel are numbered 0..n-1, only the last closes, each is at most `maxSize` bytes encoded and all but the last exactly that, and their data is 0x01 followed by the compressed stream |
| `EndToEnd.EncodePacked` | crates/batcher/blobs/src/encoder.rs:54-62 | The blob holds version byte 0 followed by the frames' encodings, or the size error when these exceed 130044 bytes |
| `EndToEnd.BlobCarriesFrames` | crates/consensus/protocol/src/frame.rs:245-273 | Any non-empty list of frames that fits a blob is what decoding and parsing that blob returns; an empty list is refused |
| `EndToEnd.FrameInItsOwnBlob` | crates/batcher/blobs/src/encoder.rs:54-62 | Every frame of a drained channel fits a blob alone when `maxSize` is at most 130043, and comes back from it unchanged |
| `EndToEnd.SinglesFit` | crates/batcher/blobs/src/encoder.rs:54-62 | One frame per blob is such a packing whenever `maxSize` is at most 130043 |
| `EndToEnd.DeliverAll` | crates/consensus/protocol/src/channel.rs:96-148 | Feeding the frames of one blob after another to the receiving channel ends in the state and data that the order of their frames determines |
| `EndToEnd.Transmit` | crates/batcher/blobs/src/decoder.rs:55-125 | Encoding, decoding and parsing any group of frames that fits a blob returns that group |
| `BlobCodec.Encode` | crates/batcher/blobs/src/encoder.rs:68-166 | The in-place encoder produces the packed form of header, payload and zero padding for any round count, whose bytes `BlobProofs.BlobLayout` gives, and stops after exactly the rounds that payload needs, the ones the decoder reads; longer payloads get the size error |
| `BlobCodec.WriteFirstRound` | crates/batcher/blobs/src/encoder.rs:93-125 | Round 0 writes the packed form of header and first 123 payload bytes and touches nothing else |
| `BlobCodec.WriteRound` | crates/batcher/blobs/src/encoder.rs:128-163 | Each later round writes the packed form of the next 127 bytes at its place and touches nothing else |
| `BlobCodec.WriteRounds` | crates/batcher/blobs/src/encoder.rs:128-163 | The loop over the later rounds ends with the whole encoding after `RoundsFor` rounds |
| `BlobCodec.Decode` | crates/batcher/blobs/src/decoder.rs:55-125 | The in-place decoder returns the outcome `Decoded`, which `BlobProofs.StreamLayout` and `DecodeOutcomes` read off the blob: version, length, field-element, padding and trailing-byte checks in order, each reporting its first offender |
| `BlobCodec.DecodeRounds` | crates/batcher/blobs/src/decoder.rs:74-104 | Round by round decoding stops after exactly the rounds the declared length needs, reporting the first element with a top bit set, or leaving the unpacked bytes |
| `BlobCodec.DecodeFieldElement` | crates/batcher/blobs/src/decoder.rs:130-141 | One element is refused at its offset when one of its two top bits is set, else its 31 low bytes are copied into place |
| `BlobCodec.ReassembleBytes` | crates/batcher/blobs/src/decoder.rs:145-154 | The three spread bytes are put back between the copied ones and nothing else changes |
| `BlobCodec.UnpackOfPack` | crates/batcher/blobs/src/encoder.rs:93-163 | Unpacking undoes packing for every stream of every round count |
| `BlobCodec.PackOfUnpack` | crates/batcher/blobs/src/decoder.rs:74-154 | Packing undoes unpacking on elements with clear top bits, except for the two top bits of byte 0 |
| `BlobCodec.PackPrefix` | crates/batcher/blobs/src/encoder.rs:128-133 | Stopping early is harmless: rounds that carry only zeros pack to zeros |
| `BlobProofs.RoundTrip` | crates/batcher/blobs/src/encoder.rs:68-166 | Decoding the encoding of any payload of at most 127 R - 4 bytes returns it, for every round count R |
| `BlobProofs.BlobLayout` | crates/batcher/blobs/src/encoder.rs:86-163 | Every byte of the blob read directly off version byte, three length bytes, payload and zeros: 31 low bytes per element in place, and bytes 31, 63 and 95 of each round spread over the four high bytes as 6 bits, 2 + 4 bits, 6 bits and 4 + 2 bits |
| `BlobProofs.StreamLayout` | crates/batcher/blobs/src/decoder.rs:130-154 | The reverse: where the decoder takes each of the 127 bytes of a round from, the three spread ones bit by bit |
| `BlobProofs.DecodeOutcomes` | crates/batcher/blobs/src/decoder.rs:55-125 | For every blob, each answer by its cause: the version byte, the three length bytes over the capacity, the first element with a top bit set, the first non-zero byte of padding and then of the unread rounds, else the payload |
| `BlobProofs.Canonical` | crates/batcher/blobs/src/decoder.rs:55-154 | An accepted blob is the encoding of its payload with only the top two bits of byte 0 possibly set |
| `BlobProofs.AcceptedExactly` | crates/batcher/blobs/src/decoder.rs:55-125 | A blob is accepted if and only if it is some encoding up to those two bits |
| `BlobProofs.SamePayloadExactly` | crates/batcher/blobs/src/decoder.rs:55-125 | Two accepted blobs carry the same payload if and only if they agree outside those two bits |
| `BlobProofs.TopBitsIgnored` | crates/batcher/blobs/src/decoder.rs:74-80 | The top two bits of element 0, unlike all others, change nothing in the outcome, error or not |
| `BlobProofs.EncodedInjective` | crates/batcher/blobs/src/encoder.rs:68-166 | Different payloads have different blobs |
| `Frames.DecodeOfEncodeFrame` | crates/consensus/protocol/src/frame.rs:195-229 | A frame decodes to itself and its exact length if and only if its data is at most 1,000,000 bytes; otherwise the too-large error |
| `Frames.FrameLayout` | crates/consensus/protocol/src/frame.rs:195-204 | On the wire: 16 id bytes, the number in two bytes and the length in four, high byte first, the data, and one byte that is 1 for the last frame and 0 otherwise |
| `Frames.FrameErrors` | crates/consensus/protocol/src/frame.rs:206-229 | Too short exactly under 23 bytes; too large exactly when the four length bytes exceed 1,000,000 or what follows; else a frame |
| `Frames.EncodeOfDecodeFrame` | crates/consensus/protocol/src/frame.rs:206-229 | Accepted bytes are the frame's encoding, where every is-last byte other than 1 was read as 0 |
| `Frames.ParseFrames` | crates/consensus/protocol/src/frame.rs:245-273 | The offset loop returns what reading frames one after another gives, with each error case |
| `Frames.ParseOfPayload` | crates/consensus/protocol/src/frame.rs:245-273 | Parsing the payload built from decodable frames returns those frames |
| `Frames.ParseOutcomes` | crates/consensus/protocol/src/frame.rs:245-273 | Each answer by its input, both ways: nothing, a version byte other than 0, a version byte alone, a frame error after any number of good frames, or the frames whose encodings fill the payload to the end |
| `ChannelAssembly.Channel.AddFrame` | crates/consensus/protocol/src/channel.rs:96-148 | Each refusal by its cause: another id, a second closing frame, a number held already, a number at or beyond the end; else the frame is held, a closing one drops everything at or beyond it; the running size stays the sum over the held frames and never underflows; the inclusion block is the highest of an accepted frame |
| `ChannelAssembly.Channel.Prune` | crates/consensus/protocol/src/channel.rs:121-133 | Dropping the frames at or beyond the closing one takes exactly their sizes off the running size |
| `ChannelAssembly.Channel.IsReady` | crates/consensus/protocol/src/channel.rs:160-184 | Ready means closed with every frame from 0 to the last present and no other; a closed channel whose last number is 65535 overflows the 16-bit sum instead |
| `ChannelAssembly.Channel.FrameData` | crates/consensus/protocol/src/channel.rs:187-202 | The data of frames 0 to last in order, or nothing if one is missing |
| `ChannelAssembly.AnyOrderReassembles` | crates/consensus/protocol/src/channel.rs:96-202 | For every arrival order with repeats, the channel is ready if and only if every frame has arrived, and then holds their data in order |
| `ChannelAssembly.NothingBeyondEnd` | crates/consensus/protocol/src/channel.rs:96-148 | After any frames at all, a closed channel holds none numbered above its last |
| `ChannelAssembly.StraysAreHarmless` | crates/consensus/protocol/src/channel.rs:96-202 | The same among any frames of other channels and any non-closing ones numbered past the end, before or after the close: ready if and only if every frame of the channel has arrived, with the same data |
| `Rlp.ReadWrapped` | crates/batcher/comp/src/channel_out.rs:85-110 | The accepted raw bytes are uniquely decodable, and a reader cut off after any number of bytes gets exactly the batches that end within them |
| `Rlp.WrapSnoc` | crates/batcher/comp/src/channel_out.rs:94-107 | Accepting one more batch appends its byte-string encoding to the raw bytes |
| `Rlp.CutStringUnreadable` | crates/consensus/protocol/src/batch/reader.rs:132-152 | A batch cut short anywhere yields nothing |
| `Rlp.DecodeOfEncode` | sci/sdk/src/aa.ts:145-147 | RLP decoding undoes encoding for every nested item and stops exactly at its end |
| `Rlp.EncodeOfDecode` | crates/common/consensus/src/transaction/aa.rs:173-186 | Whatever the strict RLP decoder accepts is the one encoding of what it returns |
| `Rlp.PrefixFree` | crates/batcher/comp/src/channel_out.rs:85-110 | No RLP encoding is a proper prefix of another |
| `Rlp.StringLayout` | crates/batcher/comp/src/channel_out.rs:94-107 | The first bytes by length: a byte below 0x80 is itself; up to 55 bytes follow 0x80 plus their number; more follow 0xb7 plus the number of length bytes and the minimal length, high byte first |
| `Rlp.ListLayout` | sci/sdk/src/aa.ts:145-147 | The same for lists with 0xc0 and 0xf7, by the length of the items' encodings |
| `Compression.LazyCompressor.PerformAll` | crates/batcher/comp/src/brotli.rs:90-178 | For every sequence of calls the dirty-flag cache answers as a compressor that recompresses everything on every write |
| `Compression.LazyCompressor.Write` | crates/batcher/comp/src/brotli.rs:125-135 | A write appends to the raw bytes and discards what was compressed and read, as the eager write does |
| `Compression.LazyCompressor.Read` | crates/batcher/comp/src/brotli.rs:153-160 | Brotli's read drains what it returns; zlib's returns the same prefix again |
| `Compression.LazyCompressor.Len` | crates/batcher/comp/src/brotli.rs:162-167 | Asking the length refreshes the cache and changes nothing an eager observer could see |
| `Compression.LazyCompressor.GetCompressed` | crates/batcher/comp/src/zlib.rs:101-104 | Likewise for the compressed bytes |
| `Compression.LazyCompressor.Reset` | crates/batcher/comp/src/brotli.rs:146-151 | Back to the empty state |
| `Compression.QueriesDoNotDisturb` | crates/batcher/comp/src/brotli.rs:162-174 | Inserting a length or contents query anywhere in a run changes no other answer and not the end state |
| `Compression.RunAppend` | crates/batcher/comp/src/brotli.rs:90-178 | Running two call sequences in a row is running their concatenation |
| `Compression.WriteRestarts` | crates/batcher/comp/src/brotli.rs:131-133 | What a reader collects across a write is the new compressed stream if and only if it had read nothing before the write; if more input only lengthens the output, the bytes read before are at the front of those read after |
| `Compression.RunMeans` | crates/batcher/comp/src/brotli.rs:90-178 | After any calls without a close, the reference compressor holds what was written since the reset and, for brotli, the part of its compressed form not read since the last write |
| `Compression.AnswerMeans` | crates/batcher/comp/src/brotli.rs:90-178 | Each answer of such a run read off the calls before it: a read gets the first unread bytes, queries see what is left, a write succeeds |
| `Compression.AfterClose` | crates/batcher/comp/src/brotli.rs:125-144 | A closed brotli buffer refuses writes unchanged; a zlib one does not notice |
| `ShadowCompression.ShadowCompressor.Write` | crates/batcher/comp/src/shadow.rs:69-96 | The two-buffer write does what the state function `Written` says: full is refused, the estimate is refreshed only for a write above the target, a refusal happens before the real buffer is touched |
| `ShadowCompression.ShadowCompressor.Reset` | crates/batcher/comp/src/shadow.rs:121-126 | Both buffers empty, not full, initial bound |
| `ShadowCompression.KeptByRuns` | crates/batcher/comp/src/shadow.rs:69-126 | In every run of writes and resets both buffers agree until a refusal, and after it the channel is full and the estimating buffer is ahead |
| `ShadowCompression.WritesAreSafe` | crates/batcher/comp/src/shadow.rs:69-126 | In every run a refusal never changes the real buffer, full lasts until reset, and an accepted write longer than the target leaves length + 9 within the target or went into an empty buffer and filled it |
| `ShadowGuarantee.GuaranteeExactly` | crates/batcher/comp/src/config.rs:8-10 | After any history of writes and resets, the next write stays within the target for every lossless compressor if and only if it is not the first since the reset and either exceeds the target alone, or follows more estimates than there are outputs that pass one, or leaves contents already estimated |
| `ShadowGuarantee.FullExactly` | crates/batcher/comp/src/shadow.rs:69-96 | In every run the channel is full if and only if some estimate since the reset was too large; until then both buffers hold every write |
| `ShadowGuarantee.WithinExactly` | crates/batcher/comp/src/shadow.rs:69-96 | For one compressor: the next write stays within the target if and only if the channel is full, or the write is a later one above the target, or its output happens to fit |
| `ShadowGuarantee.TinyTargetsAlwaysHold` | crates/batcher/comp/src/shadow.rs:82-91 | With a target of at most nine bytes one write beyond it fills the channel, whatever the compressor, and the guarantee holds from then on |
| `ShadowGuarantee.SmallWritesAreUnchecked` | crates/batcher/comp/src/shadow.rs:79-80 | Writes within the target are never estimated, however many there are |
| `ShadowGuarantee.Pigeonhole` | crates/batcher/comp/src/shadow.rs:82-91 | A lossless compressor cannot give more contents a passing estimate than there are byte strings that short |
| `ShadowCompression.TwoSmallWritesOverrun` | crates/batcher/comp/src/shadow.rs:69-96 | Two writes of exactly the target size are both accepted and leave more than twice the target |
| `ChannelSending.ChannelOut.constructor` | crates/batcher/comp/src/channel_out.rs:66-68 | A new channel is open, empty and at frame 0 |
| `ChannelSending.ChannelOut.Reset` | crates/batcher/comp/src/channel_out.rs:71-81 | A reset channel is as a new one, with the one id the constant seed always gives |
| `ChannelSending.ChannelOut.AddBatch` | crates/batcher/comp/src/channel_out.rs:85-110 | A batch is taken whole or not at all, with each error case; accepted raw bytes are always the wrapped accepted batches |
| `ChannelSending.ChannelOut.ReadyBytes` | crates/batcher/comp/src/channel_out.rs:118-120 | The number of compressed bytes not yet framed, 0 when compression fails |
| `ChannelSending.ChannelOut.OutputFrame` | crates/batcher/comp/src/channel_out.rs:140-172 | The frame's id, number, data and last flag, and what remains ready afterwards, for brotli and zlib, with each error case and both overflow points |
| `ChannelSending.CutIsExact` | crates/batcher/comp/src/channel_out.rs:147-158 | Cutting loses and repeats nothing and only the last piece is short |
| `ChannelDrain.Drain` | crates/batcher/encoder/src/encoder.rs:260-272 | The drain loop terminates; a brotli channel with `maxSize` at least 24 yields exactly the numbered pieces of 0x01 plus the stream, up to 65535 frames; 23 and less fail; a zlib channel never sheds a byte, every one of its frames carries the same first `maxSize - 23` bytes, none is the last, and it ends at the frame-number overflow |
| `ChannelDrain.DrainOutcomes` | crates/batcher/encoder/src/encoder.rs:260-272 | The end of a drain by frame size: under 23 too small, 23 overflows for brotli, else the pieces of 23 bytes less than `maxSize` as frames, an overflow exactly past 65535 of them; for zlib always the overflow, after 65535 copies of the first piece |
| `ChannelDrain.CutSoFarStep` | crates/batcher/comp/src/channel_out.rs:140-172 | One more frame takes exactly the next piece |
| `AaProofs.UnsignedRoundTrip` | sci/sdk/src/aa.ts:113-147 | An RLP decoder recovers all nine fields of every transaction the SDK encodes |
| `AaProofs.DecodeSignedExactly` | sci/sdk/src/aa.ts:161-173 | Twelve-field decoding accepts exactly the wire forms of valid values and no value has two |
| `AaProofs.DecodeUnsignedExactly` | sci/sdk/src/aa.ts:113-147 | Nine-field decoding accepts exactly the wire forms of valid values and no value has two |
| `AaProofs.UnsignedIsWire` | sci/sdk/src/aa.ts:113-147 | The SDK's hex-string pipeline yields the wire form of what the transaction means, or throws when it means nothing |
| `AaProofs.SignedIsWire` | sci/sdk/src/aa.ts:161-173 | The same for the signed form, whose r and s are read as `Hex.NumberIsValue` says |
| `AaProofs.SamePayloadExactly` | sci/sdk/src/aa.ts:79-147 | Two transactions share a signing payload if and only if they have the same values: numbers, byte strings, absent or 20-byte addresses |
| `AaSpelling.SamePayloadExactly` | sci/sdk/src/aa.ts:79-147 | Two transactions share a signing payload if and only if their numbers are equal and their strings differ at most in hex case, one padding zero and the spelling of absence |
| `AaSpelling.SameMeaningExactly` | sci/sdk/src/aa.ts:101-134 | Equality of values is exactly that sameness of spelling, for every transaction that can be encoded |
| `AaSpelling.SameHexExactly` | sci/sdk/src/aa.ts:108-110 | Two hex strings denote the same bytes if and only if their digits agree up to case and one padding zero |
| `AaSpelling.PairBytesInjective` | sci/sdk/src/aa.ts:79-110 | Digits that spell the same bytes are the same digits up to case: no digit is lost |
| `AaProofs.SignedRoundTrip` | sci/sdk/src/aa.ts:161-173 | An RLP decoder recovers all twelve fields of every signed transaction the SDK encodes; what r and s then are is `AaSpelling.SignatureReadBack` |
| `AaSpelling.SignatureReadBack` | sci/sdk/src/aa.ts:161-173 | Decoding a signed transaction returns the parity, and r and s as the big-endian numbers of the bytes their hex spells |
| `AaSpelling.UnsignedLayout` | sci/sdk/src/aa.ts:113-147 | The signing payload is 0x76 and one RLP list of nine items in their order, each the bytes its own field spells |
| `AaSpelling.SignedLayout` | sci/sdk/src/aa.ts:161-173 | The signed transaction is 0x76 and one RLP list of the same nine items, then parity, r and s |
| `AaSpelling.AddressForm` | sci/sdk/src/aa.ts:101-105 | An address is exactly 0x and 40 hex digits of either case |
| `AaSpelling.NodeWidths` | crates/common/consensus/src/transaction/aa.rs:173-186 | What the node can hold: 64, 128 and 256-bit numbers by field, 20-byte addresses, 32-byte keys, and a parity of 0 or 1 |
| `AaProofs.SignedIsNeverUnsigned` | sci/sdk/src/aa.ts:145-173 | No signed transaction equals any signing payload |
| `AaProofs.NodeReadsExactly` | crates/common/consensus/src/transaction/aa.rs:173-186 | The node reads back the transaction and signature the SDK sent if and only if every field fits the node's integer, address and key widths |
| `AaProofs.NatLeaf` | sci/sdk/src/aa.ts:79-88 | `minimalBytes` denotes the minimal big-endian number, empty for zero, and refuses negatives |
| `AaProofs.AddressLeaf` | sci/sdk/src/aa.ts:101-105 | `addressOrEmpty` denotes the 20 bytes or the empty string, and refuses what is no address |
| `AaProofs.InputLeaf` | sci/sdk/src/aa.ts:108-110 | `bytesOrEmpty` denotes the input bytes, empty when absent |
| `Hex.DigitsAreMinimal` | sci/sdk/src/aa.ts:79-88 | The padded hex digits of a positive number spell its minimal big-endian bytes |
| `Hex.NumberIsValue` | sci/sdk/src/aa.ts:168-169 | The number a hex string stands for is the big-endian value of the bytes it spells |
| `Hex.NumberOfDigits` | sci/sdk/src/aa.ts:168-169 | 0x and the digits of any number are read as that number |
| `Hex.DigitTable` | sci/sdk/src/aa.ts:79-110 | The sixteen digits and their values, in either case |
| `L1Miner.L1MinerState.constructor` | actions/harness/src/l1/miner.rs:236-262 | A new miner holds the genesis block and all pointers at 0 |
| `L1Miner.L1MinerState.SubmitTransaction` | actions/harness/src/l1/miner.rs:600-617 | One entry is appended to the pending queue and nothing else changes |
| `L1Miner.L1MinerState.MineBlock` | actions/harness/src/l1/miner.rs:639-689 | The new tip takes all pending transactions and blobs, its number, time and parent hash follow from its parent, its bloom covers their logs, and it is stamped with the fork id; the chain stays well formed |
| `L1Miner.L1MinerState.ReorgTo` | actions/harness/src/l1/miner.rs:546-561 | Beyond the tip is refused without change; otherwise the later blocks are returned, the fork id grows by one, safe becomes the lower of itself and the target, finalized the lower of itself and safe, and the queues are untouched |
| `L1Miner.L1MinerState.ActSafeNext` | actions/harness/src/l1/miner.rs:480-482 | Advances safe, capped at the tip |
| `L1Miner.L1MinerState.ActFinalizeNext` | actions/harness/src/l1/miner.rs:485-487 | Advances finalized, capped at safe |
| `L1Miner.L1MinerState.ActSafe` | actions/harness/src/l1/miner.rs:494-501 | Sets safe to any block on the chain |
| `L1Miner.L1MinerState.ActFinalize` | actions/harness/src/l1/miner.rs:508-515 | Sets finalized to anything at or below safe |
| `L1Miner.L1MinerState.SafeHead` | actions/harness/src/l1/miner.rs:458-460 | The lookup never misses and returns the block with that number |
| `L1Miner.L1MinerState.FinalizedHead` | actions/harness/src/l1/miner.rs:463-467 | The lookup never misses and returns the block with that number |
| `L1Miner.BuildReceipts` | actions/harness/src/l1/miner.rs:738-795 | Each receipt has the status its transaction was queued with, its own hash, index, block and cumulative gas, and its logs at the recounted positions |
| `L1Miner.LogIndicesAreConsecutive` | actions/harness/src/l1/miner.rs:761-770 | Across the receipts of any block the log indices are 0, 1, 2 and so on without gap or repeat |
| `L1Miner.KeptByRuns` | actions/harness/src/l1/miner.rs:546-689 | In every run: block i has number i and its predecessor's hash, pointers are on the chain, the shared view equals the chain, and no (fork id, number) pair is mined twice |
| `L1Miner.ChainIsLinked` | actions/harness/src/l1/miner.rs:639-689 | The same block by block: number, timestamp and parent hash from the position alone |
| `L1Miner.TimestampsAreMultiples` | actions/harness/src/l1/miner.rs:639-643 | Block i of a well-formed chain has timestamp i times the block time |
| `L1Miner.HashesNeverRepeat` | actions/harness/src/l1/miner.rs:546-689 | With injective hashing no two blocks ever mined share a hash, across any number of reorgs |
| `L1Miner.GenesisHashIsUnique` | actions/harness/src/l1/miner.rs:546-689 | With injective hashing no block ever mined has the genesis hash |
| `L1Miner.Drive` | actions/harness/src/l1/miner.rs:480-689 | Driving the miner object through any actions, pushing each new block to the shared chain and truncating it at each reorg, ends in the state machine's state, so that every theorem about runs holds of the objects |
| `L1Miner.LookupsAgree` | actions/harness/src/l1/provider.rs:26-51 | With injective hashing, any block ever mined is found by its hash if and only if it is the canonical block at its number |
| `L1Miner.NumberLookupsAgree` | actions/harness/src/l1/provider.rs:39-41 | In every run the shared view has a block at position n if and only if it is the canonical block carrying number n |
| `L1Miner.SharedL1Chain.TruncateTo` | actions/harness/src/l1/provider.rs:34-36 | Keeps blocks 0 to the number, if there are more |
| `L1Miner.SharedL1Chain.BlockByHash` | actions/harness/src/l1/provider.rs:49-51 | The first block with that hash, if any |
| `L1Miner.FindMeans` | actions/harness/src/l1/provider.rs:49-51 | The search returns a block with the hash if there is one |
| `L1Miner.FinalizedBelowSafeExactly` | actions/harness/src/l1/miner.rs:480-561 | Throughout a run finalized stays at or below safe if and only if no action of the run sets safe below finalized |
| `L1Miner.OrderedAfter` | actions/harness/src/l1/miner.rs:480-561 | The same for one action |
| `L1Miner.FinalizedCanOvertakeSafe` | actions/harness/src/l1/miner.rs:494-501 | Mine, advance safe, finalize, set safe to 0: finalized is then above safe |
| `TxManager.L1MinerTxManager.constructor` | actions/harness/src/batcher/tx_manager.rs:98-106 | A new manager holds nothing and starts at nonce 0 |
| `TxManager.L1MinerTxManager.SendAsync` | actions/harness/src/batcher/tx_manager.rs:359-390 | A simulated failure answers at once and uses no nonce; otherwise the next nonce is used and either a signing failure is answered or exactly this body and these blobs are queued under the new handle. An undisturbed call equals its three critical sections in a row |
| `TxManager.L1MinerTxManager.DropN` | actions/harness/src/batcher/tx_manager.rs:151-156 | The first n pending submissions are discarded without an answer |
| `TxManager.L1MinerTxManager.StageNToL1` | actions/harness/src/batcher/tx_manager.rs:162-174 | The first n pending submissions move to staged and, in order, with their blobs, to the miner's queues |
| `TxManager.L1MinerTxManager.ConfirmBlock` | actions/harness/src/batcher/tx_manager.rs:184-212 | Staged submissions with a receipt in the block are answered with it, in order; the others stay staged; the block's number is published as L1 head after all these answers |
| `TxManager.L1MinerTxManager.ReorgTo` | actions/harness/src/batcher/tx_manager.rs:245-261 | The miner reorgs, every pending and staged submission is answered with a failure, and after all these answers the reorg point is published as L1 head |
| `TxManager.L1MinerTxManager.MineBlock` | actions/harness/src/batcher/tx_manager.rs:282-288 | Stages everything, mines it in the next block and confirms that block |
| `TxManagerDrive.Drive` | actions/harness/src/batcher/tx_manager.rs:143-390 | Driving the manager and miner objects through any calls, confirmations of discarded blocks included, ends where the steps those calls are made of end, so that every theorem about runs holds of the objects |
| `TxManagerRuns.HandlesAreConserved` | actions/harness/src/batcher/tx_manager.rs:143-390 | In every interleaving each issued handle is in exactly one of being sent, pending, staged, answered and dropped, so it is answered at most once |
| `TxManagerRuns.PlacesAfter` | actions/harness/src/batcher/tx_manager.rs:143-390 | Each step moves handles between places; only a new call adds one |
| `TxManagerRuns.ReorgAnswersEverything` | actions/harness/src/batcher/tx_manager.rs:245-261 | After a reorg through the manager a handle has an answer if and only if it is neither still being sent nor dropped |
| `TxManagerRuns.NoncesAreUsedOnce` | actions/harness/src/batcher/tx_manager.rs:359-390 | In every interleaving no nonce of the manager is in two of: being signed, pending here, queued at the miner, mined in any block ever |
| `TxManagerRuns.UsesAfter` | actions/harness/src/batcher/tx_manager.rs:359-390 | Only nonce allocation brings a nonce into use, and it is the next one |
| `TxManagerRuns.SubmittedAsAsked` | actions/harness/src/batcher/tx_manager.rs:359-390 | In every interleaving the transaction queued for a handle has the body of the very call that was given the handle, and the manager's signature |
| `TxManagerRuns.PendingAsAsked` | actions/harness/src/batcher/tx_manager.rs:359-390 | A pending submission has the body and the blobs of its call |
| `TxManagerRuns.IssuedByACall` | actions/harness/src/batcher/tx_manager.rs:359-366 | Every issued handle was given to a call of the run |
| `TxManagerRuns.AskedAfter` | actions/harness/src/batcher/tx_manager.rs:143-390 | Each step keeps what calls in progress, queued and submitted transactions hold equal to what was asked for |
| `TxInclusion.RightReceipt` | actions/harness/src/batcher/tx_manager.rs:184-212 | With injective hashing a confirmed handle got the receipt of its own transaction, with that block's hash and number and its own index there |
| `TxInclusion.ReceiptsDiffer` | actions/harness/src/batcher/tx_manager.rs:184-212 | No two confirmed handles got receipts with the same transaction hash |
| `TxInclusion.RunsRecord` | actions/harness/src/batcher/tx_manager.rs:143-390 | The invariant behind it, over every run: distinct nonces per submission, and every answer right |
| `TxInclusion.FoundExactly` | actions/harness/src/batcher/tx_manager.rs:190-199 | A mined block has a receipt for a transaction if and only if it contains it, and it is the receipt at its index |
| `TxInclusion.ConfirmedInOrder` | actions/harness/src/batcher/tx_manager.rs:184-212 | A confirmation answers, and keeps, submissions in the order of their staging |
| `TxInclusion.InOnePlace` | actions/harness/src/l1/miner.rs:639-689 | A transaction of the manager is never both queued at the miner and mined, nor in two canonical blocks |
| `TxInclusion.RunsTrack` | actions/harness/src/batcher/tx_manager.rs:162-288 | While reorgs go through the manager every staged submission is queued at the miner or in a canonical block |
| `TxInclusion.NothingStranded` | actions/harness/src/batcher/tx_manager.rs:162-288 | Then confirming every canonical block leaves staged exactly the submissions the miner has not mined |
| `TxInclusion.StrandedExactly` | actions/harness/src/l1/miner.rs:546-561 | A reorg at the miner itself keeps that property if and only if no staged transaction is in a discarded block |
| `TxInclusion.DirectReorgStrands` | actions/harness/src/l1/miner.rs:546-561 | Stage, mine, reorg at the miner, and any continuation: the submission is never again queued or on the chain, and stays staged exactly until a reorg through the manager or the confirmation of the discarded block |
| `TxInclusion.GoneForEver` | actions/harness/src/l1/miner.rs:546-689 | Over every continuation of every run, a transaction of the manager whose block was discarded is never queued or on the chain again |
| `TxInclusion.StagedExactly` | actions/harness/src/batcher/tx_manager.rs:184-261 | Over every continuation, a staged submission stays staged if and only if no reorg goes through the manager and no block that contains it is confirmed |
| `TxInclusion.FailedYetMined` | actions/harness/src/batcher/tx_manager.rs:245-261 | Of the submissions a manager reorg answers with a failure, exactly those the miner had queued or mined at or below the reorg point are on the chain after the next block; none that was still pending is |
| `TxInclusion.FailedYetMinedRun` | actions/harness/src/batcher/tx_manager.rs:245-261 | Stage, reorg through the manager, mine: the handle has a failure answer and the transaction is on the chain |
| `TxInclusion.UndoneExactly` | actions/harness/src/batcher/tx_manager.rs:245-261 | While reorgs go through the manager, a staged submission is undone by one if and only if it had been mined in a block the reorg discards |
| `TxBlobs.BlobsTravel` | actions/harness/src/batcher/tx_manager.rs:162-174 | Every transaction of the manager in a block ever mined has the blobs of the call that asked for it, in a row and in order, among that block's sidecars |
| `TxBlobs.ConfirmedAsAsked` | actions/harness/src/batcher/tx_manager.rs:162-212 | A call answered with a receipt had its own body, signed by the manager, mined at the receipt's index, and its own blobs in the same block |
| `Conductor.TestConductorHandle.Apply` | actions/harness/src/conductor.rs:52-59 | Setting, overriding or clearing the leader |
| `Conductor.TestConductorHandle.CommitUnsafePayload` | actions/harness/src/conductor.rs:130-141 | Appends the payload if and only if the caller leads |
| `Conductor.TestConductorHandle.HashesCommittedBy` | actions/harness/src/conductor.rs:72-81 | The hashes committed under that id, in order |
| `Conductor.CommittedInOrder` | actions/harness/src/conductor.rs:72-81 | They are exactly the hashes with that id, in the order of commitment |
| `Conductor.L2Sequencer.TryBuildNextBlock` | actions/harness/src/l2.rs:566-700 | With leadership changing arbitrarily between check and commit, one call is the run of its steps in the state machine: leader, commitments, head, inserted blocks and outcome agree; NotLeader if and only if not leading at one of the two checks; after a success the head is the payload on top of the old head, field by field |
| `Conductor.CallRun` | actions/harness/src/l2.rs:566-700 | What the steps of one build come to, for every leadership change in between and every failure of engine and conversion |
| `Conductor.RunGoesOn` | actions/harness/src/l2.rs:566-700 | A call continues whatever run came before it |
| `Conductor.CommittedWhileLeader` | actions/harness/src/conductor.rs:130-141 | In every run of many sequencers each committed payload was appended by its sequencer's commit step when the latest leadership change had made it leader |
| `Conductor.LeaderIsLast` | actions/harness/src/conductor.rs:52-59 | The leader is the one the latest leadership change named |
| `Conductor.KeptByRuns` | actions/harness/src/l2.rs:566-700 | The invariant over every run: claims follow commits in order, and a running build has not moved its head |
| `Conductor.InsertedWereCommitted` | actions/harness/src/l2.rs:627-647 | The blocks a sequencer inserts are a subsequence of those committed by its id |
| `Conductor.InsertedExactly` | actions/harness/src/l2.rs:627-647 | If its inserts never fail, they are all of them except a block just committed and about to be inserted |
| `Conductor.OutcomesAreHonest` | actions/harness/src/l2.rs:570-699 | In every run a NotLeader outcome left head and inserted blocks unchanged and a failure the head; a success has the payload's hash, number, time and origin as head, the old head's hash as parent, a sequence number one higher within an origin and 0 in a new one, and inserted only it |
| `Conductor.HeadsAreAChain` | actions/harness/src/l2.rs:675-699 | In every run the blocks a sequencer builds are a chain of parent hashes from its first head, and its head has the hash of the last |
| `Conductor.BuildsAreChained` | actions/harness/src/l2.rs:566-700 | The invariant behind it: each build starts from the head the one before it ended with |
| `Node.TestRollupNode.constructor` | actions/harness/src/node.rs:184-215 | All heads at the given one, empty history |
| `Node.TestRollupNode.ExecuteAndAdvance` | actions/harness/src/node.rs:650-713 | The safe head moves to the derived block, on top of the old one, with the origin in the deposit if it decodes, else the block derived from, else block 0, and a sequence number that counts on within an origin; it joins the history; unsafe follows when caught up |
| `Node.TestRollupNode.DrainGossip` | actions/harness/src/node.rs:612-640 | The queue is folded in order, taking only the next number each time |
| `Node.TestRollupNode.ActL2UnsafeGossipReceive` | actions/harness/src/node.rs:410-438 | The same for one block given directly |
| `Node.TestRollupNode.ActL1FinalizedSignal` | actions/harness/src/node.rs:347-360 | The reverse scan promotes the latest covered safe block if it is higher |
| `Node.TestRollupNode.ActReset` | actions/harness/src/node.rs:367-396 | All heads at the given one, history cleared |
| `Node.PerformAll` | actions/harness/src/node.rs:338-396 | Driving the node object through any events ends in the state machine's state; in particular a safe signal moves no head |
| `Node.KeptByRuns` | actions/harness/src/node.rs:347-713 | In every run finalized <= safe <= unsafe by number, and the history is a parent-hash chain with consecutive numbers from the latest reset to the safe head that contains the finalized head |
| `Node.HistoryIsDerived` | actions/harness/src/node.rs:650-713 | In every run the safe history is the derivations since the latest reset, in order, each with the hash, time and origin of its own attributes |
| `Node.FinalityIsMaximum` | actions/harness/src/node.rs:347-360 | A finality signal sets finalized to the higher of its old value and the highest safe block with an origin at or below the signal, even when origins are not in order |
| `Node.FinalityIsMonotone` | actions/harness/src/node.rs:347-396 | Finalized never moves back except on a reset |
| `Node.GossipKeeps` | actions/harness/src/node.rs:612-640 | Gossip moves only the unsafe head, never back, at most one number per message |
| `Node.GossipIsGapless` | actions/harness/src/node.rs:612-640 | Every number between the old and the new unsafe head was gossiped, and the new head is the gossiped block of its number |
| `Node.DrainedInOrder` | actions/harness/src/node.rs:612-640 | A drained queue is taken block by block: each is skipped unless it has the next number, else becomes the head field by field, an undecodable deposit counting as origin 0 with sequence number 0 |
| `Node.AheadInRuns` | actions/harness/src/node.rs:612-714 | In every run the gossiped blocks above the safe head lead number by number to the unsafe head |
| `Node.ForkByGossip` | actions/harness/src/node.rs:612-640 | Draining a queue leaves the unsafe head descending from the safe head if and only if it did before and every block taken continues the head it meets: gossip never mends a fork |
| `Node.ForkByDerivation` | actions/harness/src/node.rs:650-714 | After deriving a block the unsafe head descends from the safe head if and only if derivation caught up or the gossiped blocks above it are linked and start from it; from the safe fork, if and only if it derived the very block that was gossiped |
| `Node.ForkInRuns` | actions/harness/src/node.rs:612-714 | Throughout a run the unsafe head descends from the safe head if and only if every event is gossip that fits or derivation that catches up or derives the gossiped block |
| `Node.ForkExactly` | actions/harness/src/node.rs:612-714 | The same for one more event after any run |
| `Node.UnsafeForkRun` | actions/harness/src/node.rs:612-714 | Gossip two blocks and derive another first one: the unsafe head no longer descends from the safe head |
| `AffectedCrates.BuildReverseDeps` | etc/scripts/local/affected-crates.py:49-61 | The graph's edges are exactly the dependencies between workspace packages, reversed |
| `AffectedCrates.TransitiveRdeps` | etc/scripts/local/affected-crates.py:72-82 | The worklist ends on every finite graph, cycles included, with exactly the crates a walk from a changed crate reaches |
| `AffectedCrates.Expand` | etc/scripts/local/affected-crates.py:77-81 | Expanding one crate keeps everything found reached and everything unqueued explored, and grows the set or leaves it and the queue alone |
| `AffectedCrates.ChangedCrates` | etc/scripts/local/affected-crates.py:119-130 | The changed crates are those owning a changed file by longest directory, or all when a workspace-root file changed |
| `AffectedCrates.OwnerOf` | etc/scripts/local/affected-crates.py:127-130 | The first match in longest-first order is the longest match |
| `AffectedCrates.SortedDirs` | etc/scripts/local/affected-crates.py:120 | All crate directories, longest first |
| `AffectedCrates.OwnerIsUnique` | etc/scripts/local/affected-crates.py:119-130 | No file has two longest directories, so ties in the sort do not matter |
| `AffectedCrates.InDirByComponents` | etc/scripts/local/affected-crates.py:128 | A file is in a directory if and only if the directory's path components are the first of its own |
| `AffectedCrates.RootFiles` | etc/scripts/local/affected-crates.py:105-124 | A change affects every crate exactly when the file's path starts with one of the nine listed |
| `AffectedCrates.BuildCrateMap` | etc/scripts/local/affected-crates.py:38-46 | Directory to name, later packages overriding earlier ones |
| `AffectedCrates.CrateMapMeans` | etc/scripts/local/affected-crates.py:38-46 | A directory belongs to the last package that has it |
| `AffectedCrates.NoStrayDirs` | etc/scripts/local/affected-crates.py:38-46 | And every directory in the map to some package |
| `AffectedCrates.Affected` | etc/scripts/local/affected-crates.py:96-139 | The printed crates are exactly the non-excluded workspace crates with a chain of dependencies down to a changed crate |

## Left out

- ChannelAssembly.Channel.AddFrame: does not model the open block, which nothing here reads; block references are numbers.
- Conductor.L2Sequencer.TryBuildNextBlock: origin selection, attributes and the engine are one input, because their code is outside this model; a sequencer without a conductor, which skips both checks, is not modelled.
- Node.TestRollupNode.ExecuteAndAdvance: the derived block number is safe + 1, which is the pipeline's contract; the safe-head database and per-block counters are not modelled.
- L1Miner.L1MinerState.MineBlock: base fee, gas limits and the consensus receipts, which repeat fields of the RPC receipts, are not modelled.
- L1Miner.BuildReceipts: recipient, gas price and blob gas, which copy the transaction or are constant, are not modelled.
- TxManager.L1MinerTxManager.ConfirmBlock: a head is recorded whether or not a channel is attached to read it.
- TxManager.L1MinerTxManager.ReorgTo: likewise; beyond the tip it panics, which is its precondition here.
- TxManagerDrive.Drive: a submission at the miner under the manager's own key is skipped, because nonces could then repeat.
- Node.TestRollupNode.ActL2UnsafeGossipReceive: the engine's block-hash registry is not modelled, because only the engine reads it.
- Node.TestRollupNode.ActReset: the pipeline signal, the safe-head database and the fresh engine are not modelled.
- EndToEnd.BatchesArrive: batches are their encodings, because the single and span batch formats are not part of this model; the zlib decompressor's partial output on errors is inside its parameter.
- Integer overflow of `usize` sums and of the frame counter is modelled as an error outcome, as a panic under overflow checks; wrap-around without them is not.
- The error values of the SDK's thrown exceptions are one outcome, absence of a result; viem's hex parsing is taken to drop two characters unseen and to pad odd lengths with a leading zero.
- The system-configuration and deposit helpers of the miner, which only build particular transactions and logs.
- Brotli, zlib, KZG, keccak and ECDSA internals.
- The derivation pipeline, `BatchEncoder` beyond its drain loop, `BatchDriver`, throttling and the submission queue.
- `ratio.rs`, `engine.rs`, devnet, command-line tools, RPC clients, the websocket proxy, metrics and logging.
- Git, cargo and argument handling of the affected-crates script, which are its inputs here.

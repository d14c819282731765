/** The simulated L1: a miner with reorgs, and the shared view of its chain. */
module L1Miner {
  import opened Bytes

  type Hash = nat

  /** A signed transaction, as far as its hash tells transactions apart. */
  datatype Tx = Tx(signer: nat, nonce: nat, body: nat)

  type Log = nat

  datatype PendingTx = PendingTx(tx: Tx, logs: seq<Log>, success: bool)

  /** `stamp` is the fork id in the extra data; the genesis block has none. */
  datatype Header = Header(number: nat, timestamp: nat, parentHash: Hash, logsBloom: nat, stamp: Option<nat>)

  datatype RpcLog = RpcLog(log: Log, logIndex: nat, txHash: Hash, txIndex: nat, blockHash: Hash, blockNumber: nat)

  datatype Receipt = Receipt(txHash: Hash, index: nat, blockHash: Hash, blockNumber: nat,
                             status: bool, gasUsed: nat, cumulativeGas: nat, from: nat, logs: seq<RpcLog>)

  datatype Block = Block(header: Header, transactions: seq<Tx>, receipts: seq<Receipt>, blobSidecars: seq<nat>)

  /** Hashing, which this model does not look into. */
  datatype Crypto = Crypto(headerHash: Header -> Hash, txHash: Tx -> Hash, bloom: seq<seq<Log>> -> nat)

  ghost predicate InjectiveHeaders(c: Crypto) { forall a, b :: c.headerHash(a) == c.headerHash(b) ==> a == b }

  ghost predicate InjectiveTxs(c: Crypto) { forall a, b :: c.txHash(a) == c.txHash(b) ==> a == b }

  const GENESIS := Block(Header(0, 0, 0, 0, None), [], [], [])
  const GAS_PER_TX: nat := 21_000

  datatype Miner = Miner(blocks: seq<Block>, pending: seq<PendingTx>, pendingBlobs: seq<nat>,
                         forkId: nat, safe: nat, finalized: nat)

  const NEW_MINER := Miner([GENESIS], [], [], 0, 0, 0)

  // ------------------------------------------------------------------ receipts

  function Txs(pending: seq<PendingTx>): seq<Tx> {
    seq(|pending|, i requires 0 <= i < |pending| => pending[i].tx)
  }

  function LogsOf(pending: seq<PendingTx>): seq<seq<Log>> {
    seq(|pending|, i requires 0 <= i < |pending| => pending[i].logs)
  }

  lemma LogsInOrder(pending: seq<PendingTx>, i: nat)
    requires i < |pending|
    ensures |LogsOf(pending)| == |Txs(pending)| == |pending|
    ensures LogsOf(pending)[i] == pending[i].logs && Txs(pending)[i] == pending[i].tx
  {
  }

  /** Logs emitted by the first `n` transactions. */
  function LogsBefore(pending: seq<PendingTx>, n: nat): nat
    requires n <= |pending|
  {
    if n == 0 then 0 else LogsBefore(pending, n - 1) + |pending[n - 1].logs|
  }

  function ReceiptAt(c: Crypto, h: Header, pending: seq<PendingTx>, i: nat): Receipt
    requires i < |pending|
  {
    var p, hash, before := pending[i], c.headerHash(h), LogsBefore(pending, i);
    Receipt(c.txHash(p.tx), i, hash, h.number, p.success, GAS_PER_TX, GAS_PER_TX * (i + 1), p.tx.signer,
            seq(|p.logs|, k requires 0 <= k < |p.logs| => RpcLog(p.logs[k], before + k, c.txHash(p.tx), i, hash, h.number)))
  }

  function ReceiptsFor(c: Crypto, h: Header, pending: seq<PendingTx>): seq<Receipt> {
    seq(|pending|, i requires 0 <= i < |pending| => ReceiptAt(c, h, pending, i))
  }

  /** A running log count instead of recounting. */
  method BuildReceipts(c: Crypto, h: Header, pending: seq<PendingTx>) returns (rs: seq<Receipt>)
    ensures rs == ReceiptsFor(c, h, pending) && |rs| == |pending|
    ensures forall i :: 0 <= i < |rs| ==>
      && rs[i].txHash == c.txHash(pending[i].tx) && rs[i].index == i && rs[i].from == pending[i].tx.signer
      && rs[i].blockHash == c.headerHash(h) && rs[i].blockNumber == h.number
      && rs[i].status == pending[i].success && rs[i].gasUsed == 21_000 && rs[i].cumulativeGas == 21_000 * (i + 1)
    ensures forall i, k :: 0 <= i < |rs| && 0 <= k < |pending[i].logs| ==>
      |rs[i].logs| == |pending[i].logs| && rs[i].logs[k].log == pending[i].logs[k]
      && rs[i].logs[k].txHash == rs[i].txHash && rs[i].logs[k].txIndex == i
      && rs[i].logs[k].blockHash == rs[i].blockHash && rs[i].logs[k].blockNumber == rs[i].blockNumber
  {
    rs := [];
    var previousLogCount := 0;
    for i := 0 to |pending|
      invariant |rs| == i && previousLogCount == LogsBefore(pending, i)
      invariant forall k :: 0 <= k < i ==> rs[k] == ReceiptAt(c, h, pending, k)
    {
      var p := pending[i];
      var txHash, blockHash, before := c.txHash(p.tx), c.headerHash(h), previousLogCount;
      var logs := seq(|p.logs|, k requires 0 <= k < |p.logs| => RpcLog(p.logs[k], before + k, txHash, i, blockHash, h.number));
      rs := rs + [Receipt(txHash, i, blockHash, h.number, p.success, GAS_PER_TX, GAS_PER_TX * (i + 1), p.tx.signer, logs)];
      assert rs[i].logs == ReceiptAt(c, h, pending, i).logs;
      previousLogCount := previousLogCount + |logs|;
    }
  }

  function AllLogs(rs: seq<Receipt>): seq<RpcLog> {
    if rs == [] then [] else AllLogs(rs[..|rs| - 1]) + rs[|rs| - 1].logs
  }

  /** Across the block, log indices are 0, 1, 2, ... without gap or repeat. */
  lemma {:induction false} LogIndicesAreConsecutive(c: Crypto, h: Header, pending: seq<PendingTx>, n: nat)
    requires n <= |pending|
    ensures var logs := AllLogs(ReceiptsFor(c, h, pending)[..n]);
      |logs| == LogsBefore(pending, n) && forall k :: 0 <= k < |logs| ==> logs[k].logIndex == k
  {
    if n > 0 {
      LogIndicesAreConsecutive(c, h, pending, n - 1);
      var rs := ReceiptsFor(c, h, pending);
      assert rs[..n][..n - 1] == rs[..n - 1];
      assert AllLogs(rs[..n]) == AllLogs(rs[..n - 1]) + rs[n - 1].logs;
    }
  }

  // -------------------------------------------------------------- miner actions

  function Tip(m: Miner): Block
    requires m.blocks != []
  {
    m.blocks[|m.blocks| - 1]
  }

  function NextBlock(c: Crypto, blockTime: nat, m: Miner): Block
    requires m.blocks != []
  {
    var parent := Tip(m).header;
    var h := Header(parent.number + 1, parent.timestamp + blockTime, c.headerHash(parent), c.bloom(LogsOf(m.pending)), Some(m.forkId));
    Block(h, Txs(m.pending), ReceiptsFor(c, h, m.pending), m.pendingBlobs)
  }

  function AfterMine(c: Crypto, blockTime: nat, m: Miner): Miner
    requires m.blocks != []
  {
    m.(blocks := m.blocks + [NextBlock(c, blockTime, m)], pending := [], pendingBlobs := [])
  }

  /** Pointers are clamped; the pending queue is left alone. */
  function AfterReorg(m: Miner, number: nat): Miner
    requires number < |m.blocks|
  {
    var safe := Min(m.safe, number);
    m.(forkId := m.forkId + 1, safe := safe, finalized := Min(m.finalized, safe), blocks := m.blocks[..number + 1])
  }

  datatype ReorgError = BeyondTip(requested: nat, tip: nat)

  class L1MinerState {
    const crypto: Crypto
    const blockTime: nat
    var blocks: seq<Block>
    var pendingTransactions: seq<PendingTx>
    var pendingBlobs: seq<nat>
    var forkId: nat
    var safeNumber: nat
    var finalizedNumber: nat

    ghost function State(): Miner
      reads this
    {
      Miner(blocks, pendingTransactions, pendingBlobs, forkId, safeNumber, finalizedNumber)
    }

    /** The tip's own number is the number of blocks before it. */
    ghost predicate Valid()
      reads this
    {
      WellFormed(crypto, blockTime, State())
    }

    constructor (crypto: Crypto, blockTime: nat)
      ensures Valid() && State() == NEW_MINER && this.crypto == crypto && this.blockTime == blockTime
    {
      this.crypto, this.blockTime := crypto, blockTime;
      blocks, pendingTransactions, pendingBlobs := [GENESIS], [], [];
      forkId, safeNumber, finalizedNumber := 0, 0, 0;
    }

    method SubmitTransaction(tx: Tx, logs: seq<Log>, success: bool)
      requires Valid()
      modifies `pendingTransactions
      ensures Valid() && State() == old(State()).(pending := old(pendingTransactions) + [PendingTx(tx, logs, success)])
    {
      pendingTransactions := pendingTransactions + [PendingTx(tx, logs, success)];
    }

    method EnqueueBlob(blob: nat)
      requires Valid()
      modifies `pendingBlobs
      ensures Valid() && State() == old(State()).(pendingBlobs := old(pendingBlobs) + [blob])
    {
      pendingBlobs := pendingBlobs + [blob];
    }

    method MineBlock() returns (block: Block)
      requires Valid()
      modifies this
      ensures Valid() && State() == AfterMine(crypto, blockTime, old(State()))
      ensures block == Tip(State()) && block.header.number == |old(blocks)|
      ensures blocks == old(blocks) + [block] && pendingTransactions == [] && pendingBlobs == []
      ensures forkId == old(forkId) && safeNumber == old(safeNumber) && finalizedNumber == old(finalizedNumber)
      ensures var parent := old(blocks)[|old(blocks)| - 1].header;
        && block.header.timestamp == parent.timestamp + blockTime && block.header.parentHash == crypto.headerHash(parent)
        && block.header.stamp == Some(old(forkId)) && block.blobSidecars == old(pendingBlobs)
        && block.header.logsBloom == crypto.bloom(LogsOf(old(pendingTransactions)))
        && |block.transactions| == |old(pendingTransactions)|
        && forall i :: 0 <= i < |block.transactions| ==> block.transactions[i] == old(pendingTransactions)[i].tx
    {
      WellFormedAfterMine(crypto, blockTime, State());
      var parent := blocks[|blocks| - 1];
      var pending, sidecars := pendingTransactions, pendingBlobs;
      pendingTransactions, pendingBlobs := [], [];
      var header := Header(parent.header.number + 1, parent.header.timestamp + blockTime, crypto.headerHash(parent.header),
                           crypto.bloom(LogsOf(pending)), Some(forkId));
      var receipts := BuildReceipts(crypto, header, pending);
      block := Block(header, Txs(pending), receipts, sidecars);
      blocks := blocks + [block];
    }

    method ReorgTo(number: nat) returns (r: Result<seq<Block>, ReorgError>)
      requires Valid()
      modifies this
      ensures Valid()
      ensures number >= |old(blocks)| ==> r == Err(BeyondTip(number, |old(blocks)| - 1)) && State() == old(State())
      ensures number < |old(blocks)| ==> r == Ok(old(blocks)[number + 1..]) && State() == AfterReorg(old(State()), number)
      ensures number < |old(blocks)| ==>
        && blocks == old(blocks)[..number + 1] && forkId == old(forkId) + 1
        && safeNumber == Min(old(safeNumber), number) && finalizedNumber == Min(old(finalizedNumber), safeNumber)
        && pendingTransactions == old(pendingTransactions) && pendingBlobs == old(pendingBlobs)
    {
      var tip := blocks[|blocks| - 1].header.number;
      if number > tip {
        return Err(BeyondTip(number, tip));
      }
      forkId := forkId + 1;
      safeNumber := Min(safeNumber, number);
      finalizedNumber := Min(finalizedNumber, safeNumber);
      r := Ok(blocks[number + 1..]);
      blocks := blocks[..number + 1];
    }

    method ActSafeNext()
      requires Valid()
      modifies `safeNumber
      ensures Valid() && safeNumber == Min(old(safeNumber) + 1, |blocks| - 1)
    {
      safeNumber := Min(safeNumber + 1, blocks[|blocks| - 1].header.number);
    }

    /** Lowers the pointer when it is ahead of `safe`. */
    method ActFinalizeNext()
      requires Valid()
      modifies `finalizedNumber
      ensures Valid() && finalizedNumber == Min(old(finalizedNumber) + 1, safeNumber)
    {
      finalizedNumber := Min(finalizedNumber + 1, safeNumber);
    }

    method ActSafe(number: nat)
      requires Valid() && number < |blocks|
      modifies `safeNumber
      ensures Valid() && safeNumber == number
    {
      safeNumber := number;
    }

    method ActFinalize(number: nat)
      requires Valid() && number <= safeNumber
      modifies `finalizedNumber
      ensures Valid() && finalizedNumber == number
    {
      finalizedNumber := number;
    }

    /** Head lookups never miss. */
    method SafeHead() returns (b: Block)
      requires Valid()
      ensures b == blocks[safeNumber] && b.header.number == safeNumber
    {
      b := blocks[safeNumber];
    }

    method FinalizedHead() returns (b: Block)
      requires Valid()
      ensures b == blocks[finalizedNumber] && b.header.number == finalizedNumber
    {
      b := blocks[finalizedNumber];
    }
  }

  // ------------------------------------------------------- what every run keeps

  ghost predicate Linked(c: Crypto, blockTime: nat, parent: Header, h: Header) {
    h.number == parent.number + 1 && h.timestamp == parent.timestamp + blockTime && h.parentHash == c.headerHash(parent)
  }

  ghost predicate WellFormed(c: Crypto, blockTime: nat, m: Miner) {
    && m.blocks != [] && m.blocks[0] == GENESIS
    && (forall i :: 0 <= i < |m.blocks| ==> m.blocks[i].header.number == i)
    && (forall i :: 0 < i < |m.blocks| ==> Linked(c, blockTime, m.blocks[i - 1].header, m.blocks[i].header))
    && m.safe < |m.blocks| && m.finalized < |m.blocks|
  }

  lemma WellFormedAfterMine(c: Crypto, blockTime: nat, m: Miner)
    requires WellFormed(c, blockTime, m)
    ensures WellFormed(c, blockTime, AfterMine(c, blockTime, m))
  {
    var n := AfterMine(c, blockTime, m);
    forall i | 0 < i < |n.blocks|
      ensures Linked(c, blockTime, n.blocks[i - 1].header, n.blocks[i].header)
    {
    }
  }

  /** Timestamps count block times from genesis. */
  lemma {:induction false} TimestampsAreMultiples(c: Crypto, blockTime: nat, m: Miner, i: nat)
    requires WellFormed(c, blockTime, m) && i < |m.blocks|
    ensures m.blocks[i].header.timestamp == i * blockTime
  {
    if i > 0 {
      TimestampsAreMultiples(c, blockTime, m, i - 1);
      assert Linked(c, blockTime, m.blocks[i - 1].header, m.blocks[i].header);
      assert i * blockTime == (i - 1) * blockTime + blockTime;
    }
  }

  /** In every run, block by block: the number is the position, the timestamp that many
      block times, and the parent hash the hash of the block before. */
  lemma ChainIsLinked(c: Crypto, blockTime: nat, actions: seq<Action>, i: nat)
    requires i < |Run(c, blockTime, actions).miner.blocks|
    ensures var blocks := Run(c, blockTime, actions).miner.blocks;
      && blocks[i].header.number == i && blocks[i].header.timestamp == i * blockTime
      && (i > 0 ==> blocks[i].header.parentHash == c.headerHash(blocks[i - 1].header))
      && Run(c, blockTime, actions).miner.safe < |blocks| && Run(c, blockTime, actions).miner.finalized < |blocks|
  {
    KeptByRuns(c, blockTime, actions);
    hide Run;
    var m := Run(c, blockTime, actions).miner;
    TimestampsAreMultiples(c, blockTime, m, i);
    if i > 0 {
      assert Linked(c, blockTime, m.blocks[i - 1].header, m.blocks[i].header);
    }
  }

  datatype Action =
    | Mine
    | Reorg(to: nat)
    | SafeNext
    | FinalizeNext
    | Safe(number: nat)
    | Finalize(number: nat)
    | Submit(p: PendingTx)
    | Blob(sidecar: nat)

  /** The miner, every block it ever mined, and the shared view that is pushed to
      after each block and truncated after each reorg. */
  datatype Chain = Chain(miner: Miner, mined: seq<Block>, shared: seq<Block>)

  const NEW_CHAIN := Chain(NEW_MINER, [], [GENESIS])

  /** `truncate_to(number)`: keeps blocks up to `number`, if there are that many. */
  function Truncated(blocks: seq<Block>, number: nat): seq<Block> {
    blocks[..Min(number + 1, |blocks|)]
  }

  /** One action; one that panics or is refused changes nothing. */
  function Acted(c: Crypto, blockTime: nat, s: Chain, a: Action): Chain
    requires s.miner.blocks != []
  {
    var m := s.miner;
    match a
    case Mine => var b := NextBlock(c, blockTime, m); Chain(AfterMine(c, blockTime, m), s.mined + [b], s.shared + [b])
    case Reorg(to) =>
      if to < |m.blocks| then Chain(AfterReorg(m, to), s.mined, Truncated(s.shared, to)) else s
    case SafeNext => s.(miner := m.(safe := Min(m.safe + 1, |m.blocks| - 1)))
    case FinalizeNext => s.(miner := m.(finalized := Min(m.finalized + 1, m.safe)))
    case Safe(n) => if n < |m.blocks| then s.(miner := m.(safe := n)) else s
    case Finalize(n) => if n <= m.safe then s.(miner := m.(finalized := n)) else s
    case Submit(p) => s.(miner := m.(pending := m.pending + [p]))
    case Blob(b) => s.(miner := m.(pendingBlobs := m.pendingBlobs + [b]))
  }

  function Run(c: Crypto, blockTime: nat, actions: seq<Action>): (s: Chain)
    ensures s.miner.blocks != []
    decreases |actions|
  {
    if actions == [] then NEW_CHAIN
    else Acted(c, blockTime, Run(c, blockTime, actions[..|actions| - 1]), actions[|actions| - 1])
  }

  /** Stamps and numbers of everything ever mined: no pair twice, and within the
      current fork nothing beyond the tip. */
  ghost predicate Stamped(s: Chain) {
    && (forall i :: 0 <= i < |s.mined| ==>
         var h := s.mined[i].header;
         h.stamp.Some? && h.stamp.value <= s.miner.forkId
         && (h.stamp.value == s.miner.forkId ==> h.number < |s.miner.blocks|))
    && (forall i, j :: 0 <= i < j < |s.mined| ==>
         s.mined[i].header.stamp != s.mined[j].header.stamp || s.mined[i].header.number != s.mined[j].header.number)
  }

  ghost predicate Kept(c: Crypto, blockTime: nat, s: Chain) {
    && WellFormed(c, blockTime, s.miner) && Stamped(s)
    && s.shared == s.miner.blocks
    && (forall i :: 0 < i < |s.miner.blocks| ==> s.miner.blocks[i] in s.mined)
  }

  lemma KeptByMine(c: Crypto, blockTime: nat, s: Chain)
    requires Kept(c, blockTime, s)
    ensures Kept(c, blockTime, Acted(c, blockTime, s, Mine))
  {
    var t := Acted(c, blockTime, s, Mine);
    var b := NextBlock(c, blockTime, s.miner);
    WellFormedAfterMine(c, blockTime, s.miner);
    forall i | 0 < i < |t.miner.blocks|
      ensures t.miner.blocks[i] in t.mined
    {
      if i == |s.miner.blocks| {
        assert t.mined[|s.mined|] == b;
      } else {
        assert s.miner.blocks[i] in s.mined;
      }
    }
  }

  lemma KeptByAction(c: Crypto, blockTime: nat, s: Chain, a: Action)
    requires Kept(c, blockTime, s)
    ensures Kept(c, blockTime, Acted(c, blockTime, s, a))
  {
    if a.Mine? {
      KeptByMine(c, blockTime, s);
    }
  }

  /** In every run the chain is linked from genesis, the pointers are on it, the
      shared view agrees with it, and no (fork, number) pair is ever mined twice. */
  lemma {:induction false} KeptByRuns(c: Crypto, blockTime: nat, actions: seq<Action>)
    ensures Kept(c, blockTime, Run(c, blockTime, actions))
    decreases |actions|
  {
    if actions != [] {
      KeptByRuns(c, blockTime, actions[..|actions| - 1]);
      KeptByAction(c, blockTime, Run(c, blockTime, actions[..|actions| - 1]), actions[|actions| - 1]);
    }
  }

  /** No two blocks ever mined share a hash, not even across forks. */
  lemma HashesNeverRepeat(c: Crypto, blockTime: nat, actions: seq<Action>, i: nat, j: nat)
    requires InjectiveHeaders(c)
    requires i < j < |Run(c, blockTime, actions).mined|
    ensures var mined := Run(c, blockTime, actions).mined;
      c.headerHash(mined[i].header) != c.headerHash(mined[j].header)
  {
    KeptByRuns(c, blockTime, actions);
    var mined := Run(c, blockTime, actions).mined;
    assert mined[i].header != mined[j].header;
  }

  /** Nor does any of them have the genesis hash. */
  lemma {:induction false} GenesisHashIsUnique(c: Crypto, blockTime: nat, actions: seq<Action>, i: nat)
    requires InjectiveHeaders(c) && i < |Run(c, blockTime, actions).mined|
    ensures c.headerHash(Run(c, blockTime, actions).mined[i].header) != c.headerHash(GENESIS.header)
  {
    KeptByRuns(c, blockTime, actions);
    assert Run(c, blockTime, actions).mined[i].header != GENESIS.header;
  }

  // -------------------------------------------------------- the shared chain view

  function FindByHash(c: Crypto, blocks: seq<Block>, h: Hash): Option<Block> {
    if blocks == [] then None
    else if c.headerHash(blocks[0].header) == h then Some(blocks[0])
    else FindByHash(c, blocks[1..], h)
  }

  class SharedL1Chain {
    const crypto: Crypto
    var blocks: seq<Block>

    constructor (crypto: Crypto, blocks: seq<Block>)
      ensures this.blocks == blocks && this.crypto == crypto
    {
      this.crypto, this.blocks := crypto, blocks;
    }

    method Push(block: Block)
      modifies this
      ensures blocks == old(blocks) + [block]
    {
      blocks := blocks + [block];
    }

    method TruncateTo(number: nat)
      modifies this
      ensures blocks == Truncated(old(blocks), number)
      ensures blocks == if number + 1 < |old(blocks)| then old(blocks)[..number + 1] else old(blocks)
    {
      if number + 1 < |blocks| {
        blocks := blocks[..number + 1];
      }
    }

    method GetBlock(number: nat) returns (b: Option<Block>)
      ensures b.Some? <==> number < |blocks|
      ensures b.Some? ==> b.value == blocks[number]
    {
      b := if number < |blocks| then Some(blocks[number]) else None;
    }

    method BlockByHash(h: Hash) returns (b: Option<Block>)
      ensures b == FindByHash(crypto, blocks, h)
    {
      var i := 0;
      assert blocks[0..] == blocks;
      while i < |blocks|
        invariant 0 <= i <= |blocks|
        invariant FindByHash(crypto, blocks, h) == FindByHash(crypto, blocks[i..], h)
      {
        if crypto.headerHash(blocks[i].header) == h {
          return Some(blocks[i]);
        }
        assert blocks[i..][1..] == blocks[i + 1..];
        i := i + 1;
      }
      b := None;
    }
  }

  lemma {:induction false} FindMeans(c: Crypto, blocks: seq<Block>, h: Hash)
    ensures match FindByHash(c, blocks, h)
      case None => forall i :: 0 <= i < |blocks| ==> c.headerHash(blocks[i].header) != h
      case Some(b) => b in blocks && c.headerHash(b.header) == h
  {
    if blocks != [] {
      FindMeans(c, blocks[1..], h);
      assert blocks == [blocks[0]] + blocks[1..];
    }
  }

  /** Whenever they are asked, the two views agree: a block ever mined is found by
      its hash exactly while it is canonical, and it is the block at its number. */
  lemma LookupsAgree(c: Crypto, blockTime: nat, actions: seq<Action>, i: nat)
    requires InjectiveHeaders(c) && i < |Run(c, blockTime, actions).mined|
    ensures var s := Run(c, blockTime, actions);
      var b := s.mined[i];
      FindByHash(c, s.shared, c.headerHash(b.header))
      == if b.header.number < |s.miner.blocks| && s.miner.blocks[b.header.number] == b then Some(b) else None
  {
    KeptByRuns(c, blockTime, actions);
    var s := Run(c, blockTime, actions);
    var b := s.mined[i];
    FindMeans(c, s.shared, c.headerHash(b.header));
    match FindByHash(c, s.shared, c.headerHash(b.header)) {
      case Some(f) =>
        var k :| 0 <= k < |s.shared| && s.shared[k] == f;
        assert f.header == b.header;
        assert k > 0;
        var j :| 0 <= j < |s.mined| && s.mined[j] == f;
        assert j == i;
      case None =>
    }
  }

  /** By number too: the shared view has a block at `n` exactly when it is the
      canonical block that carries the number `n`. */
  lemma NumberLookupsAgree(c: Crypto, blockTime: nat, actions: seq<Action>, n: nat, b: Block)
    ensures var s := Run(c, blockTime, actions);
      n < |s.shared| && s.shared[n] == b <==> b in s.miner.blocks && b.header.number == n
  {
    KeptByRuns(c, blockTime, actions);
    var s := Run(c, blockTime, actions);
    if b in s.miner.blocks {
      var i :| 0 <= i < |s.miner.blocks| && s.miner.blocks[i] == b;
    }
  }

  // ------------------------------------------------- the classes follow the state machine

  /** One action on the miner, and its echo on the shared view. */
  method Perform(miner: L1MinerState, shared: SharedL1Chain, ghost s: Chain, a: Action)
    requires miner.Valid() && miner.State() == s.miner && shared.blocks == s.shared
    modifies miner, shared
    ensures miner.Valid()
    ensures var t := Acted(miner.crypto, miner.blockTime, s, a);
      miner.State() == t.miner && shared.blocks == t.shared
  {
    match a {
      case Mine =>
        var block := miner.MineBlock();
        shared.Push(block);
      case Reorg(to) =>
        var discarded := miner.ReorgTo(to);
        if discarded.Ok? {
          shared.TruncateTo(to);
        }
      case SafeNext => miner.ActSafeNext();
      case FinalizeNext => miner.ActFinalizeNext();
      case Safe(n) =>
        if n < |miner.blocks| {
          miner.ActSafe(n);
        }
      case Finalize(n) =>
        if n <= miner.safeNumber {
          miner.ActFinalize(n);
        }
      case Submit(p) => miner.SubmitTransaction(p.tx, p.logs, p.success);
      case Blob(b) => miner.EnqueueBlob(b);
    }
  }

  /** Any run of the miner, with each new block pushed to the shared view and each reorg
      truncating it, ends where the state machine does. */
  method Drive(crypto: Crypto, blockTime: nat, actions: seq<Action>) returns (miner: L1MinerState, shared: SharedL1Chain)
    ensures fresh(miner) && fresh(shared) && miner.Valid() && miner.crypto == crypto && miner.blockTime == blockTime
    ensures var s := Run(crypto, blockTime, actions);
      miner.State() == s.miner && shared.blocks == s.shared
  {
    miner := new L1MinerState(crypto, blockTime);
    shared := new SharedL1Chain(crypto, [GENESIS]);
    for i := 0 to |actions|
      invariant fresh(miner) && fresh(shared) && miner.Valid()
      invariant var s := Run(crypto, blockTime, actions[..i]);
        miner.State() == s.miner && shared.blocks == s.shared
    {
      assert actions[..i + 1][..i] == actions[..i];
      Perform(miner, shared, Run(crypto, blockTime, actions[..i]), actions[i]);
    }
    assert actions[..|actions|] == actions;
  }

  // ----------------------------------------- finalized may overtake safe, exactly when

  ghost predicate Ordered(s: Chain) { s.miner.finalized <= s.miner.safe }

  /** Setting safe directly, to a block below the finalized one. */
  ghost predicate Lowers(s: Chain, a: Action) {
    a.Safe? && a.number < |s.miner.blocks| && a.number < s.miner.finalized
  }

  lemma OrderedAfter(c: Crypto, blockTime: nat, s: Chain, a: Action)
    requires Kept(c, blockTime, s) && Ordered(s)
    ensures Ordered(Acted(c, blockTime, s, a)) <==> !Lowers(s, a)
  {
  }

  lemma {:induction false} OrderedUpTo(c: Crypto, blockTime: nat, actions: seq<Action>, k: nat)
    requires k <= |actions|
    requires forall i :: 0 <= i < |actions| ==> !Lowers(Run(c, blockTime, actions[..i]), actions[i])
    ensures Ordered(Run(c, blockTime, actions[..k]))
  {
    if k > 0 {
      OrderedUpTo(c, blockTime, actions, k - 1);
      RunStep(c, blockTime, actions, k - 1);
      KeptByRuns(c, blockTime, actions[..k - 1]);
      OrderedAfter(c, blockTime, Run(c, blockTime, actions[..k - 1]), actions[k - 1]);
    }
  }

  lemma RunStep(c: Crypto, blockTime: nat, actions: seq<Action>, k: nat)
    requires k < |actions|
    ensures Run(c, blockTime, actions[..k + 1]) == Acted(c, blockTime, Run(c, blockTime, actions[..k]), actions[k])
  {
    assert actions[..k + 1][..k] == actions[..k];
  }

  /** Throughout a run finalized stays at or below safe, exactly when no action sets
      safe below finalized. */
  lemma FinalizedBelowSafeExactly(c: Crypto, blockTime: nat, actions: seq<Action>)
    ensures (forall k :: 0 <= k <= |actions| ==> Ordered(Run(c, blockTime, actions[..k])))
       <==> (forall k :: 0 <= k < |actions| ==> !Lowers(Run(c, blockTime, actions[..k]), actions[k]))
  {
    if forall k :: 0 <= k <= |actions| ==> Ordered(Run(c, blockTime, actions[..k])) {
      forall k | 0 <= k < |actions|
        ensures !Lowers(Run(c, blockTime, actions[..k]), actions[k])
      {
        RunStep(c, blockTime, actions, k);
        KeptByRuns(c, blockTime, actions[..k]);
        assert Ordered(Run(c, blockTime, actions[..k + 1]));
        OrderedAfter(c, blockTime, Run(c, blockTime, actions[..k]), actions[k]);
      }
    }
    if forall k :: 0 <= k < |actions| ==> !Lowers(Run(c, blockTime, actions[..k]), actions[k]) {
      forall k | 0 <= k <= |actions|
        ensures Ordered(Run(c, blockTime, actions[..k]))
      {
        OrderedUpTo(c, blockTime, actions, k);
      }
    }
  }

  lemma FinalizedCanOvertakeSafe(c: Crypto, blockTime: nat)
    ensures var s := Run(c, blockTime, [Mine, SafeNext, FinalizeNext, Safe(0)]);
      s.miner.finalized == 1 && s.miner.safe == 0
  {
    var all := [Mine, SafeNext, FinalizeNext, Safe(0)];
    assert all[..3] == [Mine, SafeNext, FinalizeNext] && all[..3][..2] == [Mine, SafeNext]
        && all[..3][..2][..1] == [Mine] && all[..3][..2][..1][..0] == [];
    assert Run(c, blockTime, []) == NEW_CHAIN;
    var s1 := Run(c, blockTime, [Mine]);
    assert s1 == Acted(c, blockTime, NEW_CHAIN, Mine);
    assert |s1.miner.blocks| == 2 && s1.miner.safe == 0;
  }
}

/** What a confirmation means, over every run: the right receipt for the right
    handle, and nothing stranded. */
module TxInclusion {
  import opened Bytes
  import opened L1Miner
  import opened TxManager
  import opened TxManagerRuns

  // ---------------------------------------------------------------- receipts of a block

  /** Receipt `i` is for transaction `i` of this very block. */
  ghost predicate Receipted(c: Crypto, b: Block) {
    && |b.receipts| == |b.transactions|
    && forall i :: 0 <= i < |b.receipts| ==>
         var r := b.receipts[i];
         r.index == i && r.txHash == c.txHash(b.transactions[i])
         && r.blockHash == c.headerHash(b.header) && r.blockNumber == b.header.number
  }

  ghost predicate ReceiptOf(c: Crypto, b: Block, r: Receipt, t: Tx) {
    && Receipted(c, b)
    && r.index < |b.transactions| && b.receipts[r.index] == r && b.transactions[r.index] == t
  }

  lemma {:induction false} FindReceiptMeans(rs: seq<Receipt>, txHash: Hash)
    ensures match FindReceipt(rs, txHash)
      case None => forall i :: 0 <= i < |rs| ==> rs[i].txHash != txHash
      case Some(r) => r in rs && r.txHash == txHash
  {
    if rs != [] {
      FindReceiptMeans(rs[1..], txHash);
      assert rs == [rs[0]] + rs[1..];
    }
  }

  /** A block answers for a transaction exactly when it contains it. */
  lemma FoundExactly(c: Crypto, b: Block, t: Tx)
    requires Receipted(c, b) && InjectiveTxs(c)
    ensures var found := FindReceipt(b.receipts, c.txHash(t));
      && (found.Some? <==> t in b.transactions)
      && (found.Some? ==> ReceiptOf(c, b, found.value, t))
  {
    FindReceiptMeans(b.receipts, c.txHash(t));
    match FindReceipt(b.receipts, c.txHash(t)) {
      case Some(r) =>
        var i :| 0 <= i < |b.receipts| && b.receipts[i] == r;
      case None =>
        forall i | 0 <= i < |b.transactions|
          ensures b.transactions[i] != t
        {
          assert b.receipts[i].txHash != c.txHash(t);
        }
    }
  }

  lemma {:induction false} FiredMeans(c: Crypto, rs: seq<Receipt>, staged: seq<Pending>, a: Answer)
    requires a in Fired(c, rs, staged)
    ensures a.response.Included?
    ensures exists p ::
      p in staged && p.handle == a.handle && FindReceipt(rs, c.txHash(p.tx)) == Some(a.response.receipt)
  {
    var front, p := staged[..|staged| - 1], staged[|staged| - 1];
    assert staged == front + [p];
    if a in Fired(c, rs, front) {
      FiredMeans(c, rs, front, a);
    }
  }

  lemma {:induction false} StillStagedMeans(c: Crypto, rs: seq<Receipt>, staged: seq<Pending>, p: Pending)
    ensures p in StillStaged(c, rs, staged) <==> p in staged && FindReceipt(rs, c.txHash(p.tx)).None?
  {
    if staged != [] {
      var front := staged[..|staged| - 1];
      assert staged == front + [staged[|staged| - 1]];
      StillStagedMeans(c, rs, front, p);
    }
  }

  /** Answers go out, and the unanswered stay, in the order of staging. */
  lemma {:induction false} ConfirmedInOrder(c: Crypto, rs: seq<Receipt>, a: seq<Pending>, b: seq<Pending>)
    ensures Fired(c, rs, a + b) == Fired(c, rs, a) + Fired(c, rs, b)
    ensures StillStaged(c, rs, a + b) == StillStaged(c, rs, a) + StillStaged(c, rs, b)
  {
    hide FindReceipt;
    if b == [] {
      assert a + b == a;
    } else {
      var front, p := b[..|b| - 1], b[|b| - 1];
      ConfirmedInOrder(c, rs, a, front);
      assert (a + b)[..|a + b| - 1] == a + front && (a + b)[|a + b| - 1] == p;
      var fired := match FindReceipt(rs, c.txHash(p.tx)) case None => [] case Some(r) => [Answer(p.handle, Included(r))];
      var kept := if FindReceipt(rs, c.txHash(p.tx)).None? then [p] else [];
      assert Fired(c, rs, b) == Fired(c, rs, front) + fired && StillStaged(c, rs, b) == StillStaged(c, rs, front) + kept;
      assert Fired(c, rs, a + b) == Fired(c, rs, a + front) + fired;
      assert StillStaged(c, rs, a + b) == StillStaged(c, rs, a + front) + kept;
      hide Fired, StillStaged;
    }
  }

  // ----------------------------------------------------------- what every run records

  /** Calls in progress have their own handles and nonces. */
  ghost predicate Apart(m: Manager) {
    && (forall k :: 0 <= k < |m.sending| ==>
         var s := m.sending[k];
         s.handle < m.nextHandle && (s.nonce.Some? ==> s.nonce.value < m.nextNonce))
    && (forall j, k :: 0 <= j < k < |m.sending| ==>
         && m.sending[j].handle != m.sending[k].handle
         && (m.sending[j].nonce.Some? ==> m.sending[j].nonce != m.sending[k].nonce))
  }

  /** Submitted transactions carry their own nonces, and calls in progress none of them. */
  ghost predicate Fresh(me: nat, m: Manager, submitted: map<Handle, Tx>) {
    && (forall h :: h in submitted ==>
         h < m.nextHandle && submitted[h].signer == me && submitted[h].nonce < m.nextNonce)
    && (forall h, g :: h in submitted && g in submitted && h != g ==> submitted[h].nonce != submitted[g].nonce)
    && (forall k :: 0 <= k < |m.sending| ==> m.sending[k].handle !in submitted)
    && (forall k, h :: 0 <= k < |m.sending| && h in submitted ==> m.sending[k].nonce != Some(submitted[h].nonce))
  }

  ghost predicate Holds(submitted: map<Handle, Tx>, ps: seq<Pending>) {
    forall p :: p in ps ==> p.handle in submitted && submitted[p.handle] == p.tx
  }

  /** A confirmed handle got the receipt of its own transaction from a mined block. */
  ghost predicate Right(c: Crypto, mined: seq<Block>, submitted: map<Handle, Tx>, a: Answer) {
    a.response.Included? ==>
      && a.handle in submitted
      && exists b :: b in mined && ReceiptOf(c, b, a.response.receipt, submitted[a.handle])
  }

  ghost predicate Recorded(c: Crypto, me: nat, w: World) {
    var m := w.manager;
    && Apart(m) && Fresh(me, m, w.submitted)
    && Holds(w.submitted, m.pending) && Holds(w.submitted, m.staged)
    && (forall b :: b in w.chain.mined ==> Receipted(c, b))
    && (forall a :: a in m.answers ==> Right(c, w.chain.mined, w.submitted, a))
  }

  lemma RightStays(c: Crypto, mined: seq<Block>, more: seq<Block>, submitted: map<Handle, Tx>, h: Handle, t: Tx, a: Answer)
    requires Right(c, mined, submitted, a) && h !in submitted
    ensures Right(c, mined + more, submitted, a)
    ensures Right(c, mined, submitted[h := t], a)
  {
    if a.response.Included? {
      var b :| b in mined && ReceiptOf(c, b, a.response.receipt, submitted[a.handle]);
      assert b in mined + more;
    }
  }

  lemma LeavingKeepsApart(me: nat, m: Manager, submitted: map<Handle, Tx>, k: nat)
    requires k < |m.sending| && Apart(m) && Fresh(me, m, submitted)
    ensures var left := m.(sending := Without(m.sending, k));
      Apart(left) && Fresh(me, left, submitted)
    ensures forall s :: s in Without(m.sending, k) ==>
      s.handle != m.sending[k].handle && (m.sending[k].nonce.Some? ==> s.nonce != m.sending[k].nonce)
  {
    assert forall j :: 0 <= j < |m.sending| - 1 ==> Without(m.sending, k)[j] == m.sending[if j < k then j else j + 1];
  }

  lemma QueuedIsFresh(me: nat, m: Manager, submitted: map<Handle, Tx>, s: Sending)
    requires Fresh(me, m, submitted) && s.nonce.Some? && s.handle !in submitted
    requires s.handle < m.nextHandle && s.nonce.value < m.nextNonce
    requires forall h :: h in submitted ==> s.nonce != Some(submitted[h].nonce)
    requires forall o :: o in m.sending ==> o.handle != s.handle && o.nonce != s.nonce
    ensures Fresh(me, m, submitted[s.handle := Signed(me, s).tx])
  {
  }

  lemma SignRecords(c: Crypto, blockTime: nat, me: nat, w: World, k: nat, ok: bool)
    requires w.chain.miner.blocks != [] && Enabled(me, w, Sign(k, ok)) && Recorded(c, me, w)
    ensures Recorded(c, me, Happened(c, blockTime, me, w, Sign(k, ok)))
  {
    var m, w' := w.manager, Happened(c, blockTime, me, w, Sign(k, ok));
    var s := m.sending[k];
    LeavingKeepsApart(me, m, w.submitted, k);
    QueuedIsFresh(me, m.(sending := Without(m.sending, k)), w.submitted, s);
    forall a | a in w'.manager.answers
      ensures Right(c, w'.chain.mined, w'.submitted, a)
    {
      if a in m.answers {
        RightStays(c, w.chain.mined, [], w.submitted, s.handle, Signed(me, s).tx, a);
      }
    }
  }

  lemma ConfirmRecords(c: Crypto, blockTime: nat, me: nat, w: World, b: Block)
    requires InjectiveTxs(c)
    requires w.chain.miner.blocks != [] && Enabled(me, w, Confirm(b)) && Recorded(c, me, w)
    ensures Recorded(c, me, Happened(c, blockTime, me, w, Confirm(b)))
  {
    var m, w' := w.manager, Happened(c, blockTime, me, w, Confirm(b));
    forall p | p in w'.manager.staged
      ensures p in m.staged
    {
      StillStagedMeans(c, b.receipts, m.staged, p);
    }
    forall a | a in Fired(c, b.receipts, m.staged)
      ensures Right(c, w.chain.mined, w.submitted, a)
    {
      FiredMeans(c, b.receipts, m.staged, a);
      var p :| p in m.staged && p.handle == a.handle && FindReceipt(b.receipts, c.txHash(p.tx)) == Some(a.response.receipt);
      FoundExactly(c, b, p.tx);
    }
  }

  lemma ActionRecords(c: Crypto, blockTime: nat, me: nat, w: World, a: Action)
    requires w.chain.miner.blocks != [] && Recorded(c, me, w)
    ensures Recorded(c, me, w.(chain := Acted(c, blockTime, w.chain, a)))
  {
    if a.Mine? {
      var b := NextBlock(c, blockTime, w.chain.miner);
      assert Receipted(c, b);
      forall x | x in w.manager.answers
        ensures Right(c, w.chain.mined + [b], w.submitted, x)
      {
        if x.response.Included? {
          var o :| o in w.chain.mined && ReceiptOf(c, o, x.response.receipt, w.submitted[x.handle]);
          assert o in w.chain.mined + [b];
        }
      }
    }
  }

  lemma TakeRecords(c: Crypto, me: nat, w: World, n: nat)
    requires Recorded(c, me, w)
    ensures Recorded(c, me, w.(manager := DroppedFirst(w.manager, n)))
    ensures Recorded(c, me, w.(manager := StagedFirst(w.manager, n)))
  {
  }

  lemma BeginRecords(c: Crypto, me: nat, w: World, body: nat, blobs: seq<nat>)
    requires Recorded(c, me, w)
    ensures Recorded(c, me, w.(manager := Begun(w.manager, body, blobs), asked := w.asked[w.manager.nextHandle := Request(body, blobs)]))
  {
    var m := Begun(w.manager, body, blobs);
    assert Apart(m) && Fresh(me, m, w.submitted) by {
      hide Holds, Right, Receipted;
    }
    hide Apart, Fresh, Holds, Right, Receipted;
    assert forall a :: a in m.answers ==> a in w.manager.answers || a == Answer(w.manager.nextHandle, SubmissionFailure);
    FailureIsRight(c, w.chain.mined, w.submitted, Answer(w.manager.nextHandle, SubmissionFailure));
  }

  lemma FailureIsRight(c: Crypto, mined: seq<Block>, submitted: map<Handle, Tx>, a: Answer)
    requires !a.response.Included?
    ensures Right(c, mined, submitted, a)
  {
  }

  lemma AllocateRecords(c: Crypto, me: nat, w: World, k: nat)
    requires Recorded(c, me, w) && k < |w.manager.sending|
    ensures Recorded(c, me, w.(manager := Allocated(w.manager, k)))
  {
  }

  lemma ReorgRecords(c: Crypto, me: nat, w: World, number: nat)
    requires Recorded(c, me, w)
    ensures Recorded(c, me, w.(manager := Reorged(w.manager, number)))
  {
  }

  lemma RecordsAfter(c: Crypto, blockTime: nat, me: nat, w: World, e: Event)
    requires InjectiveTxs(c)
    requires w.chain.miner.blocks != [] && Enabled(me, w, e) && Recorded(c, me, w)
    ensures Recorded(c, me, Happened(c, blockTime, me, w, e))
  {
    match e {
      case Begin(body, blobs) => BeginRecords(c, me, w, body, blobs);
      case Allocate(k) => AllocateRecords(c, me, w, k);
      case Drop(n) => TakeRecords(c, me, w, n);
      case Stage(n) => TakeRecords(c, me, w, n);
      case Sign(k, ok) => SignRecords(c, blockTime, me, w, k, ok);
      case Confirm(b) => ConfirmRecords(c, blockTime, me, w, b);
      case Direct(a) => ActionRecords(c, blockTime, me, w, a);
      case ManagerReorg(to) =>
        ReorgRecords(c, me, w, to);
        ActionRecords(c, blockTime, me, w.(manager := Reorged(w.manager, to)), Reorg(to));
      case _ =>
    }
  }

  lemma {:induction false} RunsRecord(c: Crypto, blockTime: nat, me: nat, events: seq<Event>)
    requires InjectiveTxs(c)
    ensures Recorded(c, me, After(c, blockTime, me, events))
    decreases |events|
  {
    if events != [] {
      RunsRecord(c, blockTime, me, events[..|events| - 1]);
      var w, e := After(c, blockTime, me, events[..|events| - 1]), events[|events| - 1];
      if Enabled(me, w, e) {
        RecordsAfter(c, blockTime, me, w, e);
      }
    }
  }

  /** A handle is confirmed only with the receipt of its own transaction, from a
      block that was mined with that transaction at that index. */
  lemma RightReceipt(c: Crypto, blockTime: nat, me: nat, events: seq<Event>, a: Answer)
    requires InjectiveTxs(c)
    requires a in After(c, blockTime, me, events).manager.answers && a.response.Included?
    ensures var w := After(c, blockTime, me, events);
      && a.handle in w.submitted
      && exists b :: b in w.chain.mined && ReceiptOf(c, b, a.response.receipt, w.submitted[a.handle])
  {
    hide After;
    RunsRecord(c, blockTime, me, events);
    var w := After(c, blockTime, me, events);
    assert Right(c, w.chain.mined, w.submitted, a);
  }

  /** Two handles never share a receipt, nor a transaction hash. */
  lemma ReceiptsDiffer(c: Crypto, blockTime: nat, me: nat, events: seq<Event>, a: Answer, o: Answer)
    requires InjectiveTxs(c)
    requires var answers := After(c, blockTime, me, events).manager.answers;
      a in answers && o in answers && a.response.Included? && o.response.Included? && a.handle != o.handle
    ensures a.response.receipt.txHash != o.response.receipt.txHash
  {
    hide After;
    RunsRecord(c, blockTime, me, events);
    RightReceipt(c, blockTime, me, events, a);
    RightReceipt(c, blockTime, me, events, o);
    var w := After(c, blockTime, me, events);
    assert w.submitted[a.handle] != w.submitted[o.handle];
  }

  // ------------------------------------------------------------------ nothing stranded

  ghost predicate OnChain(blocks: seq<Block>, t: Tx) {
    exists i :: 0 <= i < |blocks| && t in blocks[i].transactions
  }

  /** Every staged submission is queued at the miner or in a canonical block. */
  ghost predicate Tracked(w: World) {
    forall p :: p in w.manager.staged ==> p.tx in Txs(w.chain.miner.pending) || OnChain(w.chain.miner.blocks, p.tx)
  }

  lemma StepKeepsChain(c: Crypto, blockTime: nat, me: nat, w: World, e: Event)
    requires Kept(c, blockTime, w.chain) && Enabled(me, w, e)
    ensures Kept(c, blockTime, Happened(c, blockTime, me, w, e).chain)
  {
    match e {
      case Direct(a) => KeptByAction(c, blockTime, w.chain, a);
      case ManagerReorg(to) => KeptByAction(c, blockTime, w.chain, Reorg(to));
      case _ =>
    }
  }

  lemma {:induction false} ChainKept(c: Crypto, blockTime: nat, me: nat, events: seq<Event>)
    ensures Kept(c, blockTime, After(c, blockTime, me, events).chain)
    decreases |events|
  {
    if events != [] {
      ChainKept(c, blockTime, me, events[..|events| - 1]);
      var w, e := After(c, blockTime, me, events[..|events| - 1]), events[|events| - 1];
      if Enabled(me, w, e) {
        StepKeepsChain(c, blockTime, me, w, e);
        hide Happened, Kept;
      }
    }
  }

  lemma TrackedAfterStage(c: Crypto, blockTime: nat, me: nat, w: World, n: nat)
    requires w.chain.miner.blocks != [] && Tracked(w)
    ensures Tracked(Happened(c, blockTime, me, w, Stage(n)))
  {
    var m, count := w.manager, Min(n, |w.manager.pending|);
    var w' := Happened(c, blockTime, me, w, Stage(n));
    var queue := Txs(w'.chain.miner.pending);
    assert queue == Txs(w.chain.miner.pending) + PendingTxs(m.pending[..count]);
    forall p | p in m.pending[..count]
      ensures p.tx in queue
    {
      var i :| 0 <= i < count && m.pending[..count][i] == p;
      assert PendingTxs(m.pending[..count])[i] == p.tx;
    }
  }

  lemma TrackedAfterAction(c: Crypto, blockTime: nat, w: World, a: Action)
    requires w.chain.miner.blocks != [] && Tracked(w) && !a.Reorg?
    ensures Tracked(w.(chain := Acted(c, blockTime, w.chain, a)))
  {
    var old', new' := w.chain.miner, Acted(c, blockTime, w.chain, a).miner;
    if a.Submit? {
      assert Txs(new'.pending) == Txs(old'.pending) + [a.p.tx];
    }
    if a.Mine? {
      assert new'.blocks[|old'.blocks|].transactions == Txs(old'.pending);
      assert forall i :: 0 <= i < |old'.blocks| ==> new'.blocks[i] == old'.blocks[i];
    }
  }

  lemma TrackedAfter(c: Crypto, blockTime: nat, me: nat, w: World, e: Event)
    requires w.chain.miner.blocks != [] && Enabled(me, w, e) && Tracked(w)
    requires !(e.Direct? && e.action.Reorg?)
    ensures Tracked(Happened(c, blockTime, me, w, e))
  {
    match e {
      case Stage(n) => TrackedAfterStage(c, blockTime, me, w, n);
      case Direct(a) => TrackedAfterAction(c, blockTime, w, a);
      case Confirm(b) =>
        forall p ensures p in StillStaged(c, b.receipts, w.manager.staged) ==> p in w.manager.staged {
          StillStagedMeans(c, b.receipts, w.manager.staged, p);
        }
      case _ =>
    }
  }

  ghost predicate ReorgsThroughManager(events: seq<Event>) {
    forall e :: e in events ==> !(e.Direct? && e.action.Reorg?)
  }

  lemma {:induction false} RunsTrack(c: Crypto, blockTime: nat, me: nat, events: seq<Event>)
    requires ReorgsThroughManager(events)
    ensures Tracked(After(c, blockTime, me, events))
    decreases |events|
  {
    if events != [] {
      RunsTrack(c, blockTime, me, events[..|events| - 1]);
      var w, e := After(c, blockTime, me, events[..|events| - 1]), events[|events| - 1];
      if Enabled(me, w, e) {
        TrackedAfter(c, blockTime, me, w, e);
      }
    }
  }

  /** Confirms the blocks one after the other. */
  function ConfirmEach(c: Crypto, m: Manager, blocks: seq<Block>): Manager {
    if blocks == [] then m else Confirmed(c, ConfirmEach(c, m, blocks[..|blocks| - 1]), blocks[|blocks| - 1])
  }

  lemma {:induction false} StagedAfterEach(c: Crypto, m: Manager, blocks: seq<Block>, p: Pending)
    requires InjectiveTxs(c) && forall b :: b in blocks ==> Receipted(c, b)
    ensures p in ConfirmEach(c, m, blocks).staged <==> p in m.staged && !OnChain(blocks, p.tx)
  {
    if blocks != [] {
      var front, b := blocks[..|blocks| - 1], blocks[|blocks| - 1];
      StagedAfterEach(c, m, front, p);
      StillStagedMeans(c, b.receipts, ConfirmEach(c, m, front).staged, p);
      FoundExactly(c, b, p.tx);
      assert OnChain(blocks, p.tx) <==> OnChain(front, p.tx) || p.tx in b.transactions by {
        assert forall i :: 0 <= i < |front| ==> blocks[i] == front[i];
      }
    }
  }

  lemma {:induction false} UsesOfMember(me: nat, txs: seq<Tx>, t: Tx)
    requires t in txs && t.signer == me
    ensures Uses(me, txs, t.nonce) > 0
  {
    var front := txs[..|txs| - 1];
    assert txs == front + [txs[|txs| - 1]];
    if t in front {
      UsesOfMember(me, front, t);
    }
  }

  lemma {:induction false} UsesOfMined(me: nat, mined: seq<Block>, i: nat, t: Tx)
    requires i < |mined| && t in mined[i].transactions && t.signer == me
    ensures UsesMined(me, mined, t.nonce) > 0
  {
    if i == |mined| - 1 {
      UsesOfMember(me, mined[i].transactions, t);
    } else {
      UsesOfMined(me, mined[..|mined| - 1], i, t);
    }
  }

  lemma {:induction false} UsesOfTwo(me: nat, mined: seq<Block>, i: nat, j: nat, t: Tx)
    requires i < j < |mined| && t in mined[i].transactions && t in mined[j].transactions && t.signer == me
    ensures UsesMined(me, mined, t.nonce) > 1
  {
    var front := mined[..|mined| - 1];
    if j == |mined| - 1 {
      UsesOfMember(me, mined[j].transactions, t);
      UsesOfMined(me, front, i, t);
    } else {
      UsesOfTwo(me, front, i, j, t);
    }
  }

  /** A transaction of the manager is never both queued at the miner and mined, and
      never in two canonical blocks. */
  lemma InOnePlace(c: Crypto, blockTime: nat, me: nat, events: seq<Event>, t: Tx, i: nat, j: nat)
    requires t.signer == me
    requires var blocks := After(c, blockTime, me, events).chain.miner.blocks;
      i < |blocks| && t in blocks[i].transactions
    ensures var miner := After(c, blockTime, me, events).chain.miner;
      t !in Txs(miner.pending) && (j < |miner.blocks| && t in miner.blocks[j].transactions ==> j == i)
  {
    ChainKept(c, blockTime, me, events);
    NoncesAreUsedOnce(c, blockTime, me, events, t.nonce);
    hide After, Txs;
    var s := After(c, blockTime, me, events).chain;
    var x :| 0 <= x < |s.mined| && s.mined[x] == s.miner.blocks[i];
    UsesOfMined(me, s.mined, x, t);
    if t in Txs(s.miner.pending) {
      UsesOfMember(me, Txs(s.miner.pending), t);
    }
    if j < |s.miner.blocks| && t in s.miner.blocks[j].transactions && j != i {
      var y :| 0 <= y < |s.mined| && s.mined[y] == s.miner.blocks[j];
      assert x != y;
      UsesOfTwo(me, s.mined, Min(x, y), Max(x, y), t);
    }
  }

  lemma CanonicalReceipted(c: Crypto, blockTime: nat, me: nat, events: seq<Event>)
    requires InjectiveTxs(c)
    ensures forall b :: b in After(c, blockTime, me, events).chain.miner.blocks ==> Receipted(c, b)
  {
    ChainKept(c, blockTime, me, events);
    RunsRecord(c, blockTime, me, events);
    var s := After(c, blockTime, me, events).chain;
    forall b | b in s.miner.blocks
      ensures Receipted(c, b)
    {
      var i :| 0 <= i < |s.miner.blocks| && s.miner.blocks[i] == b;
    }
  }

  /** As long as reorgs go through the manager, confirming the canonical blocks
      leaves staged exactly the submissions the miner has not yet mined. */
  lemma NothingStranded(c: Crypto, blockTime: nat, me: nat, events: seq<Event>, p: Pending)
    requires InjectiveTxs(c) && ReorgsThroughManager(events)
    ensures var w := After(c, blockTime, me, events);
      p in ConfirmEach(c, w.manager, w.chain.miner.blocks).staged
      <==> p in w.manager.staged && p.tx in Txs(w.chain.miner.pending)
  {
    RunsRecord(c, blockTime, me, events);
    RunsTrack(c, blockTime, me, events);
    CanonicalReceipted(c, blockTime, me, events);
    var w := After(c, blockTime, me, events);
    StagedAfterEach(c, w.manager, w.chain.miner.blocks, p);
    if p in w.manager.staged && OnChain(w.chain.miner.blocks, p.tx) {
      assert w.submitted[p.handle].signer == me;
      var i :| 0 <= i < |w.chain.miner.blocks| && p.tx in w.chain.miner.blocks[i].transactions;
      InOnePlace(c, blockTime, me, events, p.tx, i, i);
    }
  }

  /** A reorg behind the manager's back strands a submission exactly when a staged
      transaction sits in a block it discards. */
  lemma StrandedExactly(c: Crypto, blockTime: nat, me: nat, events: seq<Event>, to: nat)
    requires InjectiveTxs(c)
    requires var w := After(c, blockTime, me, events);
      to < |w.chain.miner.blocks| && Tracked(w)
    ensures var w := After(c, blockTime, me, events);
      Tracked(Happened(c, blockTime, me, w, Direct(Reorg(to))))
      <==> forall p :: p in w.manager.staged ==> !OnChain(w.chain.miner.blocks[to + 1..], p.tx)
  {
    RunsRecord(c, blockTime, me, events);
    var w := After(c, blockTime, me, events);
    forall p | p in w.manager.staged
      ensures (p.tx in Txs(w.chain.miner.pending) || OnChain(w.chain.miner.blocks[..to + 1], p.tx))
           <==> !OnChain(w.chain.miner.blocks[to + 1..], p.tx)
    {
      assert w.submitted[p.handle].signer == me;
      SplitAt(c, blockTime, me, events, to, p.tx);
    }
    var w' := Happened(c, blockTime, me, w, Direct(Reorg(to)));
    assert w'.chain.miner.blocks == w.chain.miner.blocks[..to + 1];
  }

  lemma SplitAt(c: Crypto, blockTime: nat, me: nat, events: seq<Event>, to: nat, t: Tx)
    requires t.signer == me
    requires var miner := After(c, blockTime, me, events).chain.miner;
      to < |miner.blocks| && (t in Txs(miner.pending) || OnChain(miner.blocks, t))
    ensures var miner := After(c, blockTime, me, events).chain.miner;
      (t in Txs(miner.pending) || OnChain(miner.blocks[..to + 1], t)) <==> !OnChain(miner.blocks[to + 1..], t)
  {
    hide After, Txs;
    var blocks := After(c, blockTime, me, events).chain.miner.blocks;
    if OnChain(blocks[to + 1..], t) {
      GoneForGood(c, blockTime, me, events, to, t);
    }
    OnChainSplit(blocks, to + 1, t);
  }

  lemma GoneForGood(c: Crypto, blockTime: nat, me: nat, events: seq<Event>, to: nat, t: Tx)
    requires t.signer == me
    requires var miner := After(c, blockTime, me, events).chain.miner;
      to < |miner.blocks| && OnChain(miner.blocks[to + 1..], t)
    ensures var miner := After(c, blockTime, me, events).chain.miner;
      t !in Txs(miner.pending) && !OnChain(miner.blocks[..to + 1], t)
  {
    hide After, Txs;
    var blocks := After(c, blockTime, me, events).chain.miner.blocks;
    var i :| 0 <= i < |blocks[to + 1..]| && t in blocks[to + 1..][i].transactions;
    forall j: nat
      ensures t !in Txs(After(c, blockTime, me, events).chain.miner.pending)
      ensures j < |blocks| && t in blocks[j].transactions ==> j == to + 1 + i
    {
      InOnePlace(c, blockTime, me, events, t, to + 1 + i, j);
    }
  }

  lemma OnChainSplit(blocks: seq<Block>, n: nat, t: Tx)
    requires n <= |blocks|
    ensures OnChain(blocks, t) <==> OnChain(blocks[..n], t) || OnChain(blocks[n..], t)
  {
    if OnChain(blocks, t) {
      var i :| 0 <= i < |blocks| && t in blocks[i].transactions;
      if i < n {
        assert blocks[..n][i] == blocks[i];
      } else {
        assert blocks[n..][i - n] == blocks[i];
      }
    }
  }

  // ------------------------------------------------------------ stranded for good

  /** Later canonical blocks are old canonical ones or newly mined. */
  ghost predicate Later(s: Chain, t: Chain) {
    && |s.mined| <= |t.mined| && t.mined[..|s.mined|] == s.mined
    && forall i :: 0 <= i < |t.miner.blocks| ==> t.miner.blocks[i] in s.miner.blocks || t.miner.blocks[i] in t.mined[|s.mined|..]
  }

  lemma LaterByAction(c: Crypto, blockTime: nat, s: Chain, t: Chain, a: Action)
    requires t.miner.blocks != [] && Later(s, t)
    ensures Later(s, Acted(c, blockTime, t, a))
  {
    if a.Mine? {
      LaterByMine(s, t, Acted(c, blockTime, t, a), NextBlock(c, blockTime, t.miner));
    }
  }

  lemma LaterByMine(s: Chain, t: Chain, u: Chain, b: Block)
    requires Later(s, t) && u.mined == t.mined + [b] && u.miner.blocks == t.miner.blocks + [b]
    ensures Later(s, u)
  {
    assert u.mined[|s.mined|..] == t.mined[|s.mined|..] + [b];
    forall i | 0 <= i < |u.miner.blocks|
      ensures u.miner.blocks[i] in s.miner.blocks || u.miner.blocks[i] in u.mined[|s.mined|..]
    {
      assert i < |t.miner.blocks| ==> u.miner.blocks[i] == t.miner.blocks[i];
    }
  }

  lemma LaterByEvent(c: Crypto, blockTime: nat, me: nat, s: Chain, w: World, e: Event)
    requires w.chain.miner.blocks != [] && Enabled(me, w, e) && Later(s, w.chain)
    ensures Later(s, Happened(c, blockTime, me, w, e).chain)
  {
    hide Later;
    match e {
      case Direct(a) => LaterByAction(c, blockTime, s, w.chain, a);
      case ManagerReorg(to) => LaterByAction(c, blockTime, s, w.chain, Reorg(to));
      case Stage(n) => LaterIgnoresQueue(s, w.chain, Happened(c, blockTime, me, w, e).chain);
      case _ =>
    }
  }

  lemma {:induction false} LaterInRuns(c: Crypto, blockTime: nat, me: nat, events: seq<Event>, more: seq<Event>)
    ensures Later(After(c, blockTime, me, events).chain, After(c, blockTime, me, events + more).chain)
    decreases |more|
  {
    hide After, Happened;
    if more == [] {
      assert events + more == events;
    } else {
      var front, e := events + more[..|more| - 1], more[|more| - 1];
      LaterInRuns(c, blockTime, me, events, more[..|more| - 1]);
      assert events + more == front + [e];
      hide Later;
      var w := After(c, blockTime, me, front);
      if Enabled(me, w, e) {
        AfterSnoc(c, blockTime, me, front, e);
        LaterByEvent(c, blockTime, me, After(c, blockTime, me, events).chain, w, e);
      } else {
        SkippedSnoc(c, blockTime, me, front, e);
      }
    }
  }

  lemma LaterIgnoresQueue(s: Chain, t: Chain, u: Chain)
    requires Later(s, t) && u.mined == t.mined && u.miner.blocks == t.miner.blocks
    ensures Later(s, u)
  {
  }

  /** A transaction of the manager that was mined and is not on the chain, because its
      block was discarded, is never queued or on the chain again. */
  lemma GoneForEver(c: Crypto, blockTime: nat, me: nat, events: seq<Event>, more: seq<Event>, x: nat, t: Tx)
    requires t.signer == me
    requires var s := After(c, blockTime, me, events).chain;
      x < |s.mined| && t in s.mined[x].transactions && !OnChain(s.miner.blocks, t)
    ensures var miner := After(c, blockTime, me, events + more).chain.miner;
      t !in Txs(miner.pending) && !OnChain(miner.blocks, t)
  {
    LaterInRuns(c, blockTime, me, events, more);
    NoncesAreUsedOnce(c, blockTime, me, events + more, t.nonce);
    hide After, Txs;
    var s, u := After(c, blockTime, me, events).chain, After(c, blockTime, me, events + more).chain;
    assert u.mined[x] == s.mined[x];
    UsesOfMined(me, u.mined, x, t);
    if t in Txs(u.miner.pending) {
      UsesOfMember(me, Txs(u.miner.pending), t);
    }
    if OnChain(u.miner.blocks, t) {
      var i :| 0 <= i < |u.miner.blocks| && t in u.miner.blocks[i].transactions;
      if u.miner.blocks[i] in u.mined[|s.mined|..] {
        var y :| |s.mined| <= y < |u.mined| && u.mined[y] == u.miner.blocks[i];
        UsesOfTwo(me, u.mined, x, y, t);
      }
    }
  }

  /** The events that end the wait of a staged submission: a reorg through the manager,
      and the confirmation of a block, canonical or not, that contains it. */
  ghost predicate Ends(me: nat, w: World, e: Event, p: Pending) {
    Enabled(me, w, e) && (e.ManagerReorg? || (e.Confirm? && p.tx in e.block.transactions))
  }

  ghost predicate NeverEnds(c: Crypto, blockTime: nat, me: nat, events: seq<Event>, more: seq<Event>, p: Pending) {
    forall k :: 0 <= k < |more| ==> !Ends(me, After(c, blockTime, me, events + more[..k]), more[k], p)
  }

  lemma {:induction false} FiredHas(c: Crypto, rs: seq<Receipt>, staged: seq<Pending>, p: Pending)
    requires p in staged && FindReceipt(rs, c.txHash(p.tx)).Some?
    ensures p.handle in Answered(Fired(c, rs, staged))
  {
    var front, last := staged[..|staged| - 1], staged[|staged| - 1];
    assert staged == front + [last];
    var before := Fired(c, rs, front);
    if p == last {
      var a := Answer(p.handle, Included(FindReceipt(rs, c.txHash(p.tx)).value));
      assert Answered(before + [a]) == Answered(before) + [p.handle];
    } else {
      FiredHas(c, rs, front, p);
      assert Answered(Fired(c, rs, staged))[..|before|] == Answered(before);
    }
  }

  /** Answers are never taken back. */
  lemma AnswersGrow(c: Crypto, blockTime: nat, me: nat, w: World, e: Event, h: Handle)
    requires w.chain.miner.blocks != [] && Enabled(me, w, e) && h in Answered(w.manager.answers)
    ensures h in Answered(Happened(c, blockTime, me, w, e).manager.answers)
  {
    var before, after := w.manager.answers, Happened(c, blockTime, me, w, e).manager.answers;
    assert before <= after;
    assert Answered(after)[..|before|] == Answered(before);
  }

  lemma StagedAfter(c: Crypto, blockTime: nat, me: nat, w: World, e: Event, p: Pending)
    requires InjectiveTxs(c) && w.chain.miner.blocks != [] && Enabled(me, w, e) && p in w.manager.staged
    requires forall b :: b in w.chain.mined ==> Receipted(c, b)
    ensures var m := Happened(c, blockTime, me, w, e).manager;
      if Ends(me, w, e, p) then p.handle in Answered(m.answers) else p in m.staged
  {
    var m := w.manager;
    match e {
      case Confirm(b) =>
        FoundExactly(c, b, p.tx);
        StillStagedMeans(c, b.receipts, m.staged, p);
        var fired := Fired(c, b.receipts, m.staged);
        if p.tx in b.transactions {
          FiredHas(c, b.receipts, m.staged, p);
        }
        assert Answered(m.answers + fired) == Answered(m.answers) + Answered(fired);
      case ManagerReorg(to) =>
        FailureIsSent(m, to, p);
        var answers := Reorged(m, to).answers;
        var i :| 0 <= i < |answers| && answers[i] == Answer(p.handle, ReorgFailure);
        assert Answered(answers)[i] == p.handle;
      case _ =>
    }
  }

  lemma {:induction false} StagedOrAnswered(c: Crypto, blockTime: nat, me: nat, events: seq<Event>, more: seq<Event>, p: Pending)
    requires InjectiveTxs(c) && p in After(c, blockTime, me, events).manager.staged
    ensures var m := After(c, blockTime, me, events + more).manager;
      if NeverEnds(c, blockTime, me, events, more, p) then p in m.staged else p.handle in Answered(m.answers)
    decreases |more|
  {
    hide After;
    if more == [] {
      assert events + more == events;
    } else {
      var n := |more| - 1;
      var front, e := more[..n], more[n];
      StagedOrAnswered(c, blockTime, me, events, front, p);
      NeverEndsStep(c, blockTime, me, events, more, p);
      assert events + more == events + front + [e];
      var w := After(c, blockTime, me, events + front);
      assert Ends(me, w, e, p) ==> Enabled(me, w, e);
      hide NeverEnds, Ends, Happened;
      if Enabled(me, w, e) {
        AfterSnoc(c, blockTime, me, events + front, e);
        MinedReceipted(c, blockTime, me, events + front);
        if NeverEnds(c, blockTime, me, events, front, p) {
          StagedAfter(c, blockTime, me, w, e, p);
        } else {
          AnswersGrow(c, blockTime, me, w, e, p.handle);
        }
      } else {
        SkippedSnoc(c, blockTime, me, events + front, e);
      }
    }
  }

  lemma MinedReceipted(c: Crypto, blockTime: nat, me: nat, events: seq<Event>)
    requires InjectiveTxs(c)
    ensures forall b :: b in After(c, blockTime, me, events).chain.mined ==> Receipted(c, b)
  {
    hide After;
    RunsRecord(c, blockTime, me, events);
  }

  lemma NeverEndsStep(c: Crypto, blockTime: nat, me: nat, events: seq<Event>, more: seq<Event>, p: Pending)
    requires more != []
    ensures var n := |more| - 1;
      NeverEnds(c, blockTime, me, events, more, p)
      <==> NeverEnds(c, blockTime, me, events, more[..n], p) && !Ends(me, After(c, blockTime, me, events + more[..n]), more[n], p)
  {
    hide After, Ends;
    var n := |more| - 1;
    assert forall k :: 0 <= k < n ==> more[..n][..k] == more[..k] && more[..n][k] == more[k];
  }

  /** A staged submission stays staged exactly as long as no reorg goes through the manager
      and no block that contains it is confirmed. */
  lemma StagedExactly(c: Crypto, blockTime: nat, me: nat, events: seq<Event>, more: seq<Event>, p: Pending)
    requires InjectiveTxs(c) && p in After(c, blockTime, me, events).manager.staged
    ensures p in After(c, blockTime, me, events + more).manager.staged <==> NeverEnds(c, blockTime, me, events, more, p)
  {
    StagedOrAnswered(c, blockTime, me, events, more, p);
    HandlesAreConserved(c, blockTime, me, events + more, p.handle);
    hide After, NeverEnds;
    var m := After(c, blockTime, me, events + more).manager;
    CountsMembers(Answered(m.answers), p.handle);
    CountsMembers(Handles(m.staged), p.handle);
    if p in m.staged {
      var i :| 0 <= i < |m.staged| && m.staged[i] == p;
      assert Handles(m.staged)[i] == p.handle;
    }
  }

  // -------------------------------------------------------------------- two runs

  /** One submission, sent and staged. */
  function SentAndStaged(): seq<Event> { [Begin(0, [])] + [Allocate(0)] + [Sign(0, true)] + [Stage(1)] }

  function FirstSubmission(me: nat): Pending { Pending(0, Tx(me, 0, 0), []) }

  lemma SentAndStagedRun(c: Crypto, blockTime: nat, me: nat)
    ensures var w := After(c, blockTime, me, SentAndStaged());
      && w.manager.staged == [FirstSubmission(me)] && w.manager.pending == []
      && w.chain == NEW_CHAIN.(miner := w.chain.miner) && w.chain.miner.blocks == [GENESIS]
      && Txs(w.chain.miner.pending) == [FirstSubmission(me).tx]
  {
    var p, s := FirstSubmission(me), Sending(0, 0, [], None);
    var e0 := [Begin(0, [])];
    assert e0[..0] == [];
    var m := After(c, blockTime, me, e0).manager;
    assert m == NEW_MANAGER.(nextHandle := 1, sending := [s]);
    AfterSnoc(c, blockTime, me, e0, Allocate(0));
    var e1 := e0 + [Allocate(0)];
    assert After(c, blockTime, me, e1).manager == m.(nextNonce := 1, sending := [s.(nonce := Some(0))]);
    AfterSnoc(c, blockTime, me, e1, Sign(0, true));
    var e2 := e1 + [Sign(0, true)];
    var w2 := After(c, blockTime, me, e2);
    assert w2.manager == m.(nextNonce := 1, sending := [], pending := [p]) && w2.chain == NEW_CHAIN;
    AfterSnoc(c, blockTime, me, e2, Stage(1));
    hide After;
    assert [p][..1] == [p];
    assert Submissions([p]) == [PendingTx(p.tx, [], true)];
  }

  /** Stage, mine, and reorg at the miner. */
  function Stranding(): seq<Event> { SentAndStaged() + [Direct(Mine)] + [Direct(Reorg(0))] }

  lemma StrandingRun(c: Crypto, blockTime: nat, me: nat)
    ensures var w := After(c, blockTime, me, Stranding());
      && FirstSubmission(me) in w.manager.staged && w.chain.miner.blocks == [GENESIS]
      && |w.chain.mined| == 1 && FirstSubmission(me).tx in w.chain.mined[0].transactions
  {
    SentAndStagedRun(c, blockTime, me);
    AfterSnoc(c, blockTime, me, SentAndStaged(), Direct(Mine));
    AfterSnoc(c, blockTime, me, SentAndStaged() + [Direct(Mine)], Direct(Reorg(0)));
    hide After, SentAndStaged;
  }

  /** After that run, however it goes on, the submission is neither queued nor on the
      chain, so that no canonical block answers its handle; it stays staged exactly until
      a reorg through the manager or the confirmation of a block that contains it, which
      can only be a discarded one. */
  lemma DirectReorgStrands(c: Crypto, blockTime: nat, me: nat, more: seq<Event>)
    requires InjectiveTxs(c)
    ensures var w := After(c, blockTime, me, Stranding() + more);
      var p := FirstSubmission(me);
      && p.tx !in Txs(w.chain.miner.pending) && !OnChain(w.chain.miner.blocks, p.tx)
      && (p in w.manager.staged <==> NeverEnds(c, blockTime, me, Stranding(), more, p))
  {
    StrandingRun(c, blockTime, me);
    hide After, Stranding, NeverEnds;
    GoneForEver(c, blockTime, me, Stranding(), more, 0, FirstSubmission(me).tx);
    StagedExactly(c, blockTime, me, Stranding(), more, FirstSubmission(me));
  }

  // ------------------------------------------- a failure answer is not the end of a transaction

  lemma PendingIsNowhereElse(c: Crypto, blockTime: nat, me: nat, events: seq<Event>, p: Pending)
    requires InjectiveTxs(c) && p in After(c, blockTime, me, events).manager.pending
    ensures var miner := After(c, blockTime, me, events).chain.miner;
      p.tx.signer == me && p.tx !in Txs(miner.pending) && !OnChain(miner.blocks, p.tx)
  {
    hide After;
    var w := After(c, blockTime, me, events);
    RunsRecord(c, blockTime, me, events);
    assert w.submitted[p.handle].signer == me;
    NoncesAreUsedOnce(c, blockTime, me, events, p.tx.nonce);
    var k :| 0 <= k < |w.manager.pending| && w.manager.pending[k] == p;
    assert PendingTxs(w.manager.pending)[k] == p.tx;
    UsesOfMember(me, PendingTxs(w.manager.pending), p.tx);
    if p.tx in Txs(w.chain.miner.pending) {
      UsesOfMember(me, Txs(w.chain.miner.pending), p.tx);
    }
    if OnChain(w.chain.miner.blocks, p.tx) {
      ChainKept(c, blockTime, me, events);
      var i :| 0 <= i < |w.chain.miner.blocks| && p.tx in w.chain.miner.blocks[i].transactions;
      var x :| 0 <= x < |w.chain.mined| && w.chain.mined[x] == w.chain.miner.blocks[i];
      UsesOfMined(me, w.chain.mined, x, p.tx);
    }
  }

  /** The world after a reorg through the manager and one more block. */
  lemma ReorgThenMine(c: Crypto, blockTime: nat, me: nat, events: seq<Event>, to: nat)
    requires to < |After(c, blockTime, me, events).chain.miner.blocks|
    ensures var w := After(c, blockTime, me, events);
      var w' := After(c, blockTime, me, events + [ManagerReorg(to)] + [Direct(Mine)]);
      && w'.manager == Reorged(w.manager, to)
      && |w'.chain.miner.blocks| == to + 2
      && w'.chain.miner.blocks[..to + 1] == w.chain.miner.blocks[..to + 1]
      && w'.chain.miner.blocks[to + 1].transactions == Txs(w.chain.miner.pending)
  {
    AfterSnoc(c, blockTime, me, events, ManagerReorg(to));
    AfterSnoc(c, blockTime, me, events + [ManagerReorg(to)], Direct(Mine));
    hide After, Reorged;
  }

  /** The miner's queue survives a reorg through the manager. Of the submissions answered
      with a failure, exactly those the miner held or had mined at or below the reorg
      point are on the chain after the next block; none that was still pending here is. */
  lemma FailedYetMined(c: Crypto, blockTime: nat, me: nat, events: seq<Event>, to: nat, p: Pending)
    requires InjectiveTxs(c)
    requires var w := After(c, blockTime, me, events);
      to < |w.chain.miner.blocks| && (p in w.manager.pending || p in w.manager.staged)
    ensures var w := After(c, blockTime, me, events);
      var w' := After(c, blockTime, me, events + [ManagerReorg(to)] + [Direct(Mine)]);
      && Answer(p.handle, ReorgFailure) in w'.manager.answers
      && (OnChain(w'.chain.miner.blocks, p.tx)
          <==> p.tx in Txs(w.chain.miner.pending) || OnChain(w.chain.miner.blocks[..to + 1], p.tx))
      && (p in w.manager.pending ==> !OnChain(w'.chain.miner.blocks, p.tx))
  {
    ReorgThenMine(c, blockTime, me, events, to);
    hide After;
    var w := After(c, blockTime, me, events);
    var w' := After(c, blockTime, me, events + [ManagerReorg(to)] + [Direct(Mine)]);
    OnChainSplit(w'.chain.miner.blocks, to + 1, p.tx);
    assert OnChain(w'.chain.miner.blocks[to + 1..], p.tx) <==> p.tx in Txs(w.chain.miner.pending) by {
      assert w'.chain.miner.blocks[to + 1..] == [w'.chain.miner.blocks[to + 1]];
      assert [w'.chain.miner.blocks[to + 1]][0].transactions == Txs(w.chain.miner.pending);
    }
    FailureIsSent(w.manager, to, p);
    if p in w.manager.pending {
      PendingIsNowhereElse(c, blockTime, me, events, p);
      OnChainSplit(w.chain.miner.blocks, to + 1, p.tx);
    }
  }

  lemma FailureIsSent(m: Manager, to: nat, p: Pending)
    requires p in m.pending || p in m.staged
    ensures Answer(p.handle, ReorgFailure) in Reorged(m, to).answers
  {
    var all := m.pending + m.staged;
    assert p in all;
    var i :| 0 <= i < |all| && all[i] == p;
    assert Failures(all)[i] == Answer(p.handle, ReorgFailure);
  }

  /** So, while reorgs go through the manager, a staged submission is really undone by
      one exactly when it had been mined in a block the reorg discards. */
  lemma UndoneExactly(c: Crypto, blockTime: nat, me: nat, events: seq<Event>, to: nat, p: Pending)
    requires InjectiveTxs(c) && ReorgsThroughManager(events)
    requires var w := After(c, blockTime, me, events);
      to < |w.chain.miner.blocks| && p in w.manager.staged
    ensures var w := After(c, blockTime, me, events);
      !OnChain(After(c, blockTime, me, events + [ManagerReorg(to)] + [Direct(Mine)]).chain.miner.blocks, p.tx)
      <==> OnChain(w.chain.miner.blocks[to + 1..], p.tx)
  {
    hide After;
    FailedYetMined(c, blockTime, me, events, to, p);
    RunsTrack(c, blockTime, me, events);
    RunsRecord(c, blockTime, me, events);
    var w := After(c, blockTime, me, events);
    assert w.submitted[p.handle].signer == me;
    SplitAt(c, blockTime, me, events, to, p.tx);
  }

  /** Stage, and reorg through the manager before the miner mines: the handle is answered
      with a failure, and the next block contains the transaction. */
  lemma FailedYetMinedRun(c: Crypto, blockTime: nat, me: nat)
    requires InjectiveTxs(c)
    ensures var w := After(c, blockTime, me, SentAndStaged() + [ManagerReorg(0)] + [Direct(Mine)]);
      && Answer(0, ReorgFailure) in w.manager.answers && OnChain(w.chain.miner.blocks, FirstSubmission(me).tx)
  {
    SentAndStagedRun(c, blockTime, me);
    hide After, SentAndStaged;
    FailedYetMined(c, blockTime, me, SentAndStaged(), 0, FirstSubmission(me));
  }
}

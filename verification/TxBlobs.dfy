/** The blobs of a submission travel with its transaction, into the same block. */
module TxBlobs {
  import opened Bytes
  import opened L1Miner
  import opened TxManager
  import opened TxManagerRuns
  import opened TxInclusion

  /** In a row, in order. */
  ghost predicate PartOf(part: seq<nat>, all: seq<nat>) {
    exists i: nat :: Starts(part, all, i)
  }

  ghost predicate Starts(part: seq<nat>, all: seq<nat>, i: nat) {
    i + |part| <= |all| && all[i..i + |part|] == part
  }

  lemma PartOfMore(part: seq<nat>, before: seq<nat>, all: seq<nat>, after: seq<nat>)
    requires PartOf(part, all)
    ensures PartOf(part, before + all + after)
  {
    var i: nat :| Starts(part, all, i);
    assert (before + all + after)[|before| + i..|before| + i + |part|] == all[i..i + |part|];
    assert Starts(part, before + all + after, |before| + i);
  }

  lemma {:induction false} BlobsArePartOf(ps: seq<Pending>, k: nat)
    requires k < |ps|
    ensures PartOf(ps[k].blobs, BlobsOf(ps))
  {
    var n := |ps| - 1;
    var front, last := BlobsOf(ps[..n]), ps[n].blobs;
    if k == n {
      assert Starts(last, front + last, |front|);
    } else {
      BlobsArePartOf(ps[..n], k);
      PartOfMore(ps[k].blobs, [], front, last);
      assert [] + front + last == front + last;
    }
  }

  /** A submitted transaction queued at the miner has its blobs in the miner's blob queue,
      and one in a block has them among that block's sidecars. */
  ghost predicate Carried(me: nat, w: World) {
    && AsAsked(me, w)
    && (forall h :: h in w.submitted && w.submitted[h] in Txs(w.chain.miner.pending) ==>
         PartOf(w.asked[h].blobs, w.chain.miner.pendingBlobs))
    && (forall h, b :: h in w.submitted && b in w.chain.mined && w.submitted[h] in b.transactions ==>
         PartOf(w.asked[h].blobs, b.blobSidecars))
  }

  /** Nobody has the transaction yet. */
  ghost predicate IsNew(s: Chain, t: Tx) {
    t !in Txs(s.miner.pending) && forall b :: b in s.mined ==> t !in b.transactions
  }

  lemma {:induction false} UsesOfSending(ss: seq<Sending>, k: nat)
    requires k < |ss| && ss[k].nonce.Some?
    ensures UsesSending(ss, ss[k].nonce.value) > 0
  {
    if k < |ss| - 1 {
      UsesOfSending(ss[..|ss| - 1], k);
    }
  }

  /** What a call in progress signs is new. */
  lemma SignsNew(c: Crypto, blockTime: nat, me: nat, events: seq<Event>, k: nat)
    requires var m := After(c, blockTime, me, events).manager; k < |m.sending| && m.sending[k].nonce.Some?
    ensures var w := After(c, blockTime, me, events); IsNew(w.chain, Signed(me, w.manager.sending[k]).tx)
  {
    hide After, Txs;
    var w := After(c, blockTime, me, events);
    var t := Signed(me, w.manager.sending[k]).tx;
    NoncesAreUsedOnce(c, blockTime, me, events, t.nonce);
    UsesOfSending(w.manager.sending, k);
    if t in Txs(w.chain.miner.pending) {
      UsesOfMember(me, Txs(w.chain.miner.pending), t);
    }
    forall b | b in w.chain.mined
      ensures t !in b.transactions
    {
      var x :| 0 <= x < |w.chain.mined| && w.chain.mined[x] == b;
      if t in b.transactions {
        UsesOfMined(me, w.chain.mined, x, t);
      }
    }
  }

  lemma SignCarries(c: Crypto, blockTime: nat, me: nat, w: World, k: nat, ok: bool)
    requires w.chain.miner.blocks != [] && Enabled(me, w, Sign(k, ok)) && Carried(me, w)
    requires IsNew(w.chain, Signed(me, w.manager.sending[k]).tx) && w.manager.sending[k].handle !in w.submitted
    ensures Carried(me, Happened(c, blockTime, me, w, Sign(k, ok)))
  {
    hide PartOf, Txs;
  }

  lemma StageCarries(c: Crypto, blockTime: nat, me: nat, w: World, n: nat)
    requires w.chain.miner.blocks != [] && Carried(me, w)
    requires Fresh(me, w.manager, w.submitted) && Holds(w.submitted, w.manager.pending)
    ensures Carried(me, Happened(c, blockTime, me, w, Stage(n)))
  {
    var ps := w.manager.pending[..Min(n, |w.manager.pending|)];
    forall h | h in w.submitted && w.submitted[h] in Txs(MinerWith(w.chain.miner, ps).pending)
      ensures PartOf(w.asked[h].blobs, MinerWith(w.chain.miner, ps).pendingBlobs)
    {
      QueuedBlobs(me, w, ps, h);
    }
    hide PartOf, Txs, MinerWith, Fresh, Holds;
  }

  lemma QueuedBlobs(me: nat, w: World, ps: seq<Pending>, h: Handle)
    requires Carried(me, w) && Fresh(me, w.manager, w.submitted) && Holds(w.submitted, w.manager.pending)
    requires forall p :: p in ps ==> p in w.manager.pending
    requires h in w.submitted && w.submitted[h] in Txs(MinerWith(w.chain.miner, ps).pending)
    ensures PartOf(w.asked[h].blobs, MinerWith(w.chain.miner, ps).pendingBlobs)
  {
    var before := w.chain.miner;
    assert Txs(MinerWith(before, ps).pending) == Txs(before.pending) + PendingTxs(ps);
    hide PartOf, Txs, BlobsOf;
    if w.submitted[h] in Txs(before.pending) {
      PartOfMore(w.asked[h].blobs, [], before.pendingBlobs, BlobsOf(ps));
      assert [] + before.pendingBlobs + BlobsOf(ps) == before.pendingBlobs + BlobsOf(ps);
    } else {
      var k := StagedUnder(me, w, ps, h);
      BlobsArePartOf(ps, k);
      PartOfMore(w.asked[h].blobs, before.pendingBlobs, BlobsOf(ps), []);
      assert before.pendingBlobs + BlobsOf(ps) + [] == before.pendingBlobs + BlobsOf(ps);
    }
  }

  /** A submitted transaction among those staged is staged under its own handle. */
  lemma StagedUnder(me: nat, w: World, ps: seq<Pending>, h: Handle) returns (k: nat)
    requires Fresh(me, w.manager, w.submitted) && Holds(w.submitted, w.manager.pending)
    requires h in w.submitted && w.submitted[h] in PendingTxs(ps) && forall p :: p in ps ==> p in w.manager.pending
    ensures k < |ps| && ps[k].handle == h && ps[k] in w.manager.pending
  {
    k :| 0 <= k < |ps| && PendingTxs(ps)[k] == w.submitted[h];
    assert ps[k] in w.manager.pending && w.submitted[ps[k].handle] == w.submitted[h];
  }

  lemma ActionCarries(c: Crypto, blockTime: nat, me: nat, w: World, a: Action)
    requires w.chain.miner.blocks != [] && Carried(me, w) && (a.Submit? ==> a.p.tx.signer != me)
    requires forall h :: h in w.submitted ==> w.submitted[h].signer == me
    ensures Carried(me, w.(chain := Acted(c, blockTime, w.chain, a)))
  {
    var old', new' := w.chain.miner, Acted(c, blockTime, w.chain, a).miner;
    if a.Submit? {
      assert Txs(new'.pending) == Txs(old'.pending) + [a.p.tx];
    }
    if a.Blob? {
      forall h | h in w.submitted && w.submitted[h] in Txs(old'.pending)
        ensures PartOf(w.asked[h].blobs, new'.pendingBlobs)
      {
        PartOfMore(w.asked[h].blobs, [], old'.pendingBlobs, [a.sidecar]);
        assert [] + old'.pendingBlobs + [a.sidecar] == new'.pendingBlobs;
      }
    }
    hide PartOf;
  }

  lemma {:induction false} BlobsInRuns(c: Crypto, blockTime: nat, me: nat, events: seq<Event>)
    requires InjectiveTxs(c)
    ensures Carried(me, After(c, blockTime, me, events))
    decreases |events|
  {
    if events != [] {
      var front, e := events[..|events| - 1], events[|events| - 1];
      BlobsInRuns(c, blockTime, me, front);
      RunsRecord(c, blockTime, me, front);
      var w := After(c, blockTime, me, front);
      if Enabled(me, w, e) {
        AskedAfter(c, blockTime, me, w, e);
        if e.Sign? {
          SignsNew(c, blockTime, me, front, e.k);
        }
        BlobsByEvent(c, blockTime, me, w, e);
        hide Happened, Carried, Recorded;
      }
    }
  }

  lemma BlobsByEvent(c: Crypto, blockTime: nat, me: nat, w: World, e: Event)
    requires w.chain.miner.blocks != [] && Enabled(me, w, e) && Carried(me, w) && Recorded(c, me, w)
    requires e.Sign? ==> IsNew(w.chain, Signed(me, w.manager.sending[e.k]).tx)
    ensures Carried(me, Happened(c, blockTime, me, w, e))
  {
    match e {
      case Sign(k, ok) => SignCarries(c, blockTime, me, w, k, ok);
      case Stage(n) => StageCarries(c, blockTime, me, w, n);
      case Direct(a) => ActionCarries(c, blockTime, me, w, a);
      case ManagerReorg(to) => ActionCarries(c, blockTime, me, w.(manager := Reorged(w.manager, to)), Reorg(to));
      case _ => OtherCarries(c, blockTime, me, w, e);
    }
  }

  lemma OtherCarries(c: Crypto, blockTime: nat, me: nat, w: World, e: Event)
    requires w.chain.miner.blocks != [] && Enabled(me, w, e) && Carried(me, w)
    requires !e.Sign? && !e.Stage? && !e.Direct? && !e.ManagerReorg?
    ensures Carried(me, Happened(c, blockTime, me, w, e))
  {
    hide PartOf, Txs, StillStaged, Fired;
  }

  /** A transaction of the manager in a block ever mined has the blobs of the call that
      asked for it, in a row and in order, among that block's sidecars. */
  lemma BlobsTravel(c: Crypto, blockTime: nat, me: nat, events: seq<Event>, k: nat, h: Handle, b: Block)
    requires InjectiveTxs(c) && Asks(c, blockTime, me, events, k, h)
    requires var w := After(c, blockTime, me, events);
      h in w.submitted && b in w.chain.mined && w.submitted[h] in b.transactions
    ensures PartOf(events[k].blobs, b.blobSidecars)
  {
    hide After;
    BlobsInRuns(c, blockTime, me, events);
    AskedBy(c, blockTime, me, events, k, h);
  }

  /** The block holds, at the receipt's index, a transaction with this body and signer,
      and the blobs in a row among its sidecars. */
  ghost predicate Delivers(c: Crypto, me: nat, b: Block, r: Receipt, body: nat, blobs: seq<nat>) {
    && r.index < |b.receipts| == |b.transactions| && b.receipts[r.index] == r
    && var t := b.transactions[r.index];
       t.body == body && t.signer == me && r.txHash == c.txHash(t) && PartOf(blobs, b.blobSidecars)
  }

  /** A call answered with a receipt had its own body and its own blobs mined, in one block. */
  lemma ConfirmedAsAsked(c: Crypto, blockTime: nat, me: nat, events: seq<Event>, k: nat, a: Answer)
    requires InjectiveTxs(c) && Asks(c, blockTime, me, events, k, a.handle)
    requires a in After(c, blockTime, me, events).manager.answers && a.response.Included?
    ensures exists b :: b in After(c, blockTime, me, events).chain.mined
                     && Delivers(c, me, b, a.response.receipt, events[k].body, events[k].blobs)
  {
    hide After, PartOf;
    RightReceipt(c, blockTime, me, events, a);
    var w := After(c, blockTime, me, events);
    var b :| b in w.chain.mined && ReceiptOf(c, b, a.response.receipt, w.submitted[a.handle]);
    SubmittedAsAsked(c, blockTime, me, events, k, a.handle);
    BlobsTravel(c, blockTime, me, events, k, a.handle, b);
    assert Delivers(c, me, b, a.response.receipt, events[k].body, events[k].blobs);
  }
}

/** The transaction manager that adapts the simulated L1 for the batcher: what it
    holds, what it answers, and how it shares the miner with everyone else. */
module TxManager {
  import opened Bytes
  import opened L1Miner

  /** One per `send_async` call: the receiving end of its one-shot channel. */
  type Handle = nat

  /** A `send_async` call between its critical sections. */
  datatype Sending = Sending(handle: Handle, body: nat, blobs: seq<nat>, nonce: Option<nat>)

  datatype Pending = Pending(handle: Handle, tx: Tx, blobs: seq<nat>)

  datatype Response = SubmissionFailure | SignFailure | ReorgFailure | Included(receipt: Receipt)

  datatype Answer = Answer(handle: Handle, response: Response)

  /** An L1 head published to the driver, and how many answers had been sent by then. */
  datatype Published = Published(number: nat, answersBefore: nat)

  /** `answers` are the responses sent so far; `dropped` the handles whose responder
      was discarded without one; `heads` the L1 heads published to the driver. */
  datatype Manager = Manager(nextHandle: Handle, sending: seq<Sending>, pending: seq<Pending>, staged: seq<Pending>,
                             nextNonce: nat, failRemaining: nat, answers: seq<Answer>, dropped: seq<Handle>,
                             heads: seq<Published>)

  const NEW_MANAGER := Manager(0, [], [], [], 0, 0, [], [], [])

  // ------------------------------------------------------------------ single steps

  function Without<T>(s: seq<T>, k: nat): seq<T>
    requires k < |s|
  {
    s[..k] + s[k + 1..]
  }

  /** First critical section: either fail at once or go on. */
  function Begun(m: Manager, body: nat, blobs: seq<nat>): Manager {
    if m.failRemaining > 0 then
      m.(nextHandle := m.nextHandle + 1, failRemaining := m.failRemaining - 1,
      answers := m.answers + [Answer(m.nextHandle, SubmissionFailure)])
    else
      m.(nextHandle := m.nextHandle + 1, sending := m.sending + [Sending(m.nextHandle, body, blobs, None)])
  }

  /** Second critical section: take the next nonce. */
  function Allocated(m: Manager, k: nat): Manager
    requires k < |m.sending|
  {
    m.(nextNonce := m.nextNonce + 1, sending := m.sending[k := m.sending[k].(nonce := Some(m.nextNonce))])
  }

  function SignRefused(m: Manager, k: nat): Manager
    requires k < |m.sending|
  {
    m.(sending := Without(m.sending, k), answers := m.answers + [Answer(m.sending[k].handle, SignFailure)])
  }

  function Signed(me: nat, s: Sending): Pending
    requires s.nonce.Some?
  {
    Pending(s.handle, Tx(me, s.nonce.value, s.body), s.blobs)
  }

  /** Third critical section: queue the signed transaction. */
  function Queued(m: Manager, me: nat, k: nat): Manager
    requires k < |m.sending| && m.sending[k].nonce.Some?
  {
    m.(sending := Without(m.sending, k), pending := m.pending + [Signed(me, m.sending[k])])
  }

  function Handles(ps: seq<Pending>): seq<Handle> {
    seq(|ps|, i requires 0 <= i < |ps| => ps[i].handle)
  }

  function DroppedFirst(m: Manager, n: nat): Manager {
    var count := Min(n, |m.pending|);
    m.(pending := m.pending[count..], dropped := m.dropped + Handles(m.pending[..count]))
  }

  function StagedFirst(m: Manager, n: nat): Manager {
    var count := Min(n, |m.pending|);
    m.(pending := m.pending[count..], staged := m.staged + m.pending[..count])
  }

  function Submissions(ps: seq<Pending>): seq<PendingTx> {
    seq(|ps|, i requires 0 <= i < |ps| => PendingTx(ps[i].tx, [], true))
  }

  function BlobsOf(ps: seq<Pending>): seq<nat> {
    if ps == [] then [] else BlobsOf(ps[..|ps| - 1]) + ps[|ps| - 1].blobs
  }

  /** What staging hands to the miner. */
  function MinerWith(l1: Miner, ps: seq<Pending>): Miner {
    l1.(pending := l1.pending + Submissions(ps), pendingBlobs := l1.pendingBlobs + BlobsOf(ps))
  }

  function FindReceipt(rs: seq<Receipt>, txHash: Hash): Option<Receipt> {
    if rs == [] then None
    else if rs[0].txHash == txHash then Some(rs[0])
    else FindReceipt(rs[1..], txHash)
  }

  function StillStaged(c: Crypto, rs: seq<Receipt>, staged: seq<Pending>): seq<Pending> {
    if staged == [] then []
    else
      var p := staged[|staged| - 1];
      StillStaged(c, rs, staged[..|staged| - 1]) + if FindReceipt(rs, c.txHash(p.tx)).None? then [p] else []
  }

  function Fired(c: Crypto, rs: seq<Receipt>, staged: seq<Pending>): seq<Answer> {
    if staged == [] then []
    else
      var p := staged[|staged| - 1];
      Fired(c, rs, staged[..|staged| - 1])
      + match FindReceipt(rs, c.txHash(p.tx)) case None => [] case Some(r) => [Answer(p.handle, Included(r))]
  }

  function Confirmed(c: Crypto, m: Manager, b: Block): Manager {
    var answers := m.answers + Fired(c, b.receipts, m.staged);
    m.(staged := StillStaged(c, b.receipts, m.staged), answers := answers,
    heads := m.heads + [Published(b.header.number, |answers|)])
  }

  function Failures(ps: seq<Pending>): seq<Answer> {
    seq(|ps|, i requires 0 <= i < |ps| => Answer(ps[i].handle, ReorgFailure))
  }

  /** What a reorg through the manager does to it. */
  function Reorged(m: Manager, number: nat): Manager {
    var answers := m.answers + Failures(m.pending + m.staged);
    m.(pending := [], staged := [], answers := answers, heads := m.heads + [Published(number, |answers|)])
  }

  // -------------------------------------------------------------- the manager itself

  class L1MinerTxManager {
    const crypto: Crypto
    const signer: nat
    var nextHandle: Handle
    var pending: seq<Pending>
    var staged: seq<Pending>
    var nextNonce: nat
    var failRemaining: nat
    var answers: seq<Answer>
    var dropped: seq<Handle>
    var heads: seq<Published>

    /** Between whole calls, nothing is half sent. */
    ghost function State(): Manager
      reads this
    {
      Manager(nextHandle, [], pending, staged, nextNonce, failRemaining, answers, dropped, heads)
    }

    constructor (crypto: Crypto, signer: nat)
      ensures State() == NEW_MANAGER && this.crypto == crypto && this.signer == signer
    {
      this.crypto, this.signer := crypto, signer;
      nextHandle, pending, staged, nextNonce, failRemaining, answers, dropped, heads := 0, [], [], 0, 0, [], [], [];
    }

    method FailNextN(n: nat)
      modifies `failRemaining
      ensures failRemaining == old(failRemaining) + n
    {
      failRemaining := failRemaining + n;
    }

    /** An undisturbed call is its three critical sections in a row. */
    method SendAsync(body: nat, blobs: seq<nat>, signs: bool) returns (handle: Handle)
      modifies this
      ensures handle == old(nextHandle)
      ensures var m := Begun(old(State()), body, blobs);
        State() == if m.sending == [] then m
                   else if signs then Queued(Allocated(m, 0), signer, 0) else SignRefused(Allocated(m, 0), 0)
      ensures nextHandle == old(nextHandle) + 1
      ensures staged == old(staged) && dropped == old(dropped) && heads == old(heads)
      ensures old(failRemaining) > 0 ==>
        && failRemaining == old(failRemaining) - 1 && nextNonce == old(nextNonce) && pending == old(pending)
        && answers == old(answers) + [Answer(handle, SubmissionFailure)]
      ensures old(failRemaining) == 0 ==>
        && failRemaining == 0 && nextNonce == old(nextNonce) + 1
        && pending == old(pending) + (if signs then [Pending(handle, Tx(signer, old(nextNonce), body), blobs)] else [])
        && answers == old(answers) + (if signs then [] else [Answer(handle, SignFailure)])
    {
      handle := nextHandle;
      nextHandle := nextHandle + 1;
      if failRemaining > 0 {
        failRemaining := failRemaining - 1;
        answers := answers + [Answer(handle, SubmissionFailure)];
        return;
      }
      var nonce := nextNonce;
      nextNonce := nextNonce + 1;
      if !signs {
        answers := answers + [Answer(handle, SignFailure)];
        return;
      }
      pending := pending + [Pending(handle, Tx(signer, nonce, body), blobs)];
    }

    method DropN(n: nat) returns (count: nat)
      modifies this
      ensures State() == DroppedFirst(old(State()), n) && count == Min(n, |old(pending)|)
      ensures old(pending) == old(pending)[..count] + pending && |dropped| == |old(dropped)| + count
      ensures forall i :: 0 <= i < count ==> dropped[|old(dropped)| + i] == old(pending)[i].handle
      ensures dropped[..|old(dropped)|] == old(dropped) && staged == old(staged) && answers == old(answers)
    {
      count := Min(n, |pending|);
      dropped := dropped + Handles(pending[..count]);
      pending := pending[count..];
    }

    method StageNToL1(l1: L1MinerState, n: nat) returns (count: nat)
      requires l1.Valid()
      modifies this, l1
      ensures l1.Valid() && count == Min(n, |old(pending)|)
      ensures State() == StagedFirst(old(State()), n)
      ensures l1.State() == MinerWith(old(l1.State()), old(pending)[..count])
      ensures old(pending) == old(pending)[..count] + pending && staged == old(staged) + old(pending)[..count]
      ensures answers == old(answers) && dropped == old(dropped) && heads == old(heads)
    {
      count := Min(n, |pending|);
      var toStage := pending[..count];
      pending := pending[count..];
      assert l1.State() == MinerWith(old(l1.State()), toStage[..0]);
      for i := 0 to count
        invariant l1.Valid() && l1.State() == MinerWith(old(l1.State()), toStage[..i])
        invariant State() == old(State()).(pending := old(pending)[count..])
      {
        StageOne(l1, toStage[i]);
        MinerWithSnoc(old(l1.State()), toStage, i);
      }
      assert toStage[..count] == toStage;
      staged := staged + toStage;
    }

    method StageOne(l1: L1MinerState, p: Pending)
      requires l1.Valid()
      modifies l1
      ensures l1.Valid() && l1.State() == MinerWith(old(l1.State()), [p])
      ensures l1.pendingTransactions == old(l1.pendingTransactions) + [PendingTx(p.tx, [], true)]
      ensures l1.pendingBlobs == old(l1.pendingBlobs) + p.blobs
    {
      l1.SubmitTransaction(p.tx, [], true);
      assert p.blobs[..0] == [];
      for j := 0 to |p.blobs|
        invariant l1.Valid()
        invariant l1.State() == old(l1.State()).(pending := old(l1.State()).pending + Submissions([p]),
                                                 pendingBlobs := old(l1.State()).pendingBlobs + p.blobs[..j])
      {
        l1.EnqueueBlob(p.blobs[j]);
        assert p.blobs[..j + 1] == p.blobs[..j] + [p.blobs[j]];
      }
      assert BlobsOf([p]) == p.blobs;
    }

    method ConfirmBlock(block: Block)
      modifies this
      ensures State() == Confirmed(crypto, old(State()), block)
      ensures heads == old(heads) + [Published(block.header.number, |answers|)] && pending == old(pending)
    {
      var all, stillStaged, responses := staged, [], [];
      for i := 0 to |all|
        invariant stillStaged == StillStaged(crypto, block.receipts, all[..i])
        invariant responses == Fired(crypto, block.receipts, all[..i])
        invariant unchanged(this)
      {
        assert all[..i + 1][..i] == all[..i];
        var receipt := Lookup(block.receipts, crypto.txHash(all[i].tx));
        match receipt {
          case Some(r) => responses := responses + [Answer(all[i].handle, Included(r))];
          case None => stillStaged := stillStaged + [all[i]];
        }
      }
      assert all[..|all|] == all;
      staged := stillStaged;
      answers := answers + responses;
      heads := heads + [Published(block.header.number, |answers|)];
    }

    method Lookup(rs: seq<Receipt>, txHash: Hash) returns (r: Option<Receipt>)
      ensures r == FindReceipt(rs, txHash)
    {
      var i := 0;
      assert rs[0..] == rs;
      while i < |rs|
        invariant 0 <= i <= |rs| && FindReceipt(rs, txHash) == FindReceipt(rs[i..], txHash)
      {
        if rs[i].txHash == txHash {
          return Some(rs[i]);
        }
        assert rs[i..][1..] == rs[i + 1..];
        i := i + 1;
      }
      r := None;
    }

    /** Panics, here refused, beyond the tip. */
    method ReorgTo(number: nat, l1: L1MinerState)
      requires l1.Valid() && number < |l1.blocks|
      modifies this, l1
      ensures l1.Valid() && l1.State() == AfterReorg(old(l1.State()), number)
      ensures State() == Reorged(old(State()), number)
      ensures pending == staged == [] && dropped == old(dropped) && nextNonce == old(nextNonce)
      ensures |answers| == |old(answers)| + |old(pending)| + |old(staged)| && answers[..|old(answers)|] == old(answers)
      ensures forall i :: 0 <= i < |old(pending)| + |old(staged)| ==>
        answers[|old(answers)| + i] == Answer((old(pending) + old(staged))[i].handle, ReorgFailure)
      ensures heads == old(heads) + [Published(number, |answers|)]
    {
      var discarded := l1.ReorgTo(number);
      var drained := pending + staged;
      pending, staged := [], [];
      for i := 0 to |drained|
        invariant answers == old(answers) + Failures(drained[..i])
        invariant State() == old(State()).(pending := [], staged := [], answers := answers)
        modifies `answers
      {
        assert Failures(drained[..i + 1]) == Failures(drained[..i]) + [Answer(drained[i].handle, ReorgFailure)];
        answers := answers + [Answer(drained[i].handle, ReorgFailure)];
      }
      assert drained[..|drained|] == drained;
      heads := heads + [Published(number, |answers|)];
    }

    method MineBlock(l1: L1MinerState) returns (number: nat)
      requires l1.Valid()
      modifies this, l1
      ensures l1.Valid() && number == |old(l1.blocks)|
      ensures var m := StagedFirst(old(State()), |old(pending)|);
        var chain := AfterMine(l1.crypto, l1.blockTime, MinerWith(old(l1.State()), old(pending)));
        l1.State() == chain && State() == Confirmed(crypto, m, Tip(chain))
    {
      var count := StageNToL1(l1, |pending|);
      assert old(pending)[..count] == old(pending);
      var block := l1.MineBlock();
      ConfirmBlock(block);
      number := block.header.number;
    }
  }

  lemma MinerWithSnoc(l1: Miner, ps: seq<Pending>, i: nat)
    requires i < |ps|
    ensures MinerWith(MinerWith(l1, ps[..i]), [ps[i]]) == MinerWith(l1, ps[..i + 1])
  {
    assert ps[..i + 1][..i] == ps[..i];
    assert Submissions(ps[..i + 1]) == Submissions(ps[..i]) + Submissions([ps[i]]);
    assert BlobsOf([ps[i]]) == ps[i].blobs;
    var q, s, t := l1.pending, Submissions(ps[..i]), Submissions([ps[i]]);
    assert (q + s) + t == q + (s + t);
    var b, d, e := l1.pendingBlobs, BlobsOf(ps[..i]), ps[i].blobs;
    assert (b + d) + e == b + (d + e);
  }
}

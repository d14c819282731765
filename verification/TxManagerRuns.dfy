/** Every interleaving of senders, the test driving the manager, and others using
    the same miner. */
module TxManagerRuns {
  import opened Bytes
  import opened L1Miner
  import opened TxManager

  /** What a caller of `send_async` hands over. */
  datatype Request = Request(body: nat, blobs: seq<nat>)

  /** `asked` records what each call asked for, as it came in; `submitted` which
      transaction was queued for which handle. */
  datatype World = World(chain: Chain, manager: Manager, submitted: map<Handle, Tx>, asked: map<Handle, Request>)

  const NEW_WORLD := World(NEW_CHAIN, NEW_MANAGER, map[], map[])

  datatype Event =
    | FailNext(n: nat)
    | Begin(body: nat, blobs: seq<nat>)
    | Allocate(k: nat)
    | Sign(k: nat, ok: bool)
    | Drop(n: nat)
    | Stage(n: nat)
    | Confirm(block: Block)
    | ManagerReorg(to: nat)
    | Direct(action: Action)

  /** Only mined blocks are confirmed, and nobody else signs with the manager's key. */
  ghost predicate Enabled(me: nat, w: World, e: Event) {
    var m := w.manager;
    match e
    case Allocate(k) => k < |m.sending| && m.sending[k].nonce.None?
    case Sign(k, _) => k < |m.sending| && m.sending[k].nonce.Some?
    case Confirm(b) => b in w.chain.mined
    case ManagerReorg(to) => to < |w.chain.miner.blocks|
    case Direct(Submit(p)) => p.tx.signer != me
    case _ => true
  }

  ghost function Happened(c: Crypto, blockTime: nat, me: nat, w: World, e: Event): World
    requires w.chain.miner.blocks != [] && Enabled(me, w, e)
  {
    var m := w.manager;
    match e
    case FailNext(n) => w.(manager := m.(failRemaining := m.failRemaining + n))
    case Begin(body, blobs) =>
      w.(manager := Begun(m, body, blobs), asked := w.asked[m.nextHandle := Request(body, blobs)])
    case Allocate(k) => w.(manager := Allocated(m, k))
    case Sign(k, ok) =>
      if ok then
        var p := Signed(me, m.sending[k]);
        w.(manager := Queued(m, me, k), submitted := w.submitted[p.handle := p.tx])
      else w.(manager := SignRefused(m, k))
    case Drop(n) => w.(manager := DroppedFirst(m, n))
    case Stage(n) =>
      w.(manager := StagedFirst(m, n),
      chain := w.chain.(miner := MinerWith(w.chain.miner, m.pending[..Min(n, |m.pending|)])))
    case Confirm(b) => w.(manager := Confirmed(c, m, b))
    case ManagerReorg(to) => w.(manager := Reorged(m, to), chain := Acted(c, blockTime, w.chain, Reorg(to)))
    case Direct(a) => w.(chain := Acted(c, blockTime, w.chain, a))
  }

  /** The world after the events, where one that cannot happen changes nothing. */
  ghost function After(c: Crypto, blockTime: nat, me: nat, events: seq<Event>): (w: World)
    ensures w.chain.miner.blocks != []
    decreases |events|
  {
    if events == [] then NEW_WORLD
    else
      var w := After(c, blockTime, me, events[..|events| - 1]);
      var e := events[|events| - 1];
      if Enabled(me, w, e) then Happened(c, blockTime, me, w, e) else w
  }

  lemma AfterSnoc(c: Crypto, blockTime: nat, me: nat, events: seq<Event>, e: Event)
    requires Enabled(me, After(c, blockTime, me, events), e)
    ensures After(c, blockTime, me, events + [e]) == Happened(c, blockTime, me, After(c, blockTime, me, events), e)
  {
    assert (events + [e])[..|events|] == events;
  }

  lemma SkippedSnoc(c: Crypto, blockTime: nat, me: nat, events: seq<Event>, e: Event)
    requires !Enabled(me, After(c, blockTime, me, events), e)
    ensures After(c, blockTime, me, events + [e]) == After(c, blockTime, me, events)
  {
    assert (events + [e])[..|events|] == events;
  }

  // ------------------------------------------------- no handle is lost or answered twice

  function Count<T(==)>(s: seq<T>, x: T): nat {
    if s == [] then 0 else Count(s[..|s| - 1], x) + if s[|s| - 1] == x then 1 else 0
  }

  lemma {:induction false} CountConcat<T>(a: seq<T>, b: seq<T>, x: T)
    ensures Count(a + b, x) == Count(a, x) + Count(b, x)
  {
    if b == [] {
      assert a + b == a;
    } else {
      CountConcat(a, b[..|b| - 1], x);
      assert (a + b)[..|a + b| - 1] == a + b[..|b| - 1];
    }
  }

  lemma {:induction false} CountsMembers<T>(s: seq<T>, x: T)
    ensures x in s <==> Count(s, x) > 0
  {
    if s != [] {
      CountsMembers(s[..|s| - 1], x);
      assert s == s[..|s| - 1] + [s[|s| - 1]];
    }
  }

  function SendingHandles(ss: seq<Sending>): seq<Handle> {
    seq(|ss|, i requires 0 <= i < |ss| => ss[i].handle)
  }

  function Answered(answers: seq<Answer>): seq<Handle> {
    seq(|answers|, i requires 0 <= i < |answers| => answers[i].handle)
  }

  /** How often a handle is among those being sent, pending, staged, answered and
      dropped. */
  function Places(m: Manager, h: Handle): nat {
    Count(SendingHandles(m.sending), h) + Count(Handles(m.pending), h) + Count(Handles(m.staged), h)
    + Count(Answered(m.answers), h) + Count(m.dropped, h)
  }

  lemma AnsweredConcat(a: seq<Answer>, b: seq<Answer>, h: Handle)
    ensures Count(Answered(a + b), h) == Count(Answered(a), h) + Count(Answered(b), h)
  {
    assert Answered(a + b) == Answered(a) + Answered(b);
    CountConcat(Answered(a), Answered(b), h);
  }

  lemma HandlesConcat(a: seq<Pending>, b: seq<Pending>, h: Handle)
    ensures Count(Handles(a + b), h) == Count(Handles(a), h) + Count(Handles(b), h)
  {
    assert Handles(a + b) == Handles(a) + Handles(b);
    CountConcat(Handles(a), Handles(b), h);
  }

  lemma SendingConcat(a: seq<Sending>, b: seq<Sending>, h: Handle)
    ensures Count(SendingHandles(a + b), h) == Count(SendingHandles(a), h) + Count(SendingHandles(b), h)
  {
    assert SendingHandles(a + b) == SendingHandles(a) + SendingHandles(b);
    CountConcat(SendingHandles(a), SendingHandles(b), h);
  }

  function One(b: bool): nat { if b then 1 else 0 }

  lemma OfOne(h: Handle, p: Pending, a: Answer, s: Sending)
    ensures Count(Handles([p]), h) == One(p.handle == h)
    ensures Count(Answered([a]), h) == One(a.handle == h)
    ensures Count(SendingHandles([s]), h) == One(s.handle == h)
  {
    assert Handles([p]) == [p.handle] && Answered([a]) == [a.handle] && SendingHandles([s]) == [s.handle];
    assert forall x: Handle :: [x][..0] == [];
  }

  lemma SendingWithout(ss: seq<Sending>, k: nat, h: Handle)
    requires k < |ss|
    ensures Count(SendingHandles(ss), h) == Count(SendingHandles(Without(ss, k)), h) + One(ss[k].handle == h)
  {
    assert ss == ss[..k] + ([ss[k]] + ss[k + 1..]);
    SendingConcat(ss[..k], [ss[k]] + ss[k + 1..], h);
    SendingConcat([ss[k]], ss[k + 1..], h);
    SendingConcat(ss[..k], ss[k + 1..], h);
    OfOne(h, Pending(0, Tx(0, 0, 0), []), Answer(0, SignFailure), ss[k]);
  }

  lemma {:induction false} ConfirmSplits(c: Crypto, rs: seq<Receipt>, staged: seq<Pending>, h: Handle)
    ensures Count(Handles(staged), h)
         == Count(Handles(StillStaged(c, rs, staged)), h) + Count(Answered(Fired(c, rs, staged)), h)
  {
    if staged != [] {
      var front, p := staged[..|staged| - 1], staged[|staged| - 1];
      ConfirmSplits(c, rs, front, h);
      assert staged == front + [p];
      HandlesConcat(front, [p], h);
      match FindReceipt(rs, c.txHash(p.tx)) {
        case Some(r) =>
          var a := Answer(p.handle, Included(r));
          AnsweredConcat(Fired(c, rs, front), [a], h);
          OfOne(h, p, a, Sending(0, 0, [], None));
          assert StillStaged(c, rs, staged) == StillStaged(c, rs, front);
        case None =>
          HandlesConcat(StillStaged(c, rs, front), [p], h);
          assert Fired(c, rs, staged) == Fired(c, rs, front);
      }
    }
  }

  lemma BeginPlaces(m: Manager, body: nat, blobs: seq<nat>, h: Handle)
    ensures Places(Begun(m, body, blobs), h) == Places(m, h) + One(h == m.nextHandle)
  {
    var a, s := Answer(m.nextHandle, SubmissionFailure), Sending(m.nextHandle, body, blobs, None);
    OfOne(h, Pending(0, Tx(0, 0, 0), []), a, s);
    AnsweredConcat(m.answers, [a], h);
    SendingConcat(m.sending, [s], h);
  }

  lemma SignPlaces(m: Manager, me: nat, k: nat, h: Handle)
    requires k < |m.sending| && m.sending[k].nonce.Some?
    ensures Places(Queued(m, me, k), h) == Places(m, h) == Places(SignRefused(m, k), h)
  {
    var p, a := Signed(me, m.sending[k]), Answer(m.sending[k].handle, SignFailure);
    OfOne(h, p, a, m.sending[k]);
    SendingWithout(m.sending, k, h);
    HandlesConcat(m.pending, [p], h);
    AnsweredConcat(m.answers, [a], h);
  }

  lemma TakePlaces(m: Manager, n: nat, h: Handle)
    ensures Places(DroppedFirst(m, n), h) == Places(m, h) == Places(StagedFirst(m, n), h)
  {
    var count := Min(n, |m.pending|);
    assert m.pending == m.pending[..count] + m.pending[count..];
    HandlesConcat(m.pending[..count], m.pending[count..], h);
    HandlesConcat(m.staged, m.pending[..count], h);
    CountConcat(m.dropped, Handles(m.pending[..count]), h);
  }

  lemma ReorgPlaces(m: Manager, number: nat, h: Handle)
    ensures Places(Reorged(m, number), h) == Places(m, h)
  {
    HandlesConcat(m.pending, m.staged, h);
    AnsweredConcat(m.answers, Failures(m.pending + m.staged), h);
    assert Answered(Failures(m.pending + m.staged)) == Handles(m.pending + m.staged);
  }

  lemma ConfirmPlaces(c: Crypto, m: Manager, b: Block, h: Handle)
    ensures Places(Confirmed(c, m, b), h) == Places(m, h)
  {
    ConfirmSplits(c, b.receipts, m.staged, h);
    AnsweredConcat(m.answers, Fired(c, b.receipts, m.staged), h);
  }

  lemma SamePlaces(m: Manager, k: nat, n: nat, h: Handle)
    ensures k < |m.sending| ==> Places(Allocated(m, k), h) == Places(m, h)
    ensures Places(m.(failRemaining := m.failRemaining + n), h) == Places(m, h)
  {
    hide Count;
    if k < |m.sending| {
      assert SendingHandles(Allocated(m, k).sending) == SendingHandles(m.sending);
    }
  }

  /** A step moves handles between places; only `Begin` adds one, the next. */
  lemma PlacesAfter(c: Crypto, blockTime: nat, me: nat, w: World, e: Event, h: Handle)
    requires w.chain.miner.blocks != [] && Enabled(me, w, e)
    ensures var m, m' := w.manager, Happened(c, blockTime, me, w, e).manager;
      && Places(m', h) == Places(m, h) + One(e.Begin? && h == m.nextHandle)
      && m'.nextHandle == m.nextHandle + One(e.Begin?)
  {
    hide Places;
    var m := w.manager;
    match e {
      case Begin(body, blobs) => BeginPlaces(m, body, blobs, h);
      case FailNext(n) => SamePlaces(m, 0, n, h);
      case Allocate(k) => SamePlaces(m, k, 0, h);
      case Sign(k, ok) => SignPlaces(m, me, k, h);
      case Drop(n) => TakePlaces(m, n, h);
      case Stage(n) => TakePlaces(m, n, h);
      case Confirm(b) => ConfirmPlaces(c, m, b, h);
      case ManagerReorg(to) => ReorgPlaces(m, to, h);
      case _ =>
    }
  }

  /** In every run each issued handle is in exactly one place, so none is lost and
      none is answered twice. */
  lemma {:induction false} HandlesAreConserved(c: Crypto, blockTime: nat, me: nat, events: seq<Event>, h: Handle)
    ensures var m := After(c, blockTime, me, events).manager;
      Places(m, h) == if h < m.nextHandle then 1 else 0
    decreases |events|
  {
    if events != [] {
      HandlesAreConserved(c, blockTime, me, events[..|events| - 1], h);
      var w, e := After(c, blockTime, me, events[..|events| - 1]), events[|events| - 1];
      if Enabled(me, w, e) {
        PlacesAfter(c, blockTime, me, w, e, h);
      }
    }
  }

  /** After a reorg through the manager, the only handles without an answer are
      those still being sent and those dropped earlier. */
  lemma ReorgAnswersEverything(c: Crypto, blockTime: nat, me: nat, events: seq<Event>, to: nat, h: Handle)
    requires var w := After(c, blockTime, me, events);
      to < |w.chain.miner.blocks| && h < w.manager.nextHandle
    ensures var m := After(c, blockTime, me, events + [ManagerReorg(to)]).manager;
      h in Answered(m.answers) <==> h !in SendingHandles(m.sending) && h !in m.dropped
  {
    var all := events + [ManagerReorg(to)];
    assert all[..|all| - 1] == events;
    HandlesAreConserved(c, blockTime, me, all, h);
    var m := After(c, blockTime, me, all).manager;
    CountsMembers(Answered(m.answers), h);
    CountsMembers(SendingHandles(m.sending), h);
    CountsMembers(m.dropped, h);
  }

  // ------------------------------------------------------------- no nonce is used twice

  /** How many of the transactions the manager's key signed with nonce `n`. */
  function Uses(me: nat, txs: seq<Tx>, n: nat): nat {
    if txs == [] then 0
    else
      var t := txs[|txs| - 1];
      Uses(me, txs[..|txs| - 1], n) + One(t.signer == me && t.nonce == n)
  }

  function UsesSending(ss: seq<Sending>, n: nat): nat {
    if ss == [] then 0 else UsesSending(ss[..|ss| - 1], n) + One(ss[|ss| - 1].nonce == Some(n))
  }

  function UsesMined(me: nat, blocks: seq<Block>, n: nat): nat {
    if blocks == [] then 0
    else UsesMined(me, blocks[..|blocks| - 1], n) + Uses(me, blocks[|blocks| - 1].transactions, n)
  }

  function PendingTxs(ps: seq<Pending>): seq<Tx> {
    seq(|ps|, i requires 0 <= i < |ps| => ps[i].tx)
  }

  /** Uses of a nonce of the manager's key: being signed, queued here, queued at
      the miner, or in a block ever mined. */
  function NonceUses(me: nat, w: World, n: nat): nat {
    UsesSending(w.manager.sending, n) + Uses(me, PendingTxs(w.manager.pending), n)
    + Uses(me, Txs(w.chain.miner.pending), n) + UsesMined(me, w.chain.mined, n)
  }

  lemma {:induction false} UsesConcat(me: nat, a: seq<Tx>, b: seq<Tx>, n: nat)
    ensures Uses(me, a + b, n) == Uses(me, a, n) + Uses(me, b, n)
  {
    if b == [] {
      assert a + b == a;
    } else {
      UsesConcat(me, a, b[..|b| - 1], n);
      assert (a + b)[..|a + b| - 1] == a + b[..|b| - 1];
    }
  }

  lemma {:induction false} UsesSendingConcat(a: seq<Sending>, b: seq<Sending>, n: nat)
    ensures UsesSending(a + b, n) == UsesSending(a, n) + UsesSending(b, n)
  {
    if b == [] {
      assert a + b == a;
    } else {
      UsesSendingConcat(a, b[..|b| - 1], n);
      assert (a + b)[..|a + b| - 1] == a + b[..|b| - 1];
    }
  }

  lemma UsesAround(ss: seq<Sending>, k: nat, s: Sending, n: nat)
    requires k < |ss|
    ensures UsesSending(ss[k := s], n) == UsesSending(Without(ss, k), n) + One(s.nonce == Some(n))
  {
    assert ss[k := s] == ss[..k] + ([s] + ss[k + 1..]);
    UsesSendingConcat(ss[..k], [s] + ss[k + 1..], n);
    UsesSendingConcat([s], ss[k + 1..], n);
    UsesSendingConcat(ss[..k], ss[k + 1..], n);
    assert [s][..0] == [];
  }

  lemma TakeUses(me: nat, ps: seq<Pending>, count: nat, n: nat)
    requires count <= |ps|
    ensures Uses(me, PendingTxs(ps), n) == Uses(me, PendingTxs(ps[..count]), n) + Uses(me, PendingTxs(ps[count..]), n)
  {
    assert PendingTxs(ps) == PendingTxs(ps[..count]) + PendingTxs(ps[count..]);
    UsesConcat(me, PendingTxs(ps[..count]), PendingTxs(ps[count..]), n);
  }

  lemma StageUses(me: nat, l1: Miner, ps: seq<Pending>, count: nat, n: nat)
    requires count <= |ps|
    ensures Uses(me, PendingTxs(ps[count..]), n) + Uses(me, Txs(MinerWith(l1, ps[..count]).pending), n)
         == Uses(me, PendingTxs(ps), n) + Uses(me, Txs(l1.pending), n)
  {
    TakeUses(me, ps, count, n);
    assert Txs(MinerWith(l1, ps[..count]).pending) == Txs(l1.pending) + PendingTxs(ps[..count]);
    UsesConcat(me, Txs(l1.pending), PendingTxs(ps[..count]), n);
  }

  lemma SignUses(m: Manager, me: nat, k: nat, n: nat)
    requires k < |m.sending| && m.sending[k].nonce.Some?
    ensures var q := Queued(m, me, k);
      UsesSending(q.sending, n) + Uses(me, PendingTxs(q.pending), n)
      == UsesSending(m.sending, n) + Uses(me, PendingTxs(m.pending), n)
    ensures UsesSending(Without(m.sending, k), n) <= UsesSending(m.sending, n)
  {
    var s, p := m.sending[k], Signed(me, m.sending[k]);
    assert m.sending[k := s] == m.sending;
    UsesAround(m.sending, k, s, n);
    assert PendingTxs(m.pending + [p]) == PendingTxs(m.pending) + [p.tx];
    assert (PendingTxs(m.pending) + [p.tx])[..|m.pending|] == PendingTxs(m.pending);
  }

  lemma AllocateUses(m: Manager, k: nat, n: nat)
    requires k < |m.sending| && m.sending[k].nonce.None?
    ensures UsesSending(Allocated(m, k).sending, n) == UsesSending(m.sending, n) + One(n == m.nextNonce)
  {
    var s := m.sending[k];
    assert m.sending[k := s] == m.sending;
    UsesAround(m.sending, k, s, n);
    UsesAround(m.sending, k, s.(nonce := Some(m.nextNonce)), n);
  }

  lemma ActionUses(c: Crypto, blockTime: nat, me: nat, s: Chain, a: Action, n: nat)
    requires s.miner.blocks != []
    requires a.Submit? ==> a.p.tx.signer != me
    ensures var t := Acted(c, blockTime, s, a);
      Uses(me, Txs(t.miner.pending), n) + UsesMined(me, t.mined, n)
      == Uses(me, Txs(s.miner.pending), n) + UsesMined(me, s.mined, n)
  {
    if a.Submit? {
      assert Txs(s.miner.pending + [a.p]) == Txs(s.miner.pending) + [a.p.tx];
      assert (Txs(s.miner.pending) + [a.p.tx])[..|s.miner.pending|] == Txs(s.miner.pending);
    }
    if a.Mine? {
      var b := NextBlock(c, blockTime, s.miner);
      assert (s.mined + [b])[..|s.mined|] == s.mined;
    }
  }

  /** Only `Allocate` brings a nonce into use, the next one. */
  lemma UsesAfter(c: Crypto, blockTime: nat, me: nat, w: World, e: Event, n: nat)
    requires w.chain.miner.blocks != [] && Enabled(me, w, e)
    ensures var w' := Happened(c, blockTime, me, w, e);
      && NonceUses(me, w', n) <= NonceUses(me, w, n) + One(e.Allocate? && n == w.manager.nextNonce)
      && w'.manager.nextNonce == w.manager.nextNonce + One(e.Allocate?)
  {
    var m := w.manager;
    match e {
      case Begin(body, blobs) =>
        var s := Sending(m.nextHandle, body, blobs, None);
        assert (m.sending + [s])[..|m.sending|] == m.sending;
      case Allocate(k) => AllocateUses(m, k, n);
      case Sign(k, ok) => SignUses(m, me, k, n);
      case Drop(d) => TakeUses(me, m.pending, Min(d, |m.pending|), n);
      case Stage(d) => StageUses(me, w.chain.miner, m.pending, Min(d, |m.pending|), n);
      case Direct(a) => ActionUses(c, blockTime, me, w.chain, a, n);
      case ManagerReorg(to) => ActionUses(c, blockTime, me, w.chain, Reorg(to), n);
      case _ =>
    }
  }

  /** In every run no nonce of the manager is in two places at once, nor twice in
      the blocks ever mined, discarded ones included. */
  lemma {:induction false} NoncesAreUsedOnce(c: Crypto, blockTime: nat, me: nat, events: seq<Event>, n: nat)
    ensures var w := After(c, blockTime, me, events);
      NonceUses(me, w, n) <= if n < w.manager.nextNonce then 1 else 0
    decreases |events|
  {
    if events != [] {
      NoncesAreUsedOnce(c, blockTime, me, events[..|events| - 1], n);
      var w, e := After(c, blockTime, me, events[..|events| - 1]), events[|events| - 1];
      if Enabled(me, w, e) {
        UsesAfter(c, blockTime, me, w, e, n);
      }
    }
  }

  // ------------------------------------------------- what is submitted was asked for

  /** Calls in progress, queued transactions and submitted ones hold what was asked for
      under their handles. */
  ghost predicate AsAsked(me: nat, w: World) {
    && (forall h :: h in w.asked ==> h < w.manager.nextHandle)
    && (forall s :: s in w.manager.sending ==>
         s.handle in w.asked && w.asked[s.handle] == Request(s.body, s.blobs))
    && (forall p :: p in w.manager.pending ==>
         p.handle in w.asked && w.asked[p.handle] == Request(p.tx.body, p.blobs))
    && (forall h :: h in w.submitted ==>
         h in w.asked && w.submitted[h].body == w.asked[h].body && w.submitted[h].signer == me)
  }

  lemma SignAsAsked(c: Crypto, blockTime: nat, me: nat, w: World, k: nat, ok: bool)
    requires w.chain.miner.blocks != [] && Enabled(me, w, Sign(k, ok)) && AsAsked(me, w)
    ensures AsAsked(me, Happened(c, blockTime, me, w, Sign(k, ok)))
  {
    assert w.manager.sending[k] in w.manager.sending;
    assert forall s :: s in Without(w.manager.sending, k) ==> s in w.manager.sending;
  }

  lemma AllocateAsAsked(c: Crypto, blockTime: nat, me: nat, w: World, k: nat)
    requires w.chain.miner.blocks != [] && Enabled(me, w, Allocate(k)) && AsAsked(me, w)
    ensures AsAsked(me, Happened(c, blockTime, me, w, Allocate(k)))
  {
    assert w.manager.sending[k] in w.manager.sending;
  }

  lemma QueueAsAsked(me: nat, w: World, n: nat)
    requires AsAsked(me, w)
    ensures AsAsked(me, w.(manager := DroppedFirst(w.manager, n)))
    ensures AsAsked(me, w.(manager := StagedFirst(w.manager, n)))
  {
  }

  lemma BeginAsAsked(c: Crypto, blockTime: nat, me: nat, w: World, body: nat, blobs: seq<nat>)
    requires w.chain.miner.blocks != [] && AsAsked(me, w)
    ensures AsAsked(me, Happened(c, blockTime, me, w, Begin(body, blobs)))
  {
  }

  /** A step keeps what was asked for, and everything asked for before it. */
  lemma AskedAfter(c: Crypto, blockTime: nat, me: nat, w: World, e: Event)
    requires w.chain.miner.blocks != [] && Enabled(me, w, e) && AsAsked(me, w)
    ensures var w' := Happened(c, blockTime, me, w, e);
      AsAsked(me, w') && forall h :: h in w.asked ==> h in w'.asked && w'.asked[h] == w.asked[h]
  {
    hide Acted, MinerWith, StillStaged, Fired, Failures, Begun, Allocated, Queued, SignRefused, DroppedFirst, StagedFirst;
    match e {
      case Sign(k, ok) => SignAsAsked(c, blockTime, me, w, k, ok);
      case Allocate(k) => AllocateAsAsked(c, blockTime, me, w, k);
      case Begin(body, blobs) => BeginAsAsked(c, blockTime, me, w, body, blobs);
      case Drop(n) => QueueAsAsked(me, w, n);
      case Stage(n) => QueueAsAsked(me, w, n);
      case _ =>
    }
  }

  lemma {:induction false} RunsAsAsked(c: Crypto, blockTime: nat, me: nat, events: seq<Event>)
    ensures AsAsked(me, After(c, blockTime, me, events))
    decreases |events|
  {
    if events != [] {
      RunsAsAsked(c, blockTime, me, events[..|events| - 1]);
      var w, e := After(c, blockTime, me, events[..|events| - 1]), events[|events| - 1];
      hide AsAsked, Happened;
      if Enabled(me, w, e) {
        AskedAfter(c, blockTime, me, w, e);
      }
    }
  }

  /** Event `k` is the call that was given the handle `h`. */
  ghost predicate Asks(c: Crypto, blockTime: nat, me: nat, events: seq<Event>, k: nat, h: Handle) {
    k < |events| && events[k].Begin? && After(c, blockTime, me, events[..k]).manager.nextHandle == h
  }

  lemma {:induction false} AskedBy(c: Crypto, blockTime: nat, me: nat, events: seq<Event>, k: nat, h: Handle)
    requires Asks(c, blockTime, me, events, k, h)
    ensures var asked := After(c, blockTime, me, events).asked;
      h in asked && asked[h] == Request(events[k].body, events[k].blobs)
    decreases |events|
  {
    var front, e := events[..|events| - 1], events[|events| - 1];
    var w := After(c, blockTime, me, front);
    if k < |front| {
      assert front[..k] == events[..k];
      AskedBy(c, blockTime, me, front, k, h);
      RunsAsAsked(c, blockTime, me, front);
      hide AsAsked, Happened;
      if Enabled(me, w, e) {
        AskedAfter(c, blockTime, me, w, e);
      }
    }
  }

  /** Every handle was given to exactly the call that asked for it. */
  lemma {:induction false} IssuedByACall(c: Crypto, blockTime: nat, me: nat, events: seq<Event>, h: Handle) returns (k: nat)
    requires h < After(c, blockTime, me, events).manager.nextHandle
    ensures Asks(c, blockTime, me, events, k, h)
    decreases |events|
  {
    var front, e := events[..|events| - 1], events[|events| - 1];
    var w := After(c, blockTime, me, front);
    if h < w.manager.nextHandle {
      k := IssuedByACall(c, blockTime, me, front, h);
      assert front[..k] == events[..k];
    } else {
      if Enabled(me, w, e) {
        PlacesAfter(c, blockTime, me, w, e, h);
      }
      k := |front|;
    }
  }

  /** In every run the transaction queued for a call has the body of that call and the
      manager's signature. */
  lemma SubmittedAsAsked(c: Crypto, blockTime: nat, me: nat, events: seq<Event>, k: nat, h: Handle)
    requires Asks(c, blockTime, me, events, k, h)
    requires h in After(c, blockTime, me, events).submitted
    ensures var t := After(c, blockTime, me, events).submitted[h];
      t.body == events[k].body && t.signer == me
  {
    hide After;
    AskedBy(c, blockTime, me, events, k, h);
    RunsAsAsked(c, blockTime, me, events);
  }

  /** So do the blobs and the transaction waiting in the manager's queue. */
  lemma PendingAsAsked(c: Crypto, blockTime: nat, me: nat, events: seq<Event>, k: nat, p: Pending)
    requires p in After(c, blockTime, me, events).manager.pending
    requires Asks(c, blockTime, me, events, k, p.handle)
    ensures p.tx.body == events[k].body && p.blobs == events[k].blobs
  {
    hide After;
    AskedBy(c, blockTime, me, events, k, p.handle);
    RunsAsAsked(c, blockTime, me, events);
  }
}

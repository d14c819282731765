/** The rollup node's head pointers, driven by derivation, gossip, L1 signals and
    resets. */
module Node {
  import opened Bytes
  import opened L2Chain

  /** Attributes the pipeline derived on top of the safe head it was stepped with,
      with the L1 origin in their first deposit, if it decodes, and the L1 block they
      were derived from. */
  datatype Attributes = Attributes(timestamp: nat, deposit: Option<Origin>, derivedFrom: Option<Origin>)

  /** A gossiped block; `deposit` is the origin in its first transaction. */
  datatype Gossip = Gossip(number: nat, timestamp: nat, parentHash: Hash, hash: Hash, deposit: Option<Origin>)

  datatype Safe = Safe(head: L2Head, originNumber: nat)

  datatype Heads = Heads(safe: L2Head, unsafeHead: L2Head, finalized: L2Head, history: seq<Safe>,
                         finalizedL1: nat, safeL1: nat)

  const DEFAULT_ORIGIN := Origin(0, 0)

  function NextSeqNum(head: L2Head, origin: Origin): nat {
    if origin == head.origin then head.seqNum + 1 else 0
  }

  function OriginOf(a: Attributes): Origin {
    match a.deposit case Some(o) => o case None => match a.derivedFrom case Some(o) => o case None => DEFAULT_ORIGIN
  }

  /** The safe block the engine made from the attributes. */
  function Derived(safe: L2Head, a: Attributes, hash: Hash): L2Head {
    L2Head(safe.number + 1, a.timestamp, safe.hash, hash, OriginOf(a), NextSeqNum(safe, OriginOf(a)))
  }

  function AfterDerivation(s: Heads, a: Attributes, hash: Hash): Heads {
    var head := Derived(s.safe, a, hash);
    s.(safe := head, history := s.history + [Safe(head, head.origin.number)],
    unsafeHead := if head.number >= s.unsafeHead.number then head else s.unsafeHead)
  }

  /** Only the next number is taken. An undecodable deposit counts as the default
      origin with sequence number 0. */
  function AfterGossip(s: Heads, g: Gossip): Heads {
    if g.number != s.unsafeHead.number + 1 then s
    else
      var seqNum := match g.deposit case Some(o) => NextSeqNum(s.unsafeHead, o) case None => 0;
      var origin := match g.deposit case Some(o) => o case None => DEFAULT_ORIGIN;
      s.(unsafeHead := L2Head(g.number, g.timestamp, g.parentHash, g.hash, origin, seqNum))
  }

  function AfterAllGossip(s: Heads, gs: seq<Gossip>): Heads {
    if gs == [] then s else AfterGossip(AfterAllGossip(s, gs[..|gs| - 1]), gs[|gs| - 1])
  }

  /** The latest safe block whose origin is at or below `l1`. */
  function LastUpTo(history: seq<Safe>, l1: nat): Option<L2Head> {
    if history == [] then None
    else
      var last := history[|history| - 1];
      if last.originNumber <= l1 then Some(last.head) else LastUpTo(history[..|history| - 1], l1)
  }

  function AfterFinality(s: Heads, l1: nat): Heads {
    var t := s.(finalizedL1 := l1);
    match LastUpTo(s.history, l1)
    case Some(head) => if head.number > s.finalized.number then t.(finalized := head) else t
    case None => t
  }

  function AfterReset(head: L2Head): Heads { Heads(head, head, head, [], 0, 0) }

  /** The block holds the attributes: its origin is the one in the deposit, failing that
      the L1 block they were derived from, failing that block 0. */
  ghost predicate MadeFrom(head: L2Head, a: Attributes, hash: Hash) {
    && head.hash == hash && head.timestamp == a.timestamp
    && (a.deposit.Some? ==> head.origin == a.deposit.value)
    && (a.deposit.None? && a.derivedFrom.Some? ==> head.origin == a.derivedFrom.value)
    && (a.deposit.None? && a.derivedFrom.None? ==> head.origin == Origin(0, 0))
  }

  /** What one gossiped block does to the unsafe head. */
  ghost predicate Receives(before: L2Head, g: Gossip, after: L2Head) {
    if g.number != before.number + 1 then after == before
    else
      && after.number == g.number && after.timestamp == g.timestamp
      && after.parentHash == g.parentHash && after.hash == g.hash
      && (g.deposit.None? ==> after.origin == Origin(0, 0) && after.seqNum == 0)
      && (g.deposit.Some? ==> after.origin == g.deposit.value)
      && (g.deposit.Some? ==> after.seqNum == if g.deposit.value == before.origin then before.seqNum + 1 else 0)
  }

  class TestRollupNode {
    var safeHead: L2Head
    var unsafeHead: L2Head
    var finalizedHead: L2Head
    var safeHeadHistory: seq<Safe>
    var finalizedL1Number: nat
    var safeL1Number: nat

    ghost function State(): Heads
      reads this
    {
      Heads(safeHead, unsafeHead, finalizedHead, safeHeadHistory, finalizedL1Number, safeL1Number)
    }

    constructor (head: L2Head)
      ensures State() == AfterReset(head)
    {
      safeHead, unsafeHead, finalizedHead := head, head, head;
      safeHeadHistory, finalizedL1Number, safeL1Number := [], 0, 0;
    }

    method ExecuteAndAdvance(a: Attributes, hash: Hash)
      modifies this
      ensures State() == AfterDerivation(old(State()), a, hash)
      ensures safeHead.number == old(safeHead).number + 1 && safeHead.parentHash == old(safeHead).hash
      ensures MadeFrom(safeHead, a, hash)
      ensures safeHead.seqNum == if safeHead.origin == old(safeHead).origin then old(safeHead).seqNum + 1 else 0
      ensures safeHeadHistory == old(safeHeadHistory) + [Safe(safeHead, safeHead.origin.number)]
      ensures unsafeHead == if safeHead.number >= old(unsafeHead).number then safeHead else old(unsafeHead)
      ensures finalizedHead == old(finalizedHead)
    {
      var parentHash, number := safeHead.hash, safeHead.number + 1;
      var origin := if a.deposit.Some? then a.deposit.value
                    else if a.derivedFrom.Some? then a.derivedFrom.value else DEFAULT_ORIGIN;
      var seqNum := if origin == safeHead.origin then safeHead.seqNum + 1 else 0;
      safeHead := L2Head(number, a.timestamp, parentHash, hash, origin, seqNum);
      safeHeadHistory := safeHeadHistory + [Safe(safeHead, origin.number)];
      if safeHead.number >= unsafeHead.number {
        unsafeHead := safeHead;
      }
    }

    method DrainGossip(queue: seq<Gossip>)
      modifies `unsafeHead
      ensures State() == AfterAllGossip(old(State()), queue)
    {
      for i := 0 to |queue|
        invariant State() == AfterAllGossip(old(State()), queue[..i])
      {
        assert queue[..i + 1][..i] == queue[..i];
        var g := queue[i];
        if g.number != unsafeHead.number + 1 {
          continue;
        }
        var seqNum := 0;
        if g.deposit.Some? && g.deposit.value == unsafeHead.origin {
          seqNum := unsafeHead.seqNum + 1;
        }
        var origin := if g.deposit.Some? then g.deposit.value else DEFAULT_ORIGIN;
        unsafeHead := L2Head(g.number, g.timestamp, g.parentHash, g.hash, origin, seqNum);
      }
      assert queue[..|queue|] == queue;
    }

    /** Panics, here refused, on a next block without a decodable deposit. */
    method ActL2UnsafeGossipReceive(g: Gossip)
      requires g.number == unsafeHead.number + 1 ==> g.deposit.Some?
      modifies `unsafeHead
      ensures State() == AfterGossip(old(State()), g)
      ensures Receives(old(unsafeHead), g, unsafeHead)
    {
      if g.number != unsafeHead.number + 1 {
        return;
      }
      var origin := g.deposit.value;
      var seqNum := if origin == unsafeHead.origin then unsafeHead.seqNum + 1 else 0;
      unsafeHead := L2Head(g.number, g.timestamp, g.parentHash, g.hash, origin, seqNum);
    }

    method ActL1SafeSignal(l1: nat)
      modifies `safeL1Number
      ensures safeL1Number == l1
    {
      safeL1Number := l1;
    }

    /** Scans the history from its end. */
    method ActL1FinalizedSignal(l1: nat)
      modifies `finalizedHead, `finalizedL1Number
      ensures State() == AfterFinality(old(State()), l1) && finalizedL1Number == l1
    {
      finalizedL1Number := l1;
      var i := |safeHeadHistory|;
      assert safeHeadHistory[..i] == safeHeadHistory;
      while i > 0 && safeHeadHistory[i - 1].originNumber > l1
        invariant 0 <= i <= |safeHeadHistory|
        invariant LastUpTo(safeHeadHistory, l1) == LastUpTo(safeHeadHistory[..i], l1)
      {
        assert safeHeadHistory[..i][..i - 1] == safeHeadHistory[..i - 1];
        i := i - 1;
      }
      if i > 0 && safeHeadHistory[i - 1].head.number > finalizedHead.number {
        finalizedHead := safeHeadHistory[i - 1].head;
      }
    }

    method ActReset(head: L2Head)
      modifies this
      ensures State() == AfterReset(head)
      ensures safeHead == unsafeHead == finalizedHead == head
      ensures safeHeadHistory == [] && finalizedL1Number == safeL1Number == 0
    {
      safeHead, unsafeHead, finalizedHead := head, head, head;
      finalizedL1Number, safeL1Number, safeHeadHistory := 0, 0, [];
    }
  }

  // -------------------------------------------------------------------- every run

  datatype Event =
    | Derive(a: Attributes, hash: Hash)
    | Gossiped(queue: seq<Gossip>)
    | FinalitySignal(l1: nat)
    | SafeSignal(l1: nat)
    | Reset(head: L2Head)

  function Happened(s: Heads, e: Event): Heads {
    match e
    case Derive(a, hash) => AfterDerivation(s, a, hash)
    case Gossiped(queue) => AfterAllGossip(s, queue)
    case FinalitySignal(l1) => AfterFinality(s, l1)
    case SafeSignal(l1) => s.(safeL1 := l1)
    case Reset(head) => AfterReset(head)
  }

  function After(genesis: L2Head, events: seq<Event>): Heads {
    if events == [] then AfterReset(genesis) else Happened(After(genesis, events[..|events| - 1]), events[|events| - 1])
  }

  /** Any sequence of events, one method call each, ends where the state machine does. */
  method PerformAll(genesis: L2Head, events: seq<Event>) returns (node: TestRollupNode)
    ensures fresh(node) && node.State() == After(genesis, events)
  {
    node := new TestRollupNode(genesis);
    for i := 0 to |events|
      invariant fresh(node) && node.State() == After(genesis, events[..i])
    {
      assert events[..i + 1][..i] == events[..i];
      match events[i] {
        case Derive(a, hash) => node.ExecuteAndAdvance(a, hash);
        case Gossiped(queue) => node.DrainGossip(queue);
        case FinalitySignal(l1) => node.ActL1FinalizedSignal(l1);
        case SafeSignal(l1) => node.ActL1SafeSignal(l1);
        case Reset(head) => node.ActReset(head);
      }
    }
    assert events[..|events|] == events;
  }

  /** Where the history starts: the head of the latest reset. */
  function Base(genesis: L2Head, events: seq<Event>): L2Head {
    if events == [] then genesis
    else if events[|events| - 1].Reset? then events[|events| - 1].head
    else Base(genesis, events[..|events| - 1])
  }

  ghost predicate Extends(parent: L2Head, head: L2Head) {
    && head.number == parent.number + 1 && head.parentHash == parent.hash
    && head.seqNum == if head.origin == parent.origin then parent.seqNum + 1 else 0
  }

  /** The safe blocks in order, the base first. */
  function SafeChain(base: L2Head, history: seq<Safe>): seq<L2Head> {
    [base] + seq(|history|, i requires 0 <= i < |history| => history[i].head)
  }

  ghost predicate Kept(base: L2Head, s: Heads) {
    var chain := SafeChain(base, s.history);
    && s.finalized.number <= s.safe.number <= s.unsafeHead.number
    && chain[|chain| - 1] == s.safe && s.finalized in chain
    && (forall i :: 0 < i < |chain| ==> Extends(chain[i - 1], chain[i]))
    && (forall i :: 0 <= i < |s.history| ==> s.history[i].originNumber == s.history[i].head.origin.number)
  }

  lemma {:induction false} GossipKeeps(s: Heads, gs: seq<Gossip>)
    ensures var t := AfterAllGossip(s, gs);
      t == s.(unsafeHead := t.unsafeHead) && s.unsafeHead.number <= t.unsafeHead.number <= s.unsafeHead.number + |gs|
  {
    if gs != [] {
      GossipKeeps(s, gs[..|gs| - 1]);
    }
  }

  /** Draining a queue takes its blocks one after the other. */
  lemma {:induction false} DrainedInOrder(s: Heads, gs: seq<Gossip>) returns (heads: seq<L2Head>)
    ensures |heads| == |gs| + 1 && heads[0] == s.unsafeHead && heads[|gs|] == AfterAllGossip(s, gs).unsafeHead
    ensures forall i :: 0 <= i < |gs| ==> Receives(heads[i], gs[i], heads[i + 1])
  {
    if gs == [] {
      heads := [s.unsafeHead];
    } else {
      var front := DrainedInOrder(s, gs[..|gs| - 1]);
      heads := front + [AfterAllGossip(s, gs).unsafeHead];
    }
  }

  /** Every number between the old and the new unsafe head was gossiped, and the new
      head is the gossiped block of its number. */
  lemma {:induction false} GossipIsGapless(s: Heads, gs: seq<Gossip>, n: nat)
    requires s.unsafeHead.number < n <= AfterAllGossip(s, gs).unsafeHead.number
    ensures exists i :: 0 <= i < |gs| && gs[i].number == n && Takes(gs[i], AfterAllGossip(s, gs).unsafeHead)
  {
    if gs != [] {
      var front, g := gs[..|gs| - 1], gs[|gs| - 1];
      if n <= AfterAllGossip(s, front).unsafeHead.number {
        GossipIsGapless(s, front, n);
        var i :| 0 <= i < |front| && front[i].number == n && Takes(front[i], AfterAllGossip(s, front).unsafeHead);
        assert gs[i] == front[i];
      } else {
        assert gs[|gs| - 1].number == n;
      }
    }
  }

  /** A head with the gossiped block's number is that block. */
  ghost predicate Takes(g: Gossip, head: L2Head) {
    head.number == g.number ==>
      && head.hash == g.hash && head.parentHash == g.parentHash && head.timestamp == g.timestamp
      && (g.deposit.Some? ==> head.origin == g.deposit.value) && (g.deposit.None? ==> head.seqNum == 0)
  }

  lemma DeriveKeeps(base: L2Head, s: Heads, a: Attributes, hash: Hash)
    requires Kept(base, s)
    ensures Kept(base, AfterDerivation(s, a, hash))
  {
    var t := AfterDerivation(s, a, hash);
    assert SafeChain(base, t.history) == SafeChain(base, s.history) + [t.safe];
  }

  /** Everything after position `k` has an origin above `l1`. */
  ghost predicate NoneAfter(history: seq<Safe>, l1: nat, k: int) {
    forall i :: 0 <= i < |history| && history[i].originNumber <= l1 ==> i <= k
  }

  lemma {:induction false} LastUpToMeans(history: seq<Safe>, l1: nat) returns (k: int)
    ensures NoneAfter(history, l1, k)
    ensures match LastUpTo(history, l1)
      case None => k == -1
      case Some(head) => 0 <= k < |history| && history[k].head == head && history[k].originNumber <= l1
  {
    k := |history| - 1;
    if history != [] && history[k].originNumber > l1 {
      k := LastUpToMeans(history[..k], l1);
    }
  }

  lemma {:induction false} NumbersGrow(base: L2Head, s: Heads, i: nat, j: nat)
    requires Kept(base, s) && i <= j <= |s.history|
    ensures SafeChain(base, s.history)[j].number == SafeChain(base, s.history)[i].number + j - i
    decreases j
  {
    if i < j {
      NumbersGrow(base, s, i, j - 1);
      assert Extends(SafeChain(base, s.history)[j - 1], SafeChain(base, s.history)[j]);
    }
  }

  lemma FinalityKeeps(base: L2Head, s: Heads, l1: nat)
    requires Kept(base, s)
    ensures Kept(base, AfterFinality(s, l1))
  {
    var k := LastUpToMeans(s.history, l1);
    if k >= 0 {
      assert SafeChain(base, s.history)[k + 1] == s.history[k].head;
      NumbersGrow(base, s, k + 1, |s.history|);
    }
  }

  /** Gossip, a safe signal and a reset. */
  lemma OtherKeeps(base: L2Head, s: Heads, queue: seq<Gossip>, l1: nat)
    ensures Kept(base, AfterReset(base))
    ensures Kept(base, s) ==> Kept(base, AfterAllGossip(s, queue)) && Kept(base, s.(safeL1 := l1))
  {
    GossipKeeps(s, queue);
    hide AfterAllGossip;
    assert SafeChain(base, []) == [base];
  }

  /** In every run finalized <= safe <= unsafe by number; the safe history is a chain
      of parent hashes with consecutive numbers from the latest reset to the safe
      head; and the finalized head is one of its blocks. */
  lemma {:induction false} KeptByRuns(genesis: L2Head, events: seq<Event>)
    ensures Kept(Base(genesis, events), After(genesis, events))
  {
    hide Kept;
    if events == [] {
      OtherKeeps(genesis, AfterReset(genesis), [], 0);
    } else {
      var front, e := events[..|events| - 1], events[|events| - 1];
      KeptByRuns(genesis, front);
      var s, base := After(genesis, front), Base(genesis, front);
      match e {
        case Derive(a, hash) => DeriveKeeps(base, s, a, hash);
        case Gossiped(queue) => OtherKeeps(base, s, queue, 0);
        case FinalitySignal(l1) => FinalityKeeps(base, s, l1);
        case SafeSignal(l1) => OtherKeeps(base, s, [], l1);
        case Reset(head) => OtherKeeps(head, s, [], 0);
      }
    }
  }

  /** The derivations since the latest reset. */
  function SinceReset(events: seq<Event>): (ds: seq<Event>)
    ensures forall i :: 0 <= i < |ds| ==> ds[i].Derive?
  {
    if events == [] then []
    else
      var ds, e := SinceReset(events[..|events| - 1]), events[|events| - 1];
      if e.Reset? then [] else if e.Derive? then ds + [e] else ds
  }

  /** In every run the safe history is those derivations, in order, each block made from
      its own attributes. */
  lemma {:induction false} HistoryIsDerived(genesis: L2Head, events: seq<Event>)
    ensures var history, ds := After(genesis, events).history, SinceReset(events);
      |history| == |ds| && forall i :: 0 <= i < |ds| ==> MadeFrom(history[i].head, ds[i].a, ds[i].hash)
  {
    if events != [] {
      var front, e := events[..|events| - 1], events[|events| - 1];
      HistoryIsDerived(genesis, front);
      if e.Gossiped? {
        GossipKeeps(After(genesis, front), e.queue);
      }
    }
  }

  /** The safe blocks a finality signal covers: those with an origin at or below it. */
  ghost predicate Covered(s: Heads, l1: nat, head: L2Head) {
    exists i :: 0 <= i < |s.history| && s.history[i].head == head && head.origin.number <= l1
  }

  lemma CoveredIsBelow(base: L2Head, s: Heads, l1: nat, k: int, head: L2Head)
    requires Kept(base, s) && NoneAfter(s.history, l1, k) && k < |s.history| && Covered(s, l1, head)
    ensures 0 <= k && head.number <= s.history[k].head.number
  {
    var i :| 0 <= i < |s.history| && s.history[i].head == head && head.origin.number <= l1;
    assert s.history[i].originNumber <= l1;
    NumbersGrow(base, s, i + 1, k + 1);
  }

  /** A finality signal sets finalized to the higher of its old value and the highest
      safe block with an origin at or below the signal, whatever the order of origins. */
  lemma FinalityIsMaximum(base: L2Head, s: Heads, l1: nat)
    requires Kept(base, s)
    ensures var t := AfterFinality(s, l1);
      && (forall head :: Covered(s, l1, head) ==> head.number <= t.finalized.number)
      && s.finalized.number <= t.finalized.number
      && (t.finalized == s.finalized || (Covered(s, l1, t.finalized) && t.finalized.number > s.finalized.number))
  {
    var k := LastUpToMeans(s.history, l1);
    forall head | Covered(s, l1, head)
      ensures 0 <= k && head.number <= s.history[k].head.number
    {
      CoveredIsBelow(base, s, l1, k, head);
    }
  }

  /** Finality only moves forward, except on a reset. */
  lemma FinalityIsMonotone(genesis: L2Head, events: seq<Event>, e: Event)
    requires !e.Reset?
    ensures After(genesis, events).finalized.number <= Happened(After(genesis, events), e).finalized.number
  {
    match e {
      case Gossiped(queue) => GossipKeeps(After(genesis, events), queue);
      case _ =>
    }
  }

  // ------------------------------------------- the unsafe head may leave the safe fork

  /** The gossiped blocks above the safe head, the unsafe head last. Derivation takes
      the place of the first, and of all once it has caught up. */
  function Ahead(genesis: L2Head, events: seq<Event>): seq<L2Head>
    decreases |events|
  {
    if events == [] then []
    else
      var front, e := events[..|events| - 1], events[|events| - 1];
      var s, ahead := After(genesis, front), Ahead(genesis, front);
      match e
      case Derive(_, _) => if |ahead| <= 1 then [] else ahead[1..]
      case Gossiped(queue) => Gathered(s, ahead, queue)
      case Reset(_) => []
      case _ => ahead
  }

  /** The blocks ahead after draining a queue. */
  function Gathered(s: Heads, ahead: seq<L2Head>, queue: seq<Gossip>): seq<L2Head> {
    if queue == [] then ahead
    else
      var front := queue[..|queue| - 1];
      var t := AfterAllGossip(s, front);
      Gathered(s, ahead, front) + if queue[|queue| - 1].number == t.unsafeHead.number + 1
                                  then [AfterGossip(t, queue[|queue| - 1]).unsafeHead] else []
  }

  /** They end in the unsafe head and are numbered on from the safe one. */
  ghost predicate IsAhead(s: Heads, ahead: seq<L2Head>) {
    && s.unsafeHead == (if ahead == [] then s.safe else ahead[|ahead| - 1])
    && forall i :: 0 <= i < |ahead| ==> ahead[i].number == s.safe.number + 1 + i
  }

  lemma {:induction false} GatheredIsAhead(s: Heads, ahead: seq<L2Head>, queue: seq<Gossip>)
    requires IsAhead(s, ahead)
    ensures IsAhead(AfterAllGossip(s, queue), Gathered(s, ahead, queue))
  {
    GossipKeeps(s, queue);
    if queue != [] {
      GatheredIsAhead(s, ahead, queue[..|queue| - 1]);
      GossipKeeps(s, queue[..|queue| - 1]);
    }
  }

  /** In every run those blocks lead from the safe number to the unsafe head. */
  lemma {:induction false} AheadInRuns(genesis: L2Head, events: seq<Event>)
    ensures IsAhead(After(genesis, events), Ahead(genesis, events))
    decreases |events|
  {
    if events != [] {
      var front, e := events[..|events| - 1], events[|events| - 1];
      AheadInRuns(genesis, front);
      if e.Gossiped? {
        GatheredIsAhead(After(genesis, front), Ahead(genesis, front), e.queue);
      }
    }
  }

  function HashBelow(base: Hash, ahead: seq<L2Head>, i: nat): Hash
    requires i <= |ahead|
  {
    if i == 0 then base else ahead[i - 1].hash
  }

  /** The unsafe head descends from the safe head by parent hashes. */
  ghost predicate OnSafeFork(s: Heads, ahead: seq<L2Head>) {
    forall i :: 0 <= i < |ahead| ==> ahead[i].parentHash == HashBelow(s.safe.hash, ahead, i)
  }

  /** Gossip is not asked for its parent. */
  lemma ForkByOne(s: Heads, ahead: seq<L2Head>, g: Gossip)
    requires IsAhead(s, ahead)
    ensures OnSafeFork(AfterGossip(s, g), Taken(s, ahead, g)) <==> OnSafeFork(s, ahead) && Fits(s, g)
  {
    if g.number == s.unsafeHead.number + 1 {
      var after := Taken(s, ahead, g);
      assert after[|ahead|].parentHash == g.parentHash && HashBelow(s.safe.hash, after, |ahead|) == s.unsafeHead.hash;
      assert forall i :: 0 <= i < |ahead| ==>
          after[i] == ahead[i] && HashBelow(s.safe.hash, after, i) == HashBelow(s.safe.hash, ahead, i);
    } else {
      assert Taken(s, ahead, g) == ahead;
    }
  }

  function Taken(s: Heads, ahead: seq<L2Head>, g: Gossip): seq<L2Head> {
    ahead + if g.number == s.unsafeHead.number + 1 then [AfterGossip(s, g).unsafeHead] else []
  }

  /** A block that is taken has the unsafe head as its parent. */
  predicate Fits(s: Heads, g: Gossip) { g.number == s.unsafeHead.number + 1 ==> g.parentHash == s.unsafeHead.hash }

  /** Every block of the queue that is taken continues the head it meets. */
  predicate AllFit(s: Heads, queue: seq<Gossip>) {
    queue == [] || (AllFit(s, queue[..|queue| - 1]) && Fits(AfterAllGossip(s, queue[..|queue| - 1]), queue[|queue| - 1]))
  }

  /** Draining a queue leaves the unsafe head on the safe fork exactly when it was there
      before and every block taken continues the head it meets: gossip can leave the fork
      and never mends it. */
  lemma {:induction false} ForkByGossip(s: Heads, ahead: seq<L2Head>, queue: seq<Gossip>)
    requires IsAhead(s, ahead)
    ensures OnSafeFork(AfterAllGossip(s, queue), Gathered(s, ahead, queue)) <==> OnSafeFork(s, ahead) && AllFit(s, queue)
  {
    if queue != [] {
      var front := queue[..|queue| - 1];
      ForkByGossip(s, ahead, front);
      GatheredIsAhead(s, ahead, front);
      ForkByOne(AfterAllGossip(s, front), Gathered(s, ahead, front), queue[|queue| - 1]);
    }
  }

  /** Nor does derivation look at what was gossiped: the unsafe head is on the safe fork
      afterwards exactly when derivation catches up, or the gossiped blocks above the new
      safe one are linked and start from it. */
  lemma ForkByDerivation(s: Heads, ahead: seq<L2Head>, a: Attributes, hash: Hash)
    requires IsAhead(s, ahead)
    ensures var rest := if |ahead| <= 1 then [] else ahead[1..];
      OnSafeFork(AfterDerivation(s, a, hash), rest) <==>
      || |ahead| <= 1
      || (ahead[1].parentHash == hash && forall i :: 2 <= i < |ahead| ==> ahead[i].parentHash == ahead[i - 1].hash)
    ensures OnSafeFork(s, ahead) ==>
      (OnSafeFork(AfterDerivation(s, a, hash), if |ahead| <= 1 then [] else ahead[1..])
       <==> |ahead| <= 1 || hash == ahead[0].hash)
  {
    if |ahead| > 1 {
      var rest := ahead[1..];
      assert rest[0] == ahead[1] && HashBelow(hash, rest, 0) == hash;
      assert HashBelow(s.safe.hash, ahead, 1) == ahead[0].hash;
      forall i | 1 <= i < |rest|
        ensures rest[i] == ahead[i + 1] && HashBelow(hash, rest, i) == ahead[i].hash == HashBelow(s.safe.hash, ahead, i + 1)
      {
      }
      assert forall i :: 2 <= i < |ahead| ==> rest[i - 1] == ahead[i];
    }
  }

  /** An event that keeps to the safe fork: gossip that fits, and derivation that catches
      up or derives the block that was gossiped. */
  predicate KeepsFork(s: Heads, ahead: seq<L2Head>, e: Event) {
    match e
    case Derive(_, hash) => |ahead| <= 1 || hash == ahead[0].hash
    case Gossiped(queue) => AllFit(s, queue)
    case _ => true
  }

  /** From a run that is on the safe fork, one more event stays there exactly when it is
      of this kind. */
  lemma ForkExactly(genesis: L2Head, events: seq<Event>, e: Event)
    requires OnSafeFork(After(genesis, events), Ahead(genesis, events))
    ensures OnSafeFork(After(genesis, events + [e]), Ahead(genesis, events + [e]))
       <==> KeepsFork(After(genesis, events), Ahead(genesis, events), e)
  {
    assert (events + [e])[..|events|] == events;
    AheadInRuns(genesis, events);
    var s, ahead := After(genesis, events), Ahead(genesis, events);
    match e {
      case Derive(a, hash) => ForkByDerivation(s, ahead, a, hash);
      case Gossiped(queue) => ForkByGossip(s, ahead, queue);
      case _ =>
    }
  }

  ghost predicate OnForkAt(genesis: L2Head, events: seq<Event>, k: nat)
    requires k <= |events|
  {
    OnSafeFork(After(genesis, events[..k]), Ahead(genesis, events[..k]))
  }

  ghost predicate KeepsForkAt(genesis: L2Head, events: seq<Event>, k: nat)
    requires k < |events|
  {
    KeepsFork(After(genesis, events[..k]), Ahead(genesis, events[..k]), events[k])
  }

  lemma {:induction false} OnForkUpTo(genesis: L2Head, events: seq<Event>, k: nat)
    requires k <= |events| && forall i :: 0 <= i < k ==> KeepsForkAt(genesis, events, i)
    ensures OnForkAt(genesis, events, k)
  {
    if k > 0 {
      OnForkUpTo(genesis, events, k - 1);
      assert events[..k - 1] + [events[k - 1]] == events[..k];
      assert KeepsForkAt(genesis, events, k - 1);
      ForkExactly(genesis, events[..k - 1], events[k - 1]);
    }
  }

  /** Throughout a run the unsafe head descends from the safe head, exactly when every
      event keeps to the fork. */
  lemma ForkInRuns(genesis: L2Head, events: seq<Event>)
    ensures (forall k :: 0 <= k <= |events| ==> OnForkAt(genesis, events, k))
       <==> (forall k :: 0 <= k < |events| ==> KeepsForkAt(genesis, events, k))
  {
    hide KeepsFork, OnSafeFork;
    if forall k :: 0 <= k <= |events| ==> OnForkAt(genesis, events, k) {
      forall k | 0 <= k < |events|
        ensures KeepsForkAt(genesis, events, k)
      {
        assert OnForkAt(genesis, events, k) && OnForkAt(genesis, events, k + 1);
        assert events[..k] + [events[k]] == events[..k + 1];
        ForkExactly(genesis, events[..k], events[k]);
      }
    }
    if forall k :: 0 <= k < |events| ==> KeepsForkAt(genesis, events, k) {
      forall k | 0 <= k <= |events|
        ensures OnForkAt(genesis, events, k)
      {
        OnForkUpTo(genesis, events, k);
      }
    }
  }

  /** Two gossiped blocks, and a different first block derived: the unsafe head then
      stands on a block that is not the safe one at its number. */
  lemma UnsafeForkRun(genesis: L2Head, a: Attributes, g: Gossip, h: Gossip, hash: Hash)
    requires g.number == genesis.number + 1 && h.number == g.number + 1 && h.parentHash == g.hash && hash != g.hash
    ensures var events := [Gossiped([g, h]), Derive(a, hash)];
      var s := After(genesis, events);
      && s.safe.number + 1 == s.unsafeHead.number && s.unsafeHead.parentHash != s.safe.hash
      && !OnSafeFork(s, Ahead(genesis, events))
  {
    var gossip := Gossiped([g, h]);
    var events := [gossip, Derive(a, hash)];
    assert events[..1] == [gossip] && [gossip][..0] == [];
    assert [g, h][..1] == [g] && [g][..0] == [];
    var s0 := AfterReset(genesis);
    assert AfterAllGossip(s0, []) == s0;
    assert AfterAllGossip(s0, [g]) == AfterGossip(s0, g);
    var s2 := AfterAllGossip(s0, [g, h]);
    assert s2 == AfterGossip(AfterGossip(s0, g), h);
    assert After(genesis, []) == s0 && After(genesis, [gossip]) == s2;
    assert After(genesis, events) == AfterDerivation(s2, a, hash);
    AheadInRuns(genesis, events);
    var ahead := Ahead(genesis, events);
    assert |ahead| > 0 && ahead[|ahead| - 1] == After(genesis, events).unsafeHead;
    assert ahead[0].parentHash != HashBelow(hash, ahead, 0);
  }
}

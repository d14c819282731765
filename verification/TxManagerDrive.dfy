/** The manager and miner classes, driven call by call, are one of the runs the
    theorems are about. */
module TxManagerDrive {
  import opened L1Miner
  import opened TxManager
  import opened TxManagerRuns
  import TxInclusion

  /** Whole calls on the manager, and actions on the miner beside it. Blocks to confirm
      are named by when they were mined, discarded ones included. */
  datatype Call =
    | FailNextN(n: nat)
    | SendAsync(body: nat, blobs: seq<nat>, signs: bool)
    | DropN(n: nat)
    | StageNToL1(n: nat)
    | ConfirmBlock(x: nat)
    | ReorgTo(number: nat)
    | MineBlock
    | OnMiner(action: Action)

  /** The steps a call is made of. */
  ghost function StepsOf(c: Crypto, blockTime: nat, w: World, call: Call): seq<Event>
    requires w.chain.miner.blocks != []
  {
    var miner := w.chain.miner;
    match call
    case FailNextN(n) => [FailNext(n)]
    case SendAsync(body, blobs, signs) => [Begin(body, blobs)] + [Allocate(0)] + [Sign(0, signs)]
    case DropN(n) => [Drop(n)]
    case StageNToL1(n) => [Stage(n)]
    case ConfirmBlock(x) => if x < |w.chain.mined| then [Confirm(w.chain.mined[x])] else []
    case ReorgTo(k) => [ManagerReorg(k)]
    case MineBlock =>
      [Stage(|w.manager.pending|)] + [Direct(Mine)]
      + [Confirm(NextBlock(c, blockTime, MinerWith(miner, w.manager.pending)))]
    case OnMiner(a) => [Direct(a)]
  }

  ghost function StepsOfAll(c: Crypto, blockTime: nat, me: nat, calls: seq<Call>): seq<Event> {
    if calls == [] then []
    else
      var before := StepsOfAll(c, blockTime, me, calls[..|calls| - 1]);
      before + StepsOf(c, blockTime, After(c, blockTime, me, before), calls[|calls| - 1])
  }

  /** The objects, and the record of mined blocks, show the world after these steps, with
      no call half done. */
  ghost predicate Shows(manager: L1MinerTxManager, l1: L1MinerState, mined: seq<Block>, events: seq<Event>)
    reads manager, l1
  {
    && l1.Valid() && manager.crypto == l1.crypto
    && var w := After(l1.crypto, l1.blockTime, manager.signer, events);
       manager.State() == w.manager && l1.State() == w.chain.miner && mined == w.chain.mined
  }

  lemma SendSteps(c: Crypto, blockTime: nat, me: nat, events: seq<Event>, body: nat, blobs: seq<nat>, signs: bool)
    requires After(c, blockTime, me, events).manager.sending == []
    ensures var w := After(c, blockTime, me, events);
      var w' := After(c, blockTime, me, events + [Begin(body, blobs)] + [Allocate(0)] + [Sign(0, signs)]);
      var m := Begun(w.manager, body, blobs);
      && w'.chain == w.chain
      && w'.manager == if m.sending == [] then m
                       else if signs then Queued(Allocated(m, 0), me, 0) else SignRefused(Allocated(m, 0), 0)
  {
    var e1 := events + [Begin(body, blobs)];
    AfterSnoc(c, blockTime, me, events, Begin(body, blobs));
    var m := After(c, blockTime, me, e1).manager;
    if m.sending == [] {
      SkippedSnoc(c, blockTime, me, e1, Allocate(0));
      SkippedSnoc(c, blockTime, me, e1 + [Allocate(0)], Sign(0, signs));
    } else {
      AfterSnoc(c, blockTime, me, e1, Allocate(0));
      AfterSnoc(c, blockTime, me, e1 + [Allocate(0)], Sign(0, signs));
    }
  }

  lemma MineSteps(c: Crypto, blockTime: nat, me: nat, events: seq<Event>)
    ensures var w := After(c, blockTime, me, events);
      var l1 := MinerWith(w.chain.miner, w.manager.pending);
      var b := NextBlock(c, blockTime, l1);
      var w' := After(c, blockTime, me, events + [Stage(|w.manager.pending|)] + [Direct(Mine)] + [Confirm(b)]);
      && w'.chain.miner == AfterMine(c, blockTime, l1) && w'.chain.mined == w.chain.mined + [b]
      && w'.manager == Confirmed(c, StagedFirst(w.manager, |w.manager.pending|), b)
  {
    var w := After(c, blockTime, me, events);
    var n := |w.manager.pending|;
    assert w.manager.pending[..n] == w.manager.pending;
    var b := NextBlock(c, blockTime, MinerWith(w.chain.miner, w.manager.pending));
    AfterSnoc(c, blockTime, me, events, Stage(n));
    AfterSnoc(c, blockTime, me, events + [Stage(n)], Direct(Mine));
    assert b in After(c, blockTime, me, events + [Stage(n)] + [Direct(Mine)]).chain.mined;
    AfterSnoc(c, blockTime, me, events + [Stage(n)] + [Direct(Mine)], Confirm(b));
  }

  method Perform(manager: L1MinerTxManager, l1: L1MinerState, mined: seq<Block>, ghost events: seq<Event>, call: Call)
    returns (mined': seq<Block>)
    requires Shows(manager, l1, mined, events)
    modifies manager, l1
    ensures var w := After(l1.crypto, l1.blockTime, manager.signer, events);
      Shows(manager, l1, mined', events + StepsOf(l1.crypto, l1.blockTime, w, call))
  {
    assert mined == After(l1.crypto, l1.blockTime, manager.signer, events).chain.mined;
    hide After, Shows;
    mined' := mined;
    match call {
      case FailNextN(n) => PerformFailNext(manager, l1, mined, events, n);
      case SendAsync(body, blobs, signs) => PerformSend(manager, l1, mined, events, body, blobs, signs);
      case DropN(n) => PerformDrop(manager, l1, mined, events, n);
      case StageNToL1(n) => PerformStage(manager, l1, mined, events, n);
      case ConfirmBlock(x) => PerformConfirm(manager, l1, mined, events, x);
      case ReorgTo(k) => PerformReorg(manager, l1, mined, events, k);
      case MineBlock => mined' := PerformMine(manager, l1, mined, events);
      case OnMiner(a) => mined' := PerformOnMiner(manager, l1, mined, events, a);
    }
  }

  method PerformFailNext(manager: L1MinerTxManager, l1: L1MinerState, mined: seq<Block>, ghost events: seq<Event>, n: nat)
    requires Shows(manager, l1, mined, events)
    modifies manager
    ensures Shows(manager, l1, mined, events + [FailNext(n)])
  {
    AfterSnoc(l1.crypto, l1.blockTime, manager.signer, events, FailNext(n));
    hide After;
    manager.FailNextN(n);
  }

  method PerformSend(manager: L1MinerTxManager, l1: L1MinerState, mined: seq<Block>, ghost events: seq<Event>,
                     body: nat, blobs: seq<nat>, signs: bool)
    requires Shows(manager, l1, mined, events)
    modifies manager
    ensures Shows(manager, l1, mined, events + ([Begin(body, blobs)] + [Allocate(0)] + [Sign(0, signs)]))
  {
    SendSteps(l1.crypto, l1.blockTime, manager.signer, events, body, blobs, signs);
    Regroup(events, Begin(body, blobs), Allocate(0), Sign(0, signs));
    hide After;
    var _ := manager.SendAsync(body, blobs, signs);
  }

  method PerformDrop(manager: L1MinerTxManager, l1: L1MinerState, mined: seq<Block>, ghost events: seq<Event>, n: nat)
    requires Shows(manager, l1, mined, events)
    modifies manager
    ensures Shows(manager, l1, mined, events + [Drop(n)])
  {
    AfterSnoc(l1.crypto, l1.blockTime, manager.signer, events, Drop(n));
    hide After;
    var _ := manager.DropN(n);
  }

  method PerformStage(manager: L1MinerTxManager, l1: L1MinerState, mined: seq<Block>, ghost events: seq<Event>, n: nat)
    requires Shows(manager, l1, mined, events)
    modifies manager, l1
    ensures Shows(manager, l1, mined, events + [Stage(n)])
  {
    AfterSnoc(l1.crypto, l1.blockTime, manager.signer, events, Stage(n));
    hide After;
    var _ := manager.StageNToL1(l1, n);
  }

  method PerformMine(manager: L1MinerTxManager, l1: L1MinerState, mined: seq<Block>, ghost events: seq<Event>)
    returns (mined': seq<Block>)
    requires Shows(manager, l1, mined, events)
    modifies manager, l1
    ensures var w := After(l1.crypto, l1.blockTime, manager.signer, events);
      Shows(manager, l1, mined', events + StepsOf(l1.crypto, l1.blockTime, w, MineBlock))
  {
    MineCall(l1.crypto, l1.blockTime, manager.signer, events);
    hide After, StepsOf, Confirmed, StagedFirst, NextBlock, MinerWith;
    var _ := manager.MineBlock(l1);
    mined' := mined + [l1.blocks[|l1.blocks| - 1]];
  }

  lemma MineCall(c: Crypto, blockTime: nat, me: nat, events: seq<Event>)
    ensures var w := After(c, blockTime, me, events);
      var w' := After(c, blockTime, me, events + StepsOf(c, blockTime, w, MineBlock));
      var chain := AfterMine(c, blockTime, MinerWith(w.chain.miner, w.manager.pending));
      && w'.chain.miner == chain && w'.chain.mined == w.chain.mined + [Tip(chain)]
      && w'.manager == Confirmed(c, StagedFirst(w.manager, |w.manager.pending|), Tip(chain))
  {
    var w := After(c, blockTime, me, events);
    MineSteps(c, blockTime, me, events);
    hide After, Confirmed, StagedFirst, NextBlock;
    Regroup(events, Stage(|w.manager.pending|), Direct(Mine),
            Confirm(NextBlock(c, blockTime, MinerWith(w.chain.miner, w.manager.pending))));
  }

  lemma Regroup(events: seq<Event>, a: Event, b: Event, c: Event)
    ensures events + ([a] + [b] + [c]) == events + [a] + [b] + [c]
  {
  }

  method PerformConfirm(manager: L1MinerTxManager, l1: L1MinerState, mined: seq<Block>, ghost events: seq<Event>, x: nat)
    requires Shows(manager, l1, mined, events)
    modifies manager
    ensures Shows(manager, l1, mined, events + if x < |mined| then [Confirm(mined[x])] else [])
  {
    ghost var c, blockTime, me := l1.crypto, l1.blockTime, manager.signer;
    if x < |mined| {
      AfterSnoc(c, blockTime, me, events, Confirm(mined[x]));
      hide After, StillStaged, Fired;
      manager.ConfirmBlock(mined[x]);
    } else {
      assert events + [] == events;
    }
  }

  method PerformReorg(manager: L1MinerTxManager, l1: L1MinerState, mined: seq<Block>, ghost events: seq<Event>, k: nat)
    requires Shows(manager, l1, mined, events)
    modifies manager, l1
    ensures Shows(manager, l1, mined, events + [ManagerReorg(k)])
  {
    ghost var c, blockTime, me := l1.crypto, l1.blockTime, manager.signer;
    if k < |l1.blocks| {
      AfterSnoc(c, blockTime, me, events, ManagerReorg(k));
      manager.ReorgTo(k, l1);
    } else {
      SkippedSnoc(c, blockTime, me, events, ManagerReorg(k));
    }
  }

  lemma MinedByAction(c: Crypto, blockTime: nat, s: Chain, a: Action)
    requires s.miner.blocks != []
    ensures var t := Acted(c, blockTime, s, a);
      && t.miner.blocks != []
      && t.mined == if a.Mine? then s.mined + [t.miner.blocks[|t.miner.blocks| - 1]] else s.mined
  {
  }

  /** A submission under the manager's own key is not a step of anyone else. */
  method PerformOnMiner(manager: L1MinerTxManager, l1: L1MinerState, mined: seq<Block>, ghost events: seq<Event>, a: Action)
    returns (mined': seq<Block>)
    requires Shows(manager, l1, mined, events)
    modifies l1
    ensures Shows(manager, l1, mined', events + [Direct(a)])
  {
    ghost var c, blockTime, me := l1.crypto, l1.blockTime, manager.signer;
    mined' := mined;
    if a.Submit? && a.p.tx.signer == manager.signer {
      SkippedSnoc(c, blockTime, me, events, Direct(a));
    } else {
      AfterSnoc(c, blockTime, me, events, Direct(a));
      var shared := new SharedL1Chain(l1.crypto, l1.blocks);
      ghost var chain := After(c, blockTime, me, events).chain;
      TxInclusion.ChainKept(c, blockTime, me, events);
      MinedByAction(c, blockTime, chain, a);
      assert After(c, blockTime, me, events + [Direct(a)])
          == After(c, blockTime, me, events).(chain := Acted(c, blockTime, chain, a));
      hide After, Happened, Acted;
      L1Miner.Perform(l1, shared, chain, a);
      if a.Mine? {
        mined' := mined + [l1.blocks[|l1.blocks| - 1]];
      }
    }
  }

  /** Any sequence of calls ends where the steps it is made of end, so that every
      theorem about runs holds of the objects. */
  method Drive(crypto: Crypto, blockTime: nat, signer: nat, calls: seq<Call>)
    returns (manager: L1MinerTxManager, l1: L1MinerState, mined: seq<Block>)
    ensures fresh(manager) && fresh(l1) && l1.crypto == crypto && l1.blockTime == blockTime && manager.signer == signer
    ensures Shows(manager, l1, mined, StepsOfAll(crypto, blockTime, signer, calls))
  {
    manager := new L1MinerTxManager(crypto, signer);
    l1 := new L1MinerState(crypto, blockTime);
    mined := [];
    for i := 0 to |calls|
      invariant fresh(manager) && fresh(l1)
      invariant Shows(manager, l1, mined, StepsOfAll(crypto, blockTime, signer, calls[..i]))
    {
      assert calls[..i + 1][..i] == calls[..i];
      mined := Perform(manager, l1, mined, StepsOfAll(crypto, blockTime, signer, calls[..i]), calls[i]);
    }
    assert calls[..|calls|] == calls;
  }
}

/** Conductor-gated sequencing: a shared leadership record, and sequencers that check
    it before building a block and again when committing it. */
module Conductor {
  import opened Bytes
  import opened L2Chain

  type Id = byte

  /** What the engine returns for a build, with the L1 origin it was built on. */
  datatype Payload = Payload(number: nat, timestamp: nat, hash: Hash, origin: Origin)

  datatype Commitment = Commitment(id: Id, hash: Hash)

  function CommittedBy(committed: seq<Commitment>, id: Id): seq<Hash> {
    if committed == [] then []
    else
      var last := committed[|committed| - 1];
      CommittedBy(committed[..|committed| - 1], id) + if last.id == id then [last.hash] else []
  }

  datatype LeaderChange = To(id: Id) | Nobody

  function LeaderAfter(leader: Option<Id>, changes: seq<LeaderChange>): Option<Id> {
    if changes == [] then leader
    else match changes[|changes| - 1] case To(id) => Some(id) case Nobody => None
  }

  function Advanced(head: L2Head, p: Payload): L2Head {
    L2Head(p.number, p.timestamp, head.hash, p.hash, p.origin,
           if p.origin.number == head.origin.number then head.seqNum + 1 else 0)
  }

  /** The new head is the built block, on top of the old head, with a sequence number that
      counts on within an L1 origin and starts again at 0 with the next. */
  ghost predicate Follows(before: L2Head, p: Payload, after: L2Head) {
    && after.hash == p.hash && after.parentHash == before.hash
    && after.number == p.number && after.timestamp == p.timestamp && after.origin == p.origin
    && (p.origin.number == before.origin.number ==> after.seqNum == before.seqNum + 1)
    && (p.origin.number != before.origin.number ==> after.seqNum == 0)
  }

  lemma AdvancedFollows(head: L2Head, p: Payload)
    ensures Follows(head, p, Advanced(head, p))
  {
  }

  class TestConductorHandle {
    var leaderId: Option<Id>
    var committedPayloads: seq<Commitment>

    constructor (leaderId: Option<Id>)
      ensures this.leaderId == leaderId && committedPayloads == []
    {
      this.leaderId, committedPayloads := leaderId, [];
    }

    method Apply(change: LeaderChange)
      modifies `leaderId
      ensures leaderId == LeaderAfter(old(leaderId), [change])
      ensures change.To? ==> leaderId == Some(change.id)
      ensures change.Nobody? ==> leaderId == None
    {
      match change {
        case To(id) => leaderId := Some(id);
        case Nobody => leaderId := None;
      }
    }

    method CommitUnsafePayload(id: Id, hash: Hash) returns (ok: bool)
      modifies `committedPayloads
      ensures ok <==> leaderId == Some(id)
      ensures committedPayloads == old(committedPayloads) + if ok then [Commitment(id, hash)] else []
    {
      if leaderId != Some(id) {
        return false;
      }
      committedPayloads := committedPayloads + [Commitment(id, hash)];
      ok := true;
    }

    method HashesCommittedBy(id: Id) returns (hashes: seq<Hash>)
      ensures hashes == CommittedBy(committedPayloads, id)
    {
      hashes := [];
      for i := 0 to |committedPayloads|
        invariant hashes == CommittedBy(committedPayloads[..i], id)
      {
        assert committedPayloads[..i + 1][..i] == committedPayloads[..i];
        if committedPayloads[i].id == id {
          hashes := hashes + [committedPayloads[i].hash];
        }
      }
      assert committedPayloads[..|committedPayloads|] == committedPayloads;
    }
  }

  datatype BuildResult = NotLeader | Failed | Built(payload: Payload)

  class L2Sequencer {
    const id: Id
    var head: L2Head
    var inserted: seq<Hash>

    constructor (id: Id, head: L2Head)
      ensures this.id == id && this.head == head && inserted == []
    {
      this.id, this.head, inserted := id, head, [];
    }

    /** One build, while leadership changes as in `meanwhile` between the check and
        the commit. `built` is what origin selection, attributes and engine yield. */
    method TryBuildNextBlock(conductor: TestConductorHandle, built: Option<Payload>, meanwhile: seq<LeaderChange>,
                             inserts: bool, converts: bool, ghost s: Cluster) returns (r: BuildResult)
      requires Shows(s, id, conductor.leaderId, conductor.committedPayloads, head, inserted)
      modifies this, conductor
      ensures var t := From(s, CallSteps(s.leader == Some(id), id, built, meanwhile, inserts, converts));
        && Shows(t, id, conductor.leaderId, conductor.committedPayloads, head, inserted)
        && t.outcomes == s.outcomes + [Outcome(id, r, old(head), head, old(inserted), inserted)]
      ensures r == NotLeader <==>
        || old(conductor.leaderId) != Some(id)
        || (built.Some? && LeaderAfter(old(conductor.leaderId), meanwhile) != Some(id))
      ensures r.Built? <==> r != NotLeader && built.Some? && inserts && converts
      ensures r.Built? ==> r == Built(built.value) && head == Advanced(old(head), built.value)
      ensures r.Built? ==> Follows(old(head), built.value, head)
      ensures !r.Built? ==> head == old(head)
      ensures conductor.committedPayloads == old(conductor.committedPayloads)
        + if r != NotLeader && built.Some? then [Commitment(id, built.value.hash)] else []
      ensures conductor.leaderId
           == if old(conductor.leaderId) == Some(id) then LeaderAfter(Some(id), meanwhile) else old(conductor.leaderId)
      ensures inserted == old(inserted) + if r != NotLeader && built.Some? && inserts then [built.value.hash] else []
    {
      if conductor.leaderId != Some(id) {
        OneStep(s, Check(id));
        return NotLeader;
      }
      CallRun(s, id, built, meanwhile, inserts, converts);
      hide From, CallSteps, Stepped;
      for i := 0 to |meanwhile|
        invariant conductor.leaderId == LeaderAfter(old(conductor.leaderId), meanwhile[..i])
        modifies conductor`leaderId
      {
        conductor.Apply(meanwhile[i]);
      }
      assert meanwhile[..|meanwhile|] == meanwhile;
      if built.None? {
        return Failed;
      }
      var committed := conductor.CommitUnsafePayload(id, built.value.hash);
      if !committed {
        return NotLeader;
      }
      if !inserts {
        return Failed;
      }
      inserted := inserted + [built.value.hash];
      if !converts {
        return Failed;
      }
      head := Advanced(head, built.value);
      r := Built(built.value);
      AdvancedFollows(old(head), built.value);
    }
  }

  // ------------------------------------------------ many sequencers, any interleaving

  /** Where a sequencer is in its build. */
  datatype Phase = Idle | Checked | Sealed(payload: Payload) | Committed(payload: Payload) | Inserted(payload: Payload)

  /** `startHead` and `startInserted` are as they were when the build began. */
  datatype Sequencer = Sequencer(phase: Phase, head: L2Head, inserted: seq<Hash>, startHead: L2Head, startInserted: seq<Hash>)

  datatype Outcome = Outcome(id: Id, result: BuildResult, headBefore: L2Head, headAfter: L2Head,
                             insertedBefore: seq<Hash>, insertedAfter: seq<Hash>)

  datatype Cluster = Cluster(leader: Option<Id>, committed: seq<Commitment>, nodes: map<Id, Sequencer>, outcomes: seq<Outcome>)

  datatype Event =
    | Leadership(change: LeaderChange)
    | Check(id: Id)
    | Build(id: Id, built: Option<Payload>)
    | Commit(id: Id)
    | Insert(id: Id, ok: bool)
    | Convert(id: Id, ok: bool)

  function Fresh(head: L2Head): Sequencer { Sequencer(Idle, head, [], head, []) }

  function Start(leader: Option<Id>, heads: map<Id, L2Head>): Cluster {
    Cluster(leader, [], map id | id in heads :: Fresh(heads[id]), [])
  }

  function Moved(s: Cluster, id: Id, n: Sequencer): Cluster { s.(nodes := s.nodes[id := n]) }

  function Ended(s: Cluster, id: Id, n: Sequencer, r: BuildResult): Cluster {
    s.(nodes := s.nodes[id := n.(phase := Idle)],
    outcomes := s.outcomes + [Outcome(id, r, n.startHead, n.head, n.startInserted, n.inserted)])
  }

  /** One step of one sequencer; a step it is not ready for changes nothing. */
  function Stepped(s: Cluster, e: Event): Cluster {
    if e.Leadership? then s.(leader := LeaderAfter(s.leader, [e.change]))
    else if e.id !in s.nodes then s
    else
      var n := s.nodes[e.id];
      match e
      case Check(id) =>
        if n.phase != Idle then s
        else
          var begun := n.(startHead := n.head, startInserted := n.inserted);
          if s.leader != Some(id) then Ended(s, id, begun, NotLeader) else Moved(s, id, begun.(phase := Checked))
      case Build(id, built) =>
        if n.phase != Checked then s
        else if built.None? then Ended(s, id, n, Failed)
        else Moved(s, id, n.(phase := Sealed(built.value)))
      case Commit(id) =>
        if !n.phase.Sealed? then s
        else if s.leader != Some(id) then Ended(s, id, n, NotLeader)
        else Moved(s, id, n.(phase := Committed(n.phase.payload)))
             .(committed := s.committed + [Commitment(id, n.phase.payload.hash)])
      case Insert(id, ok) =>
        if !n.phase.Committed? then s
        else if !ok then Ended(s, id, n, Failed)
        else Moved(s, id, n.(phase := Inserted(n.phase.payload), inserted := n.inserted + [n.phase.payload.hash]))
      case Convert(id, ok) =>
        if !n.phase.Inserted? then s
        else if !ok then Ended(s, id, n, Failed)
        else Ended(s, id, n.(head := Advanced(n.head, n.phase.payload)), Built(n.phase.payload))
  }

  function After(leader: Option<Id>, heads: map<Id, L2Head>, events: seq<Event>): Cluster {
    if events == [] then Start(leader, heads)
    else Stepped(After(leader, heads, events[..|events| - 1]), events[|events| - 1])
  }

  // ------------------------------------------------------- one call is a run of steps

  /** The steps of one build: the check, whatever leadership changes happen meanwhile,
      and the rest. A failed check ends the call. */
  function CallSteps(leads: bool, id: Id, built: Option<Payload>, meanwhile: seq<LeaderChange>,
                     inserts: bool, converts: bool): seq<Event>
  {
    if !leads then [Check(id)]
    else [Check(id)] + Changes(meanwhile) + [Build(id, built), Commit(id), Insert(id, inserts), Convert(id, converts)]
  }

  function Changes(meanwhile: seq<LeaderChange>): seq<Event> {
    seq(|meanwhile|, i requires 0 <= i < |meanwhile| => Leadership(meanwhile[i]))
  }

  function From(s: Cluster, events: seq<Event>): Cluster {
    if events == [] then s else Stepped(From(s, events[..|events| - 1]), events[|events| - 1])
  }

  lemma {:induction false} FromConcat(s: Cluster, a: seq<Event>, b: seq<Event>)
    ensures From(s, a + b) == From(From(s, a), b)
  {
    hide Stepped;
    if b == [] {
      assert a + b == a;
    } else {
      FromConcat(s, a, b[..|b| - 1]);
      assert (a + b)[..|a + b| - 1] == a + b[..|b| - 1];
    }
  }

  /** A call, whenever it is made, continues the run so far. */
  lemma {:induction false} RunGoesOn(leader: Option<Id>, heads: map<Id, L2Head>, before: seq<Event>, steps: seq<Event>)
    ensures After(leader, heads, before + steps) == From(After(leader, heads, before), steps)
    decreases |steps|
  {
    hide Stepped;
    if steps == [] {
      assert before + steps == before;
    } else {
      RunGoesOn(leader, heads, before, steps[..|steps| - 1]);
      assert (before + steps)[..|before + steps| - 1] == before + steps[..|steps| - 1];
    }
  }

  lemma {:induction false} ChangesRun(s: Cluster, meanwhile: seq<LeaderChange>)
    ensures From(s, Changes(meanwhile)) == s.(leader := LeaderAfter(s.leader, meanwhile))
  {
    if meanwhile != [] {
      var front := meanwhile[..|meanwhile| - 1];
      ChangesRun(s, front);
      assert Changes(meanwhile)[..|meanwhile| - 1] == Changes(front);
    }
  }

  lemma LastFour(s: Cluster, id: Id, built: Option<Payload>, inserts: bool, converts: bool)
    ensures From(s, [Build(id, built), Commit(id), Insert(id, inserts), Convert(id, converts)])
         == Stepped(Stepped(Stepped(Stepped(s, Build(id, built)), Commit(id)), Insert(id, inserts)), Convert(id, converts))
  {
    var a, b, c, d := Build(id, built), Commit(id), Insert(id, inserts), Convert(id, converts);
    OneStep(s, a);
    OneStep(Stepped(s, a), b);
    OneStep(Stepped(Stepped(s, a), b), c);
    OneStep(Stepped(Stepped(Stepped(s, a), b), c), d);
    hide From, Stepped;
    FromConcat(s, [a], [b]);
    FromConcat(s, [a] + [b], [c]);
    FromConcat(s, [a] + [b] + [c], [d]);
    assert [a, b, c, d] == [a] + [b] + [c] + [d];
  }

  lemma OneStep(s: Cluster, e: Event)
    ensures From(s, [e]) == Stepped(s, e)
  {
    hide Stepped;
    assert [e][..0] == [];
    assert From(s, []) == s;
  }

  /** What a sequencer between builds and the conductor show of the cluster. */
  ghost predicate Shows(s: Cluster, id: Id, leader: Option<Id>, committed: seq<Commitment>, head: L2Head, inserted: seq<Hash>) {
    && s.leader == leader && s.committed == committed && id in s.nodes
    && s.nodes[id].phase == Idle && s.nodes[id].head == head && s.nodes[id].inserted == inserted
  }

  /** What the last four steps of a build come to: it is registered if the sequencer
      still leads, inserted if the engine agrees, and moves the head if the block also
      converts. */
  ghost predicate Finishes(led: Cluster, t: Cluster, id: Id, built: Option<Payload>, inserts: bool, converts: bool)
    requires id in led.nodes
  {
    var n := led.nodes[id];
    var commits := built.Some? && led.leader == Some(id);
    var r := if built.None? then Failed else if !commits then NotLeader
             else if inserts && converts then Built(built.value) else Failed;
    var head := if r.Built? then Advanced(n.head, built.value) else n.head;
    var inserted := n.inserted + if commits && inserts then [built.value.hash] else [];
    && Shows(t, id, led.leader, led.committed + (if commits then [Commitment(id, built.value.hash)] else []), head, inserted)
    && t.outcomes == led.outcomes + [Outcome(id, r, n.startHead, head, n.startInserted, inserted)]
  }

  lemma LastSteps(led: Cluster, id: Id, built: Option<Payload>, inserts: bool, converts: bool)
    requires id in led.nodes && led.nodes[id].phase == Checked
    ensures Finishes(led, From(led, [Build(id, built), Commit(id), Insert(id, inserts), Convert(id, converts)]),
                     id, built, inserts, converts)
  {
    LastFour(led, id, built, inserts, converts);
    hide From;
    var n := led.nodes[id];
    assert n.inserted + [] == n.inserted && led.committed + [] == led.committed;
    var s1 := Stepped(led, Build(id, built));
    var s2 := Stepped(s1, Commit(id));
    var s3 := Stepped(s2, Insert(id, inserts));
    IdleIgnores(s1, id, inserts, converts);
    IdleIgnores(s2, id, inserts, converts);
    IdleIgnores(s3, id, inserts, converts);
    if built.None? || led.leader != Some(id) {
      assert s2.nodes[id].phase == Idle;
    } else {
      assert s2 == Moved(led, id, n.(phase := Committed(built.value)))
                   .(committed := led.committed + [Commitment(id, built.value.hash)]);
    }
  }

  /** A sequencer between builds takes none of these steps. */
  lemma IdleIgnores(s: Cluster, id: Id, inserts: bool, converts: bool)
    requires id in s.nodes
    ensures s.nodes[id].phase == Idle ==>
      Stepped(s, Commit(id)) == s && Stepped(s, Insert(id, inserts)) == s && Stepped(s, Convert(id, converts)) == s
  {
  }

  /** The cluster after a call that found its sequencer leading. */
  lemma CallRun(s: Cluster, id: Id, built: Option<Payload>, meanwhile: seq<LeaderChange>, inserts: bool, converts: bool)
    requires id in s.nodes && s.nodes[id].phase == Idle && s.leader == Some(id)
    ensures var n := s.nodes[id].(phase := Checked, startHead := s.nodes[id].head, startInserted := s.nodes[id].inserted);
      Finishes(Moved(s, id, n).(leader := LeaderAfter(s.leader, meanwhile)),
               From(s, CallSteps(true, id, built, meanwhile, inserts, converts)), id, built, inserts, converts)
  {
    var last := [Build(id, built), Commit(id), Insert(id, inserts), Convert(id, converts)];
    var n := s.nodes[id].(phase := Checked, startHead := s.nodes[id].head, startInserted := s.nodes[id].inserted);
    OneStep(s, Check(id));
    assert From(s, [Check(id)]) == Moved(s, id, n);
    hide Stepped, From;
    FromConcat(s, [Check(id)], Changes(meanwhile));
    ChangesRun(Moved(s, id, n), meanwhile);
    FromConcat(s, [Check(id)] + Changes(meanwhile), last);
    LastSteps(Moved(s, id, n).(leader := LeaderAfter(s.leader, meanwhile)), id, built, inserts, converts);
  }

  // ---------------------------------------------------- every commit had a leader

  /** Who led after the events, read off the leadership changes alone. */
  function LastLeader(leader: Option<Id>, events: seq<Event>): Option<Id> {
    if events == [] then leader
    else
      match events[|events| - 1]
      case Leadership(To(id)) => Some(id)
      case Leadership(Nobody) => None
      case _ => LastLeader(leader, events[..|events| - 1])
  }

  lemma {:induction false} LeaderIsLast(leader: Option<Id>, heads: map<Id, L2Head>, events: seq<Event>)
    ensures After(leader, heads, events).leader == LastLeader(leader, events)
  {
    if events != [] {
      LeaderIsLast(leader, heads, events[..|events| - 1]);
    }
  }

  /** Each committed payload was appended by a commit step of its sequencer, at a
      moment when the latest leadership change had made that sequencer leader. */
  lemma {:induction false} CommittedWhileLeader(leader: Option<Id>, heads: map<Id, L2Head>, events: seq<Event>, i: nat)
    requires i < |After(leader, heads, events).committed|
    ensures exists k :: 0 <= k < |events| && CommitAt(leader, heads, events, i, k)
  {
    if events != [] {
      var front := events[..|events| - 1];
      var s := After(leader, heads, front);
      LeaderIsLast(leader, heads, front);
      CommittedGrows(s, events[|events| - 1]);
      hide Stepped;
      if i < |s.committed| {
        CommittedWhileLeader(leader, heads, front, i);
        var k :| 0 <= k < |front| && CommitAt(leader, heads, front, i, k);
        assert events[..k] == front[..k];
        assert CommitAt(leader, heads, events, i, k);
      } else {
        assert events[..|front|] == front;
        assert CommitAt(leader, heads, events, i, |front|);
      }
    }
  }

  /** Only a leader's commit adds a commitment, its own. */
  lemma CommittedGrows(s: Cluster, e: Event)
    ensures var t := Stepped(s, e);
      || t.committed == s.committed
      || (e.Commit? && s.leader == Some(e.id) && |t.committed| == |s.committed| + 1
          && t.committed == s.committed + [t.committed[|s.committed|]] && t.committed[|s.committed|].id == e.id)
  {
  }

  ghost predicate CommitAt(leader: Option<Id>, heads: map<Id, L2Head>, events: seq<Event>, i: nat, k: nat)
    requires k < |events| && i < |After(leader, heads, events).committed|
  {
    var made := After(leader, heads, events).committed[i];
    var s := After(leader, heads, events[..k]);
    && events[k] == Commit(made.id) && LastLeader(leader, events[..k]) == Some(made.id)
    && |s.committed| == i && Stepped(s, events[k]).committed == s.committed + [made]
  }

  // -------------------------------------------- inserted blocks were committed, in order

  ghost predicate Subsequence<T>(a: seq<T>, b: seq<T>)
    decreases |b|
  {
    if a == [] then true
    else if b == [] then false
    else
      || (a[|a| - 1] == b[|b| - 1] && Subsequence(a[..|a| - 1], b[..|b| - 1]))
      || Subsequence(a, b[..|b| - 1])
  }

  lemma SubsequenceGrows<T>(a: seq<T>, b: seq<T>, x: T)
    requires Subsequence(a, b)
    ensures Subsequence(a, b + [x]) && Subsequence(a + [x], b + [x])
  {
    assert (b + [x])[..|b|] == b && (a + [x])[..|a|] == a;
  }

  lemma {:induction false} SubsequenceShrinks<T>(a: seq<T>, b: seq<T>)
    requires a != [] && Subsequence(a, b)
    ensures Subsequence(a[..|a| - 1], b)
    decreases |b|
  {
    var front := b[..|b| - 1];
    assert b == front + [b[|b| - 1]];
    if Subsequence(a, front) {
      SubsequenceShrinks(a, front);
    }
    SubsequenceGrows(a[..|a| - 1], front, b[|b| - 1]);
  }

  /** What a sequencer has inserted, with the block it has committed and is about
      to insert. */
  function Claimed(n: Sequencer): seq<Hash> {
    n.inserted + if n.phase.Committed? then [n.phase.payload.hash] else []
  }

  /** The block a running build has just inserted, if any. */
  function InsertedNow(n: Sequencer): seq<Hash> {
    if n.phase.Inserted? then [n.phase.payload.hash] else []
  }

  ghost predicate NodeKept(committed: seq<Commitment>, id: Id, n: Sequencer) {
    && Subsequence(Claimed(n), CommittedBy(committed, id))
    && (n.phase != Idle ==> n.head == n.startHead && n.inserted == n.startInserted + InsertedNow(n))
  }

  /** A finished build moved the head to the built block, or not at all; a build
      refused for leadership inserted nothing either. */
  ghost predicate OutcomeKept(o: Outcome) {
    match o.result
    case NotLeader => o.headAfter == o.headBefore && o.insertedAfter == o.insertedBefore
    case Failed => o.headAfter == o.headBefore
    case Built(p) => o.headAfter == Advanced(o.headBefore, p) && o.insertedAfter == o.insertedBefore + [p.hash]
  }

  ghost predicate Kept(s: Cluster) {
    && (forall id :: id in s.nodes ==> NodeKept(s.committed, id, s.nodes[id]))
    && (forall o :: o in s.outcomes ==> OutcomeKept(o))
  }

  /** The hashes committed by an id are exactly those, and in the order of commitment. */
  lemma {:induction false} CommittedInOrder(a: seq<Commitment>, b: seq<Commitment>, id: Id, hash: Hash)
    ensures CommittedBy(a + b, id) == CommittedBy(a, id) + CommittedBy(b, id)
    ensures hash in CommittedBy(b, id) <==> Commitment(id, hash) in b
  {
    if b == [] {
      assert a + b == a;
    } else {
      var front, last := b[..|b| - 1], b[|b| - 1];
      CommittedInOrder(a, front, id, hash);
      assert (a + b)[..|a + b| - 1] == a + front;
      assert b == front + [last];
    }
  }

  lemma CommittedBySnoc(committed: seq<Commitment>, m: Commitment, id: Id)
    ensures CommittedBy(committed + [m], id) == CommittedBy(committed, id) + if m.id == id then [m.hash] else []
  {
    assert (committed + [m])[..|committed|] == committed;
  }

  /** A commit step seen from any one sequencer. */
  lemma CommitKeepsNode(committed: seq<Commitment>, m: Commitment, id: Id, n: Sequencer)
    requires NodeKept(committed, id, n)
    ensures m.id != id ==> NodeKept(committed + [m], id, n)
    ensures m.id == id && n.phase.Sealed? && n.phase.payload.hash == m.hash ==>
      NodeKept(committed + [m], id, n.(phase := Committed(n.phase.payload)))
  {
    CommittedBySnoc(committed, m, id);
    if m.id != id {
      assert CommittedBy(committed, id) + [] == CommittedBy(committed, id);
    } else if n.phase.Sealed? {
      assert Claimed(n) == n.inserted;
      SubsequenceGrows(n.inserted, CommittedBy(committed, id), m.hash);
    }
  }

  lemma CommitKeeps(s: Cluster, id: Id)
    requires Kept(s)
    ensures Kept(Stepped(s, Commit(id)))
  {
    var t := Stepped(s, Commit(id));
    if t.committed != s.committed {
      var n := s.nodes[id];
      var m := Commitment(id, n.phase.payload.hash);
      forall j | j in t.nodes
        ensures NodeKept(t.committed, j, t.nodes[j])
      {
        CommitKeepsNode(s.committed, m, j, s.nodes[j]);
      }
    } else {
      OwnKeeps(s, Commit(id));
    }
  }

  /** An insert step seen from its sequencer. */
  lemma InsertKeepsNode(committed: seq<Commitment>, id: Id, n: Sequencer)
    requires NodeKept(committed, id, n) && n.phase.Committed?
    ensures NodeKept(committed, id, n.(phase := Idle))
    ensures NodeKept(committed, id, n.(phase := Inserted(n.phase.payload), inserted := n.inserted + [n.phase.payload.hash]))
  {
    assert Claimed(n)[..|n.inserted|] == n.inserted;
    SubsequenceShrinks(Claimed(n), CommittedBy(committed, id));
    assert Claimed(n.(phase := Idle)) == n.inserted;
    var m := n.(phase := Inserted(n.phase.payload), inserted := n.inserted + [n.phase.payload.hash]);
    assert Claimed(m) == m.inserted == Claimed(n);
    assert n.inserted == n.startInserted;
  }

  lemma InsertKeeps(s: Cluster, id: Id, ok: bool)
    requires Kept(s)
    ensures Kept(Stepped(s, Insert(id, ok)))
  {
    var e := Insert(id, ok);
    if id in s.nodes {
      InsertStep(s, id, ok);
      OnlyItsNode(s, e);
      hide Stepped, NodeKept, OutcomeKept;
      OneNodeChanged(s, Stepped(s, e), id);
    }
  }

  lemma InsertStep(s: Cluster, id: Id, ok: bool)
    requires id in s.nodes && NodeKept(s.committed, id, s.nodes[id])
    ensures var t := Stepped(s, Insert(id, ok));
      && t.committed == s.committed && NodeKept(s.committed, id, t.nodes[id])
      && (|t.outcomes| == |s.outcomes| + 1 ==> OutcomeKept(t.outcomes[|s.outcomes|]))
  {
    if s.nodes[id].phase.Committed? {
      InsertKeepsNode(s.committed, id, s.nodes[id]);
      hide CommittedBy, Subsequence;
    }
  }

  /** A step that commits nothing and inserts nothing keeps its sequencer's claim. */
  lemma OwnKeeps(s: Cluster, e: Event)
    requires Kept(s) && !e.Insert? && Stepped(s, e).committed == s.committed
    ensures Kept(Stepped(s, e))
  {
    if !e.Leadership? && e.id in s.nodes {
      OwnKeepsNode(s, e);
      OnlyItsNode(s, e);
      hide Stepped, NodeKept, OutcomeKept;
      OneNodeChanged(s, Stepped(s, e), e.id);
    }
  }

  /** Keeping the one sequencer that moved, and the one outcome that is new, is enough. */
  lemma OneNodeChanged(s: Cluster, t: Cluster, id: Id)
    requires Kept(s) && t.committed == s.committed && id in t.nodes && NodeKept(t.committed, id, t.nodes[id])
    requires forall j :: j in t.nodes <==> j in s.nodes
    requires forall j :: j in s.nodes && j != id ==> t.nodes[j] == s.nodes[j]
    requires t.outcomes == s.outcomes || (|t.outcomes| == |s.outcomes| + 1 && t.outcomes[..|s.outcomes|] == s.outcomes)
    requires |t.outcomes| == |s.outcomes| + 1 ==> OutcomeKept(t.outcomes[|s.outcomes|])
    ensures Kept(t)
  {
    hide NodeKept, OutcomeKept;
    if t.outcomes != s.outcomes {
      assert t.outcomes == s.outcomes + [t.outcomes[|s.outcomes|]];
    }
  }

  /** A step touches its own sequencer, and adds at most one outcome. */
  lemma OnlyItsNode(s: Cluster, e: Event)
    requires !e.Leadership? && e.id in s.nodes
    ensures var t := Stepped(s, e);
      && (forall id :: id in t.nodes <==> id in s.nodes)
      && (forall id :: id in s.nodes && id != e.id ==> t.nodes[id] == s.nodes[id])
      && (t.outcomes == s.outcomes || (|t.outcomes| == |s.outcomes| + 1 && t.outcomes[..|s.outcomes|] == s.outcomes))
  {
  }

  lemma OwnKeepsNode(s: Cluster, e: Event)
    requires !e.Leadership? && e.id in s.nodes && !e.Insert? && Stepped(s, e).committed == s.committed
    requires NodeKept(s.committed, e.id, s.nodes[e.id])
    ensures var t := Stepped(s, e);
      && NodeKept(t.committed, e.id, t.nodes[e.id])
      && (|t.outcomes| == |s.outcomes| + 1 ==> OutcomeKept(t.outcomes[|s.outcomes|]))
  {
    hide CommittedBy, Subsequence;
    assert Claimed(Stepped(s, e).nodes[e.id]) == Claimed(s.nodes[e.id]);
  }

  lemma CommitsNothing(s: Cluster, e: Event)
    requires !e.Commit?
    ensures Stepped(s, e).committed == s.committed
  {
  }

  lemma StartIsKept(leader: Option<Id>, heads: map<Id, L2Head>)
    ensures Kept(Start(leader, heads))
  {
    hide Stepped;
    forall id | id in heads
      ensures NodeKept([], id, Fresh(heads[id]))
    {
      assert Claimed(Fresh(heads[id])) == [];
    }
  }

  /** In every run, whatever the leadership does between a check and a commit. */
  lemma {:induction false} KeptByRuns(leader: Option<Id>, heads: map<Id, L2Head>, events: seq<Event>)
    ensures Kept(After(leader, heads, events))
  {
    if events == [] {
      StartIsKept(leader, heads);
    } else {
      hide Kept, Stepped, Start;
      var front, e := events[..|events| - 1], events[|events| - 1];
      KeptByRuns(leader, heads, front);
      match e {
        case Commit(id) => CommitKeeps(After(leader, heads, front), id);
        case Insert(id, ok) => InsertKeeps(After(leader, heads, front), id, ok);
        case _ =>
          CommitsNothing(After(leader, heads, front), e);
          OwnKeeps(After(leader, heads, front), e);
      }
    }
  }

  /** The blocks a sequencer inserts are a subsequence of those committed by its id. */
  lemma InsertedWereCommitted(leader: Option<Id>, heads: map<Id, L2Head>, events: seq<Event>, id: Id)
    requires id in After(leader, heads, events).nodes
    ensures var s := After(leader, heads, events);
      Subsequence(s.nodes[id].inserted, CommittedBy(s.committed, id))
  {
    KeptByRuns(leader, heads, events);
    var s := After(leader, heads, events);
    var n := s.nodes[id];
    assert NodeKept(s.committed, id, n);
    if n.phase.Committed? {
      SubsequenceShrinks(Claimed(n), CommittedBy(s.committed, id));
      assert Claimed(n)[..|n.inserted|] == n.inserted;
    } else {
      assert Claimed(n) == n.inserted;
    }
  }

  /** A build refused because leadership was lost, before it began or between its
      check and its commit, left the head and the inserted blocks as they were; a
      build that succeeded moved the head to the new block and inserted only that. */
  lemma OutcomesAreHonest(leader: Option<Id>, heads: map<Id, L2Head>, events: seq<Event>, o: Outcome)
    requires o in After(leader, heads, events).outcomes
    ensures match o.result
      case NotLeader => o.headAfter == o.headBefore && o.insertedAfter == o.insertedBefore
      case Failed => o.headAfter == o.headBefore
      case Built(p) =>
        && o.headAfter.hash == p.hash && o.headAfter.parentHash == o.headBefore.hash
        && o.headAfter.number == p.number && o.headAfter.timestamp == p.timestamp && o.headAfter.origin == p.origin
        && o.headAfter.seqNum == (if p.origin.number == o.headBefore.origin.number then o.headBefore.seqNum + 1 else 0)
        && o.insertedAfter == o.insertedBefore + [p.hash]
  {
    KeptByRuns(leader, heads, events);
    hide After;
    assert OutcomeKept(o);
  }

  // ------------------------------------------------------ a sequencer's heads are a chain

  /** The successful builds of one sequencer, in order. */
  function BuiltBy(outcomes: seq<Outcome>, id: Id): (builds: seq<Outcome>)
    ensures forall i :: 0 <= i < |builds| ==> builds[i].result.Built? && builds[i].id == id
  {
    if outcomes == [] then []
    else
      var o := outcomes[|outcomes| - 1];
      BuiltBy(outcomes[..|outcomes| - 1], id) + if o.id == id && o.result.Built? then [o] else []
  }

  function HeadAfter(first: L2Head, builds: seq<Outcome>, i: nat): L2Head
    requires i <= |builds|
  {
    if i == 0 then first else builds[i - 1].headAfter
  }

  /** Each build starts from where the one before it ended. */
  ghost predicate Chained(first: L2Head, builds: seq<Outcome>, head: L2Head) {
    && (forall i :: 0 <= i < |builds| ==> builds[i].headBefore == HeadAfter(first, builds, i))
    && head == HeadAfter(first, builds, |builds|)
  }

  lemma BuiltBySnoc(outcomes: seq<Outcome>, o: Outcome, id: Id)
    ensures BuiltBy(outcomes + [o], id) == BuiltBy(outcomes, id) + if o.id == id && o.result.Built? then [o] else []
  {
    assert (outcomes + [o])[..|outcomes|] == outcomes;
  }

  /** A step moves a head only by ending a successful build, from the head it had. */
  lemma HeadStep(s: Cluster, e: Event, id: Id)
    requires id in s.nodes && NodeKept(s.committed, id, s.nodes[id])
    ensures var t := Stepped(s, e);
      id in t.nodes &&
      if |t.outcomes| == |s.outcomes| then t.outcomes == s.outcomes && t.nodes[id].head == s.nodes[id].head
      else
        var o := t.outcomes[|t.outcomes| - 1];
        && t.outcomes == s.outcomes + [o]
        && (o.id == id && o.result.Built? ==> o.headBefore == s.nodes[id].head && o.headAfter == t.nodes[id].head)
        && (!(o.id == id && o.result.Built?) ==> t.nodes[id].head == s.nodes[id].head)
  {
    hide CommittedBy, Subsequence, Advanced;
  }

  lemma ChainGrows(first: L2Head, builds: seq<Outcome>, head: L2Head, o: Outcome)
    requires Chained(first, builds, head) && o.headBefore == head
    ensures Chained(first, builds + [o], o.headAfter)
  {
    var all := builds + [o];
    forall i | 0 <= i < |all|
      ensures all[i].headBefore == HeadAfter(first, all, i)
    {
      assert HeadAfter(first, all, i) == HeadAfter(first, builds, i);
    }
  }

  lemma {:induction false} BuildsAreChained(leader: Option<Id>, heads: map<Id, L2Head>, events: seq<Event>, id: Id)
    requires id in heads
    ensures var s := After(leader, heads, events);
      id in s.nodes && Chained(heads[id], BuiltBy(s.outcomes, id), s.nodes[id].head)
  {
    if events != [] {
      var front, e := events[..|events| - 1], events[|events| - 1];
      BuildsAreChained(leader, heads, front, id);
      KeptByRuns(leader, heads, front);
      var s, t := After(leader, heads, front), After(leader, heads, events);
      HeadStep(s, e, id);
      hide Stepped, Chained, NodeKept, OutcomeKept;
      if t.outcomes != s.outcomes {
        var o := t.outcomes[|t.outcomes| - 1];
        BuiltBySnoc(s.outcomes, o, id);
        if o.id == id && o.result.Built? {
          ChainGrows(heads[id], BuiltBy(s.outcomes, id), s.nodes[id].head, o);
        } else {
          assert BuiltBy(s.outcomes, id) + [] == BuiltBy(s.outcomes, id);
        }
      }
    }
  }

  /** In every run the blocks a sequencer builds form a chain of parent hashes from its first
      head, and its head is the last of them. */
  lemma HeadsAreAChain(leader: Option<Id>, heads: map<Id, L2Head>, events: seq<Event>, id: Id, i: nat)
    requires id in heads
    requires i < |BuiltBy(After(leader, heads, events).outcomes, id)|
    ensures var s := After(leader, heads, events);
      var builds := BuiltBy(s.outcomes, id);
      && builds[i].result.Built? && builds[i].headAfter.hash == builds[i].result.payload.hash
      && builds[i].headAfter.parentHash == (if i == 0 then heads[id].hash else builds[i - 1].result.payload.hash)
      && id in s.nodes && s.nodes[id].head.hash == builds[|builds| - 1].result.payload.hash
  {
    hide After;
    BuildsAreChained(leader, heads, events, id);
    var s := After(leader, heads, events);
    var n := |BuiltBy(s.outcomes, id)|;
    BuildIsHonest(leader, heads, events, id, i);
    BuildIsHonest(leader, heads, events, id, n - 1);
    if i > 0 {
      BuildIsHonest(leader, heads, events, id, i - 1);
    }
  }

  lemma BuildIsHonest(leader: Option<Id>, heads: map<Id, L2Head>, events: seq<Event>, id: Id, i: nat)
    requires i < |BuiltBy(After(leader, heads, events).outcomes, id)|
    ensures var o := BuiltBy(After(leader, heads, events).outcomes, id)[i];
      && o.result.Built? && o.headAfter.hash == o.result.payload.hash && o.headAfter.parentHash == o.headBefore.hash
  {
    hide After;
    var outcomes := After(leader, heads, events).outcomes;
    BuiltAreOutcomes(outcomes, id, i);
    OutcomesAreHonest(leader, heads, events, BuiltBy(outcomes, id)[i]);
  }

  lemma {:induction false} BuiltAreOutcomes(outcomes: seq<Outcome>, id: Id, i: nat)
    requires i < |BuiltBy(outcomes, id)|
    ensures BuiltBy(outcomes, id)[i] in outcomes
  {
    var front := outcomes[..|outcomes| - 1];
    assert outcomes == front + [outcomes[|outcomes| - 1]];
    if i < |BuiltBy(front, id)| {
      BuiltAreOutcomes(front, id, i);
    }
  }

  lemma ClaimAfter(s: Cluster, e: Event, id: Id)
    requires id in s.nodes && e != Insert(id, false)
    requires Claimed(s.nodes[id]) == CommittedBy(s.committed, id)
    ensures var t := Stepped(s, e);
      id in t.nodes && Claimed(t.nodes[id]) == CommittedBy(t.committed, id)
  {
    hide CommittedBy;
    if e.Commit? && e.id in s.nodes && s.nodes[e.id].phase.Sealed? {
      CommittedBySnoc(s.committed, Commitment(e.id, s.nodes[e.id].phase.payload.hash), id);
    }
  }

  /** A sequencer whose inserts never fail misses at most the block it is about to
      insert. */
  lemma {:induction false} InsertedExactly(leader: Option<Id>, heads: map<Id, L2Head>, events: seq<Event>, id: Id)
    requires id in heads && Insert(id, false) !in events
    ensures var s := After(leader, heads, events);
      id in s.nodes && Claimed(s.nodes[id]) == CommittedBy(s.committed, id)
  {
    if events != [] {
      var front, e := events[..|events| - 1], events[|events| - 1];
      assert e in events;
      InsertedExactly(leader, heads, front, id);
      ClaimAfter(After(leader, heads, front), e, id);
    }
  }
}

/**
  The validator side of consensus: ShardValidator (src/consensus/validator.rs) over its in-memory
  and on-disk proposals, and the host actor that the consensus engine drives
  (src/consensus/malachite/host.rs). X stands for byte strings (hashes and addresses), C for the
  contents of blocks and chunks.
*/
module Host {
  import opened Basics
  import opened LocalState
  import opened ProposalStore

  /** Which proposer the validator runs, and which kind of value a proposal carries. */
  datatype Kind = BlockKind | ShardKind

  datatype ValueId<X> = ValueId(shard: U32, hash: X)

  datatype FullProposal<X, C> =
    FullProposal(shard: U32, height: U64, round: I64, proposer: X, kind: Kind, hash: X, content: C)

  datatype Commits<X> = Commits(shard: U32, height: U64, round: I64, value: ValueId<X>)

  /** A block or chunk together with the commits that decided it. */
  datatype Decision<X, C> = Decision(kind: Kind, hash: X, content: C, commits: Commits<X>)

  datatype Config<X> = Config(shard: U32, kind: Kind, address: X)

  function IdOf<X, C>(p: FullProposal<X, C>): ValueId<X>
  {
    ValueId(p.shard, p.hash)
  }

  function Keyed<X, C>(p: FullProposal<X, C>): Proposed<ValueId<X>, FullProposal<X, C>>
  {
    Proposed(p.height, IdOf(p), p)
  }

  function SlotOf<X, C>(p: FullProposal<X, C>): Slot
  {
    Slot(p.shard, p.height, p.round)
  }

  /** The proposal as a decided value of one kind; nothing if it is of the other kind. */
  function As<X, C>(kind: Kind, p: FullProposal<X, C>, c: Commits<X>): Option<Decision<X, C>>
  {
    if p.kind == kind then Some(Decision(kind, p.hash, p.content, c)) else None
  }

  // ----- The node as a state machine -----

  datatype State<X(==), C> = State(
    store: Store<ValueId<X>, FullProposal<X, C>>,
    disk: map<Slot, FullProposal<X, C>>,
    committed: seq<Decision<X, C>>,
    broadcast: seq<Decision<X, C>>)

  /** What the engine and the disk do in a proposing step: the value built, and whether disk access works. */
  datatype Drawn<X, C> = Drawn(hash: X, content: C, readOk: bool, writeOk: bool)

  function FreshProposal<X, C>(cfg: Config<X>, height: U64, round: I64, d: Drawn<X, C>): FullProposal<X, C>
  {
    FullProposal(cfg.shard, height, round, cfg.address, cfg.kind, d.hash, d.content)
  }

  ghost function Reply<X, C>(cfg: Config<X>, s: State<X, C>, height: U64, round: I64, d: Drawn<X, C>): FullProposal<X, C>
  {
    var slot := Slot(cfg.shard, height, round);
    if d.readOk && slot in s.disk then s.disk[slot] else FreshProposal(cfg, height, round, d)
  }

  ghost function AfterPropose<X, C>(cfg: Config<X>, s: State<X, C>, height: U64, round: I64, d: Drawn<X, C>): State<X, C>
  {
    var slot := Slot(cfg.shard, height, round);
    if d.readOk && slot in s.disk then s
    else
      var p := FreshProposal(cfg, height, round, d);
      s.(store := Added(s.store, Keyed(p)), disk := if d.writeOk then s.disk[slot := p] else s.disk)
  }

  /** Block proposers store a block only after judging it valid; shard proposers store every chunk. */
  ghost function AfterReceive<X, C>(cfg: Config<X>, s: State<X, C>, p: FullProposal<X, C>, judged: bool): State<X, C>
  {
    if p.kind == cfg.kind && (cfg.kind == ShardKind || judged) then s.(store := Added(s.store, Keyed(p))) else s
  }

  /** Block proposers call everything valid that is not a block. */
  function ReceiveValidity<X, C>(cfg: Config<X>, p: FullProposal<X, C>, judged: bool): Validity
  {
    if p.kind == cfg.kind then (if judged then Valid else Invalid)
    else if cfg.kind == BlockKind then Valid
    else Invalid
  }

  /** A certificate for an unknown value only restarts the height. */
  ghost function AfterDecided<X, C>(cfg: Config<X>, s: State<X, C>, c: Commits<X>, deleteOk: bool): State<X, C>
  {
    if c.value !in s.store.values then s
    else
      var p := s.store.values[c.value].body;
      var v := Decision(cfg.kind, p.hash, p.content, c);
      State(
        Decided(s.store, c.height),
        if deleteOk then WithoutHeight(s.disk, cfg.shard, c.height) else s.disk,
        s.committed + [v],
        if p.proposer == cfg.address then s.broadcast + [v] else s.broadcast)
  }

  ghost function AfterRestart<X, C>(s: State<X, C>): State<X, C>
  {
    s.(store := Store(map[], map[]))
  }

  /** Everything in memory is of the proposer's kind and shard, and listed at its height. */
  ghost predicate Sound<X(!new), C(!new)>(cfg: Config<X>, s: State<X, C>)
  {
    && Indexed(s.store)
    && (forall id :: id in s.store.values ==>
          var v := s.store.values[id];
          v == Keyed(v.body) && v.body.kind == cfg.kind && v.body.shard == cfg.shard)
    && (forall slot :: slot in s.disk ==> SlotOf(s.disk[slot]) == slot)
  }

  // ----- The classes -----

  class ShardValidator<X(==, !new), C(!new)> {
    const cfg: Config<X>
    const proposed: ProposedValues<ValueId<X>, FullProposal<X, C>>
    const local: LocalStateStore<FullProposal<X, C>>
    var engineLog: seq<Decision<X, C>>

    ghost predicate Valid()
      reads this, proposed, local
    {
      local.Valid() && Sound(cfg, View([]))
    }

    /** The validator's part of the state, given what has been broadcast. */
    ghost function View(broadcast: seq<Decision<X, C>>): State<X, C>
      reads this, proposed, local
    {
      State(proposed.State(), local.proposals, engineLog, broadcast)
    }

    /** A validator starts, or restarts, with an empty memory and whatever is on disk. */
    constructor (cfg: Config<X>, local: LocalStateStore<FullProposal<X, C>>, engineLog: seq<Decision<X, C>>)
      requires local.Valid() && forall slot :: slot in local.proposals ==> SlotOf(local.proposals[slot]) == slot
      ensures Valid() && fresh(proposed) && this.cfg == cfg && this.local == local
      ensures View([]) == State(Store(map[], map[]), local.proposals, engineLog, [])
    {
      this.cfg := cfg;
      this.local := local;
      this.engineLog := engineLog;
      proposed := new ProposedValues<ValueId<X>, FullProposal<X, C>>();
    }

    method GetProposedValue(id: ValueId<X>) returns (r: Option<FullProposal<X, C>>)
      ensures r == if id in proposed.values then Some(proposed.values[id].body) else None
    {
      var found := proposed.GetByShardHash(id);
      r := if found.Some? then Some(found.value.body) else None;
    }

    method ProposeValue(height: U64, round: I64, d: Drawn<X, C>) returns (p: FullProposal<X, C>)
      requires Valid()
      modifies this, proposed, local
      ensures Valid() && p == Reply(cfg, old(View([])), height, round, d)
      ensures View([]) == AfterPropose(cfg, old(View([])), height, round, d)
    {
      var slot := Slot(cfg.shard, height, round);
      if d.readOk {
        var found := local.GetProposal(slot);
        if found.Some? {
          return found.value;
        }
      }
      p := FreshProposal(cfg, height, round, d);
      ghost var before := View([]);
      proposed.AddProposedValue(Keyed(p));
      if d.writeOk {
        local.PutProposal(slot, p);
      }
      ProposeIsSound(cfg, before, height, round, d);
    }

    /** The source panics on a proposal for another shard. */
    method AddProposedValue(p: FullProposal<X, C>, judged: bool) returns (validity: Validity)
      requires Valid() && p.shard == cfg.shard
      modifies this, proposed
      ensures Valid() && validity == ReceiveValidity(cfg, p, judged)
      ensures View([]) == AfterReceive(cfg, old(View([])), p, judged)
    {
      ghost var before := View([]);
      if cfg.kind == BlockKind {
        if p.kind == BlockKind {
          if !judged {
            return Invalid;
          }
          proposed.AddProposedValue(Keyed(p));
          ReceiveIsSound(cfg, before, p, judged);
        }
        return Validity.Valid;
      } else {
        if p.kind == ShardKind {
          proposed.AddProposedValue(Keyed(p));
          ReceiveIsSound(cfg, before, p, judged);
          return if judged then Validity.Valid else Invalid;
        }
        return Invalid;
      }
    }

    /** The source panics on commits for another shard, on an unknown value, and on one of the wrong kind. */
    method Decide(c: Commits<X>, deleteOk: bool)
      requires Valid() && c.shard == cfg.shard
      requires c.value in proposed.values && As(cfg.kind, proposed.values[c.value].body, c).Some?
      modifies this, proposed, local
      ensures Valid()
      ensures View([]) == AfterDecided(cfg, old(View([])), c, deleteOk).(broadcast := [])
    {
      ghost var before := View([]);
      var found := proposed.GetByShardHash(c.value);
      var decision := As(cfg.kind, found.value.body, c).value;
      engineLog := engineLog + [decision];
      proposed.Decide(c.height);
      if deleteOk {
        local.DeleteProposals(cfg.shard, c.height);
      }
      DecidedIsSound(cfg, before, c, deleteOk);
    }
  }

  datatype Outcome<X, C> = HeightRestarted(height: U64) | Published(decision: Option<Decision<X, C>>)

  class HostState<X(==, !new), C(!new)> {
    const validator: ShardValidator<X, C>
    var gossip: seq<Decision<X, C>>

    ghost predicate Valid()
      reads this, validator, validator.proposed, validator.local
    {
      validator.Valid()
    }

    ghost function View(): State<X, C>
      reads this, validator, validator.proposed, validator.local
    {
      validator.View(gossip)
    }

    constructor (validator: ShardValidator<X, C>)
      requires validator.Valid()
      ensures Valid() && this.validator == validator && gossip == []
    {
      this.validator := validator;
      gossip := [];
    }

    /** The Decided step: no panic of the validator is reachable from here. */
    method HandleDecided(c: Commits<X>, deleteOk: bool) returns (out: Outcome<X, C>)
      requires Valid() && c.shard == validator.cfg.shard
      modifies this, validator, validator.proposed, validator.local
      ensures Valid() && View() == AfterDecided(validator.cfg, old(View()), c, deleteOk)
      ensures out.HeightRestarted? <==> c.value !in old(validator.proposed.values)
      ensures out.HeightRestarted? ==> out.height == c.height
      ensures out.Published? ==>
        && out.decision.Some?
        && View().committed == old(View().committed) + [out.decision.value]
        && out.decision.value.hash == c.value.hash && out.decision.value.commits == c
        && out.decision.value.kind == validator.cfg.kind
    {
      var result := validator.GetProposedValue(c.value);
      if result.None? {
        return HeightRestarted(c.height);
      }
      var p := result.value;
      validator.Decide(c, deleteOk);
      var decision := As(BlockKind, p, c);
      if decision.None? {
        decision := As(ShardKind, p, c);
      }
      if p.proposer == validator.cfg.address {
        gossip := gossip + [decision.value];
      }
      return Published(decision);
    }
  }

  // ----- Every step keeps the state sound -----

  lemma ProposeIsSound<X(!new), C(!new)>(cfg: Config<X>, s: State<X, C>, height: U64, round: I64, d: Drawn<X, C>)
    requires Sound(cfg, s)
    ensures Sound(cfg, AfterPropose(cfg, s, height, round, d))
  {
  }

  lemma ReceiveIsSound<X(!new), C(!new)>(cfg: Config<X>, s: State<X, C>, p: FullProposal<X, C>, judged: bool)
    requires Sound(cfg, s) && p.shard == cfg.shard
    ensures Sound(cfg, AfterReceive(cfg, s, p, judged))
  {
  }

  lemma DecidedIsSound<X(!new), C(!new)>(cfg: Config<X>, s: State<X, C>, c: Commits<X>, deleteOk: bool)
    requires Sound(cfg, s)
    ensures Sound(cfg, AfterDecided(cfg, s, c, deleteOk))
  {
    if c.value in s.store.values {
      forall x | x in Decided(s.store, c.height).values
        ensures x in HashesAt(Decided(s.store, c.height), s.store.values[x].height)
      {
        assert x in HashesAt(s.store, s.store.values[x].height);
      }
    }
  }

  // ----- Runs -----

  datatype Event<X, C> =
    | GetValue(height: U64, round: I64, drawn: Drawn<X, C>)
    | ReceivedProposal(proposal: FullProposal<X, C>, judged: bool)
    | SyncedValue(height: U64, round: I64, proposer: X, hash: X, content: C, judged: bool)
    | DecidedBy(commits: Commits<X>, deleteOk: bool)
    | Restart

  /** A synced value comes as bytes; the shard says how to read them. */
  function SyncedProposal<X, C>(cfg: Config<X>, e: Event<X, C>): FullProposal<X, C>
    requires e.SyncedValue?
  {
    var kind := if cfg.shard == 0 then BlockKind else ShardKind;
    FullProposal(cfg.shard, e.height, e.round, e.proposer, kind, e.hash, e.content)
  }

  ghost function Step<X, C>(cfg: Config<X>, s: State<X, C>, e: Event<X, C>): State<X, C>
  {
    match e
    case GetValue(height, round, drawn) => AfterPropose(cfg, s, height, round, drawn)
    case ReceivedProposal(p, judged) => AfterReceive(cfg, s, p, judged)
    case SyncedValue(_, _, _, _, _, judged) => AfterReceive(cfg, s, SyncedProposal(cfg, e), judged)
    case DecidedBy(c, deleteOk) => AfterDecided(cfg, s, c, deleteOk)
    case Restart => AfterRestart(s)
  }

  ghost function Run<X, C>(cfg: Config<X>, s: State<X, C>, es: seq<Event<X, C>>): State<X, C>
  {
    if es == [] then s else Step(cfg, Run(cfg, s, es[..|es| - 1]), es[|es| - 1])
  }

  ghost function Initial<X, C>(): State<X, C>
  {
    State(Store(map[], map[]), map[], [], [])
  }

  /** The events the node is sent: proposals are for its own shard. */
  ghost predicate OwnShard<X(!new), C(!new)>(cfg: Config<X>, es: seq<Event<X, C>>)
  {
    forall e :: e in es ==> e.ReceivedProposal? ==> e.proposal.shard == cfg.shard
  }

  lemma {:induction false} RunsAreSound<X(!new), C(!new)>(cfg: Config<X>, es: seq<Event<X, C>>)
    requires OwnShard(cfg, es)
    ensures Sound(cfg, Run(cfg, Initial(), es))
  {
    if es != [] {
      var init, e := es[..|es| - 1], es[|es| - 1];
      assert forall x :: x in init ==> x in es;
      assert e in es;
      RunsAreSound(cfg, init);
      var s := Run(cfg, Initial(), init);
      match e
      case GetValue(height, round, drawn) => ProposeIsSound(cfg, s, height, round, drawn);
      case ReceivedProposal(p, judged) => ReceiveIsSound(cfg, s, p, judged);
      case SyncedValue(_, _, _, _, _, judged) => ReceiveIsSound(cfg, s, SyncedProposal(cfg, e), judged);
      case DecidedBy(c, deleteOk) => DecidedIsSound(cfg, s, c, deleteOk);
      case Restart =>
    }
  }

  /**
    After every run of proposals, received parts, synced values, certificates and restarts, a
    certificate for a value in memory finds a proposal of the right kind, commits the very value it
    would broadcast, with the certificate's hash, and leaves no proposal of a decided height in memory
    and none of its own height on disk.
  */
  lemma DecidedCommitsWhatItBroadcasts<X(!new), C(!new)>(
      cfg: Config<X>, es: seq<Event<X, C>>, c: Commits<X>, deleteOk: bool)
    requires OwnShard(cfg, es)
    ensures var s := Run(cfg, Initial(), es);
      var s' := AfterDecided(cfg, s, c, deleteOk);
      c.value in s.store.values ==>
        var p := s.store.values[c.value].body;
        && As(cfg.kind, p, c).Some?
        && s'.committed == s.committed + [As(cfg.kind, p, c).value]
        && As(cfg.kind, p, c).value.hash == c.value.hash
        && c.value.shard == cfg.shard
        && (p.proposer == cfg.address ==> s'.broadcast == s.broadcast + [s'.committed[|s.committed|]])
        && (forall id :: id in s'.store.values ==> s'.store.values[id].height > c.height)
        && (deleteOk ==> forall slot ::
              slot in s'.disk <==> slot in s.disk && !(slot.shard == cfg.shard && slot.height == c.height))
  {
    RunsAreSound(cfg, es);
    var s := Run(cfg, Initial(), es);
    if c.value in s.store.values {
      OnlyLaterSurvive(s.store, c.height);
    }
  }

  // ----- Proposing across crashes -----

  /** Does this event, from this state, delete the height's proposals? Only a certificate for a value in memory does. */
  ghost predicate Erases<X, C>(s: State<X, C>, e: Event<X, C>, height: U64)
  {
    e.DecidedBy? && e.commits.height == height && e.deleteOk && e.commits.value in s.store.values
  }

  /** A request for the slot that cannot read the disk but can write it. */
  ghost predicate Overwrites<X, C>(e: Event<X, C>, height: U64, round: I64)
  {
    e.GetValue? && e.height == height && e.round == round && !e.drawn.readOk && e.drawn.writeOk
  }

  /** Along the stretch nothing deletes the height's proposals, and no request overwrites the slot for want of reading it. */
  ghost predicate Undisturbed<X(!new), C(!new)>(
      cfg: Config<X>, s: State<X, C>, es: seq<Event<X, C>>, height: U64, round: I64)
  {
    forall i :: 0 <= i < |es| ==> !Erases(Run(cfg, s, es[..i]), es[i], height) && !Overwrites(es[i], height, round)
  }

  lemma StepKeepsSlot<X(!new), C(!new)>(cfg: Config<X>, s: State<X, C>, e: Event<X, C>, height: U64, round: I64)
    requires Slot(cfg.shard, height, round) in s.disk
    requires !Erases(s, e, height) && !Overwrites(e, height, round)
    ensures var slot := Slot(cfg.shard, height, round);
      slot in Step(cfg, s, e).disk && Step(cfg, s, e).disk[slot] == s.disk[slot]
  {
  }

  lemma UndisturbedStart<X(!new), C(!new)>(
      cfg: Config<X>, s: State<X, C>, es: seq<Event<X, C>>, height: U64, round: I64, n: nat)
    requires n <= |es| && Undisturbed(cfg, s, es, height, round)
    ensures Undisturbed(cfg, s, es[..n], height, round)
  {
    forall i | 0 <= i < n
      ensures !Erases(Run(cfg, s, es[..n][..i]), es[..n][i], height) && !Overwrites(es[..n][i], height, round)
    {
      assert es[..n][..i] == es[..i] && es[..n][i] == es[i];
    }
  }

  lemma {:induction false} DiskKeepsSlot<X(!new), C(!new)>(
      cfg: Config<X>, s: State<X, C>, es: seq<Event<X, C>>, height: U64, round: I64)
    requires Slot(cfg.shard, height, round) in s.disk && Undisturbed(cfg, s, es, height, round)
    ensures var slot := Slot(cfg.shard, height, round);
      slot in Run(cfg, s, es).disk && Run(cfg, s, es).disk[slot] == s.disk[slot]
  {
    if es != [] {
      var n := |es| - 1;
      UndisturbedStart(cfg, s, es, height, round, n);
      DiskKeepsSlot(cfg, s, es[..n], height, round);
      StepKeepsSlot(cfg, Run(cfg, s, es[..n]), es[n], height, round);
    }
  }

  /**
    Crash-safe proposing: whatever happens in between, restarts and certificates for values not in
    memory included, a second request for a height and round returns the proposal of the first, if
    the first was stored or came from disk, the second can read it, and nothing deleted or overwrote it.
  */
  lemma ProposingIsCrashSafe<X(!new), C(!new)>(
      cfg: Config<X>, before: seq<Event<X, C>>, between: seq<Event<X, C>>,
      height: U64, round: I64, d1: Drawn<X, C>, d2: Drawn<X, C>)
    requires d2.readOk
    requires d1.writeOk || (d1.readOk && Slot(cfg.shard, height, round) in Run(cfg, Initial(), before).disk)
    requires Undisturbed(cfg, AfterPropose(cfg, Run(cfg, Initial(), before), height, round, d1), between, height, round)
    ensures var s1 := Run(cfg, Initial(), before);
      var s2 := Run(cfg, AfterPropose(cfg, s1, height, round, d1), between);
      Reply(cfg, s1, height, round, d1) == Reply(cfg, s2, height, round, d2)
  {
    var s1 := Run(cfg, Initial(), before);
    DiskKeepsSlot(cfg, AfterPropose(cfg, s1, height, round, d1), between, height, round);
  }

  /**
    The crash itself: a proposal is stored, the node restarts and recovers it from disk. Its
    certificate then commits nothing, the height restarts, and the next request returns it again.
  */
  lemma RecoveredProposalIsNotCommitted<X(!new), C(!new)>(
      cfg: Config<X>, height: U64, round: I64, d1: Drawn<X, C>, d2: Drawn<X, C>, d3: Drawn<X, C>, c: Commits<X>)
    requires d1.writeOk && d2.readOk && d3.readOk && c.value == ValueId(cfg.shard, d1.hash)
    ensures
      var es := [GetValue(height, round, d1), Restart, GetValue(height, round, d2), DecidedBy(c, true)];
      && Run(cfg, Initial(), es).committed == []
      && Reply(cfg, Run(cfg, Initial(), es), height, round, d3) == FreshProposal(cfg, height, round, d1)
  {
    var e1: Event<X, C>, e2: Event<X, C>, e3: Event<X, C>, e4: Event<X, C> :=
      GetValue(height, round, d1), Restart, GetValue(height, round, d2), DecidedBy(c, true);
    RunStep(cfg, Initial(), [], e1);
    RunStep(cfg, Initial(), [e1], e2);
    RunStep(cfg, Initial(), [e1, e2], e3);
    RunStep(cfg, Initial(), [e1, e2, e3], e4);
    assert [] + [e1] == [e1] && [e1] + [e2] == [e1, e2];
    assert [e1, e2] + [e3] == [e1, e2, e3] && [e1, e2, e3] + [e4] == [e1, e2, e3, e4];
  }

  lemma RunStep<X, C>(cfg: Config<X>, s: State<X, C>, es: seq<Event<X, C>>, e: Event<X, C>)
    ensures Run(cfg, s, es + [e]) == Step(cfg, Run(cfg, s, es), e)
  {
    assert (es + [e])[..|es|] == es;
  }

  /**
    A certificate for the value just proposed commits it exactly when the proposal was built
    afresh or is in memory anyway: one recovered from disk is not put back into memory.
  */
  lemma OwnProposalIsCommittedIff<X(!new), C(!new)>(
      cfg: Config<X>, s: State<X, C>, height: U64, round: I64, d: Drawn<X, C>, c: Commits<X>, deleteOk: bool)
    requires c.value == IdOf(Reply(cfg, s, height, round, d))
    ensures var s' := AfterPropose(cfg, s, height, round, d);
      AfterDecided(cfg, s', c, deleteOk).committed != s'.committed
      <==> !(d.readOk && Slot(cfg.shard, height, round) in s.disk) || c.value in s.store.values
  {
  }

  /**
    A proposal reported valid is in memory afterwards exactly when it is of the proposer's kind or
    was there before: a block proposer calls a chunk valid without storing it.
  */
  lemma ValidProposalIsStoredIff<X(!new), C(!new)>(cfg: Config<X>, s: State<X, C>, p: FullProposal<X, C>, judged: bool)
    requires ReceiveValidity(cfg, p, judged) == Valid
    ensures IdOf(p) in AfterReceive(cfg, s, p, judged).store.values <==> p.kind == cfg.kind || IdOf(p) in s.store.values
  {
  }

  /** A block proposer that is sent a chunk calls it valid and remembers nothing, so its certificate restarts the height. */
  lemma ChunkIsValidButNotStored<X(!new), C(!new)>(
      cfg: Config<X>, p: FullProposal<X, C>, judged: bool, c: Commits<X>, deleteOk: bool)
    requires cfg.kind == BlockKind && p.kind == ShardKind && c.value == IdOf(p)
    ensures ReceiveValidity(cfg, p, judged) == Valid
    ensures Run(cfg, Initial(), [ReceivedProposal(p, judged), DecidedBy(c, deleteOk)]) == Initial()
  {
    var e1: Event<X, C>, e2: Event<X, C> := ReceivedProposal(p, judged), DecidedBy(c, deleteOk);
    RunStep(cfg, Initial(), [], e1);
    RunStep(cfg, Initial(), [e1], e2);
    assert [] + [e1] == [e1] && [e1] + [e2] == [e1, e2];
  }

  // ----- What is said, kept, committed and sent -----

  /** A proposal is called valid if the engine accepts one of the proposer's kind, or if a block proposer is sent a chunk. */
  lemma VerdictIsValidIff<X(!new), C(!new)>(cfg: Config<X>, p: FullProposal<X, C>, judged: bool)
    ensures ReceiveValidity(cfg, p, judged) == Valid
       <==> (p.kind == cfg.kind && judged) || (cfg.kind == BlockKind && p.kind == ShardKind)
  {
  }

  /** A proposal is called invalid and kept all the same exactly if it is a chunk that a shard proposer's engine refuses. */
  lemma InvalidIsStoredIff<X(!new), C(!new)>(cfg: Config<X>, s: State<X, C>, p: FullProposal<X, C>, judged: bool)
    requires ValueId(p.shard, p.hash) !in s.store.values
    ensures (ReceiveValidity(cfg, p, judged) == Invalid
             && ValueId(p.shard, p.hash) in AfterReceive(cfg, s, p, judged).store.values)
       <==> cfg.kind == ShardKind && p.kind == ShardKind && !judged
  {
  }

  /** A chunk reported invalid is committed by its certificate; a block reported invalid is not. */
  lemma RefusedChunkIsCommitted<X(!new), C(!new)>(
      cfg: Config<X>, p: FullProposal<X, C>, c: Commits<X>, deleteOk: bool)
    requires p.kind == cfg.kind && c.value == ValueId(p.shard, p.hash)
    ensures ReceiveValidity(cfg, p, false) == Invalid
    ensures Run(cfg, Initial(), [ReceivedProposal(p, false), DecidedBy(c, deleteOk)]).committed
      == if cfg.kind == ShardKind then [Decision(ShardKind, p.hash, p.content, c)] else []
  {
    TwoSteps(cfg, Initial(), ReceivedProposal(p, false), DecidedBy(c, deleteOk));
  }

  lemma TwoSteps<X, C>(cfg: Config<X>, s: State<X, C>, e1: Event<X, C>, e2: Event<X, C>)
    ensures Run(cfg, s, [e1, e2]) == Step(cfg, Step(cfg, s, e1), e2)
  {
    RunStep(cfg, s, [], e1);
    RunStep(cfg, s, [e1], e2);
    assert [] + [e1] == [e1] && [e1] + [e2] == [e1, e2];
  }

  /**
    From any state: a proposal of the proposer's kind that the engine accepts is committed by its
    certificate as it came, and broadcast exactly if this node proposed it.
  */
  lemma ReceivedIsCommitted<X(!new), C(!new)>(
      cfg: Config<X>, s: State<X, C>, p: FullProposal<X, C>, c: Commits<X>, deleteOk: bool)
    requires p.kind == cfg.kind && c.value == ValueId(p.shard, p.hash)
    ensures var t := Run(cfg, s, [ReceivedProposal(p, true), DecidedBy(c, deleteOk)]);
      var v := Decision(cfg.kind, p.hash, p.content, c);
      && t.committed == s.committed + [v]
      && t.broadcast == if p.proposer == cfg.address then s.broadcast + [v] else s.broadcast
  {
    TwoSteps(cfg, s, ReceivedProposal(p, true), DecidedBy(c, deleteOk));
  }

  /** From any state: a value that comes by sync and is accepted is committed by its certificate, block or chunk. */
  lemma SyncedIsCommitted<X(!new), C(!new)>(
      cfg: Config<X>, s: State<X, C>, height: U64, round: I64, proposer: X, hash: X, content: C, c: Commits<X>,
      deleteOk: bool)
    requires (cfg.kind == BlockKind <==> cfg.shard == 0) && c.value == ValueId(cfg.shard, hash)
    ensures
      var t := Run(cfg, s, [SyncedValue(height, round, proposer, hash, content, true), DecidedBy(c, deleteOk)]);
      var v := Decision(cfg.kind, hash, content, c);
      && t.committed == s.committed + [v]
      && t.broadcast == if proposer == cfg.address then s.broadcast + [v] else s.broadcast
  {
    TwoSteps(cfg, s, SyncedValue(height, round, proposer, hash, content, true), DecidedBy(c, deleteOk));
  }

  /**
    From any state with no proposal on disk for the slot: the proposal returned carries the drawn
    hash and content and this node's address, shard and kind, and its certificate commits and
    broadcasts it.
  */
  lemma FreshProposalIsCommitted<X(!new), C(!new)>(
      cfg: Config<X>, s: State<X, C>, height: U64, round: I64, d: Drawn<X, C>, c: Commits<X>, deleteOk: bool)
    requires Slot(cfg.shard, height, round) !in s.disk && c.value == ValueId(cfg.shard, d.hash)
    ensures Reply(cfg, s, height, round, d)
      == FullProposal(cfg.shard, height, round, cfg.address, cfg.kind, d.hash, d.content)
    ensures var t := Run(cfg, s, [GetValue(height, round, d), DecidedBy(c, deleteOk)]);
      var v := Decision(cfg.kind, d.hash, d.content, c);
      t.committed == s.committed + [v] && t.broadcast == s.broadcast + [v]
  {
    TwoSteps(cfg, s, GetValue(height, round, d), DecidedBy(c, deleteOk));
  }
}

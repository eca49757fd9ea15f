/**
  The read node (src/consensus/read_validator.rs): every decided value is checked against the
  validators in force before it enters catch-up.
*/
module ReadNode {
  import opened Basics
  import opened ByteStrings
  import opened ValidatorSets
  import opened Certificates
  import opened Blocks
  import opened Versions
  import opened CatchUp

  datatype Payload = ShardValue(chunk: ShardChunk) | BlockValue(block: Block)

  datatype DecidedValue = DecidedValue(payload: Payload, certificate: Certificate)

  /** What does not change while the node runs. */
  datatype Config = Config(
    sets: seq<StoredValidatorSet>, shard: nat, verify: Verifier, maxBuffered: nat, holdsBlocks: bool)

  /** The height in the value's own header. */
  function HeightOf(v: DecidedValue): nat
  {
    match v.payload
    case ShardValue(chunk) => chunk.height
    case BlockValue(block) => block.header.height
  }

  function EntryOf(v: DecidedValue): Entry<DecidedValue>
  {
    Entry(HeightOf(v), v)
  }

  /** The keys the certificate is checked against: those in force at the certificate's height. */
  function KeysFor(cfg: Config, v: DecidedValue): seq<Bytes>
    requires cfg.sets != []
  {
    Addresses(InForce(cfg.sets, cfg.shard, v.certificate.height))
  }

  /** The value carries a good certificate and, if it is a block, the right protocol version. */
  ghost predicate Accepted(cfg: Config, v: DecidedValue)
    requires cfg.sets != []
  {
    && Accepts(v.certificate, KeysFor(cfg, v), cfg.verify)
    && (v.payload.BlockValue? ==> HasScheduledVersion(v.payload.block.header))
  }

  ghost function Process(cfg: Config, s: Node<DecidedValue>, v: DecidedValue): Node<DecidedValue>
    requires cfg.sets != []
  {
    if Accepted(cfg, v) then Deliver(cfg.maxBuffered, s, EntryOf(v)) else s
  }

  // ----- The class -----

  /** The log from a place on holds only values of the engine's kind: blocks, or else chunks. */
  ghost predicate TakesAll(cfg: Config, log: seq<Entry<DecidedValue>>, from: nat)
  {
    forall i :: from <= i < |log| ==> log[i].value.payload.BlockValue? == cfg.holdsBlocks
  }

  ghost predicate WellKept(cfg: Config, buffer: map<nat, DecidedValue>, next: nat)
  {
    |buffer| <= cfg.maxBuffered && forall h :: h in buffer ==> next <= h
  }

  lemma WellKeptWithout(cfg: Config, buffer: map<nat, DecidedValue>, least: nat)
    requires WellKept(cfg, buffer, least) && least in buffer
    ensures WellKept(cfg, buffer - {least}, least + 1) && |buffer - {least}| == |buffer| - 1
  {
    assert (buffer - {least}).Keys == buffer.Keys - {least};
  }

  /** The drain logs the buffered value of the next height, if there is one. */
  lemma DrainLogsNext(s: Node<DecidedValue>)
    requires s.last + 1 in s.buffer
    ensures |s.log| < |Drain(s).log| && Drain(s).log[|s.log|].value == s.buffer[s.last + 1]
  {
    FrontierIsAhead(s.buffer.Keys, s.last, Drain(s).last);
  }

  lemma FrontierIsAhead(keys: set<nat>, n: nat, g: nat)
    requires IsFrontier(keys, n, g) && n + 1 in keys
    ensures g > n
  {
  }

  class ReadValidator {
    const cfg: Config
    var lastHeight: nat
    var committed: seq<Entry<DecidedValue>>
    var bufferedBlocks: map<nat, DecidedValue>

    ghost function State(): Node<DecidedValue>
      reads this
    {
      Node(lastHeight, committed, bufferedBlocks)
    }

    ghost predicate Valid()
      reads this
    {
      cfg.sets != [] && WellKept(cfg, bufferedBlocks, lastHeight + 2)
    }

    constructor (cfg: Config, confirmed: nat)
      requires cfg.sets != []
      ensures Valid() && this.cfg == cfg && State() == Fresh(confirmed)
    {
      this.cfg := cfg;
      lastHeight := confirmed;
      committed := [];
      bufferedBlocks := map[];
    }

    /** The engine panics, that is `ok` is false, exactly on a value of the other kind. */
    method CommitDecidedValue(v: DecidedValue, height: nat) returns (ok: bool)
      modifies this`lastHeight, this`committed
      ensures ok <==> v.payload.BlockValue? == cfg.holdsBlocks
      ensures ok ==> lastHeight == height && committed == old(committed) + [Entry(height, v)]
      ensures !ok ==> lastHeight == old(lastHeight) && committed == old(committed)
    {
      if cfg.holdsBlocks {
        ok := v.payload.BlockValue?;
      } else {
        ok := v.payload.ShardValue?;
      }
      if ok {
        committed := committed + [Entry(height, v)];
        lastHeight := height;
      }
    }

    /** Take the least buffered height out of the buffer. */
    method PopFirst() returns (height: nat, value: DecidedValue)
      requires bufferedBlocks != map[] && WellKept(cfg, bufferedBlocks, lastHeight + 1)
      modifies this`bufferedBlocks
      ensures height in old(bufferedBlocks) && value == old(bufferedBlocks)[height] && lastHeight < height
      ensures bufferedBlocks == old(bufferedBlocks) - {height} && |bufferedBlocks| < |old(bufferedBlocks)|
      ensures WellKept(cfg, bufferedBlocks, height + 1)
    {
      height := Least(bufferedBlocks.Keys);
      value := bufferedBlocks[height];
      WellKeptWithout(cfg, bufferedBlocks, height);
      bufferedBlocks := bufferedBlocks - {height};
    }

    /** One turn of the drain: the next height is committed, or put back at a gap, or the engine panics. */
    method DrainStep() returns (ok: bool, more: bool)
      requires bufferedBlocks != map[] && WellKept(cfg, bufferedBlocks, lastHeight + 1)
      modifies this
      ensures more <==> old(lastHeight) + 1 in old(bufferedBlocks)
      ensures ok <==> (more ==> old(bufferedBlocks)[old(lastHeight) + 1].payload.BlockValue? == cfg.holdsBlocks)
      ensures ok && more ==> State() == Advanced(old(State())) && |bufferedBlocks| < |old(bufferedBlocks)|
      ensures !more ==> State() == old(State())
      ensures ok ==> WellKept(cfg, bufferedBlocks, lastHeight + 1)
    {
      ghost var buffer := bufferedBlocks;
      var height, value := PopFirst();
      ok, more := true, false;
      if height == lastHeight + 1 {
        ok := CommitDecidedValue(value, height);
        more := true;
      } else if height > lastHeight + 1 {
        bufferedBlocks := bufferedBlocks[height := value];
        assert bufferedBlocks == buffer;
      }
    }

    /** None if the engine panics, which it does exactly when the drain would log a value of the other kind. */
    method ProcessBufferedBlocks() returns (processed: Option<nat>)
      requires cfg.sets != [] && WellKept(cfg, bufferedBlocks, lastHeight + 1)
      modifies this
      ensures processed.Some? <==> TakesAll(cfg, Drain(old(State())).log, |old(committed)|)
      ensures processed.Some? ==> Valid() && State() == Drain(old(State()))
      ensures processed.Some? ==> processed.value == lastHeight - old(lastHeight)
    {
      var count := 0;
      ghost var drained, logged := Drain(State()), |committed|;
      while bufferedBlocks != map[]
        invariant WellKept(cfg, bufferedBlocks, lastHeight + 1)
        invariant Drain(State()) == drained
        invariant logged <= |committed| && TakesAll(cfg, committed, logged)
        invariant count == lastHeight - old(lastHeight)
        decreases |bufferedBlocks|
      {
        ghost var before := State();
        var ok, more := DrainStep();
        if more {
          DrainLogsNext(before);
          if !ok {
            return None;
          }
          count := count + 1;
          DrainOfAdvanced(before);
        } else {
          break;
        }
      }
      DrainOfGap(State());
      return Some(count);
    }

    /** None if the engine panics, which it does exactly when the step would log a value of the other kind. */
    method ProcessDecidedValue(v: DecidedValue) returns (count: Option<nat>)
      requires Valid()
      modifies this
      ensures count.Some? <==> TakesAll(cfg, Process(cfg, old(State()), v).log, |old(committed)|)
      ensures count.Some? ==> Valid() && State() == Process(cfg, old(State()), v)
      ensures count.Some? ==> count.value == lastHeight - old(lastHeight)
    {
      var height := HeightOf(v);
      var keys := GetValidatorSet(cfg.sets, cfg.shard, v.certificate.height);
      var verified := VerifySignatures(v.certificate, Addresses(keys), cfg.verify);
      if !verified {
        return Some(0);
      }
      if v.payload.BlockValue? {
        var scheduled := ValidateProtocolVersion(v.payload.block);
        if !scheduled {
          return Some(0);
        }
      }
      if height > lastHeight + 1 {
        if |bufferedBlocks| < cfg.maxBuffered {
          bufferedBlocks := bufferedBlocks[height := v];
        }
        return Some(0);
      } else if height == lastHeight + 1 {
        count := CommitAndDrain(v, height);
      } else {
        return Some(0);
      }
    }

    method CommitAndDrain(v: DecidedValue, height: nat) returns (count: Option<nat>)
      requires Valid() && height == lastHeight + 1
      modifies this
      ensures count.Some? <==> TakesAll(cfg, Drain(Commit(old(State()), Entry(height, v))).log, |old(committed)|)
      ensures count.Some? ==> Valid() && State() == Drain(Commit(old(State()), Entry(height, v)))
      ensures count.Some? ==> count.value == lastHeight - old(lastHeight)
    {
      ghost var next := Commit(State(), Entry(height, v));
      assert Drain(next).log[|committed|].value == v;
      var ok := CommitDecidedValue(v, height);
      if !ok {
        return None;
      }
      var drained := ProcessBufferedBlocks();
      return if drained.Some? then Some(drained.value + 1) else None;
    }
  }

  // ----- Runs -----

  /** A run: arbitrary values processed one after the other. */
  ghost function ProcessAll(cfg: Config, s: Node<DecidedValue>, vs: seq<DecidedValue>): Node<DecidedValue>
    requires cfg.sets != []
  {
    if vs == [] then s else Process(cfg, ProcessAll(cfg, s, vs[..|vs| - 1]), vs[|vs| - 1])
  }

  /** What of a run gets past the checks, in order. */
  ghost function Verified(cfg: Config, vs: seq<DecidedValue>): (es: seq<Entry<DecidedValue>>)
    requires cfg.sets != []
    ensures forall e :: e in es ==> e.value in vs && Accepted(cfg, e.value) && e == EntryOf(e.value)
  {
    if vs == [] then []
    else
      var init := Verified(cfg, vs[..|vs| - 1]);
      if Accepted(cfg, vs[|vs| - 1]) then init + [EntryOf(vs[|vs| - 1])] else init
  }

  /** A run over arbitrary values is catch-up over the verified ones. */
  lemma {:induction false} RunIsCatchUp(cfg: Config, s: Node<DecidedValue>, vs: seq<DecidedValue>)
    requires cfg.sets != []
    ensures ProcessAll(cfg, s, vs) == DeliverAll(cfg.maxBuffered, s, Verified(cfg, vs))
  {
    if vs != [] {
      var init, v := vs[..|vs| - 1], vs[|vs| - 1];
      RunIsCatchUp(cfg, s, init);
      if Accepted(cfg, v) {
        assert Verified(cfg, vs)[..|Verified(cfg, vs)| - 1] == Verified(cfg, init);
      }
    }
  }

  /** The hash a payload carries. */
  function PayloadHash(v: DecidedValue): Bytes
  {
    match v.payload
    case ShardValue(chunk) => chunk.hash
    case BlockValue(block) => block.hash
  }

  /** The assumptions on one height under which its accepted certificates cannot conflict. */
  ghost predicate HonestAt(cfg: Config, h: nat, round: int, faulty: set<Bytes>)
    requires cfg.sets != []
  {
    var vs := InForce(cfg.sets, cfg.shard, h);
    && Canonical(vs)
    && 3 * |faulty| <= |vs|
    && forall k :: k in Addresses(vs) && DoubleSigned(k, h, round, cfg.verify) ==> k in faulty
  }

  /** The certificate is for the height and hash of the value it arrives with, and of that height's round. */
  ghost predicate Bound(v: DecidedValue, roundOf: nat -> int)
  {
    && v.certificate.height == HeightOf(v)
    && v.certificate.round == roundOf(HeightOf(v))
    && v.certificate.value.hash == PayloadHash(v)
  }

  /** What two nodes must agree on: the value id certified and the hash of the payload, not who signed. */
  datatype Identity = Identity(id: ShardHash, hash: Bytes)

  function IdentityOf(v: DecidedValue): Identity
  {
    Identity(v.certificate.value, PayloadHash(v))
  }

  lemma SameHeightSameValue(cfg: Config, a: DecidedValue, b: DecidedValue, roundOf: nat -> int, faulty: set<Bytes>)
    requires cfg.sets != [] && Accepted(cfg, a) && Accepted(cfg, b)
    requires HeightOf(a) == HeightOf(b) && Bound(a, roundOf) && Bound(b, roundOf)
    requires HonestAt(cfg, HeightOf(a), roundOf(HeightOf(a)), faulty)
    ensures IdentityOf(a) == IdentityOf(b)
  {
    CanonicalKeysAreDistinct(InForce(cfg.sets, cfg.shard, HeightOf(a)));
    NoConflictingCertificates(a.certificate, b.certificate, KeysFor(cfg, a), faulty, cfg.verify);
  }

  /** Nodes of one shard with the same validators: they accept the same values. */
  ghost predicate Peers(c1: Config, c2: Config)
  {
    c1.sets == c2.sets != [] && c1.shard == c2.shard && c1.verify == c2.verify
  }

  /**
    Whatever of these values is accepted is bound to its payload and to one round per height, and
    at most a third of the validators in force at its height double-sign there.
  */
  ghost predicate Trusted(cfg: Config, vs: seq<DecidedValue>, roundOf: nat -> int, faultyAt: nat -> set<Bytes>)
    requires cfg.sets != []
  {
    forall v :: v in vs && Accepted(cfg, v) ==>
      Bound(v, roundOf) && HonestAt(cfg, HeightOf(v), roundOf(HeightOf(v)), faultyAt(HeightOf(v)))
  }

  /** One identity per height among the verified values is not assumed but follows. */
  lemma VerifiedAreFixed(
      c1: Config, c2: Config, us: seq<DecidedValue>, vs: seq<DecidedValue>,
      roundOf: nat -> int, faultyAt: nat -> set<Bytes>)
    requires Peers(c1, c2) && Trusted(c1, us + vs, roundOf, faultyAt)
    ensures FixedPerHeight(IdentityOf, Verified(c1, us) + Verified(c2, vs))
  {
    var es := Verified(c1, us) + Verified(c2, vs);
    forall d, e | d in es && e in es && d.height == e.height ensures IdentityOf(d.value) == IdentityOf(e.value) {
      VerifiedIsAccepted(c1, c2, us, vs, d);
      VerifiedIsAccepted(c1, c2, us, vs, e);
      SameHeightSameValue(c1, d.value, e.value, roundOf, faultyAt(d.height));
    }
  }

  lemma VerifiedIsAccepted(c1: Config, c2: Config, us: seq<DecidedValue>, vs: seq<DecidedValue>, e: Entry<DecidedValue>)
    requires Peers(c1, c2) && e in Verified(c1, us) + Verified(c2, vs)
    ensures e.value in us + vs && Accepted(c1, e.value) && e == EntryOf(e.value)
  {
    SameAcceptance(c1, c2, e.value);
  }

  lemma SameAcceptance(c1: Config, c2: Config, v: DecidedValue)
    requires Peers(c1, c2)
    ensures Accepted(c1, v) <==> Accepted(c2, v)
  {
  }

  /**
    Two nodes with the same validators, fed arbitrary values in any order, that verify the same
    heights and turn none away end in the same node up to who signed: last height, and the
    identities logged and buffered at every height.
  */
  lemma ReadNodesConverge(
      c1: Config, c2: Config, start: nat, us: seq<DecidedValue>, vs: seq<DecidedValue>,
      roundOf: nat -> int, faultyAt: nat -> set<Bytes>)
    requires Peers(c1, c2) && Trusted(c1, us + vs, roundOf, faultyAt)
    requires Heights(Verified(c1, us)) == Heights(Verified(c2, vs))
    requires NoneTurnedAway(c1.maxBuffered, start, Verified(c1, us))
    requires NoneTurnedAway(c2.maxBuffered, start, Verified(c2, vs))
    ensures Mapped(IdentityOf, ProcessAll(c1, Fresh(start), us)) == Mapped(IdentityOf, ProcessAll(c2, Fresh(start), vs))
  {
    RunIsCatchUp(c1, Fresh(start), us);
    RunIsCatchUp(c2, Fresh(start), vs);
    VerifiedAreFixed(c1, c2, us, vs, roundOf, faultyAt);
    CatchUpIsConfluentUpTo(IdentityOf, c1.maxBuffered, c2.maxBuffered, start, Verified(c1, us), Verified(c2, vs));
  }

  /**
    Certified agreement, from the signatures up: two nodes with the same validators, fed arbitrary
    values, dropped ones included, hold logs of which one is a prefix of the other up to who signed.
  */
  lemma CertifiedLogsAgree(
      c1: Config, c2: Config, start: nat, us: seq<DecidedValue>, vs: seq<DecidedValue>,
      roundOf: nat -> int, faultyAt: nat -> set<Bytes>)
    requires Peers(c1, c2) && Trusted(c1, us + vs, roundOf, faultyAt)
    ensures
      var a := MappedEntries(IdentityOf, ProcessAll(c1, Fresh(start), us).log);
      var b := MappedEntries(IdentityOf, ProcessAll(c2, Fresh(start), vs).log);
      a <= b || b <= a
  {
    RunIsCatchUp(c1, Fresh(start), us);
    RunIsCatchUp(c2, Fresh(start), vs);
    VerifiedAreFixed(c1, c2, us, vs, roundOf, faultyAt);
    LogsArePrefixesUpTo(IdentityOf, c1.maxBuffered, c2.maxBuffered, start, Verified(c1, us), Verified(c2, vs));
  }

  /** Whatever a run has logged was processed, accepted, and for the height of its place, by its own header. */
  lemma LoggedWasAccepted(cfg: Config, start: nat, vs: seq<DecidedValue>, i: nat) returns (v: DecidedValue)
    requires cfg.sets != [] && i < |ProcessAll(cfg, Fresh(start), vs).log|
    ensures ProcessAll(cfg, Fresh(start), vs).log[i].value == v
    ensures v in vs && Accepted(cfg, v)
    ensures v.payload.ShardValue? ==> v.payload.chunk.height == start + 1 + i
    ensures v.payload.BlockValue? ==> v.payload.block.header.height == start + 1 + i
  {
    RunIsCatchUp(cfg, Fresh(start), vs);
    LoggedWasDelivered(cfg.maxBuffered, start, Verified(cfg, vs), i);
    var e := ProcessAll(cfg, Fresh(start), vs).log[i];
    assert e in Verified(cfg, vs);
    v := e.value;
  }

  /**
    More than two thirds as many signatures as validators, each by one of them, each verifying on a
    precommit for the certificate's height, round and value.
  */
  ghost predicate BackedBy(c: Certificate, validators: seq<Validator>, verify: Verifier)
  {
    && 3 * |c.signatures| > 2 * |validators|
    && (forall j :: 0 <= j < |c.signatures| ==> c.signatures[j].address in Addresses(validators))
    && (forall j :: 0 <= j < |c.signatures| ==>
          verify(c.signatures[j].address,
            Precommit(c.height, c.round, c.value, c.signatures[j].address), c.signatures[j].signature))
  }

  /** Behind every log entry of every run stand the validators in force at its certificate's height. */
  lemma LoggedIsCertified(cfg: Config, start: nat, vs: seq<DecidedValue>, i: nat)
    requires cfg.sets != [] && i < |ProcessAll(cfg, Fresh(start), vs).log|
    ensures var c := ProcessAll(cfg, Fresh(start), vs).log[i].value.certificate;
      BackedBy(c, InForce(cfg.sets, cfg.shard, c.height), cfg.verify)
  {
    var v := LoggedWasAccepted(cfg, start, vs, i);
    var c, keys := v.certificate, KeysFor(cfg, v);
    var places :| IsEmbedding(places, c, keys, |c.signatures|);
    forall j | 0 <= j < |c.signatures| ensures c.signatures[j].address in keys {
      assert keys[places[j]] == c.signatures[j].address;
    }
  }

  /**
    Every block a run logs names one of four networks, and carries version 2 from that network's switch
    on: chain 1 (mainnet) at Farcaster time 140634000, chain 2 (testnet) at 139510800, the others
    always; and version 1 before.
  */
  lemma LoggedBlocksAreScheduled(cfg: Config, start: nat, vs: seq<DecidedValue>, i: nat)
    requires cfg.sets != [] && i < |ProcessAll(cfg, Fresh(start), vs).log|
    requires ProcessAll(cfg, Fresh(start), vs).log[i].value.payload.BlockValue?
    ensures var header := ProcessAll(cfg, Fresh(start), vs).log[i].value.payload.block.header;
      var switch := if header.chainId == 1 then 140634000 else if header.chainId == 2 then 139510800 else 0;
      0 <= header.chainId <= 3 && header.version == if header.timestamp >= switch then 2 else 1
  {
    var v := LoggedWasAccepted(cfg, start, vs, i);
    var header := v.payload.block.header;
    var n :| ChainId(n) == header.chainId && header.version == ProtocolVersion(VersionFor(header.timestamp, n));
    VersionsSwitchOnce(n, header.timestamp);
  }

  /**
    A certified block is delivered if its version is the one its network runs at its time, and
    otherwise, also for a chain id of no network, leaves the node as it is.
  */
  lemma BlockIsDeliveredIfScheduled(cfg: Config, s: Node<DecidedValue>, v: DecidedValue)
    requires cfg.sets != [] && v.payload.BlockValue? && Accepts(v.certificate, KeysFor(cfg, v), cfg.verify)
    ensures var header := v.payload.block.header;
      && (forall n: Network :: ChainId(n) == header.chainId ==>
            Process(cfg, s, v) ==
              if header.version == (if header.timestamp >= SwitchTime(n) then 2 else 1)
              then Deliver(cfg.maxBuffered, s, Entry(header.height, v)) else s)
      && ((forall n: Network :: ChainId(n) != header.chainId) ==> Process(cfg, s, v) == s)
  {
    var header := v.payload.block.header;
    forall n: Network | ChainId(n) == header.chainId
      ensures HasScheduledVersion(header)
         <==> header.version == if header.timestamp >= SwitchTime(n) then 2 else 1
    {
      VersionsSwitchOnce(n, header.timestamp);
      SameNetwork(header.chainId, n);
    }
  }

  lemma SameNetwork(chainId: int, n: Network)
    requires ChainId(n) == chainId
    ensures forall m: Network :: ChainId(m) == chainId ==> m == n
  {
    var r := NetworkOf(chainId);
  }

  /** Chunks carry no version: a certified chunk is always delivered, and an uncertified value of any kind never. */
  lemma ChunkIsDeliveredIffCertified(cfg: Config, s: Node<DecidedValue>, v: DecidedValue)
    requires cfg.sets != []
    ensures !Accepts(v.certificate, KeysFor(cfg, v), cfg.verify) ==> Process(cfg, s, v) == s
    ensures v.payload.ShardValue? && Accepts(v.certificate, KeysFor(cfg, v), cfg.verify) ==>
      Process(cfg, s, v) == Deliver(cfg.maxBuffered, s, Entry(v.payload.chunk.height, v))
  {
  }

  /** Where two logs reach the same height with payloads of one kind, the payloads' own hashes agree. */
  lemma LoggedPayloadsAgree(
      c1: Config, c2: Config, start: nat, us: seq<DecidedValue>, vs: seq<DecidedValue>,
      roundOf: nat -> int, faultyAt: nat -> set<Bytes>, i: nat)
    requires Peers(c1, c2) && Trusted(c1, us + vs, roundOf, faultyAt)
    requires i < |ProcessAll(c1, Fresh(start), us).log| && i < |ProcessAll(c2, Fresh(start), vs).log|
    ensures
      var a := ProcessAll(c1, Fresh(start), us).log[i].value.payload;
      var b := ProcessAll(c2, Fresh(start), vs).log[i].value.payload;
      && (a.ShardValue? && b.ShardValue? ==> a.chunk.hash == b.chunk.hash)
      && (a.BlockValue? && b.BlockValue? ==> a.block.hash == b.block.hash)
  {
    var a := LoggedWasAccepted(c1, start, us, i);
    var b := LoggedWasAccepted(c2, start, vs, i);
    SameAcceptance(c1, c2, b);
    SameHeightSameValue(c1, a, b, roundOf, faultyAt(start + 1 + i));
  }

  /** A run meets no panic if every accepted value in it is of the engine's kind. */
  lemma OwnKindNeverPanics(cfg: Config, start: nat, vs: seq<DecidedValue>)
    requires cfg.sets != [] && forall v :: v in vs && Accepted(cfg, v) ==> v.payload.BlockValue? == cfg.holdsBlocks
    ensures TakesAll(cfg, ProcessAll(cfg, Fresh(start), vs).log, 0)
  {
    forall i | 0 <= i < |ProcessAll(cfg, Fresh(start), vs).log|
      ensures ProcessAll(cfg, Fresh(start), vs).log[i].value.payload.BlockValue? == cfg.holdsBlocks
    {
      var v := LoggedWasAccepted(cfg, start, vs, i);
    }
  }

  /** An accepted value of the next height and the other kind makes the engine panic, whatever waits in the buffer. */
  lemma OtherKindPanics(cfg: Config, s: Node<DecidedValue>, v: DecidedValue)
    requires cfg.sets != [] && Accepted(cfg, v) && HeightOf(v) == s.last + 1
    requires if cfg.holdsBlocks then v.payload.ShardValue? else v.payload.BlockValue?
    ensures !TakesAll(cfg, Process(cfg, s, v).log, |s.log|)
  {
    assert Process(cfg, s, v).log[|s.log|].value == v;
  }

  // ----- One chunk, two certificates -----

  /** Four validators with one-byte keys, who sign nothing but the given value. */
  function FourValidators(id: ShardHash): Config
  {
    var vs := [
      Validator(1, [1], None, 0), Validator(1, [2], None, 0), Validator(1, [3], None, 0), Validator(1, [4], None, 0)];
    Config([StoredValidatorSet(0, vs, [1])], 1, (key: Bytes, vote: Vote, signature: Bytes) => vote.value == id, 10, false)
  }

  /** A chunk of height 1 certified by three neighbouring validators. */
  function CertifiedBy(first: Byte, hash: Bytes): DecidedValue
    requires first <= 2
  {
    var signatures := [
      CommitSignature([first], []), CommitSignature([first + 1], []), CommitSignature([first + 2], [])];
    DecidedValue(ShardValue(ShardChunk(1, 0, hash, [])), Certificate(1, 0, ShardHash(1, hash), signatures))
  }

  lemma ThreeOfFourAreAccepted(first: Byte, hash: Bytes)
    requires 1 <= first <= 2
    ensures Accepted(FourValidators(ShardHash(1, hash)), CertifiedBy(first, hash))
  {
    var cfg, v := FourValidators(ShardHash(1, hash)), CertifiedBy(first, hash);
    ChosenIsLatest(cfg.sets, 1, 1, 1);
    var keys := KeysFor(cfg, v);
    assert keys == [[1], [2], [3], [4]];
    assert IsEmbedding([first - 1, first, first + 1], v.certificate, keys, 3);
  }

  lemma FourAreHonest(hash: Bytes)
    ensures HonestAt(FourValidators(ShardHash(1, hash)), 1, 0, {})
  {
    var cfg := FourValidators(ShardHash(1, hash));
    ChosenIsLatest(cfg.sets, 1, 1, 1);
  }

  /** Two nodes that each get one accepted value of the next height converge. */
  lemma SingleValuesConverge(cfg: Config, a: DecidedValue, b: DecidedValue, roundOf: nat -> int, faulty: set<Bytes>)
    requires cfg.sets != [] && Accepted(cfg, a) && Accepted(cfg, b) && HeightOf(a) == HeightOf(b) == 1
    requires Bound(a, roundOf) && Bound(b, roundOf) && HonestAt(cfg, 1, roundOf(1), faulty)
    ensures Mapped(IdentityOf, ProcessAll(cfg, Fresh(0), [a])) == Mapped(IdentityOf, ProcessAll(cfg, Fresh(0), [b]))
  {
    OneValueIsLogged(cfg, a);
    OneValueIsLogged(cfg, b);
    ReadNodesConverge(cfg, cfg, 0, [a], [b], roundOf, h => faulty);
  }

  /** Two nodes that get one chunk with different signers log different values, and converge. */
  lemma DifferentSignersConverge(hash: Bytes)
    ensures
      var cfg := FourValidators(ShardHash(1, hash));
      var a, b := CertifiedBy(1, hash), CertifiedBy(2, hash);
      var s, t := ProcessAll(cfg, Fresh(0), [a]), ProcessAll(cfg, Fresh(0), [b]);
      a != b && s.log == [EntryOf(a)] && t.log == [EntryOf(b)] && Mapped(IdentityOf, s) == Mapped(IdentityOf, t)
  {
    var cfg := FourValidators(ShardHash(1, hash));
    var a, b := CertifiedBy(1, hash), CertifiedBy(2, hash);
    ThreeOfFourAreAccepted(1, hash);
    ThreeOfFourAreAccepted(2, hash);
    FourAreHonest(hash);
    OneValueIsLogged(cfg, a);
    OneValueIsLogged(cfg, b);
    SingleValuesConverge(cfg, a, b, h => 0, {});
    assert a.certificate.signatures[0] != b.certificate.signatures[0];
  }

  /** A node that has just started logs an accepted value of the next height. */
  lemma OneValueIsLogged(cfg: Config, v: DecidedValue)
    requires cfg.sets != [] && Accepted(cfg, v) && HeightOf(v) == 1
    ensures Verified(cfg, [v]) == [EntryOf(v)] && Heights(Verified(cfg, [v])) == {1}
    ensures NoneTurnedAway(cfg.maxBuffered, 0, Verified(cfg, [v]))
    ensures ProcessAll(cfg, Fresh(0), [v]).log == [EntryOf(v)]
  {
    assert [v][..0] == [];
    assert Verified(cfg, [v]) == [EntryOf(v)];
    assert [EntryOf(v)][..0] == [];
    DrainOfGap(Commit(Fresh(0), EntryOf(v)));
  }
}

/**
  The mempool (src/mempool/mempool.rs): per-shard ordered pools that messages are routed into,
  pulled from in key order, and removed from when a chunk is decided. Each shard carries a ledger of
  what was accepted, delivered, discarded and removed.
*/
module Mempool {
  import opened Basics
  import opened ByteStrings
  import opened Versions

  // ----- Messages and keys -----

  datatype Proof = Proof(fid: nat, timestamp: nat)

  datatype FnameTransfer = FnameTransfer(id: Bytes, proof: Option<Proof>)

  datatype OnChainEvent = OnChainEvent(fid: nat, blockTimestamp: nat, identity: Bytes)

  /** A user message's postfix is the primary-key set of its type; compact link states have none. */
  datatype Message =
    | UserMessage(fid: nat, timestamp: nat, hash: Bytes, postfix: Option<nat>)
    | ValidatorMessage(fname: Option<FnameTransfer>, event: Option<OnChainEvent>)

  datatype MessageKind = ValidatorKind | UserKind

  datatype Key = Key(kind: MessageKind, timestamp: nat, identity: Bytes)

  /** Messages that have a key at all; the source panics on the others. */
  predicate HasKey(m: Message)
  {
    m.ValidatorMessage? ==> (m.fname.Some? && m.fname.value.proof.Some?) || m.event.Some?
  }

  function KeyOf(m: Message): Key
    requires HasKey(m)
  {
    match m
    case UserMessage(_, timestamp, hash, _) => Key(UserKind, timestamp + FARCASTER_EPOCH_SECONDS, hash)
    case ValidatorMessage(fname, event) =>
      if fname.Some? && fname.value.proof.Some? then
        Key(ValidatorKind, fname.value.proof.value.timestamp, fname.value.id)
      else
        Key(ValidatorKind, event.value.blockTimestamp, event.value.identity)
  }

  function Fid(m: Message): nat
  {
    match m
    case UserMessage(fid, _, _, _) => fid
    case ValidatorMessage(fname, event) =>
      if fname.Some? && fname.value.proof.Some? then fname.value.proof.value.fid
      else if event.Some? then event.value.fid
      else 0
  }

  /** The derived order: kind, then timestamp, then identity. */
  predicate KeyLess(a: Key, b: Key)
  {
    || (a.kind == ValidatorKind && b.kind == UserKind)
    || (a.kind == b.kind && a.timestamp < b.timestamp)
    || (a.kind == b.kind && a.timestamp == b.timestamp && Less(a.identity, b.identity))
  }

  lemma KeyLessIsTotal(a: Key, b: Key)
    ensures KeyLess(a, b) || KeyLess(b, a) || a == b
    ensures !(KeyLess(a, b) && KeyLess(b, a))
  {
    LessIsTotal(a.identity, b.identity);
  }

  lemma KeyLessIsTransitive(a: Key, b: Key, c: Key)
    requires KeyLess(a, b) && KeyLess(b, c)
    ensures KeyLess(a, c)
  {
    if Less(a.identity, b.identity) && Less(b.identity, c.identity) {
      LessIsTransitive(a.identity, b.identity, c.identity);
    }
  }

  type Pool = map<Key, Message>

  ghost predicate IsFirst(pool: Pool, k: Key)
  {
    k in pool && forall j :: j in pool && j != k ==> KeyLess(k, j)
  }

  lemma {:induction false} FirstExists(pool: Pool)
    requires pool != map[]
    ensures exists k :: IsFirst(pool, k)
    decreases |pool|
  {
    var x :| x in pool;
    var rest := pool - {x};
    if rest == map[] {
      assert forall j :: j in pool && j != x ==> j in rest;
      assert IsFirst(pool, x);
    } else {
      assert rest.Keys == pool.Keys - {x};
      FirstExists(rest);
      var f :| IsFirst(rest, f);
      KeyLessIsTotal(f, x);
      var k := if KeyLess(f, x) then f else x;
      forall j | j in pool && j != k ensures KeyLess(k, j) {
        if k == x && j != f {
          assert j in rest;
          KeyLessIsTransitive(x, f, j);
        } else if j != x {
          assert j in rest;
        }
      }
      assert IsFirst(pool, k);
    }
  }

  // ----- Routing and validity -----

  /** The shard count, the hash behind routing, and the rate limiter as a stream of answers. */
  datatype Config = Config(numShards: nat, hash: nat -> nat, limiter: Option<nat -> bool>)

  /** The shard a fid belongs to: a hash of its low 32 bits, modulo the shard count. */
  function RouteFid(cfg: Config, fid: nat): (shard: nat)
    requires cfg.numShards > 0
    ensures 1 <= shard <= cfg.numShards
  {
    cfg.hash(fid % 0x1_0000_0000) % cfg.numShards + 1
  }

  type Stores = map<nat, set<Message>>

  /** Only user messages whose type has a primary-key set are looked up; a missing store counts as no. */
  predicate AlreadyExists(stores: Stores, shard: nat, m: Message)
  {
    shard in stores && m.UserMessage? && m.postfix.Some? && m in stores[shard]
  }

  /** The outcome of a validity check, and how far it moved the rate limiter. */
  datatype Check = Check(ok: bool, calls: nat)

  function CheckMessage(cfg: Config, stores: Stores, calls: nat, m: Message): Check
    requires cfg.numShards > 0
  {
    if AlreadyExists(stores, RouteFid(cfg, Fid(m)), m) then Check(false, calls)
    else if m.UserMessage? && cfg.limiter.Some? then Check(cfg.limiter.value(calls), calls + 1)
    else Check(true, calls)
  }

  // ----- A shard and its ledger -----

  ghost function Pending<K, M>(pool: map<K, M>): multiset<M>
  {
    multiset(pool.Values)
  }

  ghost predicate NoRepeats<K(!new), M(!new)>(pool: map<K, M>)
  {
    forall j, k :: j in pool && k in pool && j != k ==> pool[j] != pool[k]
  }

  lemma PendingWith<K, M>(pool: map<K, M>, k: K, m: M)
    requires k !in pool && m !in pool.Values
    ensures Pending(pool[k := m]) == Pending(pool) + multiset{m}
  {
    var pool' := pool[k := m];
    forall x | x in pool.Values ensures x in pool'.Values {
      var j :| j in pool && pool[j] == x;
      assert pool'[j] == x;
    }
    assert pool'[k] == m;
    assert pool'.Values == pool.Values + {m};
  }

  /** The messages a set of keys holds in a pool. */
  ghost function Held<K, M>(pool: map<K, M>, ks: set<K>): set<M>
  {
    set k | k in ks && k in pool :: pool[k]
  }

  lemma PendingWithout<K(!new), M(!new)>(pool: map<K, M>, ks: set<K>)
    requires NoRepeats(pool)
    ensures Pending(pool) == Pending(pool - ks) + multiset(Held(pool, ks))
  {
    var rest := pool - ks;
    forall x | x in pool.Values ensures x in rest.Values || x in Held(pool, ks) {
      var k :| k in pool && pool[k] == x;
      if k !in ks { assert rest[k] == x; }
    }
    forall x | x in rest.Values ensures x in pool.Values && x !in Held(pool, ks) {
      var k :| k in rest && rest[k] == x;
      assert pool[k] == x;
    }
    assert pool.Values == rest.Values + Held(pool, ks);
  }

  datatype Shard = Shard(
    pool: Pool,
    accepted: multiset<Message>, delivered: multiset<Message>, discarded: multiset<Message>, removed: multiset<Message>)

  const EMPTY_SHARD := Shard(map[], multiset{}, multiset{}, multiset{}, multiset{})

  /** Every entry sits under its own key. */
  ghost predicate OwnKeys(pool: Pool)
  {
    forall k :: k in pool ==> HasKey(pool[k]) && KeyOf(pool[k]) == k
  }

  /** Whatever was accepted is still pending, or was delivered, discarded or removed. */
  ghost predicate Balanced(sh: Shard)
  {
    sh.accepted == Pending(sh.pool) + sh.delivered + sh.discarded + sh.removed
  }

  /** User messages sit only where their fid routes to. */
  ghost predicate RoutedTo(cfg: Config, shard: nat, pool: Pool)
    requires cfg.numShards > 0
  {
    forall k :: k in pool && pool[k].UserMessage? ==> RouteFid(cfg, pool[k].fid) == shard
  }

  ghost predicate ShardOk(cfg: Config, shard: nat, sh: Shard)
    requires cfg.numShards > 0
  {
    1 <= shard <= cfg.numShards && OwnKeys(sh.pool) && RoutedTo(cfg, shard, sh.pool) && Balanced(sh)
  }

  ghost function Put(sh: Shard, m: Message): Shard
    requires HasKey(m)
  {
    if KeyOf(m) in sh.pool then sh
    else sh.(pool := sh.pool[KeyOf(m) := m], accepted := sh.accepted + multiset{m})
  }

  lemma PutIsOk(cfg: Config, shard: nat, sh: Shard, m: Message)
    requires cfg.numShards > 0 && HasKey(m) && ShardOk(cfg, shard, sh)
    requires m.UserMessage? ==> RouteFid(cfg, m.fid) == shard
    ensures ShardOk(cfg, shard, Put(sh, m))
  {
    if KeyOf(m) !in sh.pool {
      assert m !in sh.pool.Values;
      PendingWith(sh.pool, KeyOf(m), m);
    }
  }

  lemma EmptyIsOk(cfg: Config, shard: nat)
    requires cfg.numShards > 0 && 1 <= shard <= cfg.numShards
    ensures ShardOk(cfg, shard, EMPTY_SHARD)
  {
    assert Pending(EMPTY_SHARD.pool) == multiset{};
  }

  // ----- The mempool as a state machine -----

  datatype State = State(shards: map<nat, Shard>, stores: Stores, calls: nat)

  ghost function ShardAt(s: State, k: nat): Shard
  {
    if k in s.shards then s.shards[k] else EMPTY_SHARD
  }

  /** Put a message into every target pool that does not hold its key. */
  ghost function PutAll(s: State, targets: set<nat>, m: Message): State
    requires HasKey(m)
  {
    s.(shards := map k | k in s.shards.Keys + targets :: if k in targets then Put(ShardAt(s, k), m) else s.shards[k])
  }

  /** The shards a username transfer is copied to: the source counts from 1 and stops before the last. */
  function CopyShards(n: nat): (r: set<nat>)
    ensures forall k :: k in r <==> 1 <= k < n
  {
    set k: nat | k < n && IsShardNumber(k)
  }

  /** Shards are numbered from 1; block shard 0 has no pool. */
  predicate IsShardNumber(k: nat)
  {
    k >= 1
  }

  /** Where an insert goes: the routed shard, and for a username transfer the copies too. */
  function Targets(cfg: Config, m: Message, copies: bool): set<nat>
    requires cfg.numShards > 0
  {
    {RouteFid(cfg, Fid(m))} +
    if copies && m.ValidatorMessage? && m.fname.Some? then CopyShards(cfg.numShards) else {}
  }

  /** The key is new to the shard's pool and the message passes its checks. */
  ghost predicate Admits(cfg: Config, s: State, shard: nat, m: Message)
    requires cfg.numShards > 0 && HasKey(m)
  {
    KeyOf(m) !in ShardAt(s, shard).pool && CheckMessage(cfg, s.stores, s.calls, m).ok
  }

  ghost function AfterInsertIntoShard(cfg: Config, s: State, shard: nat, m: Message): State
    requires cfg.numShards > 0 && HasKey(m)
  {
    if KeyOf(m) in ShardAt(s, shard).pool then s
    else
      var c := CheckMessage(cfg, s.stores, s.calls, m);
      if c.ok then PutAll(s.(calls := c.calls), {shard}, m) else s.(calls := c.calls)
  }

  ghost function AfterInsert(cfg: Config, s: State, m: Message, copies: bool): State
    requires cfg.numShards > 0 && HasKey(m)
  {
    if m.UserMessage? then AfterInsertIntoShard(cfg, s, RouteFid(cfg, Fid(m)), m)
    else PutAll(s, Targets(cfg, m, copies), m)
  }

  /** Popped messages, checked in order: which were delivered, which discarded. */
  datatype Sifted = Sifted(delivered: seq<Message>, discarded: seq<Message>, calls: nat)

  function Filed(r: Sifted, m: Message, c: Check): Sifted
  {
    if c.ok then Sifted(r.delivered + [m], r.discarded, c.calls)
    else Sifted(r.delivered, r.discarded + [m], c.calls)
  }

  ghost function Sift(cfg: Config, stores: Stores, calls: nat, popped: seq<Message>): Sifted
    requires cfg.numShards > 0
  {
    if popped == [] then Sifted([], [], calls)
    else
      var before := Sift(cfg, stores, calls, popped[..|popped| - 1]);
      var m := popped[|popped| - 1];
      Filed(before, m, CheckMessage(cfg, stores, before.calls, m))
  }

  lemma SiftStep(cfg: Config, stores: Stores, calls: nat, popped: seq<Message>, m: Message)
    requires cfg.numShards > 0
    ensures var r := Sift(cfg, stores, calls, popped);
      Sift(cfg, stores, calls, popped + [m]) == Filed(r, m, CheckMessage(cfg, stores, r.calls, m))
  {
    assert (popped + [m])[..|popped|] == popped;
  }

  ghost predicate InKeyOrder(ms: seq<Message>)
  {
    && (forall i :: 0 <= i < |ms| ==> HasKey(ms[i]))
    && (forall i, j :: 0 <= i < j < |ms| ==> KeyLess(KeyOf(ms[i]), KeyOf(ms[j])))
  }

  ghost function KeysOf(ms: seq<Message>): set<Key>
    requires forall i :: 0 <= i < |ms| ==> HasKey(ms[i])
  {
    set i | 0 <= i < |ms| :: KeyOf(ms[i])
  }

  /** These messages are the first entries of the pool, in order. */
  ghost predicate IsInitial(pool: Pool, popped: seq<Message>)
  {
    && InKeyOrder(popped)
    && (forall i :: 0 <= i < |popped| ==> KeyOf(popped[i]) in pool && pool[KeyOf(popped[i])] == popped[i])
    && (forall i, k :: 0 <= i < |popped| && k in pool && k !in KeysOf(popped) ==> KeyLess(KeyOf(popped[i]), k))
  }

  /**
    A pull of at most max messages: the shortest initial run of the pool that delivers max of
    them, or the whole pool.
  */
  ghost predicate IsPull(cfg: Config, stores: Stores, calls: nat, pool: Pool, max: nat, popped: seq<Message>)
    requires cfg.numShards > 0
  {
    && IsInitial(pool, popped)
    && (|Sift(cfg, stores, calls, popped).delivered| == max
        || (|Sift(cfg, stores, calls, popped).delivered| < max && pool.Keys <= KeysOf(popped)))
    && (popped != [] ==> |Sift(cfg, stores, calls, popped[..|popped| - 1]).delivered| < max)
  }

  ghost function Taken(sh: Shard, popped: seq<Message>, r: Sifted): Shard
    requires InKeyOrder(popped)
  {
    sh.(
      pool := sh.pool - KeysOf(popped),
      delivered := sh.delivered + multiset(r.delivered),
      discarded := sh.discarded + multiset(r.discarded))
  }

  ghost function AfterPull(cfg: Config, s: State, shard: nat, popped: seq<Message>): State
    requires cfg.numShards > 0 && InKeyOrder(popped)
  {
    if shard !in s.shards then s
    else
      var r := Sift(cfg, s.stores, s.calls, popped);
      State(s.shards[shard := Taken(s.shards[shard], popped, r)], s.stores, r.calls)
  }

  ghost function Dropped(sh: Shard, ks: set<Key>): Shard
  {
    sh.(pool := sh.pool - ks, removed := sh.removed + multiset(Held(sh.pool, ks)))
  }

  ghost function AfterChunk(s: State, shard: nat, ms: seq<Message>): State
    requires forall i :: 0 <= i < |ms| ==> HasKey(ms[i])
  {
    if shard !in s.shards then s else s.(shards := s.shards[shard := Dropped(s.shards[shard], KeysOf(ms))])
  }

  // ----- Invariant of every run -----

  ghost predicate Inv(cfg: Config, s: State)
    requires cfg.numShards > 0
  {
    forall k :: k in s.shards ==> ShardOk(cfg, k, s.shards[k])
  }

  lemma PutAllKeepsInv(cfg: Config, s: State, targets: set<nat>, m: Message)
    requires cfg.numShards > 0 && Inv(cfg, s) && HasKey(m)
    requires forall k :: k in targets ==> 1 <= k <= cfg.numShards
    requires m.UserMessage? ==> targets == {RouteFid(cfg, m.fid)}
    ensures Inv(cfg, PutAll(s, targets, m))
  {
    forall k | k in targets ensures ShardOk(cfg, k, Put(ShardAt(s, k), m)) {
      EmptyIsOk(cfg, k);
      PutIsOk(cfg, k, ShardAt(s, k), m);
    }
  }

  lemma InsertKeepsInv(cfg: Config, s: State, m: Message, copies: bool)
    requires cfg.numShards > 0 && Inv(cfg, s) && HasKey(m)
    ensures Inv(cfg, AfterInsert(cfg, s, m, copies))
  {
    if m.UserMessage? {
      PutAllKeepsInv(cfg, s.(calls := CheckMessage(cfg, s.stores, s.calls, m).calls), {RouteFid(cfg, Fid(m))}, m);
    } else {
      PutAllKeepsInv(cfg, s, Targets(cfg, m, copies), m);
    }
  }

  lemma FiledSplits(r: Sifted, m: Message, c: Check)
    ensures multiset(Filed(r, m, c).delivered) + multiset(Filed(r, m, c).discarded)
      == multiset(r.delivered) + multiset(r.discarded) + multiset{m}
  {
  }

  lemma {:induction false} SiftSplits(cfg: Config, stores: Stores, calls: nat, popped: seq<Message>)
    requires cfg.numShards > 0
    ensures var r := Sift(cfg, stores, calls, popped);
      multiset(popped) == multiset(r.delivered) + multiset(r.discarded)
  {
    if popped != [] {
      var init, m := popped[..|popped| - 1], popped[|popped| - 1];
      SiftSplits(cfg, stores, calls, init);
      FiledSplits(Sift(cfg, stores, calls, init), m, CheckMessage(cfg, stores, Sift(cfg, stores, calls, init).calls, m));
      assert popped == init + [m];
    }
  }

  lemma {:induction false} InOrderAsSet(pool: Pool, popped: seq<Message>)
    requires IsInitial(pool, popped)
    ensures multiset(popped) == multiset(Held(pool, KeysOf(popped)))
  {
    var held := set m | m in popped;
    assert Held(pool, KeysOf(popped)) == held by {
      forall m | m in held ensures m in Held(pool, KeysOf(popped)) {
        var i :| 0 <= i < |popped| && popped[i] == m;
        assert KeyOf(popped[i]) in KeysOf(popped);
      }
    }
    SetOfOrdered(popped);
  }

  lemma SetOfOrdered(ms: seq<Message>)
    requires InKeyOrder(ms)
    ensures multiset(ms) == multiset(set m | m in ms)
  {
    forall i, j | 0 <= i < j < |ms| ensures ms[i] != ms[j] {
      KeyLessIsTotal(KeyOf(ms[i]), KeyOf(ms[j]));
    }
    SetOfDistinct(ms);
  }

  lemma {:induction false} SetOfDistinct<T>(ms: seq<T>)
    requires forall i, j :: 0 <= i < j < |ms| ==> ms[i] != ms[j]
    ensures multiset(ms) == multiset(set m | m in ms)
  {
    if ms != [] {
      var init, m := ms[..|ms| - 1], ms[|ms| - 1];
      SetOfDistinct(init);
      assert ms == init + [m];
      assert m !in init;
      assert (set x | x in ms) == (set x | x in init) + {m};
    }
  }

  lemma WithoutIsOk(cfg: Config, shard: nat, pool: Pool, ks: set<Key>)
    requires cfg.numShards > 0 && OwnKeys(pool) && RoutedTo(cfg, shard, pool)
    ensures OwnKeys(pool - ks) && RoutedTo(cfg, shard, pool - ks)
    ensures Pending(pool) == Pending(pool - ks) + multiset(Held(pool, ks))
  {
    assert NoRepeats(pool);
    PendingWithout(pool, ks);
  }

  lemma TakenIsOk(cfg: Config, stores: Stores, calls: nat, shard: nat, sh: Shard, popped: seq<Message>)
    requires cfg.numShards > 0 && ShardOk(cfg, shard, sh) && IsInitial(sh.pool, popped)
    ensures ShardOk(cfg, shard, Taken(sh, popped, Sift(cfg, stores, calls, popped)))
  {
    WithoutIsOk(cfg, shard, sh.pool, KeysOf(popped));
    InOrderAsSet(sh.pool, popped);
    SiftSplits(cfg, stores, calls, popped);
  }

  lemma DroppedIsOk(cfg: Config, shard: nat, sh: Shard, ks: set<Key>)
    requires cfg.numShards > 0 && ShardOk(cfg, shard, sh)
    ensures ShardOk(cfg, shard, Dropped(sh, ks))
  {
    WithoutIsOk(cfg, shard, sh.pool, ks);
  }

  lemma PullKeepsInv(cfg: Config, s: State, shard: nat, popped: seq<Message>)
    requires cfg.numShards > 0 && Inv(cfg, s) && IsInitial(ShardAt(s, shard).pool, popped)
    ensures Inv(cfg, AfterPull(cfg, s, shard, popped))
  {
    if shard in s.shards {
      TakenIsOk(cfg, s.stores, s.calls, shard, s.shards[shard], popped);
    }
  }

  lemma ChunkKeepsInv(cfg: Config, s: State, shard: nat, ms: seq<Message>)
    requires cfg.numShards > 0 && Inv(cfg, s)
    requires forall i :: 0 <= i < |ms| ==> HasKey(ms[i])
    ensures Inv(cfg, AfterChunk(s, shard, ms))
  {
    if shard in s.shards {
      DroppedIsOk(cfg, shard, s.shards[shard], KeysOf(ms));
    }
  }

  // ----- Runs -----

  /** What the mempool is asked to do; stores change whenever an engine commits. */
  datatype Event =
    | Insert(message: Message, version: EngineVersion)
    | Pull(shard: nat, max: nat, popped: seq<Message>)
    | ChunkDecided(shard: nat, messages: seq<Message>)
    | StoresChanged(stores: Stores)

  ghost predicate Next(cfg: Config, s: State, e: Event, s': State)
    requires cfg.numShards > 0
  {
    match e
    case Insert(m, version) => HasKey(m) && s' == AfterInsert(cfg, s, m, RoutesUsernames(version))
    case Pull(shard, max, popped) =>
      && IsPull(cfg, s.stores, s.calls, ShardAt(s, shard).pool, max, popped)
      && s' == AfterPull(cfg, s, shard, popped)
    case ChunkDecided(shard, ms) => (forall i :: 0 <= i < |ms| ==> HasKey(ms[i])) && s' == AfterChunk(s, shard, ms)
    case StoresChanged(stores) => s' == s.(stores := stores)
  }

  /** A behaviour: states joined by events, starting with no pools. */
  ghost predicate IsRun(cfg: Config, states: seq<State>, events: seq<Event>)
    requires cfg.numShards > 0
  {
    && |states| == |events| + 1
    && states[0].shards == map[]
    && forall i :: 0 <= i < |events| ==> Next(cfg, states[i], events[i], states[i + 1])
  }

  /**
    Conservation over whole runs: in every reachable state each entry sits under its own key, user
    messages sit in the shard their fid routes to, and per shard the accepted messages are exactly
    the pending, delivered, discarded and removed ones.
  */
  lemma {:induction false} RunsConserve(cfg: Config, states: seq<State>, events: seq<Event>, n: nat)
    requires cfg.numShards > 0 && IsRun(cfg, states, events) && n < |states|
    ensures Inv(cfg, states[n])
    decreases n
  {
    if n > 0 {
      RunsConserve(cfg, states, events, n - 1);
      var s, e := states[n - 1], events[n - 1];
      assert Next(cfg, s, e, states[n - 1 + 1]);
      match e
      case Insert(m, version) => InsertKeepsInv(cfg, s, m, RoutesUsernames(version));
      case Pull(shard, max, popped) => PullKeepsInv(cfg, s, shard, popped);
      case ChunkDecided(shard, ms) => ChunkKeepsInv(cfg, s, shard, ms);
      case StoresChanged(stores) =>
    }
  }

  lemma {:induction false} SiftedAreFromPopped(cfg: Config, stores: Stores, calls: nat, popped: seq<Message>)
    requires cfg.numShards > 0
    ensures var r := Sift(cfg, stores, calls, popped);
      && (forall m :: m in r.delivered ==> m in popped && !AlreadyExists(stores, RouteFid(cfg, Fid(m)), m))
      && (forall m :: m in r.discarded ==> m in popped && m.UserMessage?)
  {
    if popped != [] {
      SiftedAreFromPopped(cfg, stores, calls, popped[..|popped| - 1]);
    }
  }

  /**
    In every run, no pull delivers a user message of a type with a primary-key set that its own
    shard's store already has, and nothing but user messages is discarded.
  */
  lemma PullsDeliverOnlyNew(cfg: Config, states: seq<State>, events: seq<Event>, n: nat)
    requires cfg.numShards > 0 && IsRun(cfg, states, events) && n < |events| && events[n].Pull?
    ensures var r := Sift(cfg, states[n].stores, states[n].calls, events[n].popped);
      && (forall m :: m in r.delivered && m.UserMessage? && m.postfix.Some? && events[n].shard in states[n].stores ==>
            m !in states[n].stores[events[n].shard])
      && (forall m :: m in r.discarded ==> m.UserMessage?)
  {
    RunsConserve(cfg, states, events, n);
    var s, e := states[n], events[n];
    assert Next(cfg, s, e, states[n + 1]);
    SiftedAreFromPopped(cfg, s.stores, s.calls, e.popped);
    forall m | m in e.popped && m.UserMessage? ensures RouteFid(cfg, Fid(m)) == e.shard {
      var i :| 0 <= i < |e.popped| && e.popped[i] == m;
      assert KeyOf(m) in ShardAt(s, e.shard).pool;
    }
  }

  // ----- What one pull returns -----

  lemma {:induction false} DeliveredInOrder(cfg: Config, stores: Stores, calls: nat, popped: seq<Message>)
    requires cfg.numShards > 0 && InKeyOrder(popped)
    ensures InKeyOrder(Sift(cfg, stores, calls, popped).delivered)
  {
    if popped != [] {
      var init, m := popped[..|popped| - 1], popped[|popped| - 1];
      DeliveredInOrder(cfg, stores, calls, init);
      SiftedAreFromPopped(cfg, stores, calls, init);
      var d := Sift(cfg, stores, calls, init).delivered;
      forall i | 0 <= i < |d| ensures HasKey(d[i]) && KeyLess(KeyOf(d[i]), KeyOf(m)) {
        assert d[i] in init;
        var j :| 0 <= j < |init| && init[j] == d[i];
        assert popped[j] == d[i];
      }
    }
  }

  /**
    A pull returns at most max messages in strictly increasing key order, validator messages before
    user messages; everything left in the pool comes later, and a short result empties it.
  */
  lemma PullIsOrdered(cfg: Config, stores: Stores, calls: nat, pool: Pool, max: nat, popped: seq<Message>)
    requires cfg.numShards > 0 && IsPull(cfg, stores, calls, pool, max, popped)
    ensures var d := Sift(cfg, stores, calls, popped).delivered;
      && |d| <= max && InKeyOrder(d)
      && (forall i, j :: 0 <= i < j < |d| && d[j].ValidatorMessage? ==> d[i].ValidatorMessage?)
      && (forall i, k :: 0 <= i < |popped| && k in pool - KeysOf(popped) ==> KeyLess(KeyOf(popped[i]), k))
      && (|d| < max ==> pool - KeysOf(popped) == map[])
  {
    DeliveredInOrder(cfg, stores, calls, popped);
  }

  /** Pulled user messages come oldest first, and by hash within a second; so do transfers and on-chain events by theirs. */
  lemma PulledOldestFirst(
      cfg: Config, stores: Stores, calls: nat, pool: Pool, max: nat, popped: seq<Message>, i: nat, j: nat)
    requires cfg.numShards > 0 && IsPull(cfg, stores, calls, pool, max, popped)
    requires i < j < |Sift(cfg, stores, calls, popped).delivered|
    ensures var d := Sift(cfg, stores, calls, popped).delivered;
      match (d[i], d[j]) {
        case (UserMessage(_, t, h, _), UserMessage(_, t', h', _)) => t < t' || (t == t' && Less(h, h'))
        case (UserMessage(_, _, _, _), ValidatorMessage(_, _)) => false
        case (ValidatorMessage(Some(FnameTransfer(_, Some(p))), _), ValidatorMessage(Some(FnameTransfer(_, Some(p'))), _)) =>
          p.timestamp <= p'.timestamp
        case (ValidatorMessage(None, Some(e)), ValidatorMessage(None, Some(e'))) => e.blockTimestamp <= e'.blockTimestamp
        case _ => true
      }
  {
    PullIsOrdered(cfg, stores, calls, pool, max, popped);
    var d := Sift(cfg, stores, calls, popped).delivered;
    assert HasKey(d[i]) && HasKey(d[j]) && KeyLess(KeyOf(d[i]), KeyOf(d[j]));
  }

  // ----- What is refused, and why -----

  /** The message's type has a primary-key set and the store of the shard its fid routes to has it. */
  ghost predicate InStore(cfg: Config, stores: Stores, m: Message)
    requires cfg.numShards > 0
  {
    m.UserMessage? && m.postfix.Some? && RouteFid(cfg, m.fid) in stores && m in stores[RouteFid(cfg, m.fid)]
  }

  /** The rate limiter is asked about every user message that is not in its store. */
  ghost predicate IsAsked(cfg: Config, stores: Stores, m: Message)
    requires cfg.numShards > 0
  {
    m.UserMessage? && cfg.limiter.Some? && !InStore(cfg, stores, m)
  }

  ghost function AskedCount(cfg: Config, stores: Stores, ms: seq<Message>): nat
    requires cfg.numShards > 0
  {
    if ms == [] then 0
    else AskedCount(cfg, stores, ms[..|ms| - 1]) + if IsAsked(cfg, stores, ms[|ms| - 1]) then 1 else 0
  }

  /** The message is not in its store, and if the limiter is asked, its answer to this question is yes. */
  ghost predicate Passes(cfg: Config, stores: Stores, question: nat, m: Message)
    requires cfg.numShards > 0
  {
    !InStore(cfg, stores, m) && (IsAsked(cfg, stores, m) ==> cfg.limiter.value(question))
  }

  /**
    An insert is accepted exactly when the key is new, the message is not in its store, and the
    limiter, if there is one and it is a user message, says yes. A refused user message changes no pool.
  */
  lemma InsertIsAcceptedIff(cfg: Config, s: State, m: Message, copies: bool)
    requires cfg.numShards > 0 && HasKey(m)
    ensures var shard := RouteFid(cfg, Fid(m));
      Admits(cfg, s, shard, m) <==> KeyOf(m) !in ShardAt(s, shard).pool && Passes(cfg, s.stores, s.calls, m)
    ensures m.UserMessage? ==>
      var shard, s' := RouteFid(cfg, m.fid), AfterInsert(cfg, s, m, copies);
      && (KeyOf(m) in ShardAt(s', shard).pool
          <==> KeyOf(m) in ShardAt(s, shard).pool || Passes(cfg, s.stores, s.calls, m))
      && (KeyOf(m) in ShardAt(s, shard).pool || !Passes(cfg, s.stores, s.calls, m) ==> s'.shards == s.shards)
      && s'.calls == s.calls + (if KeyOf(m) !in ShardAt(s, shard).pool && IsAsked(cfg, s.stores, m) then 1 else 0)
  {
  }

  /** Without a limiter a new user message is accepted exactly when its store does not have it. */
  lemma UnlimitedInsertIsAcceptedIff(cfg: Config, s: State, m: Message, copies: bool)
    requires cfg.numShards > 0 && cfg.limiter.None? && m.UserMessage?
    requires KeyOf(m) !in ShardAt(s, RouteFid(cfg, m.fid)).pool
    ensures KeyOf(m) in ShardAt(AfterInsert(cfg, s, m, copies), RouteFid(cfg, m.fid)).pool
       <==> !(m.postfix.Some? && RouteFid(cfg, m.fid) in s.stores && m in s.stores[RouteFid(cfg, m.fid)])
  {
    InsertIsAcceptedIff(cfg, s, m, copies);
  }

  lemma {:induction false} CallsAreQuestions(cfg: Config, stores: Stores, calls: nat, popped: seq<Message>)
    requires cfg.numShards > 0
    ensures Sift(cfg, stores, calls, popped).calls == calls + AskedCount(cfg, stores, popped)
  {
    if popped != [] {
      CallsAreQuestions(cfg, stores, calls, popped[..|popped| - 1]);
    }
  }

  /** The i-th popped message is delivered, after those before it, exactly when it passes; else it is discarded. */
  lemma PoppedIsDeliveredIff(cfg: Config, stores: Stores, calls: nat, popped: seq<Message>, i: nat)
    requires cfg.numShards > 0 && i < |popped|
    ensures
      var before, after := Sift(cfg, stores, calls, popped[..i]), Sift(cfg, stores, calls, popped[..i + 1]);
      var passes := Passes(cfg, stores, calls + AskedCount(cfg, stores, popped[..i]), popped[i]);
      && after.delivered == before.delivered + (if passes then [popped[i]] else [])
      && after.discarded == before.discarded + (if passes then [] else [popped[i]])
  {
    CallsAreQuestions(cfg, stores, calls, popped[..i]);
    assert popped[..i + 1][..i] == popped[..i];
  }

  /** The limiter said no to some question in between. */
  ghost predicate Denied(cfg: Config, from: nat, to: nat)
  {
    cfg.limiter.Some? && exists k :: from <= k < to && !cfg.limiter.value(k)
  }

  lemma {:induction false} DiscardsHaveReasons(cfg: Config, stores: Stores, calls: nat, popped: seq<Message>)
    requires cfg.numShards > 0
    ensures var r := Sift(cfg, stores, calls, popped);
      && calls <= r.calls
      && forall m :: m in r.discarded ==> InStore(cfg, stores, m) || Denied(cfg, calls, r.calls)
  {
    if popped != [] {
      DiscardsHaveReasons(cfg, stores, calls, popped[..|popped| - 1]);
    }
  }

  /**
    In every run, whatever a pull discards was in its shard's store or met a no of the limiter during
    that pull.
  */
  lemma PullsDiscardWithReason(cfg: Config, states: seq<State>, events: seq<Event>, n: nat, m: Message)
    requires cfg.numShards > 0 && IsRun(cfg, states, events) && n < |events| && events[n].Pull?
    requires m in Sift(cfg, states[n].stores, states[n].calls, events[n].popped).discarded
    ensures
      || (m.UserMessage? && m.postfix.Some? && events[n].shard in states[n].stores && m in states[n].stores[events[n].shard])
      || Denied(cfg, states[n].calls, states[n + 1].calls)
  {
    var s, e := states[n], events[n];
    assert Next(cfg, s, e, states[n + 1]);
    DiscardsHaveReasons(cfg, s.stores, s.calls, e.popped);
    RunsConserve(cfg, states, events, n);
    SiftedAreFromPopped(cfg, s.stores, s.calls, e.popped);
    var i :| 0 <= i < |e.popped| && e.popped[i] == m;
    assert KeyOf(m) in ShardAt(s, e.shard).pool;
  }

  // ----- Routing and keys -----

  /** Only the low 32 bits of a fid matter, and shards follow the hash in turn. */
  lemma RoutingFollowsHash(cfg: Config, fid: nat, fid': nat)
    requires cfg.numShards > 0
    ensures fid % 0x1_0000_0000 == fid' % 0x1_0000_0000 ==> RouteFid(cfg, fid) == RouteFid(cfg, fid')
    ensures var h, n := cfg.hash(fid % 0x1_0000_0000), cfg.numShards; h + 1 == h / n * n + RouteFid(cfg, fid)
  {
  }

  /** User messages share a key, by Unix time, exactly when they share time and hash, and never with a validator message. */
  lemma UserKeysAre(a: Message, b: Message)
    requires a.UserMessage? && HasKey(b)
    ensures KeyOf(a) == KeyOf(b) <==> b.UserMessage? && a.timestamp == b.timestamp && a.hash == b.hash
    ensures KeyOf(a).timestamp == a.timestamp + 1609459200
  {
  }

  /** Validator messages share a key exactly when they share what identifies them and its time. */
  lemma ValidatorKeysAre(t: FnameTransfer, t': FnameTransfer, o: Option<OnChainEvent>, e: OnChainEvent, e': OnChainEvent)
    requires t.proof.Some? && t'.proof.Some?
    ensures KeyOf(ValidatorMessage(Some(t), o)) == KeyOf(ValidatorMessage(Some(t'), None))
       <==> t.id == t'.id && t.proof.value.timestamp == t'.proof.value.timestamp
    ensures KeyOf(ValidatorMessage(None, Some(e))) == KeyOf(ValidatorMessage(None, Some(e')))
       <==> e.identity == e'.identity && e.blockTimestamp == e'.blockTimestamp
  {
  }

  /**
    A transfer goes to the shard of its new owner, an on-chain event to that of its fid. Only a
    transfer goes anywhere else, to the shards before the last, and only with the routing fix.
  */
  lemma ValidatorMessagesAreRouted(cfg: Config, s: State, m: Message, copies: bool, k: nat)
    requires cfg.numShards > 0 && m.ValidatorMessage? && HasKey(m)
    ensures var fname, event, s' := m.fname, m.event, AfterInsert(cfg, s, m, copies);
      var fid := if fname.Some? && fname.value.proof.Some? then fname.value.proof.value.fid else event.value.fid;
      var shard := RouteFid(cfg, fid);
      && KeyOf(m) in ShardAt(s', shard).pool
      && (k != shard && !(copies && fname.Some? && 1 <= k < cfg.numShards) ==> ShardAt(s', k) == ShardAt(s, k))
  {
  }

  // ----- Username transfers -----

  /**
    An inserted username transfer reaches every shard exactly when its own shard is the last one
    or the last shard held it already: the copies stop one shard short.
  */
  lemma TransferReachesAllIff(cfg: Config, s: State, m: Message)
    requires cfg.numShards > 0 && HasKey(m) && m.ValidatorMessage? && m.fname.Some?
    ensures var s' := AfterInsert(cfg, s, m, true);
      (forall k :: 1 <= k <= cfg.numShards ==> KeyOf(m) in ShardAt(s', k).pool)
      <==> RouteFid(cfg, Fid(m)) == cfg.numShards || KeyOf(m) in ShardAt(s, cfg.numShards).pool
  {
    var s' := AfterInsert(cfg, s, m, true);
    var n := cfg.numShards;
    assert KeyOf(m) in ShardAt(s', n).pool <==> n in Targets(cfg, m, true) || KeyOf(m) in ShardAt(s, n).pool;
    forall k: nat | 1 <= k < n ensures KeyOf(m) in ShardAt(s', k).pool {
      assert k in Targets(cfg, m, true);
    }
  }

  /** With two shards and every fid routed to the first, a run that inserts a transfer leaves the second without it. */
  lemma TransferMissesLastShard(id: Bytes, proof: Proof)
    ensures
      var cfg := Config(2, fid => 0, None);
      var m := ValidatorMessage(Some(FnameTransfer(id, Some(proof))), None);
      var s := State(map[], map[], 0);
      var s' := AfterInsert(cfg, s, m, RoutesUsernames(V5));
      && IsRun(cfg, [s, s'], [Insert(m, V5)])
      && KeyOf(m) in ShardAt(s', 1).pool && KeyOf(m) !in ShardAt(s', 2).pool
  {
    var cfg := Config(2, fid => 0, None);
    var m := ValidatorMessage(Some(FnameTransfer(id, Some(proof))), None);
    assert RouteFid(cfg, Fid(m)) == 1;
    assert 2 !in Targets(cfg, m, true) && 1 in Targets(cfg, m, true);
  }

  // ----- The class -----

  lemma PutTwice(sh: Shard, m: Message)
    requires HasKey(m)
    ensures Put(Put(sh, m), m) == Put(sh, m)
  {
  }

  lemma PutAllAt(s: State, targets: set<nat>, m: Message, j: nat)
    requires HasKey(m)
    ensures j in PutAll(s, targets, m).shards <==> j in s.shards || j in targets
    ensures ShardAt(PutAll(s, targets, m), j) == if j in targets then Put(ShardAt(s, j), m) else ShardAt(s, j)
  {
  }

  lemma SameShards(s: State, t: State)
    requires forall j :: (j in s.shards <==> j in t.shards) && ShardAt(s, j) == ShardAt(t, j)
    ensures s.shards == t.shards
  {
    forall j | j in s.shards ensures s.shards[j] == t.shards[j] {
      assert ShardAt(s, j) == ShardAt(t, j);
    }
  }

  lemma PutAllTwice(s: State, targets: set<nat>, k: nat, m: Message)
    requires HasKey(m)
    ensures PutAll(PutAll(s, targets, m), {k}, m) == PutAll(s, targets + {k}, m)
  {
    var once := PutAll(s, targets, m);
    var a, b := PutAll(once, {k}, m), PutAll(s, targets + {k}, m);
    forall j ensures (j in a.shards <==> j in b.shards) && ShardAt(a, j) == ShardAt(b, j) {
      PutAllAt(s, targets, m, j);
      PutAllAt(once, {k}, m, j);
      PutAllAt(s, targets + {k}, m, j);
      PutTwice(ShardAt(s, j), m);
    }
    SameShards(a, b);
  }

  /** Inserting a validator message into a shard needs no check and changes nothing if it is there. */
  lemma ValidatorInsertIsPut(cfg: Config, s: State, shard: nat, m: Message)
    requires cfg.numShards > 0 && HasKey(m) && m.ValidatorMessage?
    ensures AfterInsertIntoShard(cfg, s, shard, m) == PutAll(s, {shard}, m)
  {
    if KeyOf(m) in ShardAt(s, shard).pool {
      assert PutAll(s, {shard}, m).shards == s.shards;
    }
  }

  /** The pools alone, without the ledgers. */
  ghost function Pools(shards: map<nat, Shard>): map<nat, Pool>
  {
    map k | k in shards :: shards[k].pool
  }

  ghost predicate AllOwnKeys(messages: map<nat, Pool>)
  {
    forall k :: k in messages ==> OwnKeys(messages[k])
  }

  lemma PoolsOfUpdate(shards: map<nat, Shard>, k: nat, sh: Shard)
    ensures Pools(shards[k := sh]) == Pools(shards)[k := sh.pool]
  {
  }

  lemma PutOne(s: State, k: nat, m: Message)
    requires HasKey(m)
    ensures PutAll(s, {k}, m) == s.(shards := s.shards[k := Put(ShardAt(s, k), m)])
  {
    assert PutAll(s, {k}, m).shards == s.shards[k := Put(ShardAt(s, k), m)];
  }

  lemma PutKeepsKeys(messages: map<nat, Pool>, shard: nat, pool: Pool, m: Message)
    requires AllOwnKeys(messages) && OwnKeys(pool) && HasKey(m)
    ensures AllOwnKeys(messages[shard := pool[KeyOf(m) := m]])
  {
    assert OwnKeys(pool[KeyOf(m) := m]);
  }

  /** Popping the first remaining entry extends an initial run. */
  lemma InitialExtends(pool: Pool, popped: seq<Message>, k: Key)
    requires OwnKeys(pool) && IsInitial(pool, popped) && IsFirst(pool - KeysOf(popped), k)
    ensures IsInitial(pool, popped + [pool[k]])
    ensures KeysOf(popped + [pool[k]]) == KeysOf(popped) + {k}
    ensures pool - KeysOf(popped + [pool[k]]) == pool - KeysOf(popped) - {k}
  {
    var longer := popped + [pool[k]];
    assert KeyOf(pool[k]) == k;
    assert forall i :: 0 <= i < |longer| ==> longer[i] == if i < |popped| then popped[i] else pool[k];
    forall x ensures x in KeysOf(longer) <==> x in KeysOf(popped) + {k} {
      if x in KeysOf(popped) {
        var i :| 0 <= i < |popped| && KeyOf(popped[i]) == x;
        assert KeyOf(longer[i]) == x;
      }
      if x == k {
        assert KeyOf(longer[|popped|]) == x;
      }
    }
    forall i, j | 0 <= i < j < |longer| ensures KeyLess(KeyOf(longer[i]), KeyOf(longer[j])) {
      assert i < |popped|;
    }
    forall i, x | 0 <= i < |longer| && x in pool && x !in KeysOf(longer) ensures KeyLess(KeyOf(longer[i]), x) {
      assert x in pool - KeysOf(popped);
    }
  }

  lemma KeysOfSum(a: seq<Message>, b: seq<Message>)
    requires forall i :: 0 <= i < |a| ==> HasKey(a[i])
    requires forall i :: 0 <= i < |b| ==> HasKey(b[i])
    ensures forall i :: 0 <= i < |a + b| ==> HasKey((a + b)[i])
    ensures KeysOf(a + b) == KeysOf(a) + KeysOf(b)
  {
    forall x | x in KeysOf(a) + KeysOf(b) ensures x in KeysOf(a + b) {
      if x in KeysOf(a) {
        var i :| 0 <= i < |a| && KeyOf(a[i]) == x;
        assert KeyOf((a + b)[i]) == x;
      } else {
        var i :| 0 <= i < |b| && KeyOf(b[i]) == x;
        assert KeyOf((a + b)[|a| + i]) == x;
      }
    }
  }

  datatype Transaction = Transaction(userMessages: seq<Message>, systemMessages: seq<Message>)

  ghost predicate AllHaveKeys(ms: seq<Message>)
  {
    forall i :: 0 <= i < |ms| ==> HasKey(ms[i])
  }

  ghost function Flatten(ts: seq<Transaction>): seq<Message>
  {
    if ts == [] then []
    else Flatten(ts[..|ts| - 1]) + ts[|ts| - 1].userMessages + ts[|ts| - 1].systemMessages
  }

  class Mempool {
    const cfg: Config
    var messages: map<nat, Pool>
    var stores: Stores
    var calls: nat
    ghost var shards: map<nat, Shard>

    ghost function View(): State
      reads this
    {
      State(shards, stores, calls)
    }

    ghost predicate Tied()
      reads this
    {
      messages == Pools(shards)
    }

    ghost predicate Valid()
      reads this
    {
      cfg.numShards > 0 && Tied() && AllOwnKeys(messages)
    }

    constructor (cfg: Config, stores: Stores)
      requires cfg.numShards > 0
      ensures Valid() && this.cfg == cfg && View() == State(map[], stores, 0)
    {
      this.cfg := cfg;
      this.stores := stores;
      messages := map[];
      calls := 0;
      shards := map[];
    }

    method MessageIsValid(m: Message) returns (ok: bool)
      requires cfg.numShards > 0
      modifies this`calls
      ensures Check(ok, calls) == CheckMessage(cfg, stores, old(calls), m)
    {
      var shard := RouteFid(cfg, Fid(m));
      if AlreadyExists(stores, shard, m) {
        return false;
      }
      if m.UserMessage? && cfg.limiter.Some? {
        ok := cfg.limiter.value(calls);
        calls := calls + 1;
        return ok;
      }
      return true;
    }

    method InsertIntoShard(shard: nat, m: Message) returns (ok: bool)
      requires Valid() && HasKey(m)
      modifies this
      ensures Valid() && View() == AfterInsertIntoShard(cfg, old(View()), shard, m)
      ensures ok <==> Admits(cfg, old(View()), shard, m)
    {
      if shard in messages && KeyOf(m) in messages[shard] {
        return false;
      }
      ok := MessageIsValid(m);
      if ok {
        ghost var before := View();
        PutOne(before, shard, m);
        PoolsOfUpdate(shards, shard, Put(ShardAt(before, shard), m));
        PutKeepsKeys(messages, shard, ShardAt(before, shard).pool, m);
        if shard !in messages {
          messages := messages[shard := map[KeyOf(m) := m]];
        } else {
          messages := messages[shard := messages[shard][KeyOf(m) := m]];
        }
        shards := PutAll(before, {shard}, m).shards;
      }
    }

    method InsertCopy(ghost s: State, ghost reached: set<nat>, shard: nat, m: Message)
      requires Valid() && HasKey(m) && m.ValidatorMessage? && View() == PutAll(s, reached, m)
      modifies this
      ensures Valid() && View() == PutAll(s, reached + {shard}, m)
    {
      ValidatorInsertIsPut(cfg, View(), shard, m);
      PutAllTwice(s, reached, shard, m);
      var copied := InsertIntoShard(shard, m);
    }

    /** The copies of a username transfer; a shard that holds it already refuses its copy. */
    method InsertCopies(ghost s: State, original: nat, m: Message)
      requires Valid() && HasKey(m) && m.ValidatorMessage? && View() == PutAll(s, {original}, m)
      modifies this
      ensures Valid() && View() == PutAll(s, {original} + CopyShards(cfg.numShards), m)
    {
      ghost var reached: set<nat> := {original};
      for copy := 1 to cfg.numShards
        invariant Valid() && View() == PutAll(s, reached, m)
        invariant reached == {original} + CopyShards(copy)
      {
        if copy != original {
          InsertCopy(s, reached, copy, m);
          reached := reached + {copy};
        }
        assert reached == {original} + CopyShards(copy + 1);
      }
    }

    method Insert(m: Message, version: EngineVersion) returns (ok: bool)
      requires Valid() && HasKey(m)
      modifies this
      ensures Valid() && View() == AfterInsert(cfg, old(View()), m, RoutesUsernames(version))
      ensures ok <==> Admits(cfg, old(View()), RouteFid(cfg, Fid(m)), m)
    {
      ghost var s := View();
      var original := RouteFid(cfg, Fid(m));
      ok := InsertIntoShard(original, m);
      if m.ValidatorMessage? {
        ValidatorInsertIsPut(cfg, s, original, m);
        if m.fname.Some? && RoutesUsernames(version) {
          InsertCopies(s, original, m);
        } else {
          assert Targets(cfg, m, RoutesUsernames(version)) == {original};
        }
      }
    }

    /** The pull loop on the shard's pool. */
    method PullFrom(pool: Pool, max: nat)
      returns (rest: Pool, delivered: seq<Message>, ghost popped: seq<Message>)
      requires cfg.numShards > 0 && OwnKeys(pool)
      modifies this`calls
      ensures IsPull(cfg, stores, old(calls), pool, max, popped) && rest == pool - KeysOf(popped)
      ensures delivered == Sift(cfg, stores, old(calls), popped).delivered
      ensures calls == Sift(cfg, stores, old(calls), popped).calls
    {
      rest, delivered, popped := pool, [], [];
      ghost var r := Sifted([], [], calls);
      assert KeysOf([]) == {};
      while |delivered| < max && rest != map[]
        invariant IsInitial(pool, popped) && rest == pool - KeysOf(popped)
        invariant r == Sift(cfg, stores, old(calls), popped) && r.delivered == delivered && r.calls == calls
        invariant |delivered| <= max
        invariant popped != [] ==> |Sift(cfg, stores, old(calls), popped[..|popped| - 1]).delivered| < max
        decreases rest.Keys
      {
        var k := FindFirst(rest);
        var m := rest[k];
        InitialExtends(pool, popped, k);
        rest := rest - {k};
        SiftStep(cfg, stores, old(calls), popped, m);
        assert (popped + [m])[..|popped|] == popped;
        popped := popped + [m];
        r := Filed(r, m, CheckMessage(cfg, stores, calls, m));
        var ok := MessageIsValid(m);
        if ok {
          delivered := delivered + [m];
        }
      }
      if rest == map[] {
        assert forall k :: k in pool ==> k in rest || k in KeysOf(popped);
      }
    }

    method PullMessages(shard: nat, max: nat) returns (delivered: seq<Message>, ghost popped: seq<Message>)
      requires Valid()
      modifies this
      ensures Valid()
      ensures IsPull(cfg, old(stores), old(calls), ShardAt(old(View()), shard).pool, max, popped)
      ensures View() == AfterPull(cfg, old(View()), shard, popped)
      ensures delivered == Sift(cfg, old(stores), old(calls), popped).delivered
    {
      ghost var s := View();
      if shard !in messages {
        assert KeysOf([]) == {};
        return [], [];
      }
      var rest;
      rest, delivered, popped := PullFrom(messages[shard], max);
      messages := messages[shard := rest];
      PoolsOfUpdate(shards, shard, Taken(shards[shard], popped, Sift(cfg, s.stores, s.calls, popped)));
      shards := AfterPull(cfg, s, shard, popped).shards;
    }

    method RemoveDecided(shard: nat, transactions: seq<Transaction>)
      requires Valid()
      requires forall i :: 0 <= i < |transactions| ==>
        AllHaveKeys(transactions[i].userMessages) && AllHaveKeys(transactions[i].systemMessages)
      modifies this
      ensures AllHaveKeys(Flatten(transactions))
      ensures Valid() && View() == AfterChunk(old(View()), shard, Flatten(transactions))
    {
      ghost var s := View();
      FlattenHasKeys(transactions);
      if shard in messages {
        var pool := RemoveTransactions(messages[shard], transactions);
        messages := messages[shard := pool];
        PoolsOfUpdate(shards, shard, Dropped(shards[shard], KeysOf(Flatten(transactions))));
        shards := AfterChunk(s, shard, Flatten(transactions)).shards;
      }
    }
  }

  method FindFirst(pool: Pool) returns (k: Key)
    requires pool != map[]
    ensures IsFirst(pool, k)
  {
    FirstExists(pool);
    assert exists k :: k in pool && forall j :: j in pool && j != k ==> KeyLess(k, j) by {
      var f :| IsFirst(pool, f);
    }
    k :| k in pool && forall j :: j in pool && j != k ==> KeyLess(k, j);
  }

  method RemoveAll(pool: Pool, ms: seq<Message>) returns (rest: Pool)
    requires AllHaveKeys(ms)
    ensures rest == pool - KeysOf(ms)
  {
    rest := pool;
    assert KeysOf([]) == {};
    for n := 0 to |ms|
      invariant rest == pool - KeysOf(ms[..n])
    {
      KeysOfSum(ms[..n], [ms[n]]);
      assert ms[..n + 1] == ms[..n] + [ms[n]];
      assert KeysOf([ms[n]]) == {KeyOf(ms[n])};
      rest := rest - {KeyOf(ms[n])};
    }
    assert ms[..|ms|] == ms;
  }

  method RemoveTransactions(pool: Pool, ts: seq<Transaction>) returns (rest: Pool)
    requires forall i :: 0 <= i < |ts| ==> AllHaveKeys(ts[i].userMessages) && AllHaveKeys(ts[i].systemMessages)
    ensures AllHaveKeys(Flatten(ts)) && rest == pool - KeysOf(Flatten(ts))
  {
    rest := pool;
    assert KeysOf([]) == {};
    for n := 0 to |ts|
      invariant AllHaveKeys(Flatten(ts[..n])) && rest == pool - KeysOf(Flatten(ts[..n]))
    {
      ghost var done := Flatten(ts[..n]);
      assert ts[..n + 1][..n] == ts[..n];
      KeysOfSum(done, ts[n].userMessages);
      KeysOfSum(done + ts[n].userMessages, ts[n].systemMessages);
      rest := RemoveAll(rest, ts[n].userMessages);
      rest := RemoveAll(rest, ts[n].systemMessages);
    }
    assert ts[..|ts|] == ts;
  }

  /** The messages of a chunk are the user and system messages of its transactions. */
  lemma {:induction false} FlattenHolds(ts: seq<Transaction>, m: Message)
    ensures m in Flatten(ts)
       <==> exists i :: 0 <= i < |ts| && (m in ts[i].userMessages || m in ts[i].systemMessages)
  {
    if ts != [] {
      var n := |ts| - 1;
      FlattenHolds(ts[..n], m);
      assert forall i :: 0 <= i < n ==> ts[..n][i] == ts[i];
    }
  }

  /** Some user or system message of the chunk has the key. */
  ghost predicate KeyInChunk(ts: seq<Transaction>, k: Key)
  {
    exists i, m :: 0 <= i < |ts| && (m in ts[i].userMessages || m in ts[i].systemMessages) && HasKey(m) && KeyOf(m) == k
  }

  lemma ChunkKeysAre(ts: seq<Transaction>, k: Key)
    requires AllHaveKeys(Flatten(ts))
    ensures k in KeysOf(Flatten(ts)) <==> KeyInChunk(ts, k)
  {
    var ms := Flatten(ts);
    if KeyInChunk(ts, k) {
      var i, m :| 0 <= i < |ts| && (m in ts[i].userMessages || m in ts[i].systemMessages) && HasKey(m) && KeyOf(m) == k;
      FlattenHolds(ts, m);
      var j :| 0 <= j < |ms| && ms[j] == m;
      assert KeyOf(ms[j]) in KeysOf(ms);
    }
    if k in KeysOf(ms) {
      var j :| 0 <= j < |ms| && KeyOf(ms[j]) == k;
      FlattenHolds(ts, ms[j]);
    }
  }

  /** After a chunk is decided a key is left in its shard's pool exactly if no message of the chunk has it. */
  lemma DecidedKeysLeave(s: State, shard: nat, ts: seq<Transaction>, k: Key, other: nat)
    requires AllHaveKeys(Flatten(ts))
    ensures var s' := AfterChunk(s, shard, Flatten(ts));
      && (k in ShardAt(s', shard).pool <==> k in ShardAt(s, shard).pool && !KeyInChunk(ts, k))
      && (other != shard ==> ShardAt(s', other) == ShardAt(s, other))
  {
    ChunkKeysAre(ts, k);
  }

  lemma {:induction false} FlattenHasKeys(ts: seq<Transaction>)
    requires forall i :: 0 <= i < |ts| ==> AllHaveKeys(ts[i].userMessages) && AllHaveKeys(ts[i].systemMessages)
    ensures AllHaveKeys(Flatten(ts))
  {
    if ts != [] {
      FlattenHasKeys(ts[..|ts| - 1]);
    }
  }
}

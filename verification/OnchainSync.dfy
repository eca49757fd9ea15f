/**
  Checkpointed historical sync of on-chain events (src/connectors/onchain_events/mod.rs): blocks are
  queried in windows for every contract and a stored block number is moved up after each window.
  An attempt may end at any point: by a query that keeps failing, or by a crash. Reading or writing
  the stored number may fail; the source then goes on, taking an unreadable number for zero.
*/
module OnchainSync {
  import opened Basics

  const BATCH: nat := 1000

  function Min(a: nat, b: nat): nat
  {
    if a <= b then a else b
  }

  function Max(a: nat, b: nat): nat
  {
    if a >= b then a else b
  }

  // ----- The windows of an attempt -----

  /** How often the batch loop turns; it turns once even if there is nothing to sync. */
  function WindowCount(start: nat, stop: nat): (n: nat)
    ensures n >= 1
  {
    if start > stop then 1 else (stop - start) / BATCH + 1
  }

  function FromBlock(start: nat, j: nat): nat
  {
    start + BATCH * j
  }

  function ToBlock(start: nat, stop: nat, j: nat): nat
  {
    Min(stop, FromBlock(start, j) + BATCH)
  }

  ghost predicate InWindow(start: nat, stop: nat, j: nat, b: nat)
  {
    FromBlock(start, j) <= b <= ToBlock(start, stop, j)
  }

  /**
    Every block from start to stop lies in the window its distance from the start gives, and also in
    the window before exactly when it is the joint of the two; it lies in no other window.
  */
  lemma WindowsCover(start: nat, stop: nat, b: nat)
    requires start <= b <= stop
    ensures var k := (b - start) / BATCH;
      && k < WindowCount(start, stop)
      && forall j: nat :: InWindow(start, stop, j, b) <==> j == k || (j + 1 == k && (b - start) % BATCH == 0)
  {
    var k := (b - start) / BATCH;
    forall j: nat ensures InWindow(start, stop, j, b) <==> j == k || (j + 1 == k && (b - start) % BATCH == 0) {
    }
  }

  // ----- What an attempt leaves behind -----

  /** The contract's logs were queried over a range of blocks. */
  datatype Query = Query(contract: nat, from: nat, to: nat)

  datatype State = State(checkpoint: nat, queries: set<Query>)

  /** The queries of the first n contracts over window j. */
  ghost function WindowQueries(contracts: seq<nat>, start: nat, stop: nat, j: nat, n: nat): set<Query>
    requires n <= |contracts|
  {
    set i | 0 <= i < n :: Query(contracts[i], FromBlock(start, j), ToBlock(start, stop, j))
  }

  /** The queries of the first n windows, each for all contracts. */
  ghost function FullQueries(contracts: seq<nat>, start: nat, stop: nat, n: nat): set<Query>
  {
    set j, i | 0 <= j < n && 0 <= i < |contracts| :: Query(contracts[i], FromBlock(start, j), ToBlock(start, stop, j))
  }

  /** How far an attempt got: windows completed and recorded, and contracts queried in the next one. */
  datatype Progress = Progress(full: nat, extra: nat)

  /** The attempt did not die anywhere before it got that far. */
  ghost predicate Survived(dies: (nat, nat) -> bool, contracts: nat, p: Progress)
  {
    forall j: nat, i: nat :: (j < p.full && i <= contracts) || (j == p.full && i < p.extra) ==> !dies(j, i)
  }

  ghost predicate Possible(contracts: seq<nat>, start: nat, stop: nat, p: Progress)
  {
    p.full <= WindowCount(start, stop) && p.extra <= |contracts| && (p.full == WindowCount(start, stop) ==> p.extra == 0)
  }

  /** Whether the stored number can be read and written. */
  datatype Access = Access(readOk: bool, writeOk: bool)

  function Known(number: nat, readOk: bool): nat
  {
    if readOk then number else 0
  }

  /** The stored number after a block number was recorded. */
  function Recorded(number: nat, block: nat, a: Access): nat
  {
    if block > Known(number, a.readOk) && a.writeOk then block else number
  }

  /** The stored number goes back exactly when it cannot be read, can be written, and a lower block is recorded. */
  lemma NumberGoesBackIff(number: nat, block: nat, a: Access)
    ensures Recorded(number, block, a) < number <==> !a.readOk && a.writeOk && 0 < block < number
  {
  }

  /** The stored number after the first n windows were recorded. */
  ghost function NumberAfter(number: nat, start: nat, stop: nat, disk: nat -> Access, n: nat): nat
  {
    if n == 0 then number
    else Recorded(NumberAfter(number, start, stop, disk, n - 1), ToBlock(start, stop, n - 1), disk(n - 1))
  }

  /** The stored number stays or is the end of some completed window. */
  lemma {:induction false} NumberIsAnEnd(number: nat, start: nat, stop: nat, disk: nat -> Access, n: nat)
    ensures var c := NumberAfter(number, start, stop, disk, n);
      c == number || (n > 0 && c <= ToBlock(start, stop, n - 1))
  {
    if n > 0 {
      NumberIsAnEnd(number, start, stop, disk, n - 1);
    }
  }

  /** With every read working the stored number never goes back, and with every write working it reaches the last end. */
  lemma {:induction false} NumberGrows(number: nat, start: nat, stop: nat, disk: nat -> Access, n: nat)
    requires forall j: nat :: j < n ==> disk(j).readOk
    ensures NumberAfter(number, start, stop, disk, n) >= number
    ensures n > 0 && disk(n - 1).writeOk ==> NumberAfter(number, start, stop, disk, n) >= ToBlock(start, stop, n - 1)
  {
    if n > 0 {
      NumberGrows(number, start, stop, disk, n - 1);
    }
  }

  ghost function Reached(
      contracts: seq<nat>, s: State, start: nat, stop: nat, disk: nat -> Access, p: Progress): State
    requires p.extra <= |contracts|
  {
    State(
      NumberAfter(s.checkpoint, start, stop, disk, p.full),
      s.queries + FullQueries(contracts, start, stop, p.full) + WindowQueries(contracts, start, stop, p.full, p.extra))
  }

  // ----- The class -----

  class Subscriber {
    const contracts: seq<nat>
    var checkpoint: nat
    var queries: set<Query>

    ghost function View(): State
      reads this
    {
      State(checkpoint, queries)
    }

    constructor (contracts: seq<nat>, checkpoint: nat)
      ensures this.contracts == contracts && View() == State(checkpoint, {})
    {
      this.contracts := contracts;
      this.checkpoint := checkpoint;
      queries := {};
    }

    method LatestBlockInDb(readOk: bool) returns (number: nat)
      ensures number == Known(checkpoint, readOk)
    {
      if readOk {
        number := checkpoint;
      } else {
        number := 0;
      }
    }

    method RecordBlockNumber(block: nat, access: Access)
      modifies this`checkpoint
      ensures checkpoint == Recorded(old(checkpoint), block, access)
      ensures access == Access(true, true) ==> checkpoint == Max(old(checkpoint), block)
    {
      var latest := LatestBlockInDb(access.readOk);
      if block > latest {
        if access.writeOk {
          checkpoint := block;
        }
      }
    }

    /** Query every contract over one window, until the attempt dies before some query. */
    method QueryWindow(start: nat, stop: nat, j: nat, dies: (nat, nat) -> bool) returns (n: nat)
      modifies this`queries
      ensures n <= |contracts| && (forall i: nat :: i < n ==> !dies(j, i)) && (n < |contracts| ==> dies(j, n))
      ensures queries == old(queries) + WindowQueries(contracts, start, stop, j, n)
    {
      n := 0;
      while n < |contracts| && !dies(j, n)
        invariant n <= |contracts| && forall i: nat :: i < n ==> !dies(j, i)
        invariant queries == old(queries) + WindowQueries(contracts, start, stop, j, n)
      {
        queries := queries + {Query(contracts[n], FromBlock(start, j), ToBlock(start, stop, j))};
        n := n + 1;
      }
    }

    /** One window: query every contract, then record its end, unless the attempt dies on the way. */
    method SyncWindow(start: nat, stop: nat, j: nat, access: Access, dies: (nat, nat) -> bool) returns (ok: bool, n: nat)
      modifies this
      ensures n <= |contracts| && (forall i: nat :: i < n ==> !dies(j, i))
      ensures queries == old(queries) + WindowQueries(contracts, start, stop, j, n)
      ensures if ok then n == |contracts| && !dies(j, n) else dies(j, n)
      ensures checkpoint == if ok then Recorded(old(checkpoint), ToBlock(start, stop, j), access) else old(checkpoint)
    {
      n := QueryWindow(start, stop, j, dies);
      if n < |contracts| || dies(j, n) {
        return false, n;
      }
      RecordBlockNumber(Min(stop, FromBlock(start, j) + BATCH), access);
      ok := true;
    }

    /**
      The batch loop. `dies(j, i)` says whether the attempt ends in window j before its i-th query,
      or, after the last query, before the block number is stored.
    */
    method SyncHistoricalEvents(initialStart: nat, finalStop: nat, disk: nat -> Access, dies: (nat, nat) -> bool)
        returns (ok: bool, ghost p: Progress)
      modifies this
      ensures Possible(contracts, initialStart, finalStop, p)
      ensures View() == Reached(contracts, old(View()), initialStart, finalStop, disk, p)
      ensures ok <==> p.full == WindowCount(initialStart, finalStop)
      ensures !ok ==> dies(p.full, p.extra)
      ensures Survived(dies, |contracts|, p)
    {
      var startBlock := initialStart;
      var j := 0;
      ghost var s := View();
      NothingReached(contracts, s, initialStart, finalStop, disk);
      while true
        invariant startBlock == FromBlock(initialStart, j) && j < WindowCount(initialStart, finalStop)
        invariant View() == Reached(contracts, s, initialStart, finalStop, disk, Progress(j, 0))
        invariant Survived(dies, |contracts|, Progress(j, 0))
        decreases WindowCount(initialStart, finalStop) - j
      {
        var done, n := SyncWindow(initialStart, finalStop, j, disk(j), dies);
        WindowReaches(contracts, s, initialStart, finalStop, disk, j, n);
        if !done {
          return false, Progress(j, n);
        }
        j := j + 1;
        startBlock := startBlock + BATCH;
        if startBlock > finalStop {
          return true, Progress(j, 0);
        }
      }
    }

    /** A run: start and stop are chosen from the stored number, the configuration and the chain's latest block. */
    method Sync(setting: Setting, readOk: bool, disk: nat -> Access, dies: (nat, nat) -> bool)
        returns (ok: bool, ghost a: Attempt)
      modifies this
      ensures a == Attempt(setting, readOk, disk, a.progress)
      ensures IsAttempt(contracts, old(View()), a) && View() == AfterAttempt(contracts, old(View()), a)
      ensures ok <==> Finished(old(View()), a)
    {
      var latest := LatestBlockInDb(readOk);
      var start := Max(latest, setting.configuredStart);
      ghost var p;
      ok, p := SyncHistoricalEvents(start, StopOf(setting), disk, dies);
      a := Attempt(setting, readOk, disk, p);
    }
  }

  lemma NothingReached(contracts: seq<nat>, s: State, start: nat, stop: nat, disk: nat -> Access)
    ensures Reached(contracts, s, start, stop, disk, Progress(0, 0)) == s
  {
    assert FullQueries(contracts, start, stop, 0) == {} && WindowQueries(contracts, start, stop, 0, 0) == {};
  }

  /** What the queries and the record of one window add. */
  lemma WindowReaches(contracts: seq<nat>, s: State, start: nat, stop: nat, disk: nat -> Access, j: nat, n: nat)
    requires n <= |contracts|
    ensures
      var before := Reached(contracts, s, start, stop, disk, Progress(j, 0));
      var queries := before.queries + WindowQueries(contracts, start, stop, j, n);
      && Reached(contracts, s, start, stop, disk, Progress(j, n)) == State(before.checkpoint, queries)
      && (n == |contracts| ==>
            Reached(contracts, s, start, stop, disk, Progress(j + 1, 0))
            == State(Recorded(before.checkpoint, ToBlock(start, stop, j), disk(j)), queries))
  {
    assert WindowQueries(contracts, start, stop, j, 0) == {};
    assert WindowQueries(contracts, start, stop, j + 1, 0) == {};
    OneMoreWindow(contracts, start, stop, j);
  }

  lemma OneMoreWindow(contracts: seq<nat>, start: nat, stop: nat, j: nat)
    ensures FullQueries(contracts, start, stop, j + 1)
      == FullQueries(contracts, start, stop, j) + WindowQueries(contracts, start, stop, j, |contracts|)
  {
    var full, window := FullQueries(contracts, start, stop, j), WindowQueries(contracts, start, stop, j, |contracts|);
    forall q | q in FullQueries(contracts, start, stop, j + 1) ensures q in full + window {
      var k, i :| 0 <= k < j + 1 && 0 <= i < |contracts|
        && q == Query(contracts[i], FromBlock(start, k), ToBlock(start, stop, k));
      if k == j { assert q in window; } else { assert q in full; }
    }
  }

  // ----- Crashes and restarts -----

  /** What is configured, and where the chain stands, when a run begins. */
  datatype Setting = Setting(configuredStart: nat, latestOnChain: nat, configuredStop: Option<nat>)

  /** A run from a setting: what the disk does, and how far the run gets. */
  datatype Attempt = Attempt(setting: Setting, readOk: bool, disk: nat -> Access, progress: Progress)

  function StartOf(s: State, a: Attempt): nat
  {
    Max(Known(s.checkpoint, a.readOk), a.setting.configuredStart)
  }

  function StopOf(r: Setting): nat
  {
    Min(r.latestOnChain, if r.configuredStop.Some? then r.configuredStop.value else r.latestOnChain)
  }

  ghost predicate IsAttempt(contracts: seq<nat>, s: State, a: Attempt)
  {
    Possible(contracts, StartOf(s, a), StopOf(a.setting), a.progress)
  }

  ghost predicate Finished(s: State, a: Attempt)
  {
    a.progress.full == WindowCount(StartOf(s, a), StopOf(a.setting))
  }

  ghost function AfterAttempt(contracts: seq<nat>, s: State, a: Attempt): State
    requires a.progress.extra <= |contracts|
  {
    Reached(contracts, s, StartOf(s, a), StopOf(a.setting), a.disk, a.progress)
  }

  /** The contract's logs of the block were queried. */
  ghost predicate Asked(s: State, c: nat, b: nat)
  {
    exists q :: q in s.queries && q.contract == c && q.from <= b <= q.to
  }

  /** The last block the stored number vouches for; zero stands for no number stored. */
  function Stored(s: State): int
  {
    if s.checkpoint == 0 then -1 else s.checkpoint
  }

  /** Every contract was queried for every block from first up to the stored number. */
  ghost predicate Covered(contracts: seq<nat>, s: State, first: nat)
  {
    forall c: nat, b: nat :: c in contracts && first <= b <= Stored(s) ==> Asked(s, c, b)
  }

  /** Every read of the stored number while windows were recorded worked. */
  ghost predicate ReadsWork(a: Attempt)
  {
    forall j: nat :: j < a.progress.full ==> a.disk(j).readOk
  }

  ghost predicate WritesWork(a: Attempt)
  {
    forall j: nat :: j < a.progress.full ==> a.disk(j).writeOk
  }

  /** A block in a completed window has been asked for. */
  lemma FullWindowsAsk(contracts: seq<nat>, s: State, a: Attempt, c: nat, b: nat)
    requires a.progress.extra <= |contracts| && c in contracts && a.progress.full > 0
    requires StartOf(s, a) <= b <= ToBlock(StartOf(s, a), StopOf(a.setting), a.progress.full - 1)
    ensures Asked(AfterAttempt(contracts, s, a), c, b)
  {
    var start, stop, full := StartOf(s, a), StopOf(a.setting), a.progress.full;
    var k := (b - start) / BATCH;
    var j := if k < full then k else full - 1;
    assert FromBlock(start, j) <= b <= ToBlock(start, stop, j);
    var i :| 0 <= i < |contracts| && contracts[i] == c;
    var q := Query(contracts[i], FromBlock(start, j), ToBlock(start, stop, j));
    assert q in FullQueries(contracts, start, stop, full);
    assert q in AfterAttempt(contracts, s, a).queries;
  }

  lemma AskedStays(contracts: seq<nat>, s: State, a: Attempt, c: nat, b: nat)
    requires a.progress.extra <= |contracts| && Asked(s, c, b)
    ensures Asked(AfterAttempt(contracts, s, a), c, b)
  {
    var q :| q in s.queries && q.contract == c && q.from <= b <= q.to;
    assert q in AfterAttempt(contracts, s, a).queries;
  }

  lemma NewQueriesStartLate(contracts: seq<nat>, s: State, a: Attempt, q: Query)
    requires a.progress.extra <= |contracts| && q in AfterAttempt(contracts, s, a).queries
    ensures q in s.queries || q.from >= StartOf(s, a)
  {
    var start, stop := StartOf(s, a), StopOf(a.setting);
    if q !in s.queries && q in FullQueries(contracts, start, stop, a.progress.full) {
      var j, i :| 0 <= j < a.progress.full && 0 <= i < |contracts|
        && q == Query(contracts[i], FromBlock(start, j), ToBlock(start, stop, j));
    }
  }

  /** A block the stored number vouches for after an attempt has been asked for, or was skipped. */
  lemma VouchedIsAsked(contracts: seq<nat>, s: State, first: nat, a: Attempt, c: nat, b: nat)
    requires Covered(contracts, s, first) && IsAttempt(contracts, s, a) && c in contracts
    requires first <= b <= Stored(AfterAttempt(contracts, s, a))
    ensures Asked(AfterAttempt(contracts, s, a), c, b) || Skipped(contracts, s, first, a, b)
  {
    NumberIsAnEnd(s.checkpoint, StartOf(s, a), StopOf(a.setting), a.disk, a.progress.full);
    if b <= Stored(s) {
      assert Asked(s, c, b);
      AskedStays(contracts, s, a, c, b);
    } else if b >= a.setting.configuredStart {
      FullWindowsAsk(contracts, s, a, c, b);
    }
  }

  /** A block between what was stored and the configured start that the stored number afterwards vouches for. */
  ghost predicate Skipped(contracts: seq<nat>, s: State, first: nat, a: Attempt, b: nat)
    requires a.progress.extra <= |contracts|
  {
    Max(first, Stored(s) + 1) <= b < a.setting.configuredStart && b <= Stored(AfterAttempt(contracts, s, a))
  }

  /** One attempt keeps coverage if it does not start beyond the first uncovered block, whatever the disk does. */
  lemma AttemptKeepsCoverage(contracts: seq<nat>, s: State, first: nat, a: Attempt)
    requires Covered(contracts, s, first) && IsAttempt(contracts, s, a)
    requires a.setting.configuredStart <= Max(first, Stored(s) + 1)
    ensures var t := AfterAttempt(contracts, s, a);
      && Covered(contracts, t, first)
      && (ReadsWork(a) ==> t.checkpoint >= s.checkpoint)
      && (ReadsWork(a) && WritesWork(a) && Finished(s, a) ==> t.checkpoint >= StopOf(a.setting))
  {
    var t := AfterAttempt(contracts, s, a);
    forall c: nat, b: nat | c in contracts && first <= b <= Stored(t) ensures Asked(t, c, b) {
      VouchedIsAsked(contracts, s, first, a, c, b);
    }
    if ReadsWork(a) {
      NumberGrows(s.checkpoint, StartOf(s, a), StopOf(a.setting), a.disk, a.progress.full);
    }
  }

  /** This outcome of an attempt keeps coverage exactly when every block it skipped was queried before. */
  lemma OutcomeKeepsCoverageIff(contracts: seq<nat>, s: State, first: nat, a: Attempt)
    requires Covered(contracts, s, first) && IsAttempt(contracts, s, a)
    ensures Covered(contracts, AfterAttempt(contracts, s, a), first)
       <==> forall c: nat, b: nat :: c in contracts && Skipped(contracts, s, first, a, b) ==> Asked(s, c, b)
  {
    var t := AfterAttempt(contracts, s, a);
    forall c: nat, b: nat | c in contracts && first <= b <= Stored(t)
      ensures Asked(t, c, b) || Skipped(contracts, s, first, a, b)
    {
      VouchedIsAsked(contracts, s, first, a, c, b);
    }
    forall c: nat, b: nat | Skipped(contracts, s, first, a, b) ensures Asked(t, c, b) <==> Asked(s, c, b) {
      if Asked(s, c, b) { AskedStays(contracts, s, a, c, b); }
      if Asked(t, c, b) {
        var q :| q in t.queries && q.contract == c && q.from <= b <= q.to;
        NewQueriesStartLate(contracts, s, a, q);
      }
    }
    assert forall b: nat :: Skipped(contracts, s, first, a, b) ==> first <= b <= Stored(t);
  }

  /** One outcome of a run: what the disk did and how far it got. */
  ghost predicate IsOutcome(contracts: seq<nat>, s: State, r: Setting, a: Attempt)
  {
    a.setting == r && IsAttempt(contracts, s, a)
  }

  /** Known before the run: a block above the stored number that the start passes over and the stop does not. */
  ghost predicate PassedOver(s: State, first: nat, r: Setting, b: nat)
  {
    Max(first, Stored(s) + 1) <= b < r.configuredStart && b <= StopOf(r) && 0 < StopOf(r)
  }

  /** The run that finishes with a working disk. */
  ghost function Smooth(s: State, r: Setting): Attempt
  {
    var start := Max(s.checkpoint, r.configuredStart);
    Attempt(r, true, j => Access(true, true), Progress(WindowCount(start, StopOf(r)), 0))
  }

  /** A finished run with a working disk stores its stop block, also when it starts beyond it. */
  lemma FinishedStoresStop(contracts: seq<nat>, s: State, a: Attempt)
    requires IsAttempt(contracts, s, a) && Finished(s, a) && ReadsWork(a) && WritesWork(a)
    ensures AfterAttempt(contracts, s, a).checkpoint >= StopOf(a.setting)
  {
    NumberGrows(s.checkpoint, StartOf(s, a), StopOf(a.setting), a.disk, a.progress.full);
  }

  /** What an outcome skips was passed over by the configured start. */
  lemma SkippedIsPassedOver(contracts: seq<nat>, s: State, first: nat, r: Setting, a: Attempt, b: nat)
    requires IsOutcome(contracts, s, r, a) && Skipped(contracts, s, first, a, b)
    ensures PassedOver(s, first, r, b)
  {
    NumberIsAnEnd(s.checkpoint, StartOf(s, a), StopOf(a.setting), a.disk, a.progress.full);
  }

  /**
    The exact condition, known before the run: every outcome, wherever the run is cut off and
    whatever the disk does, keeps coverage if and only if every block that the configured start
    passes over was queried before.
  */
  lemma AttemptKeepsCoverageIff(contracts: seq<nat>, s: State, first: nat, r: Setting)
    requires Covered(contracts, s, first)
    ensures (forall a :: IsOutcome(contracts, s, r, a) ==> Covered(contracts, AfterAttempt(contracts, s, a), first))
       <==> forall c: nat, b: nat :: c in contracts && PassedOver(s, first, r, b) ==> Asked(s, c, b)
  {
    if forall c: nat, b: nat :: c in contracts && PassedOver(s, first, r, b) ==> Asked(s, c, b) {
      forall a | IsOutcome(contracts, s, r, a) ensures Covered(contracts, AfterAttempt(contracts, s, a), first) {
        forall b: nat | Skipped(contracts, s, first, a, b) ensures PassedOver(s, first, r, b) {
          SkippedIsPassedOver(contracts, s, first, r, a, b);
        }
        OutcomeKeepsCoverageIff(contracts, s, first, a);
      }
    }
    var smooth := Smooth(s, r);
    assert IsOutcome(contracts, s, r, smooth);
    FinishedStoresStop(contracts, s, smooth);
    OutcomeKeepsCoverageIff(contracts, s, first, smooth);
    assert forall b: nat :: PassedOver(s, first, r, b) ==> Skipped(contracts, s, first, smooth, b);
  }

  /** A history of attempts: each starts from the state the one before left. */
  ghost predicate IsHistory(contracts: seq<nat>, states: seq<State>, attempts: seq<Attempt>)
  {
    && |states| == |attempts| + 1 && states[0] == State(0, {})
    && forall i :: 0 <= i < |attempts| ==>
         IsAttempt(contracts, states[i], attempts[i]) && states[i + 1] == AfterAttempt(contracts, states[i], attempts[i])
  }

  /** No attempt is configured to start beyond the first block not yet vouched for. */
  ghost predicate StartsInTime(states: seq<State>, attempts: seq<Attempt>, first: nat)
    requires |states| == |attempts| + 1
  {
    forall i :: 0 <= i < |attempts| ==> attempts[i].setting.configuredStart <= Max(first, Stored(states[i]) + 1)
  }

  /**
    Crash safety: over any sequence of attempts, each cut off anywhere, with any failures of the
    disk, that start no later than the first block not yet vouched for, no block from first up to
    the stored number is ever left unqueried for any contract; and while reads work the stored
    number never goes back.
  */
  lemma {:induction false} CheckpointIsCovered(
      contracts: seq<nat>, first: nat, states: seq<State>, attempts: seq<Attempt>, n: nat)
    requires IsHistory(contracts, states, attempts) && n < |states|
    requires StartsInTime(states, attempts, first)
    ensures Covered(contracts, states[n], first)
    ensures n > 0 && ReadsWork(attempts[n - 1]) ==> states[n].checkpoint >= states[n - 1].checkpoint
  {
    if n > 0 {
      CheckpointIsCovered(contracts, first, states, attempts, n - 1);
      assert states[n - 1 + 1] == AfterAttempt(contracts, states[n - 1], attempts[n - 1]);
      AttemptKeepsCoverage(contracts, states[n - 1], first, attempts[n - 1]);
    }
  }

  /** A raised start leaves a hole for good: an unqueried block below it ends up vouched for by the stored number. */
  lemma RaisedStartLeavesHole(contracts: seq<nat>, s: State, a: Attempt, c: nat, b: nat)
    requires s.checkpoint < b < a.setting.configuredStart && b <= StopOf(a.setting) && !Asked(s, c, b)
    requires IsAttempt(contracts, s, a) && Finished(s, a) && ReadsWork(a) && WritesWork(a)
    ensures var t := AfterAttempt(contracts, s, a); b <= t.checkpoint && !Asked(t, c, b)
  {
    var t := AfterAttempt(contracts, s, a);
    FinishedStoresStop(contracts, s, a);
    forall q | q in t.queries ensures q in s.queries || q.from > b {
      NewQueriesStartLate(contracts, s, a, q);
    }
  }

  /**
    A start beyond the chain's tip: from a stored 100, with the start at 10000 and the tip at 5000,
    one inverted window is asked for and 5000 is stored, with no block from 101 on ever queried.
  */
  lemma StartBeyondTipStoresTip(contracts: seq<nat>, queries: set<Query>, c: nat, b: nat)
    requires (forall q :: q in queries ==> q.to <= 100) && 100 < b <= 5000
    ensures var s := State(100, queries);
      var a := Smooth(s, Setting(10000, 5000, None));
      var t := AfterAttempt(contracts, s, a);
      && IsAttempt(contracts, s, a) && Finished(s, a) && a.progress == Progress(1, 0)
      && t.checkpoint == 5000 && !Asked(t, c, b)
  {
    var s := State(100, queries);
    var a := Smooth(s, Setting(10000, 5000, None));
    assert !Asked(s, c, b);
    RaisedStartLeavesHole(contracts, s, a, c, b);
    NumberIsAnEnd(100, 10000, 5000, a.disk, 1);
    FinishedStoresStop(contracts, s, a);
  }

  /** One window recorded by a node that cannot read its number, 5000, but can write it takes it back to 1001. */
  lemma UnreadableNumberGoesBack(contracts: seq<nat>, queries: set<Query>)
    ensures var s := State(5000, queries);
      var a := Attempt(Setting(1, 6000, None), false, j => Access(false, true), Progress(1, 0));
      IsAttempt(contracts, s, a) && AfterAttempt(contracts, s, a).checkpoint == 1001
  {
    var disk: nat -> Access := j => Access(false, true);
    assert NumberAfter(5000, 1, 6000, disk, 1) == Recorded(NumberAfter(5000, 1, 6000, disk, 0), 1001, disk(0));
  }

  /** No attempt asks beyond the chain's latest block or a configured stop, nor below the configured start. */
  lemma QueriesKeepWithin(contracts: seq<nat>, s: State, a: Attempt, q: Query)
    requires a.progress.extra <= |contracts| && q in AfterAttempt(contracts, s, a).queries && q !in s.queries
    ensures q.contract in contracts && q.from >= a.setting.configuredStart
    ensures q.to <= a.setting.latestOnChain
    ensures a.setting.configuredStop.Some? ==> q.to <= a.setting.configuredStop.value
  {
    var start, stop, full := StartOf(s, a), StopOf(a.setting), a.progress.full;
    if q in FullQueries(contracts, start, stop, full) {
      var j, i :| 0 <= j < full && 0 <= i < |contracts|
        && q == Query(contracts[i], FromBlock(start, j), ToBlock(start, stop, j));
    }
  }

  /** Nor does it store a number beyond them; and a finished one with a working disk has reached one of the two. */
  lemma NumberKeepsWithin(contracts: seq<nat>, s: State, a: Attempt)
    requires IsAttempt(contracts, s, a)
    ensures var t, r := AfterAttempt(contracts, s, a).checkpoint, a.setting;
      && (t == s.checkpoint || (t <= r.latestOnChain && (r.configuredStop.Some? ==> t <= r.configuredStop.value)))
      && (Finished(s, a) && ReadsWork(a) && WritesWork(a) ==>
            t >= r.latestOnChain || (r.configuredStop.Some? && t >= r.configuredStop.value))
  {
    NumberIsAnEnd(s.checkpoint, StartOf(s, a), StopOf(a.setting), a.disk, a.progress.full);
    if Finished(s, a) && ReadsWork(a) && WritesWork(a) {
      FinishedStoresStop(contracts, s, a);
    }
  }
}

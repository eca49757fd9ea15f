/**
  Validator sets and proposer rotation: SnapchainValidatorSet and select_proposer of
  src/core/types.rs, StoredValidatorSet(s) of src/consensus/validator.rs.
*/
module ValidatorSets {
  import opened Basics
  import opened ByteStrings

  datatype Validator = Validator(shardIndex: nat, address: Bytes, rpcAddress: Option<string>, currentHeight: nat)

  /** The derived order: shard first, then address. Later fields only rank equal addresses. */
  predicate Precedes(a: Validator, b: Validator)
  {
    a.shardIndex < b.shardIndex || (a.shardIndex == b.shardIndex && Less(a.address, b.address))
  }

  ghost predicate Sorted(vs: seq<Validator>)
  {
    forall i, j :: 0 <= i < j < |vs| ==> !Precedes(vs[j], vs[i])
  }

  ghost predicate SameShard(vs: seq<Validator>)
  {
    forall i, j :: 0 <= i < |vs| && 0 <= j < |vs| ==> vs[i].shardIndex == vs[j].shardIndex
  }

  /** A canonical list: one shard, addresses strictly increasing, hence without repetition. */
  ghost predicate Canonical(vs: seq<Validator>)
  {
    SameShard(vs) && forall i, j :: 0 <= i < j < |vs| ==> Less(vs[i].address, vs[j].address)
  }

  /** The addresses a certificate's signers are looked up in. */
  function Addresses(vs: seq<Validator>): (ks: seq<Bytes>)
    ensures |ks| == |vs| && forall i :: 0 <= i < |vs| ==> ks[i] == vs[i].address
  {
    seq(|vs|, i requires 0 <= i < |vs| => vs[i].address)
  }

  lemma CanonicalTail(vs: seq<Validator>)
    requires Canonical(vs) && vs != []
    ensures Canonical(vs[1..]) && Elements(vs[1..]) == Elements(vs) - {vs[0]}
  {
    forall v | v in vs[1..] ensures v in vs && v != vs[0] {
      var i :| 0 <= i < |vs| - 1 && vs[1..][i] == v;
      LessIsTotal(vs[0].address, vs[i + 1].address);
    }
    assert forall v :: v in vs ==> v == vs[0] || v in vs[1..];
  }

  /** A canonical list is determined by its members. */
  lemma {:induction false} CanonicalIsUnique(a: seq<Validator>, b: seq<Validator>)
    requires Canonical(a) && Canonical(b) && Elements(a) == Elements(b)
    ensures a == b
  {
    assert a != [] ==> a[0] in Elements(b);
    assert b != [] ==> b[0] in Elements(a);
    if a != [] {
      var i :| 0 <= i < |b| && b[i] == a[0];
      var j :| 0 <= j < |a| && a[j] == b[0];
      LessIsTotal(a[0].address, b[0].address);
      assert a[0] == b[0];
      CanonicalTail(a);
      CanonicalTail(b);
      CanonicalIsUnique(a[1..], b[1..]);
      assert a == [a[0]] + a[1..] && b == [b[0]] + b[1..];
    }
  }

  // ----- Building the set -----

  lemma PrecedesIsTransitive(a: Validator, b: Validator, c: Validator)
    requires !Precedes(b, a) && !Precedes(c, b)
    ensures !Precedes(c, a)
  {
    LessIsTotal(a.address, b.address);
    LessIsTotal(b.address, c.address);
    LessIsTotal(c.address, a.address);
    if Precedes(c, a) && a.shardIndex == b.shardIndex == c.shardIndex && b.address != a.address && b.address != c.address {
      LessIsTransitive(c.address, a.address, b.address);
    }
  }

  /** One insertion into a sorted list, behind everything it does not precede. */
  method Insert(s: seq<Validator>, v: Validator) returns (r: seq<Validator>)
    requires Sorted(s)
    ensures Sorted(r) && multiset(r) == multiset(s) + multiset{v}
  {
    var k := |s|;
    while k > 0 && Precedes(v, s[k - 1])
      invariant 0 <= k <= |s|
      invariant forall j :: k <= j < |s| ==> !Precedes(s[j], v)
    {
      k := k - 1;
      LessIsTotal(v.address, s[k].address);
    }
    forall i | 0 <= i < k ensures !Precedes(v, s[i]) {
      if i < k - 1 { PrecedesIsTransitive(s[i], s[k - 1], v); }
    }
    r := s[..k] + [v] + s[k..];
    InsertedIsSorted(s, v, k);
    InsertedOnce(s, v, k);
  }

  lemma InsertedIsSorted(s: seq<Validator>, v: Validator, k: nat)
    requires Sorted(s) && k <= |s|
    requires forall i :: 0 <= i < k ==> !Precedes(v, s[i])
    requires forall j :: k <= j < |s| ==> !Precedes(s[j], v)
    ensures Sorted(s[..k] + [v] + s[k..])
  {
  }

  lemma InsertedOnce(s: seq<Validator>, v: Validator, k: nat)
    requires k <= |s|
    ensures multiset(s[..k] + [v] + s[k..]) == multiset(s) + multiset{v}
  {
    assert s == s[..k] + s[k..];
  }

  /** The library sort: some sorted arrangement of the same elements. */
  method Sort(s: seq<Validator>) returns (r: seq<Validator>)
    ensures Sorted(r) && multiset(r) == multiset(s)
  {
    r := [];
    for n := 0 to |s|
      invariant Sorted(r) && multiset(r) == multiset(s[..n])
    {
      r := Insert(r, s[n]);
      assert s[..n + 1] == s[..n] + [s[n]];
    }
    assert s[..|s|] == s;
  }

  /** Sorting a canonical list with one fresh address of the same shard gives a canonical list. */
  lemma SortedWithFresh(vs: seq<Validator>, v: Validator, r: seq<Validator>)
    requires Canonical(vs) && Sorted(r) && multiset(r) == multiset(vs + [v])
    requires forall u :: u in vs ==> u.address != v.address && u.shardIndex == v.shardIndex
    ensures Canonical(r) && Elements(r) == Elements(vs) + {v}
  {
    var all := vs + [v];
    forall i, j | 0 <= i < j < |all| ensures all[i].address != all[j].address {
      LessIsTotal(all[i].address, all[j].address);
      if j < |vs| { assert Less(vs[i].address, vs[j].address); } else { assert all[i] in vs; }
    }
    assert forall u :: u in r <==> u in all by {
      assert forall u :: u in r <==> u in multiset(r);
      assert forall u :: u in all <==> u in multiset(all);
    }
    forall i | 0 <= i < |r| ensures r[i].shardIndex == v.shardIndex {
      assert r[i] in all;
    }
    forall i, j | 0 <= i < j < |r| ensures Less(r[i].address, r[j].address) {
      assert r[i] in all && r[j] in all;
      DistinctInArrangement(all, r, i, j);
      LessIsTotal(r[i].address, r[j].address);
    }
  }

  /** Two places of an arrangement of elements with distinct addresses hold distinct addresses. */
  lemma DistinctInArrangement(all: seq<Validator>, r: seq<Validator>, i: nat, j: nat)
    requires multiset(r) == multiset(all) && i < j < |r|
    requires forall i, j :: 0 <= i < j < |all| ==> all[i].address != all[j].address
    ensures r[i].address != r[j].address
  {
    assert r[i] in multiset(r) && r[j] in multiset(r);
    var p :| 0 <= p < |all| && all[p] == r[i];
    var q :| 0 <= q < |all| && all[q] == r[j];
    CountedOnce(all, p);
    if r[i] == r[j] {
      CountedTwice(r, i, j);
    }
  }

  lemma CountedTwice<T>(s: seq<T>, i: nat, j: nat)
    requires i < j < |s| && s[i] == s[j]
    ensures multiset(s)[s[i]] >= 2
  {
    assert s == s[..j] + s[j..];
    assert s[i] in s[..j] && s[i] in s[j..];
  }

  lemma CountedOnce<T>(s: seq<T>, p: nat)
    requires p < |s| && forall i :: 0 <= i < |s| && i != p ==> s[i] != s[p]
    ensures multiset(s)[s[p]] == 1
  {
    assert s == s[..p] + [s[p]] + s[p + 1..];
    assert s[p] !in s[..p] && s[p] !in s[p + 1..];
  }

  class SnapchainValidatorSet {
    var validators: seq<Validator>

    constructor ()
      ensures validators == []
    {
      validators := [];
    }

    ghost predicate Valid()
      reads this
    {
      Canonical(validators)
    }

    predicate Exists(address: Bytes)
      reads this
    {
      exists i :: 0 <= i < |validators| && validators[i].address == address
    }

    method Add(v: Validator) returns (added: bool)
      requires Valid()
      modifies this
      ensures Valid()
      ensures added <==>
        !old(Exists(v.address)) && (old(validators) == [] || old(validators)[0].shardIndex == v.shardIndex)
      ensures Elements(validators) == if added then old(Elements(validators)) + {v} else old(Elements(validators))
    {
      if Exists(v.address) {
        return false;
      }
      if |validators| == 0 || validators[0].shardIndex == v.shardIndex {
        ghost var before := validators;
        assert forall u :: u in validators ==> u.address != v.address && u.shardIndex == v.shardIndex;
        var arranged := Sort(validators + [v]);
        SortedWithFresh(before, v, arranged);
        validators := arranged;
        return true;
      }
      return false;
    }
  }

  datatype ValidatorSetConfig = ValidatorSetConfig(effectiveAt: nat, publicKeys: seq<Bytes>, shardIds: seq<nat>)

  datatype StoredValidatorSet = StoredValidatorSet(effectiveAt: nat, validators: seq<Validator>, shardIds: seq<nat>)

  /** The validators a configuration asks for on a shard, as a set. */
  ghost function Configured(shard: nat, config: ValidatorSetConfig): set<Validator>
  {
    set k | k in config.publicKeys :: Validator(shard, k, None, config.effectiveAt)
  }

  ghost predicate IsStoredSet(shard: nat, config: ValidatorSetConfig, stored: StoredValidatorSet)
  {
    && Canonical(stored.validators)
    && Elements(stored.validators) == Configured(shard, config)
    && stored.effectiveAt == config.effectiveAt
    && stored.shardIds == config.shardIds
  }

  method NewStoredValidatorSet(shard: nat, config: ValidatorSetConfig) returns (stored: StoredValidatorSet)
    ensures IsStoredSet(shard, config, stored)
  {
    var validators := new SnapchainValidatorSet();
    for n := 0 to |config.publicKeys|
      invariant validators.Valid() && fresh(validators)
      invariant Elements(validators.validators)
        == set i | 0 <= i < n :: Validator(shard, config.publicKeys[i], None, config.effectiveAt)
    {
      var v := Validator(shard, config.publicKeys[n], None, config.effectiveAt);
      ghost var before := Elements(validators.validators);
      assert validators.validators != [] ==> validators.validators[0] in before;
      assert validators.Exists(v.address) ==> v in before by {
        if validators.Exists(v.address) {
          var i :| 0 <= i < |validators.validators| && validators.validators[i].address == v.address;
          assert validators.validators[i] in before;
        }
      }
      var added := validators.Add(v);
      assert Elements(validators.validators) == before + {v};
    }
    stored := StoredValidatorSet(config.effectiveAt, validators.validators, config.shardIds);
    assert Elements(stored.validators) == Configured(shard, config) by {
      assert forall k :: k in config.publicKeys ==> exists i :: 0 <= i < |config.publicKeys| && config.publicKeys[i] == k;
    }
  }

  /** The stored list holds the configured keys, each once, all on the shard. */
  lemma StoredKeysAreConfigured(shard: nat, config: ValidatorSetConfig, stored: StoredValidatorSet)
    requires IsStoredSet(shard, config, stored)
    ensures forall k :: k in config.publicKeys <==> k in Addresses(stored.validators)
    ensures forall i :: 0 <= i < |stored.validators| ==> stored.validators[i].shardIndex == shard
  {
    var vs := stored.validators;
    forall i | 0 <= i < |vs| ensures vs[i].shardIndex == shard && vs[i].address in config.publicKeys {
      assert vs[i] in Elements(vs);
    }
    forall k | k in config.publicKeys ensures k in Addresses(vs) {
      assert Validator(shard, k, None, config.effectiveAt) in Elements(vs);
      var i :| 0 <= i < |vs| && vs[i] == Validator(shard, k, None, config.effectiveAt);
      assert Addresses(vs)[i] == k;
    }
  }

  // ----- Rotation -----

  /** The round-robin choice. The source panics on an empty set, a negative round or height zero. */
  function SelectProposer(vs: seq<Validator>, height: nat, round: nat): Validator
    requires vs != [] && height >= 1
  {
    vs[(height - 1 + round) % |vs|]
  }

  /**
    Nodes configured with the same keys, in any order and with any repetition, hold the same
    list and so agree on the proposer of every height and round.
  */
  lemma SameKeysSameProposers(
      shard: nat, c1: ValidatorSetConfig, c2: ValidatorSetConfig, s1: StoredValidatorSet, s2: StoredValidatorSet)
    requires IsStoredSet(shard, c1, s1) && IsStoredSet(shard, c2, s2)
    requires c1.effectiveAt == c2.effectiveAt
    requires forall k :: k in c1.publicKeys <==> k in c2.publicKeys
    ensures s1.validators == s2.validators
    ensures c1.publicKeys != [] ==> s1.validators != []
    ensures c1.publicKeys != [] ==> forall height: nat, round: nat :: height >= 1 ==>
      SelectProposer(s1.validators, height, round) == SelectProposer(s2.validators, height, round)
  {
    SameConfigured(shard, c1, c2);
    CanonicalIsUnique(s1.validators, s2.validators);
    if c1.publicKeys != [] {
      assert Validator(shard, c1.publicKeys[0], None, c1.effectiveAt) in Elements(s1.validators);
    }
  }

  lemma SameConfigured(shard: nat, c1: ValidatorSetConfig, c2: ValidatorSetConfig)
    requires c1.effectiveAt == c2.effectiveAt
    requires forall k :: k in c1.publicKeys <==> k in c2.publicKeys
    ensures Configured(shard, c1) == Configured(shard, c2)
  {
  }

  /** The first validator opens height 1; each later round, and each later height, is the next one's. */
  lemma ProposersTakeTurns(vs: seq<Validator>, height: nat, round: nat, i: nat)
    requires vs != [] && height >= 1 && i < |vs| && SelectProposer(vs, height, round) == vs[i] && Canonical(vs)
    ensures SelectProposer(vs, 1, 0) == vs[0]
    ensures SelectProposer(vs, height, round + 1) == vs[if i == |vs| - 1 then 0 else i + 1]
    ensures SelectProposer(vs, height + 1, round) == vs[if i == |vs| - 1 then 0 else i + 1]
  {
    var j := (height - 1 + round) % |vs|;
    LessIsTotal(vs[j].address, vs[i].address);
    assert i == j;
    ModStep(height - 1 + round, |vs|);
    Below(0, |vs|);
  }

  /** Three validators: heights and rounds go round together from the first at height 1. */
  lemma ThreeTakeTurns(vs: seq<Validator>)
    requires |vs| == 3
    ensures SelectProposer(vs, 1, 0) == vs[0] && SelectProposer(vs, 1, 1) == vs[1]
    ensures SelectProposer(vs, 2, 0) == vs[1] && SelectProposer(vs, 3, 1) == vs[0]
  {
  }

  /** How often a validator proposes in `count` consecutive rounds of one height. */
  ghost function TurnsInRounds(vs: seq<Validator>, height: nat, round: nat, count: nat, v: Validator): nat
    requires vs != [] && height >= 1
    decreases count
  {
    if count == 0 then 0
    else (if SelectProposer(vs, height, round) == v then 1 else 0) + TurnsInRounds(vs, height, round + 1, count - 1, v)
  }

  /** The same for `count` consecutive heights at one round. */
  ghost function TurnsInHeights(vs: seq<Validator>, height: nat, round: nat, count: nat, v: Validator): nat
    requires vs != [] && height >= 1
    decreases count
  {
    if count == 0 then 0
    else (if SelectProposer(vs, height, round) == v then 1 else 0) + TurnsInHeights(vs, height + 1, round, count - 1, v)
  }

  lemma {:induction false} HeightsTurnLikeRounds(vs: seq<Validator>, height: nat, round: nat, count: nat, v: Validator)
    requires vs != [] && height >= 1
    ensures TurnsInHeights(vs, height, round, count, v) == TurnsInRounds(vs, height, round, count, v)
    decreases count
  {
    if count > 0 {
      HeightsTurnLikeRounds(vs, height + 1, round, count - 1, v);
      RoundsShift(vs, height, round + 1, count - 1, v);
    }
  }

  lemma {:induction false} RoundsShift(vs: seq<Validator>, height: nat, round: nat, count: nat, v: Validator)
    requires vs != [] && height >= 1
    ensures round >= 1 ==> TurnsInRounds(vs, height + 1, round - 1, count, v) == TurnsInRounds(vs, height, round, count, v)
    decreases count
  {
    if count > 0 {
      RoundsShift(vs, height, round + 1, count - 1, v);
    }
  }

  /** Quotient and remainder are unique. */
  lemma DivisionIs(x: nat, n: nat, q: nat, r: nat)
    requires r < n && x == q * n + r
    ensures x / n == q && x % n == r
  {
    var q', r' := x / n, x % n;
    assert x == q' * n + r';
    if q' < q {
      AtLeast(q, q', n);
    } else if q < q' {
      AtLeast(q', q, n);
    }
  }

  lemma {:induction false} AtLeast(a: nat, b: nat, n: nat)
    requires a > b
    ensures a * n >= b * n + n
  {
    assert a * n == (a - 1) * n + n;
    if a > b + 1 { AtLeast(a - 1, b, n); }
  }

  lemma ModStep(x: nat, n: nat)
    requires n > 0
    ensures (x + 1) % n == if x % n == n - 1 then 0 else x % n + 1
  {
    var q, r := x / n, x % n;
    assert x == q * n + r;
    if r == n - 1 {
      assert (q + 1) * n == q * n + n;
      DivisionIs(x + 1, n, q + 1, 0);
    } else {
      DivisionIs(x + 1, n, q, r + 1);
    }
  }

  lemma DivOfSum(x: nat, n: nat)
    requires n > 0
    ensures (x + n) / n == x / n + 1
  {
    var q, r := x / n, x % n;
    assert x == q * n + r;
    assert (q + 1) * n == q * n + n;
    DivisionIs(x + n, n, q + 1, r);
  }

  /** How many places ahead of index j index i lies, going round n places. */
  function Distance(j: nat, i: nat, n: nat): (d: nat)
    requires i < n && j < n
    ensures d < n
  {
    if j <= i then i - j else i + n - j
  }

  function TurnsAfter(distance: nat, count: nat, n: nat): nat
    requires n > 0
  {
    if count <= distance then 0 else 1 + (count - distance - 1) / n
  }

  /** One round later the distance is one less, or n - 1 after a turn; the count follows. */
  lemma TurnsStep(j: nat, i: nat, count: nat, n: nat)
    requires i < n && j < n && count > 0
    ensures var next := if j == n - 1 then 0 else j + 1;
      TurnsAfter(Distance(j, i, n), count, n)
      == (if i == j then 1 else 0) + TurnsAfter(Distance(next, i, n), count - 1, n)
  {
    if i == j {
      if count > n {
        DivOfSum(count - 1 - n, n);
      } else {
        DivisionIs(count - 1, n, 0, count - 1);
      }
    }
  }

  /** The exact number of turns: the first comes at the distance, the rest every n rounds. */
  lemma {:induction false} ExactTurns(vs: seq<Validator>, height: nat, round: nat, count: nat, i: nat)
    requires vs != [] && height >= 1 && i < |vs| && Canonical(vs)
    ensures TurnsInRounds(vs, height, round, count, vs[i])
      == TurnsAfter(Distance((height - 1 + round) % |vs|, i, |vs|), count, |vs|)
    decreases count
  {
    if count > 0 {
      var n, j := |vs|, (height - 1 + round) % |vs|;
      ExactTurns(vs, height, round + 1, count - 1, i);
      ModStep(height - 1 + round, n);
      LessIsTotal(vs[j].address, vs[i].address);
      TurnsStep(j, i, count, n);
    }
  }

  lemma {:induction false} TurnsBounds(d: nat, count: nat, n: nat)
    requires d < n
    ensures count / n <= TurnsAfter(d, count, n) <= count / n + 1
    ensures count == n ==> TurnsAfter(d, count, n) == 1
    decreases count
  {
    if count < n {
      Below(count, n);
      if d < count { Below(count - d - 1, n); }
    } else {
      var less := count - n;
      TurnsBounds(d, less, n);
      DivOfSum(less, n);
      if d < less {
        DivOfSum(less - d - 1, n);
      } else {
        Below(count - d - 1, n);
      }
    }
  }

  lemma Below(x: nat, n: nat)
    requires x < n
    ensures x / n == 0
  {
    DivisionIs(x, n, 0, x);
  }

  /**
    Fairness: over any stretch of rounds at a height, and over any stretch of heights at a round,
    every validator proposes count / n times or once more, and in n consecutive turns exactly once.
  */
  lemma RoundRobinIsFair(vs: seq<Validator>, height: nat, round: nat, count: nat, i: nat)
    requires vs != [] && height >= 1 && i < |vs| && Canonical(vs)
    ensures count / |vs| <= TurnsInRounds(vs, height, round, count, vs[i]) <= count / |vs| + 1
    ensures TurnsInHeights(vs, height, round, count, vs[i]) == TurnsInRounds(vs, height, round, count, vs[i])
    ensures count == |vs| ==> TurnsInRounds(vs, height, round, count, vs[i]) == 1
  {
    ExactTurns(vs, height, round, count, i);
    HeightsTurnLikeRounds(vs, height, round, count, vs[i]);
    TurnsBounds(Distance((height - 1 + round) % |vs|, i, |vs|), count, |vs|);
  }

  // ----- The set in force -----

  predicate Eligible(s: StoredValidatorSet, shard: nat, height: nat)
  {
    shard in s.shardIds && s.effectiveAt <= height
  }

  /** The index the scan of the first n sets has settled on. */
  function Chosen(sets: seq<StoredValidatorSet>, shard: nat, height: nat, n: nat): (c: nat)
    requires sets != [] && n <= |sets|
    ensures c < |sets|
  {
    if n == 0 then 0
    else
      var c := Chosen(sets, shard, height, n - 1);
      if Eligible(sets[n - 1], shard, height) && sets[n - 1].effectiveAt > sets[c].effectiveAt then n - 1 else c
  }

  /** The validator list in force at a height. */
  function InForce(sets: seq<StoredValidatorSet>, shard: nat, height: nat): seq<Validator>
    requires sets != []
  {
    sets[Chosen(sets, shard, height, |sets|)].validators
  }

  method GetValidatorSet(sets: seq<StoredValidatorSet>, shard: nat, height: nat) returns (validators: seq<Validator>)
    requires sets != []
    ensures validators == InForce(sets, shard, height)
  {
    var result := sets[0];
    for n := 0 to |sets|
      invariant result == sets[Chosen(sets, shard, height, n)]
    {
      var config := sets[n];
      if shard in config.shardIds && config.effectiveAt <= height && config.effectiveAt > result.effectiveAt {
        result := config;
      }
    }
    validators := result.validators;
  }

  /** The scan settles on the latest eligible set, the earliest of equals, unless none is later than the first set. */
  lemma {:induction false} ChosenIsLatest(sets: seq<StoredValidatorSet>, shard: nat, height: nat, n: nat)
    requires sets != [] && n <= |sets|
    ensures var c := Chosen(sets, shard, height, n);
      && (c != 0 ==> c < n && Eligible(sets[c], shard, height) && sets[c].effectiveAt > sets[0].effectiveAt)
      && (forall k :: 0 <= k < n && Eligible(sets[k], shard, height) ==> sets[k].effectiveAt <= sets[c].effectiveAt)
      && (forall k :: 0 <= k < c && Eligible(sets[k], shard, height) ==> sets[k].effectiveAt < sets[c].effectiveAt)
  {
    if n > 0 {
      ChosenIsLatest(sets, shard, height, n - 1);
    }
  }

  /**
    The set in force is really configured for the shard and already effective exactly when the
    first set is, or some eligible set takes effect later than the first one does.
  */
  lemma InForceIsEligibleIff(sets: seq<StoredValidatorSet>, shard: nat, height: nat)
    requires sets != []
    ensures Eligible(sets[Chosen(sets, shard, height, |sets|)], shard, height) <==>
      (Eligible(sets[0], shard, height)
       || exists k :: 0 <= k < |sets| && Eligible(sets[k], shard, height) && sets[k].effectiveAt > sets[0].effectiveAt)
  {
    ChosenIsLatest(sets, shard, height, |sets|);
  }

  /** A first set that takes effect at 10, and is for another shard, is in force on shard 1 at height 5. */
  lemma FirstSetIsInForceAnyway(vs: seq<Validator>)
    ensures var sets := [StoredValidatorSet(10, vs, [2])];
      InForce(sets, 1, 5) == vs && !Eligible(sets[Chosen(sets, 1, 5, |sets|)], 1, 5)
  {
    ChosenIsLatest([StoredValidatorSet(10, vs, [2])], 1, 5, 1);
  }

  /** Of a first set for shard 1 and a later one for shard 2, shard 1 stays with the first and shard 2 moves on. */
  lemma EachShardHasItsSet(vs: seq<Validator>, ws: seq<Validator>)
    ensures var sets := [StoredValidatorSet(0, vs, [1]), StoredValidatorSet(5, ws, [2])];
      InForce(sets, 1, 9) == vs && InForce(sets, 2, 4) == vs && InForce(sets, 2, 5) == ws
  {
    var sets := [StoredValidatorSet(0, vs, [1]), StoredValidatorSet(5, ws, [2])];
    ChosenOfTwo(sets, 1, 9);
    ChosenOfTwo(sets, 2, 4);
    ChosenOfTwo(sets, 2, 5);
  }

  lemma ChosenOfTwo(sets: seq<StoredValidatorSet>, shard: nat, height: nat)
    requires |sets| == 2 && sets[1].effectiveAt > sets[0].effectiveAt
    ensures Chosen(sets, shard, height, 2) == if shard in sets[1].shardIds && sets[1].effectiveAt <= height then 1 else 0
  {
    assert Chosen(sets, shard, height, 0) == 0;
    assert Chosen(sets, shard, height, 1) == 0;
  }

  /** The first set, and of the later ones those that list the shard and have taken effect. */
  ghost function Relevant(sets: seq<StoredValidatorSet>, shard: nat, height: nat): (r: seq<StoredValidatorSet>)
    requires sets != []
    ensures r != [] && r[0] == sets[0]
  {
    if |sets| == 1 then sets
    else
      var last := sets[|sets| - 1];
      Relevant(sets[..|sets| - 1], shard, height)
      + if shard in last.shardIds && last.effectiveAt <= height then [last] else []
  }

  lemma {:induction false} ChosenOfPrefix(
      sets: seq<StoredValidatorSet>, more: seq<StoredValidatorSet>, shard: nat, height: nat, n: nat)
    requires sets != [] && sets <= more && n <= |sets|
    ensures Chosen(sets, shard, height, n) == Chosen(more, shard, height, n)
  {
    if n > 0 {
      ChosenOfPrefix(sets, more, shard, height, n - 1);
    }
  }

  ghost function Pick(sets: seq<StoredValidatorSet>, shard: nat, height: nat): StoredValidatorSet
    requires sets != []
  {
    sets[Chosen(sets, shard, height, |sets|)]
  }

  lemma PickOneMore(sets: seq<StoredValidatorSet>, x: StoredValidatorSet, shard: nat, height: nat)
    requires sets != []
    ensures var before := Pick(sets, shard, height);
      Pick(sets + [x], shard, height)
      == if Eligible(x, shard, height) && x.effectiveAt > before.effectiveAt then x else before
  {
    ChosenOfPrefix(sets, sets + [x], shard, height, |sets|);
  }

  /** Later sets for other shards, or not yet effective, have no say in the set in force. */
  lemma {:induction false} InForceIgnoresOthers(sets: seq<StoredValidatorSet>, shard: nat, height: nat)
    requires sets != []
    ensures Pick(Relevant(sets, shard, height), shard, height) == Pick(sets, shard, height)
    ensures InForce(Relevant(sets, shard, height), shard, height) == InForce(sets, shard, height)
  {
    if |sets| > 1 {
      var init, last := sets[..|sets| - 1], sets[|sets| - 1];
      InForceIgnoresOthers(init, shard, height);
      assert sets == init + [last];
      PickOneMore(init, last, shard, height);
      PickOneMore(Relevant(init, shard, height), last, shard, height);
      assert Relevant(init, shard, height) + [] == Relevant(init, shard, height);
    }
  }

  /** As the chain grows the set in force never goes back to an earlier one. */
  lemma InForceAdvances(sets: seq<StoredValidatorSet>, shard: nat, h1: nat, h2: nat)
    requires sets != [] && h1 <= h2
    ensures sets[Chosen(sets, shard, h1, |sets|)].effectiveAt <= sets[Chosen(sets, shard, h2, |sets|)].effectiveAt
  {
    ChosenIsLatest(sets, shard, h1, |sets|);
    ChosenIsLatest(sets, shard, h2, |sets|);
  }
}

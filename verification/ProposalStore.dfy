/**
  The in-memory store of proposals (ProposedValues in src/consensus/proposer.rs): proposals by hash,
  and the hashes by height so that everything up to a decided height can be dropped.
*/
module ProposalStore {
  import opened Basics

  /** A proposal as the store sees it: its height, its hash, and the rest. */
  datatype Proposed<H, P> = Proposed(height: nat, hash: H, body: P)

  datatype Store<H, P> = Store(byHeight: map<nat, seq<H>>, values: map<H, Proposed<H, P>>)

  function HashesAt<H, P>(s: Store<H, P>, height: nat): seq<H>
  {
    if height in s.byHeight then s.byHeight[height] else []
  }

  function Added<H, P>(s: Store<H, P>, v: Proposed<H, P>): Store<H, P>
  {
    Store(s.byHeight[v.height := HashesAt(s, v.height) + [v.hash]], s.values[v.hash := v])
  }

  /** The hashes listed at any of the heights. */
  ghost function ListedAt<H, P>(s: Store<H, P>, ks: set<nat>): set<H>
  {
    set k, x | k in ks && k in s.byHeight && x in s.byHeight[k] :: x
  }

  /** The store without some heights and every hash listed at them. */
  ghost function Without<H, P>(s: Store<H, P>, ks: set<nat>): Store<H, P>
  {
    Store(s.byHeight - ks, s.values - ListedAt(s, ks))
  }

  ghost function HeightsTo<H, P>(s: Store<H, P>, h: nat): set<nat>
  {
    set k | k in s.byHeight && k <= h
  }

  /** The hashes listed at heights up to h. */
  ghost function Listed<H, P>(s: Store<H, P>, h: nat): set<H>
  {
    ListedAt(s, HeightsTo(s, h))
  }

  ghost function Decided<H, P>(s: Store<H, P>, h: nat): Store<H, P>
  {
    Without(s, HeightsTo(s, h))
  }

  lemma WithoutOneMore<H, P>(s: Store<H, P>, ks: set<nat>, k: nat)
    requires k in s.byHeight
    ensures Without(s, ks + {k})
      == Store(Without(s, ks).byHeight - {k}, Without(s, ks).values - set x | x in s.byHeight[k])
  {
    assert ListedAt(s, ks + {k}) == ListedAt(s, ks) + set x | x in s.byHeight[k];
    assert s.byHeight - (ks + {k}) == s.byHeight - ks - {k};
    assert s.values - ListedAt(s, ks + {k}) == s.values - ListedAt(s, ks) - set x | x in s.byHeight[k];
  }

  /** In an increasing list everything after the first entry above the height is above it too. */
  lemma BreakLosesNothing(heights: seq<nat>, n: nat, height: nat)
    requires Increasing(heights) && n <= |heights|
    requires n < |heights| ==> heights[n] > height
    requires forall i :: 0 <= i < n ==> heights[i] <= height
    ensures forall k :: k in heights[..n] <==> k in heights && k <= height
  {
    forall k | k in heights && k <= height ensures k in heights[..n] {
      var j :| 0 <= j < |heights| && heights[j] == k;
      assert j < n;
      assert heights[..n][j] == k;
    }
  }

  /** The first loop of the pruning: heights in order, up to the first one above the decided height. */
  method HeightsUpTo(keys: set<nat>, height: nat) returns (toRemove: seq<nat>)
    ensures forall k :: k in toRemove <==> k in keys && k <= height
    ensures Increasing(toRemove)
  {
    var heights := Iterate(keys);
    toRemove := [];
    var n := 0;
    while n < |heights|
      invariant 0 <= n <= |heights|
      invariant toRemove == heights[..n] && forall i :: 0 <= i < n ==> heights[i] <= height
    {
      if heights[n] <= height {
        toRemove := toRemove + [heights[n]];
      } else {
        break;
      }
      n := n + 1;
    }
    BreakLosesNothing(heights, n, height);
  }

  class ProposedValues<H(==, !new), P> {
    var valuesByHeight: map<nat, seq<H>>
    var values: map<H, Proposed<H, P>>

    ghost function State(): Store<H, P>
      reads this
    {
      Store(valuesByHeight, values)
    }

    constructor ()
      ensures State() == Store(map[], map[])
    {
      valuesByHeight := map[];
      values := map[];
    }

    method AddProposedValue(v: Proposed<H, P>)
      modifies this
      ensures State() == Added(old(State()), v)
    {
      values := values[v.hash := v];
      if v.height in valuesByHeight {
        valuesByHeight := valuesByHeight[v.height := valuesByHeight[v.height] + [v.hash]];
      } else {
        valuesByHeight := valuesByHeight[v.height := [v.hash]];
        assert [] + [v.hash] == [v.hash];
      }
    }

    method GetByShardHash(hash: H) returns (r: Option<Proposed<H, P>>)
      ensures r == if hash in values then Some(values[hash]) else None
    {
      r := if hash in values then Some(values[hash]) else None;
    }

    method Decide(height: nat)
      modifies this
      ensures State() == Decided(old(State()), height)
    {
      var toRemove := HeightsUpTo(valuesByHeight.Keys, height);
      ghost var s, done := State(), {};
      assert State() == Without(s, {});
      for n := 0 to |toRemove|
        invariant done == set i | 0 <= i < n :: toRemove[i]
        invariant State() == Without(s, done)
      {
        var h := toRemove[n];
        assert h in toRemove;
        assert h !in done;
        var hashes := valuesByHeight[h];
        valuesByHeight := valuesByHeight - {h};
        RemoveAll(hashes);
        WithoutOneMore(s, done, h);
        done := done + {h};
      }
      assert done == HeightsTo(s, height) by {
        assert forall k :: k in done <==> k in toRemove;
      }
    }

    method RemoveAll(hashes: seq<H>)
      modifies this`values
      ensures values == old(values) - set x | x in hashes
    {
      for m := 0 to |hashes|
        invariant values == old(values) - set i | 0 <= i < m :: hashes[i]
      {
        values := values - {hashes[m]};
      }
      assert (set i | 0 <= i < |hashes| :: hashes[i]) == set x | x in hashes;
    }
  }

  // ----- Runs -----

  datatype Op<H, P> = Add(v: Proposed<H, P>) | Decide(height: nat)

  ghost function Step<H, P>(s: Store<H, P>, op: Op<H, P>): Store<H, P>
  {
    match op
    case Add(v) => Added(s, v)
    case Decide(h) => Decided(s, h)
  }

  ghost function Run<H, P>(ops: seq<Op<H, P>>): Store<H, P>
  {
    if ops == [] then Store(map[], map[]) else Step(Run(ops[..|ops| - 1]), ops[|ops| - 1])
  }

  /** The store as a plain map: an add overwrites, a decision drops all heights up to it. */
  ghost function PlainRun<H, P>(ops: seq<Op<H, P>>): map<H, Proposed<H, P>>
  {
    if ops == [] then map[]
    else
      var before := PlainRun(ops[..|ops| - 1]);
      match ops[|ops| - 1]
      case Add(v) => before[v.hash := v]
      case Decide(h) => map x | x in before && before[x].height > h :: before[x]
  }

  /** Every stored proposal is listed at its own height. */
  ghost predicate Indexed<H(!new), P(!new)>(s: Store<H, P>)
  {
    forall x :: x in s.values ==> s.values[x].hash == x && x in HashesAt(s, s.values[x].height)
  }

  lemma {:induction false} RunsAreIndexed<H(!new), P(!new)>(ops: seq<Op<H, P>>)
    ensures Indexed(Run(ops))
  {
    if ops != [] {
      RunsAreIndexed(ops[..|ops| - 1]);
    }
  }

  /** In an indexed store a decision leaves only proposals of later heights. */
  lemma OnlyLaterSurvive<H(!new), P(!new)>(s: Store<H, P>, h: nat)
    requires Indexed(s)
    ensures forall x :: x in Decided(s, h).values ==> s.values[x].height > h
  {
  }

  /** On every run, whatever the hashes: after a decision no proposal of a decided height is left. */
  lemma NothingStaleSurvives<H(!new), P(!new)>(ops: seq<Op<H, P>>, h: nat)
    ensures forall x :: x in Run(ops + [Decide(h)]).values ==> Run(ops + [Decide(h)]).values[x].height > h
  {
    RunsAreIndexed(ops);
    RunStep(ops, Decide(h));
    OnlyLaterSurvive(Run(ops), h);
  }

  /**
    A decision deletes exactly the proposals up to its height when, and only when, no hash listed
    at such a height has since been proposed again above it.
  */
  lemma DecisionIsExactIff<H(!new), P(!new)>(s: Store<H, P>, h: nat)
    requires Indexed(s)
    ensures Decided(s, h).values == (map x | x in s.values && s.values[x].height > h :: s.values[x])
      <==> forall x :: x in Listed(s, h) && x in s.values ==> s.values[x].height <= h
  {
    var kept := map x | x in s.values && s.values[x].height > h :: s.values[x];
    if forall x :: x in Listed(s, h) && x in s.values ==> s.values[x].height <= h {
      assert Decided(s, h).values == kept;
    } else {
      var x :| x in Listed(s, h) && x in s.values && s.values[x].height > h;
      assert x in kept && x !in Decided(s, h).values;
    }
  }

  /** Equal hashes carry equal heights throughout the run. */
  ghost predicate HeightsByHash<H(!new), P(!new)>(ops: seq<Op<H, P>>, heightOf: map<H, nat>)
  {
    forall v :: Add(v) in ops ==> v.hash in heightOf && heightOf[v.hash] == v.height
  }

  /** No entry dangles: what is listed at a height is stored, and with that height. */
  ghost predicate Tight<H(!new), P(!new)>(s: Store<H, P>, heightOf: map<H, nat>)
  {
    && (forall k, x :: k in s.byHeight && x in s.byHeight[k] ==>
          x in s.values && x in heightOf && heightOf[x] == k)
    && (forall x :: x in s.values ==> x in heightOf && heightOf[x] == s.values[x].height)
  }

  lemma AddedIsTight<H(!new), P(!new)>(s: Store<H, P>, v: Proposed<H, P>, heightOf: map<H, nat>)
    requires Tight(s, heightOf) && v.hash in heightOf && heightOf[v.hash] == v.height
    ensures Tight(Added(s, v), heightOf)
  {
  }

  lemma DecidedIsTight<H(!new), P(!new)>(s: Store<H, P>, h: nat, heightOf: map<H, nat>)
    requires Tight(s, heightOf)
    ensures Tight(Decided(s, h), heightOf)
  {
    forall x | x in Listed(s, h) ensures x in heightOf && heightOf[x] <= h {
      var k :| k in HeightsTo(s, h) && k in s.byHeight && x in s.byHeight[k];
    }
  }

  /**
    While equal hashes carry equal heights, the two-index store is a plain map from hash to
    proposal, and duplicate adds leave nothing dangling.
  */
  lemma {:induction false} StoreRefinesMap<H(!new), P(!new)>(ops: seq<Op<H, P>>, heightOf: map<H, nat>)
    requires HeightsByHash(ops, heightOf)
    ensures Run(ops).values == PlainRun(ops)
    ensures Tight(Run(ops), heightOf)
  {
    if ops != [] {
      var init, op := ops[..|ops| - 1], ops[|ops| - 1];
      assert forall v :: Add(v) in init ==> Add(v) in ops;
      StoreRefinesMap(init, heightOf);
      RunsAreIndexed(init);
      var s := Run(init);
      match op
      case Add(v) =>
        assert Add(v) in ops;
        AddedIsTight(s, v, heightOf);
      case Decide(h) =>
        DecidedIsTight(s, h, heightOf);
        DecisionIsExactIff(s, h);
    }
  }

  /** The condition is needed: a hash proposed at heights 1 and 2 is lost when height 1 is decided. */
  lemma ReusedHashIsLost<H(!new), P(!new)>(x: H, p: P)
    ensures var ops := [Add(Proposed(1, x, p)), Add(Proposed(2, x, p)), Decide(1)];
      Run(ops).values == map[] && PlainRun(ops) == map[x := Proposed(2, x, p)]
  {
    var a, b: Op<H, P>, d := Add(Proposed(1, x, p)), Add(Proposed(2, x, p)), Op<H, P>.Decide(1);
    var s1 := Store(map[1 := [x]], map[x := Proposed(1, x, p)]);
    var s2 := Store(map[1 := [x], 2 := [x]], map[x := Proposed(2, x, p)]);
    assert Run<H, P>([a]) == s1 by {
      RunStep([], a);
      assert [] + [a] == [a] && [] + [x] == [x];
    }
    assert Run<H, P>([a, b]) == s2 by {
      RunStep([a], b);
      assert [a] + [b] == [a, b];
    }
    RunStep([a, b], d);
    assert [a, b] + [d] == [a, b, d];
    assert 1 in s2.byHeight && x in s2.byHeight[1];
    assert 1 in HeightsTo(s2, 1);
    assert x in Listed(s2, 1);
    PlainStep([], a);
    PlainStep([a], b);
    PlainStep([a, b], d);
  }

  lemma RunStep<H(!new), P(!new)>(ops: seq<Op<H, P>>, op: Op<H, P>)
    ensures Run(ops + [op]) == Step(Run(ops), op)
  {
    assert (ops + [op])[..|ops|] == ops;
  }

  lemma PlainStep<H(!new), P(!new)>(ops: seq<Op<H, P>>, op: Op<H, P>)
    ensures op.Add? ==> PlainRun(ops + [op]) == PlainRun(ops)[op.v.hash := op.v]
    ensures op.Decide? ==>
      PlainRun(ops + [op]) == map x | x in PlainRun(ops) && PlainRun(ops)[x].height > op.height :: PlainRun(ops)[x]
  {
    assert (ops + [op])[..|ops|] == ops;
  }
}

/**
  Height-by-height catch-up as a state machine, over any type of value: out-of-order values wait in
  a bounded buffer, contiguous heights are committed. The read node of src/consensus/read_validator.rs
  runs it on the decided values it has verified.
*/
module CatchUp {
  import opened Basics

  /** A verified value and the height it is for. */
  datatype Entry<V> = Entry(height: nat, value: V)

  datatype Node<V> = Node(last: nat, log: seq<Entry<V>>, buffer: map<nat, V>)

  function Fresh<V>(start: nat): Node<V>
  {
    Node(start, [], map[])
  }

  function Commit<V>(s: Node<V>, e: Entry<V>): Node<V>
  {
    Node(e.height, s.log + [e], s.buffer)
  }

  /** Commit the buffered value of the next height. */
  function Advanced<V>(s: Node<V>): Node<V>
    requires s.last + 1 in s.buffer
  {
    Node(s.last + 1, s.log + [Entry(s.last + 1, s.buffer[s.last + 1])], s.buffer - {s.last + 1})
  }

  /** Commit the gap-free run of buffered heights that follows the last one. */
  ghost function Drain<V>(s: Node<V>): Node<V>
  {
    var g := Frontier(s.buffer.Keys, s.last);
    Node(g, s.log + Run(s.buffer, s.last, g), map h | h in s.buffer && h > g :: s.buffer[h])
  }

  /** The buffered entries after height n up to height g, in order. */
  ghost function Run<V>(buffer: map<nat, V>, n: nat, g: nat): (r: seq<Entry<V>>)
    requires n <= g && forall h :: n < h <= g ==> h in buffer
    ensures |r| == g - n
    ensures forall i :: 0 <= i < |r| ==> r[i] == Entry(n + 1 + i, buffer[n + 1 + i])
  {
    seq(g - n, i requires 0 <= i < g - n => Entry(n + 1 + i, buffer[n + 1 + i]))
  }

  ghost function Deliver<V>(max: nat, s: Node<V>, e: Entry<V>): Node<V>
  {
    if e.height > s.last + 1 then
      if |s.buffer| < max then s.(buffer := s.buffer[e.height := e.value]) else s
    else if e.height == s.last + 1 then Drain(Commit(s, e))
    else s
  }

  /** A run: verified values delivered one after the other. */
  ghost function DeliverAll<V>(max: nat, s: Node<V>, es: seq<Entry<V>>): Node<V>
  {
    if es == [] then s else Deliver(max, DeliverAll(max, s, es[..|es| - 1]), es[|es| - 1])
  }

  lemma DrainOfAdvanced<V>(s: Node<V>)
    requires s.last + 1 in s.buffer
    ensures Drain(Advanced(s)) == Drain(s)
  {
    var t := Advanced(s);
    var g, g' := Drain(s).last, Drain(t).last;
    assert IsFrontier(s.buffer.Keys, s.last, g') by {
      assert forall h :: s.last + 1 < h ==> (h in t.buffer.Keys <==> h in s.buffer.Keys);
    }
    FrontierIsUnique(s.buffer.Keys, s.last, g, g');
    assert Run(s.buffer, s.last, g) == [Entry(s.last + 1, s.buffer[s.last + 1])] + Run(t.buffer, t.last, g);
    assert Drain(s).buffer == Drain(t).buffer;
  }

  lemma DrainOfGap<V>(s: Node<V>)
    requires s.last + 1 !in s.buffer && forall h :: h in s.buffer ==> h > s.last
    ensures Drain(s) == s
  {
    FrontierIsUnique(s.buffer.Keys, s.last, s.last, Drain(s).last);
    assert Drain(s).buffer == s.buffer;
  }

  // ----- Every run is safe -----

  /** Commits are consecutive from the start. */
  ghost predicate LogIsConsecutive<V>(start: nat, s: Node<V>)
  {
    s.last == start + |s.log| && forall i :: 0 <= i < |s.log| ==> s.log[i].height == start + 1 + i
  }

  /** The buffer keeps its bound and lies at or above the given height. */
  ghost predicate BufferIsBeyond<V>(max: nat, s: Node<V>, next: nat)
  {
    |s.buffer| <= max && forall h :: h in s.buffer ==> next <= h
  }

  ghost predicate Safe<V>(max: nat, start: nat, s: Node<V>)
  {
    LogIsConsecutive(start, s) && BufferIsBeyond(max, s, s.last + 2)
  }

  /** Everything the node holds comes from the given entries. */
  ghost predicate HoldsOnly<V>(s: Node<V>, es: seq<Entry<V>>)
  {
    (forall e :: e in s.log ==> e in es) && forall h :: h in s.buffer ==> Entry(h, s.buffer[h]) in es
  }

  lemma DrainIsSafe<V>(start: nat, max: nat, s: Node<V>)
    requires LogIsConsecutive(start, s) && BufferIsBeyond(max, s, s.last + 1)
    ensures LogIsConsecutive(start, Drain(s)) && Drain(s).last >= s.last
    ensures BufferIsBeyond(max, Drain(s), Drain(s).last + 2)
  {
    SubsetIsSmaller(Drain(s).buffer.Keys, s.buffer.Keys);
  }

  lemma DrainHoldsOnly<V>(s: Node<V>, es: seq<Entry<V>>)
    requires HoldsOnly(s, es)
    ensures HoldsOnly(Drain(s), es)
  {
    var g := Drain(s).last;
    var r := Run(s.buffer, s.last, g);
    forall e | e in r ensures e in es {
      var i :| 0 <= i < |r| && r[i] == e;
      assert e == Entry(s.last + 1 + i, s.buffer[s.last + 1 + i]);
    }
  }

  lemma DeliverIsSafe<V>(max: nat, start: nat, s: Node<V>, e: Entry<V>)
    requires Safe(max, start, s)
    ensures Safe(max, start, Deliver(max, s, e))
    ensures Deliver(max, s, e).last >= s.last
    ensures e.height <= s.last + 1 ==> Deliver(max, s, e).last >= e.height
  {
    if e.height == s.last + 1 {
      DrainIsSafe(start, max, Commit(s, e));
    }
  }

  /**
    On every run, even one that drops values on a full buffer: commits are strictly consecutive,
    buffered heights exceed the next height, and the buffer keeps its bound.
  */
  lemma {:induction false} RunsAreSafe<V>(max: nat, start: nat, es: seq<Entry<V>>)
    ensures Safe(max, start, DeliverAll(max, Fresh(start), es))
  {
    if es != [] {
      RunsAreSafe(max, start, es[..|es| - 1]);
      DeliverIsSafe(max, start, DeliverAll(max, Fresh(start), es[..|es| - 1]), es[|es| - 1]);
    }
  }

  /** Nothing is ever held that was not delivered at its height. */
  lemma {:induction false} RunsHoldOnly<V>(max: nat, start: nat, es: seq<Entry<V>>)
    ensures HoldsOnly(DeliverAll(max, Fresh(start), es), es)
  {
    if es != [] {
      var init, e := es[..|es| - 1], es[|es| - 1];
      RunsHoldOnly(max, start, init);
      var s := DeliverAll(max, Fresh(start), init);
      assert HoldsOnly(s, es) by {
        assert forall x :: x in init ==> x in es;
      }
      if e.height == s.last + 1 {
        DrainHoldsOnly(Commit(s, e), es);
      }
    }
  }

  /** Redelivery heals any dropped value: whatever came before, values sent again in height order are all committed. */
  lemma {:induction false} InOrderRedeliveryCatchesUp<V>(
      max: nat, start: nat, before: seq<Entry<V>>, again: seq<Entry<V>>, first: nat)
    requires forall i :: 0 <= i < |again| ==> again[i].height == first + i
    requires first <= DeliverAll(max, Fresh(start), before).last + 1
    ensures first + |again| <= DeliverAll(max, Fresh(start), before + again).last + 1
    decreases |again|
  {
    if again == [] {
      assert before + again == before;
    } else {
      var init := again[..|again| - 1];
      InOrderRedeliveryCatchesUp(max, start, before, init, first);
      assert (before + again)[..|before + again| - 1] == before + init;
      RunsAreSafe(max, start, before + init);
      DeliverIsSafe(max, start, DeliverAll(max, Fresh(start), before + init), again[|again| - 1]);
    }
  }

  // ----- Confluence -----

  /** One value per height: the entries are all on one chain. */
  ghost predicate OnChain<V>(es: seq<Entry<V>>, chain: map<nat, V>)
  {
    forall e :: e in es ==> e.height in chain && chain[e.height] == e.value
  }

  ghost function Heights<V>(es: seq<Entry<V>>): set<nat>
  {
    set e | e in es :: e.height
  }

  /** No delivery of a new height met a full buffer. */
  ghost predicate NoneTurnedAway<V>(max: nat, start: nat, es: seq<Entry<V>>)
  {
    es == [] ||
    var init, e := es[..|es| - 1], es[|es| - 1];
    var s := DeliverAll(max, Fresh(start), init);
    && NoneTurnedAway(max, start, init)
    && (e.height > s.last + 1 && e.height !in s.buffer ==> |s.buffer| < max)
  }

  /** The delivered heights that would have to wait if nothing were committed. */
  ghost function Waiting<V>(start: nat, es: seq<Entry<V>>): set<nat>
  {
    set h | h in Heights(es) && h > start + 1
  }

  lemma WaitingGrows<V>(start: nat, es: seq<Entry<V>>, e: Entry<V>)
    ensures Waiting(start, es) <= Waiting(start, es + [e])
    ensures e.height > start + 1 ==> e.height in Waiting(start, es + [e])
  {
    var more := es + [e];
    assert e in more && forall x :: x in es ==> x in more;
  }

  /** A new height that has to wait is one more than those in the buffer. */
  lemma RoomForOneMore<V>(max: nat, start: nat, es: seq<Entry<V>>, e: Entry<V>)
    ensures var s := DeliverAll(max, Fresh(start), es);
      e.height > s.last + 1 && e.height !in s.buffer ==> |s.buffer| < |Waiting(start, es + [e])|
  {
    var s := DeliverAll(max, Fresh(start), es);
    BufferedAreWaiting(max, start, es);
    WaitingGrows(start, es, e);
    if e.height > s.last + 1 && e.height !in s.buffer {
      SubsetIsSmaller(s.buffer.Keys + {e.height}, Waiting(start, es + [e]));
    }
  }

  /** Seen from the deliveries alone: if no more heights than the buffer holds could ever wait, none is turned away. */
  lemma {:induction false} FewAreNotTurnedAway<V>(max: nat, start: nat, es: seq<Entry<V>>)
    requires |Waiting(start, es)| <= max
    ensures NoneTurnedAway(max, start, es)
  {
    if es != [] {
      var init, e := es[..|es| - 1], es[|es| - 1];
      assert es == init + [e];
      WaitingGrows(start, init, e);
      SubsetIsSmaller(Waiting(start, init), Waiting(start, es));
      FewAreNotTurnedAway(max, start, init);
      RoomForOneMore(max, start, init, e);
    }
  }

  lemma BufferedAreWaiting<V>(max: nat, start: nat, es: seq<Entry<V>>)
    ensures var s := DeliverAll(max, Fresh(start), es); s.last >= start && s.buffer.Keys <= Waiting(start, es)
  {
    RunsAreSafe(max, start, es);
    RunsHoldOnly(max, start, es);
    var s := DeliverAll(max, Fresh(start), es);
    forall h | h in s.buffer ensures h in Waiting(start, es) {
      assert Entry(h, s.buffer[h]) in es;
    }
  }

  /** The log holds the delivered heights after the start, one by one. */
  ghost predicate LogMatches<V>(start: nat, heights: set<nat>, chain: map<nat, V>, s: Node<V>)
  {
    LogIsConsecutive(start, s) && OnChain(s.log, chain) && forall h :: start < h <= s.last ==> h in heights
  }

  /** The buffer holds exactly the delivered heights that are not yet committed. */
  ghost predicate BufferMatches<V>(heights: set<nat>, chain: map<nat, V>, s: Node<V>)
  {
    && (forall h :: h in s.buffer <==> h in heights && h > s.last)
    && (forall h :: h in s.buffer ==> h in chain && s.buffer[h] == chain[h])
  }

  /** The log is the longest gap-free run of delivered heights after the start; the buffer is the rest. */
  ghost predicate Exact<V>(start: nat, heights: set<nat>, chain: map<nat, V>, s: Node<V>)
  {
    LogMatches(start, heights, chain, s) && BufferMatches(heights, chain, s) && s.last + 1 !in heights
  }

  lemma DrainStaysOnChain<V>(heights: set<nat>, chain: map<nat, V>, s: Node<V>)
    requires OnChain(s.log, chain) && BufferMatches(heights, chain, s)
    ensures OnChain(Drain(s).log, chain)
  {
    var run := Run(s.buffer, s.last, Drain(s).last);
    forall e | e in run ensures e.height in chain && chain[e.height] == e.value {
      var i :| 0 <= i < |run| && run[i] == e;
      assert s.last + 1 + i in s.buffer;
    }
  }

  lemma DrainIsExact<V>(start: nat, heights: set<nat>, chain: map<nat, V>, s: Node<V>)
    requires LogMatches(start, heights, chain, s) && BufferMatches(heights, chain, s)
    ensures Exact(start, heights, chain, Drain(s))
  {
    var t := Drain(s);
    assert forall h :: s.last < h <= t.last ==> h in s.buffer.Keys;
    DrainStaysOnChain(heights, chain, s);
  }

  lemma DeliverIsExact<V>(
      max: nat, start: nat, heights: set<nat>, chain: map<nat, V>, s: Node<V>, e: Entry<V>)
    requires Exact(start, heights, chain, s)
    requires e.height in chain && chain[e.height] == e.value
    requires e.height > s.last + 1 && e.height !in s.buffer ==> |s.buffer| < max
    ensures Exact(start, heights + {e.height}, chain, Deliver(max, s, e))
  {
    if e.height == s.last + 1 {
      DrainIsExact(start, heights + {e.height}, chain, Commit(s, e));
    }
  }

  /**
    For every delivery order, duplicates included, in which no new height met a full buffer: the
    log is exactly the longest gap-free run of delivered heights after the start, and the buffer
    holds exactly the delivered heights beyond the gap.
  */
  lemma {:induction false} CatchUpIsExact<V>(max: nat, start: nat, es: seq<Entry<V>>, chain: map<nat, V>)
    requires OnChain(es, chain) && NoneTurnedAway(max, start, es)
    ensures Exact(start, Heights(es), chain, DeliverAll(max, Fresh(start), es))
  {
    if es != [] {
      var init, e := es[..|es| - 1], es[|es| - 1];
      assert es == init + [e];
      assert Heights(es) == Heights(init) + {e.height};
      CatchUpIsExact(max, start, init, chain);
      DeliverIsExact(max, start, Heights(init), chain, DeliverAll(max, Fresh(start), init), e);
    }
  }

  /** The delivered heights leave no freedom. */
  lemma ExactIsUnique<V>(start: nat, heights: set<nat>, chain: map<nat, V>, s: Node<V>, t: Node<V>)
    requires Exact(start, heights, chain, s) && Exact(start, heights, chain, t)
    ensures s == t
  {
    assert s.last < t.last ==> s.last + 1 in heights;
    assert t.last < s.last ==> t.last + 1 in heights;
    forall i | 0 <= i < |s.log| ensures s.log[i] == t.log[i] {
      assert s.log[i] in s.log && t.log[i] in t.log;
    }
    assert s.log == t.log && s.buffer == t.buffer;
  }

  /** Two delivery orders of the same heights, whatever their buffer bounds, end in the same node. */
  lemma CatchUpIsConfluent<V>(
      max1: nat, max2: nat, start: nat, es: seq<Entry<V>>, fs: seq<Entry<V>>, chain: map<nat, V>)
    requires Heights(es) == Heights(fs)
    requires OnChain(es, chain) && NoneTurnedAway(max1, start, es)
    requires OnChain(fs, chain) && NoneTurnedAway(max2, start, fs)
    ensures DeliverAll(max1, Fresh(start), es) == DeliverAll(max2, Fresh(start), fs)
  {
    CatchUpIsExact(max1, start, es, chain);
    CatchUpIsExact(max2, start, fs, chain);
    ExactIsUnique(start, Heights(es), chain,
      DeliverAll(max1, Fresh(start), es), DeliverAll(max2, Fresh(start), fs));
  }

  // ----- Two nodes -----

  /** A place both logs reach holds the same height, and its entry was delivered to each node. */
  lemma LoggedWasDelivered<V>(max: nat, start: nat, es: seq<Entry<V>>, i: nat)
    requires i < |DeliverAll(max, Fresh(start), es).log|
    ensures DeliverAll(max, Fresh(start), es).log[i].height == start + 1 + i
    ensures DeliverAll(max, Fresh(start), es).log[i] in es
  {
    RunsAreSafe(max, start, es);
    RunsHoldOnly(max, start, es);
    var s := DeliverAll(max, Fresh(start), es);
    assert s.log[i] in s.log;
  }

  /** With one value per height, of two logs one is a prefix of the other, dropped values or not. */
  lemma LogsArePrefixes<V>(
      max1: nat, max2: nat, start: nat, es: seq<Entry<V>>, fs: seq<Entry<V>>, chain: map<nat, V>)
    requires OnChain(es, chain) && OnChain(fs, chain)
    ensures var a, b := DeliverAll(max1, Fresh(start), es).log, DeliverAll(max2, Fresh(start), fs).log;
      a <= b || b <= a
  {
    var a, b := DeliverAll(max1, Fresh(start), es).log, DeliverAll(max2, Fresh(start), fs).log;
    var n := if |a| <= |b| then |a| else |b|;
    forall i | 0 <= i < n ensures a[i] == b[i] {
      LoggedWasDelivered(max1, start, es, i);
      LoggedWasDelivered(max2, start, fs, i);
    }
  }

  // ----- Up to a view of the values -----

  ghost function MappedEntries<V, W>(f: V -> W, es: seq<Entry<V>>): (r: seq<Entry<W>>)
    ensures |r| == |es|
    ensures forall i :: 0 <= i < |es| ==> r[i] == Entry(es[i].height, f(es[i].value))
  {
    seq(|es|, i requires 0 <= i < |es| => Entry(es[i].height, f(es[i].value)))
  }

  ghost function MappedBuffer<V, W>(f: V -> W, buffer: map<nat, V>): map<nat, W>
  {
    map h | h in buffer :: f(buffer[h])
  }

  /** The node with every value replaced by what f shows of it. */
  ghost function Mapped<V, W>(f: V -> W, s: Node<V>): Node<W>
  {
    Node(s.last, MappedEntries(f, s.log), MappedBuffer(f, s.buffer))
  }

  lemma MappedSize<V, W>(f: V -> W, buffer: map<nat, V>)
    ensures MappedBuffer(f, buffer).Keys == buffer.Keys && |MappedBuffer(f, buffer)| == |buffer|
  {
    assert MappedBuffer(f, buffer).Keys == buffer.Keys;
  }

  lemma DrainOfMapped<V, W>(f: V -> W, s: Node<V>)
    ensures Mapped(f, Drain(s)) == Drain(Mapped(f, s))
  {
    MappedSize(f, s.buffer);
    var a, b := Mapped(f, Drain(s)), Drain(Mapped(f, s));
    assert a.last == b.last;
    assert a.log == b.log;
    assert a.buffer == b.buffer;
  }

  lemma DeliverToMapped<V, W>(f: V -> W, max: nat, s: Node<V>, e: Entry<V>)
    ensures Mapped(f, Deliver(max, s, e)) == Deliver(max, Mapped(f, s), Entry(e.height, f(e.value)))
  {
    MappedSize(f, s.buffer);
    if e.height > s.last + 1 {
      assert MappedBuffer(f, s.buffer[e.height := e.value]) == MappedBuffer(f, s.buffer)[e.height := f(e.value)];
    } else if e.height == s.last + 1 {
      DrainOfMapped(f, Commit(s, e));
      assert Mapped(f, Commit(s, e)) == Commit(Mapped(f, s), Entry(e.height, f(e.value)));
    }
  }

  lemma MappedInit<V, W>(f: V -> W, es: seq<Entry<V>>)
    requires es != []
    ensures MappedEntries(f, es)[..|es| - 1] == MappedEntries(f, es[..|es| - 1])
  {
  }

  /** Catch-up never looks at values: running it and viewing the result is running it on the viewed values. */
  lemma {:induction false} RunOfMapped<V, W>(f: V -> W, max: nat, start: nat, es: seq<Entry<V>>)
    ensures Mapped(f, DeliverAll(max, Fresh(start), es)) == DeliverAll(max, Fresh(start), MappedEntries(f, es))
    ensures NoneTurnedAway(max, start, es) <==> NoneTurnedAway(max, start, MappedEntries(f, es))
  {
    if es == [] {
      assert MappedBuffer(f, map[]) == map[];
    } else {
      var init, e := es[..|es| - 1], es[|es| - 1];
      RunOfMapped(f, max, start, init);
      MappedInit(f, es);
      var s := DeliverAll(max, Fresh(start), init);
      DeliverToMapped(f, max, s, e);
      MappedSize(f, s.buffer);
    }
  }

  /** f shows the same of any two values delivered for one height. */
  ghost predicate FixedPerHeight<V, W>(f: V -> W, es: seq<Entry<V>>)
  {
    forall d, e :: d in es && e in es && d.height == e.height ==> f(d.value) == f(e.value)
  }

  lemma ChainExists<V, W>(f: V -> W, es: seq<Entry<V>>) returns (chain: map<nat, W>)
    requires FixedPerHeight(f, es)
    ensures OnChain(MappedEntries(f, es), chain)
  {
    chain := map[];
    for n := 0 to |es|
      invariant forall i :: 0 <= i < n ==> es[i].height in chain
      invariant forall h :: h in chain ==> exists i :: 0 <= i < n && es[i].height == h && chain[h] == f(es[i].value)
    {
      chain := chain[es[n].height := f(es[n].value)];
    }
    forall e | e in MappedEntries(f, es) ensures e.height in chain && chain[e.height] == e.value {
      var i :| 0 <= i < |es| && e == Entry(es[i].height, f(es[i].value));
      var k :| 0 <= k < |es| && es[k].height == e.height && chain[e.height] == f(es[k].value);
      assert es[i] in es && es[k] in es;
    }
  }

  /**
    Confluence up to a view: two delivery orders of the same heights, over values that may differ
    but look the same per height, end in nodes that look the same.
  */
  lemma CatchUpIsConfluentUpTo<V, W>(f: V -> W, max1: nat, max2: nat, start: nat, es: seq<Entry<V>>, fs: seq<Entry<V>>)
    requires Heights(es) == Heights(fs) && FixedPerHeight(f, es + fs)
    requires NoneTurnedAway(max1, start, es) && NoneTurnedAway(max2, start, fs)
    ensures Mapped(f, DeliverAll(max1, Fresh(start), es)) == Mapped(f, DeliverAll(max2, Fresh(start), fs))
  {
    var chain := ChainExists(f, es + fs);
    RunOfMapped(f, max1, start, es);
    RunOfMapped(f, max2, start, fs);
    PartsOnChain(f, es, fs, chain);
    SameHeights(f, es);
    SameHeights(f, fs);
    CatchUpIsConfluent(max1, max2, start, MappedEntries(f, es), MappedEntries(f, fs), chain);
  }

  /** Prefix order up to a view, dropped values or not. */
  lemma LogsArePrefixesUpTo<V, W>(f: V -> W, max1: nat, max2: nat, start: nat, es: seq<Entry<V>>, fs: seq<Entry<V>>)
    requires FixedPerHeight(f, es + fs)
    ensures
      var a := MappedEntries(f, DeliverAll(max1, Fresh(start), es).log);
      var b := MappedEntries(f, DeliverAll(max2, Fresh(start), fs).log);
      a <= b || b <= a
  {
    var chain := ChainExists(f, es + fs);
    RunOfMapped(f, max1, start, es);
    RunOfMapped(f, max2, start, fs);
    PartsOnChain(f, es, fs, chain);
    LogsArePrefixes(max1, max2, start, MappedEntries(f, es), MappedEntries(f, fs), chain);
  }

  lemma PartsOnChain<V, W>(f: V -> W, es: seq<Entry<V>>, fs: seq<Entry<V>>, chain: map<nat, W>)
    requires OnChain(MappedEntries(f, es + fs), chain)
    ensures OnChain(MappedEntries(f, es), chain) && OnChain(MappedEntries(f, fs), chain)
  {
    assert MappedEntries(f, es + fs) == MappedEntries(f, es) + MappedEntries(f, fs);
  }

  lemma SameHeights<V, W>(f: V -> W, es: seq<Entry<V>>)
    ensures Heights(MappedEntries(f, es)) == Heights(es)
  {
    var ms := MappedEntries(f, es);
    forall h | h in Heights(es) ensures h in Heights(ms) {
      var i :| 0 <= i < |es| && es[i].height == h;
      assert ms[i] in ms;
    }
    forall h | h in Heights(ms) ensures h in Heights(es) {
      var i :| 0 <= i < |ms| && ms[i].height == h;
      assert es[i] in es;
    }
  }
}

/**
  Hub event ids (src/storage/store/account/event.rs). An id packs a block number above 14 bits of
  sequence, and events are stored under the big-endian bytes of their ids.
*/
module EventIds {
  import opened Basics
  import opened ByteStrings
  import opened LocalState

  const SEQUENCE_LIMIT := 0x4000             // 2^14
  const HEIGHT_LIMIT := 0x4_0000_0000_0000   // 2^50
  const U64_LIMIT := 0x1_0000_0000_0000_0000

  function MakeEventId(height: U64, sequence: U64): U64
  {
    height * SEQUENCE_LIMIT % U64_LIMIT + sequence % SEQUENCE_LIMIT
  }

  function ExtractHeightAndSeq(id: U64): (U64, U64)
  {
    (id / SEQUENCE_LIMIT, id % SEQUENCE_LIMIT)
  }

  /** Packing loses nothing exactly when both parts fit their bits. */
  lemma EventIdRoundTripsIff(height: U64, sequence: U64)
    ensures ExtractHeightAndSeq(MakeEventId(height, sequence)) == (height, sequence)
       <==> height < HEIGHT_LIMIT && sequence < SEQUENCE_LIMIT
  {
    ShiftedHeight(height);
  }

  lemma ShiftedHeight(height: U64)
    ensures height * SEQUENCE_LIMIT % U64_LIMIT == height % HEIGHT_LIMIT * SEQUENCE_LIMIT
  {
    var q, r := height / HEIGHT_LIMIT, height % HEIGHT_LIMIT;
    assert height * SEQUENCE_LIMIT == q * U64_LIMIT + r * SEQUENCE_LIMIT;
  }

  /** Ids are ordered by height first, then by sequence. */
  lemma IdsFollowBlocks(height: U64, sequence: U64, height': U64, sequence': U64)
    requires height < HEIGHT_LIMIT && sequence < SEQUENCE_LIMIT
    requires height' < HEIGHT_LIMIT && sequence' < SEQUENCE_LIMIT
    ensures MakeEventId(height, sequence) < MakeEventId(height', sequence')
       <==> height < height' || (height == height' && sequence < sequence')
  {
    ShiftedHeight(height);
    ShiftedHeight(height');
  }

  // ----- The generator -----

  datatype Generator = Generator(height: U64, sequence: U64)

  /** One id, or none when the height or the sequence is used up. */
  function Generated(g: Generator, confirmed: bool): (Generator, Option<U64>)
  {
    if g.height >= HEIGHT_LIMIT || g.sequence >= SEQUENCE_LIMIT then (g, None)
    else if confirmed then (g, Some(MakeEventId(g.height, 0)))
    else
      var sequence := if g.sequence == 0 then 1 else g.sequence;
      (g.(sequence := sequence + 1), Some(MakeEventId(g.height, sequence)))
  }

  class HubEventIdGenerator {
    var currentHeight: U64
    var currentSeq: U64

    ghost function State(): Generator
      reads this
    {
      Generator(currentHeight, currentSeq)
    }

    constructor (currentBlock: Option<U64>, lastSeq: Option<U64>)
      ensures State() == Generator(if currentBlock.Some? then currentBlock.value else 0,
                                   if lastSeq.Some? then lastSeq.value else 0)
    {
      currentHeight := if currentBlock.Some? then currentBlock.value else 0;
      currentSeq := if lastSeq.Some? then lastSeq.value else 0;
    }

    method SetCurrentHeight(height: U64)
      modifies this
      ensures State() == Generator(height, 0)
    {
      currentHeight := height;
      currentSeq := 0;
    }

    method GenerateId(confirmed: bool) returns (id: Option<U64>)
      modifies this
      ensures (State(), id) == Generated(old(State()), confirmed)
    {
      if currentHeight >= HEIGHT_LIMIT || currentSeq >= SEQUENCE_LIMIT {
        return None;
      }
      var sequence := 0;
      if !confirmed {
        if currentSeq == 0 {
          currentSeq := 1;
        }
        sequence := currentSeq;
        currentSeq := currentSeq + 1;
      }
      id := Some(MakeEventId(currentHeight, sequence));
    }

    /** The events of one pass over a proposal, from wherever the sequence stands. */
    method NumberEvents(events: nat) returns (ids: seq<Option<U64>>)
      modifies this
      ensures |ids| == events && State() == AfterEvents(old(State()), events)
      ensures forall i :: 0 <= i < events ==> ids[i] == NumberOf(old(currentHeight), FirstOf(old(State())) + i)
    {
      ids := [];
      for n := 0 to events
        invariant |ids| == n && State() == AfterEvents(old(State()), n)
        invariant forall i :: 0 <= i < n ==> ids[i] == NumberOf(old(currentHeight), FirstOf(old(State())) + i)
      {
        var id := GenerateId(false);
        ids := ids + [id];
      }
    }

    /**
      A round up to the commit: the height is set, every pass over a proposal (building it, or each
      time it is validated) numbers its events, and the block is confirmed. Only the ids of the last
      pass are kept.
    */
    method NumberRound(height: U64, passes: seq<nat>) returns (ids: seq<seq<Option<U64>>>, confirmation: Option<U64>)
      modifies this
      ensures |ids| == |passes| && forall k :: 0 <= k < |passes| ==> NumberedAfter(ids[k], height, passes, k)
      ensures confirmation == if Sum(passes) + 1 < SEQUENCE_LIMIT then NumberOf(height, 0) else None
    {
      SetCurrentHeight(height);
      ids := [];
      for k := 0 to |passes|
        invariant |ids| == k && State() == AfterEvents(Generator(height, 0), Sum(passes[..k]))
        invariant forall j :: 0 <= j < k ==> NumberedAfter(ids[j], height, passes, j)
      {
        var numbered := NumberEvents(passes[k]);
        ids := ids + [numbered];
        assert passes[..k + 1][..k] == passes[..k];
      }
      assert passes[..|passes|] == passes;
      confirmation := GenerateId(true);
    }
  }

  function Sum(ns: seq<nat>): nat
  {
    if ns == [] then 0 else Sum(ns[..|ns| - 1]) + ns[|ns| - 1]
  }

  /** The events of pass k are numbered on from those of the passes before. */
  ghost predicate NumberedAfter(ids: seq<Option<U64>>, height: U64, passes: seq<nat>, k: nat)
    requires k < |passes|
  {
    |ids| == passes[k] && forall i :: 0 <= i < |ids| ==> ids[i] == NumberOf(height, Sum(passes[..k]) + i + 1)
  }

  /** The number given to the event at a position of a block. */
  ghost function NumberOf(height: U64, position: nat): Option<U64>
  {
    if height < HEIGHT_LIMIT && position < SEQUENCE_LIMIT then Some(MakeEventId(height, position)) else None
  }

  /** The sequence of the next event. */
  function FirstOf(g: Generator): nat
  {
    if g.sequence == 0 then 1 else g.sequence
  }

  ghost function AfterEvents(g: Generator, n: nat): Generator
  {
    if g.height >= HEIGHT_LIMIT || g.sequence >= SEQUENCE_LIMIT || n == 0 then g
    else g.(sequence := if FirstOf(g) + n < SEQUENCE_LIMIT then FirstOf(g) + n else SEQUENCE_LIMIT)
  }

  /** A confirmation takes sequence 0 and no number away: the next event is numbered as if it had not been. */
  lemma ConfirmationTakesNoNumber(g: Generator)
    requires g.height < HEIGHT_LIMIT && g.sequence < SEQUENCE_LIMIT
    ensures var (after, id) := Generated(g, true);
      id == Some(g.height * 16384) && Generated(after, false) == Generated(g, false)
  {
    ShiftedHeight(g.height);
  }

  /** An event keeps its number over the passes of a round exactly when none was given before, or it gets none anyway. */
  lemma NumberIsKeptIff(height: U64, before: nat, i: nat)
    ensures NumberOf(height, before + i + 1) == NumberOf(height, i + 1)
       <==> before == 0 || height >= HEIGHT_LIMIT || i + 1 >= SEQUENCE_LIMIT
  {
    if height < HEIGHT_LIMIT && before + i + 1 < SEQUENCE_LIMIT {
      EventIdRoundTripsIff(height, before + i + 1);
      EventIdRoundTripsIff(height, i + 1);
    }
  }

  /** The one event of a proposal at height 1 has id 16385 if it is numbered once in the round, and 16386 if twice. */
  lemma ValidatedTwiceIsRenumbered(once: seq<Option<U64>>, twice: seq<Option<U64>>)
    requires NumberedAfter(once, 1, [1], 0) && NumberedAfter(twice, 1, [1, 1], 1)
    ensures once == [Some(16385)] && twice == [Some(16386)]
  {
    assert [1][..0] == [] && [1, 1][..1] == [1];
    assert once[0] == NumberOf(1, 1) && twice[0] == NumberOf(1, 2);
  }

  /** Two numbered positions of any two blocks get the same id only if they are the same position. */
  lemma NumbersAreDistinct(height: U64, position: nat, height': U64, position': nat)
    requires NumberOf(height, position).Some? && NumberOf(height', position').Some?
    requires NumberOf(height, position) == NumberOf(height', position')
    ensures height == height' && position == position'
  {
    EventIdRoundTripsIff(height, position);
    EventIdRoundTripsIff(height', position');
  }

  // ----- Keys -----

  const HUB_EVENTS_PREFIX: Byte := 9

  function EventKey(id: U64): (k: Bytes)
    ensures |k| == 9
  {
    [HUB_EVENTS_PREFIX] + BigEndian(id, 8)
  }

  /** Keys are ordered as ids are. */
  lemma KeysFollowIds(a: U64, b: U64)
    ensures Less(EventKey(a), EventKey(b)) <==> a < b
  {
    var p: Bytes := [HUB_EVENTS_PREFIX];
    Widths();
    BigEndianSpells(a, 8);
    BigEndianSpells(b, 8);
    LessIsNumeric(BigEndian(a, 8), BigEndian(b, 8));
    LessUnderCommonPrefix(p, BigEndian(a, 8), BigEndian(b, 8));
  }

  /** A key's successor cuts between its id and the next. */
  lemma SuccessorCutsAfter(cut: U64, id: U64)
    ensures Less(EventKey(id), Successor(EventKey(cut))) <==> id <= cut
  {
    var k := EventKey(cut);
    assert k[0] == HUB_EVENTS_PREFIX;
    SuccessorAddsOne(k);
    LessIsNumeric(EventKey(id), Successor(k));
    LessIsNumeric(k, EventKey(id));
    KeysFollowIds(cut, id);
  }

  predicate InBounds(lower: Bytes, upper: Bytes, key: Bytes)
  {
    !Less(key, lower) && Less(key, upper)
  }

  /** Pruning deletes an event. */
  ghost predicate Pruned(stopHeight: U64, id: U64)
  {
    InBounds(EventKey(0), EventKey(MakeEventId(stopHeight, 0)), EventKey(id))
  }

  lemma PruningSelects(stopHeight: U64, id: U64)
    ensures Pruned(stopHeight, id) <==> ExtractHeightAndSeq(id).0 < stopHeight % HEIGHT_LIMIT
  {
    KeysFollowIds(id, 0);
    KeysFollowIds(id, MakeEventId(stopHeight, 0));
    ShiftedHeight(stopHeight);
  }

  /** Pruning deletes exactly the events below the stop height, whenever that height fits an id and only then. */
  lemma PruningIsExactIff(stopHeight: U64)
    ensures (forall id: U64 :: Pruned(stopHeight, id) <==> ExtractHeightAndSeq(id).0 < stopHeight)
       <==> stopHeight < HEIGHT_LIMIT
  {
    if stopHeight < HEIGHT_LIMIT {
      forall id: U64 ensures Pruned(stopHeight, id) <==> ExtractHeightAndSeq(id).0 < stopHeight {
        PruningSelects(stopHeight, id);
      }
    } else {
      var id: U64 := U64_LIMIT - 1;
      PruningSelects(stopHeight, id);
      assert ExtractHeightAndSeq(id).0 == HEIGHT_LIMIT - 1;
      assert !Pruned(stopHeight, id);
    }
  }
}

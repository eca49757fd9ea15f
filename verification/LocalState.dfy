/**
  The node-local store of proposals (src/storage/store/node_local_state.rs): proposals are kept
  under byte keys and all proposals of a height are deleted by one range of keys. The class is
  proved against a plain map from slots to proposals.
*/
module LocalState {
  import opened Basics
  import opened ByteStrings

  type U32 = n: int | 0 <= n < 0x1_0000_0000
  type U64 = n: int | 0 <= n < 0x1_0000_0000_0000_0000
  type I64 = n: int | -0x8000_0000_0000_0000 <= n < 0x8000_0000_0000_0000

  /** Where a proposal is kept: one slot per shard, height and round. */
  datatype Slot = Slot(shard: U32, height: U64, round: I64)

  const BLOCK_PREFIX: Byte := 1
  const NODE_LOCAL_STATE_PREFIX: Byte := 17

  // ----- Keys -----

  function Pow256(width: nat): (p: nat)
    ensures p >= 1
  {
    if width == 0 then 1 else 256 * Pow256(width - 1)
  }

  function BigEndian(n: nat, width: nat): (s: Bytes)
    ensures |s| == width
  {
    if width == 0 then [] else BigEndian(n / 256, width - 1) + [n % 256]
  }

  lemma {:induction false} BigEndianSpells(n: nat, width: nat)
    requires n < Pow256(width)
    ensures Value(BigEndian(n, width)) == n
  {
    if width > 0 {
      BigEndianSpells(n / 256, width - 1);
      ValueOfAppended(BigEndian(n / 256, width - 1), n % 256);
    }
  }

  /** The two's complement bit pattern of a round. */
  function RoundBits(round: I64): U64
  {
    if round < 0 then round + 0x1_0000_0000_0000_0000 else round
  }

  function HeightPrefix(shard: U32, height: U64): (s: Bytes)
    ensures |s| == 13
  {
    [BLOCK_PREFIX] + BigEndian(shard, 4) + BigEndian(height, 8)
  }

  function ProposalKey(slot: Slot): (s: Bytes)
    ensures |s| == 21
  {
    HeightPrefix(slot.shard, slot.height) + BigEndian(RoundBits(slot.round), 8)
  }

  lemma EncodingsAreDistinct(a: nat, b: nat, width: nat)
    requires a < Pow256(width) && b < Pow256(width)
    requires BigEndian(a, width) == BigEndian(b, width)
    ensures a == b
  {
    BigEndianSpells(a, width);
    BigEndianSpells(b, width);
  }

  lemma Widths()
    ensures Pow256(4) == 0x1_0000_0000 && Pow256(8) == 0x1_0000_0000_0000_0000
  {
    assert Pow256(2) == 65536;
    assert Pow256(4) == 0x1_0000_0000;
    assert Pow256(6) == 0x1_0000_0000_0000;
  }

  /** A key starts with the prefix of a height exactly when it belongs to that shard and height. */
  lemma PrefixSelectsHeight(shard: U32, height: U64, slot: Slot)
    ensures HeightPrefix(shard, height) <= ProposalKey(slot) <==> slot.shard == shard && slot.height == height
  {
    Widths();
    var p, q := HeightPrefix(shard, height), HeightPrefix(slot.shard, slot.height);
    assert ProposalKey(slot)[..13] == q;
    if p == q {
      assert p[1..5] == BigEndian(shard, 4) && q[1..5] == BigEndian(slot.shard, 4);
      assert p[5..] == BigEndian(height, 8) && q[5..] == BigEndian(slot.height, 8);
      EncodingsAreDistinct(shard, slot.shard, 4);
      EncodingsAreDistinct(height, slot.height, 8);
    }
  }

  lemma KeysAreDistinct(a: Slot, b: Slot)
    requires ProposalKey(a) == ProposalKey(b)
    ensures a == b
  {
    Widths();
    assert ProposalKey(a)[..13] == HeightPrefix(a.shard, a.height);
    PrefixSelectsHeight(a.shard, a.height, b);
    assert ProposalKey(a)[13..] == BigEndian(RoundBits(a.round), 8);
    assert ProposalKey(b)[13..] == BigEndian(RoundBits(b.round), 8);
    EncodingsAreDistinct(RoundBits(a.round), RoundBits(b.round), 8);
  }

  /** The other keys of this store: progress markers under the node-local prefix. */
  ghost predicate IsMarker(k: Bytes)
  {
    |k| == 2 && k[0] == NODE_LOCAL_STATE_PREFIX
  }

  /** Exactly the proposals of the height lie in the deleted range; no marker does. */
  lemma RangeSelectsHeight(shard: U32, height: U64)
    ensures forall slot: Slot ::
      InRangeOf(HeightPrefix(shard, height), ProposalKey(slot)) <==> slot.shard == shard && slot.height == height
    ensures forall k: Bytes :: IsMarker(k) ==> !InRangeOf(HeightPrefix(shard, height), k)
  {
    var v := HeightPrefix(shard, height);
    assert v[0] == BLOCK_PREFIX;
    forall slot: Slot
      ensures InRangeOf(v, ProposalKey(slot)) <==> slot.shard == shard && slot.height == height
    {
      RangeIsPrefix(v, ProposalKey(slot));
      PrefixSelectsHeight(shard, height, slot);
    }
    forall k: Bytes | IsMarker(k) ensures !InRangeOf(v, k) {
      SuccessorHead(v);
    }
  }

  lemma {:induction false} SuccessorHead(v: Bytes)
    requires v != [] && v[0] < 255
    ensures Successor(v) != [] && v[0] <= Successor(v)[0] <= v[0] + 1
  {
    if |v| > 1 && v[|v| - 1] == 255 {
      SuccessorHead(v[..|v| - 1]);
    }
  }

  // ----- The store -----

  ghost function WithoutHeight<P>(proposals: map<Slot, P>, shard: U32, height: U64): map<Slot, P>
  {
    map slot | slot in proposals && !(slot.shard == shard && slot.height == height) :: proposals[slot]
  }

  class LocalStateStore<P> {
    var db: map<Bytes, P>
    ghost var proposals: map<Slot, P>

    ghost predicate Valid()
      reads this
    {
      && (forall slot :: slot in proposals <==> ProposalKey(slot) in db)
      && (forall slot :: slot in proposals ==> proposals[slot] == db[ProposalKey(slot)])
      && (forall k :: k in db ==> IsMarker(k) || exists slot :: slot in proposals && ProposalKey(slot) == k)
    }

    constructor ()
      ensures Valid() && proposals == map[] && db == map[]
    {
      db := map[];
      proposals := map[];
    }

    method PutProposal(slot: Slot, proposal: P)
      requires Valid()
      modifies this
      ensures Valid()
      ensures proposals == old(proposals)[slot := proposal]
      ensures forall k :: IsMarker(k) ==> (k in db <==> k in old(db)) && (k in db ==> db[k] == old(db)[k])
    {
      forall other: Slot | ProposalKey(other) == ProposalKey(slot) ensures other == slot {
        KeysAreDistinct(other, slot);
      }
      db := db[ProposalKey(slot) := proposal];
      proposals := proposals[slot := proposal];
    }

    method GetProposal(slot: Slot) returns (proposal: Option<P>)
      requires Valid()
      ensures proposal == if slot in proposals then Some(proposals[slot]) else None
    {
      proposal := if ProposalKey(slot) in db then Some(db[ProposalKey(slot)]) else None;
    }

    /** Delete every key from start on and before stop. */
    method DeleteRange(start: Bytes, stop: Bytes)
      modifies this`db
      ensures forall k :: k in db <==> k in old(db) && !(!Less(k, start) && Less(k, stop))
      ensures forall k :: k in db ==> db[k] == old(db)[k]
    {
      var found := set k | k in db && !Less(k, start) && Less(k, stop);
      var pending := found;
      while pending != {}
        invariant pending <= found && db == old(db) - (found - pending)
        decreases pending
      {
        var k :| k in pending;
        db := db - {k};
        pending := pending - {k};
      }
    }

    method DeleteProposals(shard: U32, height: U64)
      requires Valid()
      modifies this
      ensures Valid()
      ensures proposals == WithoutHeight(old(proposals), shard, height)
      ensures forall k :: IsMarker(k) ==> (k in db <==> k in old(db)) && (k in db ==> db[k] == old(db)[k])
    {
      var startPrefix := HeightPrefix(shard, height);
      var stopPrefix := IncrementVec(startPrefix);
      DeleteRange(startPrefix, stopPrefix);
      RangeSelectsHeight(shard, height);
      proposals := WithoutHeight(proposals, shard, height);
      assert forall k :: k in db <==> k in old(db) && !InRangeOf(startPrefix, k);
    }
  }
}

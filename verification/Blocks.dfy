/**
  Blocks over shard witnesses: how a proposer collects the witnesses and builds a block, how other
  validators judge it (BlockProposer in src/consensus/proposer.rs), and the version check of the
  read node.
*/
module Blocks {
  import opened Basics
  import opened ByteStrings
  import opened Versions

  datatype ShardChunk = ShardChunk(height: nat, timestamp: nat, hash: Bytes, shardRoot: Bytes)

  datatype Witness = Witness(height: nat, shardHash: Bytes, shardRoot: Bytes)

  datatype BlockHeader = BlockHeader(
    parentHash: Bytes, chainId: int, version: nat, timestamp: nat, height: nat, witnessesHash: Bytes)

  datatype Block = Block(header: BlockHeader, hash: Bytes, witnesses: Option<seq<Witness>>)

  /** The digests of a witness list and of a header. */
  datatype Digests = Digests(witnesses: seq<Witness> -> Bytes, header: BlockHeader -> Bytes)

  ghost predicate DigestsHaveBytes(d: Digests)
  {
    forall ws :: d.witnesses(ws) != []
  }

  // ----- Collecting shard witnesses -----

  /** One poll: the order in which the stores are visited, and what each store answers. */
  datatype Poll = Poll(order: seq<nat>, answer: nat -> Option<ShardChunk>)

  /** The witness speaks of this chunk. */
  ghost predicate Names(w: Witness, chunk: ShardChunk)
  {
    w.height == chunk.height && w.shardHash == chunk.hash && w.shardRoot == chunk.shardRoot
  }

  ghost predicate Answered(polls: seq<Poll>, s: nat)
  {
    exists p :: 0 <= p < |polls| && polls[p].answer(s).Some?
  }

  /** The poll in which a store first answered. */
  ghost predicate IsFirst(polls: seq<Poll>, s: nat, p: nat)
  {
    p < |polls| && polls[p].answer(s).Some? && forall q :: 0 <= q < p ==> polls[q].answer(s).None?
  }

  lemma {:induction false} FirstExists(polls: seq<Poll>, s: nat)
    requires Answered(polls, s)
    ensures exists p: nat :: IsFirst(polls, s, p)
  {
    var init := polls[..|polls| - 1];
    if Answered(init, s) {
      FirstExists(init, s);
      var p: nat :| IsFirst(init, s, p);
      assert IsFirst(polls, s, p);
    } else {
      assert forall q :: 0 <= q < |init| ==> init[q] == polls[q];
      assert IsFirst(polls, s, |polls| - 1);
    }
  }

  ghost function FirstAnswer(polls: seq<Poll>, s: nat): ShardChunk
    requires Answered(polls, s)
  {
    FirstExists(polls, s);
    var p: nat :| IsFirst(polls, s, p);
    polls[p].answer(s).value
  }

  lemma FirstAnswerIs(polls: seq<Poll>, s: nat, p: nat)
    requires IsFirst(polls, s, p)
    ensures Answered(polls, s) && FirstAnswer(polls, s) == polls[p].answer(s).value
  {
    FirstExists(polls, s);
    var p': nat :| IsFirst(polls, s, p') && FirstAnswer(polls, s) == polls[p'].answer(s).value;
    assert !(p < p') && !(p' < p);
  }

  /** Later polls do not change a first answer. */
  lemma FirstAnswerIsKept(polls: seq<Poll>, s: nat, n: nat)
    requires n <= |polls| && Answered(polls[..n], s)
    ensures Answered(polls, s) && FirstAnswer(polls, s) == FirstAnswer(polls[..n], s)
  {
    FirstExists(polls[..n], s);
    var p: nat :| IsFirst(polls[..n], s, p);
    FirstAnswerIs(polls[..n], s, p);
    assert IsFirst(polls, s, p) by {
      assert forall q :: 0 <= q <= p ==> polls[..n][q] == polls[q];
    }
    FirstAnswerIs(polls, s, p);
  }

  /** A store that had not answered before first answers in this poll. */
  lemma FirstAnswerIsNew(polls: seq<Poll>, s: nat, n: nat)
    requires n < |polls| && !Answered(polls[..n], s) && polls[n].answer(s).Some?
    ensures Answered(polls[..n + 1], s) && FirstAnswer(polls[..n + 1], s) == polls[n].answer(s).value
  {
    assert forall q :: 0 <= q < n ==> polls[..n][q] == polls[..n + 1][q];
    FirstAnswerIs(polls[..n + 1], s, n);
  }

  /** The first answer of every store that has answered, whatever the visiting order. */
  ghost predicate HoldsAnswers(chunks: map<nat, Witness>, stores: set<nat>, polls: seq<Poll>)
  {
    && (forall s :: s in chunks <==> s in stores && Answered(polls, s))
    && (forall s :: s in chunks ==> Names(chunks[s], FirstAnswer(polls, s)))
  }

  ghost predicate VisitsEvery(polls: seq<Poll>, stores: set<nat>)
  {
    forall p :: 0 <= p < |polls| ==> forall s :: s in polls[p].order <==> s in stores
  }

  /** One poll: every store that has not answered yet is asked. */
  method PollStores(before: map<nat, Witness>, poll: Poll) returns (chunks: map<nat, Witness>)
    ensures forall s :: s in chunks <==> s in before || (s in poll.order && poll.answer(s).Some?)
    ensures forall s :: s in chunks && s in before ==> chunks[s] == before[s]
    ensures forall s :: s in chunks && s !in before ==> Names(chunks[s], poll.answer(s).value)
  {
    chunks := before;
    for k := 0 to |poll.order|
      invariant forall s :: s in chunks <==> s in before || (s in poll.order[..k] && poll.answer(s).Some?)
      invariant forall s :: s in chunks && s in before ==> chunks[s] == before[s]
      invariant forall s :: s in chunks && s !in before ==> Names(chunks[s], poll.answer(s).value)
    {
      var shard := poll.order[k];
      if shard in chunks {
        continue;
      }
      if poll.answer(shard).Some? {
        var chunk := poll.answer(shard).value;
        chunks := chunks[shard := Witness(chunk.height, chunk.hash, chunk.shardRoot)];
      }
    }
    assert poll.order[..|poll.order|] == poll.order;
  }

  lemma AnsweredOneMore(polls: seq<Poll>, s: nat, n: nat)
    requires n < |polls|
    ensures Answered(polls[..n + 1], s) <==> Answered(polls[..n], s) || polls[n].answer(s).Some?
  {
    var less, more := polls[..n], polls[..n + 1];
    assert more[n] == polls[n] && forall q :: 0 <= q < n ==> more[q] == less[q];
  }

  /** A poll carries the first answers one poll further. */
  lemma PollGoesOn(before: map<nat, Witness>, chunks: map<nat, Witness>, stores: set<nat>, polls: seq<Poll>, n: nat)
    requires n < |polls| && HoldsAnswers(before, stores, polls[..n])
    requires forall s :: s in chunks <==> s in before || (s in stores && polls[n].answer(s).Some?)
    requires forall s :: s in chunks && s in before ==> chunks[s] == before[s]
    requires forall s :: s in chunks && s !in before ==> Names(chunks[s], polls[n].answer(s).value)
    ensures HoldsAnswers(chunks, stores, polls[..n + 1])
  {
    var more := polls[..n + 1];
    assert more[..n] == polls[..n];
    forall s ensures s in chunks <==> s in stores && Answered(more, s)
             ensures s in chunks ==> Names(chunks[s], FirstAnswer(more, s))
    {
      AnsweredOneMore(polls, s, n);
      if s in before {
        FirstAnswerIsKept(more, s, n);
      } else if s in chunks {
        FirstAnswerIsNew(polls, s, n);
      }
    }
  }

  method PollUntilFull(ghost stores: set<nat>, numShards: nat, polls: seq<Poll>)
      returns (chunks: map<nat, Witness>, n: nat)
    requires VisitsEvery(polls, stores)
    ensures n <= |polls| && HoldsAnswers(chunks, stores, polls[..n])
    ensures |chunks| != numShards ==> n == |polls|
  {
    chunks := map[];
    n := 0;
    for k := 0 to |polls|
      invariant n == k && HoldsAnswers(chunks, stores, polls[..k])
    {
      ghost var before := chunks;
      chunks := PollStores(chunks, polls[k]);
      PollGoesOn(before, chunks, stores, polls, k);
      n := k + 1;
      if |chunks| == numShards {
        return;
      }
    }
  }

  method InShardOrder(chunks: map<nat, Witness>) returns (ws: seq<Witness>)
    ensures |ws| == |chunks| && forall i :: 0 <= i < |ws| ==>
      Ascending(chunks.Keys)[i] in chunks && ws[i] == chunks[Ascending(chunks.Keys)[i]]
  {
    var ks := Iterate(chunks.Keys);
    assert forall i :: 0 <= i < |ks| ==> ks[i] in chunks.Keys;
    ws := seq(|ks|, i requires 0 <= i < |ks| => chunks[ks[i]]);
  }

  /**
    Poll every store until all have answered or the polls run out. With one store per shard the
    result is the full list of first answers in shard order when every store answered, and otherwise empty.
  */
  method CollectConfirmedShardWitnesses(stores: set<nat>, numShards: nat, polls: seq<Poll>) returns (ws: seq<Witness>)
    requires VisitsEvery(polls, stores)
    ensures ws == [] || |ws| == numShards
    ensures |stores| < numShards ==> ws == []
    ensures |stores| == numShards ==> Collected(stores, polls, ws)
  {
    var chunks, n := PollUntilFull(stores, numShards, polls);
    assert chunks.Keys <= stores;
    SubsetIsSmaller(chunks.Keys, stores);
    if |chunks| == numShards {
      ws := InShardOrder(chunks);
      if |stores| == numShards {
        FullSubset(chunks.Keys, stores);
        FullIsCollected(chunks, stores, polls, n, ws);
      }
    } else {
      ws := [];
      assert polls[..n] == polls;
      if |stores| == numShards {
        PartIsNothing(chunks, stores, polls);
      }
    }
  }

  /**
    When every store answered: one witness per store in shard order, with the height, hash and shard
    root of the chunk the store first answered. Nothing otherwise.
  */
  ghost predicate Collected(stores: set<nat>, polls: seq<Poll>, ws: seq<Witness>)
  {
    if forall s :: s in stores ==> Answered(polls, s) then
      var ks := Ascending(stores);
      |ws| == |ks| && forall i :: 0 <= i < |ws| ==> Answered(polls, ks[i]) && Names(ws[i], FirstAnswer(polls, ks[i]))
    else
      ws == []
  }

  lemma FullIsCollected(chunks: map<nat, Witness>, stores: set<nat>, polls: seq<Poll>, n: nat, ws: seq<Witness>)
    requires n <= |polls| && HoldsAnswers(chunks, stores, polls[..n]) && chunks.Keys == stores
    requires |ws| == |Ascending(stores)|
    requires forall i :: 0 <= i < |ws| ==> Ascending(stores)[i] in chunks && ws[i] == chunks[Ascending(stores)[i]]
    ensures Collected(stores, polls, ws)
  {
    forall s | s in stores ensures Answered(polls, s) && Names(chunks[s], FirstAnswer(polls, s)) {
      assert s in chunks;
      FirstAnswerIsKept(polls, s, n);
    }
  }

  lemma PartIsNothing(chunks: map<nat, Witness>, stores: set<nat>, polls: seq<Poll>)
    requires HoldsAnswers(chunks, stores, polls) && |chunks| != |stores|
    ensures Collected(stores, polls, [])
  {
    assert (forall s :: s in stores ==> Answered(polls, s)) ==> chunks.Keys == stores;
  }

  lemma FullSubset(a: set<nat>, b: set<nat>)
    requires a <= b && |a| == |b|
    ensures a == b
  {
    if a < b { SmallerSubset(a, b); }
  }

  /** One store, one poll: the witness of ShardChunk(1, 0, [1], [2]) has hash [1] and shard root [2]. */
  lemma OneWitness(ws: seq<Witness>, poll: Poll)
    requires poll.answer(1) == Some(ShardChunk(1, 0, [1], [2])) && Collected({1}, [poll], ws)
    ensures ws == [Witness(1, [1], [2])]
  {
    assert [poll][0].answer(1).Some?;
    FirstAnswerIs([poll], 1, 0);
    AscendingIs([1], {1});
  }

  /** Stores may answer late or never, but an answer for a shard is always the same chunk. */
  ghost predicate AnswersFrom(polls: seq<Poll>, chunkOf: map<nat, ShardChunk>)
  {
    forall p, s :: 0 <= p < |polls| && polls[p].answer(s).Some? ==>
      s in chunkOf && polls[p].answer(s).value == chunkOf[s]
  }

  /**
    Collection does not depend on polling or arrival order: two runs that both hear from every store,
    in whatever order and after however many polls, collect the same list: the i-th witness is of the
    chunk of the i-th shard.
  */
  lemma CollectionIsOrderFree(stores: set<nat>, chunkOf: map<nat, ShardChunk>,
                              polls: seq<Poll>, ws: seq<Witness>, polls': seq<Poll>, ws': seq<Witness>)
    requires AnswersFrom(polls, chunkOf) && AnswersFrom(polls', chunkOf)
    requires Collected(stores, polls, ws) && Collected(stores, polls', ws')
    requires forall s :: s in stores ==> Answered(polls, s) && Answered(polls', s)
    ensures ws == ws' && |ws| == |stores|
    ensures forall i :: 0 <= i < |ws| ==> Ascending(stores)[i] in chunkOf && Names(ws[i], chunkOf[Ascending(stores)[i]])
  {
    var ks := Ascending(stores);
    forall i | 0 <= i < |ks| ensures ws[i] == ws'[i] && ks[i] in chunkOf && Names(ws[i], chunkOf[ks[i]]) {
      assert ks[i] in ks;
      FirstAnswerIsFixed(polls, ks[i], chunkOf);
      FirstAnswerIsFixed(polls', ks[i], chunkOf);
    }
  }

  lemma FirstAnswerIsFixed(polls: seq<Poll>, s: nat, chunkOf: map<nat, ShardChunk>)
    requires AnswersFrom(polls, chunkOf) && Answered(polls, s)
    ensures s in chunkOf && FirstAnswer(polls, s) == chunkOf[s]
  {
    FirstExists(polls, s);
    var p: nat :| IsFirst(polls, s, p);
    FirstAnswerIs(polls, s, p);
  }

  // ----- Proposing and judging blocks -----

  const GENESIS_HEIGHT: nat := 1

  /** The block a proposer builds on the witnesses it collected. */
  function ProposeBlock(
      network: Network, height: nat, witnesses: seq<Witness>, time: nat, lastBlock: Option<Bytes>, genesis: Bytes,
      d: Digests): Block
  {
    var parent :=
      if height == GENESIS_HEIGHT then genesis
      else if lastBlock.Some? then lastBlock.value
      else seq(32, i => 0);
    var header := BlockHeader(
      parent, ChainId(network), ProtocolVersion(VersionFor(time, network)), time, height, d.witnesses(witnesses));
    Block(header, d.header(header), Some(witnesses))
  }

  /** What a validator on the network says about a proposed block. */
  function JudgeBlock(block: Block, network: Network, numShards: nat, confirmed: nat, d: Digests): Validity
  {
    if block.header.height != confirmed + 1 then Invalid
    else if block.header.chainId != ChainId(network) then Invalid
    else if block.header.version != ProtocolVersion(VersionFor(block.header.timestamp, network)) then Invalid
    else if block.header.witnessesHash == [] then Invalid
    else if block.witnesses.None? then Invalid
    else if |block.witnesses.value| != numShards then Invalid
    else if d.witnesses(block.witnesses.value) != block.header.witnessesHash then Invalid
    else Valid
  }

  /** The version in the header is the one scheduled at its time on the network it names itself. */
  ghost predicate HasScheduledVersion(header: BlockHeader)
  {
    exists n: Network ::
      ChainId(n) == header.chainId && header.version == ProtocolVersion(VersionFor(header.timestamp, n))
  }

  /** The read node's check. It trusts the header's own chain id; the source panics on an unknown one. */
  method ValidateProtocolVersion(block: Block) returns (ok: bool)
    ensures ok <==> HasScheduledVersion(block.header)
  {
    var network := NetworkOf(block.header.chainId);
    if network.None? {
      return false;
    }
    ok := block.header.version == ProtocolVersion(VersionFor(block.header.timestamp, network.value));
  }

  /**
    An honest proposer's block, built on whatever it collected in its polls, is valid for another
    validator exactly when they share network and next height and every shard was collected.
  */
  lemma HonestBlockIsValidIff(
      proposerNetwork: Network, height: nat, stores: set<nat>, ws: seq<Witness>, polls: seq<Poll>, time: nat,
      lastBlock: Option<Bytes>, genesis: Bytes, validatorNetwork: Network, numShards: nat, confirmed: nat, d: Digests)
    requires DigestsHaveBytes(d)
    requires |stores| == numShards > 0 && Collected(stores, polls, ws)
    ensures
      JudgeBlock(ProposeBlock(proposerNetwork, height, ws, time, lastBlock, genesis, d),
        validatorNetwork, numShards, confirmed, d) == Valid
      <==> proposerNetwork == validatorNetwork && height == confirmed + 1
           && forall s :: s in stores ==> Answered(polls, s)
  {
    assert ChainId(proposerNetwork) == ChainId(validatorNetwork) <==> proposerNetwork == validatorNetwork by {
      var r := NetworkOf(ChainId(proposerNetwork));
    }
  }

  /** Whatever block a validator accepts, honest or not, the read node's version check lets through. */
  lemma AcceptedBlockPassesReadNode(block: Block, network: Network, numShards: nat, confirmed: nat, d: Digests)
    requires JudgeBlock(block, network, numShards, confirmed, d) == Valid
    ensures HasScheduledVersion(block.header)
  {
    assert ChainId(network) == block.header.chainId;
  }

  /** The parent a proposer names: the genesis message at height 1, else the last block, else zeros. */
  lemma ProposedParentIs(
      network: Network, height: nat, ws: seq<Witness>, time: nat, lastBlock: Option<Bytes>, genesis: Bytes, d: Digests)
    ensures var b := ProposeBlock(network, height, ws, time, lastBlock, genesis, d);
      && (height == 1 ==> b.header.parentHash == genesis)
      && (height != 1 && lastBlock.Some? ==> b.header.parentHash == lastBlock.value)
      && (height != 1 && lastBlock.None? ==> |b.header.parentHash| == 32 && AllZero(b.header.parentHash))
      && b.header.timestamp == time && b.witnesses == Some(ws) && b.hash == d.header(b.header)
  {
  }

  /**
    What a valid block commits to: with its height, chain id, version, witness digest or witness list
    altered it is refused, a list of equal digest and length aside; the parent and the hash are not looked at.
  */
  lemma AlteredBlockIsRefused(b: Block, network: Network, numShards: nat, confirmed: nat, d: Digests,
                              height: nat, chainId: int, version: nat, digest: Bytes, ws: Option<seq<Witness>>,
                              parent: Bytes, hash: Bytes)
    requires JudgeBlock(b, network, numShards, confirmed, d) == Valid
    ensures b.header.height == confirmed + 1 && NetworkOf(b.header.chainId) == Some(network)
    ensures height != b.header.height ==>
      JudgeBlock(b.(header := b.header.(height := height)), network, numShards, confirmed, d) == Invalid
    ensures chainId != b.header.chainId ==>
      JudgeBlock(b.(header := b.header.(chainId := chainId)), network, numShards, confirmed, d) == Invalid
    ensures version != b.header.version ==>
      JudgeBlock(b.(header := b.header.(version := version)), network, numShards, confirmed, d) == Invalid
    ensures digest != b.header.witnessesHash ==>
      JudgeBlock(b.(header := b.header.(witnessesHash := digest)), network, numShards, confirmed, d) == Invalid
    ensures JudgeBlock(b.(witnesses := ws), network, numShards, confirmed, d) == Valid
       <==> ws.Some? && |ws.value| == numShards && d.witnesses(ws.value) == b.header.witnessesHash
    ensures
      JudgeBlock(b.(header := b.header.(parentHash := parent), hash := hash), network, numShards, confirmed, d) == Valid
  {
  }

  /** A valid block moved to another time stays valid exactly when the network runs the same protocol version then. */
  lemma MovedBlockIsValidIff(b: Block, network: Network, numShards: nat, confirmed: nat, d: Digests, time: nat)
    requires JudgeBlock(b, network, numShards, confirmed, d) == Valid
    ensures JudgeBlock(b.(header := b.header.(timestamp := time)), network, numShards, confirmed, d) == Valid
       <==> ProtocolVersion(VersionFor(time, network)) == ProtocolVersion(VersionFor(b.header.timestamp, network))
  {
  }
}

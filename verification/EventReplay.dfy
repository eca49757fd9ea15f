/**
  The replay of stored events to a subscriber (src/network/server.rs, over the pages of
  src/storage/store/account/event.rs). Every event is stamped with the time of its block's chunk;
  the last chunk looked up is kept across events and pages. Events and chunks may be added while a
  replay runs.
*/
module EventReplay {
  import opened Basics
  import opened ByteStrings
  import opened LocalState
  import opened EventIds

  /** A merged message matters here by its type; compact link states list the messages they replace. */
  datatype Body<M> =
    | MergeMessage(message: Option<M>, isCompactState: bool, deletedMessages: seq<M>)
    | OtherBody

  datatype HubEvent<M> = HubEvent(
    id: U64, kind: int, blockNumber: U64, shardIndex: U32, timestamp: U64, body: Option<Body<M>>)

  datatype Chunk = Chunk(height: U64, timestamp: U64)

  /** The chunks of a shard by block number, each under the number in its header. */
  type Chunks = m: map<U64, Chunk> | forall h :: h in m ==> m[h].height == h

  function RewriteHubEvent<M>(event: HubEvent<M>, shard: U32, timestamp: Option<U64>): HubEvent<M>
  {
    var stamped := event.(
      blockNumber := ExtractHeightAndSeq(event.id).0,
      shardIndex := shard,
      timestamp := if timestamp.Some? then timestamp.value else event.timestamp);
    if event.body.Some? && event.body.value.MergeMessage?
       && event.body.value.message.Some? && event.body.value.isCompactState
    then stamped.(body := Some(event.body.value.(deletedMessages := [])))
    else stamped
  }

  function Lookup(chunks: Chunks, height: U64): Option<Chunk>
  {
    if height in chunks then Some(chunks[height]) else None
  }

  function TimestampOf(chunk: Option<Chunk>): Option<U64>
  {
    if chunk.Some? then Some(chunk.value.timestamp) else None
  }

  /** An event served on its own: its chunk is looked up afresh. */
  function GetEvent<M>(event: HubEvent<M>, shard: U32, chunks: Chunks): HubEvent<M>
  {
    RewriteHubEvent(event, shard, TimestampOf(Lookup(chunks, ExtractHeightAndSeq(event.id).0)))
  }

  /**
    What is served of a stored event: the block number its id lies in, the shard, the time of that
    block's chunk or its own time if there is none, and the body, without the deleted messages of a
    merged compact state.
  */
  ghost predicate Serves<M>(sent: HubEvent<M>, event: HubEvent<M>, shard: U32, chunks: Chunks)
  {
    && sent.id == event.id && sent.kind == event.kind
    && sent.blockNumber * 16384 <= event.id < sent.blockNumber * 16384 + 16384
    && sent.shardIndex == shard
    && sent.timestamp == (if sent.blockNumber in chunks then chunks[sent.blockNumber].timestamp else event.timestamp)
    && match event.body {
         case Some(MergeMessage(Some(m), true, _)) => sent.body == Some(MergeMessage(Some(m), true, []))
         case _ => sent.body == event.body
       }
  }

  lemma GetEventServes<M>(event: HubEvent<M>, shard: U32, chunks: Chunks)
    ensures Serves(GetEvent(event, shard, chunks), event, shard, chunks)
  {
  }

  /** Event 81923, the third of block 5, is sent with block number 5. */
  lemma BlockOfEvent<M>(event: HubEvent<M>, shard: U32, chunks: Chunks)
    requires event.id == 81923
    ensures GetEvent(event, shard, chunks).blockNumber == 5
  {
    GetEventServes(event, shard, chunks);
  }

  // ----- The chunk kept -----

  ghost predicate Within(a: Chunks, b: Chunks)
  {
    forall h :: h in a ==> h in b && b[h] == a[h]
  }

  /** chunks[i] is what the store holds when the i-th event is stamped: chunks are added, not changed. */
  ghost predicate Growing(chunks: seq<Chunks>)
  {
    forall i, j :: 0 <= i <= j < |chunks| ==> Within(chunks[i], chunks[j])
  }

  ghost predicate Holds(chunks: Chunks, last: Option<Chunk>)
  {
    last.Some? ==> Lookup(chunks, last.value.height) == last
  }

  /** A page with a kept chunk is stamped as if every event were served on its own. */
  method StampPage<M>(events: seq<HubEvent<M>>, shard: U32, chunks: seq<Chunks>, lastChunk: Option<Chunk>)
      returns (stamped: seq<HubEvent<M>>, newLast: Option<Chunk>)
    requires |events| == |chunks| && Growing(chunks)
    requires chunks != [] ==> Holds(chunks[0], lastChunk)
    ensures |stamped| == |events|
    ensures forall i :: 0 <= i < |events| ==> stamped[i] == GetEvent(events[i], shard, chunks[i])
    ensures forall i :: 0 <= i < |events| ==> Serves(stamped[i], events[i], shard, chunks[i])
    ensures if chunks == [] then newLast == lastChunk else Holds(chunks[|chunks| - 1], newLast)
  {
    stamped, newLast := [], lastChunk;
    for n := 0 to |events|
      invariant |stamped| == n
      invariant forall i :: 0 <= i < n ==> stamped[i] == GetEvent(events[i], shard, chunks[i])
      invariant if n == 0 then newLast == lastChunk else Holds(chunks[n - 1], newLast)
    {
      var height := ExtractHeightAndSeq(events[n].id).0;
      assert Holds(chunks[n], newLast) by {
        assert n > 0 ==> Within(chunks[n - 1], chunks[n]);
      }
      if newLast.None? || newLast.value.height != height {
        newLast := Lookup(chunks[n], height);
      }
      stamped := stamped + [RewriteHubEvent(events[n], shard, TimestampOf(newLast))];
    }
    forall i | 0 <= i < |events| ensures Serves(stamped[i], events[i], shard, chunks[i]) {
      GetEventServes(events[i], shard, chunks[i]);
    }
  }

  // ----- Pages -----

  /** The stored events, each under its own id. */
  type Stored<M> = m: map<U64, HubEvent<M>> | forall id :: id in m ==> m[id].id == id

  function Ids<M>(db: Stored<M>, lower: Bytes, upper: Bytes): set<nat>
  {
    set id | id in db && InBounds(lower, upper, EventKey(id))
  }

  function Lower(startId: U64, token: Option<Bytes>): Bytes
  {
    if token.Some? then Successor(token.value) else EventKey(startId)
  }

  function Upper(stopId: Option<U64>): Bytes
  {
    if stopId.Some? then EventKey(stopId.value) else Successor(EventKey(U64_LIMIT - 1))
  }

  /** page is the start of the listed events. */
  ghost predicate Opens<M>(page: seq<HubEvent<M>>, db: Stored<M>, ids: seq<nat>)
  {
    |page| <= |ids| && forall i :: 0 <= i < |page| ==> ids[i] in db && page[i] == db[ids[i]]
  }

  /** A page: the first stored events in range, and where to go on when the page is full. */
  method GetEvents<M>(db: Stored<M>, startId: U64, stopId: Option<U64>, token: Option<Bytes>, pageSize: nat)
      returns (page: seq<HubEvent<M>>, next: Option<Bytes>)
    ensures Opens(page, db, Ascending(Ids(db, Lower(startId, token), Upper(stopId))))
    ensures next.None? ==> |page| == |Ids(db, Lower(startId, token), Upper(stopId))|
    ensures next.Some? ==> page != [] && next.value == EventKey(page[|page| - 1].id)
    ensures next.Some? <==> page != [] && |page| >= pageSize
    ensures |page| <= if pageSize == 0 then 1 else pageSize
  {
    var lower, upper := EventKey(startId), [];
    if token.Some? {
      lower := IncrementVec(token.value);
    }
    if stopId.Some? {
      upper := EventKey(stopId.value);
    } else {
      upper := IncrementVec(EventKey(U64_LIMIT - 1));
    }
    var keys := Ids(db, lower, upper);
    var ids := Iterate(keys);
    assert forall i :: 0 <= i < |ids| ==> ids[i] in keys;
    page, next := TakePage(db, ids, pageSize);
  }

  method TakePage<M>(db: Stored<M>, ids: seq<nat>, pageSize: nat) returns (page: seq<HubEvent<M>>, next: Option<Bytes>)
    requires forall i :: 0 <= i < |ids| ==> ids[i] in db
    ensures Opens(page, db, ids)
    ensures next.None? ==> |page| == |ids|
    ensures next.Some? ==> page != [] && next.value == EventKey(page[|page| - 1].id)
    ensures next.Some? <==> page != [] && |page| >= pageSize
    ensures |page| <= if pageSize == 0 then 1 else pageSize
  {
    page, next := [], None;
    for n := 0 to |ids|
      invariant |page| == n && Opens(page, db, ids)
      invariant n > 0 ==> n < pageSize
    {
      page := page + [db[ids[n]]];
      if |page| >= pageSize {
        next := Some(EventKey(ids[n]));
        return;
      }
    }
  }

  /** The bounds of a page select by id: from the start, or after the last event of the page before. */
  lemma BoundsSelect(startId: U64, stopId: Option<U64>, after: Option<U64>, id: U64)
    ensures InBounds(Lower(startId, if after.Some? then Some(EventKey(after.value)) else None), Upper(stopId), EventKey(id))
       <==> (if after.Some? then id > after.value else id >= startId) && (stopId.Some? ==> id < stopId.value)
  {
    KeysFollowIds(id, startId);
    if after.Some? { SuccessorCutsAfter(after.value, id); }
    if stopId.Some? { KeysFollowIds(id, stopId.value); }
    SuccessorCutsAfter(U64_LIMIT - 1, id);
  }

  // ----- The replay -----

  ghost function FromId<M>(db: Stored<M>, startId: U64): set<nat>
  {
    set id | id in db && id >= startId
  }

  /** The stored ids a replay covers, in order. */
  ghost function StoredFrom<M>(db: Stored<M>, startId: U64): (all: seq<nat>)
    ensures Lists(all, FromId(db, startId)) && forall i :: 0 <= i < |all| ==> all[i] in db
  {
    var all := Ascending(FromId(db, startId));
    assert forall i :: 0 <= i < |all| ==> all[i] in FromId(db, startId);
    all
  }

  lemma FirstPageStartsAtStart<M>(db: Stored<M>, startId: U64)
    ensures Ids(db, Lower(startId, None), Upper(None)) == FromId(db, startId)
  {
    forall id: U64 | id in db
      ensures InBounds(Lower(startId, None), Upper(None), EventKey(id)) <==> id >= startId
    {
      BoundsSelect(startId, None, None, id);
    }
  }

  /** The page after the n-th event holds the events after it. */
  lemma NextPageGoesOn<M>(db: Stored<M>, startId: U64, all: seq<nat>, n: nat, ids: seq<nat>)
    requires Lists(all, FromId(db, startId)) && 0 < n <= |all| && all[n - 1] in db
    requires Lists(ids, Ids(db, Lower(startId, Some(EventKey(all[n - 1]))), Upper(None)))
    ensures ids == all[n..]
  {
    var above := Ids(db, Lower(startId, Some(EventKey(all[n - 1]))), Upper(None));
    forall id: U64 | id in db ensures id in above <==> id > all[n - 1] {
      BoundsSelect(startId, None, Some(all[n - 1]), id);
    }
    assert all[n - 1] in all;
    ListsRest(all, FromId(db, startId), n, ids, above);
  }

  /** What a subscriber is sent of the first events: those of the wanted kinds, each as served on its own. */
  ghost function Delivered<M>(db: Stored<M>, ids: seq<nat>, kinds: set<int>, shard: U32, chunks: seq<Chunks>)
    : seq<HubEvent<M>>
    requires |ids| <= |chunks| && forall i :: 0 <= i < |ids| ==> ids[i] in db
  {
    if ids == [] then []
    else
      var n := |ids| - 1;
      Delivered(db, ids[..n], kinds, shard, chunks)
      + if db[ids[n]].kind in kinds then [GetEvent(db[ids[n]], shard, chunks[n])] else []
  }

  ghost predicate Sends<M>(sent: seq<HubEvent<M>>, id: nat)
  {
    exists i :: 0 <= i < |sent| && sent[i].id == id
  }

  lemma SendsOneMore<M>(sent: seq<HubEvent<M>>, event: HubEvent<M>, id: nat)
    ensures Sends(sent + [event], id) <==> Sends(sent, id) || event.id == id
  {
    var more := sent + [event];
    assert more[|sent|] == event && forall i :: 0 <= i < |sent| ==> more[i] == sent[i];
  }

  /** An event is delivered exactly when it is stored and of a wanted kind. */
  lemma {:induction false} DeliversExactly<M>(
      db: Stored<M>, ids: seq<nat>, kinds: set<int>, shard: U32, chunks: seq<Chunks>, id: nat)
    requires |ids| <= |chunks| && forall i :: 0 <= i < |ids| ==> ids[i] in db
    ensures Sends(Delivered(db, ids, kinds, shard, chunks), id) <==> id in ids && db[id].kind in kinds
  {
    if ids != [] {
      var n := |ids| - 1;
      DeliversExactly(db, ids[..n], kinds, shard, chunks, id);
      var before := Delivered(db, ids[..n], kinds, shard, chunks);
      SendsOneMore(before, GetEvent(db[ids[n]], shard, chunks[n]), id);
      assert before + [] == before;
      assert id in ids <==> id in ids[..n] || id == ids[n];
    }
  }

  /** Events are delivered in the order of their ids, so none twice. */
  lemma {:induction false} DeliversInOrder<M>(
      db: Stored<M>, ids: seq<nat>, kinds: set<int>, shard: U32, chunks: seq<Chunks>)
    requires |ids| <= |chunks| && Increasing(ids) && forall i :: 0 <= i < |ids| ==> ids[i] in db
    ensures var sent := Delivered(db, ids, kinds, shard, chunks);
      forall i, j :: 0 <= i < j < |sent| ==> sent[i].id < sent[j].id
  {
    if ids != [] {
      var n := |ids| - 1;
      DeliversInOrder(db, ids[..n], kinds, shard, chunks);
      var before := Delivered(db, ids[..n], kinds, shard, chunks);
      forall i | 0 <= i < |before| ensures before[i].id < ids[n] {
        DeliversExactly(db, ids[..n], kinds, shard, chunks, before[i].id);
        assert Sends(before, before[i].id);
      }
    }
  }

  /** Every event sent is a stored one, served against the chunks stored when it was stamped. */
  lemma {:induction false} SentServesStored<M>(
      db: Stored<M>, ids: seq<nat>, kinds: set<int>, shard: U32, chunks: seq<Chunks>, i: nat) returns (j: nat)
    requires |ids| <= |chunks| && forall i :: 0 <= i < |ids| ==> ids[i] in db
    requires i < |Delivered(db, ids, kinds, shard, chunks)|
    ensures j < |ids| && Serves(Delivered(db, ids, kinds, shard, chunks)[i], db[ids[j]], shard, chunks[j])
  {
    var n := |ids| - 1;
    if i < |Delivered(db, ids[..n], kinds, shard, chunks)| {
      j := SentServesStored(db, ids[..n], kinds, shard, chunks, i);
    } else {
      j := n;
      GetEventServes(db[ids[n]], shard, chunks[n]);
    }
  }

  /** These are the listed events from a place on, each as served on its own. */
  ghost predicate PageIs<M>(
      stamped: seq<HubEvent<M>>, db: Stored<M>, ids: seq<nat>, done: nat, shard: U32, chunks: seq<Chunks>)
    requires done + |stamped| <= |ids| <= |chunks| && forall i :: 0 <= i < |ids| ==> ids[i] in db
  {
    forall i, j :: 0 <= i < |stamped| && j == done + i ==> stamped[i] == GetEvent(db[ids[j]], shard, chunks[j])
  }

  /** Filtering a stamped page continues what was delivered. */
  method SendPage<M>(stamped: seq<HubEvent<M>>, kinds: set<int>, before: seq<HubEvent<M>>,
                     ghost db: Stored<M>, ghost all: seq<nat>, ghost done: nat, ghost shard: U32, ghost chunks: seq<Chunks>)
      returns (sent: seq<HubEvent<M>>)
    requires done + |stamped| <= |all| <= |chunks| && forall i :: 0 <= i < |all| ==> all[i] in db
    requires before == Delivered(db, all[..done], kinds, shard, chunks)
    requires PageIs(stamped, db, all, done, shard, chunks)
    ensures sent == Delivered(db, all[..done + |stamped|], kinds, shard, chunks)
  {
    sent := before;
    for n := 0 to |stamped|
      invariant sent == Delivered(db, all[..done + n], kinds, shard, chunks)
    {
      ghost var j := done + n;
      assert all[..j + 1][..j] == all[..j];
      assert stamped[n] == GetEvent(db[all[j]], shard, chunks[j]);
      if stamped[n].kind in kinds {
        sent := sent + [stamped[n]];
      }
    }
  }

  /** Where a replay stands: the next page holds what is left, and the chunk kept is still stored. */
  ghost predicate Standing<M>(db: Stored<M>, startId: U64, all: seq<nat>, chunks: seq<Chunks>,
                              done: nat, token: Option<Bytes>, lastChunk: Option<Chunk>)
    requires |all| <= |chunks|
  {
    if done == 0 then token == None && lastChunk == None
    else
      && done <= |all| && all[done - 1] in db
      && token == Some(EventKey(all[done - 1]))
      && Holds(chunks[done - 1], lastChunk)
  }

  lemma PageIsWhatIsLeft<M>(db: Stored<M>, startId: U64, all: seq<nat>, chunks: seq<Chunks>,
                            done: nat, token: Option<Bytes>, lastChunk: Option<Chunk>, ids: seq<nat>)
    requires |all| <= |chunks| && done <= |all| && Lists(all, FromId(db, startId))
    requires Standing(db, startId, all, chunks, done, token, lastChunk)
    requires Lists(ids, Ids(db, Lower(startId, token), Upper(None)))
    ensures ids == all[done..]
  {
    if done == 0 {
      FirstPageStartsAtStart(db, startId);
      IncreasingIsCanonical(ids, all);
    } else {
      NextPageGoesOn(db, startId, all, done, ids);
    }
  }

  /** Stamp the page that starts at an offset of the replay. */
  method StampNext<M>(page: seq<HubEvent<M>>, shard: U32, chunks: seq<Chunks>, lastChunk: Option<Chunk>, done: nat)
      returns (stamped: seq<HubEvent<M>>, newLast: Option<Chunk>)
    requires done + |page| <= |chunks| && Growing(chunks)
    requires if done == 0 then lastChunk == None else Holds(chunks[done - 1], lastChunk)
    ensures |stamped| == |page|
    ensures forall i, j :: 0 <= i < |page| && j == done + i ==> stamped[i] == GetEvent(page[i], shard, chunks[j])
    ensures if page == [] then newLast == lastChunk else Holds(chunks[done + |page| - 1], newLast)
  {
    var now := chunks[done..done + |page|];
    assert now != [] && done > 0 ==> Within(chunks[done - 1], now[0]);
    stamped, newLast := StampPage(page, shard, now, lastChunk);
    assert forall i, j :: 0 <= i < |page| && j == done + i ==> now[i] == chunks[j];
  }

  /** One stamped page of a replay, the kept chunk handed from page to page. */
  method GetEventsFromStore<M>(db: Stored<M>, startId: U64, token: Option<Bytes>, pageSize: nat, shard: U32,
                               chunks: seq<Chunks>, lastChunk: Option<Chunk>, done: nat, ghost all: seq<nat>)
      returns (stamped: seq<HubEvent<M>>, next: Option<Bytes>, newLast: Option<Chunk>)
    requires Lists(all, FromId(db, startId)) && |all| <= |chunks| && Growing(chunks) && done <= |all|
    requires forall i :: 0 <= i < |all| ==> all[i] in db
    requires Standing(db, startId, all, chunks, done, token, lastChunk)
    ensures done + |stamped| <= |all| && PageIs(stamped, db, all, done, shard, chunks)
    ensures next.None? ==> done + |stamped| == |all|
    ensures next.Some? ==> stamped != [] && Standing(db, startId, all, chunks, done + |stamped|, next, newLast)
  {
    var page, token' := GetEvents(db, startId, None, token, pageSize);
    ghost var ids := Ascending(Ids(db, Lower(startId, token), Upper(None)));
    PageIsWhatIsLeft(db, startId, all, chunks, done, token, lastChunk, ids);
    next := token';
    stamped, newLast := StampNext(page, shard, chunks, lastChunk, done);
    assert forall i, j :: 0 <= i < |page| && j == done + i ==> page[i] == db[all[j]];
  }

  // ----- A store that grows -----

  /** Events are only added, and with larger ids, as later blocks give them. */
  ghost predicate Appends<M>(a: Stored<M>, b: Stored<M>)
  {
    && (forall id :: id in a ==> id in b && b[id] == a[id])
    && (forall id, id' :: id in a && id' in b && id' !in a ==> id < id')
  }

  /** What is covered of a store comes first in what is covered of a later one. */
  lemma StoredIsPrefix<M>(a: Stored<M>, b: Stored<M>, startId: U64)
    requires Appends(a, b)
    ensures StoredFrom(a, startId) <= StoredFrom(b, startId)
  {
    ListsPrefix(StoredFrom(a, startId), FromId(a, startId), StoredFrom(b, startId), FromId(b, startId));
  }

  /** Stores that agree on the events deliver the same. */
  lemma {:induction false} DeliversAlike<M>(
      a: Stored<M>, b: Stored<M>, ids: seq<nat>, kinds: set<int>, shard: U32, chunks: seq<Chunks>)
    requires |ids| <= |chunks| && forall i :: 0 <= i < |ids| ==> ids[i] in a && ids[i] in b && a[ids[i]] == b[ids[i]]
    ensures Delivered(a, ids, kinds, shard, chunks) == Delivered(b, ids, kinds, shard, chunks)
  {
    if ids != [] {
      DeliversAlike(a, b, ids[..|ids| - 1], kinds, shard, chunks);
    }
  }

  lemma StandingNow<M>(db: Stored<M>, final: Stored<M>, startId: U64, chunks: seq<Chunks>,
                       done: nat, token: Option<Bytes>, lastChunk: Option<Chunk>)
    requires Appends(db, final) && |FromId(final, startId)| <= |chunks| && done <= |StoredFrom(db, startId)|
    ensures |StoredFrom(db, startId)| <= |StoredFrom(final, startId)|
    ensures Standing(db, startId, StoredFrom(db, startId), chunks, done, token, lastChunk)
       <==> Standing(final, startId, StoredFrom(final, startId), chunks, done, token, lastChunk)
  {
    StoredIsPrefix(db, final, startId);
  }

  lemma PageIsNow<M>(db: Stored<M>, final: Stored<M>, startId: U64, chunks: seq<Chunks>,
                     stamped: seq<HubEvent<M>>, done: nat, shard: U32)
    requires Appends(db, final) && |FromId(final, startId)| <= |chunks|
    requires done + |stamped| <= |StoredFrom(db, startId)| <= |StoredFrom(final, startId)|
    requires PageIs(stamped, db, StoredFrom(db, startId), done, shard, chunks)
    ensures PageIs(stamped, final, StoredFrom(final, startId), done, shard, chunks)
  {
    StoredIsPrefix(db, final, startId);
    var now, all := StoredFrom(db, startId), StoredFrom(final, startId);
    forall i, j | 0 <= i < |stamped| && j == done + i ensures stamped[i] == GetEvent(final[all[j]], shard, chunks[j]) {
      assert now[j] == all[j];
    }
  }

  /** A page read from the store as it is now, seen from the store as it will be. */
  method ReadPage<M>(db: Stored<M>, startId: U64, token: Option<Bytes>, pageSize: nat, shard: U32, chunks: seq<Chunks>,
                     lastChunk: Option<Chunk>, done: nat, ghost final: Stored<M>)
      returns (page: seq<HubEvent<M>>, next: Option<Bytes>, newLast: Option<Chunk>)
    requires Appends(db, final) && |FromId(final, startId)| <= |chunks| && Growing(chunks)
    requires done <= |StoredFrom(db, startId)|
    requires Standing(final, startId, StoredFrom(final, startId), chunks, done, token, lastChunk)
    ensures done + |page| <= |StoredFrom(db, startId)| <= |StoredFrom(final, startId)|
    ensures PageIs(page, final, StoredFrom(final, startId), done, shard, chunks)
    ensures next.None? ==> done + |page| == |StoredFrom(db, startId)|
    ensures next.Some? ==>
      page != [] && Standing(final, startId, StoredFrom(final, startId), chunks, done + |page|, next, newLast)
  {
    ghost var now := StoredFrom(db, startId);
    StandingNow(db, final, startId, chunks, done, token, lastChunk);
    page, next, newLast := GetEventsFromStore(db, startId, token, pageSize, shard, chunks, lastChunk, done, now);
    PageIsNow(db, final, startId, chunks, page, done, shard);
    StandingNow(db, final, startId, chunks, done + |page|, next, newLast);
  }

  /** Read a page and send what is wanted of it. */
  method ReplayPage<M>(db: Stored<M>, startId: U64, token: Option<Bytes>, pageSize: nat, kinds: set<int>, shard: U32,
                       chunks: seq<Chunks>, lastChunk: Option<Chunk>, done: nat, before: seq<HubEvent<M>>,
                       ghost final: Stored<M>, ghost all: seq<nat>)
      returns (sent: seq<HubEvent<M>>, next: Option<Bytes>, newLast: Option<Chunk>, newDone: nat)
    requires Appends(db, final) && all == StoredFrom(final, startId) && |all| <= |chunks| && Growing(chunks)
    requires done <= |StoredFrom(db, startId)| && done <= |all|
    requires Standing(final, startId, all, chunks, done, token, lastChunk)
    requires before == Delivered(final, all[..done], kinds, shard, chunks)
    ensures done <= newDone <= |StoredFrom(db, startId)| <= |all|
    ensures sent == Delivered(final, all[..newDone], kinds, shard, chunks)
    ensures next.None? ==> newDone == |StoredFrom(db, startId)|
    ensures next.Some? ==> newDone > done && Standing(final, startId, all, chunks, newDone, next, newLast)
  {
    var page;
    page, next, newLast := ReadPage(db, startId, token, pageSize, shard, chunks, lastChunk, done, final);
    newDone := done + |page|;
    sent := SendPage(page, kinds, before, final, all, done, shard, chunks);
  }

  /**
    The replay of one store, page by page, from a start id, while it grows: page k reads dbs(k), and
    nothing ever stored goes beyond `final`. What is sent is what the store read last, dbs(last), holds.
  */
  method Replay<M>(dbs: nat -> Stored<M>, startId: U64, pageSize: nat, kinds: set<int>, shard: U32, chunks: seq<Chunks>,
                   ghost final: Stored<M>)
      returns (sent: seq<HubEvent<M>>, last: nat)
    requires forall k: nat :: Appends(dbs(k), final) && Appends(dbs(k), dbs(k + 1))
    requires |FromId(final, startId)| <= |chunks| && Growing(chunks)
    ensures |StoredFrom(dbs(last), startId)| <= |chunks|
    ensures sent == Delivered(dbs(last), StoredFrom(dbs(last), startId), kinds, shard, chunks)
  {
    ghost var all := StoredFrom(final, startId);
    sent := [];
    var token: Option<Bytes>, lastChunk: Option<Chunk>, done, k := None, None, 0, 0;
    while true
      invariant done <= |all| && done <= |StoredFrom(dbs(k), startId)|
      invariant Standing(final, startId, all, chunks, done, token, lastChunk)
      invariant sent == Delivered(final, all[..done], kinds, shard, chunks)
      decreases |all| - done
    {
      sent, token, lastChunk, done :=
        ReplayPage(dbs(k), startId, token, pageSize, kinds, shard, chunks, lastChunk, done, sent, final, all);
      if token.None? {
        last := k;
        LastPageIsAll(dbs(k), final, startId, kinds, shard, chunks);
        return;
      }
      StoredIsPrefix(dbs(k), dbs(k + 1), startId);
      k := k + 1;
    }
  }

  lemma LastPageIsAll<M>(
      db: Stored<M>, final: Stored<M>, startId: U64, kinds: set<int>, shard: U32, chunks: seq<Chunks>)
    requires Appends(db, final) && |FromId(final, startId)| <= |chunks|
    ensures
      var now, all := StoredFrom(db, startId), StoredFrom(final, startId);
      && |now| <= |all|
      && Delivered(final, all[..|now|], kinds, shard, chunks) == Delivered(db, now, kinds, shard, chunks)
  {
    var now, all := StoredFrom(db, startId), StoredFrom(final, startId);
    StoredIsPrefix(db, final, startId);
    assert all[..|now|] == now;
    DeliversAlike(final, db, now, kinds, shard, chunks);
  }
}

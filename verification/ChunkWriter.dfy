/**
  The multi-part snapshot writer (src/storage/db/multi_chunk_writer.rs): buffers go to the current
  part until the next one would not fit. The compressing encoder takes whole buffers here, and files
  are their uncompressed contents.
*/
module ChunkWriter {
  import opened ByteStrings

  // ----- The class -----

  class MultiChunkWriter {
    const maxSize: nat
    var currentPart: nat
    var currentSize: nat
    var encoderOpen: bool
    var files: seq<Bytes>

    /** The abstract state: the writes each part is made of. */
    ghost var parts: seq<seq<Bytes>>

    ghost predicate Valid()
      reads this
    {
      && currentPart == |files| == |parts|
      && (forall i :: 0 <= i < |files| ==> files[i] == Joined(parts[i]))
      && (encoderOpen ==> parts != [] && currentSize == Size(parts[|parts| - 1]))
    }

    constructor (maxSize: nat)
      ensures Valid() && this.maxSize == maxSize && parts == [] && !encoderOpen
    {
      this.maxSize := maxSize;
      currentPart, currentSize, encoderOpen := 0, 0, false;
      files, parts := [], [];
    }

    method Finish()
      requires Valid()
      modifies this`encoderOpen
      ensures Valid() && !encoderOpen
    {
      encoderOpen := false;
    }

    method NextPart()
      requires Valid()
      modifies this
      ensures Valid() && parts == old(parts) + [[]] && encoderOpen && currentSize == 0
    {
      Finish();
      currentPart := currentPart + 1;
      files := files + [[]];
      parts := parts + [[]];
      encoderOpen := true;
      currentSize := 0;
    }

    method Write(buf: Bytes) returns (size: nat)
      requires Valid()
      modifies this
      ensures Valid() && size == |buf| && encoderOpen
      ensures old(encoderOpen) ==> parts == Appended(maxSize, old(parts), buf)
      ensures !old(encoderOpen) ==> parts == old(parts) + [[buf]]
    {
      if !encoderOpen || currentSize + |buf| > maxSize {
        NextPart();
        assert [] + [buf] == [buf];
      }
      var n := |files| - 1;
      files := files[n := files[n] + buf];
      JoinedWith(parts[n], buf);
      parts := parts[n := parts[n] + [buf]];
      currentSize := currentSize + |buf|;
      size := |buf|;
    }

    /** A whole snapshot: every buffer in turn, and finish at the end. The files in order hold what was written. */
    method WriteAll(bufs: seq<Bytes>)
      requires Valid() && parts == [] && !encoderOpen
      modifies this
      ensures Valid() && !encoderOpen && parts == Split(maxSize, bufs)
      ensures Joined(files) == Joined(bufs)
    {
      for n := 0 to |bufs|
        invariant Valid() && parts == Split(maxSize, bufs[..n]) && (encoderOpen <==> n > 0)
      {
        var size := Write(bufs[n]);
        assert bufs[..n + 1][..n] == bufs[..n];
      }
      assert bufs[..|bufs|] == bufs;
      Finish();
      PartsAreTheWrites(maxSize, bufs);
      JoinedParts(parts, files);
    }
  }

  // ----- Parts as lists of writes -----

  ghost function Joined(bufs: seq<Bytes>): Bytes
  {
    if bufs == [] then [] else Joined(bufs[..|bufs| - 1]) + bufs[|bufs| - 1]
  }

  ghost function Size(bufs: seq<Bytes>): nat
  {
    |Joined(bufs)|
  }

  lemma JoinedWith(bufs: seq<Bytes>, buf: Bytes)
    ensures Joined(bufs + [buf]) == Joined(bufs) + buf
  {
    assert (bufs + [buf])[..|bufs|] == bufs;
  }

  /** Put a buffer into the last part, or into a new one if it does not fit. */
  ghost function Appended(max: nat, parts: seq<seq<Bytes>>, buf: Bytes): seq<seq<Bytes>>
  {
    if parts == [] || Size(parts[|parts| - 1]) + |buf| > max then parts + [[buf]]
    else parts[|parts| - 1 := parts[|parts| - 1] + [buf]]
  }

  ghost function Split(max: nat, bufs: seq<Bytes>): seq<seq<Bytes>>
  {
    if bufs == [] then [] else Appended(max, Split(max, bufs[..|bufs| - 1]), bufs[|bufs| - 1])
  }

  ghost function Flat(parts: seq<seq<Bytes>>): seq<Bytes>
  {
    if parts == [] then [] else Flat(parts[..|parts| - 1]) + parts[|parts| - 1]
  }

  lemma FlatWith(parts: seq<seq<Bytes>>, part: seq<Bytes>)
    ensures Flat(parts + [part]) == Flat(parts) + part
  {
    assert (parts + [part])[..|parts|] == parts;
  }

  lemma {:induction false} JoinedSum(a: seq<Bytes>, b: seq<Bytes>)
    ensures Joined(a + b) == Joined(a) + Joined(b)
  {
    if b == [] {
      assert a + b == a;
    } else {
      var init, buf := b[..|b| - 1], b[|b| - 1];
      JoinedSum(a, init);
      assert Joined(a + b) == Joined(a + init) + buf by {
        assert a + b == (a + init) + [buf];
        JoinedWith(a + init, buf);
      }
      assert Joined(a) + Joined(init) + buf == Joined(a) + (Joined(init) + buf);
    }
  }

  /** Joining the parts one by one is joining all their writes. */
  lemma {:induction false} JoinedParts(parts: seq<seq<Bytes>>, files: seq<Bytes>)
    requires |files| == |parts|
    requires forall i :: 0 <= i < |files| ==> files[i] == Joined(parts[i])
    ensures Joined(files) == Joined(Flat(parts))
  {
    if parts != [] {
      var n := |parts| - 1;
      JoinedParts(parts[..n], files[..n]);
      JoinedSum(Flat(parts[..n]), parts[n]);
    }
  }

  /** Nothing is lost, repeated or reordered: the parts in order are the buffers in order. */
  lemma {:induction false} PartsAreTheWrites(max: nat, bufs: seq<Bytes>)
    ensures Flat(Split(max, bufs)) == bufs
  {
    if bufs != [] {
      var init, buf := bufs[..|bufs| - 1], bufs[|bufs| - 1];
      PartsAreTheWrites(max, init);
      AppendedFlat(max, Split(max, init), buf);
      assert bufs == init + [buf];
    }
  }

  lemma AppendedFlat(max: nat, parts: seq<seq<Bytes>>, buf: Bytes)
    ensures Flat(Appended(max, parts, buf)) == Flat(parts) + [buf]
  {
    if parts == [] || Size(parts[|parts| - 1]) + |buf| > max {
      FlatWith(parts, [buf]);
    } else {
      var last := |parts| - 1;
      assert Appended(max, parts, buf)[..last] == parts[..last];
      assert Flat(parts[..last]) + (parts[last] + [buf]) == Flat(parts) + [buf];
    }
  }

  // ----- Sizes -----

  /** A part is over the maximum only if it is a single oversized write. */
  ghost predicate Fits(max: nat, part: seq<Bytes>)
  {
    part != [] && (Size(part) > max ==> |part| == 1)
  }

  ghost predicate Crowded(max: nat, a: seq<Bytes>, b: seq<Bytes>)
  {
    Size(a) + Size(b) > max
  }

  /** Every part fits, and adjacent parts together exceed the maximum. */
  ghost predicate WellSized(max: nat, parts: seq<seq<Bytes>>)
  {
    && (forall i :: 0 <= i < |parts| ==> Fits(max, parts[i]))
    && (forall i, j :: 0 <= i && j == i + 1 && j < |parts| ==> Crowded(max, parts[i], parts[j]))
  }

  lemma {:induction false} PartsAreWellSized(max: nat, bufs: seq<Bytes>)
    ensures WellSized(max, Split(max, bufs))
  {
    if bufs != [] {
      PartsAreWellSized(max, bufs[..|bufs| - 1]);
      AppendedIsWellSized(max, Split(max, bufs[..|bufs| - 1]), bufs[|bufs| - 1]);
    }
  }

  lemma AppendedIsWellSized(max: nat, parts: seq<seq<Bytes>>, buf: Bytes)
    requires WellSized(max, parts)
    ensures WellSized(max, Appended(max, parts, buf))
  {
    var last := |parts| - 1;
    if parts == [] || Size(parts[last]) + |buf| > max {
      SizeOne(buf);
      OpenedIsWellSized(max, parts, [buf]);
    } else {
      SizeWith(parts[last], buf);
      GrownIsWellSized(max, parts, parts[last] + [buf]);
    }
  }

  lemma OpenedIsWellSized(max: nat, parts: seq<seq<Bytes>>, part: seq<Bytes>)
    requires WellSized(max, parts) && Fits(max, part)
    requires parts != [] ==> Crowded(max, parts[|parts| - 1], part)
    ensures WellSized(max, parts + [part])
  {
    var more := parts + [part];
    forall i | 0 <= i < |more| ensures Fits(max, more[i]) {
      assert more[i] == if i < |parts| then parts[i] else part;
    }
    forall i, j | 0 <= i && j == i + 1 && j < |more| ensures Crowded(max, more[i], more[j]) {
      assert more[i] == parts[i];
      assert more[j] == if j < |parts| then parts[j] else part;
    }
  }

  lemma GrownIsWellSized(max: nat, parts: seq<seq<Bytes>>, part: seq<Bytes>)
    requires WellSized(max, parts) && Fits(max, part)
    requires parts != [] && Size(part) >= Size(parts[|parts| - 1])
    ensures WellSized(max, parts[|parts| - 1 := part])
  {
  }

  lemma SizeOne(buf: Bytes)
    ensures Size([buf]) == |buf|
  {
    assert [buf][..0] == [] && Joined([buf]) == [] + buf;
  }

  lemma SizeWith(part: seq<Bytes>, buf: Bytes)
    ensures Size(part + [buf]) == Size(part) + |buf|
  {
    JoinedWith(part, buf);
  }

  /** Adjacent parts over the maximum bound the number of parts by the number of bytes. */
  lemma PartCountIsBounded(max: nat, bufs: seq<Bytes>)
    ensures (|Split(max, bufs)| - 1) * (max + 1) <= 2 * Size(bufs)
  {
    PartsAreWellSized(max, bufs);
    PartsAreTheWrites(max, bufs);
    var parts := Split(max, bufs);
    if parts == [] {
      assert (|parts| - 1) * (max + 1) == -(max + 1);
    } else {
      GapsAreBounded(max, parts);
    }
  }

  lemma {:induction false} GapsAreBounded(max: nat, parts: seq<seq<Bytes>>)
    requires WellSized(max, parts) && parts != []
    ensures Gaps(|parts| - 1, max) + Size(parts[|parts| - 1]) <= 2 * Size(Flat(parts))
    decreases |parts|
  {
    var n := |parts| - 1;
    var init := parts[..n];
    JoinedSum(Flat(init), parts[n]);
    if n > 0 {
      GapsAreBounded(max, init);
      assert Crowded(max, parts[n - 1], parts[n]);
      OneMoreGap(n, max);
    }
  }

  ghost function Gaps(n: nat, max: nat): nat
  {
    n * (max + 1)
  }

  lemma OneMoreGap(n: nat, max: nat)
    requires n > 0
    ensures Gaps(n, max) == Gaps(n - 1, max) + max + 1
  {
  }

  // ----- The fewest parts -----

  /** A way to cut the writes, in order, into parts that fit. */
  ghost predicate IsCut(max: nat, parts: seq<seq<Bytes>>, bufs: seq<Bytes>)
  {
    Flat(parts) == bufs && forall i :: 0 <= i < |parts| ==> Fits(max, parts[i])
  }

  /** Fewer parts, or as many with no more in the last one. */
  ghost predicate NoWorse(a: seq<seq<Bytes>>, b: seq<seq<Bytes>>)
  {
    |a| < |b| || (|a| == |b| && (a != [] ==> Size(a[|a| - 1]) <= Size(b[|b| - 1])))
  }

  lemma JoinedIsLonger(bufs: seq<Bytes>)
    requires bufs != []
    ensures Size(bufs) == Size(bufs[..|bufs| - 1]) + |bufs[|bufs| - 1]|
  {
  }

  /** The writer cuts the writes into the fewest parts: no other cut of the same writes has fewer. */
  lemma WriterUsesFewestParts(max: nat, bufs: seq<Bytes>, parts: seq<seq<Bytes>>)
    requires IsCut(max, parts, bufs)
    ensures IsCut(max, Split(max, bufs), bufs) && |Split(max, bufs)| <= |parts|
  {
    PartsAreTheWrites(max, bufs);
    PartsAreWellSized(max, bufs);
    SplitIsNoWorse(max, bufs, parts);
  }

  /** Adding a write to both keeps the writer's parts no worse than another cut. */
  lemma {:induction false} SplitIsNoWorse(max: nat, bufs: seq<Bytes>, parts: seq<seq<Bytes>>)
    requires IsCut(max, parts, bufs)
    ensures NoWorse(Split(max, bufs), parts)
    decreases |bufs|
  {
    if bufs == [] {
    } else {
      var init, buf := bufs[..|bufs| - 1], bufs[|bufs| - 1];
      var before := WithoutLast(max, parts, bufs);
      SplitIsNoWorse(max, init, before);
      var greedy := Split(max, init);
      var n := |greedy| - 1;
      SizeOne(buf);
      if greedy != [] { SizeWith(greedy[n], buf); }
    }
  }

  /** The cut without the last write: its last part loses a write, or goes. */
  lemma WithoutLast(max: nat, parts: seq<seq<Bytes>>, bufs: seq<Bytes>) returns (before: seq<seq<Bytes>>)
    requires IsCut(max, parts, bufs) && bufs != []
    ensures IsCut(max, before, bufs[..|bufs| - 1])
    ensures parts != [] && Size(parts[|parts| - 1]) >= |bufs[|bufs| - 1]|
    ensures (|before| == |parts| && before != [] && Size(parts[|parts| - 1]) <= max
          && Size(parts[|parts| - 1]) == Size(before[|before| - 1]) + |bufs[|bufs| - 1]|)
      || (|before| == |parts| - 1 && Size(parts[|parts| - 1]) == |bufs[|bufs| - 1]|)
  {
    var last := parts[|parts| - 1];
    var rest := parts[..|parts| - 1];
    var buf := bufs[|bufs| - 1];
    assert last[|last| - 1] == buf;
    JoinedIsLonger(last);
    assert Flat(rest) + last[..|last| - 1] == bufs[..|bufs| - 1];
    if |last| == 1 {
      before := rest;
      assert last[..0] == [];
    } else {
      before := rest + [last[..|last| - 1]];
      FlatWith(rest, last[..|last| - 1]);
    }
  }
}

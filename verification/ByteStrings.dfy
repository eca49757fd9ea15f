/**
  Byte strings as storage keys: the comparison of src/storage/util.rs, and the big-endian
  successor and predecessor that turn a key prefix into a range of keys.
*/
module ByteStrings {

  type Byte = b: int | 0 <= b < 256

  type Bytes = seq<Byte>

  // ----- Lexicographic order -----

  /** a comes strictly before b in the order of the key-value store. */
  predicate Less(a: Bytes, b: Bytes)
  {
    b != [] && (a == [] || a[0] < b[0] || (a[0] == b[0] && Less(a[1..], b[1..])))
  }

  /** Every two distinct byte strings are ordered, one way only. */
  lemma {:induction false} LessIsTotal(a: Bytes, b: Bytes)
    ensures Less(a, b) || Less(b, a) || a == b
    ensures !(Less(a, b) && Less(b, a))
    ensures a == b ==> !Less(a, b)
  {
    if a != [] && b != [] {
      LessIsTotal(a[1..], b[1..]);
      if a[0] == b[0] && a[1..] == b[1..] {
        assert a == [a[0]] + a[1..] == [b[0]] + b[1..] == b;
      }
    }
  }

  lemma {:induction false} LessIsTransitive(a: Bytes, b: Bytes, c: Bytes)
    requires Less(a, b) && Less(b, c)
    ensures Less(a, c)
  {
    if a != [] && a[0] == b[0] == c[0] {
      LessIsTransitive(a[1..], b[1..], c[1..]);
    }
  }

  lemma {:induction false} LessUnderCommonPrefix(p: Bytes, a: Bytes, b: Bytes)
    ensures Less(p + a, p + b) <==> Less(a, b)
  {
    if p == [] {
      assert p + a == a && p + b == b;
    } else {
      assert (p + a)[1..] == p[1..] + a && (p + b)[1..] == p[1..] + b;
      LessUnderCommonPrefix(p[1..], a, b);
    }
  }

  method BytesCompare(a: Bytes, b: Bytes) returns (r: int)
    ensures r == -1 || r == 0 || r == 1
    ensures r == -1 <==> Less(a, b)
    ensures r == 1 <==> Less(b, a)
    ensures r == 0 <==> a == b
  {
    LessIsTotal(a, b);
    var len := if |a| < |b| then |a| else |b|;
    for i := 0 to len
      invariant a[..i] == b[..i]
    {
      assert a == a[..i] + a[i..] && b == a[..i] + b[i..];
      LessUnderCommonPrefix(a[..i], a[i..], b[i..]);
      LessUnderCommonPrefix(a[..i], b[i..], a[i..]);
      if a[i] < b[i] {
        return -1;
      }
      if a[i] > b[i] {
        return 1;
      }
    }
    assert a == a[..len] + a[len..] && b == a[..len] + b[len..];
    LessUnderCommonPrefix(a[..len], a[len..], b[len..]);
    LessUnderCommonPrefix(a[..len], b[len..], a[len..]);
    if |a| < |b| {
      return -1;
    } else if |a| > |b| {
      return 1;
    } else {
      return 0;
    }
  }

  // ----- Big-endian numbers -----

  /** The number a byte string spells, most significant byte first. */
  function Value(s: Bytes): nat
  {
    if s == [] then 0 else Value(s[..|s| - 1]) * 256 + s[|s| - 1]
  }

  ghost predicate AllMax(s: Bytes)
  {
    forall i :: 0 <= i < |s| ==> s[i] == 255
  }

  ghost predicate AllZero(s: Bytes)
  {
    forall i :: 0 <= i < |s| ==> s[i] == 0
  }

  function Repeat(b: Byte, n: nat): (s: Bytes)
    ensures |s| == n
    ensures forall i :: 0 <= i < n ==> s[i] == b
  {
    seq(n, i => b)
  }

  lemma ValueOfAppended(s: Bytes, b: Byte)
    ensures Value(s + [b]) == Value(s) * 256 + b
  {
    assert (s + [b])[..|s|] == s;
  }

  lemma {:induction false} ZeroIsAllZero(s: Bytes)
    ensures Value(s) == 0 <==> AllZero(s)
  {
    if s != [] {
      ZeroIsAllZero(s[..|s| - 1]);
      assert forall i :: 0 <= i < |s| - 1 ==> s[..|s| - 1][i] == s[i];
    }
  }

  lemma {:induction false} LessOfAppended(a: Bytes, x: Byte, b: Bytes, y: Byte)
    requires |a| == |b|
    ensures Less(a + [x], b + [y]) <==> Less(a, b) || (a == b && x < y)
  {
    if a == [] {
      assert a + [x] == [x] && b + [y] == [y];
    } else {
      assert (a + [x])[1..] == a[1..] + [x] && (b + [y])[1..] == b[1..] + [y];
      LessOfAppended(a[1..], x, b[1..], y);
      assert a == [a[0]] + a[1..] && b == [b[0]] + b[1..];
    }
  }

  /** On strings of one length, the key order is the numeric order, and no number is spelt twice. */
  lemma {:induction false} LessIsNumeric(a: Bytes, b: Bytes)
    requires |a| == |b|
    ensures Less(a, b) <==> Value(a) < Value(b)
    ensures a == b <==> Value(a) == Value(b)
  {
    if a != [] {
      var a', b' := a[..|a| - 1], b[..|b| - 1];
      assert a == a' + [a[|a| - 1]] && b == b' + [b[|b| - 1]];
      LessOfAppended(a', a[|a| - 1], b', b[|b| - 1]);
      LessIsNumeric(a', b');
    }
  }

  // ----- Successor -----

  /** The big-endian successor, by recursion on the least significant byte. */
  function Successor(v: Bytes): Bytes
  {
    if v == [] then [1]
    else if v[|v| - 1] == 255 then Successor(v[..|v| - 1]) + [0]
    else v[..|v| - 1] + [v[|v| - 1] + 1]
  }

  /** The successor spells one more, for every byte string; only a string of 255s grows. */
  lemma {:induction false} SuccessorAddsOne(v: Bytes)
    ensures Value(Successor(v)) == Value(v) + 1
    ensures |Successor(v)| == if AllMax(v) then |v| + 1 else |v|
  {
    if v == [] {
      ValueOfAppended([], 1);
      assert [] + [1] == Successor(v);
    } else {
      var init, last := v[..|v| - 1], v[|v| - 1];
      if last == 255 {
        SuccessorAddsOne(init);
        ValueOfAppended(Successor(init), 0);
        assert AllMax(v) <==> AllMax(init) by {
          assert v == init + [last];
        }
      } else {
        ValueOfAppended(init, last + 1);
        assert v[|v| - 1] != 255;
      }
    }
  }

  lemma {:induction false} SuccessorCarries(p: Bytes, x: Byte, k: nat)
    requires x < 255
    ensures Successor(p + [x] + Repeat(255, k)) == p + [x + 1] + Repeat(0, k)
  {
    var v := p + [x] + Repeat(255, k);
    if k == 0 {
      assert v == p + [x];
    } else {
      assert v[..|v| - 1] == p + [x] + Repeat(255, k - 1);
      SuccessorCarries(p, x, k - 1);
      assert Repeat(0, k) == Repeat(0, k - 1) + [0];
    }
  }

  lemma {:induction false} SuccessorOverflows(k: nat)
    ensures Successor(Repeat(255, k)) == [1] + Repeat(0, k)
  {
    if k > 0 {
      assert Repeat(255, k)[..k - 1] == Repeat(255, k - 1);
      SuccessorOverflows(k - 1);
      assert Repeat(0, k) == Repeat(0, k - 1) + [0];
    }
  }

  lemma CarriedAt(v: Bytes, i: nat, r: Bytes)
    requires i < |v| == |r| && v[i] < 255 && r[i] == v[i] + 1
    requires forall j :: 0 <= j < i ==> r[j] == v[j]
    requires forall j :: i < j < |v| ==> v[j] == 255 && r[j] == 0
    ensures r == Successor(v)
  {
    SuccessorCarries(v[..i], v[i], |v| - i - 1);
    assert v == v[..i] + [v[i]] + Repeat(255, |v| - i - 1);
    assert r == v[..i] + [v[i] + 1] + Repeat(0, |v| - i - 1);
  }

  method IncrementVec(v: Bytes) returns (r: Bytes)
    ensures r == Successor(v)
  {
    var result := new Byte[|v|](i requires 0 <= i < |v| => v[i]);
    var carry := true;
    var i := |v|;
    while i > 0
      invariant 0 <= i <= |v|
      invariant carry
      invariant forall j :: 0 <= j < i ==> result[j] == v[j]
      invariant forall j :: i <= j < |v| ==> v[j] == 255 && result[j] == 0
    {
      i := i - 1;
      if result[i] == 255 {
        result[i] := 0;
      } else {
        result[i] := result[i] + 1;
        carry := false;
        CarriedAt(v, i, result[..]);
        break;
      }
    }
    if carry {
      SuccessorOverflows(|v|);
      assert v == Repeat(255, |v|) && result[..] == Repeat(0, |v|);
      r := [1] + result[..];
    } else {
      r := result[..];
    }
  }

  // ----- Predecessor -----

  /** Subtract one with borrow, keeping the length: a string of zeros turns into 255s. */
  function Borrowed(v: Bytes): (r: Bytes)
    ensures |r| == |v|
  {
    if v == [] then []
    else if v[|v| - 1] == 0 then Borrowed(v[..|v| - 1]) + [255]
    else v[..|v| - 1] + [v[|v| - 1] - 1]
  }

  /** What the decrement leaves: after a borrow out of the top, the last byte is dropped. */
  ghost function Predecessor(v: Bytes): Bytes
  {
    if AllZero(v) && v != [] then Borrowed(v)[..|v| - 1] else Borrowed(v)
  }

  lemma {:induction false} BorrowedSubtractsOne(v: Bytes)
    requires !AllZero(v)
    ensures Value(Borrowed(v)) == Value(v) - 1
  {
    var init, last := v[..|v| - 1], v[|v| - 1];
    assert v == init + [last];
    if last == 0 {
      BorrowedSubtractsOne(init);
      ValueOfAppended(Borrowed(init), 255);
    } else {
      ValueOfAppended(init, last - 1);
    }
  }

  lemma {:induction false} BorrowedFrom(p: Bytes, x: Byte, k: nat)
    requires x > 0
    ensures Borrowed(p + [x] + Repeat(0, k)) == p + [x - 1] + Repeat(255, k)
  {
    var v := p + [x] + Repeat(0, k);
    if k == 0 {
      assert v == p + [x];
    } else {
      assert v[..|v| - 1] == p + [x] + Repeat(0, k - 1);
      BorrowedFrom(p, x, k - 1);
      assert Repeat(255, k) == Repeat(255, k - 1) + [255];
    }
  }

  lemma {:induction false} BorrowedFromZeros(k: nat)
    ensures Borrowed(Repeat(0, k)) == Repeat(255, k)
  {
    if k > 0 {
      assert Repeat(0, k)[..k - 1] == Repeat(0, k - 1);
      BorrowedFromZeros(k - 1);
      assert Repeat(255, k) == Repeat(255, k - 1) + [255];
    }
  }

  lemma BorrowedAt(v: Bytes, i: nat, r: Bytes)
    requires i < |v| == |r| && v[i] > 0 && r[i] == v[i] - 1
    requires forall j :: 0 <= j < i ==> r[j] == v[j]
    requires forall j :: i < j < |v| ==> v[j] == 0 && r[j] == 255
    ensures r == Predecessor(v)
  {
    BorrowedFrom(v[..i], v[i], |v| - i - 1);
    assert v == v[..i] + [v[i]] + Repeat(0, |v| - i - 1);
    assert r == v[..i] + [v[i] - 1] + Repeat(255, |v| - i - 1);
  }

  method DecrementVec(v: Bytes) returns (r: Bytes)
    ensures r == Predecessor(v)
  {
    var result := new Byte[|v|](i requires 0 <= i < |v| => v[i]);
    var borrow := true;
    var i := |v|;
    while i > 0
      invariant 0 <= i <= |v|
      invariant borrow
      invariant forall j :: 0 <= j < i ==> result[j] == v[j]
      invariant forall j :: i <= j < |v| ==> v[j] == 0 && result[j] == 255
    {
      i := i - 1;
      if result[i] == 0 {
        result[i] := 255;
      } else {
        result[i] := result[i] - 1;
        borrow := false;
        BorrowedAt(v, i, result[..]);
        break;
      }
    }
    r := result[..];
    if borrow {
      BorrowedFromZeros(|v|);
      assert v == Repeat(0, |v|) && r == Repeat(255, |v|);
      if r != [] {
        r := r[..|r| - 1];
      }
    }
  }

  /** The decrement subtracts one exactly when some byte is not zero. */
  lemma PredecessorSubtractsOneIff(v: Bytes)
    ensures Value(Predecessor(v)) == Value(v) - 1 <==> !AllZero(v)
  {
    ZeroIsAllZero(v);
    if !AllZero(v) {
      BorrowedSubtractsOne(v);
    }
  }

  /** Decrementing undoes an increment exactly when the increment did not overflow. */
  lemma PredecessorOfSuccessorIff(v: Bytes)
    ensures Predecessor(Successor(v)) == v <==> !AllMax(v)
  {
    var s := Successor(v);
    SuccessorAddsOne(v);
    ZeroIsAllZero(s);
    assert |Predecessor(s)| == |s|;
    BorrowedSubtractsOne(s);
    if !AllMax(v) {
      LessIsNumeric(Predecessor(s), v);
    }
  }

  /** Incrementing undoes a decrement exactly when there was something to decrement. */
  lemma SuccessorOfPredecessorIff(v: Bytes)
    ensures Successor(Predecessor(v)) == v <==> !AllZero(v)
  {
    ZeroIsAllZero(v);
    var p := Predecessor(v);
    SuccessorAddsOne(p);
    if !AllZero(v) {
      BorrowedSubtractsOne(v);
      if AllMax(p) {
        MaxIsLargest(v, p);
      }
      LessIsNumeric(Successor(p), v);
    }
  }

  lemma {:induction false} MaxIsLargest(v: Bytes, m: Bytes)
    requires |v| == |m| && AllMax(m)
    ensures Value(v) <= Value(m)
  {
    if v != [] {
      MaxIsLargest(v[..|v| - 1], m[..|m| - 1]);
    }
  }

  // ----- Prefix ranges -----

  /** k is in the half-open range of keys an iterator bounded by v and its successor visits. */
  ghost predicate InRangeOf(v: Bytes, k: Bytes)
  {
    !Less(k, v) && Less(k, Successor(v))
  }

  lemma {:induction false} LessOfLonger(k: Bytes, w: Bytes)
    requires |w| <= |k|
    ensures Less(k, w) <==> Less(k[..|w|], w)
  {
    if w != [] {
      assert k[..|w|][1..] == k[1..][..|w| - 1];
      LessOfLonger(k[1..], w[1..]);
    }
  }

  /** Among keys at least as long as v, the range from v to its successor is the keys with prefix v. */
  lemma RangeIsPrefix(v: Bytes, k: Bytes)
    requires !AllMax(v) && |v| <= |k|
    ensures InRangeOf(v, k) <==> v <= k
  {
    SuccessorAddsOne(v);
    LessOfLonger(k, v);
    LessOfLonger(k, Successor(v));
    LessIsNumeric(k[..|v|], v);
    LessIsNumeric(k[..|v|], Successor(v));
  }

  /** The range of v picks out the keys with prefix v exactly when v is not a string of 255s. */
  lemma RangeIsPrefixIff(v: Bytes)
    ensures (forall k: Bytes :: |v| <= |k| ==> (InRangeOf(v, k) <==> v <= k)) <==> !AllMax(v)
  {
    if !AllMax(v) {
      forall k: Bytes | |v| <= |k| ensures InRangeOf(v, k) <==> v <= k {
        RangeIsPrefix(v, k);
      }
    } else {
      var k: Bytes := v + [1];
      assert v == Repeat(255, |v|);
      SuccessorOverflows(|v|);
      assert v <= k && !InRangeOf(v, k) by {
        if v == [] {
          assert k == [1] == Successor(v);
          LessIsTotal(k, k);
        } else {
          assert k[0] == 255 && Successor(v)[0] == 1;
        }
      }
    }
  }
}

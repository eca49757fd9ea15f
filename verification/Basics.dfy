/** Options, verdicts, and finite sets of numbers read in increasing order, as ordered maps are iterated. */
module Basics {

  datatype Option<+T> = None | Some(value: T)

  /** A validator's verdict on a proposal. */
  datatype Validity = Valid | Invalid

  /** The least element of a non-empty set. */
  function Least(s: set<nat>): (m: nat)
    requires s != {}
    ensures m in s && forall k :: k in s ==> m <= k
  {
    LeastExists(s);
    assert exists m :: m in s && forall k :: k in s ==> m <= k by {
      var m :| IsLeast(s, m);
    }
    var m :| m in s && forall k :: k in s ==> m <= k;
    m
  }

  ghost predicate IsLeast(s: set<nat>, m: nat)
  {
    m in s && forall k :: k in s ==> m <= k
  }

  lemma {:induction false} LeastExists(s: set<nat>)
    requires s != {}
    ensures exists m :: IsLeast(s, m)
    decreases |s|
  {
    var x :| x in s;
    var rest := s - {x};
    if rest == {} {
      assert s == {x};
      assert IsLeast(s, x);
    } else {
      assert s == rest + {x} && rest < s;
      LeastExists(rest);
      var m :| IsLeast(rest, m);
      assert IsLeast(s, if m < x then m else x);
    }
  }

  lemma SmallerSubset<T>(a: set<T>, b: set<T>)
    requires a < b
    ensures |a| < |b|
  {
    assert b == a + (b - a);
  }

  lemma SubsetIsSmaller<T>(a: set<T>, b: set<T>)
    requires a <= b
    ensures |a| <= |b|
  {
    assert b == a + (b - a);
  }

  ghost function Elements<T>(s: seq<T>): set<T>
  {
    set x | x in s
  }

  ghost predicate Increasing(ks: seq<nat>)
  {
    forall i, j :: 0 <= i < j < |ks| ==> ks[i] < ks[j]
  }

  /** ks is the elements of a set in increasing order. */
  ghost predicate Lists(ks: seq<nat>, s: set<nat>)
  {
    Increasing(ks) && |ks| == |s| && forall k :: k in ks <==> k in s
  }

  lemma {:induction false} AscendingExists(s: set<nat>)
    ensures exists ks :: Lists(ks, s)
    decreases |s|
  {
    if s == {} {
      assert Lists([], s);
    } else {
      var m := Least(s);
      AscendingExists(s - {m});
      var rest :| Lists(rest, s - {m});
      ListsFrom(m, s, rest);
    }
  }

  ghost function Ascending(s: set<nat>): (ks: seq<nat>)
    ensures Lists(ks, s)
  {
    AscendingExists(s);
    var ks :| Lists(ks, s);
    ks
  }

  lemma AscendingIs(ks: seq<nat>, s: set<nat>)
    requires Lists(ks, s)
    ensures ks == Ascending(s)
  {
    IncreasingIsCanonical(ks, Ascending(s));
  }

  lemma ListsFrom(m: nat, s: set<nat>, rest: seq<nat>)
    requires m in s && Lists(rest, s - {m}) && forall k :: k in s ==> m <= k
    ensures Lists([m] + rest, s)
  {
    assert forall i :: 0 <= i < |rest| ==> rest[i] in s - {m};
  }

  /** Iterating an ordered store: the least key first. */
  method Iterate(s: set<nat>) returns (ks: seq<nat>)
    ensures ks == Ascending(s)
    decreases |s|
  {
    if s == {} {
      ks := [];
      AscendingIs(ks, s);
    } else {
      var m := Least(s);
      var rest := Iterate(s - {m});
      ListsFrom(m, s, rest);
      ks := [m] + rest;
      AscendingIs(ks, s);
    }
  }

  /** The elements above one that is listed are those listed after it. */
  lemma ListsRest(ks: seq<nat>, s: set<nat>, n: nat, rest: seq<nat>, above: set<nat>)
    requires Lists(ks, s) && Lists(rest, above) && 0 < n <= |ks|
    requires forall k :: k in above <==> k in s && k > ks[n - 1]
    ensures rest == ks[n..]
  {
    forall k ensures k in rest <==> k in ks[n..] {
      if k in ks[n..] {
        assert k in ks && k > ks[n - 1];
      }
      if k in rest {
        assert k in ks;
        var i :| 0 <= i < |ks| && ks[i] == k;
        assert i >= n && ks[n..][i - n] == k;
      }
    }
    IncreasingIsCanonical(rest, ks[n..]);
  }

  /** Elements added above all others are listed after them. */
  lemma ListsPrefix(a: seq<nat>, s: set<nat>, b: seq<nat>, t: set<nat>)
    requires Lists(a, s) && Lists(b, t) && s <= t
    requires forall x, y :: x in s && y in t - s ==> x < y
    ensures a <= b
  {
    var rest := Ascending(t - s);
    forall i, j | 0 <= i < |a| && 0 <= j < |rest| ensures a[i] < rest[j] {
      assert a[i] in a && rest[j] in rest;
    }
    IncreasingIsCanonical(a + rest, b);
  }

  /** An increasing list is determined by its elements. */
  lemma {:induction false} IncreasingIsCanonical(a: seq<nat>, b: seq<nat>)
    requires Increasing(a) && Increasing(b)
    requires forall k :: k in a <==> k in b
    ensures a == b
  {
    assert a != [] ==> a[0] in b;
    assert b != [] ==> b[0] in a;
    if a != [] {
      forall k ensures k in a[1..] <==> k in b[1..] {
        assert k in a <==> k == a[0] || k in a[1..];
        assert k in b <==> k == b[0] || k in b[1..];
      }
      IncreasingIsCanonical(a[1..], b[1..]);
      assert a == [a[0]] + a[1..] && b == [b[0]] + b[1..];
    }
  }

  /** g ends the gap-free run of elements that follows n. */
  ghost predicate IsFrontier(keys: set<nat>, n: nat, g: nat)
  {
    n <= g && g + 1 !in keys && forall h :: n < h <= g ==> h in keys
  }

  ghost function Above(keys: set<nat>, n: nat): set<nat>
  {
    set k | k in keys && k > n
  }

  lemma {:induction false} FrontierExists(keys: set<nat>, n: nat)
    ensures exists g: nat :: IsFrontier(keys, n, g)
    decreases |Above(keys, n)|
  {
    if n + 1 !in keys {
      assert IsFrontier(keys, n, n);
    } else {
      assert n + 1 in Above(keys, n) && n + 1 !in Above(keys, n + 1);
      SmallerSubset(Above(keys, n + 1), Above(keys, n));
      FrontierExists(keys, n + 1);
      var g: nat :| IsFrontier(keys, n + 1, g);
      assert IsFrontier(keys, n, g);
    }
  }

  lemma FrontierIsUnique(keys: set<nat>, n: nat, g: nat, g': nat)
    requires IsFrontier(keys, n, g) && IsFrontier(keys, n, g')
    ensures g == g'
  {
    assert g < g' ==> g + 1 in keys;
    assert g' < g ==> g' + 1 in keys;
  }

  ghost function Frontier(keys: set<nat>, n: nat): (g: nat)
    ensures IsFrontier(keys, n, g)
  {
    FrontierExists(keys, n);
    var g: nat :| IsFrontier(keys, n, g);
    g
  }
}

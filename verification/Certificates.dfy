/**
  Commit certificates as the read node checks them (verify_signatures in
  src/consensus/read_validator.rs): the validators' public keys are an iterator that every
  signer's lookup advances, so signers must come in the order of the validator list.
*/
module Certificates {
  import opened Basics
  import opened ByteStrings
  import opened ValidatorSets

  datatype ShardHash = ShardHash(shardIndex: nat, hash: Bytes)

  /** The precommit vote a commit signature signs. */
  datatype Vote = Precommit(height: nat, round: int, value: ShardHash, voter: Bytes)

  datatype CommitSignature = CommitSignature(address: Bytes, signature: Bytes)

  datatype Certificate =
    Certificate(height: nat, round: int, value: ShardHash, signatures: seq<CommitSignature>)

  /** The signature scheme: does this key's signature on this vote verify? */
  type Verifier = (Bytes, Vote, Bytes) -> bool

  function VoteOf(c: Certificate, address: Bytes): Vote
  {
    Precommit(c.height, c.round, c.value, address)
  }

  /** Strictly more than two thirds, every validator having one vote. */
  predicate QuorumMet(signatures: nat, validators: nat)
  {
    3 * signatures > 2 * validators
  }

  /** The least quorum of n validators is the floor of two thirds of n, plus one. */
  lemma LeastQuorum(signatures: nat, validators: nat)
    ensures QuorumMet(signatures, validators) <==> signatures >= 2 * validators / 3 + 1
  {
  }

  // ----- What the check accepts -----

  /** The first n signers sit at increasing places of the key list. */
  ghost predicate IsEmbedding(places: seq<nat>, c: Certificate, keys: seq<Bytes>, n: nat)
  {
    && |places| == n <= |c.signatures|
    && Increasing(places)
    && forall i :: 0 <= i < n ==> places[i] < |keys| && keys[places[i]] == c.signatures[i].address
  }

  ghost predicate SignersInOrder(c: Certificate, keys: seq<Bytes>)
  {
    exists places :: IsEmbedding(places, c, keys, |c.signatures|)
  }

  ghost predicate AllVerify(c: Certificate, verify: Verifier)
  {
    forall i :: 0 <= i < |c.signatures| ==>
      verify(c.signatures[i].address, VoteOf(c, c.signatures[i].address), c.signatures[i].signature)
  }

  /** A quorum of signatures that verify, by signers in the order of the key list. */
  ghost predicate Accepts(c: Certificate, keys: seq<Bytes>, verify: Verifier)
  {
    QuorumMet(|c.signatures|, |keys|) && SignersInOrder(c, keys) && AllVerify(c, verify)
  }

  lemma EmbeddingPrefix(places: seq<nat>, c: Certificate, keys: seq<Bytes>, n: nat, m: nat)
    requires IsEmbedding(places, c, keys, n) && m <= n
    ensures IsEmbedding(places[..m], c, keys, m)
  {
  }

  /** A membership test on a key iterator: it consumes keys up to and including the first match. */
  method Contains(keys: seq<Bytes>, address: Bytes, start: nat) returns (found: bool, cursor: nat)
    requires start <= |keys|
    ensures Consumed(keys, address, start, found, cursor)
  {
    cursor, found := start, false;
    while cursor < |keys| && !found
      invariant start <= cursor <= |keys|
      invariant if found then Consumed(keys, address, start, found, cursor)
                else forall k :: start <= k < cursor ==> keys[k] != address
      decreases |keys| - cursor
    {
      found := keys[cursor] == address;
      cursor := cursor + 1;
    }
  }

  ghost predicate Consumed(keys: seq<Bytes>, address: Bytes, start: nat, found: bool, cursor: nat)
  {
    && start <= cursor <= |keys|
    && (found ==> start < cursor && keys[cursor - 1] == address)
    && (!found ==> cursor == |keys|)
    && forall k :: start <= k < cursor && (found ==> k < cursor - 1) ==> keys[k] != address
  }

  /** No embedding of the first n signers ends before the cursor. */
  ghost predicate CursorIsLeast(c: Certificate, keys: seq<Bytes>, n: nat, cursor: nat)
  {
    n > 0 ==> forall p :: IsEmbedding(p, c, keys, n) ==> cursor <= p[n - 1] + 1
  }

  /** Consuming up to the first match keeps the cursor least; with no match there is no embedding. */
  lemma CursorStaysLeast(c: Certificate, keys: seq<Bytes>, n: nat, start: nat, found: bool, cursor: nat)
    requires n < |c.signatures| && CursorIsLeast(c, keys, n, start) && (n == 0 ==> start == 0)
    requires Consumed(keys, c.signatures[n].address, start, found, cursor)
    ensures found ==> CursorIsLeast(c, keys, n + 1, cursor)
    ensures !found ==> !SignersInOrder(c, keys)
  {
    forall p | IsEmbedding(p, c, keys, n + 1) ensures found && cursor <= p[n] + 1 {
      EmbeddingPrefix(p, c, keys, n + 1, n);
      assert n > 0 ==> p[..n][n - 1] == p[n - 1] < p[n];
      assert keys[p[n]] == c.signatures[n].address;
    }
    if p :| IsEmbedding(p, c, keys, |c.signatures|) {
      EmbeddingPrefix(p, c, keys, |c.signatures|, n + 1);
    }
  }

  method VerifySignatures(c: Certificate, keys: seq<Bytes>, verify: Verifier) returns (ok: bool)
    ensures ok <==> Accepts(c, keys, verify)
  {
    if !QuorumMet(|c.signatures|, |keys|) {
      return false;
    }
    var cursor := 0;
    ghost var places: seq<nat> := [];
    for n := 0 to |c.signatures|
      invariant IsEmbedding(places, c, keys, n) && CursorIsLeast(c, keys, n, cursor)
      invariant cursor == if n == 0 then 0 else places[n - 1] + 1
      invariant VerifiedTo(c, verify, n)
    {
      var address := c.signatures[n].address;
      var found, next := Contains(keys, address, cursor);
      CursorStaysLeast(c, keys, n, cursor, found, next);
      if !found {
        return false;
      }
      EmbeddingExtends(places, c, keys, n, next - 1);
      cursor := next;
      places := places + [cursor - 1];
      if !verify(address, VoteOf(c, address), c.signatures[n].signature) {
        return false;
      }
    }
    return true;
  }

  ghost predicate VerifiedTo(c: Certificate, verify: Verifier, n: nat)
    requires n <= |c.signatures|
  {
    forall i :: 0 <= i < n ==>
      verify(c.signatures[i].address, VoteOf(c, c.signatures[i].address), c.signatures[i].signature)
  }

  lemma EmbeddingExtends(places: seq<nat>, c: Certificate, keys: seq<Bytes>, n: nat, k: nat)
    requires IsEmbedding(places, c, keys, n) && n < |c.signatures|
    requires k < |keys| && keys[k] == c.signatures[n].address && (n > 0 ==> places[n - 1] < k)
    ensures IsEmbedding(places + [k], c, keys, n + 1)
  {
    var more := places + [k];
    forall i, j | 0 <= i < j < |more| ensures more[i] < more[j] {
      if j == n && i < n - 1 {
        assert places[i] < places[n - 1];
      }
    }
  }

  // ----- What acceptance means -----

  ghost predicate Distinct<T(!new)>(s: seq<T>)
  {
    forall i, j :: 0 <= i < j < |s| ==> s[i] != s[j]
  }

  ghost function Signers(c: Certificate): set<Bytes>
  {
    set i | 0 <= i < |c.signatures| :: c.signatures[i].address
  }

  lemma CountOneMore<T>(s: seq<T>, x: T)
    requires x !in s
    ensures |Elements(s + [x])| == |Elements(s)| + 1
  {
    assert Elements(s + [x]) == Elements(s) + {x};
  }

  lemma {:induction false} DistinctCount<T(!new)>(s: seq<T>)
    requires Distinct(s)
    ensures |Elements(s)| == |s|
  {
    if s != [] {
      var init := s[..|s| - 1];
      DistinctCount(init);
      CountOneMore(init, s[|s| - 1]);
      assert s == init + [s[|s| - 1]];
    }
  }

  lemma CanonicalKeysAreDistinct(vs: seq<Validator>)
    requires Canonical(vs)
    ensures Distinct(Addresses(vs))
  {
    forall i, j | 0 <= i < j < |vs| ensures Addresses(vs)[i] != Addresses(vs)[j] {
      LessIsTotal(vs[i].address, vs[j].address);
    }
  }

  function SignerList(c: Certificate): (s: seq<Bytes>)
    ensures |s| == |c.signatures|
    ensures forall i :: 0 <= i < |s| ==> s[i] == c.signatures[i].address
  {
    seq(|c.signatures|, i requires 0 <= i < |c.signatures| => c.signatures[i].address)
  }

  /** The forward-only cursor makes the accepted signers distinct validators. */
  lemma AcceptedSignersAreDistinct(c: Certificate, keys: seq<Bytes>, verify: Verifier)
    requires Accepts(c, keys, verify) && Distinct(keys)
    ensures Distinct(SignerList(c)) && |Signers(c)| == |c.signatures| && Signers(c) <= Elements(keys)
  {
    var places :| IsEmbedding(places, c, keys, |c.signatures|);
    forall i, j | 0 <= i < j < |c.signatures| ensures SignerList(c)[i] != SignerList(c)[j] {
      assert places[i] < places[j];
    }
    DistinctCount(SignerList(c));
    assert Signers(c) == Elements(SignerList(c));
  }

  /** Two certificates accepted against one list share more than a third of the validators. */
  lemma AcceptedQuorumsIntersect(a: Certificate, b: Certificate, keys: seq<Bytes>, verify: Verifier)
    requires Accepts(a, keys, verify) && Accepts(b, keys, verify) && Distinct(keys)
    ensures 3 * |Signers(a) * Signers(b)| > |keys|
  {
    AcceptedSignersAreDistinct(a, keys, verify);
    AcceptedSignersAreDistinct(b, keys, verify);
    DistinctCount(keys);
    var union := Signers(a) + Signers(b);
    SubsetIsSmaller(union, Elements(keys));
    assert |union| == |Signers(a)| + |Signers(b)| - |Signers(a) * Signers(b)|;
  }

  /** This validator has valid precommits for two values at the height and round. */
  ghost predicate DoubleSigned(key: Bytes, height: nat, round: int, verify: Verifier)
  {
    exists v, w, s, t ::
      v != w && verify(key, Precommit(height, round, v, key), s) && verify(key, Precommit(height, round, w, key), t)
  }

  /** While at most a third double-sign, no two accepted certificates of a round name different values. */
  lemma NoConflictingCertificates(
      a: Certificate, b: Certificate, keys: seq<Bytes>, faulty: set<Bytes>, verify: Verifier)
    requires Accepts(a, keys, verify) && Accepts(b, keys, verify) && Distinct(keys)
    requires a.height == b.height && a.round == b.round
    requires 3 * |faulty| <= |keys|
    requires forall k :: k in keys && DoubleSigned(k, a.height, a.round, verify) ==> k in faulty
    ensures a.value == b.value
  {
    AcceptedQuorumsIntersect(a, b, keys, verify);
    AcceptedSignersAreDistinct(a, keys, verify);
    var common := Signers(a) * Signers(b);
    if a.value != b.value {
      forall k | k in common ensures k in faulty {
        var i :| 0 <= i < |a.signatures| && a.signatures[i].address == k;
        var j :| 0 <= j < |b.signatures| && b.signatures[j].address == k;
        assert verify(k, Precommit(a.height, a.round, a.value, k), a.signatures[i].signature);
        assert verify(k, Precommit(a.height, a.round, b.value, k), b.signatures[j].signature);
        assert k in Elements(keys);
      }
      SubsetIsSmaller(common, faulty);
    }
  }

  // ----- What is rejected -----

  ghost predicate Sortedly(c: Certificate)
  {
    forall i, j :: 0 <= i < j < |c.signatures| ==> Less(c.signatures[i].address, c.signatures[j].address)
  }

  /**
    A quorum of verifying signatures by members of a canonical list is not enough: it is accepted
    exactly when the signers come in increasing order of address.
  */
  lemma QuorumAcceptedIffSorted(c: Certificate, vs: seq<Validator>, verify: Verifier)
    requires Canonical(vs)
    requires QuorumMet(|c.signatures|, |vs|) && AllVerify(c, verify)
    requires Signers(c) <= Elements(Addresses(vs))
    ensures Accepts(c, Addresses(vs), verify) <==> Sortedly(c)
  {
    var keys := Addresses(vs);
    if SignersInOrder(c, keys) {
      var places :| IsEmbedding(places, c, keys, |c.signatures|);
      forall i, j | 0 <= i < j < |c.signatures| ensures Less(c.signatures[i].address, c.signatures[j].address) {
        assert places[i] < places[j];
        assert Less(vs[places[i]].address, vs[places[j]].address);
      }
    }
    if Sortedly(c) {
      var places := PlacesOfSorted(c, vs, |c.signatures|);
    }
  }

  lemma {:induction false} PlacesOfSorted(c: Certificate, vs: seq<Validator>, n: nat) returns (places: seq<nat>)
    requires Canonical(vs) && Sortedly(c) && n <= |c.signatures|
    requires Signers(c) <= Elements(Addresses(vs))
    ensures IsEmbedding(places, c, Addresses(vs), n)
  {
    if n == 0 {
      places := [];
    } else {
      var before := PlacesOfSorted(c, vs, n - 1);
      assert c.signatures[n - 1].address in Signers(c);
      assert c.signatures[n - 1].address in Elements(Addresses(vs));
      var k: nat :| k < |vs| && Addresses(vs)[k] == c.signatures[n - 1].address;
      places := before + [k];
      forall i | 0 <= i < n - 1 ensures before[i] < k {
        assert Less(c.signatures[i].address, c.signatures[n - 1].address);
        assert Addresses(vs)[before[i]] == vs[before[i]].address;
        LessIsTotal(vs[before[i]].address, vs[k].address);
      }
    }
  }

  /** Two of two validators sign, and both signatures verify, but the second is listed first: refused. */
  lemma UnsortedQuorumIsRefused(height: nat, round: int, value: ShardHash, sig: Bytes)
    ensures
      var vs := [Validator(1, [1], None, 0), Validator(1, [2], None, 0)];
      var c := Certificate(height, round, value, [CommitSignature([2], sig), CommitSignature([1], sig)]);
      var verify: Verifier := (key, vote, signature) => true;
      && Canonical(vs) && QuorumMet(|c.signatures|, |vs|) && AllVerify(c, verify)
      && Signers(c) == Elements(Addresses(vs)) && !Accepts(c, Addresses(vs), verify)
  {
    var vs := [Validator(1, [1], None, 0), Validator(1, [2], None, 0)];
    var c := Certificate(height, round, value, [CommitSignature([2], sig), CommitSignature([1], sig)]);
    var verify: Verifier := (key, vote, signature) => true;
    var keys := Addresses(vs);
    assert keys == [[1], [2]];
    assert c.signatures[0].address == keys[1] && c.signatures[1].address == keys[0];
    assert Signers(c) == Elements(keys);
    QuorumAcceptedIffSorted(c, vs, verify);
    assert !Less(c.signatures[0].address, c.signatures[1].address);
  }
}

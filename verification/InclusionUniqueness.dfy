/** Whether one root, size and index can carry two different digests when the root
    is not known to come from a tree.

    Section 2.1.3.2 of RFC 9162 stops with a failure when siblings remain after the
    size register has reached zero.  The inclusion verifier keeps hashing.  Against a
    genuine root that makes no difference (`InclusionExact`); against an arbitrary
    root, two accepted proofs of different lengths can disagree, and they can do so
    at every index except the last. */
module InclusionUniqueness {
  import opened Merkle
  import opened MerkleProofs

  lemma {:induction false} ClimbAppend(h: Hasher, start: string, s1: seq<Side>, p1: seq<string>, s2: seq<Side>,
                                       p2: seq<string>)
    requires |s1| == |p1| && |s2| == |p2|
    ensures Climb(h, start, s1 + s2, p1 + p2) == Climb(h, Climb(h, start, s1, p1), s2, p2)
    decreases |p2|
  {
    if p2 == [] {
      assert s1 + s2 == s1 && p1 + p2 == p1;
    } else {
      var t := |p2| - 1;
      ClimbAppend(h, start, s1, p1, s2[..t], p2[..t]);
      assert (p1 + p2)[..|p1| + t] == p1 + p2[..t] && (s1 + s2)[..|p1| + t] == s1 + s2[..t];
    }
  }

  lemma {:induction false} ClimbInjective(h: Hasher, x: string, y: string, sides: seq<Side>, p: seq<string>,
                                          q: seq<string>)
    requires CollisionFree(h) && |sides| == |p| == |q|
    requires Climb(h, x, sides, p) == Climb(h, y, sides, q)
    ensures x == y && p == q
    decreases |p|
  {
    if p != [] {
      var t := |p| - 1;
      ClimbInjective(h, x, y, sides[..t], p[..t], q[..t]);
      assert p == p[..t] + [p[t]] && q == q[..t] + [q[t]];
    }
  }

  /** Accepted proofs of one length agree on digest and path, whatever the root. */
  lemma {:induction false} SameLengthUnique(
    h: Hasher, m: nat, n: nat, root: string, d: string, p: seq<string>, d': string, p': seq<string>)
    requires CollisionFree(h) && m < n && |p| == |p'|
    requires InclusionAccepted(h, d, m, n, p, root) && InclusionAccepted(h, d', m, n, p', root)
    ensures d == d' && p == p'
  {
    ClimbInjective(h, h.leaf(d), h.leaf(d'), SidesTaken(m, n - 1, |p|), p, p');
  }

  /** The topmost left turn on the way to a leaf that is not the last. */
  lemma {:induction false} TopmostLeft(m: nat, n: nat) returns (i: nat)
    requires m + 1 < n
    ensures i < |LeafSides(m, n)| && LeafSides(m, n)[i] == Left
    ensures forall j :: i < j < |LeafSides(m, n)| ==> LeafSides(m, n)[j] == Right
    decreases n
  {
    hide SplitExp, Pow2;
    var k := Split(n);
    if m < k {
      i := |LeafSides(m, k)|;
      assert LeafSides(m, n) == LeafSides(m, k) + [Left];
    } else {
      i := TopmostLeft(m - k, n - k);
      assert LeafSides(m, n) == LeafSides(m - k, n - k) + [Right];
    }
  }

  lemma {:induction false} LastLeafTurnsRight(n: nat)
    requires 1 <= n
    ensures LeafSides(n - 1, n) == Rights(|LeafSides(n - 1, n)|)
    decreases n
  {
    hide SplitExp, Pow2;
    if n > 1 {
      var k := Split(n);
      LastLeafTurnsRight(n - k);
      assert LeafSides(n - 1, n) == LeafSides(n - k - 1, n - k) + [Right];
    }
  }

  /** A run of right turns reaches a leaf hash at one depth only. */
  lemma {:induction false} OneDepth(h: Hasher, d: string, p: seq<string>, d': string, p': seq<string>)
    requires CollisionFree(h)
    requires Climb(h, h.leaf(d), Rights(|p|), p) == Climb(h, h.leaf(d'), Rights(|p'|), p')
    ensures |p| == |p'|
    decreases |p|
  {
    if p != [] && p' != [] {
      var t, t' := |p| - 1, |p'| - 1;
      assert Rights(|p|)[..t] == Rights(t) && Rights(|p'|)[..t'] == Rights(t');
      OneDepth(h, d, p[..t], d', p'[..t']);
    }
  }

  lemma SidesAre(m: nat, n: nat, len: nat)
    requires m < n
    ensures Registers(m, n - 1, len).1 == 0 <==> |LeafSides(m, n)| <= len
    ensures |LeafSides(m, n)| <= len ==>
              SidesTaken(m, n - 1, len) == LeafSides(m, n) + Rights(len - |LeafSides(m, n)|)
  {
    hide WalkSides, LeafSides, Registers, SidesTaken;
    WalkIsLeafSides(m, n);
    SidesTakenIsWalk(m, n - 1, len);
    var w := LeafSides(m, n);
    assert w[..|w|] == w && w + Rights(0) == w;
  }

  /** At the last index all accepted proofs of one root agree, of whatever lengths. */
  lemma {:induction false} LastIndexUnique(
    h: Hasher, n: nat, root: string, d: string, p: seq<string>, d': string, p': seq<string>)
    requires CollisionFree(h) && 1 <= n
    requires InclusionAccepted(h, d, n - 1, n, p, root) && InclusionAccepted(h, d', n - 1, n, p', root)
    ensures d == d' && p == p'
  {
    hide LeafSides, WalkSides, Climb, Registers, SidesTaken;
    var w := |LeafSides(n - 1, n)|;
    LastLeafTurnsRight(n);
    SidesAre(n - 1, n, |p|);
    SidesAre(n - 1, n, |p'|);
    assert Rights(w) + Rights(|p| - w) == Rights(|p|) && Rights(w) + Rights(|p'| - w) == Rights(|p'|);
    OneDepth(h, d, p, d', p');
    SameLengthUnique(h, n - 1, n, root, d, p, d', p');
  }

  /** Siblings that are hashes, like those of a real path. */
  function Filler(h: Hasher, n: nat): seq<string> { seq(n, _ => h.leaf("")) }

  /** At every other index, any two digests have accepted proofs of any two different
      admissible lengths under a common root. */
  lemma {:induction false} OtherIndexAmbiguous(h: Hasher, m: nat, n: nat, d: string, d': string, len: nat, len': nat)
    returns (root: string, p: seq<string>, p': seq<string>)
    requires m + 1 < n && |LeafSides(m, n)| <= len < len'
    ensures |p| == len && |p'| == len'
    ensures InclusionAccepted(h, d, m, n, p, root) && InclusionAccepted(h, d', m, n, p', root)
  {
    var i := TopmostLeft(m, n);
    hide LeafSides, Climb, Registers, SidesTaken;
    SidesAre(m, n, len);
    SidesAre(m, n, len');
    var s, s' := SidesTaken(m, n - 1, len), SidesTaken(m, n - 1, len');
    var i' := i + (len' - len);
    var low, low' := Filler(h, i), Filler(h, i');
    var a, b := Climb(h, h.leaf(d), s[..i], low), Climb(h, h.leaf(d'), s'[..i'], low');
    var top := Filler(h, len - i - 1);
    assert s == s[..i] + [Left] + Rights(|top|);
    assert s' == s'[..i'] + [Right] + Rights(|top|);
    p, p' := low + [b] + top, low' + [a] + top;
    ClimbSnoc(h, h.leaf(d), s[..i], low, Left, b);
    ClimbSnoc(h, h.leaf(d'), s'[..i'], low', Right, a);
    ClimbAppend(h, h.leaf(d), s[..i] + [Left], low + [b], Rights(|top|), top);
    ClimbAppend(h, h.leaf(d'), s'[..i'] + [Right], low' + [a], Rights(|top|), top);
    root := Climb(h, h.node(a, b), Rights(|top|), top);
  }

  /** No root carries two digests at one index by proofs of these two lengths. */
  ghost predicate DigestUnique(h: Hasher, m: nat, n: nat, len: nat, len': nat)
    requires m < n
  {
    forall root, d, p, d', p' ::
      && |p| == len && |p'| == len'
      && InclusionAccepted(h, d, m, n, p, root) && InclusionAccepted(h, d', m, n, p', root)
      ==> d == d'
  }

  /** Exactly when it holds: the two lengths are equal, the index is the last one, or
      one of the lengths is too short to be accepted at all. */
  lemma {:induction false} DigestUniqueIff(h: Hasher, m: nat, n: nat, len: nat, len': nat)
    requires CollisionFree(h) && m < n
    ensures DigestUnique(h, m, n, len, len') <==>
              len == len' || m == n - 1 || len < |LeafSides(m, n)| || len' < |LeafSides(m, n)|
  {
    hide InclusionAccepted;
    if len == len' || m == n - 1 || len < |LeafSides(m, n)| || len' < |LeafSides(m, n)| {
      forall root, d, p, d', p' |
        && |p| == len && |p'| == len'
        && InclusionAccepted(h, d, m, n, p, root) && InclusionAccepted(h, d', m, n, p', root)
        ensures d == d'
      {
        TooShort(h, d, m, n, p, root);
        TooShort(h, d', m, n, p', root);
        if len == len' {
          SameLengthUnique(h, m, n, root, d, p, d', p');
        } else {
          LastIndexUnique(h, n, root, d, p, d', p');
        }
      }
    } else {
      var root, p, p';
      if len < len' {
        root, p, p' := OtherIndexAmbiguous(h, m, n, "a", "b", len, len');
      } else {
        root, p', p := OtherIndexAmbiguous(h, m, n, "b", "a", len', len);
      }
      assert InclusionAccepted(h, "a", m, n, p, root) && InclusionAccepted(h, "b", m, n, p', root);
    }
  }

  lemma TooShort(h: Hasher, d: string, m: nat, n: nat, p: seq<string>, root: string)
    requires m < n && InclusionAccepted(h, d, m, n, p, root)
    ensures |LeafSides(m, n)| <= |p|
  {
    SidesAre(m, n, |p|);
  }
}

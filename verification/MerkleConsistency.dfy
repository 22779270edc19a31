/** What it means for a consistency path to check out against two genuine roots. */
module MerkleConsistency {
  import opened Merkle
  import opened MerkleProofs

  /** Root of the complete subtree that ends at leaf `m - 1`. */
  function StoppingRoot(h: Hasher, m: nat, leaves: seq<string>): string
    requires 1 <= m <= |leaves|
    decreases |leaves|
  {
    if m == |leaves| then Root(h, leaves)
    else
      var k := Split(|leaves|);
      if m <= k then StoppingRoot(h, m, leaves[..k]) else StoppingRoot(h, m - k, leaves[k..])
  }

  /** Its siblings on the way to the root. */
  function SiblingPath(h: Hasher, m: nat, leaves: seq<string>): (path: seq<string>)
    requires 1 <= m <= |leaves|
    decreases |leaves|
  {
    if m == |leaves| then []
    else
      var k := Split(|leaves|);
      if m <= k then SiblingPath(h, m, leaves[..k]) + [Root(h, leaves[k..])]
      else SiblingPath(h, m - k, leaves[k..]) + [Root(h, leaves[..k])]
  }

  lemma {:induction false} UnknownSubProof(h: Hasher, m: nat, leaves: seq<string>)
    requires 1 <= m <= |leaves|
    ensures SubProof(h, m, leaves, false) == [StoppingRoot(h, m, leaves)] + SiblingPath(h, m, leaves)
    decreases |leaves|
  {
    if m < |leaves| {
      var k := Split(|leaves|);
      if m <= k { UnknownSubProof(h, m, leaves[..k]); } else { UnknownSubProof(h, m - k, leaves[k..]); }
    }
  }

  /** The published proof leads with the stopping root unless it is the old root itself. */
  lemma {:induction false} ProofShape(h: Hasher, m: nat, leaves: seq<string>)
    requires 1 <= m <= |leaves|
    ensures ConsistencyProof(h, m, leaves)
         == (if Right in PrefixSides(m, |leaves|) then [StoppingRoot(h, m, leaves)] else []) + SiblingPath(h, m, leaves)
    decreases |leaves|
  {
    hide SplitExp, Pow2, Root;
    var n := |leaves|;
    if m < n {
      var k := Split(n);
      if m <= k {
        assert PrefixSides(m, n) == PrefixSides(m, k) + [Left];
        ProofShape(h, m, leaves[..k]);
      } else {
        assert PrefixSides(m, n) == PrefixSides(m - k, n - k) + [Right];
        assert PrefixSides(m, n)[|PrefixSides(m - k, n - k)|] == Right;
        UnknownSubProof(h, m - k, leaves[k..]);
      }
    }
  }

  /** The new root climbs from the stopping root through every sibling. */
  lemma {:induction false} SiblingsClimb(h: Hasher, m: nat, leaves: seq<string>)
    requires 1 <= m <= |leaves|
    ensures |SiblingPath(h, m, leaves)| == |PrefixSides(m, |leaves|)|
    ensures Climb(h, StoppingRoot(h, m, leaves), PrefixSides(m, |leaves|), SiblingPath(h, m, leaves)) == Root(h, leaves)
    decreases |leaves|
  {
    hide SplitExp, Pow2, Climb;
    var n := |leaves|;
    if m < n {
      var k := Split(n);
      if m <= k {
        SiblingsClimb(h, m, leaves[..k]);
        ClimbSnoc(h, StoppingRoot(h, m, leaves), PrefixSides(m, k), SiblingPath(h, m, leaves[..k]), Left,
                  Root(h, leaves[k..]));
      } else {
        SiblingsClimb(h, m - k, leaves[k..]);
        ClimbSnoc(h, StoppingRoot(h, m, leaves), PrefixSides(m - k, n - k), SiblingPath(h, m - k, leaves[k..]), Right,
                  Root(h, leaves[..k]));
      }
    } else {
      EmptyClimb(h, StoppingRoot(h, m, leaves));
    }
  }

  lemma EmptyClimb(h: Hasher, start: string)
    ensures Climb(h, start, [], []) == start && ClimbOld(h, start, [], []) == start
  {
  }

  lemma {:induction false} PrefixRoot(h: Hasher, m: nat, leaves: seq<string>)
    requires 1 <= m <= |leaves| && |leaves| >= 2 && Split(|leaves|) < m
    ensures var k := Split(|leaves|);
            Root(h, leaves[..m]) == h.node(Root(h, leaves[..k]), Root(h, leaves[k..][..m - k]))
  {
    hide SplitExp;
    var k := Split(|leaves|);
    SplitExpUnique(m, SplitExp(|leaves|));
    assert Split(m) == k;
    assert leaves[..m][..k] == leaves[..k] && leaves[..m][k..] == leaves[k..][..m - k];
  }

  /** The old root climbs from it through the left siblings alone. */
  lemma {:induction false} LeftSiblingsClimb(h: Hasher, m: nat, leaves: seq<string>)
    requires 1 <= m <= |leaves|
    ensures |SiblingPath(h, m, leaves)| == |PrefixSides(m, |leaves|)|
    ensures ClimbOld(h, StoppingRoot(h, m, leaves), PrefixSides(m, |leaves|), SiblingPath(h, m, leaves)) ==
            Root(h, leaves[..m])
    decreases |leaves|
  {
    hide SplitExp, Pow2, ClimbOld, Root, Up, Climb;
    var n, base := |leaves|, StoppingRoot(h, m, leaves);
    if m == n {
      EmptyClimb(h, base);
      assert leaves[..m] == leaves;
    } else {
      var k := Split(n);
      if m <= k {
        assert PrefixSides(m, n) == PrefixSides(m, k) + [Left];
        assert SiblingPath(h, m, leaves) == SiblingPath(h, m, leaves[..k]) + [Root(h, leaves[k..])];
        LeftSiblingsClimb(h, m, leaves[..k]);
        ClimbSnoc(h, base, PrefixSides(m, k), SiblingPath(h, m, leaves[..k]), Left, Root(h, leaves[k..]));
        assert leaves[..k][..m] == leaves[..m];
      } else {
        assert PrefixSides(m, n) == PrefixSides(m - k, n - k) + [Right];
        assert SiblingPath(h, m, leaves) == SiblingPath(h, m - k, leaves[k..]) + [Root(h, leaves[..k])];
        LeftSiblingsClimb(h, m - k, leaves[k..]);
        ClimbSnoc(h, base, PrefixSides(m - k, n - k), SiblingPath(h, m - k, leaves[k..]), Right, Root(h, leaves[..k]));
        PrefixRoot(h, m, leaves);
      }
    }
  }

  /** How the sibling path of a tree comes from those of its halves. */
  lemma PrefixStep(h: Hasher, m: nat, leaves: seq<string>)
    requires 1 <= m < |leaves|
    ensures var n, k := |leaves|, Split(|leaves|);
            && Root(h, leaves) == h.node(Root(h, leaves[..k]), Root(h, leaves[k..]))
            && (m <= k ==>
                  && PrefixSides(m, n) == PrefixSides(m, k) + [Left]
                  && SiblingPath(h, m, leaves) == SiblingPath(h, m, leaves[..k]) + [Root(h, leaves[k..])]
                  && StoppingRoot(h, m, leaves) == StoppingRoot(h, m, leaves[..k]))
            && (m > k ==>
                  && PrefixSides(m, n) == PrefixSides(m - k, n - k) + [Right]
                  && SiblingPath(h, m, leaves) == SiblingPath(h, m - k, leaves[k..]) + [Root(h, leaves[..k])]
                  && StoppingRoot(h, m, leaves) == StoppingRoot(h, m - k, leaves[k..]))
  {
    hide SplitExp, Pow2;
  }

  lemma PrefixBase(h: Hasher, leaves: seq<string>)
    requires leaves != []
    ensures PrefixSides(|leaves|, |leaves|) == [] && SiblingPath(h, |leaves|, leaves) == []
    ensures StoppingRoot(h, |leaves|, leaves) == Root(h, leaves)
  {
  }

  /** A path of the right length that climbs to the new root is the sibling path. */
  lemma {:induction false} ClimbForcesSiblings(h: Hasher, start: string, m: nat, leaves: seq<string>, path: seq<string>)
    requires CollisionFree(h) && 1 <= m <= |leaves| && |path| == |PrefixSides(m, |leaves|)|
    requires Climb(h, start, PrefixSides(m, |leaves|), path) == Root(h, leaves)
    ensures path == SiblingPath(h, m, leaves) && start == StoppingRoot(h, m, leaves)
    decreases |leaves|
  {
    hide Split, Root, PrefixSides, SiblingPath, StoppingRoot;
    var n := |leaves|;
    if m == n {
      PrefixBase(h, leaves);
    } else {
      var k := Split(n);
      PrefixStep(h, m, leaves);
      hide Climb;
      var front, last := path[..|path| - 1], path[|path| - 1];
      assert path == front + [last];
      if m <= k {
        ClimbSnoc(h, start, PrefixSides(m, k), front, Left, last);
        ClimbForcesSiblings(h, start, m, leaves[..k], front);
      } else {
        ClimbSnoc(h, start, PrefixSides(m - k, n - k), front, Right, last);
        ClimbForcesSiblings(h, start, m - k, leaves[k..], front);
      }
    }
  }

  /** The path check of the consistency verifier for `0 < m < n`. */
  ghost predicate ConsistencyAccepted(h: Hasher, m: nat, n: nat, path: seq<string>, oldRoot: string, newRoot: string)
    requires 1 <= m < n
  {
    var s := DropOnes(m - 1, n - 1);
    var own := if s.0 == 0 then 0 else 1;
    && own <= |path|
    && var start := if s.0 == 0 then oldRoot else path[0];
    var rest := path[own..];
    && |rest| == |WalkSides(s.0, s.1)|
    && ClimbOld(h, start, WalkSides(s.0, s.1), rest) == oldRoot
    && Climb(h, start, WalkSides(s.0, s.1), rest) == newRoot
  }

  /** The same check read off the tree instead of the registers. */
  lemma {:induction false} AcceptedByShape(h: Hasher, m: nat, n: nat, path: seq<string>, oldRoot: string,
                                           newRoot: string)
    requires 1 <= m < n
    ensures var sides := PrefixSides(m, n);
            var own := if Right in sides then 1 else 0;
            ConsistencyAccepted(h, m, n, path, oldRoot, newRoot) <==>
            && own <= |path| && |path| - own == |sides|
            && var start := if own == 0 then oldRoot else path[0];
            && ClimbOld(h, start, sides, path[own..]) == oldRoot
            && Climb(h, start, sides, path[own..]) == newRoot
  {
    hide WalkSides, PrefixSides, DropOnes, Climb, ClimbOld;
    WalkIsPrefixSides(m, n);
    StartIsLeftEdge(m, n);
  }

  lemma {:induction false} ConsistencyComplete(h: Hasher, m: nat, leaves: seq<string>)
    requires 1 <= m < |leaves|
    ensures ConsistencyAccepted(h, m, |leaves|, ConsistencyProof(h, m, leaves), Root(h, leaves[..m]), Root(h, leaves))
  {
    hide ConsistencyAccepted, PrefixSides, Climb, SiblingPath, StoppingRoot, Root, ConsistencyProof;
    var path, sides := ConsistencyProof(h, m, leaves), PrefixSides(m, |leaves|);
    AcceptedByShape(h, m, |leaves|, path, Root(h, leaves[..m]), Root(h, leaves));
    ProofShape(h, m, leaves);
    SiblingsClimb(h, m, leaves);
    LeftSiblingsClimb(h, m, leaves);
    if Right in sides {
      assert path[1..] == SiblingPath(h, m, leaves);
    } else {
      assert path[0..] == SiblingPath(h, m, leaves);
      NoRightKeepsStart(h, StoppingRoot(h, m, leaves), sides, SiblingPath(h, m, leaves));
    }
  }

  lemma {:induction false} NoRightKeepsStart(h: Hasher, start: string, sides: seq<Side>, path: seq<string>)
    requires |sides| == |path| && Right !in sides
    ensures ClimbOld(h, start, sides, path) == start
    decreases |path|
  {
    if path != [] { NoRightKeepsStart(h, start, sides[..|path| - 1], path[..|path| - 1]); }
  }

  /** Between two genuine roots the verifier accepts exactly when the old leaves are a
      prefix of the new ones and the path is the published consistency proof. */
  lemma {:induction false} ConsistencyExact(h: Hasher, before: seq<string>, after: seq<string>, path: seq<string>)
    requires CollisionFree(h) && 1 <= |before| < |after|
    ensures ConsistencyAccepted(h, |before|, |after|, path, Root(h, before), Root(h, after))
       <==> before == after[..|before|] && path == ConsistencyProof(h, |before|, after)
  {
    hide ConsistencyAccepted, PrefixSides, Climb, ClimbOld, SiblingPath, StoppingRoot, Root, ConsistencyProof;
    var m, n := |before|, |after|;
    ConsistencyComplete(h, m, after);
    if ConsistencyAccepted(h, m, n, path, Root(h, before), Root(h, after)) {
      var sides := PrefixSides(m, n);
      var own := if Right in sides then 1 else 0;
      AcceptedByShape(h, m, n, path, Root(h, before), Root(h, after));
      var start := if own == 0 then Root(h, before) else path[0];
      ClimbForcesSiblings(h, start, m, after, path[own..]);
      LeftSiblingsClimb(h, m, after);
      RootInjective(h, before, after[..m]);
      ProofShape(h, m, after);
    }
  }
}

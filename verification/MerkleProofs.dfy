/** What it means for an audit path or a consistency path to check out against a
    genuine tree root. */
module MerkleProofs {
  import opened Merkle

  // ------------------------------------------------ registers after i siblings

  function Registers(fn: nat, sn: nat, i: nat): (r: (nat, nat))
    requires fn <= sn
    ensures r.0 <= r.1
    decreases i
  {
    if i == 0 then (fn, sn)
    else
      var s := Registers(fn, sn, i - 1);
      Advance(s.0, s.1)
  }

  function SidesTaken(fn: nat, sn: nat, i: nat): (r: seq<Side>)
    requires fn <= sn
    ensures |r| == i
    decreases i
  {
    if i == 0 then []
    else
      var s := Registers(fn, sn, i - 1);
      SidesTaken(fn, sn, i - 1) + [SideOf(s.0, s.1)]
  }

  function Rights(e: nat): (r: seq<Side>)
    ensures |r| == e && forall i :: 0 <= i < e ==> r[i] == Right
  {
    seq(e, _ => Right)
  }

  lemma {:induction false} RegistersFront(fn: nat, sn: nat, i: nat)
    requires fn <= sn
    ensures var s := Advance(fn, sn);
            Registers(fn, sn, i + 1) == Registers(s.0, s.1, i)
            && SidesTaken(fn, sn, i + 1) == [SideOf(fn, sn)] + SidesTaken(s.0, s.1, i)
    decreases i
  {
    hide Advance, SideOf;
    if i == 0 {
      assert SidesTaken(fn, sn, 1) == SidesTaken(fn, sn, 0) + [SideOf(fn, sn)];
    } else {
      RegistersFront(fn, sn, i - 1);
    }
  }

  /** The registers follow `WalkSides`, and run on as right turns past its end. */
  lemma {:induction false} SidesTakenIsWalk(fn: nat, sn: nat, i: nat)
    requires fn <= sn
    ensures var w := WalkSides(fn, sn);
            && (Registers(fn, sn, i).1 == 0 <==> |w| <= i)
            && SidesTaken(fn, sn, i) == if i <= |w| then w[..i] else w + Rights(i - |w|)
    decreases i
  {
    if i > 0 {
      var s := Advance(fn, sn);
      hide Advance;
      RegistersFront(fn, sn, i - 1);
      SidesTakenIsWalk(s.0, s.1, i - 1);
      if sn == 0 {
        assert SideOf(fn, sn) == Right;
        assert [Right] + Rights(i - 1) == Rights(i);
      }
    }
  }

  // ------------------------------------------------------------- inclusion

  /** The audit-path check of the inclusion verifier. */
  ghost predicate InclusionAccepted(h: Hasher, digest: string, m: nat, n: nat, path: seq<string>, root: string)
    requires m < n
  {
    && Registers(m, n - 1, |path|).1 == 0
    && Climb(h, h.leaf(digest), SidesTaken(m, n - 1, |path|), path) == root
  }

  lemma {:induction false} ClimbSnoc(h: Hasher, start: string, sides: seq<Side>, path: seq<string>, side: Side,
                                     sib: string)
    requires |sides| == |path|
    ensures Climb(h, start, sides + [side], path + [sib]) == Up(h, side, Climb(h, start, sides, path), sib)
    ensures ClimbOld(h, start, sides + [side], path + [sib])
         == if side.Right? then h.node(sib, ClimbOld(h, start, sides, path)) else ClimbOld(h, start, sides, path)
  {
    assert (path + [sib])[..|path|] == path && (sides + [side])[..|path|] == sides;
  }

  /** How roots, paths and sides of a tree come from those of its halves. */
  lemma TreeStep(h: Hasher, m: nat, leaves: seq<string>)
    requires m < |leaves| && |leaves| > 1
    ensures var n, k := |leaves|, Split(|leaves|);
            && Root(h, leaves) == h.node(Root(h, leaves[..k]), Root(h, leaves[k..]))
            && (m < k ==>
                  && LeafSides(m, n) == LeafSides(m, k) + [Left] && leaves[m] == leaves[..k][m]
                  && AuditPath(h, m, leaves) == AuditPath(h, m, leaves[..k]) + [Root(h, leaves[k..])])
            && (m >= k ==>
                  && LeafSides(m, n) == LeafSides(m - k, n - k) + [Right] && leaves[m] == leaves[k..][m - k]
                  && AuditPath(h, m, leaves) == AuditPath(h, m - k, leaves[k..]) + [Root(h, leaves[..k])])
  {
    hide SplitExp, Pow2;
  }

  lemma LeafStep(h: Hasher, leaves: seq<string>)
    requires |leaves| == 1
    ensures Root(h, leaves) == h.leaf(leaves[0]) && LeafSides(0, 1) == [] && AuditPath(h, 0, leaves) == []
  {
  }

  lemma {:induction false} AuditPathClimbs(h: Hasher, m: nat, leaves: seq<string>)
    requires m < |leaves|
    ensures |AuditPath(h, m, leaves)| == |LeafSides(m, |leaves|)|
    ensures Climb(h, h.leaf(leaves[m]), LeafSides(m, |leaves|), AuditPath(h, m, leaves)) == Root(h, leaves)
    decreases |leaves|
  {
    hide Root, AuditPath, LeafSides, Split;
    var n := |leaves|;
    if n == 1 {
      LeafStep(h, leaves);
    } else {
      var k := Split(n);
      TreeStep(h, m, leaves);
      hide Climb;
      if m < k {
        AuditPathClimbs(h, m, leaves[..k]);
        ClimbSnoc(h, h.leaf(leaves[m]), LeafSides(m, k), AuditPath(h, m, leaves[..k]), Left, Root(h, leaves[k..]));
      } else {
        AuditPathClimbs(h, m - k, leaves[k..]);
        ClimbSnoc(h, h.leaf(leaves[m]), LeafSides(m - k, n - k), AuditPath(h, m - k, leaves[k..]), Right,
                  Root(h, leaves[..k]));
      }
    }
  }

  /** A path of the right length that climbs to the root is the audit path. */
  lemma {:induction false} ClimbForcesAuditPath(h: Hasher, start: string, m: nat, leaves: seq<string>,
                                                path: seq<string>)
    requires CollisionFree(h) && m < |leaves| && |path| == |LeafSides(m, |leaves|)|
    requires Climb(h, start, LeafSides(m, |leaves|), path) == Root(h, leaves)
    ensures path == AuditPath(h, m, leaves) && start == h.leaf(leaves[m])
    decreases |leaves|
  {
    hide Root, AuditPath, LeafSides, Split;
    var n := |leaves|;
    if n == 1 {
      LeafStep(h, leaves);
    } else {
      var k := Split(n);
      TreeStep(h, m, leaves);
      hide Climb;
      var front, last := path[..|path| - 1], path[|path| - 1];
      assert path == front + [last];
      if m < k {
        ClimbSnoc(h, start, LeafSides(m, k), front, Left, last);
        ClimbForcesAuditPath(h, start, m, leaves[..k], front);
      } else {
        ClimbSnoc(h, start, LeafSides(m - k, n - k), front, Right, last);
        ClimbForcesAuditPath(h, start, m - k, leaves[k..], front);
      }
    }
  }

  /** A leaf hash sits at depth at most `j` in a tree of at most `2^j` leaves. */
  lemma {:induction false} DepthBound(h: Hasher, digest: string, sides: seq<Side>, path: seq<string>,
                                      leaves: seq<string>, j: nat)
    requires CollisionFree(h) && |sides| == |path| && 1 <= |leaves| <= Pow2(j)
    requires Climb(h, h.leaf(digest), sides, path) == Root(h, leaves)
    ensures |path| <= j
    decreases j
  {
    hide SplitExp;
    if |path| > 0 && |leaves| > 1 {
      var k, t := Split(|leaves|), |path| - 1;
      assert Climb(h, h.leaf(digest), sides, path) ==
             Up(h, sides[t], Climb(h, h.leaf(digest), sides[..t], path[..t]), path[t]);
      if j <= SplitExp(|leaves|) {
        if j < SplitExp(|leaves|) { Pow2Monotone(j, SplitExp(|leaves|)); }
        assert false;
      }
      if SplitExp(|leaves|) < j - 1 { Pow2Monotone(SplitExp(|leaves|), j - 1); }
      if sides[t].Left? {
        DepthBound(h, digest, sides[..t], path[..t], leaves[..k], j - 1);
      } else {
        DepthBound(h, digest, sides[..t], path[..t], leaves[k..], j - 1);
      }
    }
  }

  /** Size of the subtree reached from an `n`-leaf tree by `e` right turns; 0 when there is none. */
  function RightSpine(n: nat, e: nat): nat
    decreases e
  {
    if e == 0 then n else if n <= 1 then 0 else RightSpine(n - Split(n), e - 1)
  }

  lemma SpineOfLeaf(n: nat, e: nat)
    ensures n <= 1 ==> RightSpine(n, e) <= 1
  {
  }

  lemma {:induction false} RightSpineSnoc(n: nat, e: nat)
    requires n >= 2
    ensures RightSpine(n, e + 1) == if RightSpine(n, e) <= 1 then 0 else RightSpine(n, e) - Split(RightSpine(n, e))
    ensures RightSpine(n, e + 1) <= n - Split(n)
    decreases e
  {
    if e > 0 && n - Split(n) >= 2 { RightSpineSnoc(n - Split(n), e - 1); }
  }

  lemma {:induction false} LeafSidesOfPow2(m: nat, j: nat)
    requires m < Pow2(j)
    ensures |LeafSides(m, Pow2(j))| == j
  {
    hide SplitExp;
    if j > 0 {
      var n, p := Pow2(j), Pow2(j - 1);
      SplitExpUnique(n, j - 1);
      assert Split(n) == p && n - p == p;
      if m < p {
        assert LeafSides(m, n) == LeafSides(m, p) + [Left];
        LeafSidesOfPow2(m, j - 1);
      } else {
        assert LeafSides(m, n) == LeafSides(m - p, p) + [Right];
        LeafSidesOfPow2(m - p, j - 1);
      }
    }
  }

  /** A leaf in the left half lies deeper than every leaf of a smaller right half. */
  lemma {:induction false} LeftLeafTooDeep(h: Hasher, digest: string, m: nat, n: nat, path: seq<string>,
                                           sub: seq<string>)
    requires CollisionFree(h) && n >= 2 && m < Split(n) && 1 <= |sub| <= n - Split(n)
    requires |path| == |LeafSides(m, n)|
    ensures Climb(h, h.leaf(digest), LeafSides(m, n), path) != Root(h, sub)
  {
    hide Climb, Root, SplitExp, Pow2;
    assert LeafSides(m, n) == LeafSides(m, Split(n)) + [Left];
    LeafSidesOfPow2(m, SplitExp(n));
    hide LeafSides;
    if Climb(h, h.leaf(digest), LeafSides(m, n), path) == Root(h, sub) {
      DepthBound(h, digest, LeafSides(m, n), path, sub, SplitExp(n));
    }
  }

  /** The way down to a leaf of an `n`-leaf tree is not the way down to any leaf
      of a proper subtree on its right spine. */
  lemma {:induction false} NoLeafOnSpine(h: Hasher, digest: string, m: nat, n: nat, e: nat, path: seq<string>,
                                         sub: seq<string>)
    requires CollisionFree(h) && m < n && 1 <= e && |sub| == RightSpine(n, e) && |sub| >= 1
    requires |path| == |LeafSides(m, n)|
    ensures Climb(h, h.leaf(digest), LeafSides(m, n), path) != Root(h, sub)
    decreases n
  {
    hide SplitExp, Pow2, Climb;
    assert n >= 2;
    var k, t := Split(n), |path| - 1;
    RightSpineSnoc(n, e - 1);
    if m < k {
      LeftLeafTooDeep(h, digest, m, n, path, sub);
    } else {
      assert LeafSides(m, n) == LeafSides(m - k, n - k) + [Right];
      assert path == path[..t] + [path[t]];
      ClimbSnoc(h, h.leaf(digest), LeafSides(m - k, n - k), path[..t], Right, path[t]);
      RightSpineSnoc(n, e);
      if |sub| >= 2 { NoLeafOnSpine(h, digest, m - k, n - k, e, path[..t], sub[Split(|sub|)..]); }
    }
  }

  lemma RootStep(h: Hasher, sub: seq<string>)
    requires sub != []
    ensures |sub| == 1 ==> Root(h, sub) == h.leaf(sub[0])
    ensures |sub| > 1 ==>
              var k := Split(|sub|);
              0 < k < |sub| && Root(h, sub) == h.node(Root(h, sub[..k]), Root(h, sub[k..]))
  {
  }

  /** Siblings past the end of an audit path never lead to a genuine root. */
  lemma {:induction false} NoOverlongPath(h: Hasher, digest: string, m: nat, n: nat, e: nat, extra: nat,
                                          path: seq<string>, sub: seq<string>)
    requires CollisionFree(h) && m < n && |sub| == RightSpine(n, e) && |sub| >= 1 && e + extra >= 1
    requires |path| == |LeafSides(m, n)| + extra
    ensures Climb(h, h.leaf(digest), LeafSides(m, n) + Rights(extra), path) != Root(h, sub)
    decreases extra
  {
    hide Climb, Root, LeafSides, Split, RightSpine;
    var sides := LeafSides(m, n) + Rights(extra);
    RootStep(h, sub);
    if extra == 0 {
      assert sides == LeafSides(m, n);
      NoLeafOnSpine(h, digest, m, n, e, path, sub);
    } else {
      var t := |path| - 1;
      assert sides == (LeafSides(m, n) + Rights(extra - 1)) + [Right];
      assert path == path[..t] + [path[t]];
      ClimbSnoc(h, h.leaf(digest), LeafSides(m, n) + Rights(extra - 1), path[..t], Right, path[t]);
      SpineOfLeaf(n, e);
      if |sub| >= 2 {
        RightSpineSnoc(n, e);
        NoOverlongPath(h, digest, m, n, e + 1, extra - 1, path[..t], sub[Split(|sub|)..]);
      }
    }
  }

  /** Genuine audit paths are accepted, whatever the hash function. */
  lemma {:induction false} InclusionComplete(h: Hasher, m: nat, leaves: seq<string>)
    requires m < |leaves|
    ensures InclusionAccepted(h, leaves[m], m, |leaves|, AuditPath(h, m, leaves), Root(h, leaves))
  {
    hide Climb, Root, WalkSides, LeafSides, AuditPath, Registers, SidesTaken;
    AuditPathClimbs(h, m, leaves);
    WalkIsLeafSides(m, |leaves|);
    var w := LeafSides(m, |leaves|);
    SidesTakenIsWalk(m, |leaves| - 1, |w|);
    assert w[..|w|] == w;
  }

  /** Against a genuine root the verifier accepts one digest and one path per index:
      the leaf that is there and its audit path. */
  lemma {:induction false} InclusionExact(h: Hasher, digest: string, m: nat, leaves: seq<string>, path: seq<string>)
    requires CollisionFree(h) && m < |leaves|
    ensures InclusionAccepted(h, digest, m, |leaves|, path, Root(h, leaves))
       <==> digest == leaves[m] && path == AuditPath(h, m, leaves)
  {
    hide Climb, Root, WalkSides, LeafSides, AuditPath, Registers, SidesTaken;
    var n := |leaves|;
    var w := LeafSides(m, n);
    InclusionComplete(h, m, leaves);
    if InclusionAccepted(h, digest, m, n, path, Root(h, leaves)) {
      WalkIsLeafSides(m, n);
      SidesTakenIsWalk(m, n - 1, |path|);
      if |path| > |w| {
        NoOverlongPath(h, digest, m, n, 0, |path| - |w|, path, leaves);
      } else {
        assert w[..|path|] == w;
        ClimbForcesAuditPath(h, h.leaf(digest), m, leaves, path);
      }
    }
  }
}

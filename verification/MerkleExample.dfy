/** The tree of seven leaves that section 2.1.5 of RFC 9162 works through: its root, and the
    audit paths and consistency proofs given there. */
module MerkleExample {
  import opened Merkle

  lemma {:induction false} JoinedRoot(h: Hasher, x: seq<string>, y: seq<string>)
    requires |y| >= 1 && |x| + |y| >= 2 && Split(|x| + |y|) == |x|
    ensures Root(h, x + y) == h.node(Root(h, x), Root(h, y))
  {
    hide Split;
    assert (x + y)[..|x|] == x && (x + y)[|x|..] == y;
  }

  lemma {:induction false} JoinedPath(h: Hasher, x: seq<string>, y: seq<string>, m: nat)
    requires |y| >= 1 && |x| + |y| >= 2 && Split(|x| + |y|) == |x| && m < |x| + |y|
    ensures AuditPath(h, m, x + y) ==
            if m < |x| then AuditPath(h, m, x) + [Root(h, y)] else AuditPath(h, m - |x|, y) + [Root(h, x)]
  {
    hide Split, Root;
    assert (x + y)[..|x|] == x && (x + y)[|x|..] == y;
  }

  lemma {:induction false} JoinedProof(h: Hasher, x: seq<string>, y: seq<string>, m: nat, known: bool)
    requires |y| >= 1 && |x| + |y| >= 2 && Split(|x| + |y|) == |x| && 1 <= m < |x| + |y|
    ensures SubProof(h, m, x + y, known) ==
            if m <= |x| then SubProof(h, m, x, known) + [Root(h, y)] else SubProof(h, m - |x|, y, false) + [Root(h, x)]
  {
    hide Split, Root;
    assert (x + y)[..|x|] == x && (x + y)[|x|..] == y;
  }

  lemma Splits()
    ensures Split(2) == 1 && Split(3) == 2 && Split(4) == 2 && Split(7) == 4
  {
    assert Pow2(0) == 1 && Pow2(1) == 2 && Pow2(2) == 4;
    SplitExpUnique(3, 1);
    SplitExpUnique(4, 1);
    SplitExpUnique(7, 2);
  }

  lemma Pair(h: Hasher, x: string, y: string)
    ensures Root(h, [x, y]) == h.node(h.leaf(x), h.leaf(y))
    ensures AuditPath(h, 0, [x, y]) == [h.leaf(y)] && AuditPath(h, 1, [x, y]) == [h.leaf(x)]
    ensures forall known :: SubProof(h, 1, [x, y], known) == (if known then [] else [h.leaf(x)]) + [h.leaf(y)]
  {
    hide Split, Root, AuditPath, SubProof;
    Splits();
    OneLeaf(h, x);
    OneLeaf(h, y);
    assert [x, y] == [x] + [y];
    JoinedRoot(h, [x], [y]);
    JoinedPath(h, [x], [y], 0);
    JoinedPath(h, [x], [y], 1);
    forall known { JoinedProof(h, [x], [y], 1, known); }
  }

  /** Leaves d0 to d3, under the node k. */
  lemma Left(h: Hasher, d: seq<string>)
    requires |d| == 4
    ensures var g, x := h.node(h.leaf(d[0]), h.leaf(d[1])), h.node(h.leaf(d[2]), h.leaf(d[3]));
            && Root(h, d) == h.node(g, x)
            && AuditPath(h, 0, d) == [h.leaf(d[1]), x] && AuditPath(h, 3, d) == [h.leaf(d[2]), g]
            && SubProof(h, 3, d, true) == [h.leaf(d[2]), h.leaf(d[3]), g] && SubProof(h, 4, d, true) == []
  {
    hide Split, Root, AuditPath, SubProof;
    Splits();
    var x, y := [d[0], d[1]], [d[2], d[3]];
    Pair(h, d[0], d[1]);
    Pair(h, d[2], d[3]);
    assert d == x + y;
    JoinedRoot(h, x, y);
    JoinedPath(h, x, y, 0);
    JoinedPath(h, x, y, 3);
    JoinedProof(h, x, y, 3, true);
    Whole(h, d);
  }

  /** Leaves d4 to d6, under the node l. */
  lemma Right(h: Hasher, d: seq<string>)
    requires |d| == 3
    ensures var i, j := h.node(h.leaf(d[0]), h.leaf(d[1])), h.leaf(d[2]);
            && Root(h, d) == h.node(i, j)
            && AuditPath(h, 0, d) == [h.leaf(d[1]), j] && AuditPath(h, 2, d) == [i]
            && SubProof(h, 2, d, false) == [i, j]
  {
    hide Split, Root, AuditPath, SubProof;
    Splits();
    var x, y := [d[0], d[1]], [d[2]];
    Pair(h, d[0], d[1]);
    OneLeaf(h, d[2]);
    Whole(h, x);
    assert d == x + y;
    JoinedRoot(h, x, y);
    JoinedPath(h, x, y, 0);
    JoinedPath(h, x, y, 2);
    JoinedProof(h, x, y, 2, false);
  }

  /** d0 to d6 are the leaves, a to f and j their hashes, and g, h, i, k and l the nodes above. */
  lemma {:induction false} SevenLeaves(H: Hasher, d: seq<string>)
    requires |d| == 7
    ensures var a, b, c, e, f := H.leaf(d[0]), H.leaf(d[1]), H.leaf(d[2]), H.leaf(d[4]), H.leaf(d[5]);
            var c', j := H.leaf(d[3]), H.leaf(d[6]);
            var g, h, i := H.node(a, b), H.node(c, c'), H.node(e, f);
            var k, l := H.node(g, h), H.node(i, j);
            && Root(H, d) == H.node(k, l)
            && AuditPath(H, 0, d) == [b, h, l] && AuditPath(H, 3, d) == [c, g, l]
            && AuditPath(H, 4, d) == [f, j, k] && AuditPath(H, 6, d) == [i, k]
            && ConsistencyProof(H, 3, d) == [c, c', g, l] && ConsistencyProof(H, 4, d) == [l]
            && ConsistencyProof(H, 6, d) == [i, j, k]
  {
    hide Split, Root, AuditPath, SubProof;
    Left(H, d[..4]);
    Right(H, d[4..]);
    SevenPaths(H, d[..4], d[4..]);
    SevenProofs(H, d[..4], d[4..]);
    assert d == d[..4] + d[4..];
  }

  lemma {:induction false} SevenPaths(h: Hasher, x: seq<string>, y: seq<string>)
    requires |x| == 4 && |y| == 3
    ensures var k, l := Root(h, x), Root(h, y);
            && Root(h, x + y) == h.node(k, l)
            && AuditPath(h, 0, x + y) == AuditPath(h, 0, x) + [l] && AuditPath(h, 3, x + y) == AuditPath(h, 3, x) + [l]
            && AuditPath(h, 4, x + y) == AuditPath(h, 0, y) + [k] && AuditPath(h, 6, x + y) == AuditPath(h, 2, y) + [k]
  {
    hide Split, Root, AuditPath, SubProof;
    Splits();
    JoinedRoot(h, x, y);
    JoinedPath(h, x, y, 0);
    JoinedPath(h, x, y, 3);
    JoinedPath(h, x, y, 4);
    JoinedPath(h, x, y, 6);
  }

  lemma {:induction false} SevenProofs(h: Hasher, x: seq<string>, y: seq<string>)
    requires |x| == 4 && |y| == 3
    ensures var k, l := Root(h, x), Root(h, y);
            && SubProof(h, 3, x + y, true) == SubProof(h, 3, x, true) + [l]
            && SubProof(h, 4, x + y, true) == SubProof(h, 4, x, true) + [l]
            && SubProof(h, 6, x + y, true) == SubProof(h, 2, y, false) + [k]
  {
    hide Split, Root, AuditPath, SubProof;
    Splits();
    JoinedProof(h, x, y, 3, true);
    JoinedProof(h, x, y, 4, true);
    JoinedProof(h, x, y, 6, true);
  }

  lemma OneLeaf(h: Hasher, x: string)
    ensures Root(h, [x]) == h.leaf(x) && AuditPath(h, 0, [x]) == []
    ensures forall known :: SubProof(h, 1, [x], known) == if known then [] else [h.leaf(x)]
  {
  }

  lemma Whole(h: Hasher, x: seq<string>)
    requires |x| >= 1
    ensures SubProof(h, |x|, x, true) == [] && SubProof(h, |x|, x, false) == [Root(h, x)]
  {
  }
}

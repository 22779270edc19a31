/** The tree hash, audit path and consistency proof of sections 2.1.1 to 2.1.4 of
    RFC 9162, and the bottom-up walk that the transparency verifier makes over them.

    Hashes are strings produced by a `Hasher`.  Results that speak about what a
    verified proof implies ask for a collision-free hasher; results that speak
    about genuine proofs being accepted hold for every hasher. */
module Merkle {

  datatype Hasher = Hasher(leaf: string -> string, node: (string, string) -> string)

  /** No two distinct inputs share a hash, and no leaf hash is a node hash
      (the 0x00 / 0x01 prefixes). */
  ghost predicate CollisionFree(h: Hasher) {
    && (forall a, b :: h.leaf(a) == h.leaf(b) ==> a == b)
    && (forall a, b, c, d :: h.node(a, b) == h.node(c, d) ==> a == c && b == d)
    && (forall a, b, c :: h.leaf(a) != h.node(b, c))
  }

  function Pow2(j: nat): (r: nat)
    ensures r >= 1
  {
    if j == 0 then 1 else 2 * Pow2(j - 1)
  }

  /** The exponent of the largest power of two below `n`. */
  function SplitExp(n: nat): (j: nat)
    requires n >= 2
    ensures Pow2(j) < n <= 2 * Pow2(j)
  {
    if n == 2 then 0 else 1 + SplitExp((n + 1) / 2)
  }

  function Split(n: nat): (k: nat)
    requires n >= 2
    ensures 0 < k < n <= 2 * k
  {
    Pow2(SplitExp(n))
  }

  lemma {:induction false} Pow2Monotone(i: nat, j: nat)
    requires i < j
    ensures 2 * Pow2(i) <= Pow2(j)
  {
    if i + 1 < j { Pow2Monotone(i, j - 1); }
  }

  lemma {:induction false} SplitExpUnique(n: nat, j: nat)
    requires n >= 2 && Pow2(j) < n <= 2 * Pow2(j)
    ensures SplitExp(n) == j
  {
    if SplitExp(n) < j { Pow2Monotone(SplitExp(n), j); }
    if j < SplitExp(n) { Pow2Monotone(j, SplitExp(n)); }
  }

  // ---------------------------------------------------------------- trees

  /** Merkle tree hash of a non-empty list of leaf digests. */
  function Root(h: Hasher, leaves: seq<string>): (r: string)
    requires |leaves| >= 1
    decreases |leaves|
  {
    if |leaves| == 1 then h.leaf(leaves[0])
    else
      var k := Split(|leaves|);
      h.node(Root(h, leaves[..k]), Root(h, leaves[k..]))
  }

  /** Audit path of leaf `m`, nearest sibling first. */
  function AuditPath(h: Hasher, m: nat, leaves: seq<string>): (path: seq<string>)
    requires m < |leaves|
    decreases |leaves|
  {
    if |leaves| == 1 then []
    else
      var k := Split(|leaves|);
      if m < k then AuditPath(h, m, leaves[..k]) + [Root(h, leaves[k..])]
      else AuditPath(h, m - k, leaves[k..]) + [Root(h, leaves[..k])]
  }

  /** SUBPROOF of section 2.1.4.1: the consistency proof of the first `m` leaves;
      `known` says whether the verifier already holds their root. */
  function SubProof(h: Hasher, m: nat, leaves: seq<string>, known: bool): (path: seq<string>)
    requires 1 <= m <= |leaves|
    decreases |leaves|
  {
    if m == |leaves| then if known then [] else [Root(h, leaves)]
    else
      var k := Split(|leaves|);
      if m <= k then SubProof(h, m, leaves[..k], known) + [Root(h, leaves[k..])]
      else SubProof(h, m - k, leaves[k..], false) + [Root(h, leaves[..k])]
  }

  function ConsistencyProof(h: Hasher, m: nat, leaves: seq<string>): (path: seq<string>)
    requires 1 <= m <= |leaves|
  {
    SubProof(h, m, leaves, true)
  }

  lemma {:induction false} RootInjective(h: Hasher, a: seq<string>, b: seq<string>)
    requires CollisionFree(h) && |a| == |b| >= 1
    requires Root(h, a) == Root(h, b)
    ensures a == b
    decreases |a|
  {
    if |a| > 1 {
      var k := Split(|a|);
      RootInjective(h, a[..k], b[..k]);
      RootInjective(h, a[k..], b[k..]);
      assert a == a[..k] + a[k..] && b == b[..k] + b[k..];
    }
  }

  // ----------------------------------------------------- directions of a walk

  datatype Side = Left | Right

  /** On which side of its parent the node on the way from leaf `m` to the root
      of an `n`-leaf tree lies, from the leaf upwards. */
  function LeafSides(m: nat, n: nat): (r: seq<Side>)
    requires m < n
    decreases n
  {
    if n == 1 then []
    else
      var k := Split(n);
      if m < k then LeafSides(m, k) + [Left] else LeafSides(m - k, n - k) + [Right]
  }

  /** The same for the complete subtree that ends at leaf `m - 1`. */
  function PrefixSides(m: nat, n: nat): (r: seq<Side>)
    requires 1 <= m <= n
    decreases n
  {
    if m == n then []
    else
      var k := Split(n);
      if m <= k then PrefixSides(m, k) + [Left] else PrefixSides(m - k, n - k) + [Right]
  }

  function Up(h: Hasher, side: Side, node: string, sibling: string): string {
    if side.Right? then h.node(sibling, node) else h.node(node, sibling)
  }

  /** Hash reached from `start` after hashing with each sibling in turn. */
  function Climb(h: Hasher, start: string, sides: seq<Side>, path: seq<string>): (r: string)
    requires |sides| == |path|
  {
    if path == [] then start
    else Up(h, sides[|path| - 1], Climb(h, start, sides[..|path| - 1], path[..|path| - 1]), path[|path| - 1])
  }

  /** As `Climb`, but only the steps that have a left sibling change the hash. */
  function ClimbOld(h: Hasher, start: string, sides: seq<Side>, path: seq<string>): (r: string)
    requires |sides| == |path|
  {
    if path == [] then start
    else
      var below := ClimbOld(h, start, sides[..|path| - 1], path[..|path| - 1]);
      if sides[|path| - 1].Right? then h.node(path[|path| - 1], below) else below
  }

  // ------------------------------------------------- the two index registers

  /** One turn of the inner loops: drop the trailing zero bits of `fn` and then
      one more bit, from both registers. */
  function DropZeros(fn: nat, sn: nat): (r: (nat, nat))
    requires fn <= sn
    ensures r.0 <= r.1 && (sn > 0 ==> r.1 < sn) && (sn == 0 ==> r == (0, 0))
    ensures fn == sn ==> r.0 == r.1
    decreases fn
  {
    if fn != 0 && fn % 2 == 0 then DropZeros(fn / 2, sn / 2) else (fn / 2, sn / 2)
  }

  function SideOf(fn: nat, sn: nat): Side {
    if fn % 2 == 1 || fn == sn then Right else Left
  }

  function Advance(fn: nat, sn: nat): (r: (nat, nat))
    requires fn <= sn
    ensures r.0 <= r.1 && (sn > 0 ==> r.1 < sn) && (sn == 0 ==> r == (0, 0))
  {
    if SideOf(fn, sn).Right? then DropZeros(fn, sn) else (fn / 2, sn / 2)
  }

  /** Sides taken by the registers until `sn` reaches zero. */
  function WalkSides(fn: nat, sn: nat): (r: seq<Side>)
    requires fn <= sn
    decreases sn
  {
    if sn == 0 then []
    else
      var next := Advance(fn, sn);
      [SideOf(fn, sn)] + WalkSides(next.0, next.1)
  }

  /** The consistency verifier first drops the trailing one bits of `fn`. */
  function DropOnes(fn: nat, sn: nat): (r: (nat, nat))
    requires fn <= sn
    ensures r.0 <= r.1 <= sn && r.0 % 2 == 0
    decreases fn
  {
    if fn % 2 == 1 then DropOnes(fn / 2, sn / 2) else (fn, sn)
  }

  function WalkPrefixSides(fn: nat, sn: nat): seq<Side>
    requires fn <= sn
  {
    var s := DropOnes(fn, sn);
    WalkSides(s.0, s.1)
  }

  lemma {:induction false} WalkEqualEven(x: nat)
    requires x > 0 && x % 2 == 0
    ensures WalkSides(x, x) == WalkSides(x / 2, x / 2)
  {
    assert DropZeros(x, x) == DropZeros(x / 2, x / 2);
  }

  lemma HalvesLeft(p: nat, fn: nat, sn: nat)
    requires 2 * p <= sn < 4 * p && fn < 2 * p
    ensures p <= sn / 2 < 2 * p && fn / 2 < p && (2 * p - 1) / 2 == p - 1 && (2 * p - 1) % 2 == 1
  {
  }

  lemma HalvesRight(p: nat, fn: nat, sn: nat)
    requires 2 * p <= fn <= sn < 4 * p
    ensures p <= fn / 2 <= sn / 2 < 2 * p
    ensures (fn - 2 * p) / 2 == fn / 2 - p && (sn - 2 * p) / 2 == sn / 2 - p && (fn - 2 * p) % 2 == fn % 2
  {
  }

  lemma WalkBase()
    ensures WalkSides(0, 0) == [] && WalkSides(0, 1) == [Left] && WalkSides(1, 1) == [Right]
  {
    assert WalkSides(0, 1) == [Left] + WalkSides(0, 0);
    assert WalkSides(1, 1) == [Right] + WalkSides(0, 0);
  }

  /** Registers in the left half of a tree of `2^j` .. `2^(j+1)` leaves. */
  lemma {:induction false} WalkLeft(j: nat, fn: nat, sn: nat)
    requires Pow2(j) <= sn < 2 * Pow2(j) && fn < Pow2(j)
    ensures WalkSides(fn, sn) == WalkSides(fn, Pow2(j) - 1) + [Left]
  {
    hide WalkSides;
    WalkBase();
    if j > 0 {
      HalvesLeft(Pow2(j - 1), fn, sn);
      WalkLeft(j - 1, fn / 2, sn / 2);
      WalkStep(fn, sn);
      WalkStep(fn, Pow2(j) - 1);
    }
  }

  lemma {:induction false} WalkRight(j: nat, fn: nat, sn: nat)
    requires Pow2(j) <= fn <= sn < 2 * Pow2(j)
    ensures WalkSides(fn, sn) == WalkSides(fn - Pow2(j), sn - Pow2(j)) + [Right]
  {
    hide WalkSides;
    WalkBase();
    if j > 0 {
      var p := Pow2(j - 1);
      HalvesRight(p, fn, sn);
      WalkRight(j - 1, fn / 2, sn / 2);
      WalkHalve(fn, sn);
      WalkHalve(fn - 2 * p, sn - 2 * p);
    }
  }

  /** One step, with the equal even registers skipped over. */
  lemma {:induction false} WalkHalve(fn: nat, sn: nat)
    requires fn <= sn
    ensures WalkSides(fn, sn) ==
            (if fn % 2 == 1 then [Right] else if fn < sn then [Left] else []) + WalkSides(fn / 2, sn / 2)
  {
    hide WalkSides;
    WalkBase();
    if fn % 2 == 1 || fn < sn {
      WalkStep(fn, sn);
    } else if fn > 0 {
      WalkEqualEven(fn);
    }
  }

  lemma {:induction false} WalkStep(fn: nat, sn: nat)
    requires fn <= sn && 0 < sn && (fn % 2 == 1 || fn < sn)
    ensures WalkSides(fn, sn) == [if fn % 2 == 1 then Right else Left] + WalkSides(fn / 2, sn / 2)
  {
  }

  /** The registers take exactly the sides of the tree. */
  lemma {:induction false} WalkIsLeafSides(m: nat, n: nat)
    requires m < n
    ensures WalkSides(m, n - 1) == LeafSides(m, n)
    decreases n
  {
    hide Pow2, SplitExp, WalkSides;
    WalkBase();
    if n > 1 {
      var k := Split(n);
      if m < k {
        assert LeafSides(m, n) == LeafSides(m, k) + [Left];
        WalkLeft(SplitExp(n), m, n - 1);
        WalkIsLeafSides(m, k);
      } else {
        assert LeafSides(m, n) == LeafSides(m - k, n - k) + [Right];
        WalkRight(SplitExp(n), m, n - 1);
        WalkIsLeafSides(m - k, n - k);
      }
    }
  }

  lemma {:induction false} WalkPrefixLeft(j: nat, fn: nat, sn: nat)
    requires Pow2(j) <= sn < 2 * Pow2(j) && fn < Pow2(j)
    ensures WalkPrefixSides(fn, sn) == WalkPrefixSides(fn, Pow2(j) - 1) + [Left]
  {
    if fn % 2 == 1 {
      WalkPrefixLeft(j - 1, fn / 2, sn / 2);
    } else {
      WalkLeft(j, fn, sn);
    }
  }

  lemma {:induction false} WalkPrefixRight(j: nat, fn: nat, sn: nat)
    requires Pow2(j) <= fn < sn < 2 * Pow2(j)
    ensures WalkPrefixSides(fn, sn) == WalkPrefixSides(fn - Pow2(j), sn - Pow2(j)) + [Right]
    ensures DropOnes(fn, sn).0 != 0
  {
    hide WalkSides;
    if fn % 2 == 1 {
      if j > 0 {
        HalvesRight(Pow2(j - 1), fn, sn);
        WalkPrefixRight(j - 1, fn / 2, sn / 2);
      }
    } else {
      WalkRight(j, fn, sn);
    }
  }

  lemma {:induction false} AllOnesWalk(j: nat)
    ensures DropOnes(Pow2(j) - 1, Pow2(j) - 1) == (0, 0)
    ensures WalkPrefixSides(Pow2(j) - 1, Pow2(j) - 1) == []
  {
    if j > 0 { AllOnesWalk(j - 1); }
  }

  lemma {:induction false} DropOnesFirst(fn: nat, sn: nat, sn': nat)
    requires fn <= sn && fn <= sn'
    ensures DropOnes(fn, sn).0 == DropOnes(fn, sn').0
    decreases fn
  {
    if fn % 2 == 1 { DropOnesFirst(fn / 2, sn / 2, sn' / 2); }
  }

  /** The consistency registers take exactly the sides of the stopping subtree. */
  lemma {:induction false} WalkIsPrefixSides(m: nat, n: nat)
    requires 1 <= m < n
    ensures WalkPrefixSides(m - 1, n - 1) == PrefixSides(m, n)
    decreases n
  {
    hide WalkSides, DropOnes, Pow2, SplitExp, WalkPrefixSides;
    var k := Split(n);
    if m == k {
      assert PrefixSides(m, n) == PrefixSides(k, k) + [Left];
      WalkPrefixLeft(SplitExp(n), m - 1, n - 1);
      AllOnesWalk(SplitExp(n));
    } else if m < k {
      assert PrefixSides(m, n) == PrefixSides(m, k) + [Left];
      WalkPrefixLeft(SplitExp(n), m - 1, n - 1);
      WalkIsPrefixSides(m, k);
    } else {
      assert PrefixSides(m, n) == PrefixSides(m - k, n - k) + [Right];
      WalkPrefixRight(SplitExp(n), m - 1, n - 1);
      WalkIsPrefixSides(m - k, n - k);
    }
  }

  /** They start from register zero exactly when that subtree lies on the left edge. */
  lemma {:induction false} StartIsLeftEdge(m: nat, n: nat)
    requires 1 <= m < n
    ensures DropOnes(m - 1, n - 1).0 == 0 <==> Right !in PrefixSides(m, n)
    decreases n
  {
    hide WalkSides, DropOnes, Pow2, SplitExp, WalkPrefixSides;
    var k := Split(n);
    if m == k {
      assert PrefixSides(m, n) == PrefixSides(k, k) + [Left];
      AllOnesWalk(SplitExp(n));
      DropOnesFirst(m - 1, n - 1, k - 1);
    } else if m < k {
      assert PrefixSides(m, n) == PrefixSides(m, k) + [Left];
      StartIsLeftEdge(m, k);
      DropOnesFirst(m - 1, n - 1, k - 1);
    } else {
      assert PrefixSides(m, n) == PrefixSides(m - k, n - k) + [Right];
      WalkPrefixRight(SplitExp(n), m - 1, n - 1);
      assert PrefixSides(m, n)[|PrefixSides(m - k, n - k)|] == Right;
    }
  }
}

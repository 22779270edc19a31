/** Offline verification of transparency-log inclusion and consistency proofs
    (actenon/verifier/transparency.py), over parsed proofs and checkpoints. */
module Transparency {
  import opened Wrappers
  import opened Merkle
  import opened MerkleProofs
  import opened MerkleConsistency

  datatype Digest = Digest(canonicalization: string, value: string)

  datatype Party = Party(kind: string, id: string)

  datatype Checkpoint = Checkpoint(log: Party, treeSize: nat, rootHash: string)

  datatype InclusionProof = InclusionProof(
    logId: string, treeSize: nat, leafIndex: nat, leafDigest: Digest, auditPath: seq<string>)

  datatype ConsistencyEvidence = ConsistencyEvidence(
    logId: string, oldTreeSize: nat, newTreeSize: nat, path: seq<string>)

  datatype VerifiedInclusion = VerifiedInclusion(logId: string, treeSize: nat, leafIndex: nat, leafDigest: Digest)

  datatype VerifiedConsistency = VerifiedConsistency(logId: string, oldTreeSize: nat, newTreeSize: nat)

  datatype Code =
    | LeafDigestMismatch
    | InvalidInclusionProof
    | CheckpointMismatch
    | InclusionProofInvalid
    | LogIdentityMismatch
    | RewindDetected
    | EquivocationDetected
    | ConsistencyProofInvalid

  /** The checkpoint is the head of a log that holds exactly these leaves. */
  ghost predicate Genuine(h: Hasher, cp: Checkpoint, leaves: seq<string>) {
    cp.treeSize == |leaves| && (leaves != [] ==> cp.rootHash == Root(h, leaves))
  }

  ghost predicate InclusionVerifies(h: Hasher, digest: Digest, proof: InclusionProof, cp: Checkpoint) {
    && proof.leafDigest == digest
    && proof.leafIndex < proof.treeSize
    && proof.logId == cp.log.id
    && proof.treeSize == cp.treeSize
    && InclusionAccepted(h, digest.value, proof.leafIndex, proof.treeSize, proof.auditPath, cp.rootHash)
  }

  method VerifyInclusion(h: Hasher, digest: Digest, proof: InclusionProof, cp: Checkpoint)
    returns (r: Result<VerifiedInclusion, Code>)
    ensures r.Success? <==> InclusionVerifies(h, digest, proof, cp)
    ensures r.Success? ==> r.value == VerifiedInclusion(cp.log.id, cp.treeSize, proof.leafIndex, digest)
    ensures r.Failure? && r.error == LeafDigestMismatch <==> proof.leafDigest != digest
    ensures r.Failure? && r.error == InvalidInclusionProof <==>
              proof.leafDigest == digest && proof.treeSize <= proof.leafIndex
    ensures r.Failure? && r.error == CheckpointMismatch <==>
              && proof.leafDigest == digest && proof.leafIndex < proof.treeSize
              && (proof.logId != cp.log.id || proof.treeSize != cp.treeSize)
    ensures r.Failure? ==>
              r.error in {LeafDigestMismatch, InvalidInclusionProof, CheckpointMismatch, InclusionProofInvalid}
  {
    if proof.leafDigest != digest {
      return Failure(LeafDigestMismatch);
    }
    if proof.treeSize == 0 || proof.leafIndex >= proof.treeSize {
      return Failure(InvalidInclusionProof);
    }
    if cp.log.id != proof.logId || cp.treeSize != proof.treeSize {
      return Failure(CheckpointMismatch);
    }
    var sn, node := ClimbAuditPath(h, proof.leafIndex, proof.treeSize - 1, h.leaf(digest.value), proof.auditPath);
    if sn != 0 || node != cp.rootHash {
      return Failure(InclusionProofInvalid);
    }
    return Success(VerifiedInclusion(proof.logId, proof.treeSize, proof.leafIndex, digest));
  }

  method ClimbAuditPath(h: Hasher, m: nat, last: nat, leaf: string, path: seq<string>) returns (sn: nat, node: string)
    requires m <= last
    ensures sn == Registers(m, last, |path|).1
    ensures node == Climb(h, leaf, SidesTaken(m, last, |path|), path)
  {
    hide Climb, Registers;
    var fn := m;
    sn, node := last, leaf;
    EmptyClimb(h, leaf);
    RegistersStart(m, last);
    for i := 0 to |path|
      invariant fn <= sn && (fn, sn) == Registers(m, last, i)
      invariant node == Climb(h, leaf, SidesTaken(m, last, i), path[..i])
    {
      RegistersStep(m, last, i);
      ClimbSnoc(h, leaf, SidesTaken(m, last, i), path[..i], SideOf(fn, sn), path[i]);
      assert path[..i + 1] == path[..i] + [path[i]];
      if fn % 2 == 1 || fn == sn {
        node := h.node(path[i], node);
        fn, sn := StripZeros(fn, sn);
      } else {
        node := h.node(node, path[i]);
      }
      fn, sn := fn / 2, sn / 2;
    }
    assert path[..|path|] == path;
  }

  /** The inner loop of both verifiers. */
  method StripZeros(fn0: nat, sn0: nat) returns (fn: nat, sn: nat)
    requires fn0 <= sn0
    ensures fn <= sn && (fn / 2, sn / 2) == DropZeros(fn0, sn0)
  {
    fn, sn := fn0, sn0;
    while fn != 0 && fn % 2 == 0
      invariant fn <= sn && DropZeros(fn, sn) == DropZeros(fn0, sn0)
      decreases fn
    {
      fn, sn := fn / 2, sn / 2;
    }
  }

  ghost predicate ConsistencyVerifies(h: Hasher, before: Checkpoint, after: Checkpoint, proof: ConsistencyEvidence) {
    && before.log == after.log
    && before.treeSize <= after.treeSize
    && proof.logId == before.log.id
    && proof.oldTreeSize == before.treeSize
    && proof.newTreeSize == after.treeSize
    && if before.treeSize == 0 then proof.path == []
       else if before.treeSize == after.treeSize then proof.path == [] && before.rootHash == after.rootHash
       else ConsistencyAccepted(h, before.treeSize, after.treeSize, proof.path, before.rootHash, after.rootHash)
  }

  method VerifyConsistency(h: Hasher, before: Checkpoint, after: Checkpoint, proof: ConsistencyEvidence)
    returns (r: Result<VerifiedConsistency, Code>)
    ensures r.Success? <==> ConsistencyVerifies(h, before, after, proof)
    ensures r.Success? ==> r.value == VerifiedConsistency(before.log.id, before.treeSize, after.treeSize)
    ensures r.Failure? && r.error == RewindDetected <==> before.log == after.log && after.treeSize < before.treeSize
    ensures r.Failure? && r.error == LogIdentityMismatch <==> before.log != after.log
    ensures r.Failure? && r.error == CheckpointMismatch <==>
              && before.log == after.log && before.treeSize <= after.treeSize
              && (proof.logId != before.log.id || proof.oldTreeSize != before.treeSize
                  || proof.newTreeSize != after.treeSize)
    ensures r.Failure? && r.error == EquivocationDetected <==>
              && before.log == after.log && 0 < before.treeSize == after.treeSize
              && proof.logId == before.log.id && proof.oldTreeSize == proof.newTreeSize == before.treeSize
              && (proof.path != [] || before.rootHash != after.rootHash)
    ensures r.Failure? ==> r.error !in {LeafDigestMismatch, InvalidInclusionProof, InclusionProofInvalid}
  {
    if before.log != after.log {
      return Failure(LogIdentityMismatch);
    }
    if after.treeSize < before.treeSize {
      return Failure(RewindDetected);
    }
    if proof.logId != before.log.id || proof.oldTreeSize != before.treeSize || proof.newTreeSize != after.treeSize {
      return Failure(CheckpointMismatch);
    }
    if before.treeSize == 0 {
      if proof.path != [] { return Failure(ConsistencyProofInvalid); }
    } else if before.treeSize == after.treeSize {
      if proof.path != [] || before.rootHash != after.rootHash { return Failure(EquivocationDetected); }
    } else {
      var ok := FollowPath(h, before.treeSize, after.treeSize, proof.path, before.rootHash, after.rootHash);
      if !ok { return Failure(ConsistencyProofInvalid); }
    }
    return Success(VerifiedConsistency(proof.logId, before.treeSize, after.treeSize));
  }

  method FollowPath(h: Hasher, m: nat, n: nat, path: seq<string>, oldRoot: string, newRoot: string) returns (ok: bool)
    requires 1 <= m < n
    ensures ok <==> ConsistencyAccepted(h, m, n, path, oldRoot, newRoot)
  {
    var fn: nat, sn: nat := m - 1, n - 1;
    while fn % 2 == 1
      invariant fn <= sn && DropOnes(fn, sn) == DropOnes(m - 1, n - 1)
      decreases fn
    {
      fn, sn := fn / 2, sn / 2;
    }
    var first, index := oldRoot, 0;
    if fn != 0 {
      if path == [] { return false; }
      first, index := path[0], 1;
    }
    ok := FollowFrom(h, fn, sn, first, path[index..], oldRoot, newRoot);
  }

  /** The outer loop, once the starting hash is known. */
  method FollowFrom(h: Hasher, f0: nat, s0: nat, start: string, rest: seq<string>, oldRoot: string, newRoot: string)
    returns (ok: bool)
    requires f0 <= s0
    ensures ok <==> && |rest| == |WalkSides(f0, s0)|
                    && ClimbOld(h, start, WalkSides(f0, s0), rest) == oldRoot
                    && Climb(h, start, WalkSides(f0, s0), rest) == newRoot
  {
    hide WalkSides, Climb, ClimbOld, Registers;
    var fn, sn := f0, s0;
    var first, second := start, start;
    EmptyClimb(h, start);
    RegistersStart(f0, s0);
    for i := 0 to |rest|
      invariant fn <= sn && (fn, sn) == Registers(f0, s0, i)
      invariant i <= |WalkSides(f0, s0)|
      invariant second == Climb(h, start, SidesTaken(f0, s0, i), rest[..i])
      invariant first == ClimbOld(h, start, SidesTaken(f0, s0, i), rest[..i])
    {
      SidesTakenIsWalk(f0, s0, i);
      if sn == 0 { return false; }
      RegistersStep(f0, s0, i);
      ClimbSnoc(h, start, SidesTaken(f0, s0, i), rest[..i], SideOf(fn, sn), rest[i]);
      assert rest[..i + 1] == rest[..i] + [rest[i]];
      if fn % 2 == 1 || fn == sn {
        first, second := h.node(rest[i], first), h.node(rest[i], second);
        fn, sn := StripZeros(fn, sn);
      } else {
        second := h.node(second, rest[i]);
      }
      fn, sn := fn / 2, sn / 2;
    }
    SidesTakenIsWalk(f0, s0, |rest|);
    assert rest[..|rest|] == rest && WalkSides(f0, s0)[..|WalkSides(f0, s0)|] == WalkSides(f0, s0);
    ok := sn == 0 && first == oldRoot && second == newRoot;
  }

  lemma RegistersStart(fn: nat, sn: nat)
    requires fn <= sn
    ensures Registers(fn, sn, 0) == (fn, sn)
  {
  }

  lemma {:induction false} RegistersStep(fn: nat, sn: nat, i: nat)
    requires fn <= sn
    ensures var s := Registers(fn, sn, i);
            && Registers(fn, sn, i + 1) == Advance(s.0, s.1)
            && SidesTaken(fn, sn, i + 1) == SidesTaken(fn, sn, i) + [SideOf(s.0, s.1)]
  {
  }

  // ------------------------------------------------------------ consequences

  /** A verified inclusion in a genuine checkpoint names a leaf that is really there,
      and every leaf that is there has exactly one proof that verifies. */
  lemma VerifiedInclusionIsMembership(h: Hasher, digest: Digest, proof: InclusionProof, cp: Checkpoint,
                                      leaves: seq<string>)
    requires CollisionFree(h) && Genuine(h, cp, leaves)
    ensures InclusionVerifies(h, digest, proof, cp) <==>
            && proof.leafIndex < |leaves|
            && leaves[proof.leafIndex] == digest.value
            && proof == InclusionProof(cp.log.id, |leaves|, proof.leafIndex, digest,
                                       AuditPath(h, proof.leafIndex, leaves))
  {
    hide InclusionAccepted, AuditPath, Root;
    if proof.leafIndex < |leaves| {
      InclusionExact(h, digest.value, proof.leafIndex, leaves, proof.auditPath);
    }
  }

  /** A verified consistency step between genuine checkpoints is an append. */
  lemma VerifiedConsistencyIsAppend(
    h: Hasher, before: Checkpoint, after: Checkpoint, proof: ConsistencyEvidence, a: seq<string>, b: seq<string>)
    requires CollisionFree(h) && Genuine(h, before, a) && Genuine(h, after, b)
    ensures ConsistencyVerifies(h, before, after, proof) <==>
            && before.log == after.log && a <= b
            && proof == ConsistencyEvidence(before.log.id, |a|, |b|,
                                            if a == [] then [] else ConsistencyProof(h, |a|, b))
  {
    hide ConsistencyAccepted, Root;
    if before.log == after.log && |a| <= |b| {
      if a == [] {
      } else if |a| == |b| {
        assert ConsistencyProof(h, |a|, b) == [] && (a <= b <==> a == b);
        if Root(h, a) == Root(h, b) { RootInjective(h, a, b); }
      } else {
        ConsistencyExact(h, a, b, proof.path);
      }
    }
  }

  /** A monitor that verified each step of a run has seen one append-only log. */
  lemma {:induction false} MonitorRunIsAppendOnly(
    h: Hasher, checkpoints: seq<Checkpoint>, proofs: seq<ConsistencyEvidence>, trees: seq<seq<string>>, i: nat, j: nat)
    requires CollisionFree(h) && |checkpoints| == |trees| == |proofs| + 1
    requires forall k :: 0 <= k < |trees| ==> Genuine(h, checkpoints[k], trees[k])
    requires forall k :: 0 <= k < |proofs| ==> ConsistencyVerifies(h, checkpoints[k], checkpoints[k + 1], proofs[k])
    requires i <= j < |trees|
    ensures checkpoints[i].log == checkpoints[j].log && trees[i] <= trees[j]
    decreases j
  {
    hide ConsistencyVerifies;
    if i < j {
      MonitorRunIsAppendOnly(h, checkpoints, proofs, trees, i, j - 1);
      VerifiedConsistencyIsAppend(h, checkpoints[j - 1], checkpoints[j], proofs[j - 1], trees[j - 1], trees[j]);
    }
  }

  /** Two earlier heads that both verify against one later head show no split view. */
  lemma NoSplitView(
    h: Hasher, x: Checkpoint, y: Checkpoint, head: Checkpoint, px: ConsistencyEvidence, py: ConsistencyEvidence,
    a: seq<string>, b: seq<string>, c: seq<string>)
    requires CollisionFree(h) && Genuine(h, x, a) && Genuine(h, y, b) && Genuine(h, head, c)
    requires ConsistencyVerifies(h, x, head, px) && ConsistencyVerifies(h, y, head, py)
    ensures x.treeSize <= y.treeSize ==> a <= b
    ensures x.treeSize == y.treeSize && a != [] ==> x == y
  {
    hide ConsistencyVerifies;
    VerifiedConsistencyIsAppend(h, x, head, px, a, c);
    VerifiedConsistencyIsAppend(h, y, head, py, b, c);
    assert |a| == |b| ==> a == b;
  }
}

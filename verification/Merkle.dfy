/** The sorted-pair Merkle tree over price leaves: an odd node is promoted unchanged. */
module Merkle {
  import opened Bytes
  import opened Hashing
  import opened Wrappers

  function LeafPreimage(message: Bytes): Bytes { DOMAIN_PRICE_LEAF + message }

  function LeafHash(c: Crypto, message: Bytes): Digest { c.hash(LeafPreimage(message)) }

  function NodePreimage(a: Digest, b: Digest): Bytes {
    DOMAIN_PRICE_NODE + (if LexLe(a, b) then a + b else b + a)
  }

  function NodeHash(c: Crypto, a: Digest, b: Digest): Digest { c.hash(NodePreimage(a, b)) }

  /** Folding a proof over a leaf, sibling by sibling. */
  function Climb(c: Crypto, leaf: Digest, proof: seq<Digest>): Digest {
    if proof == [] then leaf
    else NodeHash(c, Climb(c, leaf, proof[..|proof| - 1]), proof[|proof| - 1])
  }

  predicate VerifyProof(c: Crypto, root: Digest, leaf: Digest, proof: seq<Digest>) {
    Climb(c, leaf, proof) == root
  }

  function NextLevel(c: Crypto, level: seq<Digest>): (next: seq<Digest>)
    ensures |next| == (|level| + 1) / 2
    ensures forall i :: 0 <= i < |next| ==>
              next[i] == if 2 * i + 1 < |level| then NodeHash(c, level[2 * i], level[2 * i + 1]) else level[2 * i]
  {
    seq((|level| + 1) / 2, i requires 0 <= i < (|level| + 1) / 2 =>
      if 2 * i + 1 < |level| then NodeHash(c, level[2 * i], level[2 * i + 1]) else level[2 * i])
  }

  function Root(c: Crypto, leaves: seq<Digest>): Digest
    requires leaves != []
    decreases |leaves|
  {
    if |leaves| == 1 then leaves[0] else Root(c, NextLevel(c, leaves))
  }

  function Sibling(index: nat): nat { if index % 2 == 0 then index + 1 else index - 1 }

  function Proof(c: Crypto, leaves: seq<Digest>, index: nat): seq<Digest>
    requires index < |leaves|
    decreases |leaves|
  {
    if |leaves| == 1 then []
    else
      (if Sibling(index) < |leaves| then [leaves[Sibling(index)]] else [])
      + Proof(c, NextLevel(c, leaves), index / 2)
  }

  // ----- the loops, each computing the function above

  method ComputeNextLevel(c: Crypto, level: seq<Digest>) returns (out: seq<Digest>)
    ensures out == NextLevel(c, level)
  {
    out := [];
    var i := 0;
    while i < |level|
      invariant i == 2 * |out| && |out| <= (|level| + 1) / 2
      invariant out == NextLevel(c, level)[..|out|]
    {
      out := out + [if i + 1 < |level| then NodeHash(c, level[i], level[i + 1]) else level[i]];
      i := i + 2;
    }
  }

  method MerkleRoot(c: Crypto, leaves: seq<Digest>) returns (root: Option<Digest>)
    ensures root == if leaves == [] then None else Some(Root(c, leaves))
  {
    if leaves == [] {
      return None;
    }
    var level := leaves;
    while |level| > 1
      invariant level != [] && Root(c, level) == Root(c, leaves)
      decreases |level|
    {
      level := ComputeNextLevel(c, level);
    }
    return Some(level[0]);
  }

  method MerkleProof(c: Crypto, leaves: seq<Digest>, start: nat) returns (r: Option<seq<Digest>>)
    ensures r == if start < |leaves| then Some(Proof(c, leaves, start)) else None
  {
    if start >= |leaves| {
      return None;
    }
    ghost var whole := Proof(c, leaves, start);
    var index: nat := start;
    var proof := [];
    var level := leaves;
    while |level| > 1
      invariant index < |level|
      invariant proof + Proof(c, level, index) == whole
      decreases |level|
    {
      ProofStep(c, level, index, proof);
      var sibling := Sibling(index);
      if sibling < |level| {
        proof := proof + [level[sibling]];
      }
      level := ComputeNextLevel(c, level);
      index := index / 2;
    }
    assert proof + [] == proof;
    return Some(proof);
  }

  lemma {:induction false} ProofStep(c: Crypto, level: seq<Digest>, index: nat, before: seq<Digest>)
    requires index < |level| && |level| > 1
    ensures before + Proof(c, level, index)
         == (if Sibling(index) < |level| then before + [level[Sibling(index)]] else before)
             + Proof(c, NextLevel(c, level), index / 2)
  {
    var rest := Proof(c, NextLevel(c, level), index / 2);
    if Sibling(index) < |level| {
      assert before + ([level[Sibling(index)]] + rest) == before + [level[Sibling(index)]] + rest;
    } else {
      assert [] + rest == rest;
    }
  }

  // ----- completeness and depth

  lemma NodeHashCommutes(c: Crypto, a: Digest, b: Digest)
    ensures NodeHash(c, a, b) == NodeHash(c, b, a)
  {
    LexTotal(a, b);
    if LexLe(a, b) && LexLe(b, a) { LexAntisymmetric(a, b); }
  }

  lemma {:induction false} ClimbFront(c: Crypto, leaf: Digest, sibling: Digest, proof: seq<Digest>)
    ensures Climb(c, leaf, [sibling] + proof) == Climb(c, NodeHash(c, leaf, sibling), proof)
    decreases |proof|
  {
    var whole := [sibling] + proof;
    if proof == [] {
      assert whole[..0] == [];
    } else {
      assert whole[..|whole| - 1] == [sibling] + proof[..|proof| - 1];
      ClimbFront(c, leaf, sibling, proof[..|proof| - 1]);
    }
  }

  lemma ParentOf(c: Crypto, level: seq<Digest>, index: nat)
    requires index < |level|
    ensures NextLevel(c, level)[index / 2]
         == if Sibling(index) < |level| then NodeHash(c, level[index], level[Sibling(index)]) else level[index]
  {
    if Sibling(index) < |level| { NodeHashCommutes(c, level[index], level[Sibling(index)]); }
  }

  /** Every generated proof verifies against the root. */
  lemma {:induction false} ProofVerifies(c: Crypto, leaves: seq<Digest>, index: nat)
    requires index < |leaves|
    ensures VerifyProof(c, Root(c, leaves), leaves[index], Proof(c, leaves, index))
    decreases |leaves|
  {
    if |leaves| > 1 {
      var rest := Proof(c, NextLevel(c, leaves), index / 2);
      ProofVerifies(c, NextLevel(c, leaves), index / 2);
      ParentOf(c, leaves, index);
      if Sibling(index) < |leaves| {
        ClimbFront(c, leaves[index], leaves[Sibling(index)], rest);
      } else {
        assert [] + rest == rest;
      }
    }
  }

  lemma {:induction false} ProofShrinks(c: Crypto, leaves: seq<Digest>, index: nat)
    requires index < |leaves| && |leaves| > 1
    ensures |Proof(c, leaves, index)| <= 1 + |Proof(c, NextLevel(c, leaves), index / 2)|
  {
  }

  function Pow2(k: nat): nat { if k == 0 then 1 else 2 * Pow2(k - 1) }

  /** A proof is no longer than the tree is deep: ceil(log2 n) levels for n leaves. */
  lemma {:induction false} ProofDepth(c: Crypto, leaves: seq<Digest>, index: nat, depth: nat)
    requires index < |leaves| <= Pow2(depth)
    ensures |Proof(c, leaves, index)| <= depth
    decreases |leaves|
  {
    if |leaves| > 1 {
      assert depth > 0 by { assert Pow2(0) == 1; }
      var next := NextLevel(c, leaves);
      assert |next| <= Pow2(depth - 1);
      ProofDepth(c, next, index / 2, depth - 1);
      ProofShrinks(c, leaves, index);
    }
  }

  /** A u16 leaf count keeps every proof within the decoder's limit of 16. */
  lemma {:induction false} ProofFitsBlob(c: Crypto, leaves: seq<Digest>, index: nat)
    requires index < |leaves| < 0x1_0000
    ensures |Proof(c, leaves, index)| <= 16
  {
    assert Pow2(4) == 16 && Pow2(8) == 256 && Pow2(12) == 4096;
    ProofDepth(c, leaves, index, 16);
  }

  // ----- soundness

  /** Everything hashed while building the tree over `level`. */
  ghost function TreePreimages(c: Crypto, level: seq<Digest>): set<Bytes>
    decreases |level|
  {
    if |level| <= 1 then {}
    else
      (set i | 0 <= i < |level| / 2 :: NodePreimage(level[2 * i], level[2 * i + 1]))
      + TreePreimages(c, NextLevel(c, level))
  }

  lemma {:induction false} TreeContains(c: Crypto, level: seq<Digest>)
    requires |level| > 1
    ensures TreePreimages(c, NextLevel(c, level)) <= TreePreimages(c, level)
    ensures forall i ::
        0 <= i && 2 * i + 1 < |level| ==> NodePreimage(level[2 * i], level[2 * i + 1]) in TreePreimages(c, level)
  {
    var here := set i | 0 <= i < |level| / 2 :: NodePreimage(level[2 * i], level[2 * i + 1]);
    assert TreePreimages(c, level) == here + TreePreimages(c, NextLevel(c, level));
    forall i | 0 <= i && 2 * i + 1 < |level| ensures NodePreimage(level[2 * i], level[2 * i + 1]) in here { }
  }

  /** Everything hashed while climbing from a leaf. */
  ghost function PathPreimages(c: Crypto, leaf: Digest, proof: seq<Digest>): set<Bytes> {
    set i | 0 <= i < |proof| :: NodePreimage(Climb(c, leaf, proof[..i]), proof[i])
  }

  lemma NodePreimageInjective(a: Digest, b: Digest, x: Digest, y: Digest)
    requires NodePreimage(a, b) == NodePreimage(x, y)
    ensures (a == x && b == y) || (a == y && b == x)
  {
    DropPrefix(DOMAIN_PRICE_NODE, if LexLe(a, b) then a + b else b + a, if LexLe(x, y) then x + y else y + x);
    var p, q := if LexLe(a, b) then a + b else b + a, if LexLe(x, y) then x + y else y + x;
    assert p[..32] == q[..32] && p[32..] == q[32..];
  }

  lemma LeafIsNotNode(message: Bytes, a: Digest, b: Digest)
    ensures LeafPreimage(message) != NodePreimage(a, b)
  {
    assert DOMAINS[8] == DOMAIN_PRICE_LEAF && DOMAINS[9] == DOMAIN_PRICE_NODE;
    DomainsSeparate(8, 9, message, if LexLe(a, b) then a + b else b + a);
  }

  lemma {:induction false} ClimbLast(c: Crypto, leaf: Digest, proof: seq<Digest>, k: nat)
    requires 0 < k <= |proof|
    ensures Climb(c, leaf, proof[..k]) == NodeHash(c, Climb(c, leaf, proof[..k - 1]), proof[k - 1])
    ensures NodePreimage(Climb(c, leaf, proof[..k - 1]), proof[k - 1]) in PathPreimages(c, leaf, proof)
  {
    assert proof[..k][..k - 1] == proof[..k - 1];
  }

  /** A climb that reaches an inner node passed through one of its children just before. */
  lemma {:induction false} ReachesChild(c: Crypto, a: Digest, b: Digest, message: Bytes, proof: seq<Digest>, k: nat)
    requires k <= |proof| && Climb(c, LeafHash(c, message), proof[..k]) == NodeHash(c, a, b)
    requires CollisionFree(c, {NodePreimage(a, b)}
        + ({LeafPreimage(message)} + PathPreimages(c, LeafHash(c, message), proof)))
    ensures k > 0 && Climb(c, LeafHash(c, message), proof[..k - 1]) in {a, b}
  {
    var leaf := LeafHash(c, message);
    if k == 0 {
      assert proof[..k] == [];
      LeafIsNotNode(message, a, b);
    } else {
      ClimbLast(c, leaf, proof, k);
      NodePreimageInjective(a, b, Climb(c, leaf, proof[..k - 1]), proof[k - 1]);
    }
  }

  /** A climb that reaches the root passed through every level of the tree. */
  lemma {:induction false} ReachesLevel(
      c: Crypto, level: seq<Digest>, message: Bytes, proof: seq<Digest>) returns (k: nat)
    requires level != [] && VerifyProof(c, Root(c, level), LeafHash(c, message), proof)
    requires CollisionFree(c, TreePreimages(c, level)
        + ({LeafPreimage(message)} + PathPreimages(c, LeafHash(c, message), proof)))
    ensures k <= |proof| && Climb(c, LeafHash(c, message), proof[..k]) in level
    decreases |level|
  {
    if |level| == 1 {
      k := |proof|;
      assert proof[..k] == proof;
    } else {
      var next := NextLevel(c, level);
      TreeContains(c, level);
      var paths := {LeafPreimage(message)} + PathPreimages(c, LeafHash(c, message), proof);
      CollisionFreeSubset(c, TreePreimages(c, level) + paths, TreePreimages(c, next) + paths);
      k := ReachesLevel(c, next, message, proof);
      var i :| 0 <= i < |next| && next[i] == Climb(c, LeafHash(c, message), proof[..k]);
      if 2 * i + 1 < |level| {
        CollisionFreeSubset(c, TreePreimages(c, level) + paths, {NodePreimage(level[2 * i], level[2 * i + 1])} + paths);
        ReachesChild(c, level[2 * i], level[2 * i + 1], message, proof, k);
        k := k - 1;
      }
    }
  }

  function LeafHashes(c: Crypto, messages: seq<Bytes>): (leaves: seq<Digest>)
    ensures |leaves| == |messages|
    ensures forall i :: 0 <= i < |messages| ==> leaves[i] == LeafHash(c, messages[i])
  {
    seq(|messages|, i requires 0 <= i < |messages| => LeafHash(c, messages[i]))
  }

  ghost function LeafPreimages(messages: seq<Bytes>): set<Bytes> {
    set m | m in messages :: LeafPreimage(m)
  }

  /** Everything hashed by building the tree over `messages` and checking one proof against it. */
  ghost function SoundnessPreimages(c: Crypto, messages: seq<Bytes>, message: Bytes, proof: seq<Digest>): set<Bytes> {
    TreePreimages(c, LeafHashes(c, messages))
        + ({LeafPreimage(message)} + PathPreimages(c, LeafHash(c, message), proof))
    + LeafPreimages(messages)
  }

  /** A proof that verifies against the root of a tree proves one of the tree's own messages. */
  lemma {:induction false} ProofSound(c: Crypto, messages: seq<Bytes>, message: Bytes, proof: seq<Digest>)
    requires messages != []
    requires VerifyProof(c, Root(c, LeafHashes(c, messages)), LeafHash(c, message), proof)
    requires CollisionFree(c, SoundnessPreimages(c, messages, message, proof))
    ensures message in messages
  {
    var leaves := LeafHashes(c, messages);
    var leaf := LeafHash(c, message);
    var k := ReachesLevel(c, leaves, message, proof);
    var i :| 0 <= i < |leaves| && leaves[i] == Climb(c, leaf, proof[..k]);
    assert LeafPreimage(messages[i]) in LeafPreimages(messages);
    if k == 0 {
      assert proof[..0] == [];
      DropPrefix(DOMAIN_PRICE_LEAF, message, messages[i]);
    } else {
      ClimbLast(c, leaf, proof, k);
      LeafIsNotNode(messages[i], Climb(c, leaf, proof[..k - 1]), proof[k - 1]);
    }
  }
}

/**
  * Merkle proof verification (meta-merkle-tree/src/verify.rs), the OpenZeppelin
  * `MerkleProof` scheme with sorted-pair hashing: an untagged list of sibling hashes is
  * folded over the leaf, each step hashing 0x01 followed by the smaller and then the
  * larger of the two 32-byte values; the proof is accepted iff the fold ends at the root.
  * Leaves are built by the callers with prefix 0x00, which keeps them apart from nodes.
  */
module MerkleVerify {
  import opened Primitives

  /** Input of one combine step: 0x01, then the two children in ascending byte order. */
  function NodePreimage(a: Hash, b: Hash): (p: seq<byte>)
    ensures |p| == 65 && p[0] == 1
  {
    if LexLe(a, b) then [1] + a + b else [1] + b + a
  }

  /** One step of the fold: `hashv(&[&[1u8], min, max])`. */
  function Combine(H: Hasher, a: Hash, b: Hash): Hash {
    H(NodePreimage(a, b))
  }

  /** Input of a leaf: 0x00 followed by the 32-byte item. */
  function LeafPreimage(item: Hash): (p: seq<byte>)
    ensures |p| == 33 && p[0] == 0
  {
    [0] + item
  }

  /** A leaf of the tree: `hashv(&[&[0u8], item])`. */
  function LeafHash(H: Hasher, item: Hash): Hash {
    H(LeafPreimage(item))
  }

  /** The leaf the on-chain gates check for a user: `hashv(&[&[0u8], &hashv(&[user])])`. */
  function MemberLeaf(H: Hasher, user: Pubkey): Hash {
    LeafHash(H, H(user))
  }

  /** The fold of `proof` over `leaf`, consuming the proof from the front. */
  function Fold(H: Hasher, proof: seq<Hash>, leaf: Hash): Hash
    decreases |proof|
  {
    if proof == [] then leaf else Fold(H, proof[1..], Combine(H, leaf, proof[0]))
  }

  /** What `verify(proof, root, leaf)` returns. */
  predicate Verifies(H: Hasher, proof: seq<Hash>, root: Hash, leaf: Hash) {
    Fold(H, proof, leaf) == root
  }

  /** The combine step does not depend on which of the two children comes first. */
  lemma CombineCommutes(H: Hasher, a: Hash, b: Hash)
    ensures Combine(H, a, b) == Combine(H, b, a)
  {
    LexLeTotal(a, b);
    if LexLe(a, b) && LexLe(b, a) {
      LexLeAntisymmetric(a, b);
    }
  }

  /** Two combine steps on the same hash input had the same pair of children. */
  lemma SamePreimageSameChildren(a: Hash, b: Hash, c: Hash, d: Hash)
    requires NodePreimage(a, b) == NodePreimage(c, d)
    ensures (a == c && b == d) || (a == d && b == c)
  {
    var p, q := NodePreimage(a, b), NodePreimage(c, d);
    var x, y := if LexLe(a, b) then a else b, if LexLe(a, b) then b else a;
    var z, w := if LexLe(c, d) then c else d, if LexLe(c, d) then d else c;
    assert p == [1] + x + y && q == [1] + z + w;
    assert p[1..] == x + y && q[1..] == z + w;
    ConcatInjective(x, y, z, w);
  }

  /** Folding a concatenation is folding the second part over the fold of the first. */
  lemma {:induction false} FoldAppend(H: Hasher, p: seq<Hash>, q: seq<Hash>, leaf: Hash)
    ensures Fold(H, p + q, leaf) == Fold(H, q, Fold(H, p, leaf))
    decreases |p|
  {
    if p == [] {
      assert p + q == q;
    } else {
      assert (p + q)[1..] == p[1..] + q;
      FoldAppend(H, p[1..], q, Combine(H, leaf, p[0]));
    }
  }

  /** Fold decomposition: the last proof element is combined with the fold of the rest. */
  lemma FoldSnoc(H: Hasher, p: seq<Hash>, s: Hash, leaf: Hash)
    ensures Fold(H, p + [s], leaf) == Combine(H, Fold(H, p, leaf), s)
  {
    FoldAppend(H, p, [s], leaf);
  }

  /** With an empty proof the leaf itself must be the root. */
  lemma EmptyProof(H: Hasher, root: Hash, leaf: Hash)
    ensures Verifies(H, [], root, leaf) <==> leaf == root
  {
  }

  /**
    * Domain separation: a leaf input starts with 0x00 and a node input with 0x01, so
    * a leaf equal to an internal node is a collision of the hash.
    */
  lemma LeafIsNotNode(H: Hasher, item: Hash, a: Hash, b: Hash)
    ensures LeafPreimage(item) != NodePreimage(a, b)
    ensures LeafHash(H, item) == Combine(H, a, b) ==> Collision(H, LeafPreimage(item), NodePreimage(a, b))
  {
    assert LeafPreimage(item)[0] != NodePreimage(a, b)[0];
  }

  /** `verify`: walks the proof once, keeping the running hash in `computed`. */
  method Verify(H: Hasher, proof: seq<Hash>, root: Hash, leaf: Hash) returns (ok: bool)
    ensures ok <==> Verifies(H, proof, root, leaf)
  {
    var computed := leaf;
    for i := 0 to |proof|
      invariant Fold(H, proof[i..], computed) == Fold(H, proof, leaf)
    {
      var element := proof[i];
      assert proof[i..][1..] == proof[i + 1..];
      if LexLe(computed, element) {
        computed := H([1] + computed + element);
      } else {
        computed := H([1] + element + computed);
      }
    }
    assert proof[|proof|..] == [];
    ok := computed == root;
  }
}

/**
  * The off-chain tree builder (meta-merkle-tree/src/generated_merkle_tree.rs): from the
  * member list it builds the nodes, the Merkle tree over their hashes, one proof per
  * node and the root that the Whitelist account stores.
  */
module GeneratedTree {
  import opened Primitives
  import opened Wrappers
  import opened MerkleVerify
  import opened Merkle
  import opened MetaTreeNode
  import opened ProofUtils

  datatype GeneratedMerkleTree = GeneratedMerkleTree(
    userAccount: Pubkey,
    merkleRoot: Hash,
    treeNodes: seq<VaultWhitelistMetaTreeNode>,
    maxNumNodes: nat)

  /** The hashes of the nodes of the member list, in input order: the items of the tree. */
  function MemberHashes(H: Hasher, metas: seq<VaultWhitelistMeta>): (hs: seq<Hash>)
    ensures |hs| == |metas|
    ensures forall i :: 0 <= i < |metas| ==> hs[i] == H(metas[i].user)
  {
    seq(|metas|, i requires 0 <= i < |metas| => NodeHash(H, VaultWhitelistMetaTreeNode(metas[i].user, None)))
  }

  function MemberTree(H: Hasher, metas: seq<VaultWhitelistMeta>): MerkleTree {
    Merkle.New(H, MemberHashes(H, metas))
  }

  /** The root of the tree over the member list. */
  function MemberRoot(H: Hasher, metas: seq<VaultWhitelistMeta>): Hash
    requires |metas| > 0
  {
    GetRoot(MemberTree(H, metas)).value
  }

  /**
    * The proof extracted for member i. Inclusion: it takes the leaf the gates compute for
    * member i to the root.
    */
  function MemberProof(H: Hasher, metas: seq<VaultWhitelistMeta>, i: nat): (proof: seq<Hash>)
    requires i < |metas|
    ensures Verifies(H, proof, MemberRoot(H, metas), MemberLeaf(H, metas[i].user))
  {
    var t := MemberTree(H, metas);
    PathProofReachesTop(H, t.levels, i);
    Siblings(FindPath(t, i).value)
  }

  /**
    * Exclusion: a proof that takes the leaf of `w` to the root of the member list either
    * belongs to a member or exhibits a collision of the hash, returned as (x, y).
    */
  lemma NonMemberNeedsCollision(H: Hasher, metas: seq<VaultWhitelistMeta>, proof: seq<Hash>, w: Pubkey)
    returns (x: seq<byte>, y: seq<byte>)
    requires |metas| > 0
    requires Verifies(H, proof, MemberRoot(H, metas), MemberLeaf(H, w))
    ensures (exists j :: 0 <= j < |metas| && metas[j].user == w) || Collision(H, x, y)
  {
    var hs := MemberHashes(H, metas);
    x, y := ForgedProofYieldsCollision(H, hs, proof, H(w));
    if !Collision(H, x, y) && !(exists j :: 0 <= j < |metas| && metas[j].user == w) {
      var j :| 0 <= j < |hs| && hs[j] == H(w);
      x, y := w, metas[j].user;
    }
  }

  /**
    * `GeneratedMerkleTree::new`: the nodes of `to_vec`, the tree over their hashes, then
    * each node's proof set in place; the root is unwrapped, so an empty list panics in the
    * source, hence the precondition.
    */
  method New(H: Hasher, userAccount: Pubkey, metas: seq<VaultWhitelistMeta>) returns (g: GeneratedMerkleTree)
    requires |metas| > 0
    ensures g.userAccount == userAccount
    ensures g.maxNumNodes == |metas|
    ensures g.merkleRoot == MemberRoot(H, metas)
    ensures |g.treeNodes| == |metas|
    ensures forall i :: 0 <= i < |metas| ==>
              && g.treeNodes[i].depositor == metas[i].user
              && g.treeNodes[i].proof == Some(MemberProof(H, metas, i))
              && Verifies(H, g.treeNodes[i].proof.value, g.merkleRoot, MemberLeaf(H, metas[i].user))
  {
    var treeNodes := ToVec(metas);
    var hashedNodes := seq(|treeNodes|, i requires 0 <= i < |treeNodes| => NodeHash(H, treeNodes[i]));
    assert hashedNodes == MemberHashes(H, metas);
    var merkleTree := Merkle.New(H, hashedNodes);
    assert merkleTree == MemberTree(H, metas);
    var maxNumNodes := |treeNodes|;
    for i := 0 to |treeNodes|
      invariant |treeNodes| == |metas|
      invariant forall k :: 0 <= k < |metas| ==> treeNodes[k].depositor == metas[k].user
      invariant forall k :: 0 <= k < i ==> treeNodes[k].proof == Some(MemberProof(H, metas, k))
    {
      FoundPathsHaveSiblings(merkleTree, i);
      var r := GetProof(merkleTree, i);
      assert r.value == Siblings(FindPath(merkleTree, i).value);
      assert r.value == MemberProof(H, metas, i);
      treeNodes := treeNodes[i := treeNodes[i].(proof := Some(r.value))];
    }
    g := GeneratedMerkleTree(userAccount, GetRoot(merkleTree).value, treeNodes, maxNumNodes);
  }
}

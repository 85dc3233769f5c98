/**
  * The off-chain tree nodes (meta-merkle-tree/src/vault_whitelist_meta.rs and
  * vault_whitelist_meta_tree_node.rs): one node per allow-listed user, whose hash is the
  * inner value the on-chain gates wrap into a leaf.
  */
module MetaTreeNode {
  import opened Primitives
  import opened Wrappers
  import opened MerkleVerify

  /** One entry of the member list: the user allowed through the gates. */
  datatype VaultWhitelistMeta = VaultWhitelistMeta(user: Pubkey)

  /** A node of the generated tree; `proof` is filled in once the tree is built. */
  datatype VaultWhitelistMetaTreeNode = VaultWhitelistMetaTreeNode(depositor: Pubkey, proof: Option<seq<Hash>>)

  /** `to_vec`: one node per meta, in order, none of them with a proof yet. */
  method ToVec(metas: seq<VaultWhitelistMeta>) returns (nodes: seq<VaultWhitelistMetaTreeNode>)
    ensures |nodes| == |metas|
    ensures forall i :: 0 <= i < |metas| ==> nodes[i].depositor == metas[i].user && nodes[i].proof == None
  {
    nodes := [];
    for i := 0 to |metas|
      invariant |nodes| == i
      invariant forall k :: 0 <= k < i ==> nodes[k].depositor == metas[k].user && nodes[k].proof == None
    {
      nodes := nodes + [VaultWhitelistMetaTreeNode(metas[i].user, None)];
    }
  }

  /** `hash`: the single-chunk hash of the depositor's 32 bytes; the proof plays no part. */
  function NodeHash(H: Hasher, node: VaultWhitelistMetaTreeNode): Hash {
    H(node.depositor)
  }

  /**
    * The node hash is what the gates hash again under the 0x00 prefix, so the leaf of a
    * node in the tree is the leaf the gates compute for its depositor, whatever its proof.
    */
  lemma NodeLeafIsMemberLeaf(H: Hasher, node: VaultWhitelistMetaTreeNode, p: Option<seq<Hash>>)
    ensures NodeHash(H, node.(proof := p)) == NodeHash(H, node)
    ensures LeafHash(H, NodeHash(H, node)) == MemberLeaf(H, node.depositor)
  {
  }
}

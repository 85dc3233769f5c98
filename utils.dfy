/** Proof extraction (meta-merkle-tree/src/utils.rs): the sibling hashes along a leaf's path. */
module ProofUtils {
  import opened Primitives
  import opened Wrappers
  import opened Merkle

  /** The crate's error type; the message is the one `get_proof` reports. */
  datatype MerkleTreeError = MerkleValidationError(message: string)

  const MissingSiblingMessage: string := "expected some hash at each level of the tree"

  /**
    * `get_proof`: walks the path of leaf `index` from the leaf to the root, taking the left
    * sibling of each level when there is one and the right sibling otherwise; a level with
    * neither is an error and no partial proof is returned. A leaf index outside the tree
    * panics in the source (`expect`), hence the precondition.
    */
  method GetProof(t: MerkleTree, index: nat) returns (r: Result<seq<Hash>, MerkleTreeError>)
    requires WellShaped(t) && index < LeafCount(t)
    ensures var path := FindPath(t, index).value;
      && (r.Ok? <==> forall k :: 0 <= k < |path| ==> HasSibling(path[k]))
      && (r.Ok? ==> |r.value| == |path| && forall k :: 0 <= k < |path| ==> r.value[k] == SiblingOf(path[k]))
      && (r.Err? ==> r.error == MerkleValidationError(MissingSiblingMessage))
  {
    var path := FindPath(t, index).value;
    var proof := [];
    for k := 0 to |path|
      invariant |proof| == k
      invariant forall m :: 0 <= m < k ==> HasSibling(path[m]) && proof[m] == SiblingOf(path[m])
    {
      var branch := path[k];
      if branch.leftSibling.Some? {
        proof := proof + [branch.leftSibling.value];
      } else if branch.rightSibling.Some? {
        proof := proof + [branch.rightSibling.value];
      } else {
        return Err(MerkleValidationError(MissingSiblingMessage));
      }
    }
    return Ok(proof);
  }

  /** Every path `find_path` returns has a sibling at each level, so `get_proof` succeeds on it. */
  lemma FoundPathsHaveSiblings(t: MerkleTree, index: nat)
    requires WellShaped(t) && index < LeafCount(t)
    ensures forall k :: 0 <= k < |FindPath(t, index).value| ==> HasSibling(FindPath(t, index).value[k])
  {
    PathHasSiblings(t.levels, index);
  }

  /** The documented example: in a tree of four leaves, leaf 1 has a two-level path with siblings. */
  lemma FourLeafExample(H: Hasher, items: seq<Hash>)
    requires |items| == 4
    ensures |FindPath(New(H, items), 1).value| == 2
    ensures forall k :: 0 <= k < 2 ==> HasSibling(FindPath(New(H, items), 1).value[k])
  {
    var t := New(H, items);
    FoundPathsHaveSiblings(t, 1);
    var ls := t.levels;
    assert |ls| > 1;
    var up: seq<seq<Hash>> := ls[1..];
    assert |up[0]| == 2 && Shaped(up);
    var top: seq<seq<Hash>> := up[1..];
    assert |top[0]| == 1 && Shaped(top);
  }
}

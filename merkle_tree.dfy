/**
  * The binary Merkle tree that `GeneratedMerkleTree::new` builds with
  * `MerkleTree::new(&hashed_nodes, true)` and reads back with `find_path` and `get_root`.
  * The crate's own merkle_tree.rs is not part of this model's source; the tree follows
  * the convention the rest of the source relies on:
  *   - leaf j is `hashv(&[&[0u8], item_j])`, in input order;
  *   - a parent is the sorted-pair combine step of `verify` (prefix 0x01);
  *   - on a level of odd length the last node is paired with itself;
  *   - `find_path` records, for each level below the root, the parent and the one
  *     sibling of the node on the path (left sibling for an odd index, right otherwise).
  */
module Merkle {
  import opened Primitives
  import opened Wrappers
  import opened MerkleVerify

  /** The partner of the even-indexed node `j`: its right neighbour, or itself at the end. */
  function RightChild(level: seq<Hash>, j: nat): Hash
    requires j < |level|
  {
    if j + 1 < |level| then level[j + 1] else level[j]
  }

  /** The level above `level`. */
  function NextLevel(H: Hasher, level: seq<Hash>): (next: seq<Hash>)
    requires |level| > 1
    ensures |next| == (|level| + 1) / 2 < |level|
  {
    seq((|level| + 1) / 2, k requires 0 <= k < (|level| + 1) / 2 =>
      Combine(H, level[2 * k], RightChild(level, 2 * k)))
  }

  /** The shape of a stack of levels: each level halves (rounding up) until one node is left. */
  predicate Shaped(levels: seq<seq<Hash>>)
    decreases |levels|
  {
    && |levels| > 0
    && |levels[0]| > 0
    && if |levels| == 1 then |levels[0]| == 1
       else |levels[0]| > 1 && |levels[1]| == (|levels[0]| + 1) / 2 && Shaped(levels[1..])
  }

  /** Each level of `levels` is the one computed from the level below it. */
  predicate Built(H: Hasher, levels: seq<seq<Hash>>)
    decreases |levels|
  {
    && Shaped(levels)
    && (|levels| > 1 ==> levels[1] == NextLevel(H, levels[0]) && Built(H, levels[1..]))
  }

  /** All levels of the tree whose bottom level is `level`, bottom first. */
  function Levels(H: Hasher, level: seq<Hash>): (ls: seq<seq<Hash>>)
    requires |level| > 0
    ensures Built(H, ls) && ls[0] == level
    decreases |level|
  {
    if |level| == 1 then [level]
    else
      var above := Levels(H, NextLevel(H, level));
      assert ([level] + above)[1..] == above;
      [level] + above
  }

  /** The single node of the top level. */
  function Top(levels: seq<seq<Hash>>): Hash
    requires Shaped(levels)
    decreases |levels|
  {
    if |levels| == 1 then levels[0][0] else Top(levels[1..])
  }

  /** The leaf level over `items`. */
  function LeafLevel(H: Hasher, items: seq<Hash>): (level: seq<Hash>)
    ensures |level| == |items|
    ensures forall j :: 0 <= j < |items| ==> level[j] == LeafHash(H, items[j])
  {
    seq(|items|, j requires 0 <= j < |items| => LeafHash(H, items[j]))
  }

  datatype MerkleTree = MerkleTree(levels: seq<seq<Hash>>)

  /** What `MerkleTree::new` guarantees of the trees it builds. */
  predicate WellShaped(t: MerkleTree) {
    t.levels == [] || Shaped(t.levels)
  }

  function LeafCount(t: MerkleTree): nat {
    if t.levels == [] then 0 else |t.levels[0]|
  }

  /** `MerkleTree::new(items, true)`. */
  function New(H: Hasher, items: seq<Hash>): (t: MerkleTree)
    ensures WellShaped(t) && LeafCount(t) == |items|
    ensures items != [] ==> t.levels == Levels(H, LeafLevel(H, items))
  {
    if items == [] then MerkleTree([]) else MerkleTree(Levels(H, LeafLevel(H, items)))
  }

  /** `get_root`: no root for a tree without leaves. */
  function GetRoot(t: MerkleTree): (r: Option<Hash>)
    requires WellShaped(t)
    ensures r.Some? <==> LeafCount(t) > 0
  {
    if t.levels == [] then None else Some(Top(t.levels))
  }

  /** One level of a path: the parent and the sibling on the left or on the right. */
  datatype ProofEntry = ProofEntry(target: Hash, leftSibling: Option<Hash>, rightSibling: Option<Hash>)

  function EntryAt(level: seq<Hash>, parent: seq<Hash>, i: nat): ProofEntry
    requires i < |level| && i / 2 < |parent|
  {
    if i % 2 == 0 then ProofEntry(parent[i / 2], None, Some(RightChild(level, i)))
    else ProofEntry(parent[i / 2], Some(level[i - 1]), None)
  }

  /** The path from node `i` of the bottom level to the top, one entry per level below it. */
  function PathFrom(levels: seq<seq<Hash>>, i: nat): (path: seq<ProofEntry>)
    requires Shaped(levels) && i < |levels[0]|
    ensures |path| == |levels| - 1
    decreases |levels|
  {
    if |levels| == 1 then []
    else [EntryAt(levels[0], levels[1], i)] + PathFrom(levels[1..], i / 2)
  }

  /** `find_path`: no path for an index that is not a leaf. */
  function FindPath(t: MerkleTree, index: nat): (r: Option<seq<ProofEntry>>)
    requires WellShaped(t)
    ensures r.Some? <==> index < LeafCount(t)
  {
    if index < LeafCount(t) then Some(PathFrom(t.levels, index)) else None
  }

  predicate HasSibling(e: ProofEntry) {
    e.leftSibling.Some? || e.rightSibling.Some?
  }

  /** The sibling `get_proof` takes from an entry: the left one when present, else the right one. */
  function SiblingOf(e: ProofEntry): Hash
    requires HasSibling(e)
  {
    if e.leftSibling.Some? then e.leftSibling.value else e.rightSibling.value
  }

  /** The proof read off a path whose every entry has a sibling. */
  function Siblings(path: seq<ProofEntry>): (proof: seq<Hash>)
    requires forall k :: 0 <= k < |path| ==> HasSibling(path[k])
    ensures |proof| == |path|
  {
    seq(|path|, k requires 0 <= k < |path| => SiblingOf(path[k]))
  }

  /** Every entry that `find_path` produces has a sibling, so `get_proof` never fails on it. */
  lemma {:induction false} PathHasSiblings(levels: seq<seq<Hash>>, i: nat)
    requires Shaped(levels) && i < |levels[0]|
    ensures forall k :: 0 <= k < |PathFrom(levels, i)| ==> HasSibling(PathFrom(levels, i)[k])
    decreases |levels|
  {
    if |levels| > 1 {
      PathHasSiblings(levels[1..], i / 2);
    }
  }

  /** The level above level k - 1 is level k. */
  lemma {:induction false} LevelsStep(H: Hasher, level: seq<Hash>, k: nat)
    requires |level| > 0
    requires 0 < k < |Levels(H, level)|
    ensures |Levels(H, level)[k - 1]| > 1
    ensures Levels(H, level)[k] == NextLevel(H, Levels(H, level)[k - 1])
    decreases |level|
  {
    var ls := Levels(H, level);
    assert |level| > 1;
    var next := NextLevel(H, level);
    assert ls[1..] == Levels(H, next);
    if k > 1 {
      LevelsStep(H, next, k - 1);
    }
  }

  /** The top node is the only node of the last level. */
  lemma {:induction false} TopIsLast(levels: seq<seq<Hash>>)
    requires Shaped(levels)
    ensures |levels[|levels| - 1]| == 1 && Top(levels) == levels[|levels| - 1][0]
    decreases |levels|
  {
    if |levels| > 1 {
      TopIsLast(levels[1..]);
    }
  }

  /** One step up: combining node i with the sibling its entry records gives its parent. */
  lemma StepToParent(H: Hasher, level: seq<Hash>, i: nat)
    requires |level| > 1 && i < |level|
    ensures HasSibling(EntryAt(level, NextLevel(H, level), i))
    ensures Combine(H, level[i], SiblingOf(EntryAt(level, NextLevel(H, level), i))) == NextLevel(H, level)[i / 2]
  {
    var next := NextLevel(H, level);
    var j := i / 2;
    assert i == 2 * j + i % 2;
    assert next[j] == Combine(H, level[2 * j], RightChild(level, 2 * j));
    if i % 2 == 1 {
      assert 2 * j == i - 1 && RightChild(level, i - 1) == level[i];
      CombineCommutes(H, level[i], level[i - 1]);
    }
  }

  /** The proof read off a path is the first entry's sibling followed by the proof of the rest. */
  lemma SiblingsOfCons(e: ProofEntry, rest: seq<ProofEntry>)
    requires HasSibling(e) && forall k :: 0 <= k < |rest| ==> HasSibling(rest[k])
    ensures forall k :: 0 <= k < |[e] + rest| ==> HasSibling(([e] + rest)[k])
    ensures Siblings([e] + rest) == [SiblingOf(e)] + Siblings(rest)
  {
    var path := [e] + rest;
    assert forall k :: 0 < k < |path| ==> path[k] == rest[k - 1];
  }

  /**
    * Inclusion: the proof read off the path of node i, folded over that node, gives the
    * root. Because the combine step is commutative the proof needs no left/right tags.
    */
  lemma {:induction false} PathProofReachesTop(H: Hasher, levels: seq<seq<Hash>>, i: nat)
    requires Built(H, levels) && i < |levels[0]|
    ensures forall k :: 0 <= k < |PathFrom(levels, i)| ==> HasSibling(PathFrom(levels, i)[k])
    ensures Fold(H, Siblings(PathFrom(levels, i)), levels[0][i]) == Top(levels)
    decreases |levels|
  {
    PathHasSiblings(levels, i);
    if |levels| > 1 {
      var e := EntryAt(levels[0], levels[1], i);
      var restPath := PathFrom(levels[1..], i / 2);
      assert PathFrom(levels, i) == [e] + restPath;
      StepToParent(H, levels[0], i);
      PathHasSiblings(levels[1..], i / 2);
      SiblingsOfCons(e, restPath);
      PathProofReachesTop(H, levels[1..], i / 2);
      var rest := Siblings(restPath);
      assert ([SiblingOf(e)] + rest)[1..] == rest;
    }
  }

  /**
    * Soundness against forged proofs, descending from node j of level k: if any proof,
    * folded over the leaf of `w`, reaches that node, then `w` is one of the items or the
    * hash has a collision, returned as (x, y).
    */
  lemma {:induction false} ForgedFoldAtLevel(H: Hasher, items: seq<Hash>, k: nat, j: nat, proof: seq<Hash>, w: Hash)
    returns (x: seq<byte>, y: seq<byte>)
    requires |items| > 0
    requires k < |Levels(H, LeafLevel(H, items))| && j < |Levels(H, LeafLevel(H, items))[k]|
    requires Fold(H, proof, LeafHash(H, w)) == Levels(H, LeafLevel(H, items))[k][j]
    ensures w in items || Collision(H, x, y)
    decreases |proof|
  {
    var leaves := LeafLevel(H, items);
    var ls := Levels(H, leaves);
    if proof == [] {
      if k == 0 {
        // the leaf of w is leaf j: equal items, or two different leaf inputs
        x, y := LeafPreimage(w), LeafPreimage(items[j]);
        if w != items[j] {
          assert x[1..] == w && y[1..] == items[j];
        }
      } else {
        // a leaf equal to an internal node
        LevelsStep(H, leaves, k);
        var below := ls[k - 1];
        x, y := LeafPreimage(w), NodePreimage(below[2 * j], RightChild(below, 2 * j));
        LeafIsNotNode(H, w, below[2 * j], RightChild(below, 2 * j));
      }
    } else {
      var rest, s := proof[..|proof| - 1], proof[|proof| - 1];
      assert proof == rest + [s];
      FoldSnoc(H, rest, s, LeafHash(H, w));
      var c := Fold(H, rest, LeafHash(H, w));
      if k == 0 {
        // an internal node equal to a leaf
        x, y := NodePreimage(c, s), LeafPreimage(items[j]);
        LeafIsNotNode(H, items[j], c, s);
      } else {
        LevelsStep(H, leaves, k);
        var below := ls[k - 1];
        var a, b := below[2 * j], RightChild(below, 2 * j);
        assert Combine(H, c, s) == Combine(H, a, b);
        if NodePreimage(c, s) != NodePreimage(a, b) {
          x, y := NodePreimage(c, s), NodePreimage(a, b);
        } else {
          SamePreimageSameChildren(c, s, a, b);
          var jj := if c == a then 2 * j else if j * 2 + 1 < |below| then 2 * j + 1 else 2 * j;
          assert c == below[jj];
          x, y := ForgedFoldAtLevel(H, items, k - 1, jj, rest, w);
        }
      }
    }
  }

  /**
    * Exclusion: a proof that takes the leaf of `w` to the root of the tree over `items`
    * either belongs to a member (w is one of the items) or exhibits a hash collision.
    */
  lemma ForgedProofYieldsCollision(H: Hasher, items: seq<Hash>, proof: seq<Hash>, w: Hash)
    returns (x: seq<byte>, y: seq<byte>)
    requires |items| > 0
    requires Verifies(H, proof, GetRoot(New(H, items)).value, LeafHash(H, w))
    ensures w in items || Collision(H, x, y)
  {
    var ls := Levels(H, LeafLevel(H, items));
    TopIsLast(ls);
    x, y := ForgedFoldAtLevel(H, items, |ls| - 1, 0, proof, w);
  }
}

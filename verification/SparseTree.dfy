/** The in-memory sparse tree and its transparent authentication paths. */
module SparseTree {
  import opened Bytes
  import opened Tree
  import opened Paths
  import opened Merkle

  const MAX_DEPTH: nat := 32

  datatype Path = Path(index: nat, leaf: Bytes32, siblings: seq<Bytes32>)

  /** The leaves with the explicit padding of `pad_to_power_of_two`. */
  function Padded(h: Hash, leaves: seq<Bytes32>): (full: seq<Bytes32>)
    ensures |full| == Pow2(Depth(|leaves|)) >= |leaves|
    ensures forall i: nat :: LeafAt(EmptyChild(h), full, i) == LeafAt(EmptyChild(h), leaves, i)
  {
    DepthIsLeast(|leaves|);
    seq(Pow2(Depth(|leaves|)), i requires 0 <= i => LeafAt(EmptyChild(h), leaves, i))
  }

  lemma PaddedRoot(h: Hash, leaves: seq<Bytes32>)
    ensures Subtree(Nodes(h), EmptyChild(h), Padded(h, leaves), 0, Depth(|leaves|)) == Root(h, leaves)
  {
    SameLeavesSameRoot(Nodes(h), EmptyChild(h), Padded(h, leaves), leaves, 0, Depth(|leaves|));
  }

  /** The depth cap is 2^32 slots. */
  lemma Capacity()
    ensures Pow2(MAX_DEPTH) == 4_294_967_296
  {
    assert Pow2(8) == 256 && Pow2(16) == 65_536 by {
      assert Pow2(4) == 16;
      assert Pow2(8) == 2 * (2 * (2 * (2 * Pow2(4))));
      assert Pow2(12) == 2 * (2 * (2 * (2 * Pow2(8))));
      assert Pow2(16) == 2 * (2 * (2 * (2 * Pow2(12))));
    }
    assert Pow2(20) == 2 * (2 * (2 * (2 * Pow2(16))));
    assert Pow2(24) == 2 * (2 * (2 * (2 * Pow2(20))));
    assert Pow2(28) == 2 * (2 * (2 * (2 * Pow2(24))));
    assert Pow2(32) == 2 * (2 * (2 * (2 * Pow2(28))));
  }

  /** With at most 2^32 slots the depth cap of `pad_to_power_of_two` never bites. */
  lemma DepthCap(n: nat)
    requires n <= Pow2(MAX_DEPTH)
    ensures Pow2(Depth(n)) <= Pow2(MAX_DEPTH)
  {
    DepthIsLeast(n);
    if Depth(n) > MAX_DEPTH {
      Pow2Monotone(MAX_DEPTH, Depth(n) - 1);
      assert false;
    }
    Pow2Monotone(Depth(n), MAX_DEPTH);
  }

  method PadToPowerOfTwo(h: Hash, leaves: seq<Bytes32>) returns (level: seq<Bytes32>)
    requires |leaves| <= 4_294_967_296
    ensures level == Padded(h, leaves)
  {
    Capacity();
    level := leaves;
    var pad := EmptyChild(h);
    if level == [] {
      return [pad];
    }
    var n := Pow2(Depth(|level|));
    var maxLeaves := Pow2(MAX_DEPTH);
    DepthIsLeast(|leaves|);
    DepthCap(|leaves|);
    if n > maxLeaves {
      n := maxLeaves;
    }
    while |level| < n
      invariant |leaves| <= |level| <= n
      invariant forall i :: 0 <= i < |level| ==> level[i] == LeafAt(pad, leaves, i)
    {
      level := level + [pad];
    }
    assert forall i: nat :: LeafAt(pad, Padded(h, leaves), i) == LeafAt(pad, leaves, i);
    assert forall i :: 0 <= i < n ==> level[i] == LeafAt(pad, Padded(h, leaves), i);
  }

  /** Which pairs of children have their node preimage among `strings`. */
  ghost function PairsIn(strings: set<Bytes>): Uses {
    (left, right) => MERKLE_DOM + left + right in strings
  }

  lemma NodesDoNotClash(h: Hash, strings: set<Bytes>)
    requires CollisionFree(h, strings)
    ensures ClashFree(Nodes(h), PairsIn(strings))
  {
    forall p: (Bytes32, Bytes32), q: (Bytes32, Bytes32) | Clash(Nodes(h), PairsIn(strings), p, q)
      ensures false
    {
      assert !Collide(h, strings, MERKLE_DOM + p.0 + p.1, MERKLE_DOM + q.0 + q.1);
      SplitConcat(p.0, p.1, q.0, q.1, MERKLE_DOM);
    }
  }

  /** A path of the tree's depth that reaches the root carries the leaf of its slot, unless two
    * of the strings hashed along the path or in the tree collide.
    */
  lemma PathIsBinding(h: Hash, leaves: seq<Bytes32>, path: Path, strings: set<Bytes>)
    requires path.index < |leaves| && |path.siblings| == Depth(|leaves|)
    requires PathRoot(Nodes(h), path.leaf, path.index, path.siblings) == Root(h, leaves)
    requires PathUses(Nodes(h), path.leaf, path.index, path.siblings, PairsIn(strings))
    requires LevelUses(Nodes(h), Padded(h, leaves), Depth(|leaves|), PairsIn(strings))
    requires CollisionFree(h, strings)
    ensures path.leaf == leaves[path.index]
    ensures path.siblings == Siblings(Nodes(h), Padded(h, leaves), path.index, Depth(|leaves|))
  {
    NodesDoNotClash(h, strings);
    PaddedRoot(h, leaves);
    assert LeafAt(EmptyChild(h), Padded(h, leaves), path.index) == leaves[path.index];
    PathBinding(Nodes(h), EmptyChild(h), Padded(h, leaves), Depth(|leaves|),
                path.leaf, path.index, path.siblings, PairsIn(strings));
  }

  method ComputeRoot(h: Hash, path: Path) returns (root: Bytes32)
    ensures root == PathRoot(Nodes(h), path.leaf, path.index, path.siblings)
  {
    root := FollowPath(Nodes(h), path.leaf, path.index, path.siblings);
  }

  class SparseMerkleTree {
    const h: Hash
    var leaves: seq<Bytes32>
    var admitted: seq<bool>

    /** A slot that was not admitted still holds the EMPTY digest. */
    ghost predicate Valid()
      reads this
    {
      && |leaves| == |admitted| <= Pow2(MAX_DEPTH)
      && forall i :: 0 <= i < |leaves| && !admitted[i] ==> leaves[i] == EmptyLeafHash(h)
    }

    constructor (h: Hash)
      ensures Valid() && this.h == h && leaves == [] && admitted == []
    {
      this.h := h;
      leaves, admitted := [], [];
    }

    method GrowEmpty()
      requires Valid() && |leaves| < Pow2(MAX_DEPTH)
      modifies this
      ensures Valid()
      ensures leaves == old(leaves) + [EmptyLeafHash(h)] && admitted == old(admitted) + [false]
    {
      leaves := leaves + [EmptyLeafHash(h)];
      admitted := admitted + [false];
    }

    method MaybeGrowEmptyOnCreate(index: nat) returns (grown: bool)
      requires Valid() && (index == |leaves| ==> |leaves| < Pow2(MAX_DEPTH))
      modifies this
      ensures Valid()
      ensures grown <==> index == old(|leaves|)
      ensures leaves == if grown then old(leaves) + [EmptyLeafHash(h)] else old(leaves)
      ensures admitted == if grown then old(admitted) + [false] else old(admitted)
    {
      if index != |leaves| {
        return false;
      }
      GrowEmpty();
      return true;
    }

    method CatchupGrowEmpty(max: nat) returns (n: nat)
      requires Valid()
      modifies this
      ensures Valid()
      ensures n == Min(max, Pow2(MAX_DEPTH) - old(|leaves|))
      ensures leaves == old(leaves) + seq<Bytes32>(n, _ => EmptyLeafHash(h))
      ensures admitted == old(admitted) + seq(n, _ => false)
    {
      n := 0;
      while n < max && |leaves| < Pow2(MAX_DEPTH)
        invariant Valid() && n <= max
        invariant leaves == old(leaves) + seq<Bytes32>(n, _ => EmptyLeafHash(h))
        invariant admitted == old(admitted) + seq(n, _ => false)
      {
        GrowEmpty();
        n := n + 1;
      }
    }

    method Admit(index: nat, key: Bytes32, commitment: Bytes32) returns (ok: bool)
      requires Valid()
      modifies this
      ensures Valid()
      ensures ok <==> index < |old(leaves)| && !old(admitted)[index]
      ensures ok ==> leaves == old(leaves)[index := LeafHash(h, key, commitment)]
      ensures ok ==> admitted == old(admitted)[index := true]
      ensures !ok ==> leaves == old(leaves) && admitted == old(admitted)
    {
      if index >= |leaves| || admitted[index] {
        return false;
      }
      leaves := leaves[index := LeafHash(h, key, commitment)];
      admitted := admitted[index := true];
      return true;
    }

    /** The tree's root is the root of its leaves. */
    method TreeRoot() returns (root: Bytes32)
      requires Valid()
      ensures root == Root(h, leaves)
    {
      if leaves == [] {
        return EmptyChild(h);
      }
      Capacity();
      var level := PadToPowerOfTwo(h, leaves);
      root := HashUp(Nodes(h), EmptyChild(h), level, Depth(|leaves|));
      PaddedRoot(h, leaves);
    }

    /** A path exists for exactly the grown slots, and following it yields the tree's root. */
    method TransparentPath(index: nat) returns (path: Option<Path>)
      requires Valid()
      ensures path.Some? <==> index < |leaves|
      ensures path.Some? ==> path.value.index == index && path.value.leaf == leaves[index]
      ensures path.Some? ==> path.value.siblings == Siblings(Nodes(h), Padded(h, leaves), index, Depth(|leaves|))
      ensures path.Some? ==> PathRoot(Nodes(h), path.value.leaf, index, path.value.siblings) == Root(h, leaves)
    {
      if index >= |leaves| {
        return None;
      }
      Capacity();
      var level := PadToPowerOfTwo(h, leaves);
      var siblings := CollectSiblings(Nodes(h), level, index, Depth(|leaves|));
      PathReachesRoot(Nodes(h), EmptyChild(h), level, index, Depth(|leaves|));
      PaddedRoot(h, leaves);
      assert LeafAt(EmptyChild(h), level, index) == leaves[index];
      return Some(Path(index, leaves[index], siblings));
    }
  }
}

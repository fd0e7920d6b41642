/** The membership tree: leaf and node hashes, the padded binary root, and why it is binding.
  *
  * The hash is a parameter, never assumed injective. What collision resistance buys is stated
  * with `CollisionFree` over the finite set of strings that were really hashed.
  */
module Merkle {
  import opened Bytes
  import opened Tree

  type Hash = Bytes -> Bytes32

  const LEAF_DOM: Bytes := Ascii("kohl/fcmp/leaf/v1")
  const EMPTY_LEAF_DOM: Bytes := Ascii("kohl/fcmp/leaf/empty/v1")
  const MERKLE_DOM: Bytes := Ascii("kohl/fcmp/merkle/v1")
  const MERKLE_EMPTY_DOM: Bytes := Ascii("kohl/fcmp/merkle/v1/empty")

  function LeafHash(h: Hash, key: Bytes32, commitment: Bytes32): Bytes32 {
    h(LEAF_DOM + key + commitment)
  }

  function EmptyLeafHash(h: Hash): Bytes32 {
    h(EMPTY_LEAF_DOM)
  }

  function NodeHash(h: Hash, left: Bytes32, right: Bytes32): Bytes32 {
    h(MERKLE_DOM + left + right)
  }

  /** Sentinel for a missing child; also the root of a tree with no slots. */
  function EmptyChild(h: Hash): Bytes32 {
    h(MERKLE_EMPTY_DOM)
  }

  /** How this tree combines two children. */
  function Nodes(h: Hash): Combine {
    (left, right) => NodeHash(h, left, right)
  }

  /** Root over leaf digests, padded to a power of two. */
  function Root(h: Hash, leaves: seq<Bytes32>): Bytes32 {
    Subtree(Nodes(h), EmptyChild(h), leaves, 0, Depth(|leaves|))
  }

  /** `root_from_leaves`: pad to the next power of two, then hash upwards. */
  method RootFromLeaves(h: Hash, leaves: seq<Bytes32>) returns (root: Bytes32)
    ensures root == Root(h, leaves)
  {
    if leaves == [] {
      return EmptyChild(h);
    }
    DepthIsLeast(|leaves|);
    var pad := EmptyChild(h);
    var level := leaves;
    ghost var d := Depth(|leaves|);
    var n := Pow2(Depth(|level|));
    while |level| < n
      invariant |level| <= n == Pow2(d)
      invariant forall i :: LeafAt(pad, level, i) == LeafAt(pad, leaves, i)
    {
      level := level + [pad];
    }
    SameLeavesSameRoot(Nodes(h), pad, level, leaves, 0, d);
    root := HashUp(Nodes(h), pad, level, d);
  }

  // ---- binding ------------------------------------------------------------

  /** What a slot stands for: not yet admitted, or an admitted output. */
  datatype Leaf = Vacant | Occupied(key: Bytes32, commitment: Bytes32)

  function LeafPreimage(leaf: Leaf): Bytes {
    match leaf
    case Vacant => EMPTY_LEAF_DOM
    case Occupied(key, commitment) => LEAF_DOM + key + commitment
  }

  function LeafDigest(h: Hash, leaf: Leaf): Bytes32 {
    h(LeafPreimage(leaf))
  }

  function Digests(h: Hash, leaves: seq<Leaf>): (ds: seq<Bytes32>)
    ensures |ds| == |leaves|
  {
    seq(|leaves|, i requires 0 <= i < |leaves| => LeafDigest(h, leaves[i]))
  }

  /** The string whose hash is the root of the subtree at `lo` of depth `d`. */
  function TopPreimage(h: Hash, leaves: seq<Leaf>, lo: nat, d: nat): Bytes
    decreases d
  {
    if d == 0 then
      if lo < |leaves| then LeafPreimage(leaves[lo]) else MERKLE_EMPTY_DOM
    else
      MERKLE_DOM + h(TopPreimage(h, leaves, lo, d - 1)) + h(TopPreimage(h, leaves, lo + Pow2(d - 1), d - 1))
  }

  /** `strings` contains every string hashed while computing that subtree. */
  ghost predicate HashesBelow(h: Hash, leaves: seq<Leaf>, lo: nat, d: nat, strings: set<Bytes>)
    decreases d
  {
    && TopPreimage(h, leaves, lo, d) in strings
    && (d > 0 ==> HashesBelow(h, leaves, lo, d - 1, strings) && HashesBelow(h, leaves, lo + Pow2(d - 1), d - 1, strings))
  }

  /** `strings` contains every string hashed while computing the root over `leaves`. */
  ghost predicate Hashes(h: Hash, leaves: seq<Leaf>, strings: set<Bytes>) {
    HashesBelow(h, leaves, 0, Depth(|leaves|), strings)
  }

  ghost predicate Collide(h: Hash, strings: set<Bytes>, x: Bytes, y: Bytes) {
    x in strings && y in strings && x != y && h(x) == h(y)
  }

  /** No two of these strings collide. Over all strings this would be false of every hash. */
  ghost predicate CollisionFree(h: Hash, strings: set<Bytes>) {
    forall x, y :: !Collide(h, strings, x, y)
  }

  lemma {:induction false} SubtreeIsTopHash(h: Hash, leaves: seq<Leaf>, lo: nat, d: nat)
    ensures Subtree(Nodes(h), EmptyChild(h), Digests(h, leaves), lo, d) == h(TopPreimage(h, leaves, lo, d))
    decreases d
  {
    if d > 0 {
      SubtreeIsTopHash(h, leaves, lo, d - 1);
      SubtreeIsTopHash(h, leaves, lo + Pow2(d - 1), d - 1);
    }
  }

  /** The four preimage families have lengths 81, 23, 83 and 25, so none overlaps another. */
  lemma PreimageLengths(h: Hash, leaves: seq<Leaf>, lo: nat, d: nat)
    ensures |TopPreimage(h, leaves, lo, d)| ==
            if d > 0 then 83 else if lo >= |leaves| then 25 else if leaves[lo].Vacant? then 23 else 81
  {
  }

  lemma SplitConcat(x: Bytes32, y: Bytes32, x': Bytes32, y': Bytes32, prefix: Bytes)
    requires prefix + x + y == prefix + x' + y'
    ensures x == x' && y == y'
  {
    var s, s' := prefix + x + y, prefix + x' + y';
    assert x == s[|prefix|..|prefix| + 32] && x' == s'[|prefix|..|prefix| + 32];
    assert y == s[|prefix| + 32..] && y' == s'[|prefix| + 32..];
  }

  /** Both sequences have a leaf at `i` and it is the same one, or neither has. */
  ghost predicate SameLeaf(a: seq<Leaf>, b: seq<Leaf>, i: nat) {
    (i < |a| <==> i < |b|) && (i < |a| && i < |b| ==> a[i] == b[i])
  }

  lemma OneLeafBinding(h: Hash, a: seq<Leaf>, b: seq<Leaf>, lo: nat)
    requires TopPreimage(h, a, lo, 0) == TopPreimage(h, b, lo, 0)
    ensures SameLeaf(a, b, lo)
  {
    PreimageLengths(h, a, lo, 0);
    PreimageLengths(h, b, lo, 0);
    if lo < |a| && a[lo].Occupied? {
      SplitConcat(a[lo].key, a[lo].commitment, b[lo].key, b[lo].commitment, LEAF_DOM);
    }
  }

  lemma EqualHashesHaveEqualTops(h: Hash, a: seq<Leaf>, da: nat, b: seq<Leaf>, db: nat, lo: nat, strings: set<Bytes>)
    requires TopPreimage(h, a, lo, da) in strings && TopPreimage(h, b, lo, db) in strings
    requires CollisionFree(h, strings)
    requires h(TopPreimage(h, a, lo, da)) == h(TopPreimage(h, b, lo, db))
    ensures TopPreimage(h, a, lo, da) == TopPreimage(h, b, lo, db)
    ensures da == 0 <==> db == 0
  {
    assert !Collide(h, strings, TopPreimage(h, a, lo, da), TopPreimage(h, b, lo, db));
    PreimageLengths(h, a, lo, da);
    PreimageLengths(h, b, lo, db);
  }

  lemma EqualTopsHaveEqualChildren(h: Hash, a: seq<Leaf>, da: nat, b: seq<Leaf>, db: nat, lo: nat)
    requires 0 < da && 0 < db
    requires TopPreimage(h, a, lo, da) == TopPreimage(h, b, lo, db)
    ensures h(TopPreimage(h, a, lo, da - 1)) == h(TopPreimage(h, b, lo, db - 1))
    ensures h(TopPreimage(h, a, lo + Pow2(da - 1), da - 1)) == h(TopPreimage(h, b, lo + Pow2(db - 1), db - 1))
  {
    SplitConcat(h(TopPreimage(h, a, lo, da - 1)), h(TopPreimage(h, a, lo + Pow2(da - 1), da - 1)),
                h(TopPreimage(h, b, lo, db - 1)), h(TopPreimage(h, b, lo + Pow2(db - 1), db - 1)), MERKLE_DOM);
  }

  /** Equal subtree roots, at possibly different depths, force equal depths and equal leaves. */
  lemma {:induction false} SubtreeBinding(h: Hash, a: seq<Leaf>, da: nat, b: seq<Leaf>, db: nat, lo: nat, strings: set<Bytes>)
    requires HashesBelow(h, a, lo, da, strings) && HashesBelow(h, b, lo, db, strings)
    requires CollisionFree(h, strings)
    requires h(TopPreimage(h, a, lo, da)) == h(TopPreimage(h, b, lo, db))
    ensures da == db
    ensures forall i :: lo <= i < lo + Pow2(da) ==> SameLeaf(a, b, i)
    decreases da
  {
    EqualHashesHaveEqualTops(h, a, da, b, db, lo, strings);
    if da == 0 {
      OneLeafBinding(h, a, b, lo);
    } else {
      EqualTopsHaveEqualChildren(h, a, da, b, db, lo);
      SubtreeBinding(h, a, da - 1, b, db - 1, lo, strings);
      SubtreeBinding(h, a, da - 1, b, db - 1, lo + Pow2(da - 1), strings);
    }
  }

  /** `root_from_leaves` is binding: equal roots mean equal leaves, whatever the two lengths,
    * unless two of the strings hashed on the way collide.
    */
  lemma RootBinding(h: Hash, a: seq<Leaf>, b: seq<Leaf>, strings: set<Bytes>)
    requires Root(h, Digests(h, a)) == Root(h, Digests(h, b))
    requires Hashes(h, a, strings) && Hashes(h, b, strings) && CollisionFree(h, strings)
    ensures a == b
  {
    var d := Depth(|a|);
    DepthIsLeast(|a|);
    DepthIsLeast(|b|);
    SubtreeIsTopHash(h, a, 0, d);
    SubtreeIsTopHash(h, b, 0, Depth(|b|));
    SubtreeBinding(h, a, d, b, Depth(|b|), 0, strings);
    assert |a| < |b| ==> SameLeaf(a, b, |a|);
    assert |b| < |a| ==> SameLeaf(a, b, |b|);
    forall i | 0 <= i < |a|
      ensures a[i] == b[i]
    {
      assert SameLeaf(a, b, i);
    }
  }
}

/** Complete binary trees of digests: the shape shared by the Merkle root and its paths.
  *
  * `node` combines two children and `pad` stands for a missing leaf; nothing here depends on
  * how digests are hashed.
  */
module Tree {
  import opened Bytes

  type Combine = (Bytes32, Bytes32) -> Bytes32

  // ---- powers of two ------------------------------------------------------

  function Pow2(d: nat): (p: nat)
    ensures p >= 1
  {
    if d == 0 then 1 else 2 * Pow2(d - 1)
  }

  /** Depth of the smallest complete tree with room for `n` leaves. */
  function Depth(n: nat): nat {
    if n <= 1 then 0 else 1 + Depth((n + 1) / 2)
  }

  lemma {:induction false} DepthIsLeast(n: nat)
    ensures n <= Pow2(Depth(n))
    ensures n > 1 ==> Depth(n) > 0 && Pow2(Depth(n) - 1) < n
  {
    if n > 1 {
      DepthIsLeast((n + 1) / 2);
    }
  }

  lemma {:induction false} Pow2Monotone(a: nat, b: nat)
    requires a <= b
    ensures Pow2(a) <= Pow2(b)
  {
    if a < b {
      Pow2Monotone(a, b - 1);
    }
  }

  // ---- the root, top down -------------------------------------------------

  /** Root of the complete subtree of depth `d` whose first slot is `lo`; a slot past the last
    * leaf holds `pad`.
    */
  function Subtree(node: Combine, pad: Bytes32, leaves: seq<Bytes32>, lo: nat, d: nat): Bytes32
    decreases d
  {
    if d == 0 then
      if lo < |leaves| then leaves[lo] else pad
    else
      node(Subtree(node, pad, leaves, lo, d - 1), Subtree(node, pad, leaves, lo + Pow2(d - 1), d - 1))
  }

  /** One level up: hash adjacent pairs. */
  function Parents(node: Combine, level: seq<Bytes32>): (up: seq<Bytes32>)
    ensures |up| == |level| / 2
  {
    seq(|level| / 2, i requires 0 <= i < |level| / 2 => node(level[2 * i], level[2 * i + 1]))
  }

  function LeafAt(pad: Bytes32, leaves: seq<Bytes32>, i: nat): Bytes32 {
    if i < |leaves| then leaves[i] else pad
  }

  /** Only the leaf values matter, not whether padding is explicit. */
  lemma {:induction false} SameLeavesSameRoot(node: Combine, pad: Bytes32, a: seq<Bytes32>, b: seq<Bytes32>, lo: nat, d: nat)
    requires forall i :: LeafAt(pad, a, i) == LeafAt(pad, b, i)
    ensures Subtree(node, pad, a, lo, d) == Subtree(node, pad, b, lo, d)
    decreases d
  {
    if d == 0 {
      assert LeafAt(pad, a, lo) == LeafAt(pad, b, lo);
    } else {
      SameLeavesSameRoot(node, pad, a, b, lo, d - 1);
      SameLeavesSameRoot(node, pad, a, b, lo + Pow2(d - 1), d - 1);
    }
  }

  lemma SubtreeSplit(node: Combine, pad: Bytes32, leaves: seq<Bytes32>, lo: nat, mid: nat, d: nat)
    requires d > 0 && mid == lo + Pow2(d - 1)
    ensures Subtree(node, pad, leaves, lo, d) == node(Subtree(node, pad, leaves, lo, d - 1), Subtree(node, pad, leaves, mid, d - 1))
  {
  }

  lemma {:induction false} LevelUpAt(node: Combine, pad: Bytes32, level: seq<Bytes32>, up: seq<Bytes32>, lo: nat, lo2: nat, d: nat)
    requires d > 0 && lo2 == 2 * lo && lo2 + Pow2(d) <= |level|
    requires up == Parents(node, level)
    ensures Subtree(node, pad, up, lo, d - 1) == Subtree(node, pad, level, lo2, d)
    decreases d
  {
    if d == 1 {
      assert up[lo] == node(level[lo2], level[lo2 + 1]);
    } else {
      var mid, mid2 := lo + Pow2(d - 2), lo2 + Pow2(d - 1);
      LevelUpAt(node, pad, level, up, lo, lo2, d - 1);
      LevelUpAt(node, pad, level, up, mid, mid2, d - 1);
      SubtreeSplit(node, pad, up, lo, mid, d - 1);
      SubtreeSplit(node, pad, level, lo2, mid2, d);
    }
  }

  /** Going up one level at a time computes the same root as going down. */
  lemma LevelUp(node: Combine, pad: Bytes32, level: seq<Bytes32>, d: nat)
    requires d > 0 && Pow2(d) <= |level|
    ensures Subtree(node, pad, Parents(node, level), 0, d - 1) == Subtree(node, pad, level, 0, d)
  {
    LevelUpAt(node, pad, level, Parents(node, level), 0, 0, d);
  }

  method HashPairs(node: Combine, level: seq<Bytes32>) returns (next: seq<Bytes32>)
    ensures next == Parents(node, level)
  {
    next := [];
    var i := 0;
    while i < |level| / 2
      invariant 0 <= i <= |level| / 2
      invariant next == Parents(node, level)[..i]
    {
      next := next + [node(level[2 * i], level[2 * i + 1])];
      i := i + 1;
    }
  }

  /** Halve a full level until one digest is left. */
  method HashUp(node: Combine, ghost pad: Bytes32, full: seq<Bytes32>, ghost depth: nat) returns (root: Bytes32)
    requires |full| == Pow2(depth)
    ensures root == Subtree(node, pad, full, 0, depth)
  {
    var level := full;
    ghost var d := depth;
    while |level| > 1
      invariant |level| == Pow2(d)
      invariant Subtree(node, pad, level, 0, d) == Subtree(node, pad, full, 0, depth)
      decreases |level|
    {
      LevelUp(node, pad, level, d);
      level := HashPairs(node, level);
      d := d - 1;
    }
    return level[0];
  }
}

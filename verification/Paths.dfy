/** Authentication paths in a complete binary tree of digests. */
module Paths {
  import opened Bytes
  import opened Tree

  /** The neighbour under the same parent: `idx ^ 1`. */
  function Sibling(idx: nat): nat {
    if idx % 2 == 0 then idx + 1 else idx - 1
  }

  /** A digest and its sibling, left one first. */
  function Ordered(idx: nat, digest: Bytes32, sibling: Bytes32): (Bytes32, Bytes32) {
    if idx % 2 == 0 then (digest, sibling) else (sibling, digest)
  }

  function Join(node: Combine, idx: nat, digest: Bytes32, sibling: Bytes32): Bytes32 {
    var pair := Ordered(idx, digest, sibling);
    node(pair.0, pair.1)
  }

  /** The root a path claims. */
  function PathRoot(node: Combine, digest: Bytes32, idx: nat, siblings: seq<Bytes32>): Bytes32
    decreases |siblings|
  {
    if siblings == [] then digest
    else PathRoot(node, Join(node, idx, digest, siblings[0]), idx / 2, siblings[1..])
  }

  /** The siblings met on the way up from slot `idx` of a full level of 2^d digests. */
  function Siblings(node: Combine, level: seq<Bytes32>, idx: nat, d: nat): (path: seq<Bytes32>)
    requires |level| == Pow2(d) && idx < |level|
    ensures |path| == d
    decreases d
  {
    if d == 0 then [] else [level[Sibling(idx)]] + Siblings(node, Parents(node, level), idx / 2, d - 1)
  }

  lemma JoinIsParent(node: Combine, level: seq<Bytes32>, idx: nat)
    requires |level| % 2 == 0 && idx < |level|
    ensures Sibling(idx) < |level| && idx / 2 < |Parents(node, level)|
    ensures Join(node, idx, level[idx], level[Sibling(idx)]) == Parents(node, level)[idx / 2]
  {
  }

  lemma PathStep(node: Combine, digest: Bytes32, idx: nat, sibling: Bytes32, rest: seq<Bytes32>)
    ensures PathRoot(node, digest, idx, [sibling] + rest) ==
            PathRoot(node, Join(node, idx, digest, sibling), idx / 2, rest)
  {
    assert ([sibling] + rest)[1..] == rest;
  }

  /** Taking one step along an honest path is moving one level up. */
  lemma PathUp(node: Combine, level: seq<Bytes32>, idx: nat, d: nat)
    requires |level| == Pow2(d) && idx < |level| && d > 0
    ensures |Parents(node, level)| == Pow2(d - 1) && idx / 2 < |Parents(node, level)|
    ensures PathRoot(node, level[idx], idx, Siblings(node, level, idx, d)) ==
            PathRoot(node, Parents(node, level)[idx / 2], idx / 2, Siblings(node, Parents(node, level), idx / 2, d - 1))
  {
    JoinIsParent(node, level, idx);
    PathStep(node, level[idx], idx, level[Sibling(idx)], Siblings(node, Parents(node, level), idx / 2, d - 1));
  }

  /** Every honest path leads to the root. */
  lemma {:induction false} PathReachesRoot(node: Combine, pad: Bytes32, level: seq<Bytes32>, idx: nat, d: nat)
    requires |level| == Pow2(d) && idx < |level|
    ensures PathRoot(node, level[idx], idx, Siblings(node, level, idx, d)) == Subtree(node, pad, level, 0, d)
    decreases d
  {
    if d == 0 {
      assert Siblings(node, level, idx, d) == [] && idx == 0;
    } else {
      var up := Parents(node, level);
      PathUp(node, level, idx, d);
      PathReachesRoot(node, pad, up, idx / 2, d - 1);
      LevelUp(node, pad, level, d);
    }
  }

  // ---- binding ------------------------------------------------------------

  /** Which pairs of children were combined somewhere. */
  type Uses = (Bytes32, Bytes32) -> bool

  ghost predicate Clash(node: Combine, uses: Uses, p: (Bytes32, Bytes32), q: (Bytes32, Bytes32)) {
    uses(p.0, p.1) && uses(q.0, q.1) && p != q && node(p.0, p.1) == node(q.0, q.1)
  }

  ghost predicate ClashFree(node: Combine, uses: Uses) {
    forall p, q :: !Clash(node, uses, p, q)
  }

  ghost predicate PathUses(node: Combine, digest: Bytes32, idx: nat, siblings: seq<Bytes32>, uses: Uses)
    decreases |siblings|
  {
    siblings == [] ||
    (var pair := Ordered(idx, digest, siblings[0]);
     && uses(pair.0, pair.1)
     && PathUses(node, Join(node, idx, digest, siblings[0]), idx / 2, siblings[1..], uses))
  }

  ghost predicate LevelUses(node: Combine, level: seq<Bytes32>, d: nat, uses: Uses)
    decreases d
  {
    d > 0 ==>
    (&& (forall i :: 0 <= i < |level| / 2 ==> uses(level[2 * i], level[2 * i + 1]))
     && LevelUses(node, Parents(node, level), d - 1, uses))
  }

  /** The step of `PathBinding`: agreeing one level up forces agreeing here. */
  lemma BindingStep(node: Combine, level: seq<Bytes32>, idx: nat, digest: Bytes32, sibling: Bytes32, uses: Uses)
    requires |level| % 2 == 0 && idx < |level|
    requires forall i :: 0 <= i < |level| / 2 ==> uses(level[2 * i], level[2 * i + 1])
    requires var pair := Ordered(idx, digest, sibling); uses(pair.0, pair.1)
    requires ClashFree(node, uses)
    requires Join(node, idx, digest, sibling) == Parents(node, level)[idx / 2]
    ensures digest == level[idx] && sibling == level[Sibling(idx)]
  {
    var half := idx / 2;
    assert uses(level[2 * half], level[2 * half + 1]);
    assert !Clash(node, uses, Ordered(idx, digest, sibling), (level[2 * half], level[2 * half + 1]));
  }

  lemma SiblingsUnfold(node: Combine, level: seq<Bytes32>, idx: nat, d: nat, siblings: seq<Bytes32>)
    requires |level| == Pow2(d) && idx < |level| && d > 0 && |siblings| == d
    ensures Sibling(idx) < |level|
    ensures |Parents(node, level)| == Pow2(d - 1) && idx / 2 < |Parents(node, level)|
    ensures siblings[0] == level[Sibling(idx)] && siblings[1..] == Siblings(node, Parents(node, level), idx / 2, d - 1)
            ==> siblings == Siblings(node, level, idx, d)
  {
    JoinIsParent(node, level, idx);
    assert siblings == [siblings[0]] + siblings[1..];
  }

  lemma PathUnfold(node: Combine, digest: Bytes32, idx: nat, siblings: seq<Bytes32>, uses: Uses)
    requires siblings != [] && PathUses(node, digest, idx, siblings, uses)
    ensures PathRoot(node, digest, idx, siblings) == PathRoot(node, Join(node, idx, digest, siblings[0]), idx / 2, siblings[1..])
    ensures PathUses(node, Join(node, idx, digest, siblings[0]), idx / 2, siblings[1..], uses)
    ensures var pair := Ordered(idx, digest, siblings[0]); uses(pair.0, pair.1)
  {
  }

  /** A path of the tree's depth that reaches the root carries the leaf of its slot, and the
    * tree's own siblings.
    */
  lemma {:induction false} PathBinding(node: Combine, pad: Bytes32, level: seq<Bytes32>, d: nat,
                                       digest: Bytes32, idx: nat, siblings: seq<Bytes32>, uses: Uses)
    requires |level| == Pow2(d) && |siblings| == d && idx < |level|
    requires PathRoot(node, digest, idx, siblings) == Subtree(node, pad, level, 0, d)
    requires PathUses(node, digest, idx, siblings, uses) && LevelUses(node, level, d, uses)
    requires ClashFree(node, uses)
    ensures digest == level[idx]
    ensures siblings == Siblings(node, level, idx, d)
    decreases d
  {
    if d > 0 {
      SiblingsUnfold(node, level, idx, d, siblings);
      LevelUp(node, pad, level, d);
      PathUnfold(node, digest, idx, siblings, uses);
      PathBinding(node, pad, Parents(node, level), d - 1, Join(node, idx, digest, siblings[0]), idx / 2, siblings[1..], uses);
      BindingStep(node, level, idx, digest, siblings[0], uses);
    }
  }

  // ---- building a path ----------------------------------------------------

  /** Part-way up: the siblings so far and those still to come make up `path`. */
  ghost predicate Climbing(node: Combine, sofar: seq<Bytes32>, level: seq<Bytes32>, idx: nat, d: nat, path: seq<Bytes32>) {
    && |level| == Pow2(d) && idx < |level|
    && sofar + Siblings(node, level, idx, d) == path
  }

  lemma ClimbOne(node: Combine, sofar: seq<Bytes32>, level: seq<Bytes32>, idx: nat, d: nat, path: seq<Bytes32>)
    requires d > 0 && Climbing(node, sofar, level, idx, d, path)
    ensures Sibling(idx) < |level|
    ensures Climbing(node, sofar + [level[Sibling(idx)]], Parents(node, level), idx / 2, d - 1, path)
  {
    JoinIsParent(node, level, idx);
    var rest := Siblings(node, Parents(node, level), idx / 2, d - 1);
    assert sofar + ([level[Sibling(idx)]] + rest) == sofar + [level[Sibling(idx)]] + rest;
  }

  /** One turn of the loop of `transparent_path`: note the sibling, build the level above. */
  method ClimbUp(node: Combine, sofar: seq<Bytes32>, level: seq<Bytes32>, idx: nat, ghost d: nat, ghost path: seq<Bytes32>)
    returns (siblings: seq<Bytes32>, up: seq<Bytes32>)
    requires d > 0 && Climbing(node, sofar, level, idx, d, path)
    ensures Climbing(node, siblings, up, idx / 2, d - 1, path)
  {
    ClimbOne(node, sofar, level, idx, d, path);
    siblings := sofar + [level[Sibling(idx)]];
    up := HashPairs(node, level);
  }

  method CollectSiblings(node: Combine, level: seq<Bytes32>, index: nat, depth: nat) returns (siblings: seq<Bytes32>)
    requires |level| == Pow2(depth) && index < |level|
    ensures siblings == Siblings(node, level, index, depth)
  {
    ghost var path := Siblings(node, level, index, depth);
    siblings := [];
    var cur := level;
    var idx: nat, left: nat := index, depth;
    while left > 0
      invariant Climbing(node, siblings, cur, idx, left, path)
    {
      siblings, cur := ClimbUp(node, siblings, cur, idx, left, path);
      idx := idx / 2;
      left := left - 1;
    }
  }

  /** The loop of `compute_root`. */
  method FollowPath(node: Combine, digest: Bytes32, index: nat, siblings: seq<Bytes32>) returns (root: Bytes32)
    ensures root == PathRoot(node, digest, index, siblings)
  {
    root := digest;
    var idx := index;
    var i := 0;
    while i < |siblings|
      invariant 0 <= i <= |siblings|
      invariant PathRoot(node, root, idx, siblings[i..]) == PathRoot(node, digest, index, siblings)
    {
      assert siblings[i..][1..] == siblings[i + 1..];
      if idx % 2 == 0 {
        root := node(root, siblings[i]);
      } else {
        root := node(siblings[i], root);
      }
      idx := idx / 2;
      i := i + 1;
    }
  }
}

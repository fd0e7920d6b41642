/** Which roots a spend may anchor to, and why any of them implies maturity. */
module RootWindow {
  import opened Bytes
  import opened Merkle
  import opened Hosts
  import opened FcmpCodec
  import opened Pallet
  import opened TreeInvariant
  import Fcmp

  // ---- what a block does to the recorded roots ----------------------------

  lemma DispatchKeepsRoots(host: Host, cfg: Config, s: State, x: Extrinsic)
    ensures Dispatch(host, cfg, s, x).rootAt == s.rootAt && Dispatch(host, cfg, s, x).now == s.now
  {
    match Call(host, cfg, s, x)
    case Err(_) =>
    case Ok(t) =>
      var paid, stored := Accepted(host, cfg, s, x);
      MintAllFrame(host.blake, paid, stored);
  }

  lemma {:induction false} CatchupKeepsRoots(h: Hash, s: State, budget: nat)
    ensures Catchup(h, s, budget).rootAt == s.rootAt && Catchup(h, s, budget).now == s.now
    decreases budget
  {
    if budget > 0 && s.treeSlots < s.nextOutputIndex {
      CatchupKeepsRoots(h, GrowEmpty(h, s), budget - 1);
    }
  }

  lemma MaintainKeepsRoots(h: Hash, cfg: Config, s: State)
    ensures Maintain(h, cfg, s).rootAt == s.rootAt && Maintain(h, cfg, s).now == s.now
  {
    CatchupKeepsRoots(h, AdmitMature(h, cfg, s), CATCHUP_MAX);
  }

  lemma FinalizeRecords(h: Hash, cfg: Config, s: State, n: nat)
    ensures var t := Finalize(h, cfg, s);
            && t.now == s.now
            && (n in t.rootAt <==> n == s.now || (n in s.rootAt && !(s.now > ROOT_MAX_AGE && n == s.now - ROOT_MAX_AGE)))
            && (n in t.rootAt ==> t.rootAt[n] == if n == s.now then t.root else s.rootAt[n])
  {
    MaintainKeepsRoots(h, cfg, s);
  }

  // ---- the window over every run ------------------------------------------

  /** At the end of block `|past|` root `n` is recorded iff it is one of the last 64, and is the
    * root at the end of block `n`.
    */
  ghost predicate WindowAt(host: Host, cfg: Config, past: seq<Block>, rootAt: map<nat, Bytes32>, n: nat) {
    && (n in rootAt <==> Max(1, |past| - ROOT_MAX_AGE + 1) <= n <= |past|)
    && (n in rootAt ==> rootAt[n] == EndOf(host, cfg, past[..n]).root)
  }

  lemma {:induction false} RunKeepsWindow(host: Host, cfg: Config, past: seq<Block>, xs: Block)
    ensures During(host, cfg, past, xs).now == |past| + 1
    ensures During(host, cfg, past, xs).rootAt == EndOf(host, cfg, past).rootAt
    ensures EndOf(host, cfg, past).now == |past|
    decreases |past|, |xs|
  {
    if xs != [] {
      RunKeepsWindow(host, cfg, past, xs[..|xs| - 1]);
      DispatchKeepsRoots(host, cfg, During(host, cfg, past, xs[..|xs| - 1]), xs[|xs| - 1]);
    } else if past != [] {
      RunKeepsWindow(host, cfg, past[..|past| - 1], past[|past| - 1]);
      FinalizeRecords(host.blake, cfg, During(host, cfg, past[..|past| - 1], past[|past| - 1]), 0);
    }
  }

  lemma {:induction false} EndKeepsWindow(host: Host, cfg: Config, past: seq<Block>, n: nat)
    ensures WindowAt(host, cfg, past, EndOf(host, cfg, past).rootAt, n)
    decreases |past|
  {
    if past != [] {
      var before, last := past[..|past| - 1], past[|past| - 1];
      EndKeepsWindow(host, cfg, before, n);
      RunKeepsWindow(host, cfg, before, last);
      FinalizeRecords(host.blake, cfg, During(host, cfg, before, last), n);
      if n < |past| {
        assert before[..n] == past[..n];
      } else if n == |past| {
        assert past[..n] == past;
      }
    }
  }

  /** While block `t = |past| + 1` executes, the recorded roots are exactly the end-of-block roots
    * of blocks max(1, t − 64) to t − 1.
    */
  lemma WindowIsExact(host: Host, cfg: Config, past: seq<Block>, xs: Block, n: nat)
    ensures var s, t := During(host, cfg, past, xs), |past| + 1;
            && s.now == t
            && (n in s.rootAt <==> Max(1, t - 64) <= n <= t - 1)
            && (n in s.rootAt ==> s.rootAt[n] == EndOf(host, cfg, past[..n]).root)
  {
    RunKeepsWindow(host, cfg, past, xs);
    EndKeepsWindow(host, cfg, past, n);
  }

  /** Block `n` is one whose end root may still be anchored to in block `|past| + 1`. */
  predicate InWindow(past: seq<Block>, n: int) {
    Max(1, |past| + 1 - ROOT_MAX_AGE) <= n <= |past|
  }

  /** A root is accepted iff it is the live one or the end root of one of those blocks. */
  lemma AcceptedRoots(host: Host, cfg: Config, past: seq<Block>, xs: Block, root: Bytes32)
    ensures RootAccepted(During(host, cfg, past, xs), root) <==>
            (root == During(host, cfg, past, xs).root ||
             exists n :: InWindow(past, n) && EndOf(host, cfg, past[..n]).root == root)
  {
    var s := During(host, cfg, past, xs);
    if RootAccepted(s, root) && s.root != root {
      var n: nat :| n in s.rootAt && n <= s.now <= n + ROOT_MAX_AGE && s.rootAt[n] == root;
      WindowIsExact(host, cfg, past, xs, n);
      assert InWindow(past, n);
    }
    if n :| InWindow(past, n) && EndOf(host, cfg, past[..n]).root == root {
      WindowIsExact(host, cfg, past, xs, n);
      assert n in s.rootAt && s.rootAt[n] == root;
    }
  }

  // ---- history ------------------------------------------------------------

  lemma {:induction false} BlockExtends(host: Host, cfg: Config, past: seq<Block>, xs: Block)
    ensures Extends(EndOf(host, cfg, past), During(host, cfg, past, xs))
  {
    RunKeepsTree(host, cfg, past, []);
    if xs == [] {
      InitializeKeepsTree(host.blake, cfg, EndOf(host, cfg, past));
    } else {
      var s := During(host, cfg, past, xs[..|xs| - 1]);
      BlockExtends(host, cfg, past, xs[..|xs| - 1]);
      RunKeepsTree(host, cfg, past, xs[..|xs| - 1]);
      DispatchKeepsTree(host, cfg, s, xs[|xs| - 1]);
      ExtendsTransitive(EndOf(host, cfg, past), s, During(host, cfg, past, xs));
    }
  }

  lemma {:induction false} BlocksExtend(host: Host, cfg: Config, past: seq<Block>, n: nat)
    requires n <= |past|
    ensures Extends(EndOf(host, cfg, past[..n]), EndOf(host, cfg, past))
    decreases |past|
  {
    if n < |past| {
      var before, last := past[..|past| - 1], past[|past| - 1];
      var s := During(host, cfg, before, last);
      assert before[..n] == past[..n];
      BlocksExtend(host, cfg, before, n);
      BlockExtends(host, cfg, before, last);
      RunKeepsTree(host, cfg, before, last);
      FinalizeKeepsTree(host.blake, cfg, s);
      ExtendsTransitive(EndOf(host, cfg, past[..n]), EndOf(host, cfg, before), s);
      ExtendsTransitive(EndOf(host, cfg, past[..n]), s, EndOf(host, cfg, past));
    } else {
      assert past[..n] == past;
    }
  }

  /** A later state of a run extends the end of every earlier block: nothing is forgotten. */
  lemma HistoryExtends(host: Host, cfg: Config, past: seq<Block>, xs: Block, n: nat)
    requires n <= |past|
    ensures Extends(EndOf(host, cfg, past[..n]), During(host, cfg, past, xs))
  {
    BlocksExtend(host, cfg, past, n);
    BlockExtends(host, cfg, past, xs);
    ExtendsTransitive(EndOf(host, cfg, past[..n]), EndOf(host, cfg, past), During(host, cfg, past, xs));
  }

  // ---- membership implies maturity ----------------------------------------

  /** `strings` contains everything hashed for the roots that block `|past| + 1` accepts. */
  ghost predicate RunHashes(host: Host, cfg: Config, past: seq<Block>, xs: Block, strings: set<Bytes>) {
    && Hashes(host.blake, Leaves(During(host, cfg, past, xs)), strings)
    && forall n :: InWindow(past, n) ==> Hashes(host.blake, Leaves(EndOf(host, cfg, past[..n])), strings)
  }

  /** Member `m` is output `m.treeIndex`, admitted in `anchor` and in `s`, and mature now. */
  ghost predicate MatureMember(cfg: Config, anchor: State, s: State, m: RingMember) {
    && m.treeIndex in anchor.admitted && m.treeIndex in s.admitted
    && m.treeIndex in s.outputs
    && s.outputs[m.treeIndex].key == m.key && s.outputs[m.treeIndex].commitment == m.commitment
    && Mature(cfg, s.outputs[m.treeIndex], s.now)
  }

  lemma MembersAreMature(h: Hash, cfg: Config, anchor: State, s: State, ring: seq<RingMember>, k: nat)
    requires TreeInv(h, cfg, anchor) && TreeInv(h, cfg, s) && Extends(anchor, s)
    requires Fcmp.RingOf(Leaves(anchor), ring) && k < |ring|
    ensures MatureMember(cfg, anchor, s, ring[k])
  {
    var i := ring[k].treeIndex;
    assert Leaves(anchor)[i] == LeafOf(anchor, i);
    assert AdmittedHolds(cfg, anchor, i) && AdmittedHolds(cfg, s, i);
  }

  /** The state whose root a spend anchors to: the current one, or the end of a window block. */
  lemma AnchorState(host: Host, cfg: Config, past: seq<Block>, xs: Block, root: Bytes32, strings: set<Bytes>) returns (anchor: State)
    requires RootAccepted(During(host, cfg, past, xs), root) && RunHashes(host, cfg, past, xs, strings)
    ensures anchor.root == root && Hashes(host.blake, Leaves(anchor), strings)
    ensures TreeInv(host.blake, cfg, anchor) && Extends(anchor, During(host, cfg, past, xs))
    ensures anchor == During(host, cfg, past, xs) || exists n :: InWindow(past, n) && anchor == EndOf(host, cfg, past[..n])
  {
    var s := During(host, cfg, past, xs);
    AcceptedRoots(host, cfg, past, xs, root);
    if root == s.root {
      anchor := s;
      RunKeepsTree(host, cfg, past, xs);
    } else {
      var n :| InWindow(past, n) && EndOf(host, cfg, past[..n]).root == root;
      anchor := EndOf(host, cfg, past[..n]);
      RunKeepsTree(host, cfg, past[..n], []);
      HistoryExtends(host, cfg, past, xs, n);
    }
  }

  /** Whatever accepted root a proof verifies under, its ring is exactly the outputs admitted when
    * that root was recorded, and every one of them is admitted and mature now, unless two of the
    * strings hashed collide.
    */
  lemma MembershipImpliesMaturity(host: Host, cfg: Config, past: seq<Block>, xs: Block, msg: Bytes, root: Bytes32,
                                  pseudo: Bytes32, keyImage: Bytes32, proof: Bytes, strings: set<Bytes>) returns (anchor: State)
    requires RootAccepted(During(host, cfg, past, xs), root)
    requires Fcmp.Accepts(host, msg, root, pseudo, keyImage, proof)
    requires RunHashes(host, cfg, past, xs, strings) && Fcmp.ProofHashes(host.blake, proof, strings)
    requires CollisionFree(host.blake, strings)
    ensures anchor == During(host, cfg, past, xs) || exists n :: InWindow(past, n) && anchor == EndOf(host, cfg, past[..n])
    ensures anchor.root == root
    ensures Fcmp.RingOf(Leaves(anchor), Parse(proof).value.ring)
    ensures forall k :: 0 <= k < |Parse(proof).value.ring| ==>
              MatureMember(cfg, anchor, During(host, cfg, past, xs), Parse(proof).value.ring[k])
  {
    anchor := AnchorState(host, cfg, past, xs, root, strings);
    Fcmp.AcceptedRing(host, Leaves(anchor), msg, pseudo, keyImage, proof, strings);
    RunKeepsTree(host, cfg, past, xs);
    forall k | 0 <= k < |Parse(proof).value.ring|
      ensures MatureMember(cfg, anchor, During(host, cfg, past, xs), Parse(proof).value.ring[k])
    {
      MembersAreMature(host.blake, cfg, anchor, During(host, cfg, past, xs), Parse(proof).value.ring, k);
    }
  }
}

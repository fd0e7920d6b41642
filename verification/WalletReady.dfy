/** Scan, rebuild, build: what a wallet finds in a reachable state it can spend. */
module WalletReady {
  import opened Bytes
  import opened Limits
  import opened Group
  import opened Native
  import opened Stealth
  import opened Transactions
  import opened Pallet
  import opened TreeInvariant
  import opened WalletScan
  import opened WalletStaging
  import opened WalletBuild
  import opened WalletCache
  import opened ChainPoints
  import Fcmp
  import Merkle

  /** The snapshot a wallet rebuilds from the chain's storage. */
  function ChainSnapshot(h: Merkle.Hash, s: State): MembershipSnapshot
    requires RebuildError(h, s.root, DigestList(h, s.digests, s.treeSlots), s.outputs) == None
  {
    Rebuilt(h, s.root, DigestList(h, s.digests, s.treeSlots), s.outputs)
  }

  /** The rebuilt snapshot is one the prover can work with. */
  lemma ChainSnapshotIsGood(c: Suite, cfg: Config, s: State)
    requires TreeInv(c.blake, cfg, s) && s.treeSlots <= MAX_FCMP_ANON_SET && OutputsWellFormed(c, s)
    ensures RebuildError(c.blake, s.root, DigestList(c.blake, s.digests, s.treeSlots), s.outputs) == None
    ensures var m := ChainSnapshot(c.blake, s);
            (m.admitted != [] ==> GoodSnapshot(c, m)) && m.root == s.root == Merkle.Root(c.blake, m.digests)
  {
    var h, ds := c.blake, DigestList(c.blake, s.digests, s.treeSlots);
    ChainStateRebuilds(h, cfg, s);
    RebuiltIsWitness(h, s.root, ds, s.outputs);
    var m := ChainSnapshot(h, s);
    forall k | 0 <= k < |m.admitted|
      ensures (c.decompress)(m.admitted[k].key).Some? && (c.decompress)(m.admitted[k].commitment).Some?
    {
      MemberIsOutput(h, ds, s.outputs, |ds|, k);
    }
  }

  /** What a scan returns for a stored output opens it, coinbase or confidential. */
  lemma OwnedOpens(c: Suite, w: Wallet, index: nat, out: StoredOutput, found: OwnedOutput)
    requires WellFormed(c, out) && Owned(c, w, index, out, found)
    ensures Commit(c, found.amount, found.blinding) == Some(out.commitment)
  {
    if out.amount.Some? {
      ScalarRoundTrip(0);
      assert ZERO_BLINDING == ScalarBytes(0);
    }
  }

  /** The snapshot's member at an output's index is that output. */
  lemma MemberMatches(h: Merkle.Hash, s: State, found: OwnedOutput, k: nat)
    requires RebuildError(h, s.root, DigestList(h, s.digests, s.treeSlots), s.outputs) == None
    requires k < |ChainSnapshot(h, s).admitted| && ChainSnapshot(h, s).admitted[k].treeIndex == found.globalIndex
    requires found.globalIndex in s.outputs
    requires found.key == s.outputs[found.globalIndex].key && found.commitment == s.outputs[found.globalIndex].commitment
    ensures ChainSnapshot(h, s).admitted[k].key == found.key && ChainSnapshot(h, s).admitted[k].commitment == found.commitment
  {
    var ds := DigestList(h, s.digests, s.treeSlots);
    MemberIsOutput(h, ds, s.outputs, |ds|, k);
  }

  /** It is spendable in the rebuilt snapshot. */
  lemma OwnedIsSpendable(c: Suite, s: State, w: Wallet, found: OwnedOutput, m: MembershipSnapshot)
    requires OutputsWellFormed(c, s) && ValidWallet(c, w)
    requires found.globalIndex in s.outputs && Owned(c, w, found.globalIndex, s.outputs[found.globalIndex], found)
    requires RebuildError(c.blake, s.root, DigestList(c.blake, s.digests, s.treeSlots), s.outputs) == None
    requires m == ChainSnapshot(c.blake, s)
    ensures Spendable(c, m, found)
  {
    OwnedOpens(c, w, found.globalIndex, s.outputs[found.globalIndex], found);
    forall k | 0 <= k < |m.admitted| && m.admitted[k].treeIndex == found.globalIndex
      ensures m.admitted[k].key == found.key && m.admitted[k].commitment == found.commitment
    {
      MemberMatches(c.blake, s, found, k);
    }
  }

  /** An admitted output is in it, unless its leaf hash is the EMPTY digest. */
  lemma AdmittedIsListed(c: Suite, cfg: Config, s: State, found: OwnedOutput)
    requires TreeInv(c.blake, cfg, s) && s.treeSlots <= MAX_FCMP_ANON_SET && NoLeafLooksEmpty(c.blake, s)
    requires found.globalIndex in s.admitted
    requires RebuildError(c.blake, s.root, DigestList(c.blake, s.digests, s.treeSlots), s.outputs) == None
    ensures InSnapshot(ChainSnapshot(c.blake, s), found)
  {
    var i := found.globalIndex;
    ChainStateRebuilds(c.blake, cfg, s);
    assert AdmittedHolds(cfg, s, i);
    assert Leaves(s)[i] == LeafOf(s, i);
    assert Fcmp.Listed(ChainSnapshot(c.blake, s).admitted, i);
  }

  /** `found` came out of scanning the state for wallet `w`, and the chain has admitted it. */
  ghost predicate ScannedAndAdmitted(c: Suite, s: State, w: Wallet, found: OwnedOutput) {
    && found.globalIndex in s.admitted && found.globalIndex in s.outputs
    && Owned(c, w, found.globalIndex, s.outputs[found.globalIndex], found)
  }

  lemma ScannedIsReady(c: Suite, cfg: Config, s: State, w: Wallet, inputs: seq<OwnedOutput>)
    requires c.Canonical() && ValidWallet(c, w)
    requires TreeInv(c.blake, cfg, s) && s.treeSlots <= MAX_FCMP_ANON_SET && OutputsWellFormed(c, s) && NoLeafLooksEmpty(c.blake, s)
    requires inputs != [] && forall i :: 0 <= i < |inputs| ==> ScannedAndAdmitted(c, s, w, inputs[i])
    ensures RebuildError(c.blake, s.root, DigestList(c.blake, s.digests, s.treeSlots), s.outputs) == None
    ensures var m := ChainSnapshot(c.blake, s);
            && GoodSnapshot(c, m) && m.root == Merkle.Root(c.blake, m.digests)
            && forall i :: 0 <= i < |inputs| ==> InSnapshot(m, inputs[i]) && Spendable(c, m, inputs[i])
  {
    ChainSnapshotIsGood(c, cfg, s);
    forall i | 0 <= i < |inputs|
      ensures InSnapshot(ChainSnapshot(c.blake, s), inputs[i]) && Spendable(c, ChainSnapshot(c.blake, s), inputs[i])
    {
      assert ScannedAndAdmitted(c, s, w, inputs[i]);
      AdmittedIsListed(c, cfg, s, inputs[i]);
      OwnedIsSpendable(c, s, w, inputs[i], ChainSnapshot(c.blake, s));
    }
    assert InSnapshot(ChainSnapshot(c.blake, s), inputs[0]);
  }

  lemma ValidIsDecodable(c: Suite, w: Wallet)
    requires c.Canonical() && ValidWallet(c, w)
    ensures Decodable(c, w.address)
  {
    var a, b :| KeysOf(a, b) == w.keys && AddressOf(c, a, b) == w.address;
  }

  /** `inputs` pass every check of the builder and are ready to spend in the snapshot of `s`. */
  ghost predicate Builds(c: Suite, bp: Bulletproofs, s: State, w: Wallet, inputs: seq<OwnedOutput>, dest: StealthAddress,
                         send: u64, fee: u64) {
    exists m :: RebuildError(c.blake, s.root, DigestList(c.blake, s.digests, s.treeSlots), s.outputs) == None &&
      m == ChainSnapshot(c.blake, s) && PrecheckError(c, inputs, m, send, fee) == None && Ready(c, bp, inputs, m, w.address, dest)
  }

  lemma StateInputsBuild(c: Suite, bp: Bulletproofs, cfg: Config, s: State, w: Wallet, inputs: seq<OwnedOutput>,
                         dest: StealthAddress, send: u64, fee: u64)
    requires c.Canonical() && ValidWallet(c, w) && Decodable(c, dest) && bp.Reliable()
    requires TreeInv(c.blake, cfg, s) && s.treeSlots <= MAX_FCMP_ANON_SET && OutputsWellFormed(c, s) && NoLeafLooksEmpty(c.blake, s)
    requires forall i :: 0 <= i < |inputs| ==> ScannedAndAdmitted(c, s, w, inputs[i])
    requires 1 <= |inputs| <= MAX_FCMP_INPUTS && send + fee <= AmountSum(inputs) < U64_BOUND
    ensures Builds(c, bp, s, w, inputs, dest, send, fee)
  {
    ScannedIsReady(c, cfg, s, w, inputs);
    ValidIsDecodable(c, w);
    NothingToReport(c, inputs, ChainSnapshot(c.blake, s), send, fee);
  }

  lemma NothingToReport(c: Suite, inputs: seq<OwnedOutput>, m: MembershipSnapshot, send: u64, fee: u64)
    requires 1 <= |inputs| <= MAX_FCMP_INPUTS && send + fee <= AmountSum(inputs) < U64_BOUND
    requires m.admitted != [] && |m.digests| <= MAX_FCMP_ANON_SET && m.root == Merkle.Root(c.blake, m.digests)
    requires forall i :: 0 <= i < |inputs| ==> InSnapshot(m, inputs[i])
    ensures PrecheckError(c, inputs, m, send, fee) == None
  {
  }

  /** In any reachable state of the native ledger of at most 64 slots: inputs the wallet scanned there
    * and the chain has admitted pass every check of the builder and are ready to spend in the
    * snapshot rebuilt from the chain's storage, if they cover the amount and the fee.
    */
  lemma ScannedInputsBuild(c: Suite, bp: Bulletproofs, cfg: Config, past: seq<Block>, xs: Block, s: State, w: Wallet,
                           inputs: seq<OwnedOutput>, dest: StealthAddress, send: u64, fee: u64)
    requires c.Canonical() && ValidWallet(c, w) && Decodable(c, dest) && bp.Reliable()
    requires s == During(NativeHost(c, bp), cfg, past, xs) && s.treeSlots <= MAX_FCMP_ANON_SET && NoLeafLooksEmpty(c.blake, s)
    requires forall i :: 0 <= i < |inputs| ==> ScannedAndAdmitted(c, s, w, inputs[i])
    requires 1 <= |inputs| <= MAX_FCMP_INPUTS && send + fee <= AmountSum(inputs) < U64_BOUND
    ensures Builds(c, bp, s, w, inputs, dest, send, fee)
  {
    RunKeepsTree(NativeHost(c, bp), cfg, past, xs);
    RunKeepsPoints(c, bp, cfg, past, xs);
    StateInputsBuild(c, bp, cfg, s, w, inputs, dest, send, fee);
  }
}

/** Every key and commitment the chain stores decodes, so every full ring parses. */
module ChainPoints {
  import opened Bytes
  import opened Group
  import opened Hosts
  import opened Native
  import opened Merkle
  import opened FcmpCodec
  import opened Transactions
  import opened Pallet
  import opened TreeInvariant
  import opened Spends
  import Clsag
  import Emission
  import Fcmp

  /** Key and commitment decode, and a public amount is the one committed to. */
  ghost predicate WellFormed(c: Suite, out: StoredOutput) {
    && (c.decompress)(out.key).Some? && (c.decompress)(out.commitment).Some?
    && (out.amount.Some? ==> out.commitment == ValueCommitment(c, out.amount.value))
  }

  ghost predicate OutputsWellFormed(c: Suite, s: State) {
    forall i: nat :: i in s.outputs ==> WellFormed(c, s.outputs[i])
  }

  lemma {:induction false} MintKeepsPoints(h: Hash, c: Suite, s: State, outs: seq<StoredOutput>)
    requires OutputsWellFormed(c, s) && forall j :: 0 <= j < |outs| ==> WellFormed(c, outs[j])
    ensures OutputsWellFormed(c, MintAll(h, s, outs))
  {
    if outs != [] {
      MintKeepsPoints(h, c, s, outs[..|outs| - 1]);
      MintInSteps(h, MintAll(h, s, outs[..|outs| - 1]), outs[|outs| - 1]);
    }
  }

  lemma {:induction false} CoinbaseKeysValid(host: Host, outs: seq<CoinbaseOutput>, total: nat, j: nat)
    requires CoinbaseOutputsError(host, outs, total) == None && j < |outs|
    ensures (host.isValidPoint)(outs[j].key)
  {
    if j > 0 {
      CoinbaseKeysValid(host, outs[1..], total + outs[0].amount, j - 1);
    }
  }

  lemma CoinbasePoints(c: Suite, bp: Bulletproofs, s: State, outs: seq<CoinbaseOutput>, txPubkey: Bytes32)
    requires c.Canonical() && CoinbaseError(NativeHost(c, bp), s, outs, txPubkey) == None
    ensures forall j :: 0 <= j < |outs| ==> WellFormed(c, CoinbaseOutputs(NativeHost(c, bp), s.now, outs, txPubkey)[j])
  {
    forall j | 0 <= j < |outs|
      ensures WellFormed(c, CoinbaseOutputs(NativeHost(c, bp), s.now, outs, txPubkey)[j])
    {
      CoinbaseKeysValid(NativeHost(c, bp), outs, 0, j);
      var p := CommitTo(c, Opening(outs[j].amount, 0));
      assert (c.decompress)((c.compress)(p)) == Some(p);
    }
  }

  /** A balanced transfer has decodable output commitments. */
  lemma BalancedDecode(c: Suite, ins: Bytes, outs: seq<Bytes32>, fee: u64, j: nat)
    requires VerifyBalance(c, ins, Flatten(outs), fee) && j < |outs|
    ensures (c.decompress)(outs[j]).Some?
  {
    ParseFlatten(outs);
  }

  lemma AcceptedOutputs(host: Host, cfg: Config, s: State, tx: TransferTx)
    requires TransferError(host, cfg, s, tx) == None
    ensures OutputKeysValid(host, tx.outputs)
    ensures (host.balance)(Flatten(Pseudos(tx.inputs)), Flatten(CommitmentList(tx.outputs)), tx.fee)
  {
  }

  lemma TransferPoints(c: Suite, bp: Bulletproofs, cfg: Config, s: State, tx: TransferTx)
    requires TransferError(NativeHost(c, bp), cfg, s, tx) == None
    ensures forall j :: 0 <= j < |tx.outputs| ==> WellFormed(c, TransferStored(s.now, tx)[j])
  {
    AcceptedOutputs(NativeHost(c, bp), cfg, s, tx);
    forall j | 0 <= j < |tx.outputs|
      ensures WellFormed(c, TransferStored(s.now, tx)[j])
    {
      assert (NativeHost(c, bp).isValidPoint)(tx.outputs[j].key);
      BalancedDecode(c, Flatten(Pseudos(tx.inputs)), CommitmentList(tx.outputs), tx.fee, j);
    }
  }

  lemma DispatchKeepsPoints(c: Suite, bp: Bulletproofs, cfg: Config, s: State, x: Extrinsic)
    requires c.Canonical() && OutputsWellFormed(c, s)
    ensures OutputsWellFormed(c, Dispatch(NativeHost(c, bp), cfg, s, x))
  {
    var host := NativeHost(c, bp);
    match Call(host, cfg, s, x)
    case Err(_) =>
    case Ok(_) =>
      match x
      case TransferCall(tx) =>
        TransferApplies(host, cfg, s, tx);
        AcceptedTransfer(host, s, tx);
        TransferPoints(c, bp, cfg, s, tx);
        MintKeepsPoints(c.blake, c, s.(keyImages := s.keyImages + KeyImagesOf(tx), blockFees := s.blockFees + tx.fee),
                        TransferStored(s.now, tx));
      case CoinbaseCall(outs, txPubkey) =>
        AcceptedCoinbase(host, s, outs, txPubkey);
        CoinbasePoints(c, bp, s, outs, txPubkey);
        MintKeepsPoints(c.blake, c, s.(blockFees := 0, emitted := s.emitted + Emission.BlockReward(s.emitted), coinbaseDone := true),
                        CoinbaseOutputs(host, s.now, outs, txPubkey));
  }

  /** In every reachable state of the native ledger every stored key and commitment decodes. */
  lemma {:induction false} RunKeepsPoints(c: Suite, bp: Bulletproofs, cfg: Config, past: seq<Block>, xs: Block)
    requires c.Canonical()
    ensures OutputsWellFormed(c, During(NativeHost(c, bp), cfg, past, xs))
    decreases |past|, |xs|
  {
    var host := NativeHost(c, bp);
    if xs != [] {
      RunKeepsPoints(c, bp, cfg, past, xs[..|xs| - 1]);
      DispatchKeepsPoints(c, bp, cfg, During(host, cfg, past, xs[..|xs| - 1]), xs[|xs| - 1]);
    } else if past != [] {
      RunKeepsPoints(c, bp, cfg, past[..|past| - 1], past[|past| - 1]);
      FinalizeKeepsLedger(host.blake, cfg, During(host, cfg, past[..|past| - 1], past[|past| - 1]));
    }
  }

  lemma MembersDecode(c: Suite, s: State, ring: seq<RingMember>, k: nat)
    requires OutputsWellFormed(c, s) && Fcmp.RingOf(Leaves(s), ring) && k < |ring|
    ensures (c.decompress)(ring[k].key).Some? && (c.decompress)(ring[k].commitment).Some?
  {
    var i := ring[k].treeIndex;
    assert Leaves(s)[i] == LeafOf(s, i);
  }

  /** So the full ring of any reachable state parses: no stored output can block a spend. */
  lemma FullRingParses(c: Suite, bp: Bulletproofs, cfg: Config, past: seq<Block>, xs: Block, ring: seq<RingMember>)
    requires c.Canonical() && 1 <= |ring| <= MAX_FCMP_RING
    requires Fcmp.RingOf(Leaves(During(NativeHost(c, bp), cfg, past, xs)), ring)
    ensures Clsag.RingParses(c, Fcmp.RingBlob(ring), MAX_FCMP_RING)
  {
    var s, blob := During(NativeHost(c, bp), cfg, past, xs), Fcmp.RingBlob(ring);
    RunKeepsPoints(c, bp, cfg, past, xs);
    Fcmp.RingBlobReads(ring, 0);
    FlattenLength(Fcmp.BlobParts(ring), 64);
    forall i | 0 <= i < Clsag.RingSize(blob)
      ensures Clsag.Decodes(c, blob, i)
    {
      Fcmp.RingBlobReads(ring, i);
      MembersDecode(c, s, ring, i);
    }
  }
}

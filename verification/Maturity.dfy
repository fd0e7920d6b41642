/** Maturity in terms of the extrinsics that made the outputs: who minted what, when, and how old an
  * output is when it is admitted or spent.
  */
module Maturity {
  import opened Bytes
  import opened Merkle
  import opened Hosts
  import opened FcmpCodec
  import opened Transactions
  import opened Pallet
  import opened RoundRobin
  import opened TreeInvariant
  import opened RootWindow
  import opened Spends
  import Emission
  import Fcmp

  /** How an output came to be: by a coinbase or a transfer, in which block. */
  datatype Origin = Origin(byCoinbase: bool, block: nat)

  /** The extrinsic of the run that minted output `i`: the one during which the next index passed it. */
  ghost function OriginOf(host: Host, cfg: Config, past: seq<Block>, xs: Block, i: nat): Option<Origin>
    decreases |past|, |xs|
  {
    if xs != [] then
      var before, x := During(host, cfg, past, xs[..|xs| - 1]), xs[|xs| - 1];
      if before.nextOutputIndex <= i < During(host, cfg, past, xs).nextOutputIndex then Some(Origin(x.CoinbaseCall?, |past| + 1))
      else OriginOf(host, cfg, past, xs[..|xs| - 1], i)
    else if past != [] then OriginOf(host, cfg, past[..|past| - 1], past[|past| - 1], i)
    else None
  }

  /** Output `i` of `t` was made in block `height`, by a coinbase or not. */
  ghost predicate MadeIn(t: State, i: nat, byCoinbase: bool, height: nat) {
    i in t.outputs && t.outputs[i].coinbase == byCoinbase && t.outputs[i].height == height
  }

  lemma MintedAt(h: Hash, paid: State, stored: seq<StoredOutput>, byCoinbase: bool, height: nat, i: nat)
    requires paid.nextOutputIndex <= i < MintAll(h, paid, stored).nextOutputIndex
    requires forall j :: 0 <= j < |stored| ==> stored[j].coinbase == byCoinbase && stored[j].height == height
    ensures MadeIn(MintAll(h, paid, stored), i, byCoinbase, height)
  {
    MintAllPlaces(h, paid, stored, i - paid.nextOutputIndex);
  }

  lemma TransferRecords(host: Host, cfg: Config, s: State, tx: TransferTx, i: nat)
    requires Transfer(host, cfg, s, tx).Ok? && s.nextOutputIndex <= i < Transfer(host, cfg, s, tx).state.nextOutputIndex
    ensures MadeIn(Transfer(host, cfg, s, tx).state, i, false, s.now)
  {
    TransferApplies(host, cfg, s, tx);
    AcceptedTransfer(host, s, tx);
    var paid := s.(keyImages := s.keyImages + KeyImagesOf(tx), blockFees := s.blockFees + tx.fee);
    MintedAt(host.blake, paid, TransferStored(s.now, tx), false, s.now, i);
  }

  lemma CoinbaseRecords(host: Host, s: State, outs: seq<CoinbaseOutput>, txPubkey: Bytes32, i: nat)
    requires Coinbase(host, s, outs, txPubkey).Ok? && s.nextOutputIndex <= i < Coinbase(host, s, outs, txPubkey).state.nextOutputIndex
    ensures MadeIn(Coinbase(host, s, outs, txPubkey).state, i, true, s.now)
  {
    AcceptedCoinbase(host, s, outs, txPubkey);
    var paid := s.(blockFees := 0, emitted := s.emitted + Emission.BlockReward(s.emitted), coinbaseDone := true);
    MintedAt(host.blake, paid, CoinbaseOutputs(host, s.now, outs, txPubkey), true, s.now, i);
  }

  /** What an applied extrinsic mints records the extrinsic's kind and block. */
  lemma MintsRecord(host: Host, cfg: Config, s: State, x: Extrinsic, i: nat)
    requires Call(host, cfg, s, x).Ok? && s.nextOutputIndex <= i < Call(host, cfg, s, x).state.nextOutputIndex
    ensures MadeIn(Call(host, cfg, s, x).state, i, x.CoinbaseCall?, s.now)
  {
    match x
    case TransferCall(tx) => TransferRecords(host, cfg, s, tx, i);
    case CoinbaseCall(outs, txPubkey) => CoinbaseRecords(host, s, outs, txPubkey, i);
  }

  /** Output `i` of `s` records the origin it has. */
  ghost predicate Recorded(s: State, i: nat, origin: Option<Origin>) {
    i in s.outputs && origin == Some(Origin(s.outputs[i].coinbase, s.outputs[i].height))
  }

  lemma DispatchRecords(host: Host, cfg: Config, s: State, x: Extrinsic, i: nat)
    requires TreeInv(host.blake, cfg, s) && s.nextOutputIndex <= i < Dispatch(host, cfg, s, x).nextOutputIndex
    ensures Recorded(Dispatch(host, cfg, s, x), i, Some(Origin(x.CoinbaseCall?, s.now)))
  {
    MintsRecord(host, cfg, s, x, i);
  }

  /** In every reachable state each output records the extrinsic that minted it. */
  lemma {:induction false} OutputsRecordOrigin(host: Host, cfg: Config, past: seq<Block>, xs: Block, i: nat)
    requires i < During(host, cfg, past, xs).nextOutputIndex
    ensures Recorded(During(host, cfg, past, xs), i, OriginOf(host, cfg, past, xs, i))
    decreases |past|, |xs|
  {
    if xs != [] {
      ExtrinsicRecordsOrigin(host, cfg, past, xs, i);
    } else if past != [] {
      var before, last := past[..|past| - 1], past[|past| - 1];
      FinalizeKeepsLedger(host.blake, cfg, During(host, cfg, before, last));
      OutputsRecordOrigin(host, cfg, before, last, i);
    }
  }

  lemma {:induction false} ExtrinsicRecordsOrigin(host: Host, cfg: Config, past: seq<Block>, xs: Block, i: nat)
    requires xs != [] && i < During(host, cfg, past, xs).nextOutputIndex
    ensures Recorded(During(host, cfg, past, xs), i, OriginOf(host, cfg, past, xs, i))
    decreases |past|, |xs|, 0
  {
    var ys, x := xs[..|xs| - 1], xs[|xs| - 1];
    var s := During(host, cfg, past, ys);
    RunKeepsTree(host, cfg, past, ys);
    if s.nextOutputIndex <= i {
      RunKeepsWindow(host, cfg, past, ys);
      DispatchRecords(host, cfg, s, x, i);
    } else {
      OutputsRecordOrigin(host, cfg, past, ys, i);
      DispatchKeepsTree(host, cfg, s, x);
    }
  }

  // ---- age ----------------------------------------------------------------

  /** An output of this origin has waited long enough at block `now`: `CoinbaseMaturity` blocks if a
    * coinbase minted it, `SpendableAge` blocks if a transfer did.
    */
  predicate OldEnough(cfg: Config, origin: Origin, now: nat) {
    && (origin.byCoinbase ==> now >= origin.block + cfg.coinbaseMaturity)
    && (!origin.byCoinbase ==> now >= origin.block + cfg.spendableAge)
  }

  lemma MatureMeansOld(cfg: Config, out: StoredOutput, now: nat)
    ensures Mature(cfg, out, now) <==> OldEnough(cfg, Origin(out.coinbase, out.height), now)
  {
  }

  /** In every reachable state an admitted output is that old, by the block and the kind of the
    * extrinsic that minted it.
    */
  lemma AdmittedIsOld(host: Host, cfg: Config, past: seq<Block>, xs: Block, i: nat)
    requires i in During(host, cfg, past, xs).admitted
    ensures OriginOf(host, cfg, past, xs, i).Some?
    ensures OldEnough(cfg, OriginOf(host, cfg, past, xs, i).value, During(host, cfg, past, xs).now)
  {
    var s := During(host, cfg, past, xs);
    RunKeepsTree(host, cfg, past, xs);
    assert AdmittedHolds(cfg, s, i);
    OutputsRecordOrigin(host, cfg, past, xs, i);
    MatureMeansOld(cfg, s.outputs[i], s.now);
  }

  /** The converse: the fill's backlog is exactly the grown slots not yet admitted that are that old. */
  lemma BacklogIsTheOld(host: Host, cfg: Config, past: seq<Block>, xs: Block, i: nat)
    ensures var s := During(host, cfg, past, xs);
            i in Backlog(cfg, s) <==> i < s.treeSlots && i !in s.admitted && OriginOf(host, cfg, past, xs, i).Some? &&
                                      OldEnough(cfg, OriginOf(host, cfg, past, xs, i).value, s.now)
  {
    var s := During(host, cfg, past, xs);
    RunKeepsTree(host, cfg, past, xs);
    BacklogMeans(cfg, s, i);
    if i < s.treeSlots {
      OutputsRecordOrigin(host, cfg, past, xs, i);
      MatureMeansOld(cfg, s.outputs[i], s.now);
    }
  }

  lemma BacklogMeans(cfg: Config, s: State, i: nat)
    ensures i in Backlog(cfg, s) <==> i < s.treeSlots && i !in s.admitted && i in s.outputs && Mature(cfg, s.outputs[i], s.now)
  {
  }

  /** So with at most 64 of them waiting, the end of the block admits every grown slot that is that old. */
  lemma OldIsAdmitted(host: Host, cfg: Config, past: seq<Block>, xs: Block, i: nat)
    requires var s := During(host, cfg, past, xs);
             |Backlog(cfg, s)| <= 64 && i < s.treeSlots && OriginOf(host, cfg, past, xs, i).Some? &&
             OldEnough(cfg, OriginOf(host, cfg, past, xs, i).value, s.now)
    ensures i in Finalize(host.blake, cfg, During(host, cfg, past, xs)).admitted
  {
    var s := During(host, cfg, past, xs);
    BacklogIsTheOld(host, cfg, past, xs, i);
    FillAdmitsBacklog(host.blake, cfg, s);
    CatchupKeepsShapeOf(host.blake, cfg, s);
  }

  lemma CatchupKeepsShapeOf(h: Hash, cfg: Config, s: State)
    ensures Finalize(h, cfg, s).admitted == AdmitMature(h, cfg, s).admitted
  {
    CatchupKeepsAdmitted(h, AdmitMature(h, cfg, s), CATCHUP_MAX);
  }

  lemma {:induction false} CatchupKeepsAdmitted(h: Hash, s: State, budget: nat)
    ensures Catchup(h, s, budget).admitted == s.admitted
    decreases budget
  {
    if budget > 0 && s.treeSlots < s.nextOutputIndex {
      CatchupKeepsAdmitted(h, GrowEmpty(h, s), budget - 1);
    }
  }

  /** Every member of an accepted proof's ring, and so whatever it spends, is that old. */
  lemma RingIsOld(host: Host, cfg: Config, past: seq<Block>, xs: Block, msg: Bytes, root: Bytes32, pseudo: Bytes32,
                  keyImage: Bytes32, proof: Bytes, strings: set<Bytes>, k: nat)
    requires RootAccepted(During(host, cfg, past, xs), root) && Fcmp.Accepts(host, msg, root, pseudo, keyImage, proof)
    requires RunHashes(host, cfg, past, xs, strings) && Fcmp.ProofHashes(host.blake, proof, strings)
    requires CollisionFree(host.blake, strings) && k < |Parse(proof).value.ring|
    ensures var i := Parse(proof).value.ring[k].treeIndex;
            && OriginOf(host, cfg, past, xs, i).Some?
            && OldEnough(cfg, OriginOf(host, cfg, past, xs, i).value, During(host, cfg, past, xs).now)
  {
    var anchor := MembershipImpliesMaturity(host, cfg, past, xs, msg, root, pseudo, keyImage, proof, strings);
    assert MatureMember(cfg, anchor, During(host, cfg, past, xs), Parse(proof).value.ring[k]);
    AdmittedIsOld(host, cfg, past, xs, Parse(proof).value.ring[k].treeIndex);
  }
}

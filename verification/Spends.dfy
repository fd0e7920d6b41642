/** No double spend, and emission, over every run. */
module Spends {
  import opened Bytes
  import opened Hosts
  import opened Transactions
  import opened Pallet
  import opened TreeInvariant
  import Emission
  import Fcmp
  import Merkle

  // ---- key images within one transfer -------------------------------------

  lemma {:induction false} SortedIsOrdered(inputs: seq<FcmpInput>, i: nat, j: nat)
    requires SortedUnique(inputs) && i < j < |inputs|
    ensures Less(inputs[i].keyImage, inputs[j].keyImage)
  {
    if i < j - 1 {
      SortedIsOrdered(inputs, i, j - 1);
      LessIsTransitive(inputs[i].keyImage, inputs[j - 1].keyImage, inputs[j].keyImage);
    }
  }

  lemma SortedIsDistinct(inputs: seq<FcmpInput>)
    requires SortedUnique(inputs)
    ensures Distinct(Images(inputs))
  {
    forall i, j | 0 <= i < j < |inputs|
      ensures Images(inputs)[i] != Images(inputs)[j]
    {
      SortedIsOrdered(inputs, i, j);
      LessIsIrreflexive(inputs[i].keyImage);
    }
  }

  // ---- key images over a run ----------------------------------------------

  /** The key images an extrinsic spends, if it succeeds. */
  ghost function ImagesSpent(host: Host, cfg: Config, s: State, x: Extrinsic): seq<Bytes32> {
    if x.TransferCall? && Call(host, cfg, s, x).Ok? then Images(x.tx.inputs) else []
  }

  /** The key images of every transfer applied so far, in order. */
  ghost function SpentDuring(host: Host, cfg: Config, past: seq<Block>, xs: Block): seq<Bytes32>
    decreases |past|, 1, |xs|
  {
    if xs == [] then SpentBefore(host, cfg, past)
    else
      SpentDuring(host, cfg, past, xs[..|xs| - 1]) +
      ImagesSpent(host, cfg, During(host, cfg, past, xs[..|xs| - 1]), xs[|xs| - 1])
  }

  ghost function SpentBefore(host: Host, cfg: Config, past: seq<Block>): seq<Bytes32>
    decreases |past|, 0, 0
  {
    if past == [] then [] else SpentDuring(host, cfg, past[..|past| - 1], past[|past| - 1])
  }

  /** The stored key images are exactly those spent, and none was spent twice. */
  ghost predicate SpendsRecorded(s: State, spent: seq<Bytes32>) {
    Distinct(spent) && forall ki :: ki in s.keyImages <==> ki in spent
  }

  /** What acceptance says about the key images: sorted, unspent, and recorded. */
  lemma {:induction false} UnspentInputs(host: Host, s: State, tx: TransferTx, inputs: seq<FcmpInput>, i: nat)
    requires InputsError(host, s, tx, inputs) == None && i < |inputs|
    ensures inputs[i].keyImage !in s.keyImages
    ensures Fcmp.Accepts(host, SigningHash(host.blake, tx), tx.root, inputs[i].pseudo, inputs[i].keyImage, inputs[i].proof)
  {
    if i > 0 {
      UnspentInputs(host, s, tx, inputs[1..], i - 1);
    }
  }

  lemma {:induction false} NoInputRefused(host: Host, s: State, tx: TransferTx, inputs: seq<FcmpInput>)
    requires InputsError(host, s, tx, inputs) == None
    ensures InputRefusal(s, inputs) == None
  {
    if inputs != [] {
      NoInputRefused(host, s, tx, inputs[1..]);
    }
  }

  /** The pool never turns away a transfer that full verification would accept. */
  lemma VerifiedIsAuthorized(host: Host, cfg: Config, s: State, tx: TransferTx)
    requires TransferError(host, cfg, s, tx) == None
    ensures AuthorizeRefusal(cfg, s, tx) == None
  {
    NoInputRefused(host, s, tx, tx.inputs);
  }

  lemma TransferRecordsSpends(host: Host, cfg: Config, s: State, tx: TransferTx, spent: seq<Bytes32>)
    requires SpendsRecorded(s, spent) && TransferError(host, cfg, s, tx) == None
    ensures Distinct(spent + Images(tx.inputs))
    ensures forall ki :: ki in s.keyImages + KeyImagesOf(tx) <==> ki in spent + Images(tx.inputs)
  {
    SortedIsDistinct(tx.inputs);
    forall i | 0 <= i < |tx.inputs|
      ensures Images(tx.inputs)[i] !in spent
    {
      UnspentInputs(host, s, tx, tx.inputs, i);
    }
    forall ki
      ensures ki in KeyImagesOf(tx) <==> ki in Images(tx.inputs)
    {
      if ki in KeyImagesOf(tx) {
        var i: nat :| i < |tx.inputs| && tx.inputs[i].keyImage == ki;
        assert Images(tx.inputs)[i] == ki;
      }
    }
  }

  lemma DispatchRecordsSpends(host: Host, cfg: Config, s: State, x: Extrinsic, spent: seq<Bytes32>)
    requires SpendsRecorded(s, spent)
    ensures SpendsRecorded(Dispatch(host, cfg, s, x), spent + ImagesSpent(host, cfg, s, x))
  {
    match Call(host, cfg, s, x)
    case Err(_) =>
      assert spent + [] == spent;
    case Ok(t) =>
      match x
      case TransferCall(tx) =>
        TransferApplies(host, cfg, s, tx);
        AcceptedTransfer(host, s, tx);
        TransferRecordsSpends(host, cfg, s, tx, spent);
        MintAllFrame(host.blake, s.(keyImages := s.keyImages + KeyImagesOf(tx), blockFees := s.blockFees + tx.fee),
                     TransferStored(s.now, tx));
      case CoinbaseCall(outs, txPubkey) =>
        AcceptedCoinbase(host, s, outs, txPubkey);
        MintAllFrame(host.blake, s.(blockFees := 0, emitted := s.emitted + Emission.BlockReward(s.emitted), coinbaseDone := true),
                     CoinbaseOutputs(host, s.now, outs, txPubkey));
        assert spent + [] == spent;
  }

  lemma {:induction false} CatchupKeepsLedger(h: Merkle.Hash, s: State, budget: nat)
    ensures var t := Catchup(h, s, budget);
            t.keyImages == s.keyImages && t.emitted == s.emitted && t.blockFees == s.blockFees && t.outputs == s.outputs
            && t.nextOutputIndex == s.nextOutputIndex && t.coinbaseDone == s.coinbaseDone
    decreases budget
  {
    if budget > 0 && s.treeSlots < s.nextOutputIndex {
      CatchupKeepsLedger(h, GrowEmpty(h, s), budget - 1);
    }
  }

  /** The end-of-block hook moves no money. */
  lemma FinalizeKeepsLedger(h: Merkle.Hash, cfg: Config, s: State)
    ensures var t := Finalize(h, cfg, s);
            t.keyImages == s.keyImages && t.emitted == s.emitted && t.blockFees == s.blockFees && t.outputs == s.outputs
            && t.nextOutputIndex == s.nextOutputIndex && t.coinbaseDone == s.coinbaseDone
  {
    CatchupKeepsLedger(h, AdmitMature(h, cfg, s), CATCHUP_MAX);
  }

  /** No double spend: in every reachable state the stored key images are exactly those of the
    * applied transfers, which are pairwise distinct within and across transfers.
    */
  lemma {:induction false} NoDoubleSpend(host: Host, cfg: Config, past: seq<Block>, xs: Block)
    ensures SpendsRecorded(During(host, cfg, past, xs), SpentDuring(host, cfg, past, xs))
    decreases |past|, |xs|
  {
    if xs != [] {
      var ys := xs[..|xs| - 1];
      NoDoubleSpend(host, cfg, past, ys);
      DispatchRecordsSpends(host, cfg, During(host, cfg, past, ys), xs[|xs| - 1], SpentDuring(host, cfg, past, ys));
    } else if past != [] {
      var before, last := past[..|past| - 1], past[|past| - 1];
      NoDoubleSpend(host, cfg, before, last);
      FinalizeKeepsLedger(host.blake, cfg, During(host, cfg, before, last));
    }
  }

  // ---- emission over a run ------------------------------------------------

  ghost function CoinbasesIn(host: Host, cfg: Config, s: State, x: Extrinsic): nat {
    if x.CoinbaseCall? && Call(host, cfg, s, x).Ok? then 1 else 0
  }

  /** How many coinbases have succeeded so far. */
  ghost function CoinbasesDuring(host: Host, cfg: Config, past: seq<Block>, xs: Block): nat
    decreases |past|, 1, |xs|
  {
    if xs == [] then CoinbasesBefore(host, cfg, past)
    else CoinbasesDuring(host, cfg, past, xs[..|xs| - 1]) + CoinbasesIn(host, cfg, During(host, cfg, past, xs[..|xs| - 1]), xs[|xs| - 1])
  }

  ghost function CoinbasesBefore(host: Host, cfg: Config, past: seq<Block>): nat
    decreases |past|, 0, 0
  {
    if past == [] then 0 else CoinbasesDuring(host, cfg, past[..|past| - 1], past[|past| - 1])
  }

  /** After `k` coinbases in `blocks` complete blocks and the current one, at most one in each,
    * the supply is the schedule's, between k tail rewards and the curve's ceiling plus that.
    */
  ghost predicate OnSchedule(s: State, k: nat, blocks: nat) {
    && s.emitted == Emission.Emitted(k) && Emission.InBand(k, s.emitted)
    && k <= blocks + if s.coinbaseDone then 1 else 0
  }

  lemma CoinbaseEmits(host: Host, s: State, outs: seq<CoinbaseOutput>, txPubkey: Bytes32, k: nat, blocks: nat)
    requires OnSchedule(s, k, blocks) && Coinbase(host, s, outs, txPubkey).Ok?
    ensures OnSchedule(Coinbase(host, s, outs, txPubkey).state, k + 1, blocks)
  {
    AcceptedCoinbase(host, s, outs, txPubkey);
    Emission.StepStaysInBand(k, s.emitted);
    MintAllFrame(host.blake, s.(blockFees := 0, emitted := s.emitted + Emission.BlockReward(s.emitted), coinbaseDone := true),
                 CoinbaseOutputs(host, s.now, outs, txPubkey));
  }

  lemma TransferEmitsNothing(host: Host, cfg: Config, s: State, tx: TransferTx, k: nat, blocks: nat)
    requires OnSchedule(s, k, blocks) && Transfer(host, cfg, s, tx).Ok?
    ensures OnSchedule(Transfer(host, cfg, s, tx).state, k, blocks)
  {
    TransferApplies(host, cfg, s, tx);
    AcceptedTransfer(host, s, tx);
    MintAllFrame(host.blake, s.(keyImages := s.keyImages + KeyImagesOf(tx), blockFees := s.blockFees + tx.fee),
                 TransferStored(s.now, tx));
  }

  lemma DispatchEmits(host: Host, cfg: Config, s: State, x: Extrinsic, k: nat, blocks: nat) returns (t: State, k': nat)
    requires OnSchedule(s, k, blocks)
    ensures t == Dispatch(host, cfg, s, x) && k' == k + CoinbasesIn(host, cfg, s, x)
    ensures OnSchedule(t, k', blocks)
  {
    t, k' := Dispatch(host, cfg, s, x), k + CoinbasesIn(host, cfg, s, x);
    match Call(host, cfg, s, x)
    case Err(_) =>
    case Ok(_) =>
      match x
      case TransferCall(tx) => TransferEmitsNothing(host, cfg, s, tx, k, blocks);
      case CoinbaseCall(outs, txPubkey) => CoinbaseEmits(host, s, outs, txPubkey, k, blocks);
  }

  /** The end of a block emits nothing and lets the next block have its own coinbase. */
  lemma BlockEndEmits(h: Merkle.Hash, cfg: Config, s: State, k: nat, blocks: nat)
    requires OnSchedule(s, k, blocks)
    ensures OnSchedule(Initialize(Finalize(h, cfg, s)), k, blocks + 1)
  {
    FinalizeKeepsLedger(h, cfg, s);
  }

  /** The schedule after every coinbase of the run so far. */
  ghost predicate RunOnSchedule(host: Host, cfg: Config, past: seq<Block>, xs: Block) {
    exists k :: k == CoinbasesDuring(host, cfg, past, xs) && OnSchedule(During(host, cfg, past, xs), k, |past|)
  }

  lemma ExtrinsicKeepsSchedule(host: Host, cfg: Config, past: seq<Block>, ys: Block, x: Extrinsic)
    requires RunOnSchedule(host, cfg, past, ys)
    ensures RunOnSchedule(host, cfg, past, ys + [x])
  {
    assert (ys + [x])[..|ys|] == ys;
    var s, k := During(host, cfg, past, ys), CoinbasesDuring(host, cfg, past, ys);
    var t, k' := DispatchEmits(host, cfg, s, x, k, |past|);
    assert OnSchedule(t, k', |past|);
    assert During(host, cfg, past, ys + [x]) == t && CoinbasesDuring(host, cfg, past, ys + [x]) == k';
  }

  lemma BlockKeepsSchedule(host: Host, cfg: Config, past: seq<Block>, last: Block)
    requires RunOnSchedule(host, cfg, past, last)
    ensures RunOnSchedule(host, cfg, past + [last], [])
  {
    assert (past + [last])[..|past|] == past;
    var s, k := During(host, cfg, past, last), CoinbasesDuring(host, cfg, past, last);
    var t := Initialize(Finalize(host.blake, cfg, s));
    BlockEndEmits(host.blake, cfg, s, k, |past|);
    assert OnSchedule(t, k, |past| + 1);
    assert During(host, cfg, past + [last], []) == t && CoinbasesDuring(host, cfg, past + [last], []) == k;
  }

  /** In every reachable state the emitted supply is the schedule's after the coinbases so far, of
    * which there is at most one a block.
    */
  lemma {:induction false} EmissionFollowsSchedule(host: Host, cfg: Config, past: seq<Block>, xs: Block)
    ensures RunOnSchedule(host, cfg, past, xs)
    decreases |past|, |xs|
  {
    if xs != [] {
      var ys, x := xs[..|xs| - 1], xs[|xs| - 1];
      EmissionFollowsSchedule(host, cfg, past, ys);
      ExtrinsicKeepsSchedule(host, cfg, past, ys, x);
      assert ys + [x] == xs;
    } else if past != [] {
      var before, last := past[..|past| - 1], past[|past| - 1];
      EmissionFollowsSchedule(host, cfg, before, last);
      BlockKeepsSchedule(host, cfg, before, last);
      assert before + [last] == past;
    } else {
      assert OnSchedule(During(host, cfg, [], []), 0, 0);
    }
  }

  // ---- the rate of emission -----------------------------------------------

  /** In every reachable state the supply is the one that as many steps on the rate as there were
    * coinbases lead to.
    */
  lemma SupplyFollowsRate(host: Host, cfg: Config, past: seq<Block>, xs: Block, es: seq<u64>)
    requires Emission.RateSequence(es) && CoinbasesDuring(host, cfg, past, xs) < |es|
    ensures During(host, cfg, past, xs).emitted == es[CoinbasesDuring(host, cfg, past, xs)]
  {
    EmissionFollowsSchedule(host, cfg, past, xs);
    Emission.ScheduleIsTheRate(es, CoinbasesDuring(host, cfg, past, xs));
  }

  /** An accepted coinbase pays the pending fees and the reward on the rate, which is what it emits. */
  lemma CoinbasePaysRate(host: Host, s: State, outs: seq<CoinbaseOutput>, txPubkey: Bytes32)
    requires Coinbase(host, s, outs, txPubkey).Ok?
    ensures var t, reward := Coinbase(host, s, outs, txPubkey).state, CoinbaseTotal(outs) - s.blockFees;
            Emission.OnRate(s.emitted, reward) && t.emitted == s.emitted + reward && t.blockFees == 0 && t.coinbaseDone
  {
    AcceptedCoinbase(host, s, outs, txPubkey);
    Emission.RewardIsOnRate(s.emitted, Emission.BlockReward(s.emitted));
    MintAllFrame(host.blake, s.(blockFees := 0, emitted := s.emitted + Emission.BlockReward(s.emitted), coinbaseDone := true),
                 CoinbaseOutputs(host, s.now, outs, txPubkey));
  }

  /** The first coinbase of the chain pays 17,547,607,421 units plus the fees, no more and no less. */
  lemma FirstCoinbasePays(host: Host, s: State, outs: seq<CoinbaseOutput>, txPubkey: Bytes32)
    requires s.emitted == 0 && CoinbaseTotal(outs) != 17_547_607_421 + s.blockFees
    ensures Coinbase(host, s, outs, txPubkey).Err?
  {
    if Coinbase(host, s, outs, txPubkey).Ok? {
      CoinbasePaysRate(host, s, outs, txPubkey);
    }
  }
}

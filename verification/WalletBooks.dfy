/** Wallets and conservation together: what wallets build creates no money. */
module WalletBooks {
  import opened Bytes
  import opened Limits
  import opened Group
  import opened Merkle
  import opened Native
  import opened FcmpCodec
  import opened Transactions
  import opened Pallet
  import opened Ideal
  import opened Conservation
  import opened HashedStrings
  import opened IdealLedger
  import opened WalletScan
  import opened WalletStaging
  import opened WalletBuild
  import Fcmp

  // ---- what the maker of a transfer knows ---------------------------------

  function ScalarOrZero(b: Bytes): Scalar {
    match ScalarFrom(b)
    case None => 0
    case Some(x) => x
  }

  /** The witness of a staged input: its position, its secret, the difference of the blindings. */
  function StagedWitness(st: Staged): Witness {
    Witness(st.spent, ScalarOrZero(st.input.secret), Sub(ScalarOrZero(st.input.blinding), ScalarOrZero(st.blinding)))
  }

  /** `know` has the maker's witnesses. */
  ghost predicate KnowsWitnesses(c: Suite, know: Signers, p: Payment, tx: TransferTx) {
    |p.sorted| == |tx.inputs| &&
    forall i :: 0 <= i < |tx.inputs| ==> WitnessOf(know, SigningHash(c.blake, tx), tx.inputs[i]) == StagedWitness(p.sorted[i])
  }

  /** `open` has the maker's openings of the two outputs. */
  predicate KnowsOutputs(open: Known, p: Payment) {
    && open(p.out.out0.commitment) == Opening(p.send, ScalarOrZero(p.out.b0))
    && open(p.out.out1.commitment) == Opening(p.change, ScalarOrZero(p.out.b1))
  }

  /** The spent outputs hold what the maker took them to hold. */
  predicate KnowsInputs(open: Known, s: State, inputs: seq<OwnedOutput>) {
    forall j :: 0 <= j < |inputs| ==> Value(open, s, inputs[j].globalIndex) == inputs[j].amount
  }

  /** A payment made `tx`, and what it knows is known. */
  ghost predicate WalletMade(c: Suite, bp: Bulletproofs, open: Known, know: Signers, s: State, tx: TransferTx) {
    exists p: Payment :: MadeBy(c, bp, p, tx) && KnowsWitnesses(c, know, p, tx) && KnowsOutputs(open, p) && KnowsInputs(open, s, p.inputs)
  }

  // ---- its witnesses and openings are right -------------------------------

  lemma StagedIsWitnessed(c: Suite, know: Signers, msg: Bytes32, m: MembershipSnapshot, st: Staged, input: FcmpInput)
    requires c.Canonical() && ProvesAsStaged(c, m, st) && Signed(m, st, input)
    requires WitnessOf(know, msg, input) == StagedWitness(st)
    ensures Witnessed(c, know, msg, input)
  {
    SignerIsWitness(c, Fcmp.RingBlob(m.admitted), st.spent, st.input.secret, st.input.blinding, st.blinding, MAX_FCMP_RING);
  }

  lemma CommitOpens(c: Suite, b: Bytes32, amount: u64, blinding: Bytes32)
    requires c.Canonical() && Commit(c, amount, blinding) == Some(b)
    ensures OpensTo(c, b, Opening(amount, ScalarOrZero(blinding)))
  {
    CommitmentOpens(c, Opening(amount, ScalarOrZero(blinding)));
  }

  lemma OutgoingInRange(c: Suite, bp: Bulletproofs, open: Known, p: Payment)
    requires c.Canonical() && KnowsOutputs(open, p) && p.send + p.change < U64_BOUND
    requires OutgoingFor(c, bp, p.txSecret, p.dest, p.send, p.own, p.change, p.out)
    ensures InRange(c, open, p.out.out0.commitment) && InRange(c, open, p.out.out1.commitment)
  {
    OutgoingFacts(c, bp, p.txSecret, p.dest, p.send, p.own, p.change, p.out);
    CommitOpens(c, p.out.out0.commitment, p.send, p.out.b0);
    CommitOpens(c, p.out.out1.commitment, p.change, p.out.b1);
  }

  lemma BothInRange(c: Suite, open: Known, outs: seq<Output>, a: Output, b: Output)
    requires outs == [a, b] && InRange(c, open, a.commitment) && InRange(c, open, b.commitment)
    ensures forall j :: 0 <= j < |outs| ==> InRange(c, open, outs[j].commitment)
  {
  }

  lemma OutputsInRange(c: Suite, bp: Bulletproofs, open: Known, p: Payment, tx: TransferTx)
    requires c.Canonical() && MadeBy(c, bp, p, tx) && KnowsOutputs(open, p)
    ensures forall j :: 0 <= j < |tx.outputs| ==> InRange(c, open, tx.outputs[j].commitment)
  {
    OutgoingInRange(c, bp, open, p);
    BothInRange(c, open, tx.outputs, p.out.out0, p.out.out1);
  }

  lemma MadeIsExplained(c: Suite, bp: Bulletproofs, open: Known, know: Signers, p: Payment, tx: TransferTx)
    requires c.Canonical() && MadeBy(c, bp, p, tx) && KnowsWitnesses(c, know, p, tx) && KnowsOutputs(open, p)
    ensures Explained(c, open, know, tx)
  {
    var msg := SigningHash(c.blake, tx);
    forall i | 0 <= i < |tx.inputs|
      ensures Witnessed(c, know, msg, tx.inputs[i])
    {
      assert Finished(c, bp, msg, p.m, p.sorted[i], p.draws[i], tx.inputs[i]) && ProvesAsStaged(c, p.m, p.sorted[i]);
      StagedIsWitnessed(c, know, msg, p.m, p.sorted[i], tx.inputs[i]);
    }
    OutputsInRange(c, bp, open, p, tx);
  }

  // ---- its values add up --------------------------------------------------

  lemma {:induction false} FoundIsStaged(open: Known, s: State, found: seq<nat>, os: seq<Opening>)
    requires |found| == |os| && forall i :: 0 <= i < |found| ==> Value(open, s, found[i]) == os[i].value
    ensures FoundSum(open, s, found) == IntSum(os)
  {
    if found != [] {
      FoundIsStaged(open, s, found[..|found| - 1], os[..|os| - 1]);
    }
  }

  lemma StagedSum(sorted: seq<Staged>, total: nat)
    requires |sorted| <= MAX_FCMP_INPUTS && total < U64_BOUND && TotalValue(OpeningsOf(sorted)) == total
    ensures IntSum(OpeningsOf(sorted)) == total
  {
    var os := OpeningsOf(sorted);
    SmallSum(os, MAX_FCMP_INPUTS);
    TotalIsRemainder(os);
    SmallIsItsOwnRemainder(IntSum(os));
  }

  /** The output that a staged input consumes is the one it was staged for. */
  lemma ConsumesStaged(c: Suite, know: Signers, p: Payment, tx: TransferTx, bp: Bulletproofs, i: nat)
    requires MadeBy(c, bp, p, tx) && KnowsWitnesses(c, know, p, tx) && i < |tx.inputs|
    ensures SpentBy(c.blake, know, tx)[i] == p.sorted[i].input.globalIndex && p.sorted[i].input in p.inputs
  {
    var msg := SigningHash(c.blake, tx);
    assert Finished(c, bp, msg, p.m, p.sorted[i], p.draws[i], tx.inputs[i]);
    var j :| 0 <= j < |p.inputs| && StagedFor(c, p.m, p.sorted[i], p.inputs[j], p.blindings[j]);
  }

  lemma TwoSum(a: Opening, b: Opening)
    ensures IntSum([a, b]) == a.value + b.value
  {
    assert [a, b][..1] == [a] && [a][..0] == [];
    assert IntSum([a]) == a.value;
  }

  lemma StagedHolds(c: Suite, bp: Bulletproofs, open: Known, know: Signers, s: State, p: Payment, tx: TransferTx, i: nat)
    requires MadeBy(c, bp, p, tx) && KnowsWitnesses(c, know, p, tx) && KnowsInputs(open, s, p.inputs) && i < |tx.inputs|
    ensures Value(open, s, SpentBy(c.blake, know, tx)[i]) == p.sorted[i].input.amount
  {
    ConsumesStaged(c, know, p, tx, bp, i);
    var j :| 0 <= j < |p.inputs| && p.inputs[j] == p.sorted[i].input;
  }

  lemma MadeTotals(c: Suite, bp: Bulletproofs, p: Payment, tx: TransferTx)
    requires MadeBy(c, bp, p, tx)
    ensures IntSum(OpeningsOf(p.sorted)) == AmountSum(p.inputs)
  {
    StagedSum(p.sorted, AmountSum(p.inputs));
  }

  /** Found output `i` holds the amount staged at `i`. */
  predicate HoldsStaged(open: Known, s: State, found: seq<nat>, sorted: seq<Staged>) {
    |found| == |sorted| && forall i :: 0 <= i < |found| ==> Value(open, s, found[i]) == sorted[i].input.amount
  }

  lemma AllStagedHold(c: Suite, bp: Bulletproofs, open: Known, know: Signers, s: State, p: Payment, tx: TransferTx, found: seq<nat>)
    requires MadeBy(c, bp, p, tx) && KnowsWitnesses(c, know, p, tx) && KnowsInputs(open, s, p.inputs)
    requires found == SpentBy(c.blake, know, tx)
    ensures HoldsStaged(open, s, found, p.sorted)
  {
    forall i | 0 <= i < |found|
      ensures Value(open, s, found[i]) == p.sorted[i].input.amount
    {
      StagedHolds(c, bp, open, know, s, p, tx, i);
    }
  }

  lemma FoundTotal(open: Known, s: State, found: seq<nat>, sorted: seq<Staged>)
    requires HoldsStaged(open, s, found, sorted)
    ensures FoundSum(open, s, found) == IntSum(OpeningsOf(sorted))
  {
    FoundIsStaged(open, s, found, OpeningsOf(sorted));
  }

  lemma ConsumesItsInputs(c: Suite, bp: Bulletproofs, open: Known, know: Signers, s: State, p: Payment, tx: TransferTx)
    requires MadeBy(c, bp, p, tx) && KnowsWitnesses(c, know, p, tx) && KnowsInputs(open, s, p.inputs)
    ensures FoundSum(open, s, SpentBy(c.blake, know, tx)) == AmountSum(p.inputs)
  {
    var found := SpentBy(c.blake, know, tx);
    AllStagedHold(c, bp, open, know, s, p, tx, found);
    FoundTotal(open, s, found, p.sorted);
    MadeTotals(c, bp, p, tx);
  }

  lemma MakesItsOutputs(open: Known, p: Payment, outs: seq<Output>)
    requires KnowsOutputs(open, p) && outs == [p.out.out0, p.out.out1]
    ensures IntSum(OutOpenings(open, outs)) == p.send + p.change
  {
    assert OutOpenings(open, outs) == [open(p.out.out0.commitment), open(p.out.out1.commitment)];
    TwoSum(open(p.out.out0.commitment), open(p.out.out1.commitment));
  }

  lemma MadeAddsUp(c: Suite, bp: Bulletproofs, open: Known, know: Signers, s: State, p: Payment, tx: TransferTx)
    requires MadeBy(c, bp, p, tx) && KnowsWitnesses(c, know, p, tx) && KnowsOutputs(open, p) && KnowsInputs(open, s, p.inputs)
    ensures AddsUp(c, open, know, s, tx)
  {
    ConsumesItsInputs(c, bp, open, know, s, p, tx);
    MakesItsOutputs(open, p, tx.outputs);
  }

  /** What `build_transfer_multi` returns is explained by what its maker knows, and adds up. */
  lemma WalletTransferIsHonest(c: Suite, bp: Bulletproofs, open: Known, know: Signers, s: State, tx: TransferTx)
    requires c.Canonical() && WalletMade(c, bp, open, know, s, tx)
    ensures Explained(c, open, know, tx) && AddsUp(c, open, know, s, tx) && !Faulty(c, open, know, s, tx)
  {
    var p: Payment :| MadeBy(c, bp, p, tx) && KnowsWitnesses(c, know, p, tx) && KnowsOutputs(open, p) && KnowsInputs(open, s, p.inputs);
    MadeIsExplained(c, bp, open, know, p, tx);
    MadeAddsUp(c, bp, open, know, s, p, tx);
    forall fault
      ensures !FaultIn(c, open, know, s, tx, fault)
    {
      HonestTransferHasNoFault(c, open, know, s, tx, fault);
    }
  }

  // ---- runs of wallets ----------------------------------------------------

  /** Every transfer applied in the run was made by a wallet. */
  ghost predicate WalletRun(c: Suite, bp: Bulletproofs, open: Known, know: Signers, cfg: Config, past: seq<Block>, xs: Block)
    decreases |past|, |xs|
  {
    if xs != [] then
      var ys, x := xs[..|xs| - 1], xs[|xs| - 1];
      var s := During(NativeHost(c, bp), cfg, past, ys);
      && WalletRun(c, bp, open, know, cfg, past, ys)
      && (x.TransferCall? && Call(NativeHost(c, bp), cfg, s, x).Ok? ==> WalletMade(c, bp, open, know, s, x.tx))
    else
      past != [] ==> WalletRun(c, bp, open, know, cfg, past[..|past| - 1], past[|past| - 1])
  }

  lemma WalletStep(c: Suite, bp: Bulletproofs, open: Known, know: Signers, cfg: Config, s: State, x: Extrinsic, fault: Fault)
    requires c.Canonical()
    requires x.TransferCall? && Call(NativeHost(c, bp), cfg, s, x).Ok? ==> WalletMade(c, bp, open, know, s, x.tx)
    ensures !StepFault(NativeHost(c, bp), cfg, c, open, know, s, x, fault)
  {
    if x.TransferCall? && Call(NativeHost(c, bp), cfg, s, x).Ok? {
      WalletTransferIsHonest(c, bp, open, know, s, x.tx);
    }
  }

  lemma {:induction false} WalletRunIsFaultless(c: Suite, bp: Bulletproofs, open: Known, know: Signers, cfg: Config, past: seq<Block>,
                                                xs: Block, fault: Fault)
    requires c.Canonical() && WalletRun(c, bp, open, know, cfg, past, xs)
    ensures !RunFault(NativeHost(c, bp), cfg, c, open, know, past, xs, fault)
    decreases |past|, |xs|
  {
    if xs != [] {
      var ys, x := xs[..|xs| - 1], xs[|xs| - 1];
      WalletRunIsFaultless(c, bp, open, know, cfg, past, ys, fault);
      WalletStep(c, bp, open, know, cfg, During(NativeHost(c, bp), cfg, past, ys), x, fault);
    } else if past != [] {
      WalletRunIsFaultless(c, bp, open, know, cfg, past[..|past| - 1], past[|past| - 1], fault);
    }
  }

  /** A run of the native ledger whose applied transfers all come from wallets conserves money and
    * spends each output once, unless two strings hashed in it collide. Nothing is assumed of the
    * range-proof library, of signatures or of the generators.
    */
  lemma WalletsConserve(c: Suite, bp: Bulletproofs, open: Known, know: Signers, cfg: Config, past: seq<Block>, xs: Block)
    returns (x: Bytes, y: Bytes)
    requires c.Canonical() && WalletRun(c, bp, open, know, cfg, past, xs)
    ensures Collide(c.blake, RunStrings(NativeHost(c, bp), cfg, past, xs), x, y) ||
            RunBooks(NativeHost(c, bp), cfg, c, open, know, past, xs)
  {
    var a, b, fault := ConservedOrBroken(c, bp, open, know, cfg, past, xs);
    WalletRunIsFaultless(c, bp, open, know, cfg, past, xs, fault);
    x, y := a, b;
  }

  // ---- a maker's knowledge exists -----------------------------------------

  /** Learn the openings of a payment's outputs. */
  function LearnOpenings(open: Known, p: Payment): Known {
    (b: Bytes32) =>
      if b == p.out.out0.commitment then Opening(p.send, ScalarOrZero(p.out.b0))
      else if b == p.out.out1.commitment then Opening(p.change, ScalarOrZero(p.out.b1))
      else open(b)
  }

  /** The staged entry with this key image, if there is one. */
  function StagedWith(sorted: seq<Staged>, keyImage: Bytes): Option<Staged> {
    if sorted == [] then None
    else if sorted[|sorted| - 1].input.keyImage == keyImage then Some(sorted[|sorted| - 1])
    else StagedWith(sorted[..|sorted| - 1], keyImage)
  }

  lemma {:induction false} StagedIsFound(sorted: seq<Staged>, i: nat)
    requires i < |sorted| && Distinct(StagedImages(sorted))
    ensures StagedWith(sorted, sorted[i].input.keyImage) == Some(sorted[i])
  {
    var n := |sorted| - 1;
    if i < n {
      assert StagedImages(sorted)[i] != StagedImages(sorted)[n];
      assert StagedImages(sorted[..n]) == StagedImages(sorted)[..n];
      StagedIsFound(sorted[..n], i);
    }
  }

  /** Learn the witnesses of a payment's signatures over one message. */
  function LearnWitnesses(know: Signers, p: Payment, ours: Bytes): Signers {
    (msg: Bytes, blob: Bytes, pseudo: Bytes, keyImage: Bytes, sig: Bytes) =>
      if msg == ours && StagedWith(p.sorted, keyImage).Some? then StagedWitness(StagedWith(p.sorted, keyImage).value)
      else know(msg, blob, pseudo, keyImage, sig)
  }

  lemma MadeSigned(c: Suite, bp: Bulletproofs, p: Payment, tx: TransferTx, i: nat)
    requires MadeBy(c, bp, p, tx) && i < |tx.inputs|
    ensures i < |p.sorted| && Signed(p.m, p.sorted[i], tx.inputs[i])
  {
    assert Finished(c, bp, SigningHash(c.blake, tx), p.m, p.sorted[i], p.draws[i], tx.inputs[i]);
  }

  lemma LearnedWitness(know: Signers, p: Payment, msg: Bytes, input: FcmpInput, i: nat)
    requires i < |p.sorted| && Distinct(StagedImages(p.sorted)) && Signed(p.m, p.sorted[i], input)
    ensures WitnessOf(LearnWitnesses(know, p, msg), msg, input) == StagedWitness(p.sorted[i])
  {
    StagedIsFound(p.sorted, i);
  }

  lemma LearnedWitnesses(c: Suite, bp: Bulletproofs, know: Signers, p: Payment, tx: TransferTx)
    requires MadeBy(c, bp, p, tx) && Distinct(Images(tx.inputs))
    ensures KnowsWitnesses(c, LearnWitnesses(know, p, SigningHash(c.blake, tx)), p, tx)
  {
    var msg := SigningHash(c.blake, tx);
    MadeFields(c, bp, p, tx);
    forall i | 0 <= i < |tx.inputs|
      ensures WitnessOf(LearnWitnesses(know, p, msg), msg, tx.inputs[i]) == StagedWitness(p.sorted[i])
    {
      MadeSigned(c, bp, p, tx, i);
      LearnedWitness(know, p, msg, tx.inputs[i], i);
    }
  }

  lemma LearnedOpenings(open: Known, s: State, p: Payment)
    requires KnowsInputs(open, s, p.inputs)
    requires forall i :: i in s.outputs ==> s.outputs[i].commitment !in {p.out.out0.commitment, p.out.out1.commitment}
    requires p.out.out0.commitment != p.out.out1.commitment
    ensures KnowsInputs(LearnOpenings(open, p), s, p.inputs) && KnowsOutputs(LearnOpenings(open, p), p)
  {
    forall j | 0 <= j < |p.inputs|
      ensures Value(LearnOpenings(open, p), s, p.inputs[j].globalIndex) == p.inputs[j].amount
    {
      assert Value(open, s, p.inputs[j].globalIndex) == p.inputs[j].amount;
    }
  }

  lemma MadeByWallet(c: Suite, bp: Bulletproofs, open: Known, know: Signers, s: State, p: Payment, tx: TransferTx)
    requires MadeBy(c, bp, p, tx) && KnowsWitnesses(c, know, p, tx) && KnowsOutputs(open, p) && KnowsInputs(open, s, p.inputs)
    ensures WalletMade(c, bp, open, know, s, tx)
  {
  }

  /** Whoever makes a payment from inputs of different key images, whose value is known, into two new
    * commitments, can extend what is known so that the payment is honest.
    */
  lemma MakerKnows(c: Suite, bp: Bulletproofs, open: Known, know: Signers, s: State, p: Payment, tx: TransferTx)
    requires MadeBy(c, bp, p, tx) && Distinct(Images(tx.inputs)) && KnowsInputs(open, s, p.inputs)
    requires p.out.out0.commitment != p.out.out1.commitment
    requires forall i :: i in s.outputs ==> s.outputs[i].commitment !in {p.out.out0.commitment, p.out.out1.commitment}
    ensures WalletMade(c, bp, LearnOpenings(open, p), LearnWitnesses(know, p, SigningHash(c.blake, tx)), s, tx)
  {
    var open', know' := LearnOpenings(open, p), LearnWitnesses(know, p, SigningHash(c.blake, tx));
    LearnedWitnesses(c, bp, know, p, tx);
    LearnedOpenings(open, s, p);
    MadeByWallet(c, bp, open', know', s, p, tx);
  }
}

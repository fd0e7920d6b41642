/** Wallet-to-chain completeness: what the wallet builds, the chain's verifier accepts. */
module WalletToChain {
  import opened Bytes
  import opened Limits
  import opened Group
  import opened Native
  import opened Hosts
  import opened Stealth
  import opened Transactions
  import opened FcmpCodec
  import opened WalletScan
  import opened WalletStaging
  import opened WalletBuild
  import opened Pallet
  import opened TreeInvariant
  import Merkle
  import Emission

  // ---- the size estimate --------------------------------------------------

  /** `estimate_tx_bytes`. */
  function EstimateTxBytes(treeSlots: nat, inputs: nat): nat {
    var n := Max(treeSlots, 1);
    var perInput := 8 + n * 32 + n * 72 + 32 * (n + 2) + 256;
    Min(Min(2000 + Min(perInput * Max(inputs, 1), U64_BOUND - 1), U64_BOUND - 1), 60000)
  }

  lemma {:induction false} InputListSize(inputs: seq<FcmpInput>, width: nat)
    requires width <= MAX_FCMP_PROOF_BYTES && forall j :: 0 <= j < |inputs| ==> |inputs[j].proof| == width
    ensures |InputList(inputs)| <= (66 + width) * |inputs|
  {
    if inputs != [] {
      InputListSize(inputs[1..], width);
      CompactLength(width);
      assert (66 + width) * |inputs| == 66 + width + (66 + width) * (|inputs| - 1);
    }
  }

  lemma OutputListSize(a: Output, b: Output)
    requires |a.payload| == |b.payload| == 8
    ensures |OutputList([a, b])| == 148
  {
    assert [a, b][1..] == [b] && [b][1..] == [];
    assert OutputList([a, b]) == OutputBytes(a) + OutputList([b]);
    assert OutputList([b]) == OutputBytes(b) + OutputList([]);
  }

  lemma PerInputBound(members: nat, slots: nat)
    requires 1 <= members <= slots
    ensures 66 + WireLength(slots, members) <= 8 + slots * 32 + slots * 72 + 32 * (slots + 2) + 256
  {
  }

  lemma ProductBound(a: nat, b: nat, n: nat)
    requires a <= b
    ensures a * n <= b * n
  {
  }

  lemma EstimateIsExact(slots: nat, inputs: nat)
    requires 1 <= slots <= MAX_FCMP_ANON_SET && 1 <= inputs <= MAX_FCMP_INPUTS
    ensures EstimateTxBytes(slots, inputs) == 2000 + (8 + slots * 32 + slots * 72 + 32 * (slots + 2) + 256) * inputs
  {
    var perInput := 8 + slots * 32 + slots * 72 + 32 * (slots + 2) + 256;
    assert perInput <= 9032;
    ProductBound(perInput, 9032, inputs);
  }

  lemma SizeWithoutInputs(tx: TransferTx)
    requires |tx.outputs| == 2 && |tx.outputs[0].payload| == |tx.outputs[1].payload| == 8
    ensures EncodedSize(tx) <= 1300 + |InputList(tx.inputs)|
  {
    assert tx.outputs == [tx.outputs[0], tx.outputs[1]];
    OutputListSize(tx.outputs[0], tx.outputs[1]);
    CompactLength(|tx.inputs|);
    CompactLength(|tx.outputs|);
    CompactLength(|tx.rangeProof|);
  }

  lemma SizeBound(tx: TransferTx, slots: nat, members: nat)
    requires 1 <= members <= slots <= MAX_FCMP_ANON_SET && 1 <= |tx.inputs|
    requires |tx.outputs| == 2 && |tx.outputs[0].payload| == |tx.outputs[1].payload| == 8
    requires forall j :: 0 <= j < |tx.inputs| ==> |tx.inputs[j].proof| == WireLength(slots, members)
    requires WireLength(slots, members) <= MAX_FCMP_PROOF_BYTES
    ensures EncodedSize(tx) <= EstimateTxBytes(slots, |tx.inputs|)
  {
    SizeWithoutInputs(tx);
    InputListSize(tx.inputs, WireLength(slots, members));
    PerInputBound(members, slots);
    ProductBound(66 + WireLength(slots, members), 8 + slots * 32 + slots * 72 + 32 * (slots + 2) + 256, |tx.inputs|);
    EstimateIsExact(slots, |tx.inputs|);
  }

  /** The estimate covers every transaction the wallet builds. */
  lemma EstimateCovers(c: Suite, bp: Bulletproofs, inputs: seq<OwnedOutput>, m: MembershipSnapshot, fee: u64, tx: TransferTx)
    requires WellBuilt(c, bp, inputs, m, fee, tx)
    ensures EncodedSize(tx) <= EstimateTxBytes(|m.digests|, |inputs|)
  {
    forall j | 0 <= j < |tx.inputs|
      ensures |tx.inputs[j].proof| == WireLength(|m.digests|, |m.admitted|) <= MAX_FCMP_PROOF_BYTES
    {
      assert Proved(c, bp, SigningHash(c.blake, tx), m, tx.inputs[j]);
    }
    assert |tx.inputs[0].proof| == WireLength(|m.digests|, |m.admitted|);
    SizeBound(tx, |m.digests|, |m.admitted|);
  }

  // ---- key images ---------------------------------------------------------

  /** Distinctness depends on the multiset alone. */
  lemma {:induction false} DistinctMeansSingle(s: seq<Bytes32>)
    ensures Distinct(s) <==> forall x :: multiset(s)[x] <= 1
  {
    if s != [] {
      var most, last := s[..|s| - 1], s[|s| - 1];
      DistinctMeansSingle(most);
      assert s == most + [last];
      assert multiset(s) == multiset(most) + multiset{last};
      assert Distinct(s) <==> Distinct(most) && last !in most by {
        if Distinct(s) {
          forall i, j | 0 <= i < j < |most| ensures most[i] != most[j] {
            assert s[i] != s[j];
          }
          forall i | 0 <= i < |most| ensures most[i] != last {
            assert s[i] != s[|s| - 1];
          }
        }
      }
      assert last !in most <==> multiset(most)[last] == 0;
      if forall x :: multiset(s)[x] <= 1 {
        forall x ensures multiset(most)[x] <= 1 {
          assert multiset(s)[x] <= 1;
        }
        assert multiset(s)[last] <= 1;
      }
    }
  }

  lemma SamePermutation(a: seq<Bytes32>, b: seq<Bytes32>)
    requires multiset(a) == multiset(b) && Distinct(b)
    ensures Distinct(a)
    ensures forall x :: x in a ==> x in b
  {
    DistinctMeansSingle(a);
    DistinctMeansSingle(b);
    forall x | x in a ensures x in b {
      assert x in multiset(a);
    }
  }

  lemma SortedAndDistinct(inputs: seq<FcmpInput>)
    requires KeyImagesSorted(inputs) && Distinct(Images(inputs))
    ensures SortedUnique(inputs)
  {
    forall i | 0 < i < |inputs|
      ensures Less(inputs[i - 1].keyImage, inputs[i].keyImage)
    {
      assert Images(inputs)[i - 1] != Images(inputs)[i];
      LessIsTotal(inputs[i - 1].keyImage, inputs[i].keyImage);
    }
  }

  // ---- the chain's checks -------------------------------------------------

  /** No point the chain refuses: key images, C', output keys and the transaction key. */
  ghost predicate PointsValid(c: Suite, tx: TransferTx) {
    && c.IsValidPoint(tx.txPubkey)
    && (forall j :: 0 <= j < |tx.outputs| ==> c.IsValidPoint(tx.outputs[j].key))
    && (forall i :: 0 <= i < |tx.inputs| ==> c.IsValidPoint(tx.inputs[i].keyImage) && c.IsValidPoint(tx.inputs[i].pseudo))
  }

  /** What the chain must still agree with when the transaction arrives. */
  ghost predicate ChainAgrees(cfg: Config, s: State, inputs: seq<OwnedOutput>, m: MembershipSnapshot, fee: u64) {
    && s.treeSlots <= MAX_FCMP_ANON_SET && RootAccepted(s, m.root)
    && (forall i :: 0 <= i < |inputs| ==> inputs[i].keyImage !in s.keyImages)
    && fee >= Min(cfg.minFeePerByte * EstimateTxBytes(|m.digests|, |inputs|), U64_BOUND - 1)
  }

  lemma InputPasses(c: Suite, bp: Bulletproofs, s: State, m: MembershipSnapshot, tx: TransferTx, input: FcmpInput)
    requires tx.root == Merkle.Root(c.blake, m.digests) && Proved(c, bp, SigningHash(c.blake, tx), m, input)
    requires c.IsValidPoint(input.keyImage) && c.IsValidPoint(input.pseudo) && input.keyImage !in s.keyImages
    ensures InputError(NativeHost(c, bp), s, tx, input) == None
  {
  }

  lemma {:induction false} InputsPass(c: Suite, bp: Bulletproofs, s: State, m: MembershipSnapshot, tx: TransferTx, inputs: seq<FcmpInput>)
    requires tx.root == Merkle.Root(c.blake, m.digests)
    requires forall i :: 0 <= i < |inputs| ==> Proved(c, bp, SigningHash(c.blake, tx), m, inputs[i])
    requires forall i :: 0 <= i < |inputs| ==>
               c.IsValidPoint(inputs[i].keyImage) && c.IsValidPoint(inputs[i].pseudo) && inputs[i].keyImage !in s.keyImages
    ensures InputsError(NativeHost(c, bp), s, tx, inputs) == None
  {
    if inputs != [] {
      InputPasses(c, bp, s, m, tx, inputs[0]);
      InputsPass(c, bp, s, m, tx, inputs[1..]);
    }
  }

  lemma RateBound(rate: nat, size: nat, estimate: nat)
    requires size <= estimate
    ensures Min(rate * size, U64_BOUND - 1) <= Min(rate * estimate, U64_BOUND - 1)
  {
    ProductBound(size, estimate, rate);
  }

  lemma FeeCovers(cfg: Config, tx: TransferTx, estimate: nat)
    requires EncodedSize(tx) <= estimate && tx.fee >= Min(cfg.minFeePerByte * estimate, U64_BOUND - 1)
    ensures tx.fee >= FeeFloor(cfg, tx)
  {
    RateBound(cfg.minFeePerByte, EncodedSize(tx), estimate);
  }

  lemma UnspentImages(s: State, inputs: seq<OwnedOutput>, spends: seq<FcmpInput>)
    requires multiset(Images(spends)) == multiset(OwnedImages(inputs)) && Distinct(OwnedImages(inputs))
    requires forall i :: 0 <= i < |inputs| ==> inputs[i].keyImage !in s.keyImages
    ensures Distinct(Images(spends))
    ensures forall i :: 0 <= i < |spends| ==> spends[i].keyImage !in s.keyImages
  {
    SamePermutation(Images(spends), OwnedImages(inputs));
    forall i | 0 <= i < |spends|
      ensures spends[i].keyImage !in s.keyImages
    {
      assert Images(spends)[i] in OwnedImages(inputs);
    }
  }

  lemma SpendsPass(c: Suite, bp: Bulletproofs, cfg: Config, s: State, inputs: seq<OwnedOutput>, m: MembershipSnapshot,
                   fee: u64, tx: TransferTx)
    requires WellBuilt(c, bp, inputs, m, fee, tx)
    requires Distinct(OwnedImages(inputs)) && ChainAgrees(cfg, s, inputs, m, fee) && PointsValid(c, tx)
    ensures SortedUnique(tx.inputs) && InputsError(NativeHost(c, bp), s, tx, tx.inputs) == None
  {
    UnspentImages(s, inputs, tx.inputs);
    SortedAndDistinct(tx.inputs);
    InputsPass(c, bp, s, m, tx, tx.inputs);
  }

  lemma FeePasses(c: Suite, bp: Bulletproofs, cfg: Config, s: State, inputs: seq<OwnedOutput>, m: MembershipSnapshot,
                  fee: u64, tx: TransferTx)
    requires WellBuilt(c, bp, inputs, m, fee, tx) && ChainAgrees(cfg, s, inputs, m, fee)
    ensures tx.fee >= FeeFloor(cfg, tx)
  {
    EstimateCovers(c, bp, inputs, m, fee, tx);
    FeeCovers(cfg, tx, EstimateTxBytes(|m.digests|, |inputs|));
  }

  lemma ValuesPass(c: Suite, bp: Bulletproofs, inputs: seq<OwnedOutput>, m: MembershipSnapshot, fee: u64, tx: TransferTx)
    requires WellBuilt(c, bp, inputs, m, fee, tx) && PointsValid(c, tx)
    ensures var host := NativeHost(c, bp);
            && OutputKeysValid(host, tx.outputs) && (host.isValidPoint)(tx.txPubkey)
            && (host.balance)(Flatten(Pseudos(tx.inputs)), Flatten(CommitmentList(tx.outputs)), tx.fee)
            && (host.range)(tx.rangeProof, Flatten(CommitmentList(tx.outputs)))
  {
    assert CommitmentList(tx.outputs) == [tx.outputs[0].commitment, tx.outputs[1].commitment];
  }

  /** Every transaction `build_transfer_multi` returns, for inputs with distinct unspent key images
    * and a fee of at least the minimum for the estimated size, passes `verify_transfer` on any
    * chain that still accepts the root, unless one of its points is the identity.
    */
  lemma WellBuiltIsAccepted(c: Suite, bp: Bulletproofs, cfg: Config, s: State, inputs: seq<OwnedOutput>, m: MembershipSnapshot,
                            fee: u64, tx: TransferTx)
    requires WellBuilt(c, bp, inputs, m, fee, tx)
    requires Distinct(OwnedImages(inputs)) && ChainAgrees(cfg, s, inputs, m, fee) && PointsValid(c, tx)
    ensures TransferError(NativeHost(c, bp), cfg, s, tx) == None
  {
    FeePasses(c, bp, cfg, s, inputs, m, fee, tx);
    SpendsPass(c, bp, cfg, s, inputs, m, fee, tx);
    ValuesPass(c, bp, inputs, m, fee, tx);
  }

  // ---- the payment arrives ------------------------------------------------

  /** The receiving wallet claims `out` at position `li`, where it reads as `amount`. */
  ghost predicate Arrives(c: Suite, w: Wallet, out: StoredOutput, li: nat, amount: u64) {
    exists shared: Bytes32, blinding: Bytes32 ::
      && SharedSecret(c, w.keys.viewSecret, out.txPubkey) == Some(shared)
      && BelongsAt(c, w, shared, out, li) && ReadAt(c, shared, out, li) == Reading(amount, blinding)
  }

  lemma PaidOutputArrives(c: Suite, w: Wallet, txSecret: Scalar, tx: TransferTx, li: nat, amount: u64, height: nat)
    requires c.Canonical() && ValidWallet(c, w)
    requires Pays(c, txSecret, tx, li, w.address, amount) && tx.txPubkey == PublicKey(c, txSecret)
    ensures Arrives(c, w, StoredFrom(tx.outputs[li], tx.txPubkey, height), li, amount)
  {
    MadeOutputBelongs(c, w, txSecret, li, amount, height);
  }

  lemma BuiltPays(c: Suite, bp: Bulletproofs, own: StealthAddress, inputs: seq<OwnedOutput>, m: MembershipSnapshot,
                  dest: StealthAddress, send: u64, fee: u64, txSecret: Scalar, tx: TransferTx) returns (change: u64)
    requires BuiltFor(c, bp, own, inputs, m, dest, send, fee, txSecret, tx)
    ensures send + fee + change == AmountSum(inputs) && PaysBoth(c, txSecret, tx, dest, send, own, change)
  {
    change :| send + fee + change == AmountSum(inputs) &&
      WellBuilt(c, bp, inputs, m, fee, tx) && PaysBoth(c, txSecret, tx, dest, send, own, change);
  }

  /** Where an applied transfer's outputs are. */
  lemma AppliedOutputs(host: Host, s: State, tx: TransferTx, j: nat)
    requires ApplyTransfer(host, s, tx).Ok? && j < |tx.outputs|
    ensures var t := ApplyTransfer(host, s, tx).state;
            s.nextOutputIndex + j in t.outputs && t.outputs[s.nextOutputIndex + j] == StoredFrom(tx.outputs[j], tx.txPubkey, s.now)
  {
    var paid := s.(keyImages := s.keyImages + KeyImagesOf(tx), blockFees := s.blockFees + tx.fee);
    MintAllPlaces(host.blake, paid, TransferStored(s.now, tx), j);
  }

  /** Once a built transaction is applied, the chain stores the payment and the change next, and
    * receiver and sender claim them with the amounts sent: nothing is left over.
    */
  lemma PaymentArrives(c: Suite, bp: Bulletproofs, host: Host, s: State, t: State, sender: Wallet, receiver: Wallet,
                       inputs: seq<OwnedOutput>, m: MembershipSnapshot, send: u64, fee: u64, txSecret: Scalar, tx: TransferTx)
    returns (change: u64)
    requires c.Canonical() && ValidWallet(c, sender) && ValidWallet(c, receiver)
    requires BuiltFor(c, bp, sender.address, inputs, m, receiver.address, send, fee, txSecret, tx)
    requires ApplyTransfer(host, s, tx) == Ok(t)
    ensures send + fee + change == AmountSum(inputs)
    ensures StoredAndArrives(c, receiver, t, s.nextOutputIndex, 0, send)
    ensures StoredAndArrives(c, sender, t, s.nextOutputIndex + 1, 1, change)
  {
    change := BuiltPays(c, bp, sender.address, inputs, m, receiver.address, send, fee, txSecret, tx);
    OutputArrives(c, host, s, t, receiver, txSecret, tx, 0, send, s.nextOutputIndex);
    OutputArrives(c, host, s, t, sender, txSecret, tx, 1, change, s.nextOutputIndex + 1);
  }

  lemma OutputArrives(c: Suite, host: Host, s: State, t: State, w: Wallet, txSecret: Scalar, tx: TransferTx, li: nat, amount: u64,
                      index: nat)
    requires c.Canonical() && ValidWallet(c, w) && ApplyTransfer(host, s, tx) == Ok(t) && index == s.nextOutputIndex + li
    requires Pays(c, txSecret, tx, li, w.address, amount) && tx.txPubkey == PublicKey(c, txSecret)
    ensures StoredAndArrives(c, w, t, index, li, amount)
  {
    PaidOutputArrives(c, w, txSecret, tx, li, amount, s.now);
    AppliedOutputs(host, s, tx, li);
  }

  /** The chain stores, at `index`, an output the wallet claims with `amount`. */
  ghost predicate StoredAndArrives(c: Suite, w: Wallet, t: State, index: nat, li: nat, amount: u64) {
    exists out :: index in t.outputs && t.outputs[index] == out && Arrives(c, w, out, li, amount)
  }

  // ---- the reward arrives -------------------------------------------------

  /** Coinbase output `li` is made for `w` with transaction key `r`, as a miner makes it. */
  ghost predicate MinedFor(c: Suite, w: Wallet, r: Scalar, out: CoinbaseOutput, li: nat) {
    var shared := SharedSecret(c, ScalarBytes(r), w.address.viewPublic);
    shared.Some? && DeriveOneTimeKey(c, shared.value, w.address.spendPublic, li) == Some((out.key, out.viewTag))
  }

  lemma MinedOutputArrives(c: Suite, w: Wallet, r: Scalar, out: StoredOutput, li: nat, amount: u64)
    requires c.Canonical() && ValidWallet(c, w) && out.txPubkey == PublicKey(c, r) && out.amount == Some(amount)
    requires MinedFor(c, w, r, CoinbaseOutput(out.key, amount, out.viewTag), li)
    ensures Arrives(c, w, out, li, amount)
  {
    var shared := WalletSharesSecret(c, w, r);
    assert BelongsAt(c, w, shared, out, li) && ReadAt(c, shared, out, li) == Reading(amount, ZERO_BLINDING);
  }

  /** Once a coinbase is applied, the miner's wallet claims each output made for it with its amount. */
  lemma RewardArrives(c: Suite, host: Host, s: State, outs: seq<CoinbaseOutput>, w: Wallet, r: Scalar, li: nat)
    requires c.Canonical() && ValidWallet(c, w) && li < |outs| && MinedFor(c, w, r, outs[li], li)
    requires Coinbase(host, s, outs, PublicKey(c, r)).Ok?
    ensures StoredAndArrives(c, w, Coinbase(host, s, outs, PublicKey(c, r)).state, s.nextOutputIndex + li, li, outs[li].amount)
  {
    AcceptedCoinbase(host, s, outs, PublicKey(c, r));
    var stored := CoinbaseOutputs(host, s.now, outs, PublicKey(c, r));
    MintAllPlaces(host.blake, s.(blockFees := 0, emitted := s.emitted + Emission.BlockReward(s.emitted), coinbaseDone := true), stored, li);
    MinedOutputArrives(c, w, r, stored[li], li, outs[li].amount);
  }
}

/** `build_transfer_multi`: from owned outputs and a snapshot to a transaction. */
module WalletBuild {
  import opened Bytes
  import opened Limits
  import opened Group
  import opened Merkle
  import opened Native
  import opened Stealth
  import opened Transactions
  import opened FcmpCodec
  import opened WalletScan
  import opened WalletStaging
  import opened FcmpProve
  import Fcmp
  import Clsag
  import ClsagSign

  // ---- balance ------------------------------------------------------------

  /** Blindings of staged inputs add up like their bytes. */
  lemma {:induction false} BlindingTotal(staged: seq<Staged>, blindings: seq<Bytes32>)
    requires |staged| == |blindings| && forall i :: 0 <= i < |staged| ==> staged[i].blinding == blindings[i]
    requires SumScalars(blindings).Some?
    ensures Some(TotalBlinding(OpeningsOf(staged))) == SumScalars(blindings)
  {
    if staged != [] {
      var n := |staged| - 1;
      BlindingTotal(staged[..n], blindings[..n]);
      assert OpeningsOf(staged)[..n] == OpeningsOf(staged[..n]);
    }
  }

  lemma {:induction false} ValueTotal(staged: seq<Staged>, inputs: seq<OwnedOutput>)
    requires |staged| == |inputs| && forall i :: 0 <= i < |staged| ==> staged[i].input == inputs[i]
    requires AmountSum(inputs) < U64_BOUND
    ensures TotalValue(OpeningsOf(staged)) == AmountSum(inputs)
  {
    if staged != [] {
      var n := |staged| - 1;
      ValueTotal(staged[..n], inputs[..n]);
      assert OpeningsOf(staged)[..n] == OpeningsOf(staged[..n]);
    }
  }

  function StagedPseudos(staged: seq<Staged>): (ps: seq<Bytes32>)
    ensures |ps| == |staged|
  {
    seq(|staged|, i requires 0 <= i < |staged| => staged[i].pseudo)
  }

  /** A staged entry's pseudo-commitment commits to its amount under its blinding. */
  ghost predicate Committed(c: Suite, st: Staged) {
    Commit(c, st.input.amount, st.blinding) == Some(st.pseudo)
  }

  lemma PseudosAreCommitments(c: Suite, staged: seq<Staged>)
    requires forall i :: 0 <= i < |staged| ==> Committed(c, staged[i])
    ensures CommitAll(c, OpeningsOf(staged)) == StagedPseudos(staged)
  {
    forall i | 0 <= i < |staged|
      ensures CommitAll(c, OpeningsOf(staged))[i] == staged[i].pseudo
    {
      assert Committed(c, staged[i]);
    }
  }

  /** What goes in comes out: the sorted pseudo-commitments balance the two outputs and the fee. */
  lemma StagedBalance(c: Suite, staged: seq<Staged>, send: u64, change: u64, fee: u64, b0: Bytes32, b1: Bytes32, o0: Bytes32, o1: Bytes32)
    requires c.Canonical() && staged != [] && send + change + fee < U64_BOUND
    requires forall i :: 0 <= i < |staged| ==> Committed(c, staged[i])
    requires TotalValue(OpeningsOf(staged)) == send + change + fee
    requires Some(TotalBlinding(OpeningsOf(staged))) == SumScalars([b0, b1])
    requires Commit(c, send, b0) == Some(o0) && Commit(c, change, b1) == Some(o1)
    ensures VerifyBalance(c, Flatten(StagedPseudos(staged)), Flatten([o0, o1]), fee)
  {
    var outs := [Opening(send, ScalarFrom(b0).value), Opening(change, ScalarFrom(b1).value)];
    PseudosAreCommitments(c, staged);
    assert CommitAll(c, outs) == [o0, o1];
    BalanceOfCommitments(c, OpeningsOf(staged), outs, fee);
    TwoTotals(send, change, b0, b1);
  }

  lemma TwoTotals(send: u64, change: u64, b0: Bytes32, b1: Bytes32)
    requires send + change < U64_BOUND && ScalarFrom(b0).Some? && ScalarFrom(b1).Some?
    ensures var outs := [Opening(send, ScalarFrom(b0).value), Opening(change, ScalarFrom(b1).value)];
            TotalValue(outs) == send + change && Some(TotalBlinding(outs)) == SumScalars([b0, b1])
  {
    var o0, o1 := Opening(send, ScalarFrom(b0).value), Opening(change, ScalarFrom(b1).value);
    TotalsSnoc([], o0);
    TotalsSnoc([o0], o1);
    assert [] + [o0] == [o0] && [o0] + [o1] == [o0, o1];
    assert [b0, b1][..1] == [b0] && [b0][..0] == [];
    assert SumScalars([b0]) == Some(Add(0, ScalarFrom(b0).value));
  }

  // ---- proofs -------------------------------------------------------------

  /** Randomness of one signature. */
  datatype Draw = Draw(nonce: Scalar, responses: seq<Scalar>)

  /** A finished input: sized as expected, and accepted unless one of its points is the identity. */
  ghost predicate Proved(c: Suite, bp: Bulletproofs, msg: Bytes32, m: MembershipSnapshot, input: FcmpInput) {
    && |input.proof| == WireLength(|m.digests|, |m.admitted|) <= MAX_FCMP_PROOF_BYTES
    && (c.IsValidPoint(input.keyImage) && c.IsValidPoint(input.pseudo) ==>
          Fcmp.Accepts(NativeHost(c, bp), msg, Root(c.blake, m.digests), input.pseudo, input.keyImage, input.proof))
  }

  function WitnessFor(m: MembershipSnapshot, st: Staged): ProveWitness {
    ProveWitness(m.digests, m.admitted, st.spent, st.input.secret, st.input.blinding, st.blinding)
  }

  /** The proof for `st` exists and carries the key image and pseudo-commitment already staged. */
  ghost predicate ProvesAsStaged(c: Suite, m: MembershipSnapshot, st: Staged) {
    var w := WitnessFor(m, st);
    && Provable(c, w) && ClsagSign.KeyImage(c, w.secret) == Some(st.input.keyImage)
    && st.pseudo == (c.compress)(ClsagSign.PseudoPoint(c, Fcmp.RingBlob(w.admitted), w.spent, w.inputBlinding, w.pseudoBlinding))
  }

  /** The finished input for one staged entry, or `None` if it does not prove as staged. */
  method ProveOne(c: Suite, ghost bp: Bulletproofs, msg: Bytes32, m: MembershipSnapshot, st: Staged, draw: Draw)
    returns (r: Option<FcmpInput>)
    requires c.Canonical() && |draw.responses| == |m.admitted|
    ensures r.Some? <==> ProvesAsStaged(c, m, st)
    ensures r.Some? ==> Finished(c, bp, msg, m, st, draw, r.value)
  {
    var res := Prove(c, bp, msg, WitnessFor(m, st), draw.nonce, draw.responses);
    if res.None? || res.value.keyImage != st.input.keyImage || res.value.pseudo != st.pseudo {
      return None;
    }
    return Some(FcmpInput(st.input.keyImage, st.pseudo, res.value.proof));
  }

  ghost predicate Finished(c: Suite, bp: Bulletproofs, msg: Bytes32, m: MembershipSnapshot, st: Staged, draw: Draw, input: FcmpInput) {
    && Signed(m, st, input) && Proved(c, bp, msg, m, input)
    && ClsagSign.DrawnFrom(c, msg, Fcmp.RingBlob(m.admitted), input.pseudo, input.keyImage, Parse(input.proof).value.clsag,
                           st.spent, draw.nonce, draw.responses)
  }

  /** The input publishes what was staged, under a proof over the snapshot's ring. */
  ghost predicate Signed(m: MembershipSnapshot, st: Staged, input: FcmpInput) {
    && input.keyImage == st.input.keyImage && input.pseudo == st.pseudo
    && Parse(input.proof).Some? && Parse(input.proof).value.ring == m.admitted
  }

  ghost predicate AllProveAsStaged(c: Suite, m: MembershipSnapshot, staged: seq<Staged>) {
    forall i :: 0 <= i < |staged| ==> ProvesAsStaged(c, m, staged[i])
  }

  /** `inputs` finish the staged entries, one by one, each with its own randomness. */
  ghost predicate AllFinished(c: Suite, bp: Bulletproofs, msg: Bytes32, m: MembershipSnapshot, staged: seq<Staged>,
                              draws: seq<Draw>, inputs: seq<FcmpInput>) {
    |inputs| == |staged| == |draws| && forall i :: 0 <= i < |staged| ==> Finished(c, bp, msg, m, staged[i], draws[i], inputs[i])
  }

  lemma FinishOneMore(c: Suite, bp: Bulletproofs, msg: Bytes32, m: MembershipSnapshot, staged: seq<Staged>, draws: seq<Draw>,
                      inputs: seq<FcmpInput>, n: nat, input: FcmpInput)
    requires n < |staged| == |draws| && AllProveAsStaged(c, m, staged[..n]) && ProvesAsStaged(c, m, staged[n])
    requires AllFinished(c, bp, msg, m, staged[..n], draws[..n], inputs) && Finished(c, bp, msg, m, staged[n], draws[n], input)
    ensures AllProveAsStaged(c, m, staged[..n + 1]) && AllFinished(c, bp, msg, m, staged[..n + 1], draws[..n + 1], inputs + [input])
  {
    var before, after := staged[..n], staged[..n + 1];
    forall i | 0 <= i < n + 1
      ensures ProvesAsStaged(c, m, after[i]) && Finished(c, bp, msg, m, after[i], draws[..n + 1][i], (inputs + [input])[i])
    {
      if i < n {
        assert ProvesAsStaged(c, m, before[i]) && Finished(c, bp, msg, m, before[i], draws[..n][i], inputs[i]);
      }
    }
  }

  method ProveAll(c: Suite, ghost bp: Bulletproofs, msg: Bytes32, m: MembershipSnapshot, staged: seq<Staged>, draws: seq<Draw>)
    returns (r: Option<seq<FcmpInput>>)
    requires c.Canonical() && |draws| == |staged|
    requires forall i :: 0 <= i < |draws| ==> |draws[i].responses| == |m.admitted|
    ensures r.Some? <==> AllProveAsStaged(c, m, staged)
    ensures r.Some? ==> AllFinished(c, bp, msg, m, staged, draws, r.value)
  {
    var final: seq<FcmpInput> := [];
    for i := 0 to |staged|
      invariant AllProveAsStaged(c, m, staged[..i])
      invariant AllFinished(c, bp, msg, m, staged[..i], draws[..i], final)
    {
      var input := ProveOne(c, bp, msg, m, staged[i], draws[i]);
      if input.None? {
        return None;
      }
      FinishOneMore(c, bp, msg, m, staged, draws, final, i, input.value);
      final := final + [input.value];
    }
    assert staged[..|staged|] == staged && draws[..|draws|] == draws;
    return Some(final);
  }

  /** Inputs with placeholder proofs. */
  function Skeleton(staged: seq<Staged>): (inputs: seq<FcmpInput>)
    ensures |inputs| == |staged|
  {
    seq(|staged|, i requires 0 <= i < |staged| => FcmpInput(staged[i].input.keyImage, staged[i].pseudo, ToLe(0, 32)))
  }

  // ---- building -----------------------------------------------------------

  /** The random choices of one transfer. */
  datatype Choices = Choices(txSecret: Scalar, free: seq<Scalar>, draws: seq<Draw>)

  predicate Enough(inputs: seq<OwnedOutput>, m: MembershipSnapshot, ch: Choices) {
    && (inputs != [] ==> |ch.free| == |inputs| - 1)
    && |ch.draws| == |inputs|
    && forall i :: 0 <= i < |ch.draws| ==> |ch.draws[i].responses| == |m.admitted|
  }

  function BytesOf(scalars: seq<Scalar>): (bs: seq<Bytes32>)
    ensures |bs| == |scalars|
  {
    seq(|scalars|, i requires 0 <= i < |scalars| => ScalarBytes(scalars[i]))
  }

  lemma {:induction false} BytesOfSum(scalars: seq<Scalar>)
    ensures SumScalars(BytesOf(scalars)).Some?
  {
    if scalars != [] {
      var n := |scalars| - 1;
      BytesOfSum(scalars[..n]);
      assert BytesOf(scalars)[..n] == BytesOf(scalars[..n]);
      ScalarRoundTrip(scalars[n]);
    }
  }

  /** Random blindings for all inputs but the last, and the one that balances the outputs. */
  method PseudoBlindings(outBlindings: seq<Bytes32>, free: seq<Scalar>) returns (all: seq<Bytes32>)
    requires SumScalars(outBlindings).Some?
    ensures |all| == |free| + 1 && SumScalars(all) == SumScalars(outBlindings) && all[..|free|] == BytesOf(free)
    ensures forall i :: 0 <= i < |all| ==> ScalarFrom(all[i]).Some?
  {
    BytesOfSum(free);
    var last := BalancingBlinding(outBlindings, BytesOf(free)).value;
    BalancingBlindingBalances(outBlindings, BytesOf(free));
    all := BytesOf(free) + [last];
    CanonicalBlindings(all);
  }

  /** What a built transaction promises, whatever the chain's state. */
  ghost predicate WellBuilt(c: Suite, bp: Bulletproofs, inputs: seq<OwnedOutput>, m: MembershipSnapshot, fee: u64, tx: TransferTx) {
    && tx.root == m.root == Root(c.blake, m.digests) && tx.fee == fee
    && 1 <= |m.admitted| <= |m.digests| <= MAX_FCMP_ANON_SET
    && 1 <= |tx.inputs| == |inputs| <= MAX_FCMP_INPUTS && |tx.outputs| == 2
    && |tx.outputs[0].payload| == |tx.outputs[1].payload| == 8
    && KeyImagesSorted(tx.inputs) && multiset(Images(tx.inputs)) == multiset(OwnedImages(inputs))
    && AllProved(c, bp, m, tx)
    && VerifyBalance(c, Flatten(Pseudos(tx.inputs)), Flatten([tx.outputs[0].commitment, tx.outputs[1].commitment]), fee)
    && RangeAccepts(c, bp, tx.rangeProof, Flatten([tx.outputs[0].commitment, tx.outputs[1].commitment]))
  }

  predicate KeyImagesSorted(inputs: seq<FcmpInput>) {
    forall i :: 0 < i < |inputs| ==> !Less(inputs[i].keyImage, inputs[i - 1].keyImage)
  }

  function OwnedImages(inputs: seq<OwnedOutput>): (kis: seq<Bytes32>)
    ensures |kis| == |inputs|
  {
    seq(|inputs|, i requires 0 <= i < |inputs| => inputs[i].keyImage)
  }

  // ---- when building succeeds ---------------------------------------------

  /** The snapshot is the full mature set under its root, and every point in it decodes. */
  ghost predicate GoodSnapshot(c: Suite, m: MembershipSnapshot) {
    && 1 <= |m.admitted| && |m.digests| <= MAX_FCMP_ANON_SET
    && Fcmp.FullRing(c.blake, m.digests, m.admitted)
    && forall k :: 0 <= k < |m.admitted| ==>
         (c.decompress)(m.admitted[k].key).Some? && (c.decompress)(m.admitted[k].commitment).Some?
  }

  /** The wallet holds the secrets of `input`, and the snapshot has it at its index. */
  ghost predicate Spendable(c: Suite, m: MembershipSnapshot, input: OwnedOutput) {
    && (forall k :: 0 <= k < |m.admitted| && m.admitted[k].treeIndex == input.globalIndex ==>
          m.admitted[k].key == input.key && m.admitted[k].commitment == input.commitment)
    && ScalarFrom(input.secret).Some? && PublicKey(c, ScalarFrom(input.secret).value) == input.key
    && ClsagSign.KeyImage(c, input.secret) == Some(input.keyImage)
    && Commit(c, input.amount, input.blinding) == Some(input.commitment)
  }

  lemma Reblind(c: Suite, amount: u64, x: Scalar, y: Scalar)
    ensures Minus(CommitTo(c, Opening(amount, x)), Scale(G, Sub(x, y))) == CommitTo(c, Opening(amount, y))
  {
    ScaleG(x);
    ScaleG(y);
    ScaleG(Sub(x, y));
  }

  lemma RingDecodes(c: Suite, m: MembershipSnapshot)
    requires GoodSnapshot(c, m)
    ensures Clsag.RingParses(c, Fcmp.RingBlob(m.admitted), MAX_FCMP_RING)
    ensures Clsag.RingSize(Fcmp.RingBlob(m.admitted)) == |m.admitted| <= |m.digests|
  {
    var blob := Fcmp.RingBlob(m.admitted);
    FullRingFits(c.blake, m.digests, m.admitted);
    Fcmp.RingBlobReads(m.admitted, 0);
    FlattenLength(Fcmp.BlobParts(m.admitted), 64);
    forall i | 0 <= i < Clsag.RingSize(blob)
      ensures Clsag.Decodes(c, blob, i)
    {
      Fcmp.RingBlobReads(m.admitted, i);
    }
  }

  /** A spendable input in a good snapshot proves, with the key image and C' already staged. */
  lemma SpendableProves(c: Suite, m: MembershipSnapshot, st: Staged, input: OwnedOutput, blinding: Bytes32)
    requires c.Canonical() && GoodSnapshot(c, m) && Spendable(c, m, input) && StagedFor(c, m, st, input, blinding)
    ensures ProvesAsStaged(c, m, st)
  {
    RingDecodes(c, m);
    Fcmp.RingBlobReads(m.admitted, st.spent);
    var x, y := ScalarFrom(input.blinding).value, ScalarFrom(blinding).value;
    assert (c.decompress)((c.compress)(CommitTo(c, Opening(input.amount, x)))) == Some(CommitTo(c, Opening(input.amount, x)));
    assert (c.decompress)((c.compress)(Scale(G, ScalarFrom(input.secret).value))) == Some(Scale(G, ScalarFrom(input.secret).value));
    Reblind(c, input.amount, x, y);
  }

  ghost predicate Ready(c: Suite, bp: Bulletproofs, inputs: seq<OwnedOutput>, m: MembershipSnapshot, own: StealthAddress,
                        dest: StealthAddress) {
    && GoodSnapshot(c, m) && (forall i :: 0 <= i < |inputs| ==> Spendable(c, m, inputs[i]))
    && Decodable(c, own) && Decodable(c, dest) && bp.Reliable()
  }

  // ---- the builder --------------------------------------------------------

  /** Staged inputs in key-image order: what the rest of the build relies on. */
  ghost predicate InOrder(c: Suite, inputs: seq<OwnedOutput>, m: MembershipSnapshot, blindings: seq<Bytes32>, sorted: seq<Staged>) {
    && |sorted| == |inputs| == |blindings|
    && Sorted(sorted) && multiset(StagedImages(sorted)) == multiset(OwnedImages(inputs))
    && (forall i :: 0 <= i < |sorted| ==> Committed(c, sorted[i]))
    && (forall i :: 0 <= i < |sorted| ==> exists j :: 0 <= j < |inputs| && StagedFor(c, m, sorted[i], inputs[j], blindings[j]))
    && TotalValue(OpeningsOf(sorted)) == AmountSum(inputs)
    && Some(TotalBlinding(OpeningsOf(sorted))) == SumScalars(blindings)
  }

  /** Every sorted entry is one of the staged ones. */
  lemma SortedEntry(c: Suite, m: MembershipSnapshot, inputs: seq<OwnedOutput>, blindings: seq<Bytes32>, staged: seq<Staged>, i: nat)
    requires |staged| == |inputs| == |blindings| && i < |SortByKeyImage(staged)|
    requires forall j :: 0 <= j < |inputs| ==> StagedFor(c, m, staged[j], inputs[j], blindings[j])
    ensures var st := SortByKeyImage(staged)[i];
            Committed(c, st) && exists j :: 0 <= j < |inputs| && StagedFor(c, m, st, inputs[j], blindings[j])
  {
    var sorted := SortByKeyImage(staged);
    SortPermutes(staged);
    assert sorted[i] in multiset(sorted);
    assert sorted[i] in staged;
    var j :| 0 <= j < |staged| && staged[j] == sorted[i];
    assert StagedFor(c, m, staged[j], inputs[j], blindings[j]);
  }

  lemma StagedTotals(c: Suite, m: MembershipSnapshot, inputs: seq<OwnedOutput>, blindings: seq<Bytes32>, staged: seq<Staged>)
    requires |staged| == |inputs| == |blindings| && SumScalars(blindings).Some? && AmountSum(inputs) < U64_BOUND
    requires forall j :: 0 <= j < |inputs| ==> StagedFor(c, m, staged[j], inputs[j], blindings[j])
    ensures TotalValue(OpeningsOf(SortByKeyImage(staged))) == AmountSum(inputs)
    ensures Some(TotalBlinding(OpeningsOf(SortByKeyImage(staged)))) == SumScalars(blindings)
    ensures StagedImages(staged) == OwnedImages(inputs)
  {
    assert forall i :: 0 <= i < |inputs| ==> StagedFor(c, m, staged[i], inputs[i], blindings[i]);
    SortKeepsTotals(staged);
    ValueTotal(staged, inputs);
    BlindingTotal(staged, blindings);
  }

  method StageInOrder(c: Suite, m: MembershipSnapshot, inputs: seq<OwnedOutput>, blindings: seq<Bytes32>) returns (sorted: seq<Staged>)
    requires |inputs| == |blindings| && SumScalars(blindings).Some? && AmountSum(inputs) < U64_BOUND
    requires forall i :: 0 <= i < |inputs| ==> InSnapshot(m, inputs[i]) && ScalarFrom(blindings[i]).Some?
    ensures InOrder(c, inputs, m, blindings, sorted)
  {
    var staged := Stage(c, m, inputs, blindings);
    sorted := SortByKeyImage(staged);
    SortSorts(staged);
    SortPermutes(staged);
    SortPermutesImages(staged);
    StagedTotals(c, m, inputs, blindings, staged);
    forall i | 0 <= i < |sorted|
      ensures Committed(c, sorted[i]) && exists j :: 0 <= j < |inputs| && StagedFor(c, m, sorted[i], inputs[j], blindings[j])
    {
      SortedEntry(c, m, inputs, blindings, staged, i);
    }
  }

  lemma AllProve(c: Suite, inputs: seq<OwnedOutput>, m: MembershipSnapshot, blindings: seq<Bytes32>, sorted: seq<Staged>)
    requires c.Canonical() && GoodSnapshot(c, m) && (forall i :: 0 <= i < |inputs| ==> Spendable(c, m, inputs[i]))
    requires InOrder(c, inputs, m, blindings, sorted)
    ensures AllProveAsStaged(c, m, sorted)
  {
    forall i | 0 <= i < |sorted|
      ensures ProvesAsStaged(c, m, sorted[i])
    {
      var j :| 0 <= j < |inputs| && StagedFor(c, m, sorted[i], inputs[j], blindings[j]);
      SpendableProves(c, m, sorted[i], inputs[j], blindings[j]);
    }
  }

  /** Replacing the placeholder proofs leaves the signing hash as it was. */
  lemma FinalSignsTheSame(blake: Bytes -> Bytes32, skeleton: TransferTx, final: TransferTx, staged: seq<Staged>)
    requires skeleton.inputs == Skeleton(staged) && |final.inputs| == |staged|
    requires final == skeleton.(inputs := final.inputs)
    requires forall i :: 0 <= i < |staged| ==>
               final.inputs[i].keyImage == staged[i].input.keyImage && final.inputs[i].pseudo == staged[i].pseudo
    ensures SigningHash(blake, final) == SigningHash(blake, skeleton)
    ensures Pseudos(final.inputs) == StagedPseudos(staged) && Images(final.inputs) == StagedImages(staged)
  {
    SigningBinds(skeleton, final);
  }

  /** The proofs fit the bounds of a transaction. */
  lemma FinalIsBounded(c: Suite, bp: Bulletproofs, msg: Bytes32, m: MembershipSnapshot, tx: TransferData, inputs: seq<FcmpInput>)
    requires tx.Bounded() && |inputs| == |tx.inputs|
    requires forall i :: 0 <= i < |inputs| ==> Proved(c, bp, msg, m, inputs[i])
    ensures tx.(inputs := inputs).Bounded()
  {
    forall i | 0 <= i < |inputs|
      ensures |inputs[i].proof| <= MAX_FCMP_PROOF_BYTES
    {
      assert Proved(c, bp, msg, m, inputs[i]);
    }
  }

  lemma SortedImages(sorted: seq<Staged>, inputs: seq<FcmpInput>)
    requires Sorted(sorted) && |inputs| == |sorted|
    requires forall i :: 0 <= i < |sorted| ==> inputs[i].keyImage == sorted[i].input.keyImage
    ensures KeyImagesSorted(inputs)
  {
    forall i | 0 < i < |inputs|
      ensures !Less(inputs[i].keyImage, inputs[i - 1].keyImage)
    {
      assert NotAbove(sorted[i - 1], sorted[i]);
    }
  }

  /** Finished inputs are in key-image order and publish what was staged. */
  lemma FinishedFields(c: Suite, bp: Bulletproofs, msg: Bytes32, m: MembershipSnapshot, sorted: seq<Staged>, draws: seq<Draw>,
                       inputs: seq<FcmpInput>)
    requires Sorted(sorted) && AllFinished(c, bp, msg, m, sorted, draws, inputs)
    ensures KeyImagesSorted(inputs) && Images(inputs) == StagedImages(sorted) && Pseudos(inputs) == StagedPseudos(sorted)
    ensures forall i :: 0 <= i < |inputs| ==> Proved(c, bp, msg, m, inputs[i])
  {
    forall i | 0 <= i < |sorted|
      ensures inputs[i].keyImage == sorted[i].input.keyImage && inputs[i].pseudo == sorted[i].pseudo && Proved(c, bp, msg, m, inputs[i])
    {
      assert Finished(c, bp, msg, m, sorted[i], draws[i], inputs[i]);
    }
    SortedImages(sorted, inputs);
  }

  /** The finished transaction keeps the skeleton's signing hash, so its proofs are over its own. */
  lemma FinishedTx(c: Suite, bp: Bulletproofs, m: MembershipSnapshot, sorted: seq<Staged>, draws: seq<Draw>, skeleton: TransferTx,
                   inputs: seq<FcmpInput>)
    requires Sorted(sorted) && skeleton.inputs == Skeleton(sorted)
    requires AllFinished(c, bp, SigningHash(c.blake, skeleton), m, sorted, draws, inputs)
    ensures skeleton.(inputs := inputs).Bounded()
    ensures SigningHash(c.blake, skeleton.(inputs := inputs)) == SigningHash(c.blake, skeleton)
  {
    var msg := SigningHash(c.blake, skeleton);
    FinishedFields(c, bp, msg, m, sorted, draws, inputs);
    FinalIsBounded(c, bp, msg, m, skeleton, inputs);
    forall i | 0 <= i < |sorted|
      ensures inputs[i].keyImage == sorted[i].input.keyImage && inputs[i].pseudo == sorted[i].pseudo
    {
      assert Images(inputs)[i] == StagedImages(sorted)[i] && Pseudos(inputs)[i] == StagedPseudos(sorted)[i];
    }
    FinalSignsTheSame(c.blake, skeleton, skeleton.(inputs := inputs), sorted);
  }

  /** Every input's proof is over the transaction's own signing hash. */
  ghost predicate AllProved(c: Suite, bp: Bulletproofs, m: MembershipSnapshot, tx: TransferTx) {
    forall i :: 0 <= i < |tx.inputs| ==> Proved(c, bp, SigningHash(c.blake, tx), m, tx.inputs[i])
  }

  method Finish(c: Suite, ghost bp: Bulletproofs, m: MembershipSnapshot, sorted: seq<Staged>, skeleton: TransferTx, draws: seq<Draw>)
    returns (r: Option<TransferTx>)
    requires c.Canonical() && Sorted(sorted) && skeleton.inputs == Skeleton(sorted)
    requires |draws| == |sorted| && forall i :: 0 <= i < |draws| ==> |draws[i].responses| == |m.admitted|
    ensures r.Some? <==> AllProveAsStaged(c, m, sorted)
    ensures r.Some? ==> r.value == skeleton.(inputs := r.value.inputs)
    ensures r.Some? ==> AllFinished(c, bp, SigningHash(c.blake, r.value), m, sorted, draws, r.value.inputs)
  {
    var final := ProveAll(c, bp, SigningHash(c.blake, skeleton), m, sorted, draws);
    if final.None? {
      return None;
    }
    FinishedTx(c, bp, m, sorted, draws, skeleton, final.value);
    return Some(skeleton.(inputs := final.value));
  }

  lemma ProvedSnapshot(c: Suite, m: MembershipSnapshot, st: Staged)
    requires ProvesAsStaged(c, m, st)
    ensures 1 <= |m.admitted| <= |m.digests| <= MAX_FCMP_ANON_SET
  {
    FullRingFits(c.blake, m.digests, m.admitted);
  }

  /** Output `li` of the transaction is the one made for `address` and `amount`. */
  ghost predicate Pays(c: Suite, txSecret: Scalar, tx: TransferTx, li: nat, address: StealthAddress, amount: u64) {
    && li < |tx.outputs| && MakeOutput(c, ScalarBytes(txSecret), address, li, amount).Some?
    && MakeOutput(c, ScalarBytes(txSecret), address, li, amount).value.0 == tx.outputs[li]
  }

  ghost predicate PaysBoth(c: Suite, txSecret: Scalar, tx: TransferTx, dest: StealthAddress, send: u64, own: StealthAddress, change: u64) {
    && tx.txPubkey == PublicKey(c, txSecret)
    && Pays(c, txSecret, tx, 0, dest, send) && Pays(c, txSecret, tx, 1, own, change)
  }

  /** The transaction is well built, pays `dest`, and returns what is left of the inputs. */
  ghost predicate BuiltFor(c: Suite, bp: Bulletproofs, own: StealthAddress, inputs: seq<OwnedOutput>, m: MembershipSnapshot,
                           dest: StealthAddress, send: u64, fee: u64, txSecret: Scalar, tx: TransferTx) {
    exists change: u64 :: send + fee + change == AmountSum(inputs) &&
      WellBuilt(c, bp, inputs, m, fee, tx) && PaysBoth(c, txSecret, tx, dest, send, own, change)
  }

  /** What is hashed for the one-time key of output `li`. */
  function KeyString(c: Suite, txSecret: Scalar, address: StealthAddress, li: nat): Bytes {
    match SharedSecret(c, ScalarBytes(txSecret), address.viewPublic)
    case None => []
    case Some(shared) => OutputString(DOM_OTK, shared, li)
  }

  /** The two strings hash to scalars whose difference is the logarithm of the difference of the two
    * spend keys.
    */
  ghost predicate SpendKeysRelated(c: Suite, a: StealthAddress, b: StealthAddress, x: Bytes, y: Bytes) {
    && (c.decompress)(a.spendPublic).Some? && (c.decompress)(b.spendPublic).Some?
    && Plus(Scale(G, (c.hs)(x)), (c.decompress)(a.spendPublic).value) == Plus(Scale(G, (c.hs)(y)), (c.decompress)(b.spendPublic).value)
  }

  lemma PaidKey(c: Suite, txSecret: Scalar, tx: TransferTx, li: nat, address: StealthAddress, amount: u64)
    requires Pays(c, txSecret, tx, li, address, amount)
    ensures (c.decompress)(address.spendPublic).Some?
    ensures tx.outputs[li].key ==
            (c.compress)(Plus(Scale(G, (c.hs)(KeyString(c, txSecret, address, li))), (c.decompress)(address.spendPublic).value))
  {
  }

  /** Payment and change have different one-time keys: always when both addresses have one spend key,
    * the sender's own address included, short of two strings with one scalar; and otherwise unless the
    * maker has hit on the logarithm of the difference of the two spend keys.
    */
  lemma PaidKeysDiffer(c: Suite, txSecret: Scalar, tx: TransferTx, dest: StealthAddress, send: u64, own: StealthAddress, change: u64)
    requires c.Canonical() && PaysBoth(c, txSecret, tx, dest, send, own, change)
    ensures var x, y := KeyString(c, txSecret, dest, 0), KeyString(c, txSecret, own, 1);
            && x != y
            && (tx.outputs[0].key == tx.outputs[1].key ==>
                  if dest.spendPublic == own.spendPublic then ScalarClash(c, x, y) else SpendKeysRelated(c, dest, own, x, y))
  {
    var x, y := KeyString(c, txSecret, dest, 0), KeyString(c, txSecret, own, 1);
    if x == y {
      OutputStringBinds(DOM_OTK, SharedSecret(c, ScalarBytes(txSecret), dest.viewPublic).value, 0,
                        SharedSecret(c, ScalarBytes(txSecret), own.viewPublic).value, 1);
    }
    PaidKey(c, txSecret, tx, 0, dest, send);
    PaidKey(c, txSecret, tx, 1, own, change);
    var p := Plus(Scale(G, (c.hs)(x)), (c.decompress)(dest.spendPublic).value);
    var q := Plus(Scale(G, (c.hs)(y)), (c.decompress)(own.spendPublic).value);
    if tx.outputs[0].key == tx.outputs[1].key {
      assert (c.decompress)((c.compress)(p)) == Some(p) && (c.decompress)((c.compress)(q)) == Some(q);
      ScaleG((c.hs)(x));
      ScaleG((c.hs)(y));
    }
  }

  /** The two outputs of a transfer, their blindings and their range proof. */
  datatype Outgoing = Outgoing(out0: Output, b0: Bytes32, out1: Output, b1: Bytes32, rangeProof: Bytes)

  ghost predicate OutgoingFor(c: Suite, bp: Bulletproofs, txSecret: Scalar, dest: StealthAddress, send: u64,
                              own: StealthAddress, change: u64, o: Outgoing) {
    && MakeOutput(c, ScalarBytes(txSecret), dest, 0, send) == Some((o.out0, o.b0))
    && MakeOutput(c, ScalarBytes(txSecret), own, 1, change) == Some((o.out1, o.b1))
    && RangeAccepts(c, bp, o.rangeProof, Flatten([o.out0.commitment, o.out1.commitment]))
  }

  ghost predicate Decodable(c: Suite, dest: StealthAddress) {
    (c.decompress)(dest.viewPublic).Some? && (c.decompress)(dest.spendPublic).Some?
  }

  method MakeOutgoing(c: Suite, bp: Bulletproofs, w: Wallet, txSecret: Scalar, dest: StealthAddress, send: u64, change: u64)
    returns (r: Option<Outgoing>)
    requires c.Canonical() && bp.Complete(c) && send + change < U64_BOUND
    ensures r.Some? ==> OutgoingFor(c, bp, txSecret, dest, send, w.address, change, r.value)
    ensures Decodable(c, dest) && Decodable(c, w.address) && bp.Reliable() ==> r.Some? && |r.value.rangeProof| <= MAX_RANGE_PROOF_BYTES
  {
    var made0 := MakeOutput(c, ScalarBytes(txSecret), dest, 0, send);
    if made0.None? {
      CanMakeOutput(c, txSecret, dest, 0, send);
      return None;
    }
    var made1 := MakeOutput(c, ScalarBytes(txSecret), w.address, 1, change);
    if made1.None? {
      CanMakeOutput(c, txSecret, w.address, 1, change);
      return None;
    }
    var (out0, b0) := made0.value;
    var (out1, b1) := made1.value;
    MadeOutputCommits(c, ScalarBytes(txSecret), dest, 0, send);
    MadeOutputCommits(c, ScalarBytes(txSecret), w.address, 1, change);
    TwoTotals(send, change, b0, b1);
    var ranged := ProveRange(c, bp, [send, change], [b0, b1]);
    if ranged.None? {
      return None;
    }
    var (rangeProof, commits) := ranged.value;
    assert commits == [out0.commitment, out1.commitment] by {
      assert Commit(c, [send, change][0], [b0, b1][0]) == Some(commits[0]);
      assert Commit(c, [send, change][1], [b0, b1][1]) == Some(commits[1]);
    }
    return Some(Outgoing(out0, b0, out1, b1, rangeProof));
  }

  /** What the outputs say about their blindings and sizes. */
  lemma OutgoingFacts(c: Suite, bp: Bulletproofs, txSecret: Scalar, dest: StealthAddress, send: u64, own: StealthAddress,
                      change: u64, o: Outgoing)
    requires OutgoingFor(c, bp, txSecret, dest, send, own, change, o) && send + change < U64_BOUND
    ensures Commit(c, send, o.b0) == Some(o.out0.commitment) && Commit(c, change, o.b1) == Some(o.out1.commitment)
    ensures |o.out0.payload| == |o.out1.payload| == 8 && SumScalars([o.b0, o.b1]).Some?
  {
    MadeOutputCommits(c, ScalarBytes(txSecret), dest, 0, send);
    MadeOutputCommits(c, ScalarBytes(txSecret), own, 1, change);
    TwoTotals(send, change, o.b0, o.b1);
  }

  /** The transfer before its proofs are made. */
  function SkeletonTx(root: Bytes32, sorted: seq<Staged>, o: Outgoing, txPubkey: Bytes32, fee: u64): TransferTx
    requires |sorted| <= MAX_FCMP_INPUTS && |o.out0.payload| == |o.out1.payload| == 8
    requires |o.rangeProof| <= MAX_RANGE_PROOF_BYTES
  {
    TransferData(root, Skeleton(sorted), [o.out0, o.out1], txPubkey, o.rangeProof, fee)
  }

  /** Everything the maker of a transfer knows about it. */
  datatype Payment = Payment(inputs: seq<OwnedOutput>, m: MembershipSnapshot, dest: StealthAddress, send: u64, own: StealthAddress,
                             change: u64, txSecret: Scalar, blindings: seq<Bytes32>, sorted: seq<Staged>, draws: seq<Draw>,
                             out: Outgoing)

  /** `tx` is the transfer that `p` makes. */
  ghost predicate MadeBy(c: Suite, bp: Bulletproofs, p: Payment, tx: TransferTx) {
    && 1 <= |p.inputs| <= MAX_FCMP_INPUTS && p.m.root == Root(c.blake, p.m.digests)
    && InOrder(c, p.inputs, p.m, p.blindings, p.sorted) && AllProveAsStaged(c, p.m, p.sorted)
    && OutgoingFor(c, bp, p.txSecret, p.dest, p.send, p.own, p.change, p.out)
    && AmountSum(p.inputs) == p.send + p.change + tx.fee < U64_BOUND
    && SumScalars(p.blindings) == SumScalars([p.out.b0, p.out.b1])
    && tx == TransferData(p.m.root, tx.inputs, [p.out.out0, p.out.out1], PublicKey(c, p.txSecret), p.out.rangeProof, tx.fee)
    && AllFinished(c, bp, SigningHash(c.blake, tx), p.m, p.sorted, p.draws, tx.inputs)
  }

  /** Some payment from these inputs, with these random choices, makes `tx`. */
  ghost predicate Made(c: Suite, bp: Bulletproofs, own: StealthAddress, inputs: seq<OwnedOutput>, m: MembershipSnapshot,
                       dest: StealthAddress, send: u64, fee: u64, ch: Choices, tx: TransferTx) {
    exists p: Payment :: MadeBy(c, bp, p, tx) && p.inputs == inputs && p.m == m && p.dest == dest && p.send == send && p.own == own
      && Chosen(p, ch) && tx.fee == fee
  }

  /** The payment uses these random choices: the transaction secret, one draw for each signature, and
    * the free blindings for all inputs but the last.
    */
  predicate Chosen(p: Payment, ch: Choices) {
    && p.txSecret == ch.txSecret && p.draws == ch.draws
    && |p.blindings| == |ch.free| + 1 && p.blindings[..|ch.free|] == BytesOf(ch.free)
  }

  lemma PaymentMakes(c: Suite, bp: Bulletproofs, p: Payment, ch: Choices, tx: TransferTx)
    requires MadeBy(c, bp, p, tx) && Chosen(p, ch)
    ensures Made(c, bp, p.own, p.inputs, p.m, p.dest, p.send, tx.fee, ch, tx)
  {
  }

  lemma MadeFields(c: Suite, bp: Bulletproofs, p: Payment, tx: TransferTx)
    requires MadeBy(c, bp, p, tx)
    ensures |p.sorted| == |tx.inputs| == |p.inputs|
    ensures KeyImagesSorted(tx.inputs) && Images(tx.inputs) == StagedImages(p.sorted)
    ensures Pseudos(tx.inputs) == StagedPseudos(p.sorted) && AllProved(c, bp, p.m, tx)
  {
    FinishedFields(c, bp, SigningHash(c.blake, tx), p.m, p.sorted, p.draws, tx.inputs);
  }

  lemma MadeBalances(c: Suite, bp: Bulletproofs, p: Payment, tx: TransferTx)
    requires c.Canonical() && MadeBy(c, bp, p, tx)
    ensures 1 <= |p.m.admitted| <= |p.m.digests| <= MAX_FCMP_ANON_SET
    ensures |p.out.out0.payload| == |p.out.out1.payload| == 8
    ensures VerifyBalance(c, Flatten(StagedPseudos(p.sorted)), Flatten([p.out.out0.commitment, p.out.out1.commitment]), tx.fee)
  {
    var o := p.out;
    OutgoingFacts(c, bp, p.txSecret, p.dest, p.send, p.own, p.change, o);
    ProvedSnapshot(c, p.m, p.sorted[0]);
    StagedBalance(c, p.sorted, p.send, p.change, tx.fee, o.b0, o.b1, o.out0.commitment, o.out1.commitment);
  }

  lemma MadeIsWellBuilt(c: Suite, bp: Bulletproofs, p: Payment, tx: TransferTx)
    requires c.Canonical() && MadeBy(c, bp, p, tx)
    ensures WellBuilt(c, bp, p.inputs, p.m, tx.fee, tx)
  {
    MadeFields(c, bp, p, tx);
    MadeBalances(c, bp, p, tx);
  }

  lemma BuiltWith(c: Suite, bp: Bulletproofs, own: StealthAddress, inputs: seq<OwnedOutput>, m: MembershipSnapshot,
                  dest: StealthAddress, send: u64, fee: u64, change: u64, txSecret: Scalar, tx: TransferTx)
    requires WellBuilt(c, bp, inputs, m, fee, tx) && PaysBoth(c, txSecret, tx, dest, send, own, change)
    requires send + fee + change == AmountSum(inputs)
    ensures BuiltFor(c, bp, own, inputs, m, dest, send, fee, txSecret, tx)
  {
  }

  lemma MadePays(c: Suite, bp: Bulletproofs, p: Payment, tx: TransferTx)
    requires MadeBy(c, bp, p, tx)
    ensures PaysBoth(c, p.txSecret, tx, p.dest, p.send, p.own, p.change) && p.send + tx.fee + p.change == AmountSum(p.inputs)
  {
  }

  /** The parts fit together. */
  lemma MadeIsBuilt(c: Suite, bp: Bulletproofs, p: Payment, tx: TransferTx)
    requires c.Canonical() && MadeBy(c, bp, p, tx)
    ensures BuiltFor(c, bp, p.own, p.inputs, p.m, p.dest, p.send, tx.fee, p.txSecret, tx)
  {
    MadeIsWellBuilt(c, bp, p, tx);
    MadePays(c, bp, p, tx);
    BuiltWith(c, bp, p.own, p.inputs, p.m, p.dest, p.send, tx.fee, p.change, p.txSecret, tx);
  }

  lemma MadeIsBuiltFor(c: Suite, bp: Bulletproofs, own: StealthAddress, inputs: seq<OwnedOutput>, m: MembershipSnapshot,
                       dest: StealthAddress, send: u64, fee: u64, ch: Choices, tx: TransferTx)
    requires c.Canonical() && Made(c, bp, own, inputs, m, dest, send, fee, ch, tx)
    ensures BuiltFor(c, bp, own, inputs, m, dest, send, fee, ch.txSecret, tx)
  {
    var p: Payment :| MadeBy(c, bp, p, tx) && p.inputs == inputs && p.m == m && p.dest == dest && p.send == send && p.own == own
      && Chosen(p, ch) && tx.fee == fee;
    MadeIsBuilt(c, bp, p, tx);
  }

  /** Stage, order and prove the inputs for given outputs. */
  method Assemble(c: Suite, ghost bp: Bulletproofs, own: StealthAddress, inputs: seq<OwnedOutput>, m: MembershipSnapshot,
                  ghost dest: StealthAddress, ghost send: u64, fee: u64, ghost change: u64, o: Outgoing, ch: Choices)
    returns (r: Option<TransferTx>)
    requires c.Canonical() && Enough(inputs, m, ch)
    requires 1 <= |inputs| <= MAX_FCMP_INPUTS && m.root == Root(c.blake, m.digests)
    requires forall i :: 0 <= i < |inputs| ==> InSnapshot(m, inputs[i])
    requires AmountSum(inputs) == send + change + fee < U64_BOUND
    requires OutgoingFor(c, bp, ch.txSecret, dest, send, own, change, o) && |o.rangeProof| <= MAX_RANGE_PROOF_BYTES
    ensures r.Some? ==> Made(c, bp, own, inputs, m, dest, send, fee, ch, r.value)
    ensures GoodSnapshot(c, m) && (forall i :: 0 <= i < |inputs| ==> Spendable(c, m, inputs[i])) ==> r.Some?
  {
    OutgoingFacts(c, bp, ch.txSecret, dest, send, own, change, o);
    var blindings := PseudoBlindings([o.b0, o.b1], ch.free);
    var sorted := StageInOrder(c, m, inputs, blindings);
    r := Finish(c, bp, m, sorted, SkeletonTx(m.root, sorted, o, PublicKey(c, ch.txSecret), fee), ch.draws);
    if r.Some? {
      PaymentMakes(c, bp, Payment(inputs, m, dest, send, own, change, ch.txSecret, blindings, sorted, ch.draws, o), ch, r.value);
    } else if GoodSnapshot(c, m) && forall i :: 0 <= i < |inputs| ==> Spendable(c, m, inputs[i]) {
      AllProve(c, inputs, m, blindings, sorted);
    }
  }

  /** The rest of the build, once the checks have passed. */
  method Compose(c: Suite, bp: Bulletproofs, w: Wallet, inputs: seq<OwnedOutput>, m: MembershipSnapshot,
                 dest: StealthAddress, send: u64, fee: u64, change: u64, ch: Choices)
    returns (r: BuildResult)
    requires c.Canonical() && bp.Complete(c) && Enough(inputs, m, ch)
    requires 1 <= |inputs| <= MAX_FCMP_INPUTS && m.root == Root(c.blake, m.digests)
    requires forall i :: 0 <= i < |inputs| ==> InSnapshot(m, inputs[i])
    requires AmountSum(inputs) == send + change + fee < U64_BOUND
    ensures r.Built? ==> Made(c, bp, w.address, inputs, m, dest, send, fee, ch, r.tx)
    ensures Ready(c, bp, inputs, m, w.address, dest) ==> r.Built?
  {
    var outgoing := MakeOutgoing(c, bp, w, ch.txSecret, dest, send, change);
    if outgoing.None? {
      return Failed(Crypto);
    }
    if |outgoing.value.rangeProof| > MAX_RANGE_PROOF_BYTES {
      return Failed(Bounds);
    }
    var tx := Assemble(c, bp, w.address, inputs, m, dest, send, fee, change, outgoing.value, ch);
    if tx.None? {
      return Failed(Crypto);
    }
    return Built(tx.value);
  }

  /** `build_transfer_multi`. Failed checks are reported in order; a built transaction is well
    * built, pays `dest` and returns the change; and for inputs the wallet can really spend, in a
    * good snapshot, building succeeds.
    */
  method BuildTransferMulti(c: Suite, bp: Bulletproofs, w: Wallet, inputs: seq<OwnedOutput>, m: MembershipSnapshot,
                            dest: StealthAddress, send: u64, fee: u64, ch: Choices)
    returns (r: BuildResult)
    requires c.Canonical() && bp.Complete(c) && Enough(inputs, m, ch)
    ensures PrecheckError(c, inputs, m, send, fee).Some? ==> r == Failed(PrecheckError(c, inputs, m, send, fee).value)
    ensures r.Built? ==> Made(c, bp, w.address, inputs, m, dest, send, fee, ch, r.tx)
    ensures r.Built? ==> BuiltFor(c, bp, w.address, inputs, m, dest, send, fee, ch.txSecret, r.tx)
    ensures PrecheckError(c, inputs, m, send, fee).None? && Ready(c, bp, inputs, m, w.address, dest) ==> r.Built?
  {
    var failed := PrecheckError(c, inputs, m, send, fee);
    if failed.Some? {
      return Failed(failed.value);
    }
    var change := CheckedTotal(inputs).value - (send + fee);
    r := Compose(c, bp, w, inputs, m, dest, send, fee, change, ch);
    if r.Built? {
      MadeIsBuiltFor(c, bp, w.address, inputs, m, dest, send, fee, ch, r.tx);
    }
  }

  lemma CanMakeOutput(c: Suite, r: Scalar, dest: StealthAddress, li: nat, amount: u64)
    ensures Decodable(c, dest) ==> MakeOutput(c, ScalarBytes(r), dest, li, amount).Some?
  {
    ScalarRoundTrip(r);
    if (c.decompress)(dest.viewPublic).Some? {
      ScalarRoundTrip(Derived(c, DOM_BLINDING, SharedSecret(c, ScalarBytes(r), dest.viewPublic).value, li));
    }
  }
}

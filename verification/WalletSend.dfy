/** Sending, from scan to arrival: what a wallet scans it can build, the chain applies, and both
  * parties find.
  */
module WalletSend {
  import opened Bytes
  import opened Limits
  import opened Group
  import opened Native
  import opened Stealth
  import opened Transactions
  import opened Pallet
  import opened TreeInvariant
  import opened RootWindow
  import opened ChainPoints
  import opened WalletScan
  import opened WalletStaging
  import opened WalletBuild
  import opened WalletToChain
  import opened WalletCache
  import opened WalletReady
  import ClsagSign

  /** The chain's storage rebuilds into a snapshot, as every reachable one does. */
  ghost predicate Rebuilds(c: Suite, s: State) {
    RebuildError(c.blake, s.root, DigestList(c.blake, s.digests, s.treeSlots), s.outputs) == None
  }

  // ---- the points of a built transaction ----------------------------------

  /** One of the points the chain checks is the identity. */
  ghost predicate HasIdentity(c: Suite, tx: TransferTx) {
    || IsIdentity(c, tx.txPubkey)
    || (exists j :: 0 <= j < |tx.outputs| && IsIdentity(c, tx.outputs[j].key))
    || (exists i :: 0 <= i < |tx.inputs| && (IsIdentity(c, tx.inputs[i].keyImage) || IsIdentity(c, tx.inputs[i].pseudo)))
  }

  predicate IsIdentity(c: Suite, b: Bytes32) {
    (c.decompress)(b) == Some(IDENTITY)
  }

  ghost predicate SpendDecodes(c: Suite, input: FcmpInput) {
    (c.decompress)(input.keyImage).Some? && (c.decompress)(input.pseudo).Some?
  }

  lemma ValidOrIdentity(c: Suite, tx: TransferTx)
    requires (c.decompress)(tx.txPubkey).Some?
    requires forall j :: 0 <= j < |tx.outputs| ==> (c.decompress)(tx.outputs[j].key).Some?
    requires forall i :: 0 <= i < |tx.inputs| ==> SpendDecodes(c, tx.inputs[i])
    ensures PointsValid(c, tx) || HasIdentity(c, tx)
  {
    if !HasIdentity(c, tx) {
      forall i | 0 <= i < |tx.inputs|
        ensures c.IsValidPoint(tx.inputs[i].keyImage) && c.IsValidPoint(tx.inputs[i].pseudo)
      {
        assert SpendDecodes(c, tx.inputs[i]);
      }
    }
  }

  lemma OutputKeyDecodes(c: Suite, txSecret: Scalar, tx: TransferTx, li: nat, address: StealthAddress, amount: u64)
    requires c.Canonical() && Pays(c, txSecret, tx, li, address, amount)
    ensures (c.decompress)(tx.outputs[li].key).Some?
  {
  }

  lemma ImageDecodes(c: Suite, w: Wallet, s: State, inputs: seq<OwnedOutput>, spends: seq<FcmpInput>, i: nat)
    requires c.Canonical() && forall k :: 0 <= k < |inputs| ==> ScannedAndAdmitted(c, s, w, inputs[k])
    requires multiset(Images(spends)) == multiset(OwnedImages(inputs)) && i < |spends|
    ensures (c.decompress)(spends[i].keyImage).Some?
  {
    assert Images(spends)[i] in multiset(OwnedImages(inputs));
    var k :| 0 <= k < |inputs| && OwnedImages(inputs)[k] == spends[i].keyImage;
    assert ScannedAndAdmitted(c, s, w, inputs[k]);
    assert ClsagSign.KeyImage(c, inputs[k].secret) == Some(inputs[k].keyImage);
  }

  lemma PseudosDecode(c: Suite, inputs: seq<FcmpInput>, outs: Bytes, fee: u64, i: nat)
    requires VerifyBalance(c, Flatten(Pseudos(inputs)), outs, fee) && i < |inputs|
    ensures (c.decompress)(inputs[i].pseudo).Some?
  {
    ParseFlatten(Pseudos(inputs));
    assert (c.decompress)(Pseudos(inputs)[i]).Some?;
  }

  lemma SpendsDecode(c: Suite, bp: Bulletproofs, s: State, sender: Wallet, inputs: seq<OwnedOutput>, m: MembershipSnapshot,
                     fee: u64, tx: TransferTx)
    requires c.Canonical() && WellBuilt(c, bp, inputs, m, fee, tx)
    requires forall k :: 0 <= k < |inputs| ==> ScannedAndAdmitted(c, s, sender, inputs[k])
    ensures forall i :: 0 <= i < |tx.inputs| ==> SpendDecodes(c, tx.inputs[i])
  {
    var outs := Flatten([tx.outputs[0].commitment, tx.outputs[1].commitment]);
    forall i | 0 <= i < |tx.inputs|
      ensures SpendDecodes(c, tx.inputs[i])
    {
      ImageDecodes(c, sender, s, inputs, tx.inputs, i);
      PseudosDecode(c, tx.inputs, outs, fee, i);
    }
  }

  lemma KeysDecode(c: Suite, txSecret: Scalar, tx: TransferTx, dest: StealthAddress, send: u64, own: StealthAddress, change: u64)
    requires c.Canonical() && PaysBoth(c, txSecret, tx, dest, send, own, change) && |tx.outputs| == 2
    ensures (c.decompress)(tx.txPubkey).Some?
    ensures forall j :: 0 <= j < |tx.outputs| ==> (c.decompress)(tx.outputs[j].key).Some?
  {
    OutputKeyDecodes(c, txSecret, tx, 0, dest, send);
    OutputKeyDecodes(c, txSecret, tx, 1, own, change);
  }

  /** Every point of a built transaction decodes, so the chain accepts them all unless one of them is
    * the identity.
    */
  lemma PointsDecode(c: Suite, bp: Bulletproofs, s: State, sender: Wallet, inputs: seq<OwnedOutput>, m: MembershipSnapshot,
                     dest: StealthAddress, send: u64, fee: u64, txSecret: Scalar, tx: TransferTx)
    requires c.Canonical() && BuiltFor(c, bp, sender.address, inputs, m, dest, send, fee, txSecret, tx)
    requires forall k :: 0 <= k < |inputs| ==> ScannedAndAdmitted(c, s, sender, inputs[k])
    ensures PointsValid(c, tx) || HasIdentity(c, tx)
  {
    var change := BuiltPays(c, bp, sender.address, inputs, m, dest, send, fee, txSecret, tx);
    KeysDecode(c, txSecret, tx, dest, send, sender.address, change);
    SpendsDecode(c, bp, s, sender, inputs, m, fee, tx);
    ValidOrIdentity(c, tx);
  }

  // ---- the payment --------------------------------------------------------

  /** `t` stores the payment and the change at the next two indices of `s`, each claimed by its owner
    * with the amount sent, and nothing of the inputs is lost.
    */
  ghost predicate Paid(c: Suite, s: State, t: State, sender: Wallet, receiver: Wallet, inputs: seq<OwnedOutput>, send: u64, fee: u64) {
    && send + fee <= AmountSum(inputs) < U64_BOUND
    && StoredAndArrives(c, receiver, t, s.nextOutputIndex, 0, send)
    && StoredAndArrives(c, sender, t, s.nextOutputIndex + 1, 1, AmountSum(inputs) - send - fee)
  }

  /** Why a well-made payment can still fail: a point of the transaction happens to be the identity,
    * or the block's fees overflow 64 bits.
    */
  ghost predicate Unlucky(c: Suite, s: State, tx: TransferTx) {
    HasIdentity(c, tx) || s.blockFees + tx.fee >= U64_BOUND
  }

  lemma BuiltIsAccepted(c: Suite, bp: Bulletproofs, cfg: Config, s: State, own: StealthAddress, inputs: seq<OwnedOutput>,
                        m: MembershipSnapshot, dest: StealthAddress, send: u64, fee: u64, txSecret: Scalar, tx: TransferTx)
    requires BuiltFor(c, bp, own, inputs, m, dest, send, fee, txSecret, tx)
    requires Distinct(OwnedImages(inputs)) && ChainAgrees(cfg, s, inputs, m, fee) && PointsValid(c, tx)
    ensures TransferError(NativeHost(c, bp), cfg, s, tx) == None && tx.fee == fee
  {
    var change := BuiltPays(c, bp, own, inputs, m, dest, send, fee, txSecret, tx);
    WellBuiltIsAccepted(c, bp, cfg, s, inputs, m, fee, tx);
  }

  /** A transaction built from an earlier state `a` is applied in `s`, and arrives. */
  lemma BuiltIsApplied(c: Suite, bp: Bulletproofs, cfg: Config, a: State, s: State, sender: Wallet, receiver: Wallet,
                       inputs: seq<OwnedOutput>, m: MembershipSnapshot, send: u64, fee: u64, txSecret: Scalar, tx: TransferTx)
    requires c.Canonical() && ValidWallet(c, sender) && ValidWallet(c, receiver)
    requires BuiltFor(c, bp, sender.address, inputs, m, receiver.address, send, fee, txSecret, tx)
    requires forall k :: 0 <= k < |inputs| ==> ScannedAndAdmitted(c, a, sender, inputs[k])
    requires Distinct(OwnedImages(inputs)) && ChainAgrees(cfg, s, inputs, m, fee) && AmountSum(inputs) < U64_BOUND
    requires !Unlucky(c, s, tx)
    ensures Call(NativeHost(c, bp), cfg, s, TransferCall(tx)).Ok?
    ensures Paid(c, s, Dispatch(NativeHost(c, bp), cfg, s, TransferCall(tx)), sender, receiver, inputs, send, fee)
  {
    PointsDecode(c, bp, a, sender, inputs, m, receiver.address, send, fee, txSecret, tx);
    BuiltIsAccepted(c, bp, cfg, s, sender.address, inputs, m, receiver.address, send, fee, txSecret, tx);
    AppliedIsPaid(c, bp, s, sender, receiver, inputs, m, send, fee, txSecret, tx);
  }

  lemma AppliedIsPaid(c: Suite, bp: Bulletproofs, s: State, sender: Wallet, receiver: Wallet, inputs: seq<OwnedOutput>,
                      m: MembershipSnapshot, send: u64, fee: u64, txSecret: Scalar, tx: TransferTx)
    requires c.Canonical() && ValidWallet(c, sender) && ValidWallet(c, receiver) && AmountSum(inputs) < U64_BOUND
    requires BuiltFor(c, bp, sender.address, inputs, m, receiver.address, send, fee, txSecret, tx)
    requires ApplyTransfer(NativeHost(c, bp), s, tx).Ok?
    ensures Paid(c, s, ApplyTransfer(NativeHost(c, bp), s, tx).state, sender, receiver, inputs, send, fee)
  {
    var t := ApplyTransfer(NativeHost(c, bp), s, tx).state;
    var change := PaymentArrives(c, bp, NativeHost(c, bp), s, t, sender, receiver, inputs, m, send, fee, txSecret, tx);
    PaidWith(c, s, t, sender, receiver, inputs, send, fee, change);
  }

  lemma PaidWith(c: Suite, s: State, t: State, sender: Wallet, receiver: Wallet, inputs: seq<OwnedOutput>, send: u64, fee: u64, change: u64)
    requires send + fee + change == AmountSum(inputs) < U64_BOUND
    requires StoredAndArrives(c, receiver, t, s.nextOutputIndex, 0, send)
    requires StoredAndArrives(c, sender, t, s.nextOutputIndex + 1, 1, change)
    ensures Paid(c, s, t, sender, receiver, inputs, send, fee)
  {
  }

  // ---- from an earlier block ----------------------------------------------

  /** The state a wallet builds from: the one its transaction meets, or the end of a block whose root
    * that state still accepts.
    */
  ghost predicate Anchor(c: Suite, bp: Bulletproofs, cfg: Config, past: seq<Block>, xs: Block, a: State) {
    || a == During(NativeHost(c, bp), cfg, past, xs)
    || exists n :: InWindow(past, n) && a == EndOf(NativeHost(c, bp), cfg, past[..n])
  }

  lemma EndIsGood(c: Suite, bp: Bulletproofs, cfg: Config, past: seq<Block>)
    requires c.Canonical()
    ensures TreeInv(c.blake, cfg, EndOf(NativeHost(c, bp), cfg, past)) && OutputsWellFormed(c, EndOf(NativeHost(c, bp), cfg, past))
  {
    RunKeepsTree(NativeHost(c, bp), cfg, past, []);
    RunKeepsPoints(c, bp, cfg, past, []);
  }

  /** An anchor's tree and points are right, its root is accepted, and everything it stores is still
    * there.
    */
  lemma AnchorHolds(c: Suite, bp: Bulletproofs, cfg: Config, past: seq<Block>, xs: Block, a: State)
    requires c.Canonical() && Anchor(c, bp, cfg, past, xs, a)
    ensures TreeInv(c.blake, cfg, a) && OutputsWellFormed(c, a)
    ensures RootAccepted(During(NativeHost(c, bp), cfg, past, xs), a.root) && Extends(a, During(NativeHost(c, bp), cfg, past, xs))
  {
    var host := NativeHost(c, bp);
    if a == During(host, cfg, past, xs) {
      RunKeepsTree(host, cfg, past, xs);
      RunKeepsPoints(c, bp, cfg, past, xs);
    } else {
      var n :| InWindow(past, n) && a == EndOf(host, cfg, past[..n]);
      EndIsGood(c, bp, cfg, past[..n]);
      AcceptedRoots(host, cfg, past, xs, a.root);
      HistoryExtends(host, cfg, past, xs, n);
    }
  }

  /** The least fee the wallet offers for so many inputs. */
  function EstimatedFee(cfg: Config, a: State, inputs: nat): u64 {
    Min(cfg.minFeePerByte * EstimateTxBytes(a.treeSlots, inputs), U64_BOUND - 1)
  }

  /** The inputs are the wallet's, found and admitted in `a`, differ in key image, and are still
    * unspent in `s`.
    */
  ghost predicate Selected(c: Suite, a: State, s: State, w: Wallet, inputs: seq<OwnedOutput>) {
    && 1 <= |inputs| <= MAX_FCMP_INPUTS && Distinct(OwnedImages(inputs))
    && (forall i :: 0 <= i < |inputs| ==> ScannedAndAdmitted(c, a, w, inputs[i]) && inputs[i].keyImage !in s.keyImages)
  }

  lemma SnapshotAgrees(c: Suite, cfg: Config, a: State, s: State, w: Wallet, inputs: seq<OwnedOutput>, m: MembershipSnapshot, fee: u64)
    requires Rebuilds(c, a) && m == ChainSnapshot(c.blake, a) && s.treeSlots <= MAX_FCMP_ANON_SET && RootAccepted(s, a.root)
    requires Selected(c, a, s, w, inputs) && fee >= EstimatedFee(cfg, a, |inputs|)
    ensures ChainAgrees(cfg, s, inputs, m, fee)
  {
  }

  lemma SelectedBuild(c: Suite, bp: Bulletproofs, cfg: Config, a: State, s: State, w: Wallet, inputs: seq<OwnedOutput>,
                      dest: StealthAddress, send: u64, fee: u64)
    requires c.Canonical() && ValidWallet(c, w) && Decodable(c, dest) && bp.Reliable()
    requires TreeInv(c.blake, cfg, a) && a.treeSlots <= MAX_FCMP_ANON_SET && OutputsWellFormed(c, a) && NoLeafLooksEmpty(c.blake, a)
    requires Selected(c, a, s, w, inputs) && send + fee <= AmountSum(inputs) < U64_BOUND
    ensures Rebuilds(c, a)
    ensures var m := ChainSnapshot(c.blake, a); PrecheckError(c, inputs, m, send, fee) == None && Ready(c, bp, inputs, m, w.address, dest)
  {
    StateInputsBuild(c, bp, cfg, a, w, inputs, dest, send, fee);
  }

  method BuildSelected(c: Suite, bp: Bulletproofs, ghost cfg: Config, a: State, ghost s: State, sender: Wallet,
                       inputs: seq<OwnedOutput>, dest: StealthAddress, send: u64, fee: u64, ch: Choices) returns (tx: TransferTx)
    requires c.Canonical() && bp.Complete(c) && bp.Reliable() && ValidWallet(c, sender) && Decodable(c, dest)
    requires TreeInv(c.blake, cfg, a) && a.treeSlots <= MAX_FCMP_ANON_SET && OutputsWellFormed(c, a) && NoLeafLooksEmpty(c.blake, a)
    requires Selected(c, a, s, sender, inputs) && send + fee <= AmountSum(inputs) < U64_BOUND
    requires Rebuilds(c, a) ==> Enough(inputs, ChainSnapshot(c.blake, a), ch)
    ensures Rebuilds(c, a)
    ensures Made(c, bp, sender.address, inputs, ChainSnapshot(c.blake, a), dest, send, fee, ch, tx)
    ensures BuiltFor(c, bp, sender.address, inputs, ChainSnapshot(c.blake, a), dest, send, fee, ch.txSecret, tx)
  {
    SelectedBuild(c, bp, cfg, a, s, sender, inputs, dest, send, fee);
    var r := BuildTransferMulti(c, bp, sender, inputs, ChainSnapshot(c.blake, a), dest, send, fee, ch);
    tx := r.tx;
  }

  lemma SentIsApplied(c: Suite, bp: Bulletproofs, cfg: Config, a: State, s: State, sender: Wallet, receiver: Wallet,
                      inputs: seq<OwnedOutput>, send: u64, fee: u64, txSecret: Scalar, tx: TransferTx)
    requires c.Canonical() && ValidWallet(c, sender) && ValidWallet(c, receiver) && AmountSum(inputs) < U64_BOUND
    requires Rebuilds(c, a) && s.treeSlots <= MAX_FCMP_ANON_SET && RootAccepted(s, a.root)
    requires BuiltFor(c, bp, sender.address, inputs, ChainSnapshot(c.blake, a), receiver.address, send, fee, txSecret, tx)
    requires Selected(c, a, s, sender, inputs) && fee >= EstimatedFee(cfg, a, |inputs|) && !Unlucky(c, s, tx)
    ensures Call(NativeHost(c, bp), cfg, s, TransferCall(tx)).Ok?
    ensures Paid(c, s, Dispatch(NativeHost(c, bp), cfg, s, TransferCall(tx)), sender, receiver, inputs, send, fee)
  {
    SnapshotAgrees(c, cfg, a, s, sender, inputs, ChainSnapshot(c.blake, a), fee);
    BuiltIsApplied(c, bp, cfg, a, s, sender, receiver, inputs, ChainSnapshot(c.blake, a), send, fee, txSecret, tx);
  }

  /** `send`: a wallet that scanned and rebuilt at an anchor `a`, holds enough there in admitted outputs
    * of different key images that are still unspent, and offers the estimated fee builds a transaction.
    * Dispatched into any state of the run that still accepts the anchor's root and has at most 64
    * slots, it is applied, and the payment and the change arrive, unless it is unlucky.
    */
  method Send(c: Suite, bp: Bulletproofs, ghost cfg: Config, ghost past: seq<Block>, ghost xs: Block, a: State, ghost s: State,
              sender: Wallet, ghost receiver: Wallet, inputs: seq<OwnedOutput>, dest: StealthAddress, send: u64, fee: u64, ch: Choices)
    returns (tx: TransferTx)
    requires c.Canonical() && bp.Complete(c) && bp.Reliable() && ValidWallet(c, sender)
    requires ValidWallet(c, receiver) && dest == receiver.address
    requires s == During(NativeHost(c, bp), cfg, past, xs) && s.treeSlots <= MAX_FCMP_ANON_SET
    requires Anchor(c, bp, cfg, past, xs, a) && NoLeafLooksEmpty(c.blake, a)
    requires Selected(c, a, s, sender, inputs) && send + fee <= AmountSum(inputs) < U64_BOUND
    requires fee >= EstimatedFee(cfg, a, |inputs|)
    requires Rebuilds(c, a) ==> Enough(inputs, ChainSnapshot(c.blake, a), ch)
    ensures Rebuilds(c, a) && BuiltFor(c, bp, sender.address, inputs, ChainSnapshot(c.blake, a), dest, send, fee, ch.txSecret, tx)
    ensures Unlucky(c, s, tx) || (Call(NativeHost(c, bp), cfg, s, TransferCall(tx)).Ok? &&
              Paid(c, s, Dispatch(NativeHost(c, bp), cfg, s, TransferCall(tx)), sender, receiver, inputs, send, fee))
  {
    AnchorHolds(c, bp, cfg, past, xs, a);
    ValidIsDecodable(c, receiver);
    tx := BuildSelected(c, bp, cfg, a, s, sender, inputs, dest, send, fee, ch);
    if !Unlucky(c, s, tx) {
      SentIsApplied(c, bp, cfg, a, s, sender, receiver, inputs, send, fee, ch.txSecret, tx);
    }
  }
}

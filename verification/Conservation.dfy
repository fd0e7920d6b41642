/** Conservation of money over every run of the native ledger. */
module Conservation {
  import opened Bytes
  import opened Limits
  import opened Group
  import opened Merkle
  import opened Hosts
  import opened FcmpCodec
  import opened Native
  import opened Transactions
  import opened Pallet
  import opened TreeInvariant
  import opened RootWindow
  import opened Spends
  import opened Ideal
  import Emission
  import Fcmp

  // ---- the value of outputs -----------------------------------------------

  /** What a stored output holds: its public amount unblinded, or what its commitment is known to open to. */
  function StoredOpening(open: Known, out: StoredOutput): Opening {
    match out.amount
    case Some(a) => Opening(a, 0)
    case None => open(out.commitment)
  }

  /** That opening is right and 64-bit. */
  ghost predicate OutputOpens(c: Suite, open: Known, out: StoredOutput) {
    OpensTo(c, out.commitment, StoredOpening(open, out)) && StoredOpening(open, out).value < U64_BOUND
  }

  function Value(open: Known, s: State, i: nat): nat {
    if i in s.outputs then StoredOpening(open, s.outputs[i]).value else 0
  }

  /** Total value of outputs `0..n` not in `used`. */
  ghost function Unspent(open: Known, s: State, used: set<nat>, n: nat): nat {
    if n == 0 then 0 else Unspent(open, s, used, n - 1) + if n - 1 in used then 0 else Value(open, s, n - 1)
  }

  lemma {:induction false} UnspentFrame(open: Known, s: State, t: State, used: set<nat>, n: nat)
    requires forall i: nat :: i < n ==> Value(open, s, i) == Value(open, t, i)
    ensures Unspent(open, s, used, n) == Unspent(open, t, used, n)
  {
    if n > 0 {
      UnspentFrame(open, s, t, used, n - 1);
    }
  }

  /** Using up one more output removes exactly its value. */
  lemma {:induction false} UseOne(open: Known, s: State, used: set<nat>, i: nat, n: nat)
    requires i !in used
    ensures Unspent(open, s, used, n) == Unspent(open, s, used + {i}, n) + if i < n then Value(open, s, i) else 0
  {
    if n > 0 {
      UseOne(open, s, used, i, n - 1);
    }
  }

  /** The values of a list of openings, added as integers. */
  function IntSum(os: seq<Opening>): nat {
    if os == [] then 0 else IntSum(os[..|os| - 1]) + os[|os| - 1].value
  }

  // ---- minting ------------------------------------------------------------

  function StoredOpenings(open: Known, outs: seq<StoredOutput>): (os: seq<Opening>)
    ensures |os| == |outs|
  {
    seq(|outs|, i requires 0 <= i < |outs| => StoredOpening(open, outs[i]))
  }

  lemma MintAdds(h: Hash, s: State, out: StoredOutput)
    ensures Mint(h, s, out).outputs == s.outputs[s.nextOutputIndex := out]
    ensures Mint(h, s, out).nextOutputIndex == s.nextOutputIndex + 1
  {
  }

  /** Minting adds the value of the new outputs to the unspent total. */
  lemma {:induction false} MintAllAdds(h: Hash, open: Known, s: State, outs: seq<StoredOutput>, used: set<nat>)
    requires forall i :: i in used ==> i < s.nextOutputIndex
    ensures var t := MintAll(h, s, outs);
            && t.nextOutputIndex == s.nextOutputIndex + |outs|
            && (forall i: nat :: i < s.nextOutputIndex ==> Value(open, t, i) == Value(open, s, i))
            && Unspent(open, t, used, t.nextOutputIndex) ==
               Unspent(open, s, used, s.nextOutputIndex) + IntSum(StoredOpenings(open, outs))
  {
    if outs != [] {
      var most, last := outs[..|outs| - 1], outs[|outs| - 1];
      MintAllAdds(h, open, s, most, used);
      var u, t := MintAll(h, s, most), MintAll(h, s, outs);
      MintAdds(h, u, last);
      UnspentFrame(open, u, t, used, u.nextOutputIndex);
      assert StoredOpenings(open, outs)[..|outs| - 1] == StoredOpenings(open, most);
    }
  }

  lemma {:induction false} MintAllStores(h: Hash, s: State, outs: seq<StoredOutput>, i: nat)
    ensures var t := MintAll(h, s, outs);
            (i in t.outputs && !(i in s.outputs && s.outputs[i] == t.outputs[i])) ==> t.outputs[i] in outs
  {
    if outs != [] {
      MintAllStores(h, s, outs[..|outs| - 1], i);
      MintAdds(h, MintAll(h, s, outs[..|outs| - 1]), outs[|outs| - 1]);
    }
  }

  // ---- the ledger invariant -----------------------------------------------

  /** Spend number `k` consumed output `consumed[k]`, whose key image it published. */
  ghost predicate Consumed(c: Suite, s: State, spent: seq<Bytes32>, consumed: seq<nat>, k: nat)
    requires k < |spent| == |consumed|
  {
    consumed[k] in s.outputs && spent[k] == KeyImageFor(c, s.outputs[consumed[k]].key)
  }

  ghost function Used(consumed: seq<nat>): set<nat> {
    set k: nat | k < |consumed| :: consumed[k]
  }

  ghost predicate OutputsOpen(c: Suite, open: Known, s: State) {
    forall i: nat :: i in s.outputs ==> OutputOpens(c, open, s.outputs[i])
  }

  /** The books: each spend consumed its own output, every output is opened to a 64-bit value, and
    * what is left plus pending fees is what was emitted.
    */
  ghost predicate Books(c: Suite, open: Known, s: State, spent: seq<Bytes32>, consumed: seq<nat>) {
    && |spent| == |consumed|
    && (forall k :: 0 <= k < |spent| ==> Consumed(c, s, spent, consumed, k))
    && OutputsOpen(c, open, s)
    && Unspent(open, s, Used(consumed), s.nextOutputIndex) + s.blockFees == s.emitted
  }

  /** Outputs consumed by distinct key images are distinct outputs. */
  lemma ConsumedAreDistinct(c: Suite, s: State, spent: seq<Bytes32>, consumed: seq<nat>)
    requires |spent| == |consumed| && Distinct(spent)
    requires forall k :: 0 <= k < |spent| ==> Consumed(c, s, spent, consumed, k)
    ensures forall i, j :: 0 <= i < j < |consumed| ==> consumed[i] != consumed[j]
  {
    forall i, j | 0 <= i < j < |consumed|
      ensures consumed[i] != consumed[j]
    {
      assert Consumed(c, s, spent, consumed, i) && Consumed(c, s, spent, consumed, j);
    }
  }

  // ---- what one transfer consumes and makes -------------------------------

  /** Input `i` consumes output `found[i]`: same key image, and C' re-blinds it by `zs[i]`. */
  ghost predicate Found(c: Suite, s: State, inputs: seq<FcmpInput>, found: seq<nat>, zs: seq<Scalar>, i: nat)
    requires i < |found| == |zs| <= |inputs|
  {
    && found[i] in s.outputs && inputs[i].keyImage == KeyImageFor(c, s.outputs[found[i]].key)
    && Reblinds(c, s.outputs[found[i]].commitment, inputs[i].pseudo, zs[i])
  }

  ghost predicate AllFound(c: Suite, s: State, inputs: seq<FcmpInput>, found: seq<nat>, zs: seq<Scalar>) {
    |found| == |zs| == |inputs| && forall i :: 0 <= i < |found| ==> Found(c, s, inputs, found, zs, i)
  }

  /** The opening of an input's C': its output's value, re-blinded. */
  function InOpening(open: Known, s: State, i: nat, z: Scalar): Opening {
    if i in s.outputs then Opening(StoredOpening(open, s.outputs[i]).value, Sub(StoredOpening(open, s.outputs[i]).blinding, z))
    else Opening(0, 0)
  }

  function InOpenings(open: Known, s: State, found: seq<nat>, zs: seq<Scalar>): (os: seq<Opening>)
    requires |found| == |zs|
    ensures |os| == |found|
  {
    seq(|found|, i requires 0 <= i < |found| => InOpening(open, s, found[i], zs[i]))
  }

  function OutOpenings(open: Known, outs: seq<Output>): (os: seq<Opening>)
    ensures |os| == |outs|
  {
    seq(|outs|, j requires 0 <= j < |outs| => open(outs[j].commitment))
  }

  /** The output an input consumes: the tree index of the ring member its known witness names. */
  ghost function SpentIndex(know: Signers, msg: Bytes, input: FcmpInput): nat {
    match Parse(input.proof)
    case None => 0
    case Some(p) => if WitnessOf(know, msg, input).l < |p.ring| then p.ring[WitnessOf(know, msg, input).l].treeIndex else 0
  }

  /** The outputs a transfer consumes, by the known witnesses of its signatures. */
  ghost function SpentBy(h: Hash, know: Signers, tx: TransferTx): (found: seq<nat>)
    ensures |found| == |tx.inputs|
  {
    seq(|tx.inputs|, i requires 0 <= i < |tx.inputs| => SpentIndex(know, SigningHash(h, tx), tx.inputs[i]))
  }

  /** By how much each of its C' is re-blinded. */
  ghost function Reblindings(h: Hash, know: Signers, tx: TransferTx): (zs: seq<Scalar>)
    ensures |zs| == |tx.inputs|
  {
    seq(|tx.inputs|, i requires 0 <= i < |tx.inputs| => WitnessOf(know, SigningHash(h, tx), tx.inputs[i]).z)
  }

  /** The openings of a transfer's C' that follow from the known openings and witnesses. */
  ghost function InputOpenings(h: Hash, open: Known, know: Signers, s: State, tx: TransferTx): (os: seq<Opening>)
    ensures |os| == |tx.inputs|
  {
    InOpenings(open, s, SpentBy(h, know, tx), Reblindings(h, know, tx))
  }

  function FoundSum(open: Known, s: State, found: seq<nat>): nat {
    if found == [] then 0 else FoundSum(open, s, found[..|found| - 1]) + Value(open, s, found[|found| - 1])
  }

  /** Consuming distinct fresh outputs removes the sum of their values. */
  lemma {:induction false} UseAll(open: Known, s: State, consumed: seq<nat>, found: seq<nat>, n: nat)
    requires forall i, j :: 0 <= i < j < |consumed + found| ==> (consumed + found)[i] != (consumed + found)[j]
    requires forall i :: 0 <= i < |found| ==> found[i] < n
    ensures Unspent(open, s, Used(consumed), n) == Unspent(open, s, Used(consumed + found), n) + FoundSum(open, s, found)
  {
    if found == [] {
      assert consumed + found == consumed;
    } else {
      var most, last := found[..|found| - 1], found[|found| - 1];
      assert consumed + found == (consumed + most) + [last];
      forall i, j | 0 <= i < j < |consumed + most|
        ensures (consumed + most)[i] != (consumed + most)[j]
      {
        assert (consumed + most)[i] == (consumed + found)[i] && (consumed + most)[j] == (consumed + found)[j];
      }
      UseAll(open, s, consumed, most, n);
      UsedSnoc(consumed + most, last);
      UseOne(open, s, Used(consumed + most), last, n);
    }
  }

  lemma UsedSnoc(consumed: seq<nat>, last: nat)
    requires forall i :: 0 <= i < |consumed| ==> (consumed + [last])[i] != (consumed + [last])[|consumed|]
    ensures Used(consumed + [last]) == Used(consumed) + {last} && last !in Used(consumed)
  {
    var all := consumed + [last];
    assert forall k: nat :: k < |consumed| ==> all[k] == consumed[k];
    assert all[|consumed|] == last;
  }

  lemma {:induction false} FoundSumIsInSum(open: Known, s: State, found: seq<nat>, zs: seq<Scalar>)
    requires |found| == |zs|
    ensures FoundSum(open, s, found) == IntSum(InOpenings(open, s, found, zs))
  {
    if found != [] {
      var n := |found| - 1;
      FoundSumIsInSum(open, s, found[..n], zs[..n]);
      assert InOpenings(open, s, found, zs)[..n] == InOpenings(open, s, found[..n], zs[..n]);
    }
  }

  // ---- balance ------------------------------------------------------------

  lemma {:induction false} SumBound(os: seq<Opening>, bound: nat)
    requires forall i :: 0 <= i < |os| ==> os[i].value < bound
    ensures IntSum(os) <= |os| * bound
  {
    if os != [] {
      SumBound(os[..|os| - 1], bound);
      assert |os| * bound == (|os| - 1) * bound + bound;
    }
  }

  lemma {:induction false} TotalIsRemainder(os: seq<Opening>)
    ensures TotalValue(os) == IntSum(os) % ORDER
  {
    if os != [] {
      TotalIsRemainder(os[..|os| - 1]);
      AddToRemainder(IntSum(os[..|os| - 1]), os[|os| - 1].value, ORDER);
    }
  }

  lemma AddToRemainder(total: nat, more: Scalar, q: int)
    requires q == ORDER
    ensures Add(total % q, more) == (total + more) % q
  {
    ModAdd(total, more, q);
  }

  /** Equal totals modulo the group order, with at most 4 inputs, 8 outputs and a fee, all 64-bit,
    * are equal integers.
    */
  lemma BalanceIsExact(ins: seq<Opening>, outs: seq<Opening>, fee: u64)
    requires |ins| <= MAX_FCMP_INPUTS && |outs| <= MAX_OUTPUTS
    requires forall i :: 0 <= i < |ins| ==> ins[i].value < U64_BOUND
    requires forall j :: 0 <= j < |outs| ==> outs[j].value < U64_BOUND
    requires TotalValue(ins) == Add(TotalValue(outs), fee)
    ensures IntSum(ins) == IntSum(outs) + fee
  {
    SmallSum(ins, MAX_FCMP_INPUTS);
    SmallSum(outs, MAX_OUTPUTS);
    TotalIsRemainder(ins);
    TotalIsRemainder(outs);
    ExactSums(IntSum(ins), IntSum(outs), fee);
  }

  lemma SmallSum(os: seq<Opening>, most: nat)
    requires |os| <= most && forall i :: 0 <= i < |os| ==> os[i].value < U64_BOUND
    ensures IntSum(os) <= most * U64_BOUND
  {
    SumBound(os, U64_BOUND);
    AtMost(|os|, most, U64_BOUND);
  }

  lemma ExactSums(a: nat, b: nat, fee: u64)
    requires a <= 4 * U64_BOUND && b <= 8 * U64_BOUND && a % ORDER == Add(b % ORDER, fee)
    ensures a == b + fee
  {
    AddToRemainder(b, fee, ORDER);
    NoWrap(a, b + fee);
  }

  lemma AtMost(n: nat, most: nat, bound: nat)
    requires n <= most
    ensures n * bound <= most * bound
  {
  }

  lemma NoWrap(a: nat, b: nat)
    requires a < 9 * U64_BOUND && b < 9 * U64_BOUND && a % ORDER == b % ORDER
    ensures a == b
  {
    SmallIsItsOwnRemainder(a);
    SmallIsItsOwnRemainder(b);
  }

  lemma SmallIsItsOwnRemainder(n: nat)
    requires n < 9 * U64_BOUND
    ensures n % ORDER == n
  {
    RemainderUnique(n, 0, n, ORDER);
  }

  // ---- faults -------------------------------------------------------------

  /** What a run that creates money has to contain: a signature whose known witness is wrong, a range
    * proof over a commitment that is not known to open in range, or a relation between the generators.
    */
  datatype Fault = Forged(i: nat) | Unopened(j: nat) | Relation(value: Scalar, blinding: Scalar)

  /** By how much the known values of a transfer's C' exceed those of its outputs and fee. */
  ghost function ValueGap(h: Hash, open: Known, know: Signers, s: State, tx: TransferTx): Scalar {
    Sub(TotalValue(InputOpenings(h, open, know, s, tx)), Add(TotalValue(OutOpenings(open, tx.outputs)), tx.fee))
  }

  /** By how much the known blindings of its outputs exceed those of its C'. */
  ghost function BlindingGap(h: Hash, open: Known, know: Signers, s: State, tx: TransferTx): Scalar {
    Sub(TotalBlinding(OutOpenings(open, tx.outputs)), TotalBlinding(InputOpenings(h, open, know, s, tx)))
  }

  /** Every input's known witness is right, and every output is known to open in range. */
  ghost predicate Explained(c: Suite, open: Known, know: Signers, tx: TransferTx) {
    && (forall i :: 0 <= i < |tx.inputs| ==> Witnessed(c, know, SigningHash(c.blake, tx), tx.inputs[i]))
    && (forall j :: 0 <= j < |tx.outputs| ==> InRange(c, open, tx.outputs[j].commitment))
  }

  /** Transfer `tx`, accepted in state `s`, exhibits `fault`. A relation is computed from openings and
    * witnesses of this transfer that are all right.
    */
  ghost predicate FaultIn(c: Suite, open: Known, know: Signers, s: State, tx: TransferTx, fault: Fault) {
    match fault
    case Forged(i) => i < |tx.inputs| && !Witnessed(c, know, SigningHash(c.blake, tx), tx.inputs[i])
    case Unopened(j) => j < |tx.outputs| && !InRange(c, open, tx.outputs[j].commitment)
    case Relation(value, blinding) =>
      && Explained(c, open, know, tx)
      && value == ValueGap(c.blake, open, know, s, tx) && blinding == BlindingGap(c.blake, open, know, s, tx)
      && value != 0 && Scale(c.h, value) == Scale(G, blinding)
  }

  ghost predicate StepFault(host: Host, cfg: Config, c: Suite, open: Known, know: Signers, s: State, x: Extrinsic, fault: Fault) {
    x.TransferCall? && Transfer(host, cfg, s, x.tx).Ok? && FaultIn(c, open, know, s, x.tx, fault)
  }

  /** Some transfer applied in the run, when the books still balanced, exhibits `fault`. */
  ghost predicate RunFault(host: Host, cfg: Config, c: Suite, open: Known, know: Signers, past: seq<Block>, xs: Block, fault: Fault)
    decreases |past|, |xs|
  {
    if xs != [] then
      var ys, x := xs[..|xs| - 1], xs[|xs| - 1];
      || RunFault(host, cfg, c, open, know, past, ys, fault)
      || (RunBooks(host, cfg, c, open, know, past, ys) && StepFault(host, cfg, c, open, know, During(host, cfg, past, ys), x, fault))
    else
      past != [] && RunFault(host, cfg, c, open, know, past[..|past| - 1], past[|past| - 1], fault)
  }

  /** The outputs an extrinsic consumes, if it succeeds. */
  ghost function ConsumedIn(host: Host, cfg: Config, know: Signers, s: State, x: Extrinsic): seq<nat> {
    if x.TransferCall? && Call(host, cfg, s, x).Ok? then SpentBy(host.blake, know, x.tx) else []
  }

  /** The outputs consumed by every transfer applied so far, in order. */
  ghost function ConsumedDuring(host: Host, cfg: Config, know: Signers, past: seq<Block>, xs: Block): seq<nat>
    decreases |past|, 1, |xs|
  {
    if xs == [] then ConsumedBefore(host, cfg, know, past)
    else
      ConsumedDuring(host, cfg, know, past, xs[..|xs| - 1]) +
      ConsumedIn(host, cfg, know, During(host, cfg, past, xs[..|xs| - 1]), xs[|xs| - 1])
  }

  ghost function ConsumedBefore(host: Host, cfg: Config, know: Signers, past: seq<Block>): seq<nat>
    decreases |past|, 0, 0
  {
    if past == [] then [] else ConsumedDuring(host, cfg, know, past[..|past| - 1], past[|past| - 1])
  }

  // ---- what a run hashes --------------------------------------------------

  ghost predicate ExtrinsicCovered(h: Hash, x: Extrinsic, strings: set<Bytes>) {
    x.TransferCall? ==> forall i :: 0 <= i < |x.tx.inputs| ==> Fcmp.ProofHashes(h, x.tx.inputs[i].proof, strings)
  }

  /** `strings` contains everything hashed for the proofs of an extrinsic that is applied. */
  ghost predicate StepCovered(host: Host, cfg: Config, s: State, x: Extrinsic, strings: set<Bytes>) {
    Call(host, cfg, s, x).Ok? ==> ExtrinsicCovered(host.blake, x, strings)
  }

  /** `strings` contains everything hashed for the tree in every state of the run, and for the proofs
    * of its applied transfers.
    */
  ghost predicate RunCovered(host: Host, cfg: Config, past: seq<Block>, xs: Block, strings: set<Bytes>)
    decreases |past|, 1, |xs|
  {
    && Hashes(host.blake, Leaves(During(host, cfg, past, xs)), strings)
    && if xs == [] then PastCovered(host, cfg, past, strings)
       else
         && StepCovered(host, cfg, During(host, cfg, past, xs[..|xs| - 1]), xs[|xs| - 1], strings)
         && RunCovered(host, cfg, past, xs[..|xs| - 1], strings)
  }

  ghost predicate PastCovered(host: Host, cfg: Config, past: seq<Block>, strings: set<Bytes>)
    decreases |past|, 0, 0
  {
    && Hashes(host.blake, Leaves(EndOf(host, cfg, past)), strings)
    && (past != [] ==> RunCovered(host, cfg, past[..|past| - 1], past[|past| - 1], strings))
  }

  lemma {:induction false} RunCoversPast(host: Host, cfg: Config, past: seq<Block>, xs: Block, strings: set<Bytes>)
    requires RunCovered(host, cfg, past, xs, strings)
    ensures PastCovered(host, cfg, past, strings)
    decreases |xs|
  {
    if xs != [] {
      RunCoversPast(host, cfg, past, xs[..|xs| - 1], strings);
    }
  }

  lemma PastCoversLess(host: Host, cfg: Config, past: seq<Block>, strings: set<Bytes>)
    requires PastCovered(host, cfg, past, strings) && past != []
    ensures PastCovered(host, cfg, past[..|past| - 1], strings)
  {
    RunCoversPast(host, cfg, past[..|past| - 1], past[|past| - 1], strings);
  }

  lemma {:induction false} PastCoversPrefix(host: Host, cfg: Config, past: seq<Block>, earlier: seq<Block>, strings: set<Bytes>)
    requires PastCovered(host, cfg, past, strings) && earlier <= past
    ensures PastCovered(host, cfg, earlier, strings)
    decreases |past|
  {
    if |earlier| < |past| {
      PastCoversLess(host, cfg, past, strings);
      PastCoversPrefix(host, cfg, past[..|past| - 1], earlier, strings);
    } else {
      assert earlier == past;
    }
  }

  lemma CoveredWindow(host: Host, cfg: Config, past: seq<Block>, xs: Block, strings: set<Bytes>)
    requires RunCovered(host, cfg, past, xs, strings)
    ensures RunHashes(host, cfg, past, xs, strings)
  {
    RunCoversPast(host, cfg, past, xs, strings);
    forall n | InWindow(past, n)
      ensures Hashes(host.blake, Leaves(EndOf(host, cfg, past[..n])), strings)
    {
      PastCoversPrefix(host, cfg, past, past[..n], strings);
    }
  }

  // ---- which outputs a transfer consumes ----------------------------------

  /** The output an accepted and witnessed input consumes is stored, admitted and mature; the input
    * publishes its key image, and its C' re-blinds that output's commitment by the witness's `z`.
    */
  lemma SpendsItsOutput(host: Host, cfg: Config, c: Suite, know: Signers, past: seq<Block>, xs: Block, tx: TransferTx, i: nat,
                        strings: set<Bytes>)
    requires CollisionFree(host.blake, strings)
    requires RunCovered(host, cfg, past, xs, strings) && ExtrinsicCovered(host.blake, TransferCall(tx), strings)
    requires TransferError(host, cfg, During(host, cfg, past, xs), tx) == None && i < |tx.inputs|
    requires Witnessed(c, know, SigningHash(host.blake, tx), tx.inputs[i])
    ensures var s, index := During(host, cfg, past, xs), SpentBy(host.blake, know, tx)[i];
            && index in s.admitted && index in s.outputs && Mature(cfg, s.outputs[index], s.now)
            && tx.inputs[i].keyImage == KeyImageFor(c, s.outputs[index].key)
            && Reblinds(c, s.outputs[index].commitment, tx.inputs[i].pseudo, Reblindings(host.blake, know, tx)[i])
  {
    var s, input := During(host, cfg, past, xs), tx.inputs[i];
    var msg := SigningHash(host.blake, tx);
    AcceptanceChecks(host, cfg, s, tx);
    UnspentInputs(host, s, tx, tx.inputs, i);
    CoveredWindow(host, cfg, past, xs, strings);
    var anchor := MembershipImpliesMaturity(host, cfg, past, xs, msg, tx.root, input.pseudo, input.keyImage, input.proof, strings);
    WitnessedSpend(c, know, msg, input);
    assert MatureMember(cfg, anchor, s, Parse(input.proof).value.ring[WitnessOf(know, msg, input).l]);
  }

  /** The checks an accepted transfer passed. */
  lemma AcceptanceChecks(host: Host, cfg: Config, s: State, tx: TransferTx)
    requires TransferError(host, cfg, s, tx) == None
    ensures SortedUnique(tx.inputs) && RootAccepted(s, tx.root) && InputsError(host, s, tx, tx.inputs) == None
    ensures tx.inputs != [] && tx.outputs != []
    ensures (host.balance)(Flatten(Pseudos(tx.inputs)), Flatten(CommitmentList(tx.outputs)), tx.fee)
    ensures (host.range)(tx.rangeProof, Flatten(CommitmentList(tx.outputs)))
  {
  }

  /** Every input of an accepted transfer without forgeries consumes a stored output. */
  lemma AcceptedAreFound(host: Host, cfg: Config, c: Suite, know: Signers, past: seq<Block>, xs: Block, s: State, tx: TransferTx,
                         strings: set<Bytes>)
    requires CollisionFree(host.blake, strings) && s == During(host, cfg, past, xs)
    requires RunCovered(host, cfg, past, xs, strings) && ExtrinsicCovered(host.blake, TransferCall(tx), strings)
    requires TransferError(host, cfg, s, tx) == None
    requires forall i :: 0 <= i < |tx.inputs| ==> Witnessed(c, know, SigningHash(host.blake, tx), tx.inputs[i])
    ensures AllFound(c, s, tx.inputs, SpentBy(host.blake, know, tx), Reblindings(host.blake, know, tx))
  {
    var found, zs := SpentBy(host.blake, know, tx), Reblindings(host.blake, know, tx);
    forall i | 0 <= i < |tx.inputs|
      ensures Found(c, s, tx.inputs, found, zs, i)
    {
      SpendsItsOutput(host, cfg, c, know, past, xs, tx, i, strings);
    }
  }

  // ---- every step keeps the books, or is faulty ---------------------------

  /** The C' of found inputs are commitments to the openings of the outputs they consume. */
  lemma PseudosOpen(c: Suite, open: Known, s: State, inputs: seq<FcmpInput>, found: seq<nat>, zs: seq<Scalar>)
    requires c.Canonical() && OutputsOpen(c, open, s) && AllFound(c, s, inputs, found, zs)
    ensures CommitAll(c, InOpenings(open, s, found, zs)) == Pseudos(inputs)
    ensures forall i :: 0 <= i < |found| ==> InOpenings(open, s, found, zs)[i].value < U64_BOUND
  {
    var ins := InOpenings(open, s, found, zs);
    forall i | 0 <= i < |found|
      ensures CommitBytes(c, ins[i]) == inputs[i].pseudo && ins[i].value < U64_BOUND
    {
      assert Found(c, s, inputs, found, zs, i);
      var out := s.outputs[found[i]];
      assert OutputOpens(c, open, out);
      ReblindKeepsValue(c, out.commitment, StoredOpening(open, out), inputs[i].pseudo, zs[i]);
      OpenedBytes(c, inputs[i].pseudo, ins[i]);
    }
  }

  lemma OutputsCommit(c: Suite, open: Known, outs: seq<Output>)
    requires c.Canonical() && forall j :: 0 <= j < |outs| ==> InRange(c, open, outs[j].commitment)
    ensures CommitAll(c, OutOpenings(open, outs)) == CommitmentList(outs)
    ensures forall j :: 0 <= j < |outs| ==> OutOpenings(open, outs)[j].value < U64_BOUND
  {
    forall j | 0 <= j < |outs|
      ensures CommitAll(c, OutOpenings(open, outs))[j] == outs[j].commitment && OutOpenings(open, outs)[j].value < U64_BOUND
    {
      assert InRange(c, open, outs[j].commitment);
      OpenedBytes(c, outs[j].commitment, open(outs[j].commitment));
    }
  }

  lemma ZeroDifference(x: Scalar, y: Scalar)
    requires Sub(x, y) == 0
    ensures x == y
  {
  }

  /** Commitments that balance hold equal values, or their openings are a relation. */
  lemma BalancedValues(c: Suite, ins: seq<Opening>, outs: seq<Opening>, fee: u64)
    requires c.Canonical() && 1 <= |ins| <= MAX_FCMP_INPUTS && 1 <= |outs| <= MAX_OUTPUTS
    requires VerifyBalance(c, Flatten(CommitAll(c, ins)), Flatten(CommitAll(c, outs)), fee)
    requires forall i :: 0 <= i < |ins| ==> ins[i].value < U64_BOUND
    requires forall j :: 0 <= j < |outs| ==> outs[j].value < U64_BOUND
    ensures var value, blinding := Sub(TotalValue(ins), Add(TotalValue(outs), fee)), Sub(TotalBlinding(outs), TotalBlinding(ins));
            Scale(c.h, value) == Scale(G, blinding) && (value == 0 ==> IntSum(ins) == IntSum(outs) + fee)
  {
    BalanceOrRelation(c, ins, outs, fee);
    if Sub(TotalValue(ins), Add(TotalValue(outs), fee)) == 0 {
      ZeroDifference(TotalValue(ins), Add(TotalValue(outs), fee));
      BalanceIsExact(ins, outs, fee);
    }
  }

  /** An accepted transfer whose inputs are found and whose outputs are opened moves exactly what it
    * consumes, or its openings and witnesses are a relation.
    */
  lemma TransferValues(host: Host, cfg: Config, c: Suite, open: Known, know: Signers, s: State, tx: TransferTx)
    requires c.Canonical() && NativeLedger(host, c) && OutputsOpen(c, open, s) && TransferError(host, cfg, s, tx) == None
    requires AllFound(c, s, tx.inputs, SpentBy(c.blake, know, tx), Reblindings(c.blake, know, tx))
    requires forall j :: 0 <= j < |tx.outputs| ==> InRange(c, open, tx.outputs[j].commitment)
    ensures var value, blinding := ValueGap(c.blake, open, know, s, tx), BlindingGap(c.blake, open, know, s, tx);
            && Scale(c.h, value) == Scale(G, blinding)
            && (value == 0 <==> FoundSum(open, s, SpentBy(c.blake, know, tx)) == IntSum(OutOpenings(open, tx.outputs)) + tx.fee)
  {
    var found, zs := SpentBy(c.blake, know, tx), Reblindings(c.blake, know, tx);
    var ins, outs := InOpenings(open, s, found, zs), OutOpenings(open, tx.outputs);
    AcceptanceChecks(host, cfg, s, tx);
    PseudosOpen(c, open, s, tx.inputs, found, zs);
    OutputsCommit(c, open, tx.outputs);
    FoundSumIsInSum(open, s, found, zs);
    BalancedValues(c, ins, outs, tx.fee);
    if IntSum(ins) == IntSum(outs) + tx.fee {
      EqualSums(ins, outs, tx.fee);
    }
  }

  lemma EqualSums(ins: seq<Opening>, outs: seq<Opening>, fee: u64)
    requires IntSum(ins) == IntSum(outs) + fee
    ensures Sub(TotalValue(ins), Add(TotalValue(outs), fee)) == 0
  {
    TotalIsRemainder(ins);
    TotalIsRemainder(outs);
    SameRemainder(IntSum(ins), IntSum(outs), fee, ORDER);
  }

  lemma SameRemainder(a: nat, b: nat, fee: u64, q: int)
    requires q == ORDER && a == b + fee
    ensures Sub(a % q, Add(b % q, fee)) == 0
  {
    AddToRemainder(b, fee, q);
  }

  lemma TransferOpenings(open: Known, height: nat, tx: TransferTx)
    ensures StoredOpenings(open, TransferStored(height, tx)) == OutOpenings(open, tx.outputs)
  {
  }

  /** Consumed outputs stay consumed when outputs are only added. */
  lemma ConsumedPersists(c: Suite, s: State, t: State, spent: seq<Bytes32>, consumed: seq<nat>, inputs: seq<FcmpInput>,
                         found: seq<nat>, zs: seq<Scalar>)
    requires |spent| == |consumed| && AllFound(c, s, inputs, found, zs)
    requires forall k :: 0 <= k < |spent| ==> Consumed(c, s, spent, consumed, k)
    requires forall i :: i in s.outputs ==> i in t.outputs && t.outputs[i] == s.outputs[i]
    ensures forall k :: 0 <= k < |spent + Images(inputs)| ==> Consumed(c, t, spent + Images(inputs), consumed + found, k)
  {
    forall k | 0 <= k < |spent + Images(inputs)|
      ensures Consumed(c, t, spent + Images(inputs), consumed + found, k)
    {
      if k < |spent| {
        assert Consumed(c, s, spent, consumed, k);
      } else {
        assert Found(c, s, inputs, found, zs, k - |spent|);
      }
    }
  }

  lemma MintKeepsOpen(h: Hash, c: Suite, open: Known, s: State, outs: seq<StoredOutput>)
    requires OutputsOpen(c, open, s) && forall j :: 0 <= j < |outs| ==> OutputOpens(c, open, outs[j])
    ensures OutputsOpen(c, open, MintAll(h, s, outs))
  {
    var t := MintAll(h, s, outs);
    forall i: nat | i in t.outputs
      ensures OutputOpens(c, open, t.outputs[i])
    {
      MintAllStores(h, s, outs, i);
    }
  }

  lemma FoundIsFresh(c: Suite, s: State, spent: seq<Bytes32>, consumed: seq<nat>, inputs: seq<FcmpInput>, found: seq<nat>, zs: seq<Scalar>)
    requires |spent| == |consumed| && AllFound(c, s, inputs, found, zs) && Distinct(spent + Images(inputs))
    requires forall k :: 0 <= k < |spent| ==> Consumed(c, s, spent, consumed, k)
    ensures forall i, j :: 0 <= i < j < |consumed + found| ==> (consumed + found)[i] != (consumed + found)[j]
  {
    ConsumedPersists(c, s, s, spent, consumed, inputs, found, zs);
    ConsumedAreDistinct(c, s, spent + Images(inputs), consumed + found);
  }

  /** Minting opened outputs adds their value to the books and disturbs no entry. */
  lemma MintKeepsEntries(h: Hash, cfg: Config, c: Suite, open: Known, paid: State, stored: seq<StoredOutput>, spent: seq<Bytes32>,
                         consumed: seq<nat>)
    requires TreeInv(h, cfg, paid) && OutputsOpen(c, open, paid) && |spent| == |consumed|
    requires forall k :: 0 <= k < |spent| ==> Consumed(c, paid, spent, consumed, k)
    requires forall j :: 0 <= j < |stored| ==> OutputOpens(c, open, stored[j])
    ensures var t := MintAll(h, paid, stored);
            && (forall k :: 0 <= k < |spent| ==> Consumed(c, t, spent, consumed, k))
            && OutputsOpen(c, open, t) && t.blockFees == paid.blockFees && t.emitted == paid.emitted
            && Unspent(open, t, Used(consumed), t.nextOutputIndex) ==
               Unspent(open, paid, Used(consumed), paid.nextOutputIndex) + IntSum(StoredOpenings(open, stored))
  {
    MintAllKeepsTree(h, cfg, paid, stored);
    forall k | 0 <= k < |spent|
      ensures Consumed(c, MintAll(h, paid, stored), spent, consumed, k) && consumed[k] in paid.outputs
    {
      assert Consumed(c, paid, spent, consumed, k);
    }
    MintKeepsOpen(h, c, open, paid, stored);
    UsedBelow(paid, consumed);
    MintAllAdds(h, open, paid, stored, Used(consumed));
    MintAllFrame(h, paid, stored);
  }

  /** Consume `inputs`, add the fee to the pending fees, mint outputs: the books are kept exactly when
    * the outputs are worth the rest.
    */
  lemma SettleKeepsBooks(h: Hash, cfg: Config, c: Suite, open: Known, s: State, paid: State, stored: seq<StoredOutput>, fee: nat,
                         inputs: seq<FcmpInput>, spent: seq<Bytes32>, consumed: seq<nat>, found: seq<nat>, zs: seq<Scalar>)
    requires TreeInv(h, cfg, s) && Books(c, open, s, spent, consumed)
    requires paid == s.(keyImages := paid.keyImages, blockFees := paid.blockFees) && paid.blockFees == s.blockFees + fee
    requires AllFound(c, s, inputs, found, zs) && Distinct(spent + Images(inputs))
    requires forall j :: 0 <= j < |stored| ==> OutputOpens(c, open, stored[j])
    ensures Books(c, open, MintAll(h, paid, stored), spent + Images(inputs), consumed + found) <==>
            IntSum(InOpenings(open, s, found, zs)) == IntSum(StoredOpenings(open, stored)) + fee
  {
    FoundIsFresh(c, s, spent, consumed, inputs, found, zs);
    PaidBooks(h, cfg, c, open, s, paid, inputs, consumed, found, zs);
    LedgerFieldsAreIrrelevant(h, cfg, s, paid);
    ConsumedPersists(c, s, paid, spent, consumed, inputs, found, zs);
    assert OutputsOpen(c, open, paid);
    MintKeepsEntries(h, cfg, c, open, paid, stored, spent + Images(inputs), consumed + found);
  }

  lemma UsedBelow(s: State, consumed: seq<nat>)
    requires Numbered(s) && forall k :: 0 <= k < |consumed| ==> consumed[k] in s.outputs
    ensures forall i :: i in Used(consumed) ==> i < s.nextOutputIndex
  {
  }

  /** After the spends are recorded and before the outputs exist: the difference is in the fees. */
  lemma PaidBooks(h: Hash, cfg: Config, c: Suite, open: Known, s: State, paid: State, inputs: seq<FcmpInput>,
                  consumed: seq<nat>, found: seq<nat>, zs: seq<Scalar>)
    requires TreeInv(h, cfg, s) && paid.outputs == s.outputs && paid.nextOutputIndex == s.nextOutputIndex
    requires AllFound(c, s, inputs, found, zs)
    requires forall i, j :: 0 <= i < j < |consumed + found| ==> (consumed + found)[i] != (consumed + found)[j]
    ensures Unspent(open, s, Used(consumed), s.nextOutputIndex) ==
            Unspent(open, paid, Used(consumed + found), paid.nextOutputIndex) + IntSum(InOpenings(open, s, found, zs))
  {
    forall i | 0 <= i < |found|
      ensures found[i] < s.nextOutputIndex && found[i] in s.outputs
    {
      assert Found(c, s, inputs, found, zs, i);
    }
    UseAll(open, s, consumed, found, s.nextOutputIndex);
    FoundSumIsInSum(open, s, found, zs);
    UnspentFrame(open, s, paid, Used(consumed + found), s.nextOutputIndex);
  }

  /** A transfer keeps the books exactly when it moves what it consumes. */
  lemma SettledTransfer(host: Host, cfg: Config, c: Suite, open: Known, s: State, tx: TransferTx, spent: seq<Bytes32>,
                        consumed: seq<nat>, found: seq<nat>, zs: seq<Scalar>)
    requires TreeInv(host.blake, cfg, s) && Books(c, open, s, spent, consumed) && SpendsRecorded(s, spent)
    requires Transfer(host, cfg, s, tx).Ok? && AllFound(c, s, tx.inputs, found, zs)
    requires forall j :: 0 <= j < |tx.outputs| ==> InRange(c, open, tx.outputs[j].commitment)
    ensures Books(c, open, Transfer(host, cfg, s, tx).state, spent + Images(tx.inputs), consumed + found) <==>
            IntSum(InOpenings(open, s, found, zs)) == IntSum(OutOpenings(open, tx.outputs)) + tx.fee
  {
    TransferApplies(host, cfg, s, tx);
    AcceptedTransfer(host, s, tx);
    TransferRecordsSpends(host, cfg, s, tx, spent);
    TransferOpenings(open, s.now, tx);
    var stored := TransferStored(s.now, tx);
    forall j | 0 <= j < |stored|
      ensures OutputOpens(c, open, stored[j])
    {
      assert InRange(c, open, tx.outputs[j].commitment);
    }
    SettleKeepsBooks(host.blake, cfg, c, open, s,
                     s.(keyImages := s.keyImages + KeyImagesOf(tx), blockFees := s.blockFees + tx.fee),
                     stored, tx.fee, tx.inputs, spent, consumed, found, zs);
  }

  /** An explained transfer keeps the books exactly when its known values add up. */
  lemma ExplainedTransfer(host: Host, cfg: Config, c: Suite, open: Known, know: Signers, s: State, tx: TransferTx,
                          spent: seq<Bytes32>, consumed: seq<nat>, found: seq<nat>, zs: seq<Scalar>)
    requires TreeInv(host.blake, cfg, s) && Books(c, open, s, spent, consumed) && SpendsRecorded(s, spent)
    requires Transfer(host, cfg, s, tx).Ok? && Explained(c, open, know, tx) && AllFound(c, s, tx.inputs, found, zs)
    ensures Books(c, open, Transfer(host, cfg, s, tx).state, spent + Images(tx.inputs), consumed + found) <==>
            FoundSum(open, s, found) == IntSum(OutOpenings(open, tx.outputs)) + tx.fee
  {
    FoundSumIsInSum(open, s, found, zs);
    SettledTransfer(host, cfg, c, open, s, tx, spent, consumed, found, zs);
  }

  /** The fault of a transfer, if it has one: a wrong witness, else an output not known to open in
    * range, else what its openings and witnesses say of the generators.
    */
  ghost function OnlyFault(c: Suite, open: Known, know: Signers, s: State, tx: TransferTx): Fault {
    if exists i: nat :: i < |tx.inputs| && !Witnessed(c, know, SigningHash(c.blake, tx), tx.inputs[i]) then
      var i: nat :| i < |tx.inputs| && !Witnessed(c, know, SigningHash(c.blake, tx), tx.inputs[i]);
      Forged(i)
    else if exists j: nat :: j < |tx.outputs| && !InRange(c, open, tx.outputs[j].commitment) then
      var j: nat :| j < |tx.outputs| && !InRange(c, open, tx.outputs[j].commitment);
      Unopened(j)
    else Relation(ValueGap(c.blake, open, know, s, tx), BlindingGap(c.blake, open, know, s, tx))
  }

  lemma FaultIsShown(c: Suite, open: Known, know: Signers, s: State, tx: TransferTx)
    requires Explained(c, open, know, tx) ==> ValueGap(c.blake, open, know, s, tx) != 0
    requires Explained(c, open, know, tx) ==>
               Scale(c.h, ValueGap(c.blake, open, know, s, tx)) == Scale(G, BlindingGap(c.blake, open, know, s, tx))
    ensures FaultIn(c, open, know, s, tx, OnlyFault(c, open, know, s, tx))
  {
  }

  /** An accepted transfer moves value from the outputs it consumes to new ones and to the fees, losing
    * nothing, or it exhibits a fault.
    */
  lemma TransferKeepsBooks(host: Host, cfg: Config, c: Suite, open: Known, know: Signers, past: seq<Block>, ys: Block, s: State,
                           tx: TransferTx, spent: seq<Bytes32>, consumed: seq<nat>, strings: set<Bytes>) returns (fault: Fault)
    requires c.Canonical() && NativeLedger(host, c) && CollisionFree(host.blake, strings) && s == During(host, cfg, past, ys)
    requires RunCovered(host, cfg, past, ys, strings) && ExtrinsicCovered(host.blake, TransferCall(tx), strings)
    requires TreeInv(host.blake, cfg, s) && Books(c, open, s, spent, consumed) && SpendsRecorded(s, spent)
    requires Transfer(host, cfg, s, tx).Ok?
    ensures FaultIn(c, open, know, s, tx, fault) ||
            Books(c, open, Transfer(host, cfg, s, tx).state, spent + Images(tx.inputs), consumed + SpentBy(host.blake, know, tx))
  {
    fault := OnlyFault(c, open, know, s, tx);
    if Explained(c, open, know, tx) {
      TransferApplies(host, cfg, s, tx);
      AcceptedAreFound(host, cfg, c, know, past, ys, s, tx, strings);
      TransferValues(host, cfg, c, open, know, s, tx);
    }
    if Explained(c, open, know, tx) && ValueGap(c.blake, open, know, s, tx) == 0 {
      ExplainedTransfer(host, cfg, c, open, know, s, tx, spent, consumed, SpentBy(c.blake, know, tx), Reblindings(c.blake, know, tx));
    } else {
      FaultIsShown(c, open, know, s, tx);
    }
  }

  lemma {:induction false} CoinbaseValues(host: Host, open: Known, height: nat, outs: seq<CoinbaseOutput>, txPubkey: Bytes32)
    ensures IntSum(StoredOpenings(open, CoinbaseOutputs(host, height, outs, txPubkey))) == CoinbaseTotal(outs)
  {
    if outs != [] {
      var most := outs[..|outs| - 1];
      CoinbaseValues(host, open, height, most, txPubkey);
      var os := StoredOpenings(open, CoinbaseOutputs(host, height, outs, txPubkey));
      assert os[..|outs| - 1] == StoredOpenings(open, CoinbaseOutputs(host, height, most, txPubkey));
    }
  }

  lemma CoinbaseOpens(host: Host, c: Suite, open: Known, height: nat, outs: seq<CoinbaseOutput>, txPubkey: Bytes32)
    requires c.Canonical() && NativeLedger(host, c)
    ensures forall j :: 0 <= j < |outs| ==> OutputOpens(c, open, CoinbaseOutputs(host, height, outs, txPubkey)[j])
  {
    forall j | 0 <= j < |outs|
      ensures OutputOpens(c, open, CoinbaseOutputs(host, height, outs, txPubkey)[j])
    {
      var o := Opening(outs[j].amount, 0);
      assert (c.decompress)((c.compress)(CommitTo(c, o))) == Some(CommitTo(c, o));
    }
  }

  lemma CoinbaseTotalChecked(host: Host, s: State, outs: seq<CoinbaseOutput>, txPubkey: Bytes32)
    requires CoinbaseError(host, s, outs, txPubkey) == None
    ensures CoinbaseTotal(outs) == Emission.BlockReward(s.emitted) + s.blockFees
  {
  }

  /** A coinbase turns the reward and the pending fees into outputs. */
  lemma CoinbaseKeepsBooks(host: Host, cfg: Config, c: Suite, open: Known, s: State, outs: seq<CoinbaseOutput>, txPubkey: Bytes32,
                           spent: seq<Bytes32>, consumed: seq<nat>)
    requires c.Canonical() && NativeLedger(host, c) && TreeInv(host.blake, cfg, s)
    requires Books(c, open, s, spent, consumed) && Coinbase(host, s, outs, txPubkey).Ok?
    ensures Books(c, open, Coinbase(host, s, outs, txPubkey).state, spent, consumed)
  {
    AcceptedCoinbase(host, s, outs, txPubkey);
    CoinbaseTotalChecked(host, s, outs, txPubkey);
    CoinbaseValues(host, open, s.now, outs, txPubkey);
    CoinbaseOpens(host, c, open, s.now, outs, txPubkey);
    var paid := s.(blockFees := 0, emitted := s.emitted + Emission.BlockReward(s.emitted), coinbaseDone := true);
    var stored := CoinbaseOutputs(host, s.now, outs, txPubkey);
    LedgerFieldsAreIrrelevant(host.blake, cfg, s, paid);
    forall k | 0 <= k < |spent|
      ensures Consumed(c, paid, spent, consumed, k)
    {
      assert Consumed(c, s, spent, consumed, k);
    }
    assert OutputsOpen(c, open, paid);
    UnspentFrame(open, s, paid, Used(consumed), s.nextOutputIndex);
    MintKeepsEntries(host.blake, cfg, c, open, paid, stored, spent, consumed);
  }

  /** The books do not depend on the tree, the block number or the recorded roots. */
  lemma BooksIgnoreTree(c: Suite, open: Known, s: State, t: State, spent: seq<Bytes32>, consumed: seq<nat>)
    requires Books(c, open, s, spent, consumed)
    requires t.outputs == s.outputs && t.nextOutputIndex == s.nextOutputIndex && t.blockFees == s.blockFees && t.emitted == s.emitted
    ensures Books(c, open, t, spent, consumed)
  {
    forall k | 0 <= k < |spent|
      ensures Consumed(c, t, spent, consumed, k)
    {
      assert Consumed(c, s, spent, consumed, k);
    }
    UnspentFrame(open, s, t, Used(consumed), s.nextOutputIndex);
  }

  /** One extrinsic, accepted or not, keeps the books or exhibits a fault. */
  lemma StepKeepsBooks(host: Host, cfg: Config, c: Suite, open: Known, know: Signers, past: seq<Block>, ys: Block, s: State,
                       x: Extrinsic, spent: seq<Bytes32>, consumed: seq<nat>, strings: set<Bytes>) returns (fault: Fault)
    requires c.Canonical() && NativeLedger(host, c) && CollisionFree(host.blake, strings) && s == During(host, cfg, past, ys)
    requires RunCovered(host, cfg, past, ys, strings) && StepCovered(host, cfg, s, x, strings)
    requires Books(c, open, s, spent, consumed) && SpendsRecorded(s, spent) && TreeInv(host.blake, cfg, s)
    ensures StepFault(host, cfg, c, open, know, s, x, fault) ||
            Books(c, open, Dispatch(host, cfg, s, x), spent + ImagesSpent(host, cfg, s, x), consumed + ConsumedIn(host, cfg, know, s, x))
  {
    fault := Forged(0);
    match Call(host, cfg, s, x)
    case Err(_) =>
      assert spent + [] == spent && consumed + [] == consumed;
    case Ok(t) =>
      match x
      case TransferCall(tx) =>
        TransferApplies(host, cfg, s, tx);
        fault := TransferKeepsBooks(host, cfg, c, open, know, past, ys, s, tx, spent, consumed, strings);
      case CoinbaseCall(outs, txPubkey) =>
        CoinbaseKeepsBooks(host, cfg, c, open, s, outs, txPubkey, spent, consumed);
        assert spent + [] == spent && consumed + [] == consumed;
  }

  // ---- every run ----------------------------------------------------------

  /** The books of a run, every spend having consumed an output of its own. */
  ghost predicate RunBooks(host: Host, cfg: Config, c: Suite, open: Known, know: Signers, past: seq<Block>, xs: Block) {
    var consumed := ConsumedDuring(host, cfg, know, past, xs);
    && Books(c, open, During(host, cfg, past, xs), SpentDuring(host, cfg, past, xs), consumed)
    && forall i, j :: 0 <= i < j < |consumed| ==> consumed[i] != consumed[j]
  }

  /** Before the first extrinsic nothing is emitted and nothing stored. */
  lemma EmptyBooks(host: Host, cfg: Config, c: Suite, open: Known, know: Signers)
    ensures Books(c, open, During(host, cfg, [], []), SpentDuring(host, cfg, [], []), ConsumedDuring(host, cfg, know, [], []))
  {
    var s := During(host, cfg, [], []);
    assert s == Initialize(Genesis(host.blake));
    assert SpentDuring(host, cfg, [], []) == [] && ConsumedDuring(host, cfg, know, [], []) == [];
  }

  /** In every reachable state of a ledger with the native balance check, whatever openings and
    * signature witnesses are known: the value of the outputs not consumed, plus the pending fees, is
    * exactly what was emitted, and every spend consumed an output of its own; or some accepted
    * transfer of the run exhibits a fault.
    */
  lemma {:induction false} MoneyIsConserved(host: Host, cfg: Config, c: Suite, open: Known, know: Signers, past: seq<Block>, xs: Block,
                                            strings: set<Bytes>) returns (fault: Fault)
    requires c.Canonical() && NativeLedger(host, c)
    requires RunCovered(host, cfg, past, xs, strings) && CollisionFree(host.blake, strings)
    ensures RunFault(host, cfg, c, open, know, past, xs, fault) || RunBooks(host, cfg, c, open, know, past, xs)
    decreases |past|, |xs|, 1
  {
    if xs != [] {
      fault := ExtrinsicKeepsBooks(host, cfg, c, open, know, past, xs, strings);
    } else if past != [] {
      fault := BlockEndKeepsBooks(host, cfg, c, open, know, past, strings);
    } else {
      fault := Forged(0);
      EmptyBooks(host, cfg, c, open, know);
    }
    if !RunFault(host, cfg, c, open, know, past, xs, fault) {
      assert Books(c, open, During(host, cfg, past, xs), SpentDuring(host, cfg, past, xs), ConsumedDuring(host, cfg, know, past, xs));
      NoDoubleSpend(host, cfg, past, xs);
      ConsumedAreDistinct(c, During(host, cfg, past, xs), SpentDuring(host, cfg, past, xs), ConsumedDuring(host, cfg, know, past, xs));
    }
  }

  lemma {:induction false} ExtrinsicKeepsBooks(host: Host, cfg: Config, c: Suite, open: Known, know: Signers, past: seq<Block>,
                                               xs: Block, strings: set<Bytes>) returns (fault: Fault)
    requires c.Canonical() && NativeLedger(host, c) && xs != []
    requires RunCovered(host, cfg, past, xs, strings) && CollisionFree(host.blake, strings)
    ensures RunFault(host, cfg, c, open, know, past, xs, fault) ||
            Books(c, open, During(host, cfg, past, xs), SpentDuring(host, cfg, past, xs), ConsumedDuring(host, cfg, know, past, xs))
    decreases |past|, |xs|, 0
  {
    var ys, x := xs[..|xs| - 1], xs[|xs| - 1];
    fault := MoneyIsConserved(host, cfg, c, open, know, past, ys, strings);
    if !RunFault(host, cfg, c, open, know, past, ys, fault) {
      RunKeepsTree(host, cfg, past, ys);
      NoDoubleSpend(host, cfg, past, ys);
      fault := StepKeepsBooks(host, cfg, c, open, know, past, ys, During(host, cfg, past, ys), x, SpentDuring(host, cfg, past, ys),
                              ConsumedDuring(host, cfg, know, past, ys), strings);
    }
  }

  /** Ending one block and starting the next moves no money. */
  lemma {:induction false} BlockEndKeepsBooks(host: Host, cfg: Config, c: Suite, open: Known, know: Signers, past: seq<Block>,
                                              strings: set<Bytes>) returns (fault: Fault)
    requires c.Canonical() && NativeLedger(host, c) && past != []
    requires RunCovered(host, cfg, past, [], strings) && CollisionFree(host.blake, strings)
    ensures RunFault(host, cfg, c, open, know, past, [], fault) ||
            Books(c, open, During(host, cfg, past, []), SpentDuring(host, cfg, past, []), ConsumedDuring(host, cfg, know, past, []))
    decreases |past|, 0, 0
  {
    var earlier, last := past[..|past| - 1], past[|past| - 1];
    RunCoversPast(host, cfg, past, [], strings);
    fault := MoneyIsConserved(host, cfg, c, open, know, earlier, last, strings);
    if !RunFault(host, cfg, c, open, know, earlier, last, fault) {
      FinalizeKeepsLedger(host.blake, cfg, During(host, cfg, earlier, last));
      BooksIgnoreTree(c, open, During(host, cfg, earlier, last), During(host, cfg, past, []),
                      SpentDuring(host, cfg, earlier, last), ConsumedDuring(host, cfg, know, earlier, last));
    }
  }
}

/** Conservation with nothing left to assume about a run: what it hashes is computed, and what could
  * break it is returned.
  */
module IdealLedger {
  import opened Bytes
  import opened Group
  import opened Merkle
  import opened HashedStrings
  import opened Hosts
  import opened Native
  import opened Transactions
  import opened Pallet
  import opened TreeInvariant
  import opened Spends
  import opened Ideal
  import opened Conservation
  import Fcmp
  import FcmpCodec

  /** Every run of the native ledger, whatever openings and signature witnesses are known, conserves
    * money and spends each output once; or two of the strings hashed in it collide; or one of its
    * accepted transfers has a wrong witness, a range proof over an output not known to open in range,
    * or openings and witnesses that are a relation between the generators.
    */
  lemma ConservedOrBroken(c: Suite, bp: Bulletproofs, open: Known, know: Signers, cfg: Config, past: seq<Block>, xs: Block)
    returns (x: Bytes, y: Bytes, fault: Fault)
    requires c.Canonical()
    ensures Collide(c.blake, RunStrings(NativeHost(c, bp), cfg, past, xs), x, y) ||
            RunFault(NativeHost(c, bp), cfg, c, open, know, past, xs, fault) ||
            RunBooks(NativeHost(c, bp), cfg, c, open, know, past, xs)
  {
    NativeHostIsNative(c, bp);
    x, y, fault := ConservedOver(NativeHost(c, bp), c, open, know, cfg, past, xs);
  }

  lemma ConservedOver(host: Host, c: Suite, open: Known, know: Signers, cfg: Config, past: seq<Block>, xs: Block)
    returns (x: Bytes, y: Bytes, fault: Fault)
    requires c.Canonical() && NativeLedger(host, c)
    ensures Collide(host.blake, RunStrings(host, cfg, past, xs), x, y) || RunFault(host, cfg, c, open, know, past, xs, fault) ||
            RunBooks(host, cfg, c, open, know, past, xs)
  {
    x, y, fault := [], [], Forged(0);
    if CollisionFree(host.blake, RunStrings(host, cfg, past, xs)) {
      RunStringsCover(host, cfg, past, xs);
      fault := MoneyIsConserved(host, cfg, c, open, know, past, xs, RunStrings(host, cfg, past, xs));
    } else {
      x, y :| Collide(host.blake, RunStrings(host, cfg, past, xs), x, y);
    }
  }

  // ---- which faults remain ------------------------------------------------

  /** A relation `value·H = blinding·G` with a non-zero value. */
  ghost predicate IsRelation(c: Suite, fault: Fault) {
    fault.Relation? && fault.value != 0 && Scale(c.h, fault.value) == Scale(G, fault.blinding)
  }

  lemma IdealStepFault(c: Suite, bp: Bulletproofs, open: Known, know: Signers, cfg: Config, s: State, x: Extrinsic, fault: Fault)
    requires c.Canonical() && RangeLibrarySound(c, bp, open) && StepFault(IdealHost(c, bp, know), cfg, c, open, know, s, x, fault)
    ensures IsRelation(c, fault)
  {
    var host, tx := IdealHost(c, bp, know), x.tx;
    TransferApplies(host, cfg, s, tx);
    AcceptanceChecks(host, cfg, s, tx);
    match fault
    case Forged(i) =>
      UnspentInputs(host, s, tx, tx.inputs, i);
      IdealSpendsAreWitnessed(c, bp, know, SigningHash(host.blake, tx), tx.root, tx.inputs[i]);
      assert false;
    case Unopened(j) =>
      NativeRangeIsSound(c, bp, open, tx.rangeProof, CommitmentList(tx.outputs), j);
      assert false;
    case Relation(value, blinding) =>
  }

  /** With ideal signatures and a sound range-proof library only relations can break a run. */
  lemma {:induction false} IdealRunFault(c: Suite, bp: Bulletproofs, open: Known, know: Signers, cfg: Config, past: seq<Block>,
                                         xs: Block, fault: Fault)
    requires c.Canonical() && RangeLibrarySound(c, bp, open)
    requires RunFault(IdealHost(c, bp, know), cfg, c, open, know, past, xs, fault)
    ensures IsRelation(c, fault)
    decreases |past|, |xs|
  {
    var host := IdealHost(c, bp, know);
    if xs != [] {
      var ys, x := xs[..|xs| - 1], xs[|xs| - 1];
      if RunFault(host, cfg, c, open, know, past, ys, fault) {
        IdealRunFault(c, bp, open, know, cfg, past, ys, fault);
      } else {
        IdealStepFault(c, bp, open, know, cfg, During(host, cfg, past, ys), x, fault);
      }
    } else {
      IdealRunFault(c, bp, open, know, cfg, past[..|past| - 1], past[|past| - 1], fault);
    }
  }

  /** Every run with ideal signatures and a sound range-proof library conserves money and spends each
    * output once; or two explicit strings hashed in it collide; or what is known about one of its
    * transfers is an explicit relation between the generators.
    */
  lemma ConservedOrCollision(c: Suite, bp: Bulletproofs, open: Known, know: Signers, cfg: Config, past: seq<Block>, xs: Block)
    returns (x: Bytes, y: Bytes, fault: Fault)
    requires c.Canonical() && RangeLibrarySound(c, bp, open)
    ensures Collide(c.blake, RunStrings(IdealHost(c, bp, know), cfg, past, xs), x, y) ||
            (RunFault(IdealHost(c, bp, know), cfg, c, open, know, past, xs, fault) && IsRelation(c, fault)) ||
            RunBooks(IdealHost(c, bp, know), cfg, c, open, know, past, xs)
  {
    IdealHostIsNative(c, bp, know);
    x, y, fault := ConservedOver(IdealHost(c, bp, know), c, open, know, cfg, past, xs);
    if RunFault(IdealHost(c, bp, know), cfg, c, open, know, past, xs, fault) {
      IdealRunFault(c, bp, open, know, cfg, past, xs, fault);
    }
  }

  // ---- exactly the transfers that create money are faulty -----------------

  /** The known values add up: what the transfer consumes is what it makes plus the fee. */
  ghost predicate AddsUp(c: Suite, open: Known, know: Signers, s: State, tx: TransferTx) {
    FoundSum(open, s, SpentBy(c.blake, know, tx)) == IntSum(OutOpenings(open, tx.outputs)) + tx.fee
  }

  /** A transfer with right witnesses, outputs known to open in range and known values that add up
    * exhibits no fault at all, whatever else is stored.
    */
  lemma HonestTransferHasNoFault(c: Suite, open: Known, know: Signers, s: State, tx: TransferTx, fault: Fault)
    requires Explained(c, open, know, tx) && AddsUp(c, open, know, s, tx)
    ensures !FaultIn(c, open, know, s, tx, fault)
  {
    FoundSumIsInSum(open, s, SpentBy(c.blake, know, tx), Reblindings(c.blake, know, tx));
    EqualSums(InputOpenings(c.blake, open, know, s, tx), OutOpenings(open, tx.outputs), tx.fee);
  }

  ghost predicate Faulty(c: Suite, open: Known, know: Signers, s: State, tx: TransferTx) {
    exists fault :: FaultIn(c, open, know, s, tx, fault)
  }

  lemma FaultyWhen(c: Suite, open: Known, know: Signers, s: State, tx: TransferTx)
    requires Explained(c, open, know, tx) ==>
               Scale(c.h, ValueGap(c.blake, open, know, s, tx)) == Scale(G, BlindingGap(c.blake, open, know, s, tx))
    requires Explained(c, open, know, tx) ==> (ValueGap(c.blake, open, know, s, tx) == 0 <==> AddsUp(c, open, know, s, tx))
    ensures Faulty(c, open, know, s, tx) <==> !(Explained(c, open, know, tx) && AddsUp(c, open, know, s, tx))
  {
    if Explained(c, open, know, tx) && AddsUp(c, open, know, s, tx) {
      forall fault
        ensures !FaultIn(c, open, know, s, tx, fault)
      {
        HonestTransferHasNoFault(c, open, know, s, tx, fault);
      }
    } else {
      FaultIsShown(c, open, know, s, tx);
    }
  }

  /** An accepted transfer is faulty exactly when something about it is not known to be right or its
    * known values do not add up.
    */
  lemma FaultyExactly(host: Host, cfg: Config, c: Suite, open: Known, know: Signers, past: seq<Block>, ys: Block, s: State,
                      tx: TransferTx, strings: set<Bytes>)
    requires c.Canonical() && NativeLedger(host, c) && CollisionFree(host.blake, strings) && s == During(host, cfg, past, ys)
    requires RunCovered(host, cfg, past, ys, strings) && ExtrinsicCovered(host.blake, TransferCall(tx), strings)
    requires OutputsOpen(c, open, s) && TransferError(host, cfg, s, tx) == None
    ensures Faulty(c, open, know, s, tx) <==> !(Explained(c, open, know, tx) && AddsUp(c, open, know, s, tx))
  {
    if Explained(c, open, know, tx) {
      AcceptedAreFound(host, cfg, c, know, past, ys, s, tx, strings);
      TransferValues(host, cfg, c, open, know, s, tx);
    }
    FaultyWhen(c, open, know, s, tx);
  }

  /** A fault is never the verdict on a transfer that conserves money: with right witnesses and outputs
    * known to open in range, an applied transfer is faulty exactly when it breaks the books.
    */
  lemma FaultyMeansBroken(host: Host, cfg: Config, c: Suite, open: Known, know: Signers, past: seq<Block>, ys: Block, s: State,
                          tx: TransferTx, spent: seq<Bytes32>, consumed: seq<nat>, strings: set<Bytes>)
    requires c.Canonical() && NativeLedger(host, c) && CollisionFree(host.blake, strings) && s == During(host, cfg, past, ys)
    requires RunCovered(host, cfg, past, ys, strings) && ExtrinsicCovered(host.blake, TransferCall(tx), strings)
    requires Books(c, open, s, spent, consumed) && SpendsRecorded(s, spent)
    requires Transfer(host, cfg, s, tx).Ok? && Explained(c, open, know, tx)
    ensures Faulty(c, open, know, s, tx) <==>
            !Books(c, open, Transfer(host, cfg, s, tx).state, spent + Images(tx.inputs), consumed + SpentBy(c.blake, know, tx))
  {
    RunKeepsTree(host, cfg, past, ys);
    TransferApplies(host, cfg, s, tx);
    FaultyExactly(host, cfg, c, open, know, past, ys, s, tx, strings);
    AcceptedAreFound(host, cfg, c, know, past, ys, s, tx, strings);
    ExplainedTransfer(host, cfg, c, open, know, s, tx, spent, consumed, SpentBy(c.blake, know, tx), Reblindings(c.blake, know, tx));
  }

  // ---- exactly the runs without a relation keep their books ---------------

  /** The books balance in every state of the run. */
  ghost predicate AlwaysBalanced(host: Host, cfg: Config, c: Suite, open: Known, know: Signers, past: seq<Block>, xs: Block)
    decreases |past|, |xs|
  {
    && RunBooks(host, cfg, c, open, know, past, xs)
    && (xs != [] ==> AlwaysBalanced(host, cfg, c, open, know, past, xs[..|xs| - 1]))
    && (xs == [] && past != [] ==> AlwaysBalanced(host, cfg, c, open, know, past[..|past| - 1], past[|past| - 1]))
  }

  lemma {:induction false} FaultlessIsBalanced(host: Host, cfg: Config, c: Suite, open: Known, know: Signers, past: seq<Block>,
                                               xs: Block, strings: set<Bytes>)
    requires c.Canonical() && NativeLedger(host, c)
    requires RunCovered(host, cfg, past, xs, strings) && CollisionFree(host.blake, strings)
    requires forall fault :: !RunFault(host, cfg, c, open, know, past, xs, fault)
    ensures AlwaysBalanced(host, cfg, c, open, know, past, xs)
    decreases |past|, |xs|
  {
    var fault := MoneyIsConserved(host, cfg, c, open, know, past, xs, strings);
    if xs != [] {
      var ys := xs[..|xs| - 1];
      forall f: Fault
        ensures !RunFault(host, cfg, c, open, know, past, ys, f)
      {
        assert !RunFault(host, cfg, c, open, know, past, xs, f);
      }
      FaultlessIsBalanced(host, cfg, c, open, know, past, ys, strings);
    } else if past != [] {
      var earlier, last := past[..|past| - 1], past[|past| - 1];
      forall f: Fault
        ensures !RunFault(host, cfg, c, open, know, earlier, last, f)
      {
        assert !RunFault(host, cfg, c, open, know, past, xs, f);
      }
      RunCoversPast(host, cfg, past, [], strings);
      FaultlessIsBalanced(host, cfg, c, open, know, earlier, last, strings);
    }
  }

  /** With ideal signatures and a sound range-proof library every applied transfer is explained. */
  lemma IdealIsExplained(c: Suite, bp: Bulletproofs, open: Known, know: Signers, cfg: Config, s: State, tx: TransferTx)
    requires c.Canonical() && RangeLibrarySound(c, bp, open) && Transfer(IdealHost(c, bp, know), cfg, s, tx).Ok?
    ensures Explained(c, open, know, tx)
  {
    var host := IdealHost(c, bp, know);
    TransferApplies(host, cfg, s, tx);
    AcceptanceChecks(host, cfg, s, tx);
    forall i | 0 <= i < |tx.inputs|
      ensures Witnessed(c, know, SigningHash(c.blake, tx), tx.inputs[i])
    {
      UnspentInputs(host, s, tx, tx.inputs, i);
      IdealSpendsAreWitnessed(c, bp, know, SigningHash(host.blake, tx), tx.root, tx.inputs[i]);
    }
    forall j | 0 <= j < |tx.outputs|
      ensures InRange(c, open, tx.outputs[j].commitment)
    {
      NativeRangeIsSound(c, bp, open, tx.rangeProof, CommitmentList(tx.outputs), j);
    }
  }

  /** `xs` ends in `x`, after `ys`. */
  predicate EndsIn(xs: Block, ys: Block, x: Extrinsic) {
    xs != [] && ys == xs[..|xs| - 1] && x == xs[|xs| - 1]
  }

  /** What one more applied transfer does to a run. */
  lemma OneMoreTransfer(host: Host, cfg: Config, know: Signers, past: seq<Block>, xs: Block, ys: Block, tx: TransferTx)
    requires EndsIn(xs, ys, TransferCall(tx)) && Transfer(host, cfg, During(host, cfg, past, ys), tx).Ok?
    ensures During(host, cfg, past, xs) == Transfer(host, cfg, During(host, cfg, past, ys), tx).state
    ensures SpentDuring(host, cfg, past, xs) == SpentDuring(host, cfg, past, ys) + Images(tx.inputs)
    ensures ConsumedDuring(host, cfg, know, past, xs) == ConsumedDuring(host, cfg, know, past, ys) + SpentBy(host.blake, know, tx)
  {
  }

  /** A faulty transfer shows in the books. */
  lemma FaultShows(c: Suite, bp: Bulletproofs, open: Known, know: Signers, cfg: Config, past: seq<Block>, xs: Block, ys: Block,
                   tx: TransferTx, strings: set<Bytes>)
    requires c.Canonical() && RangeLibrarySound(c, bp, open) && CollisionFree(c.blake, strings)
    requires RunCovered(IdealHost(c, bp, know), cfg, past, ys, strings) && ExtrinsicCovered(c.blake, TransferCall(tx), strings)
    requires RunBooks(IdealHost(c, bp, know), cfg, c, open, know, past, ys) && EndsIn(xs, ys, TransferCall(tx))
    requires Transfer(IdealHost(c, bp, know), cfg, During(IdealHost(c, bp, know), cfg, past, ys), tx).Ok?
    requires Faulty(c, open, know, During(IdealHost(c, bp, know), cfg, past, ys), tx)
    ensures !RunBooks(IdealHost(c, bp, know), cfg, c, open, know, past, xs)
  {
    var host := IdealHost(c, bp, know);
    var s := During(host, cfg, past, ys);
    IdealHostIsNative(c, bp, know);
    IdealIsExplained(c, bp, open, know, cfg, s, tx);
    NoDoubleSpend(host, cfg, past, ys);
    FaultyMeansBroken(host, cfg, c, open, know, past, ys, s, tx, SpentDuring(host, cfg, past, ys),
                      ConsumedDuring(host, cfg, know, past, ys), strings);
    OneMoreTransfer(host, cfg, know, past, xs, ys, tx);
  }

  lemma BalancedNow(host: Host, cfg: Config, c: Suite, open: Known, know: Signers, past: seq<Block>, xs: Block)
    requires AlwaysBalanced(host, cfg, c, open, know, past, xs)
    ensures RunBooks(host, cfg, c, open, know, past, xs)
  {
  }

  lemma BalancedStep(c: Suite, bp: Bulletproofs, open: Known, know: Signers, cfg: Config, past: seq<Block>, xs: Block, ys: Block,
                     x: Extrinsic, fault: Fault, strings: set<Bytes>)
    requires c.Canonical() && RangeLibrarySound(c, bp, open) && CollisionFree(c.blake, strings)
    requires RunCovered(IdealHost(c, bp, know), cfg, past, ys, strings)
    requires StepCovered(IdealHost(c, bp, know), cfg, During(IdealHost(c, bp, know), cfg, past, ys), x, strings)
    requires AlwaysBalanced(IdealHost(c, bp, know), cfg, c, open, know, past, xs)
    requires AlwaysBalanced(IdealHost(c, bp, know), cfg, c, open, know, past, ys) && EndsIn(xs, ys, x)
    ensures !StepFault(IdealHost(c, bp, know), cfg, c, open, know, During(IdealHost(c, bp, know), cfg, past, ys), x, fault)
  {
    var host := IdealHost(c, bp, know);
    BalancedNow(host, cfg, c, open, know, past, xs);
    BalancedNow(host, cfg, c, open, know, past, ys);
    if StepFault(host, cfg, c, open, know, During(host, cfg, past, ys), x, fault) {
      FaultShows(c, bp, open, know, cfg, past, xs, ys, x.tx, strings);
    }
  }

  lemma FaultBeforeOrNow(host: Host, cfg: Config, c: Suite, open: Known, know: Signers, past: seq<Block>, xs: Block, ys: Block,
                         x: Extrinsic, fault: Fault)
    requires EndsIn(xs, ys, x) && RunFault(host, cfg, c, open, know, past, xs, fault)
    ensures RunFault(host, cfg, c, open, know, past, ys, fault) ||
            StepFault(host, cfg, c, open, know, During(host, cfg, past, ys), x, fault)
  {
  }

  lemma BalancedBefore(host: Host, cfg: Config, c: Suite, open: Known, know: Signers, past: seq<Block>, xs: Block, ys: Block,
                       x: Extrinsic, strings: set<Bytes>)
    requires EndsIn(xs, ys, x)
    requires RunCovered(host, cfg, past, xs, strings) && AlwaysBalanced(host, cfg, c, open, know, past, xs)
    ensures RunCovered(host, cfg, past, ys, strings) && StepCovered(host, cfg, During(host, cfg, past, ys), x, strings)
    ensures AlwaysBalanced(host, cfg, c, open, know, past, ys)
  {
  }

  lemma BalancedLast(c: Suite, bp: Bulletproofs, open: Known, know: Signers, cfg: Config, past: seq<Block>, xs: Block, ys: Block,
                     x: Extrinsic, fault: Fault, strings: set<Bytes>)
    requires c.Canonical() && RangeLibrarySound(c, bp, open) && CollisionFree(c.blake, strings) && EndsIn(xs, ys, x)
    requires RunCovered(IdealHost(c, bp, know), cfg, past, xs, strings)
    requires AlwaysBalanced(IdealHost(c, bp, know), cfg, c, open, know, past, xs)
    requires RunFault(IdealHost(c, bp, know), cfg, c, open, know, past, xs, fault)
    ensures RunFault(IdealHost(c, bp, know), cfg, c, open, know, past, ys, fault)
  {
    var host := IdealHost(c, bp, know);
    BalancedBefore(host, cfg, c, open, know, past, xs, ys, x, strings);
    BalancedStep(c, bp, open, know, cfg, past, xs, ys, x, fault, strings);
    FaultBeforeOrNow(host, cfg, c, open, know, past, xs, ys, x, fault);
  }

  lemma {:induction false} BalancedIsFaultless(c: Suite, bp: Bulletproofs, open: Known, know: Signers, cfg: Config, past: seq<Block>,
                                               xs: Block, fault: Fault, strings: set<Bytes>)
    requires c.Canonical() && RangeLibrarySound(c, bp, open) && CollisionFree(c.blake, strings)
    requires RunCovered(IdealHost(c, bp, know), cfg, past, xs, strings)
    requires AlwaysBalanced(IdealHost(c, bp, know), cfg, c, open, know, past, xs)
    ensures !RunFault(IdealHost(c, bp, know), cfg, c, open, know, past, xs, fault)
    decreases |past|, |xs|, 1
  {
    if xs != [] {
      FaultlessExtrinsic(c, bp, open, know, cfg, past, xs, fault, strings);
    } else if past != [] {
      FaultlessBlockEnd(c, bp, open, know, cfg, past, xs, fault, strings);
    }
  }

  lemma {:induction false} FaultlessBlockEnd(c: Suite, bp: Bulletproofs, open: Known, know: Signers, cfg: Config, past: seq<Block>,
                                             xs: Block, fault: Fault, strings: set<Bytes>)
    requires c.Canonical() && RangeLibrarySound(c, bp, open) && CollisionFree(c.blake, strings) && xs == [] && past != []
    requires RunCovered(IdealHost(c, bp, know), cfg, past, xs, strings)
    requires AlwaysBalanced(IdealHost(c, bp, know), cfg, c, open, know, past, xs)
    ensures !RunFault(IdealHost(c, bp, know), cfg, c, open, know, past, xs, fault)
    decreases |past|, |xs|, 0
  {
    RunCoversPast(IdealHost(c, bp, know), cfg, past, xs, strings);
    BalancedIsFaultless(c, bp, open, know, cfg, past[..|past| - 1], past[|past| - 1], fault, strings);
  }

  lemma {:induction false} FaultlessExtrinsic(c: Suite, bp: Bulletproofs, open: Known, know: Signers, cfg: Config, past: seq<Block>,
                                              xs: Block, fault: Fault, strings: set<Bytes>)
    requires c.Canonical() && RangeLibrarySound(c, bp, open) && CollisionFree(c.blake, strings) && xs != []
    requires RunCovered(IdealHost(c, bp, know), cfg, past, xs, strings)
    requires AlwaysBalanced(IdealHost(c, bp, know), cfg, c, open, know, past, xs)
    ensures !RunFault(IdealHost(c, bp, know), cfg, c, open, know, past, xs, fault)
    decreases |past|, |xs|, 0
  {
    var ys, x := xs[..|xs| - 1], xs[|xs| - 1];
    BalancedBefore(IdealHost(c, bp, know), cfg, c, open, know, past, xs, ys, x, strings);
    BalancedIsFaultless(c, bp, open, know, cfg, past, ys, fault, strings);
    if RunFault(IdealHost(c, bp, know), cfg, c, open, know, past, xs, fault) {
      BalancedLast(c, bp, open, know, cfg, past, xs, ys, x, fault, strings);
    }
  }

  /** With ideal signatures and a sound range-proof library the books balance in every state of a run
    * exactly when nothing known about its transfers is a relation between the generators.
    */
  lemma BalancedExactly(c: Suite, bp: Bulletproofs, open: Known, know: Signers, cfg: Config, past: seq<Block>, xs: Block,
                        strings: set<Bytes>)
    requires c.Canonical() && RangeLibrarySound(c, bp, open) && CollisionFree(c.blake, strings)
    requires RunCovered(IdealHost(c, bp, know), cfg, past, xs, strings)
    ensures AlwaysBalanced(IdealHost(c, bp, know), cfg, c, open, know, past, xs) <==>
            !exists fault :: RunFault(IdealHost(c, bp, know), cfg, c, open, know, past, xs, fault) && IsRelation(c, fault)
  {
    var host := IdealHost(c, bp, know);
    IdealHostIsNative(c, bp, know);
    if AlwaysBalanced(host, cfg, c, open, know, past, xs) {
      forall fault
        ensures !RunFault(host, cfg, c, open, know, past, xs, fault)
      {
        BalancedIsFaultless(c, bp, open, know, cfg, past, xs, fault, strings);
      }
    } else if fault :| RunFault(host, cfg, c, open, know, past, xs, fault) {
      IdealRunFault(c, bp, open, know, cfg, past, xs, fault);
    } else {
      FaultlessIsBalanced(host, cfg, c, open, know, past, xs, strings);
    }
  }
}

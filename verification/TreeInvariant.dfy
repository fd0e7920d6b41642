/** The membership tree mirrors the outputs in every reachable state, lagging or not. */
module TreeInvariant {
  import opened Bytes
  import opened Merkle
  import opened Hosts
  import opened Transactions
  import opened Pallet
  import opened RoundRobin
  import Emission

  // ---- the invariant ------------------------------------------------------

  /** What slot `i` should stand for. */
  function LeafOf(s: State, i: nat): Leaf {
    if i in s.admitted && i in s.outputs then Occupied(s.outputs[i].key, s.outputs[i].commitment) else Vacant
  }

  /** The tree as a sequence of leaves. */
  function Leaves(s: State): (leaves: seq<Leaf>)
    ensures |leaves| == s.treeSlots
  {
    seq(s.treeSlots, i requires 0 <= i => LeafOf(s, i))
  }

  /** Outputs are numbered `0..NextOutputIndex`, and the tree never runs ahead of them. */
  ghost predicate Numbered(s: State) {
    (forall i: nat :: i in s.outputs <==> i < s.nextOutputIndex) && s.treeSlots <= s.nextOutputIndex
  }

  /** A digest exists for exactly the grown slots, and is the digest of the slot's leaf. */
  ghost predicate SlotHolds(h: Hash, s: State, i: nat) {
    (i in s.digests <==> i < s.treeSlots) && (i in s.digests ==> s.digests[i] == LeafDigest(h, LeafOf(s, i)))
  }

  /** An admitted slot is grown and its output is mature now. */
  ghost predicate AdmittedHolds(cfg: Config, s: State, i: nat) {
    i in s.admitted ==> i < s.treeSlots && i in s.outputs && Mature(cfg, s.outputs[i], s.now)
  }

  ghost predicate Shape(h: Hash, cfg: Config, s: State) {
    Numbered(s) && (forall i: nat :: SlotHolds(h, s, i)) && (forall i: nat :: AdmittedHolds(cfg, s, i))
  }

  /** The live root is the root of the leaves. */
  ghost predicate RootCurrent(h: Hash, s: State) {
    s.root == Root(h, Digests(h, Leaves(s)))
  }

  ghost predicate TreeInv(h: Hash, cfg: Config, s: State) {
    Shape(h, cfg, s) && RootCurrent(h, s)
  }

  /** `t` comes after `s`: outputs are never changed or removed, admissions never undone. */
  ghost predicate Extends(s: State, t: State) {
    && s.now <= t.now && s.treeSlots <= t.treeSlots && s.nextOutputIndex <= t.nextOutputIndex
    && s.admitted <= t.admitted
    && (forall i :: i in s.outputs ==> i in t.outputs && t.outputs[i] == s.outputs[i])
  }

  /** How far the tree trails the outputs. */
  function Lag(s: State): int {
    s.nextOutputIndex - s.treeSlots
  }

  lemma DigestListIsDigests(h: Hash, cfg: Config, s: State)
    requires Shape(h, cfg, s)
    ensures DigestList(h, s.digests, s.treeSlots) == Digests(h, Leaves(s))
  {
    forall i | 0 <= i < s.treeSlots
      ensures DigestList(h, s.digests, s.treeSlots)[i] == Digests(h, Leaves(s))[i]
    {
      assert SlotHolds(h, s, i);
    }
  }

  lemma RefreshMakesCurrent(h: Hash, cfg: Config, s: State)
    requires Shape(h, cfg, s)
    ensures TreeInv(h, cfg, Refresh(h, s))
  {
    var t := Refresh(h, s);
    DigestListIsDigests(h, cfg, s);
    assert Leaves(t) == Leaves(s);
    forall i: nat ensures SlotHolds(h, t, i) && AdmittedHolds(cfg, t, i) {
      assert SlotHolds(h, s, i) && AdmittedHolds(cfg, s, i);
    }
  }

  // ---- minting ------------------------------------------------------------

  /** Adding an output below the tree's reach. */
  lemma InsertKeepsShape(h: Hash, cfg: Config, s: State, out: StoredOutput)
    requires Shape(h, cfg, s)
    ensures var t := s.(outputs := s.outputs[s.nextOutputIndex := out], nextOutputIndex := s.nextOutputIndex + 1);
            Shape(h, cfg, t) && Leaves(t) == Leaves(s) && Extends(s, t)
  {
    var t := s.(outputs := s.outputs[s.nextOutputIndex := out], nextOutputIndex := s.nextOutputIndex + 1);
    forall i: nat ensures SlotHolds(h, t, i) && AdmittedHolds(cfg, t, i) && LeafOf(t, i) == LeafOf(s, i) {
      assert SlotHolds(h, s, i) && AdmittedHolds(cfg, s, i);
    }
  }

  lemma GrowKeepsShape(h: Hash, cfg: Config, s: State)
    requires Shape(h, cfg, s) && s.treeSlots < s.nextOutputIndex
    ensures Shape(h, cfg, GrowEmpty(h, s)) && Extends(s, GrowEmpty(h, s))
  {
    var t := GrowEmpty(h, s);
    assert AdmittedHolds(cfg, s, s.treeSlots);
    forall i: nat ensures SlotHolds(h, t, i) && AdmittedHolds(cfg, t, i) {
      assert SlotHolds(h, s, i) && AdmittedHolds(cfg, s, i);
    }
  }

  /** `Mint` in two steps: add the output, then grow if the tree was level. */
  lemma MintInSteps(h: Hash, s: State, out: StoredOutput)
    ensures var t := s.(outputs := s.outputs[s.nextOutputIndex := out], nextOutputIndex := s.nextOutputIndex + 1);
            Mint(h, s, out) == if s.treeSlots == s.nextOutputIndex then Refresh(h, GrowEmpty(h, t)) else t
  {
  }

  lemma MintKeepsTree(h: Hash, cfg: Config, s: State, out: StoredOutput)
    requires TreeInv(h, cfg, s)
    ensures TreeInv(h, cfg, Mint(h, s, out))
    ensures Extends(s, Mint(h, s, out))
    ensures Lag(Mint(h, s, out)) == if Lag(s) == 0 then 0 else Lag(s) + 1
  {
    var t := s.(outputs := s.outputs[s.nextOutputIndex := out], nextOutputIndex := s.nextOutputIndex + 1);
    MintInSteps(h, s, out);
    InsertKeepsShape(h, cfg, s, out);
    if s.treeSlots == s.nextOutputIndex {
      GrowKeepsShape(h, cfg, t);
      RefreshMakesCurrent(h, cfg, GrowEmpty(h, t));
    }
  }

  lemma ExtendsTransitive(a: State, b: State, c: State)
    requires Extends(a, b) && Extends(b, c)
    ensures Extends(a, c)
  {
  }

  /** Minting any number of outputs keeps the tree right; a level tree stays level, and a lagging
    * one falls behind by exactly the outputs minted.
    */
  lemma {:induction false} MintAllKeepsTree(h: Hash, cfg: Config, s: State, outs: seq<StoredOutput>)
    requires TreeInv(h, cfg, s)
    ensures TreeInv(h, cfg, MintAll(h, s, outs))
    ensures Extends(s, MintAll(h, s, outs))
    ensures Lag(MintAll(h, s, outs)) == if Lag(s) == 0 then 0 else Lag(s) + |outs|
  {
    if outs != [] {
      var most := outs[..|outs| - 1];
      MintAllKeepsTree(h, cfg, s, most);
      MintKeepsTree(h, cfg, MintAll(h, s, most), outs[|outs| - 1]);
      ExtendsTransitive(s, MintAll(h, s, most), MintAll(h, s, outs));
    }
  }

  /** Outputs are stored in order from the next index on. */
  lemma {:induction false} MintAllPlaces(h: Hash, s: State, outs: seq<StoredOutput>, j: nat)
    ensures MintAll(h, s, outs).nextOutputIndex == s.nextOutputIndex + |outs|
    ensures j < |outs| ==> var t := MintAll(h, s, outs);
              s.nextOutputIndex + j in t.outputs && t.outputs[s.nextOutputIndex + j] == outs[j]
  {
    if outs != [] {
      MintAllPlaces(h, s, outs[..|outs| - 1], j);
    }
  }

  /** The fields that neither minting nor growing touches. */
  lemma {:induction false} MintAllFrame(h: Hash, s: State, outs: seq<StoredOutput>)
    ensures var t := MintAll(h, s, outs);
            && t.now == s.now && t.keyImages == s.keyImages && t.emitted == s.emitted && t.blockFees == s.blockFees
            && t.coinbaseDone == s.coinbaseDone && t.admitted == s.admitted && t.cursor == s.cursor && t.rootAt == s.rootAt
            && t.nextOutputIndex == s.nextOutputIndex + |outs|
  {
    if outs != [] {
      MintAllFrame(h, s, outs[..|outs| - 1]);
    }
  }

  // ---- finalize -----------------------------------------------------------

  lemma FillKeepsShape(h: Hash, cfg: Config, s: State)
    requires Shape(h, cfg, s)
    ensures Shape(h, cfg, AdmitMature(h, cfg, s))
    ensures Extends(s, AdmitMature(h, cfg, s)) && Lag(AdmitMature(h, cfg, s)) == Lag(s)
  {
    var t := AdmitMature(h, cfg, s);
    var filled := FillIsBudgeted(h, cfg, s);
    forall i: nat ensures SlotHolds(h, t, i) && AdmittedHolds(cfg, t, i) {
      assert SlotHolds(h, s, i) && AdmittedHolds(cfg, s, i);
      FillWritesLeaves(h, cfg, s, i);
      assert i in filled ==> i in AllSlots(s) && Admissible(cfg, s, s.admitted, i);
    }
  }

  /** Catch-up grows exactly min(budget, lag) slots. */
  lemma {:induction false} CatchupKeepsShape(h: Hash, cfg: Config, s: State, budget: nat)
    requires Shape(h, cfg, s)
    ensures Shape(h, cfg, Catchup(h, s, budget))
    ensures Extends(s, Catchup(h, s, budget))
    ensures Lag(Catchup(h, s, budget)) == Lag(s) - Min(budget, Lag(s))
    ensures Catchup(h, s, budget).now == s.now && Catchup(h, s, budget).admitted == s.admitted
    decreases budget
  {
    if budget > 0 && s.treeSlots < s.nextOutputIndex {
      GrowKeepsShape(h, cfg, s);
      CatchupKeepsShape(h, cfg, GrowEmpty(h, s), budget - 1);
      ExtendsTransitive(s, GrowEmpty(h, s), Catchup(h, s, budget));
    }
  }

  /** End of block: the invariant holds again, and the lag shrinks by min(64, lag). */
  lemma FinalizeKeepsTree(h: Hash, cfg: Config, s: State)
    requires TreeInv(h, cfg, s)
    ensures TreeInv(h, cfg, Finalize(h, cfg, s))
    ensures Extends(s, Finalize(h, cfg, s))
    ensures Lag(Finalize(h, cfg, s)) == Lag(s) - Min(64, Lag(s))
  {
    FillKeepsShape(h, cfg, s);
    var a := AdmitMature(h, cfg, s);
    CatchupKeepsShape(h, cfg, a, CATCHUP_MAX);
    var c := Catchup(h, a, CATCHUP_MAX);
    RefreshMakesCurrent(h, cfg, c);
    ExtendsTransitive(s, a, c);
    RecordKeepsTree(h, cfg, Refresh(h, c));
  }

  lemma RecordKeepsTree(h: Hash, cfg: Config, s: State)
    requires TreeInv(h, cfg, s)
    ensures TreeInv(h, cfg, RecordRoot(s)) && Extends(s, RecordRoot(s)) && Lag(RecordRoot(s)) == Lag(s)
  {
    var t := RecordRoot(s);
    assert Leaves(t) == Leaves(s);
    forall i: nat ensures SlotHolds(h, t, i) && AdmittedHolds(cfg, t, i) {
      assert SlotHolds(h, s, i) && AdmittedHolds(cfg, s, i);
    }
  }

  lemma InitializeKeepsTree(h: Hash, cfg: Config, s: State)
    requires TreeInv(h, cfg, s)
    ensures TreeInv(h, cfg, Initialize(s)) && Extends(s, Initialize(s)) && Lag(Initialize(s)) == Lag(s)
  {
    var t := Initialize(s);
    assert Leaves(t) == Leaves(s);
    forall i: nat ensures SlotHolds(h, t, i) && AdmittedHolds(cfg, t, i) {
      assert SlotHolds(h, s, i) && AdmittedHolds(cfg, s, i);
    }
  }

  // ---- extrinsics ---------------------------------------------------------

  /** Money and key images do not concern the tree. */
  lemma LedgerFieldsAreIrrelevant(h: Hash, cfg: Config, s: State, t: State)
    requires TreeInv(h, cfg, s)
    requires t == s.(keyImages := t.keyImages, emitted := t.emitted, blockFees := t.blockFees, coinbaseDone := t.coinbaseDone)
    ensures TreeInv(h, cfg, t) && Extends(s, t) && Lag(t) == Lag(s)
  {
    assert Leaves(t) == Leaves(s);
    forall i: nat ensures SlotHolds(h, t, i) && AdmittedHolds(cfg, t, i) {
      assert SlotHolds(h, s, i) && AdmittedHolds(cfg, s, i);
    }
  }

  /** `t` comes after `s` within a block: a level tree stays level, a lagging one falls behind by the
    * outputs minted, and nothing is admitted.
    */
  ghost predicate Follows(s: State, t: State) {
    && Extends(s, t) && t.now == s.now && t.admitted == s.admitted && t.cursor == s.cursor
    && Lag(t) == if Lag(s) == 0 then 0 else Lag(s) + t.nextOutputIndex - s.nextOutputIndex
  }

  /** Every extrinsic keeps the invariant, and leaves a level tree level. */
  lemma DispatchKeepsTree(host: Host, cfg: Config, s: State, x: Extrinsic)
    requires TreeInv(host.blake, cfg, s)
    ensures TreeInv(host.blake, cfg, Dispatch(host, cfg, s, x))
    ensures Extends(s, Dispatch(host, cfg, s, x)) && Follows(s, Dispatch(host, cfg, s, x))
    ensures Lag(s) == 0 ==> Lag(Dispatch(host, cfg, s, x)) == 0
  {
    match Call(host, cfg, s, x)
    case Err(_) =>
    case Ok(t) =>
      var paid, stored := Accepted(host, cfg, s, x);
      LedgerFieldsAreIrrelevant(host.blake, cfg, s, paid);
      MintAllKeepsTree(host.blake, cfg, paid, stored);
      MintAllFrame(host.blake, paid, stored);
      ExtendsTransitive(s, paid, t);
  }

  lemma TransferApplies(host: Host, cfg: Config, s: State, tx: TransferTx)
    requires Transfer(host, cfg, s, tx).Ok?
    ensures TransferError(host, cfg, s, tx) == None
    ensures Transfer(host, cfg, s, tx) == ApplyTransfer(host, s, tx)
  {
  }

  /** What an accepted transfer does: record the spends, then mint outputs of this height. */
  lemma AcceptedTransfer(host: Host, s: State, tx: TransferTx)
    requires ApplyTransfer(host, s, tx).Ok?
    ensures s.blockFees + tx.fee < U64_BOUND
    ensures ApplyTransfer(host, s, tx).state ==
            MintAll(host.blake, s.(keyImages := s.keyImages + KeyImagesOf(tx), blockFees := s.blockFees + tx.fee),
                    TransferStored(s.now, tx))
  {
  }

  /** What an accepted coinbase does. */
  lemma AcceptedCoinbase(host: Host, s: State, outs: seq<CoinbaseOutput>, txPubkey: Bytes32)
    requires Coinbase(host, s, outs, txPubkey).Ok?
    ensures CoinbaseError(host, s, outs, txPubkey) == None && s.emitted + Emission.BlockReward(s.emitted) < U64_BOUND
    ensures Coinbase(host, s, outs, txPubkey).state ==
            MintAll(host.blake, s.(blockFees := 0, emitted := s.emitted + Emission.BlockReward(s.emitted), coinbaseDone := true),
                    CoinbaseOutputs(host, s.now, outs, txPubkey))
  {
  }

  /** Either way: ledger fields change, then outputs are minted. */
  lemma Accepted(host: Host, cfg: Config, s: State, x: Extrinsic) returns (paid: State, stored: seq<StoredOutput>)
    requires Call(host, cfg, s, x).Ok?
    ensures paid == s.(keyImages := paid.keyImages, emitted := paid.emitted, blockFees := paid.blockFees, coinbaseDone := paid.coinbaseDone)
    ensures Call(host, cfg, s, x).state == MintAll(host.blake, paid, stored)
  {
    match x
    case TransferCall(tx) =>
      TransferApplies(host, cfg, s, tx);
      AcceptedTransfer(host, s, tx);
      paid := s.(keyImages := s.keyImages + KeyImagesOf(tx), blockFees := s.blockFees + tx.fee);
      stored := TransferStored(s.now, tx);
    case CoinbaseCall(outs, txPubkey) =>
      AcceptedCoinbase(host, s, outs, txPubkey);
      paid := s.(blockFees := 0, emitted := s.emitted + Emission.BlockReward(s.emitted), coinbaseDone := true);
      stored := CoinbaseOutputs(host, s.now, outs, txPubkey);
  }

  // ---- every run ----------------------------------------------------------

  lemma GenesisHasTree(h: Hash, cfg: Config)
    ensures TreeInv(h, cfg, Genesis(h)) && Lag(Genesis(h)) == 0
  {
    var s := Genesis(h);
    assert Digests(h, Leaves(s)) == [];
    forall i: nat ensures SlotHolds(h, s, i) && AdmittedHolds(cfg, s, i) {
    }
  }

  /** In every state reached from genesis, between blocks or inside one, the tree is right and level. */
  lemma {:induction false} RunKeepsTree(host: Host, cfg: Config, past: seq<Block>, xs: Block)
    ensures TreeInv(host.blake, cfg, During(host, cfg, past, xs)) && Lag(During(host, cfg, past, xs)) == 0
    ensures TreeInv(host.blake, cfg, EndOf(host, cfg, past)) && Lag(EndOf(host, cfg, past)) == 0
    decreases |past|, |xs|
  {
    if xs != [] {
      RunKeepsTree(host, cfg, past, xs[..|xs| - 1]);
      DispatchKeepsTree(host, cfg, During(host, cfg, past, xs[..|xs| - 1]), xs[|xs| - 1]);
    } else {
      if past == [] {
        GenesisHasTree(host.blake, cfg);
      } else {
        RunKeepsTree(host, cfg, past[..|past| - 1], past[|past| - 1]);
        FinalizeKeepsTree(host.blake, cfg, During(host, cfg, past[..|past| - 1], past[|past| - 1]));
      }
      InitializeKeepsTree(host.blake, cfg, EndOf(host, cfg, past));
    }
  }
}

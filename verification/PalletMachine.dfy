/** The pallet as it runs: storage items updated in place, proved against the rules in `Pallet`. */
module PalletMachine {
  import opened Bytes
  import opened Limits
  import opened Merkle
  import opened Hosts
  import opened Transactions
  import opened Emission
  import opened Pallet
  import Fcmp

  class RingCt {
    const host: Host
    const cfg: Config
    var now: nat
    var outputs: map<nat, StoredOutput>
    var nextOutputIndex: nat
    var keyImages: set<Bytes32>
    var emitted: u64
    var blockFees: u64
    var coinbaseDone: bool
    var treeSlots: nat
    var digests: map<nat, Bytes32>
    var admitted: set<nat>
    var cursor: nat
    var root: Bytes32
    var rootAt: map<nat, Bytes32>

    /** The storage as one value. */
    function View(): State
      reads this
    {
      State(now, outputs, nextOutputIndex, keyImages, emitted, blockFees, coinbaseDone,
            treeSlots, digests, admitted, cursor, root, rootAt)
    }

    constructor (host: Host, cfg: Config)
      ensures this.host == host && this.cfg == cfg && View() == Genesis(host.blake)
    {
      this.host, this.cfg := host, cfg;
      now, outputs, nextOutputIndex, keyImages := 0, map[], 0, {};
      emitted, blockFees, coinbaseDone := 0, 0, false;
      treeSlots, digests, admitted, cursor := 0, map[], {}, 0;
      root, rootAt := EmptyChild(host.blake), map[];
    }

    // ---- tree maintenance -------------------------------------------------

    method RefreshMembershipRoot()
      modifies this`root
      ensures View() == Refresh(host.blake, old(View()))
    {
      var leaves: seq<Bytes32> := [];
      var i := 0;
      while i < treeSlots
        invariant 0 <= i <= treeSlots
        invariant leaves == DigestList(host.blake, digests, treeSlots)[..i]
      {
        leaves := leaves + [if i in digests then digests[i] else EmptyLeafHash(host.blake)];
        i := i + 1;
      }
      assert leaves == DigestList(host.blake, digests, treeSlots);
      root := RootFromLeaves(host.blake, leaves);
    }

    method GrowEmptySlot()
      modifies this`digests, this`treeSlots
      ensures View() == GrowEmpty(host.blake, old(View()))
    {
      digests := digests[treeSlots := EmptyLeafHash(host.blake)];
      treeSlots := treeSlots + 1;
    }

    method MaybeGrowEmptyOnCreate(index: nat)
      modifies this`digests, this`treeSlots, this`root
      ensures View() == MaybeGrow(host.blake, old(View()), index)
    {
      if treeSlots != index {
        return;
      }
      GrowEmptySlot();
      RefreshMembershipRoot();
    }

    method AdmitSlot(i: nat)
      requires i in outputs && i !in admitted
      modifies this`digests, this`admitted
      ensures Fill(digests, admitted, i) == Admit(host.blake, old(View()), Fill(old(digests), old(admitted), i))
      ensures |admitted| == |old(admitted)| + 1
    {
      var out := outputs[i];
      digests := digests[i := LeafHash(host.blake, out.key, out.commitment)];
      admitted := admitted + {i};
    }

    method AdmitMatureLeavesBudgeted() returns (count: nat)
      modifies this`digests, this`admitted, this`cursor
      ensures View() == AdmitMature(host.blake, cfg, old(View()))
      ensures count == |admitted| - |old(admitted)|
    {
      if treeSlots == 0 {
        cursor := 0;
        return 0;
      }
      count := 0;
      var i: nat := cursor % treeSlots;
      ghost var start := View();
      ghost var target := Scan(host.blake, cfg, start, Fill(digests, admitted, i), treeSlots, ADMIT_MAX);
      var scanned := 0;
      while count < ADMIT_MAX && scanned < treeSlots
        invariant 0 <= scanned <= treeSlots && count <= ADMIT_MAX
        invariant Scan(host.blake, cfg, start, Fill(digests, admitted, i), treeSlots - scanned, ADMIT_MAX - count) == target
        invariant count == |admitted| - |old(admitted)|
        invariant View() == start.(digests := digests, admitted := admitted)
      {
        if i !in admitted {
          if i in outputs {
            if Mature(cfg, outputs[i], now) {
              AdmitSlot(i);
              count := count + 1;
            }
          }
        }
        i := i + 1;
        if i >= treeSlots {
          i := 0;
        }
        scanned := scanned + 1;
      }
      cursor := i;
    }

    method CatchupGrowBudgeted() returns (grown: nat)
      modifies this`digests, this`treeSlots
      ensures View() == Catchup(host.blake, old(View()), CATCHUP_MAX)
      ensures grown == treeSlots - old(treeSlots)
    {
      grown := 0;
      while grown < CATCHUP_MAX
        invariant grown <= CATCHUP_MAX
        invariant Catchup(host.blake, View(), CATCHUP_MAX - grown) == Catchup(host.blake, old(View()), CATCHUP_MAX)
        invariant grown == treeSlots - old(treeSlots)
      {
        if treeSlots >= nextOutputIndex {
          break;
        }
        GrowEmptySlot();
        grown := grown + 1;
      }
    }

    method MaintainMembershipTree() returns (filled: nat, grown: nat)
      modifies this`digests, this`admitted, this`cursor, this`treeSlots, this`root
      ensures View() == Maintain(host.blake, cfg, old(View()))
    {
      filled := AdmitMatureLeavesBudgeted();
      grown := CatchupGrowBudgeted();
      RefreshMembershipRoot();
    }

    // ---- hooks ------------------------------------------------------------

    method OnInitialize()
      modifies this`now, this`coinbaseDone
      ensures View() == Initialize(old(View()))
    {
      now := now + 1;
      coinbaseDone := false;
    }

    method OnFinalize()
      modifies this`digests, this`admitted, this`cursor, this`treeSlots, this`root, this`rootAt
      ensures View() == Finalize(host.blake, cfg, old(View()))
    {
      var filled, grown := MaintainMembershipTree();
      RecordMembershipRoot();
    }

    /** Record this block's root and forget the one that leaves the window. */
    method RecordMembershipRoot()
      modifies this`rootAt
      ensures View() == RecordRoot(old(View()))
    {
      rootAt := rootAt[now := root];
      if now > ROOT_MAX_AGE {
        rootAt := rootAt - {now - ROOT_MAX_AGE};
      }
    }

    // ---- coinbase ---------------------------------------------------------

    method CheckCoinbaseOutputs(outs: seq<CoinbaseOutput>) returns (e: Option<Error>, total: nat)
      ensures e == CoinbaseOutputsError(host, outs, 0)
      ensures e.None? ==> total == CoinbaseTotal(outs) < U64_BOUND
    {
      total := 0;
      var i := 0;
      while i < |outs|
        invariant 0 <= i <= |outs|
        invariant total == CoinbaseTotal(outs[..i]) < U64_BOUND
        invariant CoinbaseOutputsError(host, outs[i..], total) == CoinbaseOutputsError(host, outs, 0)
      {
        assert outs[i..][1..] == outs[i + 1..];
        assert outs[..i + 1][..i] == outs[..i];
        if outs[i].amount == 0 {
          return Some(CoinbaseAmountInvalid), total;
        }
        if !(host.isValidPoint)(outs[i].key) {
          return Some(InvalidPoint), total;
        }
        if total + outs[i].amount >= U64_BOUND {
          return Some(CoinbaseAmountInvalid), total;
        }
        total := total + outs[i].amount;
        i := i + 1;
      }
      assert outs[..i] == outs;
      return None, total;
    }

    /** Insert one output and grow the tree if it is level with the outputs. */
    method StoreAt(index: nat, out: StoredOutput)
      modifies this`outputs, this`digests, this`treeSlots, this`root
      ensures View().(nextOutputIndex := index + 1) == Mint(host.blake, old(View()).(nextOutputIndex := index), out)
    {
      outputs := outputs[index := out];
      MaybeGrowEmptyOnCreate(index);
    }

    /** Store outputs one by one; `NextOutputIndex` is written once at the end. */
    method StoreAll(stored: seq<StoredOutput>)
      modifies this`outputs, this`nextOutputIndex, this`digests, this`treeSlots, this`root
      ensures View() == MintAll(host.blake, old(View()), stored)
    {
      var next := nextOutputIndex;
      var i := 0;
      ghost var start := View();
      while i < |stored|
        invariant 0 <= i <= |stored|
        invariant View().(nextOutputIndex := next) == MintAll(host.blake, start, stored[..i])
      {
        assert stored[..i + 1][..i] == stored[..i];
        StoreAt(next, stored[i]);
        next := next + 1;
        i := i + 1;
      }
      assert stored[..i] == stored;
      nextOutputIndex := next;
    }

    method Coinbase(outs: seq<CoinbaseOutput>, txPubkey: Bytes32) returns (e: Option<Error>)
      requires |outs| <= MAX_OUTPUTS
      modifies this
      ensures match Pallet.Coinbase(host, old(View()), outs, txPubkey)
              case Ok(s) => e == None && View() == s
              case Err(error) => e == Some(error) && View() == old(View())
    {
      if coinbaseDone {
        return Some(CoinbaseAlreadyIncluded);
      }
      if outs == [] {
        return Some(EmptyInputsOrOutputs);
      }
      if !(host.isValidPoint)(txPubkey) {
        return Some(InvalidPoint);
      }
      var reward := BlockReward(emitted);
      var fees := blockFees;
      if reward + fees >= U64_BOUND {
        return Some(CoinbaseAmountInvalid);
      }
      var entitled := reward + fees;
      var total;
      e, total := CheckCoinbaseOutputs(outs);
      if e.Some? {
        return e;
      }
      if total != entitled {
        return Some(CoinbaseAmountInvalid);
      }
      e := MintCoinbase(outs, txPubkey, reward);
    }

    /** The state changes of a coinbase whose checks passed. */
    method MintCoinbase(outs: seq<CoinbaseOutput>, txPubkey: Bytes32, reward: u64) returns (e: Option<Error>)
      modifies this
      ensures e == if old(emitted) + reward >= U64_BOUND then Some(ArithmeticOverflow) else None
      ensures e.Some? ==> View() == old(View())
      ensures e.None? ==>
                View() == MintAll(host.blake, old(View()).(blockFees := 0, emitted := old(emitted) + reward, coinbaseDone := true),
                                  CoinbaseOutputs(host, old(now), outs, txPubkey))
    {
      ghost var before := View();
      var fees := blockFees;
      blockFees := 0;
      if emitted + reward >= U64_BOUND {
        blockFees := fees;  // the storage layer undoes the failed call
        return Some(ArithmeticOverflow);
      }
      emitted := emitted + reward;
      coinbaseDone := true;
      assert View() == before.(blockFees := 0, emitted := before.emitted + reward, coinbaseDone := true);
      StoreAll(CoinbaseOutputs(host, now, outs, txPubkey));
      return None;
    }

    // ---- transfer ---------------------------------------------------------

    method MembershipRootAccepted(r: Bytes32) returns (ok: bool)
      ensures ok <==> RootAccepted(View(), r)
    {
      if root == r {
        return true;
      }
      var n := Max(now - ROOT_MAX_AGE, 0);
      while true
        invariant Max(now - ROOT_MAX_AGE, 0) <= n <= now
        invariant forall m: nat :: Max(now - ROOT_MAX_AGE, 0) <= m < n && m in rootAt ==> rootAt[m] != r
        decreases now - n
      {
        if n in rootAt && rootAt[n] == r {
          return true;
        }
        if n >= now {
          break;
        }
        n := n + 1;
      }
      return false;
    }

    method CheckInputs(tx: TransferTx) returns (e: Option<Error>, pseudos: Bytes)
      ensures e == InputsError(host, View(), tx, tx.inputs)
      ensures e.None? ==> pseudos == Flatten(Pseudos(tx.inputs))
    {
      var msg := SigningHash(host.blake, tx);
      pseudos := [];
      var i := 0;
      while i < |tx.inputs|
        invariant 0 <= i <= |tx.inputs|
        invariant pseudos == Flatten(Pseudos(tx.inputs)[..i])
        invariant InputsError(host, View(), tx, tx.inputs[i..]) == InputsError(host, View(), tx, tx.inputs)
      {
        var input := tx.inputs[i];
        assert tx.inputs[i..][1..] == tx.inputs[i + 1..];
        if |input.proof| > MAX_FCMP_PROOF_BYTES {
          return Some(FcmpProofTooLarge), pseudos;
        }
        if input.keyImage in keyImages {
          return Some(KeyImageAlreadySpent), pseudos;
        }
        if !(host.isValidPoint)(input.keyImage) {
          return Some(InvalidPoint), pseudos;
        }
        if !(host.isValidPoint)(input.pseudo) {
          return Some(InvalidPoint), pseudos;
        }
        var ok := Fcmp.Verify(host, msg, tx.root, input.pseudo, input.keyImage, input.proof);
        if !ok {
          return Some(FcmpInvalid), pseudos;
        }
        FlattenSnoc(Pseudos(tx.inputs)[..i], input.pseudo);
        assert Pseudos(tx.inputs)[..i + 1] == Pseudos(tx.inputs)[..i] + [input.pseudo];
        pseudos := pseudos + input.pseudo;
        i := i + 1;
      }
      assert Pseudos(tx.inputs)[..i] == Pseudos(tx.inputs);
      return None, pseudos;
    }

    method OutputCommitments(outs: seq<Output>) returns (bytes: Bytes)
      ensures bytes == Flatten(CommitmentList(outs))
    {
      bytes := [];
      var j := 0;
      while j < |outs|
        invariant 0 <= j <= |outs|
        invariant bytes == Flatten(CommitmentList(outs)[..j])
      {
        FlattenSnoc(CommitmentList(outs)[..j], outs[j].commitment);
        assert CommitmentList(outs)[..j + 1] == CommitmentList(outs)[..j] + [outs[j].commitment];
        bytes := bytes + outs[j].commitment;
        j := j + 1;
      }
      assert CommitmentList(outs)[..j] == CommitmentList(outs);
    }

    /** Full verification: reports the first check that fails. */
    method VerifyTransfer(tx: TransferTx) returns (e: Option<Error>)
      ensures e == TransferError(host, cfg, View(), tx)
    {
      if tx.inputs == [] || tx.outputs == [] {
        return Some(EmptyInputsOrOutputs);
      }
      if |tx.inputs| > MAX_FCMP_INPUTS {
        return Some(TooManyInputs);
      }
      if exists i :: 0 < i < |tx.inputs| && !Less(tx.inputs[i - 1].keyImage, tx.inputs[i].keyImage) {
        return Some(InputsNotSortedUnique);
      }
      if tx.fee < FeeFloor(cfg, tx) {
        return Some(FeeTooLow);
      }
      if !(host.isValidPoint)(tx.txPubkey) {
        return Some(InvalidPoint);
      }
      if !OutputKeysValid(host, tx.outputs) {
        return Some(InvalidPoint);
      }
      if treeSlots > MAX_FCMP_ANON_SET {
        return Some(TreeTooLargeForFcmp);
      }
      var accepted := MembershipRootAccepted(tx.root);
      if !accepted {
        return Some(RootStale);
      }
      var pseudos, commitments;
      e, pseudos := CheckInputs(tx);
      if e.Some? {
        return e;
      }
      commitments := OutputCommitments(tx.outputs);
      if !(host.balance)(pseudos, commitments, tx.fee) {
        return Some(BalanceCheckFailed);
      }
      if !(host.range)(tx.rangeProof, commitments) {
        return Some(RangeProofInvalid);
      }
      return None;
    }

    /** The pool's cheap checks. */
    method AuthorizeTransfer(tx: TransferTx) returns (refusal: Option<Refusal>)
      ensures refusal == AuthorizeRefusal(cfg, View(), tx)
    {
      if tx.fee < FeeFloor(cfg, tx) {
        return Some(Payment);
      }
      if tx.inputs == [] || tx.outputs == [] || |tx.inputs| > MAX_FCMP_INPUTS {
        return Some(BadProof);
      }
      var i := 0;
      while i < |tx.inputs|
        invariant 0 <= i <= |tx.inputs|
        invariant InputRefusal(View(), tx.inputs[i..]) == InputRefusal(View(), tx.inputs)
      {
        assert tx.inputs[i..][1..] == tx.inputs[i + 1..];
        if |tx.inputs[i].proof| > MAX_FCMP_PROOF_BYTES {
          return Some(BadProof);
        }
        if tx.inputs[i].keyImage in keyImages {
          return Some(Stale);
        }
        i := i + 1;
      }
      var accepted := MembershipRootAccepted(tx.root);
      if !accepted {
        return Some(Stale);
      }
      return None;
    }

    method Transfer(tx: TransferTx) returns (e: Option<Error>)
      modifies this
      ensures match Pallet.Transfer(host, cfg, old(View()), tx)
              case Ok(s) => e == None && View() == s
              case Err(error) => e == Some(error) && View() == old(View())
    {
      e := VerifyTransfer(tx);
      if e.Some? {
        return e;
      }
      e := ApplyTransfer(tx);
    }

    /** The state changes of a transfer whose checks passed. */
    method ApplyTransfer(tx: TransferTx) returns (e: Option<Error>)
      modifies this
      ensures match Pallet.ApplyTransfer(host, old(View()), tx)
              case Ok(s) => e == None && View() == s
              case Err(error) => e == Some(error) && View() == old(View())
    {
      var spentBefore := keyImages;
      InsertKeyImages(tx);
      if blockFees + tx.fee >= U64_BOUND {
        keyImages := spentBefore;  // the storage layer undoes the failed call
        return Some(ArithmeticOverflow);
      }
      blockFees := blockFees + tx.fee;
      StoreAll(TransferStored(now, tx));
      return None;
    }

    method InsertKeyImages(tx: TransferTx)
      modifies this`keyImages
      ensures keyImages == old(keyImages) + KeyImagesOf(tx)
    {
      var i := 0;
      while i < |tx.inputs|
        invariant 0 <= i <= |tx.inputs|
        invariant keyImages == old(keyImages) + set k: nat | k < i :: tx.inputs[k].keyImage
      {
        keyImages := keyImages + {tx.inputs[i].keyImage};
        i := i + 1;
      }
    }
  }
}

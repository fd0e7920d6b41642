/** Outputs that share a key image: one of them can be spent, the rest are stuck. */
module StuckOutputs {
  import opened Bytes
  import opened Group
  import opened Hosts
  import opened Native
  import opened Emission
  import opened Transactions
  import opened Pallet
  import opened TreeInvariant
  import opened RootWindow
  import Merkle
  import opened Spends
  import opened Ideal
  import opened Conservation

  /** The key image that spending output `j` publishes. */
  function ImageOf(c: Suite, s: State, j: nat): Bytes32
    requires j in s.outputs
  {
    KeyImageFor(c, s.outputs[j].key)
  }

  /** Output `j` can no longer be spent: its key image has been published. */
  predicate Dead(c: Suite, s: State, j: nat) {
    j in s.outputs && ImageOf(c, s, j) in s.keyImages
  }

  /** Some consumed output has the key image of `j`. */
  ghost predicate Shared(c: Suite, s: State, consumed: seq<nat>, j: nat)
    requires j in s.outputs
  {
    exists k :: 0 <= k < |consumed| && consumed[k] in s.outputs && ImageOf(c, s, consumed[k]) == ImageOf(c, s, j)
  }

  /** In every run with books: an output is dead exactly when a consumed output has its key image. */
  lemma DeadExactly(host: Host, cfg: Config, c: Suite, open: Known, know: Signers, past: seq<Block>, xs: Block, j: nat)
    requires RunBooks(host, cfg, c, open, know, past, xs) && j in During(host, cfg, past, xs).outputs
    ensures var s := During(host, cfg, past, xs);
            Dead(c, s, j) <==> Shared(c, s, ConsumedDuring(host, cfg, know, past, xs), j)
  {
    var s, spent, consumed := During(host, cfg, past, xs), SpentDuring(host, cfg, past, xs), ConsumedDuring(host, cfg, know, past, xs);
    NoDoubleSpend(host, cfg, past, xs);
    DeadMeansShared(c, open, s, spent, consumed, j);
  }

  lemma DeadMeansShared(c: Suite, open: Known, s: State, spent: seq<Bytes32>, consumed: seq<nat>, j: nat)
    requires Books(c, open, s, spent, consumed) && SpendsRecorded(s, spent) && j in s.outputs
    ensures Dead(c, s, j) <==> Shared(c, s, consumed, j)
  {
    if Dead(c, s, j) {
      var k :| 0 <= k < |spent| && spent[k] == ImageOf(c, s, j);
      assert Consumed(c, s, spent, consumed, k);
    }
    if Shared(c, s, consumed, j) {
      var k :| 0 <= k < |consumed| && consumed[k] in s.outputs && ImageOf(c, s, consumed[k]) == ImageOf(c, s, j);
      assert Consumed(c, s, spent, consumed, k);
      assert spent[k] in spent;
    }
  }

  // ---- a run never takes anything back ------------------------------------

  /** The state `(future, ys)` comes at or after the state `(past, xs)` of the same run. */
  predicate Later(past: seq<Block>, xs: Block, future: seq<Block>, ys: Block) {
    if |future| == |past| then future == past && xs <= ys
    else |past| < |future| && past == future[..|past|] && xs <= future[|past|]
  }

  /** Spends and consumptions are only added. */
  lemma {:induction false} LaterAdds(host: Host, cfg: Config, know: Signers, past: seq<Block>, xs: Block, future: seq<Block>, ys: Block)
    requires Later(past, xs, future, ys)
    ensures SpentDuring(host, cfg, past, xs) <= SpentDuring(host, cfg, future, ys)
    ensures ConsumedDuring(host, cfg, know, past, xs) <= ConsumedDuring(host, cfg, know, future, ys)
    decreases |future|, |ys|
  {
    if |future| == |past| && xs == ys {
    } else if ys != [] {
      assert |future| == |past| ==> xs <= ys[..|ys| - 1];
      LaterAdds(host, cfg, know, past, xs, future, ys[..|ys| - 1]);
    } else {
      var before, last := future[..|future| - 1], future[|future| - 1];
      assert |before| > |past| ==> before[..|past|] == past && before[|past|] == future[|past|];
      LaterAdds(host, cfg, know, past, xs, before, last);
    }
  }

  /** Of the outputs that share a key image at most one is ever consumed. */
  lemma OneSpendPerImage(host: Host, cfg: Config, c: Suite, open: Known, know: Signers, past: seq<Block>, xs: Block, i: nat, j: nat)
    requires RunBooks(host, cfg, c, open, know, past, xs)
    requires i in ConsumedDuring(host, cfg, know, past, xs) && j in ConsumedDuring(host, cfg, know, past, xs)
    ensures var s := During(host, cfg, past, xs);
            i in s.outputs && j in s.outputs && (ImageOf(c, s, i) == ImageOf(c, s, j) ==> i == j)
  {
    NoDoubleSpend(host, cfg, past, xs);
    OneConsumedPerImage(c, open, During(host, cfg, past, xs), SpentDuring(host, cfg, past, xs),
                        ConsumedDuring(host, cfg, know, past, xs), i, j);
  }

  lemma OneConsumedPerImage(c: Suite, open: Known, s: State, spent: seq<Bytes32>, consumed: seq<nat>, i: nat, j: nat)
    requires Books(c, open, s, spent, consumed) && Distinct(spent) && i in consumed && j in consumed
    ensures i in s.outputs && j in s.outputs && (ImageOf(c, s, i) == ImageOf(c, s, j) ==> i == j)
  {
    var k, l :| 0 <= k < |consumed| && consumed[k] == i && 0 <= l < |consumed| && consumed[l] == j;
    assert Consumed(c, s, spent, consumed, k) && Consumed(c, s, spent, consumed, l);
  }

  /** Outputs are only added. */
  lemma {:induction false} LaterExtends(host: Host, cfg: Config, past: seq<Block>, xs: Block, future: seq<Block>, ys: Block)
    requires Later(past, xs, future, ys)
    ensures Extends(During(host, cfg, past, xs), During(host, cfg, future, ys))
    decreases |future|, |ys|
  {
    if |future| == |past| && xs == ys {
    } else if ys != [] {
      var most := ys[..|ys| - 1];
      assert |future| == |past| ==> xs <= most;
      LaterExtends(host, cfg, past, xs, future, most);
      RunKeepsTree(host, cfg, future, most);
      DispatchKeepsTree(host, cfg, During(host, cfg, future, most), ys[|ys| - 1]);
      ExtendsTransitive(During(host, cfg, past, xs), During(host, cfg, future, most), During(host, cfg, future, ys));
    } else {
      var before, last := future[..|future| - 1], future[|future| - 1];
      assert |before| > |past| ==> before[..|past|] == past && before[|past|] == future[|past|];
      LaterExtends(host, cfg, past, xs, before, last);
      NextBlockExtends(host, cfg, before, last);
      assert before + [last] == future;
      ExtendsTransitive(During(host, cfg, past, xs), During(host, cfg, before, last), During(host, cfg, future, []));
    }
  }

  lemma NextBlockExtends(host: Host, cfg: Config, past: seq<Block>, xs: Block)
    ensures Extends(During(host, cfg, past, xs), During(host, cfg, past + [xs], []))
  {
    var s, end := During(host, cfg, past, xs), EndOf(host, cfg, past + [xs]);
    assert (past + [xs])[..|past|] == past;
    assert end == Finalize(host.blake, cfg, s);
    RunKeepsTree(host, cfg, past, xs);
    FinalizeKeepsTree(host.blake, cfg, s);
    BlockExtends(host, cfg, past + [xs], []);
    ExtendsTransitive(s, end, During(host, cfg, past + [xs], []));
  }

  /** What is consumed first counts: an output dead and not consumed is not consumed by more spends. */
  lemma MoreSpendsPassBy(c: Suite, s: State, t: State, spent: seq<Bytes32>, consumed: seq<nat>, spent': seq<Bytes32>,
                         consumed': seq<nat>, j: nat)
    requires |spent| == |consumed| && |spent'| == |consumed'| && spent <= spent' && consumed <= consumed'
    requires SpendsRecorded(s, spent) && Distinct(spent') && Extends(s, t)
    requires forall k :: 0 <= k < |spent'| ==> Consumed(c, t, spent', consumed', k)
    requires Dead(c, s, j) && j !in consumed
    ensures j !in consumed'
  {
    var i :| 0 <= i < |spent| && spent[i] == ImageOf(c, s, j);
    assert spent'[i] == spent[i] && consumed'[i] == consumed[i];
    forall k | 0 <= k < |consumed'|
      ensures consumed'[k] != j
    {
      assert Consumed(c, t, spent', consumed', k);
    }
  }

  lemma SpentImagesRefused(host: Host, cfg: Config, s: State, tx: TransferTx, image: Bytes32)
    requires image in s.keyImages && image in Images(tx.inputs)
    ensures TransferError(host, cfg, s, tx).Some?
  {
    if TransferError(host, cfg, s, tx) == None {
      var i :| 0 <= i < |tx.inputs| && Images(tx.inputs)[i] == image;
      AcceptanceChecks(host, cfg, s, tx);
      UnspentInputs(host, s, tx, tx.inputs, i);
    }
  }

  /** Dead without having been consumed, an output stays so: no later state of the run has consumed
    * it, and every later transfer that publishes its key image is refused.
    */
  lemma StuckForever(host: Host, cfg: Config, c: Suite, open: Known, know: Signers, past: seq<Block>, xs: Block,
                     future: seq<Block>, ys: Block, j: nat, tx: TransferTx)
    requires RunBooks(host, cfg, c, open, know, past, xs) && Later(past, xs, future, ys)
    requires Dead(c, During(host, cfg, past, xs), j) && j !in ConsumedDuring(host, cfg, know, past, xs)
    ensures RunBooks(host, cfg, c, open, know, future, ys) ==> j !in ConsumedDuring(host, cfg, know, future, ys)
    ensures ImageOf(c, During(host, cfg, past, xs), j) in Images(tx.inputs) ==>
              TransferError(host, cfg, During(host, cfg, future, ys), tx).Some?
  {
    var s, t := During(host, cfg, past, xs), During(host, cfg, future, ys);
    NoDoubleSpend(host, cfg, past, xs);
    NoDoubleSpend(host, cfg, future, ys);
    LaterAdds(host, cfg, know, past, xs, future, ys);
    LaterExtends(host, cfg, past, xs, future, ys);
    assert ImageOf(c, s, j) in t.keyImages;
    if RunBooks(host, cfg, c, open, know, future, ys) {
      MoreSpendsPassBy(c, s, t, SpentDuring(host, cfg, past, xs), ConsumedDuring(host, cfg, know, past, xs),
                       SpentDuring(host, cfg, future, ys), ConsumedDuring(host, cfg, know, future, ys), j);
    }
    if ImageOf(c, s, j) in Images(tx.inputs) {
      SpentImagesRefused(host, cfg, t, tx, ImageOf(c, s, j));
    }
  }

  // ---- live and stuck value -----------------------------------------------

  /** Total value of the outputs `0..n` that can still be spent. */
  function Live(c: Suite, open: Known, s: State, n: nat): nat {
    if n == 0 then 0 else Live(c, open, s, n - 1) + if Dead(c, s, n - 1) then 0 else Value(open, s, n - 1)
  }

  /** Total value of the outputs `0..n` that are dead without having been consumed. */
  ghost function Stuck(c: Suite, open: Known, s: State, consumed: seq<nat>, n: nat): nat {
    if n == 0 then 0
    else Stuck(c, open, s, consumed, n - 1) + if Dead(c, s, n - 1) && n - 1 !in consumed then Value(open, s, n - 1) else 0
  }

  lemma {:induction false} UnspentSplits(c: Suite, open: Known, s: State, spent: seq<Bytes32>, consumed: seq<nat>, n: nat)
    requires Books(c, open, s, spent, consumed) && SpendsRecorded(s, spent)
    ensures Unspent(open, s, Used(consumed), n) == Live(c, open, s, n) + Stuck(c, open, s, consumed, n)
  {
    if n > 0 {
      UnspentSplits(c, open, s, spent, consumed, n - 1);
      ConsumedIsDead(c, open, s, spent, consumed, n - 1);
    }
  }

  lemma ConsumedIsDead(c: Suite, open: Known, s: State, spent: seq<Bytes32>, consumed: seq<nat>, j: nat)
    requires Books(c, open, s, spent, consumed) && SpendsRecorded(s, spent)
    ensures j in Used(consumed) <==> j in consumed
    ensures j in consumed ==> Dead(c, s, j)
  {
    if j in consumed {
      var k: nat :| k < |consumed| && consumed[k] == j;
      assert Consumed(c, s, spent, consumed, k);
      assert spent[k] in spent;
    }
  }

  /** Supply: in every run with books, what can still be spent, what is stuck and the pending fees add
    * up to what was emitted. What can be spent is a function of the stored outputs and key images.
    */
  lemma SupplySplits(host: Host, cfg: Config, c: Suite, open: Known, know: Signers, past: seq<Block>, xs: Block)
    requires RunBooks(host, cfg, c, open, know, past, xs)
    ensures var s := During(host, cfg, past, xs);
            Live(c, open, s, s.nextOutputIndex) + Stuck(c, open, s, ConsumedDuring(host, cfg, know, past, xs), s.nextOutputIndex)
            + s.blockFees == s.emitted
  {
    var s := During(host, cfg, past, xs);
    NoDoubleSpend(host, cfg, past, xs);
    UnspentSplits(c, open, s, SpentDuring(host, cfg, past, xs), ConsumedDuring(host, cfg, know, past, xs), s.nextOutputIndex);
  }

  /** An output of value that was not consumed although a consumed one has its key image. */
  ghost predicate Lost(c: Suite, open: Known, s: State, consumed: seq<nat>, j: nat) {
    j in s.outputs && j !in consumed && Value(open, s, j) > 0 && Shared(c, s, consumed, j)
  }

  lemma {:induction false} StuckIsLost(c: Suite, open: Known, s: State, spent: seq<Bytes32>, consumed: seq<nat>, n: nat)
    requires Books(c, open, s, spent, consumed) && SpendsRecorded(s, spent)
    ensures Stuck(c, open, s, consumed, n) == 0 <==> forall j: nat :: j < n ==> !Lost(c, open, s, consumed, j)
  {
    if n > 0 {
      StuckIsLost(c, open, s, spent, consumed, n - 1);
      if n - 1 in s.outputs {
        DeadMeansShared(c, open, s, spent, consumed, n - 1);
      }
      assert Lost(c, open, s, consumed, n - 1) <==> Dead(c, s, n - 1) && n - 1 !in consumed && Value(open, s, n - 1) > 0;
    }
  }

  /** All of the emitted supply outside the pending fees can still be spent exactly when no output of
    * value shares its key image with a consumed one.
    */
  lemma SupplyIsLive(host: Host, cfg: Config, c: Suite, open: Known, know: Signers, past: seq<Block>, xs: Block)
    requires RunBooks(host, cfg, c, open, know, past, xs)
    ensures var s := During(host, cfg, past, xs);
            Live(c, open, s, s.nextOutputIndex) + s.blockFees == s.emitted <==>
            forall j: nat :: j < s.nextOutputIndex ==> !Lost(c, open, s, ConsumedDuring(host, cfg, know, past, xs), j)
  {
    var s := During(host, cfg, past, xs);
    SupplySplits(host, cfg, c, open, know, past, xs);
    NoDoubleSpend(host, cfg, past, xs);
    StuckIsLost(c, open, s, SpentDuring(host, cfg, past, xs), ConsumedDuring(host, cfg, know, past, xs), s.nextOutputIndex);
  }

  // ---- a run with a stuck output ------------------------------------------

  /** A coinbase with two outputs to one key. */
  function TwoToOneKey(key: Bytes32, a: u64, b: u64): Extrinsic {
    CoinbaseCall([CoinbaseOutput(key, a, 0), CoinbaseOutput(key, b, 0)], key)
  }

  lemma TotalSnoc(outs: seq<CoinbaseOutput>, out: CoinbaseOutput)
    ensures CoinbaseTotal(outs + [out]) == CoinbaseTotal(outs) + out.amount
  {
    assert (outs + [out])[..|outs|] == outs;
  }

  lemma TwoOutputsAccepted(host: Host, s: State, key: Bytes32, a: u64, b: u64)
    requires (host.isValidPoint)(key) && a > 0 && b > 0 && !s.coinbaseDone && s.emitted == s.blockFees == 0
    requires a + b == BlockReward(0)
    ensures CoinbaseError(host, s, TwoToOneKey(key, a, b).outs, key) == None
  {
    var first, second := CoinbaseOutput(key, a, 0), CoinbaseOutput(key, b, 0);
    assert [first, second][1..] == [second] && [second][1..] == [];
    assert CoinbaseOutputsError(host, [second], a) == None;
    assert CoinbaseOutputsError(host, [first, second], 0) == None;
    TotalSnoc([], first);
    TotalSnoc([first], second);
    assert [] + [first] == [first] && [first] + [second] == [first, second];
  }

  /** Output `i` of `s` is a public one of `amount` to `key`. */
  predicate PublicOutput(s: State, i: nat, key: Bytes32, amount: u64) {
    i in s.outputs && s.outputs[i].key == key && s.outputs[i].amount == Some(amount)
  }

  lemma TwoStored(host: Host, s: State, key: Bytes32, a: u64, b: u64)
    requires (host.isValidPoint)(key) && a > 0 && b > 0 && !s.coinbaseDone && s.emitted == s.blockFees == s.nextOutputIndex == 0
    requires a + b == BlockReward(0)
    ensures var r := Coinbase(host, s, TwoToOneKey(key, a, b).outs, key);
            r.Ok? && r.state.nextOutputIndex == 2 && PublicOutput(r.state, 0, key, a) && PublicOutput(r.state, 1, key, b)
  {
    var outs := TwoToOneKey(key, a, b).outs;
    TwoOutputsAccepted(host, s, key, a, b);
    var paid := s.(blockFees := 0, emitted := s.emitted + BlockReward(s.emitted), coinbaseDone := true);
    MintAllPlaces(host.blake, paid, CoinbaseOutputs(host, s.now, outs, key), 0);
    MintAllPlaces(host.blake, paid, CoinbaseOutputs(host, s.now, outs, key), 1);
  }

  lemma FirstExtrinsic(host: Host, cfg: Config, x: Extrinsic)
    ensures During(host, cfg, [], []) == Initialize(Genesis(host.blake))
    ensures During(host, cfg, [], [x]) == Dispatch(host, cfg, During(host, cfg, [], []), x)
  {
    assert [x][..0] == [];
  }

  lemma TwoOutputs(h: Merkle.Hash, cfg: Config, s: State)
    requires TreeInv(h, cfg, s) && s.nextOutputIndex == 2
    ensures s.outputs.Keys == {0, 1}
  {
  }

  /** The first block may pay its reward to one key twice: the chain accepts it, and both outputs have
    * one key image.
    */
  lemma SharedKeyAccepted(c: Suite, bp: Bulletproofs, cfg: Config, key: Bytes32, a: u64, b: u64)
    requires c.IsValidPoint(key) && a > 0 && b > 0 && a + b == BlockReward(0)
    ensures var host, x := NativeHost(c, bp), TwoToOneKey(key, a, b);
            var s := During(host, cfg, [], [x]);
            && Call(host, cfg, During(host, cfg, [], []), x).Ok? && s.outputs.Keys == {0, 1}
            && PublicOutput(s, 0, key, a) && PublicOutput(s, 1, key, b) && ImageOf(c, s, 0) == ImageOf(c, s, 1)
  {
    var host, x := NativeHost(c, bp), TwoToOneKey(key, a, b);
    FirstExtrinsic(host, cfg, x);
    TwoStored(host, During(host, cfg, [], []), key, a, b);
    RunKeepsTree(host, cfg, [], [x]);
    TwoOutputs(c.blake, cfg, During(host, cfg, [], [x]));
  }

  /** From then on, in whatever run: once one of the two is spent the other is lost. */
  lemma SharedKeyIsLost(c: Suite, bp: Bulletproofs, cfg: Config, open: Known, know: Signers, key: Bytes32, a: u64, b: u64,
                        future: seq<Block>, ys: Block)
    requires c.IsValidPoint(key) && a > 0 && b > 0 && a + b == BlockReward(0)
    requires Later([], [TwoToOneKey(key, a, b)], future, ys) && RunBooks(NativeHost(c, bp), cfg, c, open, know, future, ys)
    requires 0 in ConsumedDuring(NativeHost(c, bp), cfg, know, future, ys)
    ensures Lost(c, open, During(NativeHost(c, bp), cfg, future, ys), ConsumedDuring(NativeHost(c, bp), cfg, know, future, ys), 1)
  {
    var host, x := NativeHost(c, bp), TwoToOneKey(key, a, b);
    var consumed := ConsumedDuring(host, cfg, know, future, ys);
    SharedKeyAccepted(c, bp, cfg, key, a, b);
    LaterExtends(host, cfg, [], [x], future, ys);
    if 1 in consumed {
      OneSpendPerImage(host, cfg, c, open, know, future, ys, 0, 1);
    }
    var k :| 0 <= k < |consumed| && consumed[k] == 0;
  }
}

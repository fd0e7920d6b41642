/** What an accepted transfer's proofs are tied to, and what acceptance and admission mean. */
module ProofBinding {
  import opened Bytes
  import opened Limits
  import opened Group
  import opened Hosts
  import opened Clsag
  import opened ClsagBinding
  import opened FcmpCodec
  import opened Native
  import opened Transactions
  import opened Pallet
  import opened Spends
  import Fcmp
  import Emission

  /** The string behind the first scalar of input `i`'s signature. */
  ghost function SpendString(c: Suite, tx: TransferTx, i: nat): Bytes
    requires i < |tx.inputs|
  {
    var input, msg := tx.inputs[i], SigningHash(c.blake, tx);
    if Parse(input.proof).Some? && Verifies(c, msg, Fcmp.RingBlob(Parse(input.proof).value.ring), input.pseudo, input.keyImage,
                                            Parse(input.proof).value.clsag, MAX_FCMP_RING) then
      LastString(c, msg, Fcmp.RingBlob(Parse(input.proof).value.ring), input.pseudo, input.keyImage, Parse(input.proof).value.clsag)
    else []
  }

  /** The signature of every input of an accepted transfer verifies over its signing hash. */
  lemma AcceptedVerifies(c: Suite, bp: Bulletproofs, cfg: Config, s: State, tx: TransferTx, i: nat)
    requires TransferError(NativeHost(c, bp), cfg, s, tx) == None && i < |tx.inputs|
    ensures var input := tx.inputs[i];
            && Parse(input.proof).Some?
            && Verifies(c, SigningHash(c.blake, tx), Fcmp.RingBlob(Parse(input.proof).value.ring), input.pseudo, input.keyImage,
                        Parse(input.proof).value.clsag, MAX_FCMP_RING)
  {
    UnspentInputs(NativeHost(c, bp), s, tx, tx.inputs, i);
  }

  /** The host's signature check is the CLSAG of at most 64 members. */
  lemma NativeSignature(c: Suite, bp: Bulletproofs, msg: Bytes, blob: Bytes, pseudo: Bytes, keyImage: Bytes, sig: Bytes)
    ensures (NativeHost(c, bp).clsag)(msg, blob, pseudo, keyImage, sig) <==> Verifies(c, msg, blob, pseudo, keyImage, sig, 64)
    ensures (NativeHost(c, bp).clsag)(msg, blob, pseudo, keyImage, sig) ==> 64 <= |blob| <= 4096 && |sig| == |blob| / 2 + 64
  {
  }

  /** A proof serves one transfer: if two accepted transfers carry the same proof, for any of their
    * inputs, they agree on root, key images, C', outputs, transaction key and fee; or their two signed
    * strings share a digest; or the strings behind the proof's first scalar share a scalar.
    */
  lemma ProofServesOneTransfer(c: Suite, bp: Bulletproofs, cfg: Config, s: State, a: TransferTx, i: nat,
                               cfg': Config, s': State, b: TransferTx, j: nat)
    requires c.Canonical()
    requires TransferError(NativeHost(c, bp), cfg, s, a) == None && TransferError(NativeHost(c, bp), cfg', s', b) == None
    requires i < |a.inputs| && j < |b.inputs| && a.inputs[i].proof == b.inputs[j].proof
    ensures SameSigned(a, b) || DigestClash(c.blake, SigningPreimage(a), SigningPreimage(b)) ||
            ScalarClash(c, SpendString(c, a, i), SpendString(c, b, j))
  {
    AcceptedVerifies(c, bp, cfg, s, a, i);
    AcceptedVerifies(c, bp, cfg', s', b, j);
    var p := Parse(a.inputs[i].proof).value;
    SignaturePins(c, SigningHash(c.blake, a), Fcmp.RingBlob(p.ring), a.inputs[i].pseudo, a.inputs[i].keyImage, p.clsag,
                  SigningHash(c.blake, b), Fcmp.RingBlob(p.ring), b.inputs[j].pseudo, b.inputs[j].keyImage, p.clsag, MAX_FCMP_RING);
    SigningHashBinds(c.blake, a, b);
  }

  // ---- the pool -----------------------------------------------------------

  lemma {:induction false} NoInputRefusedExactly(s: State, inputs: seq<FcmpInput>)
    ensures InputRefusal(s, inputs) == None <==>
            forall i :: 0 <= i < |inputs| ==> |inputs[i].proof| <= 12288 && inputs[i].keyImage !in s.keyImages
  {
    if inputs != [] {
      NoInputRefusedExactly(s, inputs[1..]);
      assert forall i :: 0 < i < |inputs| ==> inputs[i] == inputs[1..][i - 1];
      assert forall i :: 0 <= i < |inputs| - 1 ==> inputs[1..][i] == inputs[i + 1];
    }
  }

  /** Exactly what the pool lets in: transfers of one to four inputs with outputs, whose fee is at least
    * the byte rate, whose proofs fit, whose key images are unspent, and whose root is the live one or
    * one recorded at most 64 blocks ago.
    */
  lemma AuthorizedExactly(cfg: Config, s: State, tx: TransferTx)
    ensures AuthorizeRefusal(cfg, s, tx) == None <==>
            && 1 <= |tx.inputs| <= 4 && tx.outputs != []
            && (tx.fee >= cfg.minFeePerByte * |TransferBytes(tx)| || tx.fee == 0xFFFF_FFFF_FFFF_FFFF)
            && (forall i :: 0 <= i < |tx.inputs| ==> |tx.inputs[i].proof| <= 12288 && tx.inputs[i].keyImage !in s.keyImages)
            && (tx.root == s.root || exists n: nat :: n in s.rootAt && s.now - 64 <= n <= s.now && s.rootAt[n] == tx.root)
  {
    NoInputRefusedExactly(s, tx.inputs);
    RootAcceptedExactly(s, tx.root);
  }

  lemma RootAcceptedExactly(s: State, root: Bytes32)
    ensures RootAccepted(s, root) <==>
            root == s.root || exists n: nat :: n in s.rootAt && s.now - 64 <= n <= s.now && s.rootAt[n] == root
  {
  }

  /** What `verify_transfer` asks of one input. */
  ghost predicate InputHolds(host: Host, s: State, tx: TransferTx, input: FcmpInput) {
    && |input.proof| <= 12288 && input.keyImage !in s.keyImages
    && (host.isValidPoint)(input.keyImage) && (host.isValidPoint)(input.pseudo)
    && Fcmp.Accepts(host, SigningHash(host.blake, tx), tx.root, input.pseudo, input.keyImage, input.proof)
  }

  lemma {:induction false} InputsHold(host: Host, s: State, tx: TransferTx, inputs: seq<FcmpInput>)
    ensures InputsError(host, s, tx, inputs) == None <==> forall i :: 0 <= i < |inputs| ==> InputHolds(host, s, tx, inputs[i])
  {
    if inputs != [] {
      InputsHold(host, s, tx, inputs[1..]);
      assert forall i :: 0 < i < |inputs| ==> inputs[i] == inputs[1..][i - 1];
      assert forall i :: 0 <= i < |inputs| - 1 ==> inputs[1..][i] == inputs[i + 1];
      InputHoldsExactly(host, s, tx, inputs[0]);
    }
  }

  lemma InputHoldsExactly(host: Host, s: State, tx: TransferTx, input: FcmpInput)
    ensures InputError(host, s, tx, input) == None <==> InputHolds(host, s, tx, input)
  {
  }

  /** The checks on the transfer as a whole, in numbers. */
  ghost predicate ShapeHolds(host: Host, cfg: Config, s: State, tx: TransferTx) {
    && 1 <= |tx.inputs| <= 4 && 1 <= |tx.outputs|
    && (forall i :: 0 < i < |tx.inputs| ==> Less(tx.inputs[i - 1].keyImage, tx.inputs[i].keyImage))
    && (tx.fee >= cfg.minFeePerByte * |TransferBytes(tx)| || tx.fee == 0xFFFF_FFFF_FFFF_FFFF)
    && (host.isValidPoint)(tx.txPubkey) && (forall j :: 0 <= j < |tx.outputs| ==> (host.isValidPoint)(tx.outputs[j].key))
    && s.treeSlots <= 64
    && (tx.root == s.root || exists n: nat :: n in s.rootAt && s.now - 64 <= n <= s.now && s.rootAt[n] == tx.root)
  }

  /** The same checks as the rule makes them. */
  ghost predicate ShapeChecked(host: Host, cfg: Config, s: State, tx: TransferTx) {
    && tx.inputs != [] && tx.outputs != [] && |tx.inputs| <= MAX_FCMP_INPUTS && SortedUnique(tx.inputs)
    && tx.fee >= FeeFloor(cfg, tx) && (host.isValidPoint)(tx.txPubkey) && OutputKeysValid(host, tx.outputs)
    && s.treeSlots <= MAX_FCMP_ANON_SET && RootAccepted(s, tx.root)
  }

  lemma ShapeExactly(host: Host, cfg: Config, s: State, tx: TransferTx)
    ensures ShapeChecked(host, cfg, s, tx) <==> ShapeHolds(host, cfg, s, tx)
  {
    RootAcceptedExactly(s, tx.root);
  }

  lemma NoErrorExactly(host: Host, cfg: Config, s: State, tx: TransferTx)
    ensures TransferError(host, cfg, s, tx) == None <==>
            && ShapeChecked(host, cfg, s, tx) && InputsError(host, s, tx, tx.inputs) == None
            && (host.balance)(Flatten(Pseudos(tx.inputs)), Flatten(CommitmentList(tx.outputs)), tx.fee)
            && (host.range)(tx.rangeProof, Flatten(CommitmentList(tx.outputs)))
  {
  }

  /** Exactly what `verify_transfer` accepts. */
  lemma AcceptedExactly(host: Host, cfg: Config, s: State, tx: TransferTx)
    ensures TransferError(host, cfg, s, tx) == None <==>
            && ShapeHolds(host, cfg, s, tx)
            && (forall i :: 0 <= i < |tx.inputs| ==> InputHolds(host, s, tx, tx.inputs[i]))
            && (host.balance)(Flatten(Pseudos(tx.inputs)), Flatten(CommitmentList(tx.outputs)), tx.fee)
            && (host.range)(tx.rangeProof, Flatten(CommitmentList(tx.outputs)))
  {
    NoErrorExactly(host, cfg, s, tx);
    ShapeExactly(host, cfg, s, tx);
    InputsHold(host, s, tx, tx.inputs);
  }

  /** What a transaction may hold at all. */
  lemma BoundedExactly(tx: TransferData)
    ensures tx.Bounded() <==>
            && |tx.inputs| <= 4 && |tx.outputs| <= 8 && |tx.rangeProof| <= 1024
            && (forall i :: 0 <= i < |tx.inputs| ==> |tx.inputs[i].proof| <= 12288)
            && (forall j :: 0 <= j < |tx.outputs| ==> |tx.outputs[j].payload| <= 80)
  {
  }

  lemma {:induction false} CoinbaseOutputsHold(host: Host, outs: seq<CoinbaseOutput>, total: nat)
    requires total + CoinbaseTotalFront(outs) < U64_BOUND
    ensures CoinbaseOutputsError(host, outs, total) == None <==>
            forall j :: 0 <= j < |outs| ==> outs[j].amount > 0 && (host.isValidPoint)(outs[j].key)
  {
    if outs != [] {
      if total + outs[0].amount < U64_BOUND {
        CoinbaseOutputsHold(host, outs[1..], total + outs[0].amount);
      }
      assert forall j :: 0 < j < |outs| ==> outs[j] == outs[1..][j - 1];
      assert forall j :: 0 <= j < |outs| - 1 ==> outs[1..][j] == outs[j + 1];
    }
  }

  /** The amounts added from the front. */
  function CoinbaseTotalFront(outs: seq<CoinbaseOutput>): nat {
    if outs == [] then 0 else outs[0].amount + CoinbaseTotalFront(outs[1..])
  }

  lemma {:induction false} TotalsAgree(outs: seq<CoinbaseOutput>)
    ensures CoinbaseTotalFront(outs) == CoinbaseTotal(outs)
  {
    if outs != [] {
      TotalFromFront(outs);
      TotalsAgree(outs[1..]);
    }
  }

  lemma {:induction false} TotalFromFront(outs: seq<CoinbaseOutput>)
    requires outs != []
    ensures CoinbaseTotal(outs) == outs[0].amount + CoinbaseTotal(outs[1..])
  {
    var most := outs[..|outs| - 1];
    if |outs| == 1 {
      assert most == [] && outs[1..] == [];
    } else {
      TotalFromFront(most);
      assert most[1..] == outs[1..][..|outs| - 2];
    }
  }

  /** Exactly which coinbases are accepted: the first of its block, with outputs of positive amounts to
    * valid keys, that pays the reward on the rate and the pending fees, while the supply fits 64 bits.
    */
  lemma CoinbaseAcceptedExactly(host: Host, s: State, outs: seq<CoinbaseOutput>, txPubkey: Bytes32)
    ensures CoinbaseError(host, s, outs, txPubkey) == None <==>
            && !s.coinbaseDone && outs != [] && (host.isValidPoint)(txPubkey)
            && (forall j :: 0 <= j < |outs| ==> outs[j].amount > 0 && (host.isValidPoint)(outs[j].key))
            && Emission.OnRate(s.emitted, CoinbaseTotal(outs) - s.blockFees)
            && CoinbaseTotal(outs) < U64_BOUND && s.emitted + CoinbaseTotal(outs) - s.blockFees < U64_BOUND
  {
    CoinbaseNoError(host, s, outs, txPubkey);
    Emission.RewardIsOnRate(s.emitted, CoinbaseTotal(outs) - s.blockFees);
    if CoinbaseTotal(outs) < U64_BOUND {
      OutputsOfCoinbase(host, outs);
    }
  }

  lemma CoinbaseNoError(host: Host, s: State, outs: seq<CoinbaseOutput>, txPubkey: Bytes32)
    ensures CoinbaseError(host, s, outs, txPubkey) == None <==>
            && !s.coinbaseDone && outs != [] && (host.isValidPoint)(txPubkey) && CoinbaseOutputsError(host, outs, 0) == None
            && Emission.BlockReward(s.emitted) == CoinbaseTotal(outs) - s.blockFees
            && CoinbaseTotal(outs) < U64_BOUND && s.emitted + CoinbaseTotal(outs) - s.blockFees < U64_BOUND
  {
  }

  lemma OutputsOfCoinbase(host: Host, outs: seq<CoinbaseOutput>)
    requires CoinbaseTotal(outs) < U64_BOUND
    ensures CoinbaseOutputsError(host, outs, 0) == None <==>
            forall j :: 0 <= j < |outs| ==> outs[j].amount > 0 && (host.isValidPoint)(outs[j].key)
  {
    TotalsAgree(outs);
    CoinbaseOutputsHold(host, outs, 0);
  }

  /** An accepted transfer pays the byte rate for its whole encoding, up to the largest amount. */
  lemma AcceptedPays(host: Host, cfg: Config, s: State, tx: TransferTx)
    requires TransferError(host, cfg, s, tx) == None
    ensures tx.fee >= cfg.minFeePerByte * |TransferBytes(tx)| || tx.fee == 0xFFFF_FFFF_FFFF_FFFF
  {
  }
}

/** Reading SCALE back: the encoding of a transfer determines the transfer. */
module ScaleCodec {
  import opened Bytes
  import opened Limits
  import opened Transactions

  /** A value and the bytes after it. */
  type Read<T> = Option<(T, Bytes)>

  function Take(b: Bytes, n: nat): Read<Bytes> {
    if |b| < n then None else Some((b[..n], b[n..]))
  }

  /** Compact lengths of the one-byte and two-byte modes, the only ones below 2^14. */
  function ReadCompact(b: Bytes): Read<nat> {
    if |b| >= 1 && b[0] % 4 == 0 then Some((b[0] as int / 4, b[1..]))
    else if |b| >= 2 && b[0] % 4 == 1 then Some(((b[0] as int + 256 * b[1] as int) / 4, b[2..]))
    else None
  }

  function ReadVec(b: Bytes): Read<Bytes> {
    match ReadCompact(b)
    case None => None
    case Some((n, rest)) => Take(rest, n)
  }

  function ReadOutput(b: Bytes): Read<Output> {
    if |b| < 65 then None
    else match ReadVec(b[65..])
      case None => None
      case Some((payload, rest)) => Some((Output(b[..32], b[32..64], b[64], payload), rest))
  }

  function ReadInput(b: Bytes): Read<FcmpInput> {
    if |b| < 64 then None
    else match ReadVec(b[64..])
      case None => None
      case Some((proof, rest)) => Some((FcmpInput(b[..32], b[32..64], proof), rest))
  }

  function ReadOutputs(b: Bytes, n: nat): Read<seq<Output>> {
    if n == 0 then Some(([], b))
    else match ReadOutput(b)
      case None => None
      case Some((first, rest)) =>
        match ReadOutputs(rest, n - 1)
        case None => None
        case Some((more, end)) => Some(([first] + more, end))
  }

  function ReadInputs(b: Bytes, n: nat): Read<seq<FcmpInput>> {
    if n == 0 then Some(([], b))
    else match ReadInput(b)
      case None => None
      case Some((first, rest)) =>
        match ReadInputs(rest, n - 1)
        case None => None
        case Some((more, end)) => Some(([first] + more, end))
  }

  /** What follows the outputs: transaction key, range proof, fee, and nothing else. */
  function ReadTail(b: Bytes): Option<(Bytes32, Bytes, u64)> {
    if |b| < 32 then None
    else match ReadVec(b[32..])
      case None => None
      case Some((rangeProof, rest)) =>
        if |rest| == 8 && FromLe(rest) < U64_BOUND then Some((b[..32], rangeProof, FromLe(rest))) else None
  }

  function ReadTransfer(b: Bytes): Option<TransferData> {
    if |b| < 32 then None
    else match ReadCompact(b[32..])
      case None => None
      case Some((ins, afterIns)) =>
        match ReadInputs(afterIns, ins)
        case None => None
        case Some((inputs, afterInputs)) =>
          match ReadCompact(afterInputs)
          case None => None
          case Some((outs, afterOuts)) =>
            match ReadOutputs(afterOuts, outs)
            case None => None
            case Some((outputs, rest)) =>
              match ReadTail(rest)
              case None => None
              case Some((txPubkey, rangeProof, fee)) => Some(TransferData(b[..32], inputs, outputs, txPubkey, rangeProof, fee))
  }

  // ---- round trips --------------------------------------------------------

  /** Cut `a + x` after `a`. */
  lemma Cut(a: Bytes, x: Bytes)
    ensures (a + x)[..|a|] == a && (a + x)[|a|..] == x
  {
  }

  lemma CompactReads(n: nat, x: Bytes)
    requires n < 0x4000
    ensures ReadCompact(Compact(n) + x) == Some((n, x))
  {
    CompactLength(n);
    Cut(Compact(n), x);
    var b := Compact(n) + x;
    if n >= 64 {
      assert ToLe(4 * n + 1, 2) == [((4 * n + 1) % 256) as byte] + ToLe((4 * n + 1) / 256, 1);
      assert ToLe((4 * n + 1) / 256, 1) == [((4 * n + 1) / 256 % 256) as byte] + ToLe((4 * n + 1) / 256 / 256, 0);
      assert b[0] as int == (4 * n + 1) % 256 && b[1] as int == (4 * n + 1) / 256;
    } else {
      assert b[0] as int == 4 * n;
    }
  }

  lemma VecReads(v: Bytes, x: Bytes)
    requires |v| < 0x4000
    ensures ReadVec(VecBytes(v) + x) == Some((v, x))
  {
    ConcatAssoc(Compact(|v|), v, x);
    CompactReads(|v|, v + x);
    Cut(v, x);
  }

  lemma OutputReads(o: Output, x: Bytes)
    requires |o.payload| <= MAX_PAYLOAD_BYTES
    ensures ReadOutput(OutputBytes(o) + x) == Some((o, x))
  {
    var b, tail := OutputBytes(o) + x, VecBytes(o.payload) + x;
    assert b == o.key + (o.commitment + ([o.viewTag] + tail));
    assert b[..32] == o.key && b[32..64] == o.commitment && b[64] == o.viewTag && b[65..] == tail;
    VecReads(o.payload, x);
  }

  lemma InputReads(i: FcmpInput, x: Bytes)
    requires |i.proof| <= MAX_FCMP_PROOF_BYTES
    ensures ReadInput(InputBytes(i) + x) == Some((i, x))
  {
    var b, tail := InputBytes(i) + x, VecBytes(i.proof) + x;
    assert b == i.keyImage + (i.pseudo + tail);
    assert b[..32] == i.keyImage && b[32..64] == i.pseudo && b[64..] == tail;
    VecReads(i.proof, x);
  }

  lemma {:induction false} OutputsRead(outs: seq<Output>, x: Bytes)
    requires forall j :: 0 <= j < |outs| ==> |outs[j].payload| <= MAX_PAYLOAD_BYTES
    ensures ReadOutputs(OutputList(outs) + x, |outs|) == Some((outs, x))
  {
    if outs == [] {
      assert OutputList(outs) + x == x;
    } else {
      ConcatAssoc(OutputBytes(outs[0]), OutputList(outs[1..]), x);
      OutputReads(outs[0], OutputList(outs[1..]) + x);
      OutputsRead(outs[1..], x);
      assert [outs[0]] + outs[1..] == outs;
    }
  }

  lemma {:induction false} InputsRead(inputs: seq<FcmpInput>, x: Bytes)
    requires forall j :: 0 <= j < |inputs| ==> |inputs[j].proof| <= MAX_FCMP_PROOF_BYTES
    ensures ReadInputs(InputList(inputs) + x, |inputs|) == Some((inputs, x))
  {
    if inputs == [] {
      assert InputList(inputs) + x == x;
    } else {
      ConcatAssoc(InputBytes(inputs[0]), InputList(inputs[1..]), x);
      InputReads(inputs[0], InputList(inputs[1..]) + x);
      InputsRead(inputs[1..], x);
      assert [inputs[0]] + inputs[1..] == inputs;
    }
  }

  lemma TailReads(txPubkey: Bytes32, rangeProof: Bytes, fee: u64)
    requires |rangeProof| <= MAX_RANGE_PROOF_BYTES
    ensures ReadTail(txPubkey + (VecBytes(rangeProof) + ToLe(fee, 8))) == Some((txPubkey, rangeProof, fee))
  {
    Cut(txPubkey, VecBytes(rangeProof) + ToLe(fee, 8));
    VecReads(rangeProof, ToLe(fee, 8));
    LeWidths();
    FromToLe(fee, 8);
  }

  /** The encoding of a transfer reads back as the transfer. */
  lemma TransferReads(tx: TransferTx)
    ensures ReadTransfer(TransferBytes(tx)) == Some(tx)
  {
    var tail := tx.txPubkey + (VecBytes(tx.rangeProof) + ToLe(tx.fee, 8));
    var outs := OutputList(tx.outputs) + tail;
    var ins := InputList(tx.inputs) + (Compact(|tx.outputs|) + outs);
    Cut(tx.root, Compact(|tx.inputs|) + ins);
    CompactReads(|tx.inputs|, ins);
    InputsRead(tx.inputs, Compact(|tx.outputs|) + outs);
    CompactReads(|tx.outputs|, outs);
    OutputsRead(tx.outputs, tail);
    TailReads(tx.txPubkey, tx.rangeProof, tx.fee);
  }
}

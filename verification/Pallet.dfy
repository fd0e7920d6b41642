/** The consensus rules as functions on the pallet's storage: one function per extrinsic and hook. */
module Pallet {
  import opened Bytes
  import opened Limits
  import opened Merkle
  import opened Hosts
  import opened Transactions
  import opened Emission
  import Fcmp

  const ADMIT_MAX: nat := 64
  const CATCHUP_MAX: nat := 64
  const ROOT_MAX_AGE: nat := 64

  datatype Config = Config(spendableAge: nat, coinbaseMaturity: nat, minFeePerByte: u64)

  /** The pallet's storage and the current block number. */
  datatype State = State(
    now: nat,
    outputs: map<nat, StoredOutput>,
    nextOutputIndex: nat,
    keyImages: set<Bytes32>,
    emitted: u64,
    blockFees: u64,
    coinbaseDone: bool,
    treeSlots: nat,
    digests: map<nat, Bytes32>,
    admitted: set<nat>,
    cursor: nat,
    root: Bytes32,
    rootAt: map<nat, Bytes32>)

  datatype Error =
    | EmptyInputsOrOutputs | InputsNotSortedUnique | KeyImageAlreadySpent | InvalidPoint | FcmpInvalid | RootStale
    | FcmpProofTooLarge | TooManyInputs | TreeTooLargeForFcmp | BalanceCheckFailed | RangeProofInvalid | FeeTooLow
    | ArithmeticOverflow | CoinbaseAlreadyIncluded | CoinbaseAmountInvalid

  datatype Result = Ok(state: State) | Err(error: Error)

  /** Empty storage before block 1. */
  function Genesis(h: Hash): State {
    State(0, map[], 0, {}, 0, 0, false, 0, map[], {}, 0, EmptyChild(h), map[])
  }

  // ---- the membership tree ------------------------------------------------

  /** The leaf digests of slots `0..slots`; one never written counts as EMPTY. */
  function DigestList(h: Hash, digests: map<nat, Bytes32>, slots: nat): (ds: seq<Bytes32>)
    ensures |ds| == slots
  {
    seq(slots, i requires 0 <= i => if i in digests then digests[i] else EmptyLeafHash(h))
  }

  function Refresh(h: Hash, s: State): State {
    s.(root := Root(h, DigestList(h, s.digests, s.treeSlots)))
  }

  function GrowEmpty(h: Hash, s: State): State {
    s.(digests := s.digests[s.treeSlots := EmptyLeafHash(h)], treeSlots := s.treeSlots + 1)
  }

  function MaybeGrow(h: Hash, s: State, index: nat): State {
    if s.treeSlots != index then s else Refresh(h, GrowEmpty(h, s))
  }

  /** Store one output at the next index, growing the tree if it is level with the outputs. */
  function Mint(h: Hash, s: State, out: StoredOutput): State {
    MaybeGrow(h, s.(outputs := s.outputs[s.nextOutputIndex := out]), s.nextOutputIndex)
    .(nextOutputIndex := s.nextOutputIndex + 1)
  }

  function MintAll(h: Hash, s: State, outs: seq<StoredOutput>): State {
    if outs == [] then s else Mint(h, MintAll(h, s, outs[..|outs| - 1]), outs[|outs| - 1])
  }

  function Age(cfg: Config, out: StoredOutput): nat {
    if out.coinbase then cfg.coinbaseMaturity else cfg.spendableAge
  }

  predicate Mature(cfg: Config, out: StoredOutput, now: nat) {
    now >= out.height + Age(cfg, out)
  }

  /** What the fill scan changes. */
  datatype Fill = Fill(digests: map<nat, Bytes32>, admitted: set<nat>, cursor: nat)

  /** A slot not in `admitted` that the fill scan may admit now. */
  predicate Admissible(cfg: Config, s: State, admitted: set<nat>, i: nat) {
    i !in admitted && i in s.outputs && Mature(cfg, s.outputs[i], s.now)
  }

  function SlotLeafHash(h: Hash, s: State, i: nat): Bytes32
    requires i in s.outputs
  {
    LeafHash(h, s.outputs[i].key, s.outputs[i].commitment)
  }

  function Admit(h: Hash, s: State, f: Fill): Fill
    requires f.cursor in s.outputs
  {
    f.(digests := f.digests[f.cursor := SlotLeafHash(h, s, f.cursor)], admitted := f.admitted + {f.cursor})
  }

  function NextSlot(i: nat, slots: nat): nat {
    if i + 1 >= slots then 0 else i + 1
  }

  function Advance(s: State, f: Fill): Fill {
    f.(cursor := NextSlot(f.cursor, s.treeSlots))
  }

  /** The fill scan with `lap` slots left to visit and `budget` admissions left. */
  function Scan(h: Hash, cfg: Config, s: State, f: Fill, lap: nat, budget: nat): Fill
    decreases lap
  {
    if lap == 0 || budget == 0 then f
    else if Admissible(cfg, s, f.admitted, f.cursor) then Scan(h, cfg, s, Advance(s, Admit(h, s, f)), lap - 1, budget - 1)
    else Scan(h, cfg, s, Advance(s, f), lap - 1, budget)
  }

  function AdmitMature(h: Hash, cfg: Config, s: State): State {
    if s.treeSlots == 0 then s.(cursor := 0)
    else
      var f := Scan(h, cfg, s, Fill(s.digests, s.admitted, s.cursor % s.treeSlots), s.treeSlots, ADMIT_MAX);
      s.(digests := f.digests, admitted := f.admitted, cursor := f.cursor)
  }

  function Catchup(h: Hash, s: State, budget: nat): State
    decreases budget
  {
    if budget == 0 || s.treeSlots >= s.nextOutputIndex then s
    else Catchup(h, GrowEmpty(h, s), budget - 1)
  }

  /** Fill first, then grow, then recompute the root. */
  function Maintain(h: Hash, cfg: Config, s: State): State {
    Refresh(h, Catchup(h, AdmitMature(h, cfg, s), CATCHUP_MAX))
  }

  // ---- hooks --------------------------------------------------------------

  /** Entering the next block. */
  function Initialize(s: State): State {
    s.(now := s.now + 1, coinbaseDone := false)
  }

  function RecordRoot(s: State): State {
    var recorded := s.rootAt[s.now := s.root];
    s.(rootAt := if s.now > ROOT_MAX_AGE then recorded - {s.now - ROOT_MAX_AGE} else recorded)
  }

  function Finalize(h: Hash, cfg: Config, s: State): State {
    RecordRoot(Maintain(h, cfg, s))
  }

  // ---- coinbase -----------------------------------------------------------

  function CoinbaseTotal(outs: seq<CoinbaseOutput>): nat {
    if outs == [] then 0 else CoinbaseTotal(outs[..|outs| - 1]) + outs[|outs| - 1].amount
  }

  /** First failure met while walking a coinbase's outputs with running total `total`. */
  function CoinbaseOutputsError(host: Host, outs: seq<CoinbaseOutput>, total: nat): Option<Error> {
    if outs == [] then None
    else if outs[0].amount == 0 then Some(CoinbaseAmountInvalid)
    else if !(host.isValidPoint)(outs[0].key) then Some(InvalidPoint)
    else if total + outs[0].amount >= U64_BOUND then Some(CoinbaseAmountInvalid)
    else CoinbaseOutputsError(host, outs[1..], total + outs[0].amount)
  }

  function CoinbaseError(host: Host, s: State, outs: seq<CoinbaseOutput>, txPubkey: Bytes32): Option<Error> {
    var reward := BlockReward(s.emitted);
    if s.coinbaseDone then Some(CoinbaseAlreadyIncluded)
    else if outs == [] then Some(EmptyInputsOrOutputs)
    else if !(host.isValidPoint)(txPubkey) then Some(InvalidPoint)
    else if reward + s.blockFees >= U64_BOUND then Some(CoinbaseAmountInvalid)
    else if CoinbaseOutputsError(host, outs, 0).Some? then CoinbaseOutputsError(host, outs, 0)
    else if CoinbaseTotal(outs) != reward + s.blockFees then Some(CoinbaseAmountInvalid)
    else if s.emitted + reward >= U64_BOUND then Some(ArithmeticOverflow)
    else None
  }

  function CoinbaseStored(host: Host, out: CoinbaseOutput, txPubkey: Bytes32, height: nat): StoredOutput {
    StoredOutput(out.key, (host.valueCommitment)(out.amount), txPubkey, out.viewTag, [], Some(out.amount), height, true)
  }

  function CoinbaseOutputs(host: Host, height: nat, outs: seq<CoinbaseOutput>, txPubkey: Bytes32): (stored: seq<StoredOutput>)
    ensures |stored| == |outs|
  {
    seq(|outs|, i requires 0 <= i < |outs| => CoinbaseStored(host, outs[i], txPubkey, height))
  }

  function Coinbase(host: Host, s: State, outs: seq<CoinbaseOutput>, txPubkey: Bytes32): Result {
    match CoinbaseError(host, s, outs, txPubkey)
    case Some(e) => Err(e)
    case None =>
      var paid := s.(blockFees := 0, emitted := s.emitted + BlockReward(s.emitted), coinbaseDone := true);
      Ok(MintAll(host.blake, paid, CoinbaseOutputs(host, s.now, outs, txPubkey)))
  }

  // ---- transfer -----------------------------------------------------------

  /** `MinFeePerByte × encoded size`, saturating. */
  function FeeFloor(cfg: Config, tx: TransferTx): u64 {
    Min(cfg.minFeePerByte * EncodedSize(tx), U64_BOUND - 1)
  }

  predicate SortedUnique(inputs: seq<FcmpInput>) {
    forall i :: 0 < i < |inputs| ==> Less(inputs[i - 1].keyImage, inputs[i].keyImage)
  }

  /** The root is live, or was recorded no more than 64 blocks ago. */
  predicate RootAccepted(s: State, root: Bytes32) {
    s.root == root || exists n: nat :: n in s.rootAt && n <= s.now <= n + ROOT_MAX_AGE && s.rootAt[n] == root
  }

  ghost function InputError(host: Host, s: State, tx: TransferTx, input: FcmpInput): Option<Error> {
    if |input.proof| > MAX_FCMP_PROOF_BYTES then Some(FcmpProofTooLarge)
    else if input.keyImage in s.keyImages then Some(KeyImageAlreadySpent)
    else if !(host.isValidPoint)(input.keyImage) then Some(InvalidPoint)
    else if !(host.isValidPoint)(input.pseudo) then Some(InvalidPoint)
    else if !Fcmp.Accepts(host, SigningHash(host.blake, tx), tx.root, input.pseudo, input.keyImage, input.proof) then Some(FcmpInvalid)
    else None
  }

  ghost function InputsError(host: Host, s: State, tx: TransferTx, inputs: seq<FcmpInput>): Option<Error> {
    if inputs == [] then None
    else if InputError(host, s, tx, inputs[0]).Some? then InputError(host, s, tx, inputs[0])
    else InputsError(host, s, tx, inputs[1..])
  }

  function OutputKeysValid(host: Host, outs: seq<Output>): bool {
    forall j :: 0 <= j < |outs| ==> (host.isValidPoint)(outs[j].key)
  }

  function CommitmentList(outs: seq<Output>): (cs: seq<Bytes>)
    ensures |cs| == |outs| && AllWidth(cs, 32)
  {
    seq(|outs|, j requires 0 <= j < |outs| => outs[j].commitment)
  }

  /** The first check of `verify_transfer` that fails, in the order they are made. */
  ghost function TransferError(host: Host, cfg: Config, s: State, tx: TransferTx): Option<Error> {
    if tx.inputs == [] || tx.outputs == [] then Some(EmptyInputsOrOutputs)
    else if |tx.inputs| > MAX_FCMP_INPUTS then Some(TooManyInputs)
    else if !SortedUnique(tx.inputs) then Some(InputsNotSortedUnique)
    else if tx.fee < FeeFloor(cfg, tx) then Some(FeeTooLow)
    else if !(host.isValidPoint)(tx.txPubkey) then Some(InvalidPoint)
    else if !OutputKeysValid(host, tx.outputs) then Some(InvalidPoint)
    else if s.treeSlots > MAX_FCMP_ANON_SET then Some(TreeTooLargeForFcmp)
    else if !RootAccepted(s, tx.root) then Some(RootStale)
    else if InputsError(host, s, tx, tx.inputs).Some? then InputsError(host, s, tx, tx.inputs)
    else if !(host.balance)(Flatten(Pseudos(tx.inputs)), Flatten(CommitmentList(tx.outputs)), tx.fee) then Some(BalanceCheckFailed)
    else if !(host.range)(tx.rangeProof, Flatten(CommitmentList(tx.outputs))) then Some(RangeProofInvalid)
    else None
  }

  // ---- the pool's checks --------------------------------------------------

  /** Why the pool turns a transfer away without verifying it. */
  datatype Refusal = Payment | BadProof | Stale

  function InputRefusal(s: State, inputs: seq<FcmpInput>): Option<Refusal> {
    if inputs == [] then None
    else if |inputs[0].proof| > MAX_FCMP_PROOF_BYTES then Some(BadProof)
    else if inputs[0].keyImage in s.keyImages then Some(Stale)
    else InputRefusal(s, inputs[1..])
  }

  /** The first check of `authorize_transfer` that fails. */
  ghost function AuthorizeRefusal(cfg: Config, s: State, tx: TransferTx): Option<Refusal> {
    if tx.fee < FeeFloor(cfg, tx) then Some(Payment)
    else if tx.inputs == [] || tx.outputs == [] then Some(BadProof)
    else if |tx.inputs| > MAX_FCMP_INPUTS then Some(BadProof)
    else if InputRefusal(s, tx.inputs).Some? then InputRefusal(s, tx.inputs)
    else if !RootAccepted(s, tx.root) then Some(Stale)
    else None
  }

  function KeyImagesOf(tx: TransferTx): set<Bytes32> {
    set i: nat | i < |tx.inputs| :: tx.inputs[i].keyImage
  }

  function TransferStored(height: nat, tx: TransferTx): (stored: seq<StoredOutput>)
    ensures |stored| == |tx.outputs|
  {
    seq(|tx.outputs|, j requires 0 <= j < |tx.outputs| => StoredFrom(tx.outputs[j], tx.txPubkey, height))
  }

  function ApplyTransfer(host: Host, s: State, tx: TransferTx): Result {
    if s.blockFees + tx.fee >= U64_BOUND then Err(ArithmeticOverflow)
    else
      var spent := s.(keyImages := s.keyImages + KeyImagesOf(tx), blockFees := s.blockFees + tx.fee);
      Ok(MintAll(host.blake, spent, TransferStored(s.now, tx)))
  }

  ghost function Transfer(host: Host, cfg: Config, s: State, tx: TransferTx): Result {
    match TransferError(host, cfg, s, tx)
    case Some(e) => Err(e)
    case None => ApplyTransfer(host, s, tx)
  }

  // ---- runs ---------------------------------------------------------------

  datatype Extrinsic =
    | TransferCall(tx: TransferTx)
    | CoinbaseCall(outs: seq<CoinbaseOutput>, txPubkey: Bytes32)

  ghost function Call(host: Host, cfg: Config, s: State, x: Extrinsic): Result {
    match x
    case TransferCall(tx) => Transfer(host, cfg, s, tx)
    case CoinbaseCall(outs, txPubkey) => Coinbase(host, s, outs, txPubkey)
  }

  /** A failing extrinsic leaves the storage as it was. */
  ghost function Dispatch(host: Host, cfg: Config, s: State, x: Extrinsic): State {
    match Call(host, cfg, s, x)
    case Ok(s') => s'
    case Err(_) => s
  }

  type Block = seq<Extrinsic>

  /** Storage after the complete blocks `past`, then the start of the next block, then `xs`. */
  ghost function During(host: Host, cfg: Config, past: seq<Block>, xs: Block): State
    decreases |past|, 1, |xs|
  {
    if xs == [] then Initialize(EndOf(host, cfg, past))
    else Dispatch(host, cfg, During(host, cfg, past, xs[..|xs| - 1]), xs[|xs| - 1])
  }

  /** Storage after the complete blocks `past`, from genesis. */
  ghost function EndOf(host: Host, cfg: Config, past: seq<Block>): State
    decreases |past|, 0, 0
  {
    if past == [] then Genesis(host.blake)
    else Finalize(host.blake, cfg, During(host, cfg, past[..|past| - 1], past[|past| - 1]))
  }
}

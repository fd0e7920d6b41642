# Kohl ledger, membership proofs and wallet: a verified model

Kohl is a private-cash chain: amounts are hidden in Pedersen commitments, spends are
linkable ring signatures over the full set of mature outputs, and that set is a Merkle tree
the chain maintains as it runs. This project models that core in Dafny and proves what it
is for: money is conserved and never spent twice over every run, every accepted proof spends
a mature output, and what the wallet builds the chain accepts.

Check everything with `dafny verify dfyconfig.toml`.

## Layers

- `Bytes`, `Limits`, `Group`: byte strings and encodings, consensus limits, the scalar field
  and the prime-order group.
- `Tree`, `Merkle`, `Paths`, `SparseTree`: the padded Merkle tree, its binding, authentication
  paths and the in-memory sparse tree.
- `Clsag`, `ClsagSign`, `ClsagBinding`, `ClsagSound`, `FcmpCodec`, `Fcmp`, `FcmpProve`, `Native`,
  `Stealth`, `Domains`: ring signatures and what they bind and prove, the FCMP0001 codec, verifier
  and prover, commitments, balance and range checks, stealth keys, domain tags.
- `Transactions`, `ScaleCodec`, `Emission`, `Pallet`, `PalletMachine`, `ProofBinding`: transactions
  and their encodings, the emission curve, the consensus rules as functions on storage, the pallet as
  a class whose loops and storage updates are proved equal to those rules, and what acceptance means.
- `RoundRobin`, `TreeInvariant`, `Blocks`, `Fairness`, `RootWindow`, `Maturity`, `Spends`, `Ideal`,
  `Conservation`, `HashedStrings`, `IdealLedger`, `StuckOutputs`, `ChainPoints`: theorems about
  every run, from genesis, and about every sequence of blocks of any extrinsics, from any state
  whose tree is right.
- `WalletScan`, `WalletStaging`, `WalletBuild`, `WalletToChain`, `WalletCache`, `WalletReady`,
  `WalletSend`, `WalletBooks`: the wallet, its completeness against the chain's verifier, and
  conservation over runs of wallets.
- `Difficulty`; `Dandelion`, `DandelionHandler`: the LWMA difficulty pallet and the Dandelion++
  stem engine with its event loop.

## What the model assumes

- A run (`During`, `EndOf`) starts from empty storage at block 1; a failing extrinsic leaves
  storage unchanged. Lagging trees are covered by the step theorems, which start anywhere.
- Everything behind a host function is a field of `Host`; `NativeHost` fills it with the
  modelled verifiers. BLAKE2b, hashing to scalars and points and the range-proof library are
  parameters. Random scalars, clocks and network answers are arguments.
- No hash is assumed injective. Binding results name a finite set `strings` holding everything
  hashed on both sides and require that no two of them collide (`CollisionFree`); read the
  other way, a violation exhibits two colliding strings. For a whole run that set is computed
  (`RunStrings`) and proved to be exactly what the run hashes (`RunStringsExactly`).
- The group is cyclic of prime order, so a point is modelled by its logarithm; encodings are
  canonical as in sections 4.3.1 and 4.3.2 of RFC 9496. Code never inspects the logarithm.
- Conservation assumes nothing about commitments, signatures or range proofs. It takes any
  function `Known` naming an opening for each confidential commitment and any function `Signers`
  naming a witness (ring position, secret, re-blinding) for each signature: what somebody claims to
  know, right or wrong. Which outputs a run consumed is read off the witnesses (`ConsumedDuring`).
  Its conclusion is that the books balance, or an accepted transfer of the run is at fault
  (`Fault`): its known witness is wrong, an output of it is not known to open to a 64-bit value, or
  all of that is right and the known values still do not add up. In the last case the gaps
  between the two sides are a relation value·H = blinding·G, a function of the openings and
  witnesses of that transfer, with nothing left to choose. In a cyclic group such relations exist;
  this is one that whoever has that knowledge has computed. A fault is only reported of a transfer
  applied while the books balanced, and `FaultyMeansBroken` says that no transfer that conserves
  money is ever at fault; `BalancedExactly` is the same for whole runs.
- `IdealHost` is the native host that accepts a signature when its known witness is right, so it
  accepts no C' other than C_l − z·G (`IdealSpendsAreWitnessed`), and `RangeLibrarySound` says that
  what the range-proof library verifies is opened in range. Under these two only relations and hash
  collisions remain. Owners are witnesses (`OwnerIsWitness`, `SignerIsWitness`).
- Where a result depends on a hash telling two strings apart, it names the two strings
  (`ScalarClash`, `DigestClash`). That the group order is prime is not used as a hypothesis either:
  `ClsagSound` returns a proper divisor where an inverse would be missing.
- Storage indices and block numbers are unbounded naturals; 64-bit amounts, checked additions,
  saturating products and the wrapping epoch counter are explicit.

## Where code and comments differ

- `node/src/dandelion/engine.rs:53` says a stem entry is never sent back to the peer it came
  from. The entry remembers only its first source: a second peer that sends the same
  transaction can get it back. `NeverBackExactly` gives the exact guard, `SentBack` a run of two
  events, and `OnStemReceived` what the code does in each case. The second event needs the pool to
  accept the transaction again while its stem entry lives, so the pool must have dropped it in the
  meantime; a pool that still holds it refuses the second submission and nothing is sent.
- The chain checks that an output's one-time key is a valid point, not that it is new. Outputs
  that share a key share a key image, so spending one makes the others unspendable while their
  value stays part of the supply; `StuckOutputs` gives the exact condition and a first
  block from which it happens.
- With `BlockWindow` 0 or 1 the difficulty pallet never has three samples and never adjusts;
  `Lwma` and `Finalize` follow the code.

## Model

| member | source | states |
|---|---|---|
| `IdealLedger.ConservedOrBroken` | pallets/ringct/src/lib.rs:420-734 | For every run of the native ledger, any known openings and any known signature witnesses: money is conserved and each spend consumed an output of its own, the one its witness names; or two of the strings hashed in the run (RunStrings, a computed set) collide; or an accepted transfer of the run has an input whose known witness is wrong, an output not known to open in range, or known openings and witnesses that are a relation value·H = blinding·G with value not 0 |
| `HashedStrings.RunStringsExactly` | pallets/ringct/src/lib.rs:740-837 | RunStrings is exactly what a run hashes: a set holds everything hashed for the tree in every state and for the proofs of every applied transfer iff it contains RunStrings, so that is the least such set |
| `IdealLedger.ConservedOrCollision` | pallets/ringct/src/lib.rs:420-734 | The same where a signature is accepted when its known witness is right and the range-proof library is sound: only a collision among RunStrings, or a relation computed from what is known of one of the run's transfers, remains |
| `WalletBooks.WalletsConserve` | pallets/ringct/src/lib.rs:420-734 | A run of the native ledger whose applied transfers were all built by wallets conserves money and spends each output once, unless two strings of RunStrings collide; nothing is assumed of range proofs, signatures or generators |
| `WalletBooks.WalletTransferIsHonest` | wallet/src/lib.rs:192-302 | A transfer built by build_transfer_multi has right witnesses, outputs known to open in range and known values that add up, under its maker's own openings and witnesses, so it shows no fault |
| `WalletBooks.MakerKnows` | wallet/src/lib.rs:192-302 | Those openings and witnesses exist: from input values that are known, different key images and new commitments, the maker's knowledge extends what was known |
| `IdealLedger.BalancedExactly` | pallets/ringct/src/lib.rs:420-734 | With ideal signatures, a sound range-proof library and collision-free strings, the books balance in every state of a run iff nothing known about its applied transfers is a relation between H and G |
| `IdealLedger.HonestTransferHasNoFault` | pallets/ringct/src/lib.rs:618-668 | A transfer with right witnesses, outputs known to open in range and known values that add up exhibits no fault, whatever else is stored |
| `IdealLedger.FaultyExactly` | pallets/ringct/src/lib.rs:618-668 | An accepted transfer is faulty iff a witness is wrong, an output is not known to open in range, or the known values do not add up as integers |
| `IdealLedger.FaultyMeansBroken` | pallets/ringct/src/lib.rs:581-734 | With right witnesses and outputs known to open in range, an applied transfer is faulty iff it breaks the books, so a fault is never the verdict on a transfer that conserves money |
| `Conservation.MoneyIsConserved` | pallets/ringct/src/lib.rs:436-485 | In every reachable state of a ledger with the native balance check: the value of the outputs not yet consumed plus BlockFees is exactly Emitted, as integers, every output is opened to a 64-bit value, every spend consumed a stored output whose key image it published, and none was consumed twice; or an accepted transfer of the run exhibits a fault |
| `Conservation.StepKeepsBooks` | pallets/ringct/src/lib.rs:581-734 | Any extrinsic, accepted or refused, keeps those books or exhibits a fault |
| `Conservation.TransferKeepsBooks` | pallets/ringct/src/lib.rs:581-734 | An accepted transfer moves value from the outputs it consumes to the new outputs and the fees, losing and creating nothing, or exhibits a fault |
| `Conservation.CoinbaseKeepsBooks` | pallets/ringct/src/lib.rs:436-485 | An accepted coinbase turns exactly the reward and the pending fees into outputs, with no assumption on anybody's openings |
| `Conservation.SpendsItsOutput` | pallets/ringct/src/lib.rs:618-653 | The output an accepted input consumes, named by its witness, is stored, admitted and mature; the input publishes its key image, and C' is its commitment less the witness's z·G |
| `Conservation.TransferValues` | primitives/ringct-crypto/src/lib.rs:150-167 | If the commitments balance, the gaps between the two sides' known values and blindings satisfy gap·H = gap·G, and the value gap is 0 iff the consumed outputs are worth the new ones plus the fee as integers |
| `Conservation.BalanceIsExact` | primitives/ringct-crypto/src/lib.rs:150-167 | With at most 4 inputs, 8 outputs and a fee, all 64-bit, equality modulo the group order is integer equality |
| `Conservation.ConsumedAreDistinct` | pallets/ringct/src/lib.rs:590-594 | Spends with distinct key images consumed distinct outputs, also when outputs share a one-time key |
| `StuckOutputs.DeadExactly` | pallets/ringct/src/lib.rs:625-633 | In every run with books the key image of a stored output is in KeyImages iff some consumed output has that key image |
| `StuckOutputs.OneSpendPerImage` | pallets/ringct/src/lib.rs:693-697 | Of the outputs that share a key image at most one is ever consumed |
| `StuckOutputs.StuckForever` | pallets/ringct/src/lib.rs:625-633 | An output whose key image is published without it having been consumed is consumed in no later state, and every later transfer publishing its key image is refused |
| `StuckOutputs.SupplySplits` | pallets/ringct/src/lib.rs:436-485 | In every run with books, the value that can still be spent, the value stuck behind a shared key image and BlockFees add up to Emitted |
| `StuckOutputs.SupplyIsLive` | pallets/ringct/src/lib.rs:604-609 | The whole supply outside BlockFees can still be spent iff no output of value shares its key image with a consumed one |
| `StuckOutputs.SharedKeyAccepted` | pallets/ringct/src/lib.rs:420-485 | The first block may pay its reward to one key twice: the coinbase is accepted and both outputs have one key image |
| `StuckOutputs.SharedKeyIsLost` | pallets/ringct/src/lib.rs:625-633 | In every continuation with books in which the first of the two is consumed, the second is lost |
| `Spends.NoDoubleSpend` | pallets/ringct/src/lib.rs:693-697 | In every reachable state KeyImages is exactly the key images of all applied transfers, and these are pairwise distinct within and across transactions |
| `Spends.TransferRecordsSpends` | pallets/ringct/src/lib.rs:625-633 | An accepted transfer's key images are new and distinct, and are what it records |
| `Spends.VerifiedIsAuthorized` | pallets/ringct/src/lib.rs:541-578 | The pool check never turns away a transfer that full verification accepts |
| `Spends.EmissionFollowsSchedule` | pallets/ringct/src/lib.rs:436-461 | In every reachable state Emitted is the schedule's value after the k coinbases so far, at most one a block, and lies between k·TAIL and MAX_CURVE_SUPPLY + k·TAIL |
| `Spends.SupplyFollowsRate` | pallets/ringct/src/lib.rs:436-461 | In every reachable state the supply is the one that as many steps on the rate as there were coinbases lead to |
| `Spends.CoinbasePaysRate` | pallets/ringct/src/lib.rs:436-461 | An accepted coinbase pays the pending fees and the reward on the rate, which is what it emits |
| `Spends.FirstCoinbasePays` | primitives/ringct-primitives/src/lib.rs:129-135 | From an empty supply a coinbase paying anything but 17,547,607,421 plus the fees is refused |
| `Emission.BlockReward` | primitives/ringct-primitives/src/lib.rs:95-102 | The reward is on that rate, at least the tail reward and at most the whole curve |
| `Emission.RewardIsOnRate` | primitives/ringct-primitives/src/lib.rs:95-102 | The reward r at supply e is the one amount with r·524,288 ≤ 9.2·10^15 − e < (r + 1)·524,288 above 30,000,000, and 30,000,000 below |
| `Emission.TailExactly` | primitives/ringct-primitives/src/lib.rs:95-102 | The tail is paid iff less than 30,000,001·524,288 is missing to 9.2·10^15 |
| `Emission.ScheduleIsTheRate` | primitives/ringct-primitives/src/lib.rs:95-102 | There is one sequence of supplies from 0 with every step on that rate, and it is the schedule |
| `Emission.SupplyStepMonotone` | primitives/ringct-primitives/src/lib.rs:95-102 | e + reward(e) is order-preserving in e |
| `Emission.CurveStaysBelowCeiling` | primitives/ringct-primitives/src/lib.rs:95-102 | A curve step never passes MAX_CURVE_SUPPLY |
| `Emission.TailIsPermanent` | primitives/ringct-primitives/src/lib.rs:95-102 | Once the tail is entered it is never left |
| `Emission.StepStaysInBand` | primitives/ringct-primitives/src/lib.rs:95-102 | If the supply lies between k·TAIL and MAX_CURVE_SUPPLY + k·TAIL, the next coinbase leaves it in the band for k + 1 |
| `Emission.TailIsReached` | primitives/ringct-primitives/src/lib.rs:95-102 | The tail is in force after 306,666,667 coinbases, and from then on |
| `TreeInvariant.RunKeepsTree` | pallets/ringct/src/lib.rs:740-837 | In every reachable state digests exist for exactly the grown slots, each the leaf hash of its output if admitted and EMPTY otherwise; admitted outputs are mature; the cached root is the recomputed root; TreeSlots equals NextOutputIndex |
| `TreeInvariant.DispatchKeepsTree` | pallets/ringct/src/lib.rs:740-755 | Every extrinsic keeps the tree invariant from lagging states too, never changes a stored output or undoes an admission, keeps a zero lag zero and otherwise falls behind by exactly the outputs it mints |
| `TreeInvariant.MintAllKeepsTree` | pallets/ringct/src/lib.rs:706-726 | Minting n outputs keeps the invariant; a level tree stays level, a lagging one falls behind by n |
| `TreeInvariant.FinalizeKeepsTree` | pallets/ringct/src/lib.rs:762-837 | End of block keeps the invariant and cuts the lag by min(64, lag) |
| `TreeInvariant.CatchupKeepsShape` | pallets/ringct/src/lib.rs:809-826 | Catch-up grows exactly min(budget, lag) slots |
| `Blocks.BlockKeepsTree` | pallets/ringct/src/lib.rs:762-837 | A block of any extrinsics from any state keeps the invariant; a lag of l with n new outputs becomes max(0, l + n − 64), and no lag stays none |
| `Blocks.LagIsPaidOff` | pallets/ringct/src/lib.rs:809-826 | From any lagging state, blocks of any extrinsics adding at most g outputs each pay the lag off by at least 64 − g slots a block, and by exactly 64 if they add none |
| `RoundRobin.FillIsBudgeted` | pallets/ringct/src/lib.rs:771-805 | One block admits exactly min(64, backlog) slots, each mature and not admitted before |
| `RoundRobin.FillWritesLeaves` | pallets/ringct/src/lib.rs:785-795 | It writes the leaf digest of each slot it admits and no other digest |
| `RoundRobin.FillRefinesSimpleScan` | pallets/ringct/src/lib.rs:771-805 | With a backlog of at most 64 the whole state is that of admitting every mature slot and writing its leaf, up to the cursor |
| `RoundRobin.FillIgnoresCursor` | pallets/ringct/src/lib.rs:779-804 | and states that differ only in their cursor are filled alike |
| `RoundRobin.WindowIsCyclicInterval` | pallets/ringct/src/lib.rs:779-800 | One lap visits a cyclic interval of slots, none of them twice |
| `Fairness.MatureSlotIsAdmitted` | pallets/ringct/src/lib.rs:771-805 | No starvation: over blocks of any extrinsics in which the tree grows by at most g < 64 slots, a mature slot is admitted once (64 − g)·k exceeds the slots before it, however many others mature; (64 − g)·k at least the tree's size always suffices |
| `Fairness.RunAdmitsMature` | pallets/ringct/src/lib.rs:771-805 | In every run a slot mature at the end of a block is admitted k blocks later if (64 − g)·k is at least the tree's size and no block in between adds more than g slots |
| `Fairness.RunKeepsCursor` | pallets/ringct/src/lib.rs:779-804 | In every reachable state the cursor points into the tree |
| `Fairness.BlockServes` | pallets/ringct/src/lib.rs:762-805 | One block of any extrinsics brings a mature slot 64 places closer to the cursor, less what the tree grew by, or admits it |
| `Fairness.ScanGetsCloser` | pallets/ringct/src/lib.rs:785-802 | A scan admits a due slot within its lap, or spends its budget and brings the cursor that many slots closer to it |
| `RootWindow.WindowIsExact` | pallets/ringct/src/lib.rs:360-368 | While block t executes, MembershipRootAt holds exactly the end-of-block roots of blocks max(1, t − 64) to t − 1 |
| `RootWindow.AcceptedRoots` | pallets/ringct/src/lib.rs:672-690 | A root is accepted iff it is the live root or one of those |
| `RootWindow.HistoryExtends` | pallets/ringct/src/lib.rs:693-734 | A later state never changes or forgets an output or an admission of the end of any earlier block |
| `RootWindow.MembershipImpliesMaturity` | pallets/ringct/src/lib.rs:672-690 | A proof accepted under any accepted root has as ring exactly the outputs admitted when that root was current, each admitted and mature now, unless two hashed strings collide |
| `Maturity.OutputsRecordOrigin` | pallets/ringct/src/lib.rs:476-485 | In every reachable state each output records which kind of extrinsic minted it, and in which block |
| `Maturity.AdmittedIsOld` | pallets/ringct/src/lib.rs:839-846 | In every reachable state an admitted output has waited CoinbaseMaturity blocks since the coinbase that minted it, or SpendableAge since the transfer |
| `Maturity.BacklogIsTheOld` | pallets/ringct/src/lib.rs:771-805 | The fill's backlog is exactly the grown slots not yet admitted that have waited that long |
| `Maturity.OldIsAdmitted` | pallets/ringct/src/lib.rs:771-805 | With at most 64 waiting, the end of the block admits every grown slot that has waited that long |
| `Maturity.RingIsOld` | pallets/ringct/src/lib.rs:672-690 | Every member of an accepted proof's ring has waited that long, unless two hashed strings collide |
| `PalletMachine.RingCt.constructor` | pallets/ringct/src/lib.rs:267-271 | Storage starts empty, with the empty root |
| `PalletMachine.RingCt.OnInitialize` | pallets/ringct/src/lib.rs:353-356 | New block, no coinbase yet, nothing else changes |
| `PalletMachine.RingCt.OnFinalize` | pallets/ringct/src/lib.rs:360-368 | The loop-by-loop update equals Finalize |
| `PalletMachine.RingCt.AdmitMatureLeavesBudgeted` | pallets/ringct/src/lib.rs:771-805 | The scan loop equals AdmitMature and returns how many slots it admitted |
| `PalletMachine.RingCt.CatchupGrowBudgeted` | pallets/ringct/src/lib.rs:809-826 | The catch-up loop equals Catchup and returns how many slots it grew |
| `PalletMachine.RingCt.RefreshMembershipRoot` | pallets/ringct/src/lib.rs:828-837 | The cached root becomes the root of the stored digests |
| `PalletMachine.RingCt.Coinbase` | pallets/ringct/src/lib.rs:420-494 | Equals the Coinbase rule: first failing check reported, storage untouched on failure |
| `ProofBinding.CoinbaseAcceptedExactly` | pallets/ringct/src/lib.rs:420-485 | Exactly which coinbases are accepted: the first of its block, positive amounts to valid keys, total equal to the pending fees and the reward on the rate in numbers, supply within 64 bits |
| `WalletToChain.RewardArrives` | node/src/service.rs:132-160 | Once a coinbase made for a miner's address is applied, the miner's wallet claims each of its outputs with its amount |
| `PalletMachine.RingCt.VerifyTransfer` | pallets/ringct/src/lib.rs:581-668 | Reports the first failing check of TransferError, in the source's order |
| `ProofBinding.AcceptedExactly` | pallets/ringct/src/lib.rs:581-668 | Exactly which transfers are accepted, in numbers: 1 to 4 inputs and outputs, sorted key images, fee at least rate times encoded length up to 2^64 − 1, valid points, at most 64 slots, live root or one of the last 64 blocks, every input unspent and proved over the signing hash, balance and range |
| `ProofBinding.ProofServesOneTransfer` | pallets/ringct/src/lib.rs:615-653 | Two accepted transfers that carry one proof agree on root, key images, C', outputs, transaction key and fee; or their two signed strings share a digest, or the strings behind the proof's first scalar share a scalar |
| `ProofBinding.AcceptedPays` | pallets/ringct/src/lib.rs:596-603 | An accepted transfer pays the byte rate for the length of its whole encoding, or the largest amount |
| `ScaleCodec.TransferReads` | pallets/ringct/src/lib.rs:148-179 | The encoding of a transfer reads back as the transfer |
| `ProofBinding.BoundedExactly` | pallets/ringct/src/lib.rs:148-179 | The bounds of a transaction in numbers: 4 inputs, 8 outputs, 1024 bytes of range proof, 12288 of each proof, 80 of each payload |
| `PalletMachine.RingCt.MembershipRootAccepted` | pallets/ringct/src/lib.rs:672-690 | The backwards-bounded search loop decides RootAccepted |
| `PalletMachine.RingCt.Transfer` | pallets/ringct/src/lib.rs:402-406 | Equals the Transfer rule: verify, then apply; storage untouched on failure |
| `PalletMachine.RingCt.ApplyTransfer` | pallets/ringct/src/lib.rs:693-734 | Records key images and fee and mints the outputs; an overflow is rolled back |
| `PalletMachine.RingCt.AuthorizeTransfer` | pallets/ringct/src/lib.rs:541-566 | The pool check reports the first failing condition of AuthorizeRefusal |
| `ProofBinding.AuthorizedExactly` | pallets/ringct/src/lib.rs:541-566 | Exactly what the pool lets in: 1 to 4 inputs, outputs, the byte rate paid, proofs of at most 12288 bytes, no key image of the state, root live or of the last 64 blocks |
| `Transactions.SigningBinds` | pallets/ringct/src/lib.rs:76-91 | Two transactions have the same signed string iff they agree on root, key images, pseudo-commitments, outputs, transaction key and fee; proofs and range proof do not matter |
| `Transactions.SigningHashBinds` | pallets/ringct/src/lib.rs:76-91 | Equal signing hashes mean the same signed fields, or the two signed strings are different and share a digest |
| `Transactions.LessExactly` | pallets/ringct/src/lib.rs:590-594 | One key image is below another iff the first byte that differs is smaller |
| `Merkle.RootFromLeaves` | pallets/ringct/src/membership.rs:51-69 | The in-place halving loop computes the root of the padded complete tree |
| `Merkle.RootBinding` | pallets/ringct/src/membership.rs:51-69 | Leaf sequences of any lengths with equal roots are equal, unless two of the strings hashed for them collide |
| `Merkle.PreimageLengths` | primitives/ringct-primitives/src/lib.rs:61-71 | Leaf, EMPTY, node and padding preimages have different lengths and cannot be confused |
| `SparseTree.SparseMerkleTree.TransparentPath` | primitives/ringct-crypto/src/fcmp_spike/merkle.rs:133-160 | Every grown slot has a path, with its leaf, leading to the tree's root |
| `SparseTree.PathIsBinding` | primitives/ringct-crypto/src/fcmp_spike/merkle.rs:35-47 | A path of tree depth and in-range index that reaches the root carries that slot's leaf and the true siblings, unless two hashed strings collide |
| `SparseTree.ComputeRoot` | primitives/ringct-crypto/src/fcmp_spike/merkle.rs:35-47 | The loop over siblings computes the root the path claims |
| `SparseTree.PadToPowerOfTwo` | primitives/ringct-crypto/src/fcmp_spike/merkle.rs:168-184 | Pads to the least power of two |
| `SparseTree.SparseMerkleTree.TreeRoot` | primitives/ringct-crypto/src/fcmp_spike/merkle.rs:117-130 | The root agrees with the chain's root of the same leaves |
| `SparseTree.SparseMerkleTree.GrowEmpty` | primitives/ringct-crypto/src/fcmp_spike/merkle.rs:84-91 | Appends one EMPTY slot |
| `SparseTree.SparseMerkleTree.MaybeGrowEmptyOnCreate` | primitives/ringct-crypto/src/fcmp_spike/merkle.rs:75-82 | Grows exactly when the index is the next slot |
| `SparseTree.SparseMerkleTree.CatchupGrowEmpty` | primitives/ringct-crypto/src/fcmp_spike/merkle.rs:94-103 | Grows by min(max, room left below the depth limit) |
| `SparseTree.SparseMerkleTree.Admit` | primitives/ringct-crypto/src/fcmp_spike/merkle.rs:106-115 | Fills a grown, unadmitted slot once; otherwise changes nothing |
| `Paths.PathReachesRoot` | primitives/ringct-crypto/src/fcmp_spike/merkle.rs:133-160 | Honest siblings lead to the root, for every depth and slot |
| `FcmpCodec.Encode` | primitives/ringct-crypto/src/fcmp.rs:146-180 | Succeeds on exactly the legal proofs; its own 12,288-byte check never fires |
| `FcmpCodec.Decode` | primitives/ringct-crypto/src/fcmp.rs:182-240 | Accepts exactly the byte strings some legal proof encodes to, and returns that proof: re-encoding gives the same bytes |
| `FcmpCodec.ParseWire` | primitives/ringct-crypto/src/fcmp.rs:146-240 | Decoding an encoding gives the proof back |
| `FcmpCodec.WireInjective` | primitives/ringct-crypto/src/fcmp.rs:146-180 | Different legal proofs have different encodings |
| `FcmpCodec.LegalFitsTheCap` | primitives/ringct-crypto/src/fcmp.rs:146-179 | A legal proof's length is 20 + 32·slots + 72·members + 32·(members + 2), never above the cap |
| `FcmpCodec.LegalExactly` | primitives/ringct-crypto/src/fcmp.rs:146-180 | Legal proofs in numbers: 1 to 64 members in at most 64 slots, two more scalars than members |
| `Fcmp.Verify` | primitives/ringct-crypto/src/fcmp.rs:342-427 | Accepts iff the proof decodes, its digests hash to the root, its ring is every non-EMPTY leaf in slot order, and the CLSAG verifies |
| `Fcmp.IsFullRing` | primitives/ringct-crypto/src/fcmp.rs:376-408 | Count, membership, order and completeness checks together decide full ring |
| `Fcmp.CountingGivesFullRing` | primitives/ringct-crypto/src/fcmp.rs:287-316 | If every non-EMPTY digest is opened by a member, the members increase, and the counts agree, then the members are exactly the non-EMPTY leaves (pigeonhole) |
| `Fcmp.TransparentPathsDoNotParse` | primitives/ringct-crypto/src/fcmp.rs:120-123 | A transparent path is never a decodable proof, so the early rejection loses nothing |
| `Fcmp.AcceptedRing` | primitives/ringct-crypto/src/fcmp.rs:369-410 | Under the root of known leaves, an accepted proof's ring is exactly the occupied leaves, unless two hashed strings collide |
| `FcmpProve.Prove` | primitives/ringct-crypto/src/fcmp.rs:275-339 | Succeeds iff sizes are in bounds, the ring is full and the secret opens the real member; key image is the secret's, C' re-blinds the real commitment, and the proof is accepted under the witness's root unless a point is the identity |
| `FcmpProve.WitnessIsFull` | primitives/ringct-crypto/src/fcmp.rs:287-316 | The prover's scan, count and order checks decide full ring |
| `ClsagSign.SignWithMax` | primitives/ringct-crypto/src/clsag.rs:142-223 | Signs iff the ring parses and the secret opens the real member; the key image is key_image(secret) whatever the ring; the signature verifies unless the image is the identity |
| `ClsagSign.RingCloses` | primitives/ringct-crypto/src/clsag.rs:181-210 | The signer's walk from the position after the real one and the verifier's walk from 0 meet the same challenges |
| `ClsagSign.RealRoundGivesSeed` | primitives/ringct-crypto/src/clsag.rs:182-209 | With s = a − c·w the real round's challenge is the seed's, for any incoming challenge |
| `ClsagSign.WalkRing` | primitives/ringct-crypto/src/clsag.rs:189-210 | The signer's loop computes c0 and the challenge at the real position |
| `ClsagSign.SignatureReadsBack` | primitives/ringct-crypto/src/clsag.rs:212-217 | The signature encoding parses back to its scalars and auxiliary image |
| `Clsag.VerifyWithMax` | primitives/ringct-crypto/src/clsag.rs:232-289 | Accepts iff all encodings are canonical, the key image is not the identity, and the rounds lead from c0 back to c0 |
| `ClsagBinding.KeyCoefficientBinds` | primitives/ringct-crypto/src/clsag.rs:87-98 | The key coefficient fixes ring, key image, auxiliary image and C', or the two named strings hash to one scalar |
| `ClsagBinding.CommitmentCoefficientBinds` | primitives/ringct-crypto/src/clsag.rs:87-98 | So does the commitment coefficient |
| `ClsagBinding.CoefficientsAreSeparate` | primitives/ringct-crypto/src/clsag.rs:87-98 | The two coefficients come from different strings: equal ones exhibit a clash |
| `ClsagBinding.ChallengeBinds` | primitives/ringct-crypto/src/clsag.rs:100-103 | A challenge fixes ring, C', message and the two points it is made from, or two named strings hash to one scalar |
| `ClsagBinding.SignaturePins` | primitives/ringct-crypto/src/clsag.rs:232-289 | Two accepted signatures with one first scalar are over the same message, ring and C', or what their last rounds hash are two strings with one scalar |
| `ClsagBinding.ImageBaseBinds` | primitives/ringct-crypto/src/clsag.rs:53-58 | Different keys have different base points for their key images, or two strings hash to one point |
| `ClsagSound.ExtractAggregate` | primitives/ringct-crypto/src/clsag.rs:262-289 | Two closings of a round from one pair of points with different challenges give one w with w·G = μ_P·P + μ_C·(C − C') and w·Hp(P) = μ_P·I + μ_C·D, unless the group order has a proper divisor |
| `ClsagSound.SpecialSoundness` | primitives/ringct-crypto/src/clsag.rs:262-289 | Two such pairs under two independent coefficient pairs give x and z with P = x·G, I = x·Hp(P), C − C' = z·G, unless the group order has a proper divisor |
| `ClsagSound.InverseOrDivisor` | primitives/ringct-crypto/src/clsag.rs:60-62 | Every non-zero scalar has an inverse, or the group order has the returned proper divisor |
| `Clsag.ParseRing` | primitives/ringct-crypto/src/clsag.rs:69-84 | Parses iff the blob is 1 to max 64-byte pairs of decodable points, and returns them |
| `Native.BalanceOrRelation` | primitives/ringct-crypto/src/lib.rs:150-167 | verify_balance accepts iff (Σvalues difference)·H = (Σblindings difference)·G: totals agree, or a discrete-logarithm relation is exhibited |
| `Native.BalanceNeedsPoints` | primitives/ringct-crypto/src/lib.rs:150-167 | Nothing balances without a decodable point on each side |
| `Native.SumOfCommitments` | primitives/ringct-crypto/src/lib.rs:117-125 | Commitments add: the sum commits to the totals |
| `Native.BalancingBlindingBalances` | primitives/ringct-crypto/src/lib.rs:213-225 | Appending the balancing blinding makes the two blinding sums equal |
| `Native.VerifyRangeProof` | primitives/ringct-crypto/src/lib.rs:172-195 | Accepts iff 1 to 8 commitments, padded with the identity to the next power of two, pass the library |
| `Native.RangeAcceptsExactly` | primitives/ringct-crypto/src/lib.rs:172-195 | One to eight commitments, then identities up to the next power of two, and the library's verdict on them |
| `Native.ProveRange` | primitives/ringct-crypto/src/lib.rs:230-259 | A proof it returns is accepted for the commitments it returns, which are those of the given values: prover and verifier pad alike |
| `Ideal.WitnessPins` | primitives/ringct-crypto/src/clsag.rs:142-175 | A witness (l, x, z) explains exactly one key image and one C': x·Hp(P_l) and C_l − z·G |
| `Ideal.OwnerIsWitness` | primitives/ringct-crypto/src/clsag.rs:142-175 | Whoever has a member's secret and the opening of its commitment, and publishes its key image and a new commitment to the same value, is a witness |
| `Ideal.SignerIsWitness` | primitives/ringct-crypto/src/clsag.rs:142-175 | The arguments of a successful sign_with_max are a witness of the key image and C' it publishes |
| `Ideal.WitnessedSpend` | primitives/ringct-crypto/src/fcmp.rs:412-427 | A witnessed input publishes the key image of the ring member its witness names, and its C' re-blinds that member's commitment by the witness's z |
| `Ideal.SpendValueOrRelation` | primitives/ringct-crypto/src/clsag.rs:142-175 | Openings of a spent commitment and of its C' have the same value, or they are a relation between H and G |
| `Ideal.IdealSpendsAreWitnessed` | primitives/ringct-crypto/src/fcmp.rs:412-427 | The ideal host accepts only inputs whose known witness is right, and of those only the one C' = C_l − z·G |
| `Ideal.NativeRangeIsSound` | primitives/ringct-crypto/src/lib.rs:172-195 | If everything the range-proof library verifies is opened to 64-bit values, so is everything verify_range_proof accepts: padding hides nothing |
| `Ideal.HypothesesAreConsistent` | primitives/ringct-crypto/src/lib.rs:71-91 | For any 64-bit amount and any blinding there are parameters with distinct generators under which that commitment is known by that opening and the range-proof library is sound, complete and reliable together, whatever the hash |
| `Stealth.SharedSecretsAgree` | primitives/ringct-crypto/src/stealth.rs:85-100 | Sender's r·A and receiver's a·R are the same bytes |
| `Stealth.SharedSecretIsLinear` | primitives/ringct-crypto/src/stealth.rs:85-100 | One times a key is the key, and secrets of sums are sums of secrets |
| `Stealth.DerivationBinds` | primitives/ringct-crypto/src/stealth.rs:102-156 | One-time scalar, blinding and mask tell secrets and positions apart, or two named strings hash to one scalar |
| `Stealth.DomainsAreSeparate` | primitives/ringct-crypto/src/stealth.rs:102-156 | No two of the four derivations ever hash one string |
| `Stealth.RecoveredSecretOpens` | primitives/ringct-crypto/src/stealth.rs:111-148 | The recovered secret opens the derived one-time key |
| `Stealth.UnmaskMasked` | primitives/ringct-crypto/src/stealth.rs:158-174 | Unmasking undoes masking, for every amount |
| `Stealth.MaskIsUsed` | primitives/ringct-crypto/src/stealth.rs:158-166 | Payload xor amount is the first eight bytes of the mask, for every amount |
| `Stealth.MaskAmount` | primitives/ringct-crypto/src/stealth.rs:158-165 | The in-place XOR loop computes the masked amount |
| `Stealth.UnmaskAmount` | primitives/ringct-crypto/src/stealth.rs:167-174 | The in-place XOR loop computes the unmasked amount |
| `WalletScan.TryOwn` | wallet/src/lib.rs:123-167 | Finds the output through the least position that claims it and only then, and nothing without a usable spend secret; what it returns has that secret's key image, for a confidential output an (amount, blinding) opening the commitment, and a secret opening the one-time key when the address is that of the keys |
| `WalletScan.Scan` | wallet/src/lib.rs:116-121 | Returns the owned outputs in order, leaving out exactly those no position claims |
| `WalletScan.MadeOutputCommits` | wallet/src/lib.rs:315-339 | A made output commits to the amount asked for under the blinding returned |
| `WalletScan.MadeOutputBelongs` | wallet/src/lib.rs:315-339 | An output made for a wallet's address is claimed at its position, where it reads as its own amount and blinding |
| `WalletScan.PositionsAreToldApart` | wallet/src/lib.rs:315-338 | Outputs made with one transaction key for one address at different positions have different keys and blindings, or two named strings hash to one scalar |
| `WalletScan.FindOwnOutput` | wallet/src/lib.rs:123-167 | Make then scan: the output is found at its position with the same amount and blinding, or a collision of the derivation from the wallet's own shared secret, with a second opening of the commitment, is exhibited |
| `WalletScan.FromSeedIsValid` | wallet/src/lib.rs:103-106 | A wallet from a seed has the address of its keys |
| `WalletScan.SeedsAreToldApart` | primitives/ringct-crypto/src/stealth.rs:72-79 | Different seeds give different secrets, and view and spend secrets differ, or two named strings hash to one scalar |
| `WalletBuild.BuildTransferMulti` | wallet/src/lib.rs:192-304 | Failed checks are reported in order; a returned transaction is well built, pays the destination and returns the change; and for inputs the wallet holds, in a full snapshot, with addresses that decode, building succeeds |
| `WalletStaging.PrecheckExactly` | wallet/src/lib.rs:192-232 | The checks pass iff 1 to 4 inputs, all in a snapshot of at most 64 slots under its root, cover amount and fee within 64 bits; a shortfall reports what is needed and what is there |
| `WalletBuild.StagedBalance` | wallet/src/lib.rs:234-258 | The sorted pseudo-commitments balance the two outputs and the fee |
| `WalletBuild.PaidKeysDiffer` | wallet/src/lib.rs:234-240 | Payment and change have different one-time keys, also when paid to oneself: or two named strings hash to one scalar, or, for two spend keys, their difference has a logarithm the maker computed |
| `WalletBuild.FinalSignsTheSame` | wallet/src/lib.rs:260-302 | Replacing placeholder proofs leaves the signing hash unchanged |
| `WalletBuild.SpendableProves` | wallet/src/lib.rs:282-296 | For an input the wallet holds the prover succeeds with the key image and C' already staged, so the mismatch check never fires |
| `WalletStaging.SortSorts` | wallet/src/lib.rs:258-258 | The staged inputs end up in key-image order |
| `WalletStaging.SortPermutesImages` | wallet/src/lib.rs:258-258 | Sorting permutes the key images |
| `WalletStaging.SortKeepsTotals` | wallet/src/lib.rs:258-258 | Sorting changes neither the value nor the blinding total |
| `WalletStaging.CheckedTotal` | wallet/src/lib.rs:222-224 | The checked sum is the integer sum, or fails exactly when that overflows |
| `WalletToChain.WellBuiltIsAccepted` | pallets/ringct/src/lib.rs:581-668 | Every built transaction with distinct unspent key images, an accepted root, a chain tree within the cap and a fee of at least the minimum for the estimated size passes verify_transfer, unless one of its points is the identity |
| `WalletToChain.EstimateCovers` | wallet/src/lib.rs:307-313 | The size estimate is never below the encoded size of a built transaction |
| `WalletToChain.PaymentArrives` | pallets/ringct/src/lib.rs:706-726 | After a built transaction is applied the next two stored outputs are claimed by receiver and sender with the amount sent and the change, which add up with the fee to the inputs |
| `ChainPoints.RunKeepsPoints` | pallets/ringct/src/lib.rs:436-668 | In every reachable state of the native ledger every stored key and commitment decodes, and a public amount is the one committed to |
| `ChainPoints.FullRingParses` | primitives/ringct-crypto/src/clsag.rs:69-84 | So the full ring of any reachable state parses: no stored output can block a spend |
| `WalletReady.OwnedIsSpendable` | wallet/src/lib.rs:123-167 | What a scan returns for a stored output, coinbase or confidential, is spendable in the snapshot rebuilt from that storage |
| `WalletReady.ScannedInputsBuild` | wallet/src/lib.rs:192-232 | In any reachable state of at most 64 slots, scanned and admitted inputs that cover amount and fee pass every check of the builder and are ready in the rebuilt snapshot, unless a leaf hash equals the EMPTY digest |
| `WalletSend.Send` | wallet/src/main.rs:135-200 | From scan to arrival: a wallet that scanned and rebuilt its witness at the current state or at the end of any block still in the root window, and selected admitted outputs with distinct key images that are still unspent and cover amount and estimated fee, builds a transaction; the state it meets, of at most 64 slots, applies it, and receiver and sender claim the next two outputs with the amount and the change; unless a point is the identity or the block's fees overflow |
| `WalletSend.PointsDecode` | wallet/src/lib.rs:234-302 | Every point of a built transaction decodes, so the identity is the only one the chain can refuse |
| `WalletCache.MembershipCache.Rebuild` | wallet/src/membership.rs:44-86 | Reports the first failing check and keeps the cache, or replaces it by the rebuilt snapshot |
| `WalletCache.RebuiltIsWitness` | wallet/src/membership.rs:44-86 | Every accepted snapshot is the full ring under its root; with one admitted leaf it meets all of the prover's checks |
| `WalletCache.ChainStateRebuilds` | wallet/src/membership.rs:44-86 | From the storage of any reachable state of at most 64 slots rebuilding succeeds, with exactly the admitted outputs as ring unless a leaf hash equals the EMPTY digest |
| `WalletCache.UpToDateMeansSameTree` | wallet/src/membership.rs:89-103 | A cached witness with the chain's root holds the chain's digests and admitted outputs, unless two hashed strings collide |
| `WalletCache.MembershipCache.ResyncIfReorged` | wallet/src/membership.rs:106-118 | Clears exactly when the tip went back or root or size differ; otherwise root and size match the chain |
| `WalletCache.MembershipCache.EnsureSpendsAdmitted` | wallet/src/membership.rs:121-132 | Succeeds iff every index is in the cached ring |
| `Difficulty.DifficultyPallet.OnFinalize` | pallets/difficulty/src/lib.rs:85-99 | Record, trim to window + 1, adjust: equals Finalize |
| `Difficulty.Lwma` | pallets/difficulty/src/lib.rs:110-142 | The accumulation loop computes the weighted average of the last window, and nothing below three samples |
| `Difficulty.WindowIsExact` | pallets/difficulty/src/lib.rs:85-99 | In every run the stored samples are exactly the last min(n, window + 1) blocks with the difficulty in force for each |
| `Difficulty.RunStaysInBounds` | pallets/difficulty/src/lib.rs:110-142 | In every run, without 256-bit saturation, the difficulty lies between max(Min, avg/6) and max(Min, avg·T) |
| `Difficulty.NextBounds` | pallets/difficulty/src/lib.rs:110-142 | The same for any window of samples |
| `Difficulty.NextIsAntitone` | pallets/difficulty/src/lib.rs:121-141 | The next difficulty never rises when solve times grow, saturation or not |
| `Difficulty.LaterDelayNeverRaises` | pallets/difficulty/src/lib.rs:110-142 | Moving a delay from an older solve time to a newer one never raises the next difficulty |
| `Difficulty.LaterDelayCanLower` | pallets/difficulty/src/lib.rs:110-142 | and can lower it: solve times 30, 10 give 1200 where 10, 30 give 857 |
| `Difficulty.DelayCounts` | pallets/difficulty/src/lib.rs:110-142 | A delay of the k-th solve time counts k times in the weighted sum |
| `Difficulty.DifficultyCounts` | pallets/difficulty/src/lib.rs:110-142 | Every sample's difficulty but the oldest one's counts once in the average |
| `Difficulty.SolveTimeExactly` | pallets/difficulty/src/lib.rs:118-130 | A solve time is the elapsed time, at least 1 and at most six targets |
| `Difficulty.NeverBelowMinimum` | pallets/difficulty/src/lib.rs:141-141 | No run ever goes below the minimum |
| `Difficulty.OnTargetIsConstant` | pallets/difficulty/src/lib.rs:85-142 | If every solve time is the target the difficulty never moves |
| `Dandelion.DandelionEngine.PeerConnected` | node/src/dandelion/engine.rs:106-112 | Adds the peer; outbound changes only if there was none |
| `Dandelion.DandelionEngine.PeerDisconnected` | node/src/dandelion/engine.rs:115-120 | Removes the peer; outbound is replaced by the best remaining one exactly when it was that peer |
| `Dandelion.DandelionEngine.PickOutbound` | node/src/dandelion/engine.rs:222-241 | A connected peer with the least score, or none iff nobody is connected |
| `Dandelion.DandelionEngine.MaybeRollEpoch` | node/src/dandelion/engine.rs:205-210 | Rolls exactly when the epoch is over, to a fresh role and best outbound peer |
| `Dandelion.DandelionEngine.EnterStem` | node/src/dandelion/engine.rs:130-149 | Starts the embargo of a new key; only an entry with the earliest deadline is evicted, and only when full; the set stays within max(1, cap) |
| `Dandelion.DandelionEngine.EvictIfFull` | node/src/dandelion/engine.rs:260-274 | Drops an entry with the earliest deadline exactly when full |
| `Dandelion.DandelionEngine.Fluff` | node/src/dandelion/engine.rs:152-154 | Removes exactly that key |
| `Dandelion.DandelionEngine.StemDecision` | node/src/dandelion/engine.rs:159-185 | A hop is a connected peer other than the entry's source, and there is one exactly when the key is stemmed, no fluff roll hits and some other peer is connected |
| `DandelionHandler.Handler.Connect` | node/src/dandelion/handler.rs:154-164 | Peer map and engine peer set keep agreeing |
| `DandelionHandler.Handler.Disconnect` | node/src/dandelion/handler.rs:165-169 | Peer map and engine peer set keep agreeing |
| `DandelionHandler.Handler.PeerById` | node/src/dandelion/handler.rs:360-365 | The lookup succeeds iff the engine knows the peer |
| `DandelionHandler.Handler.OnPoolImport` | node/src/dandelion/handler.rs:219-258 | Relays only stemmed keys, to a connected peer other than the entry's source; otherwise clears the stem bit |
| `DandelionHandler.Handler.OnStemReceived` | node/src/dandelion/handler.rs:260-319 | Relays only as MayRelay allows for the entry's first source; never back to the sender if the key was new or its entry names the sender; back to the sender only if the outbound peer is the sender or that other source; to the outbound peer for certain when no epoch ends and no roll hits |
| `Dandelion.NeverBackExactly` | node/src/dandelion/engine.rs:159-185 | A message can never go back to its sender, whatever route, peers and rolls, iff the key is new or its entry already names the sender |
| `DandelionHandler.SentBack` | node/src/dandelion/handler.rs:260-319 | Two events that send a transaction back to its sender: peer 2 sends it, it is relayed to the outbound peer 1, and peer 1 sends it and gets it back |
| `DandelionHandler.Handler.OnTick` | node/src/dandelion/handler.rs:351-358 | Clears exactly the entries whose deadline has passed |
| `DandelionHandler.Handler.RunEvents` | node/src/dandelion/handler.rs:85-121 | Over every event sequence with ticks at most gap apart: outbound is none iff nobody is connected, the stem set stays within max(1, cap), the peer map agrees with the engine, and no entry outlives its embargo by more than gap |

## Left out

- Bulletproofs, curve arithmetic, BLAKE2b, SHA-512 and hash-to-point internals: library code, parameters here.
- Anonymity, zero knowledge, unforgeability and discrete-log hardness: probabilistic claims; they appear as the alternatives of the conservation theorems.
- Events, weights, benchmarks, runtime wiring, inherent creation, RPC and the command line with its largest-first choice of inputs: no rule of the ledger depends on them.
- `consensus/kohl-pow` and `wallet/src/decoy.rs`: a short search loop and a legacy sampler; they would only add easy members.
- SCALE decoding: only encodings are modelled, with compact lengths below 2^14, which every bounded field satisfies.
- Priority, longevity and tags of a pooled transfer: only whether the pool admits it is modelled.
- The `BoundedVec` capacity of 65,535 stored samples and overflow of the 256-bit difficulty sum: a window that large, or difficulties near 2^256, are outside the model.
- Interleaving inside one Dandelion event: each event is atomic, as if the engine lock were held throughout.
- `sort_by_key` is modelled by a stable insertion sort; only its result, not the library's algorithm, is captured.
- WalletToChain.EstimateCovers: `estimate_tx_bytes` is modelled over unbounded integers before its saturating steps; slot counts above 2^57, where the source's plain products overflow, are outside the model.
- WalletScan.FindOwnOutput: the same amount is promised only up to a collision of the key derivation together with a second opening of the commitment, because the scanner takes the first position that fits.
- `snapshot_from_frontier`, view-only matching and address strings: thin wrappers.

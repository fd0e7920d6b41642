/** Consensus limits shared by the chain, the proof system and the wallet. */
module Limits {
  const MAX_FCMP_INPUTS: nat := 4
  const MAX_OUTPUTS: nat := 8
  const MAX_PAYLOAD_BYTES: nat := 80
  const MAX_RANGE_PROOF_BYTES: nat := 1024
  const MAX_FCMP_PROOF_BYTES: nat := 12288
  const MAX_FCMP_ANON_SET: nat := 64
}

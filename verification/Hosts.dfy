/** The host functions the runtime calls: everything below this boundary is a parameter of the
  * chain's rules.
  */
module Hosts {
  import opened Bytes

  datatype Host = Host(
    /** BLAKE2b-256. */
    blake: Bytes -> Bytes32,
    /** `is_valid_point_v1`. */
    isValidPoint: Bytes32 -> bool,
    /** CLSAG over up to 64 members: message, ring blob, C', key image, signature. */
    clsag: (Bytes, Bytes, Bytes, Bytes, Bytes) -> bool,
    /** `verify_balance_v1` over concatenated commitments. */
    balance: (Bytes, Bytes, u64) -> bool,
    /** `verify_range_proof_v1`. */
    range: (Bytes, Bytes) -> bool,
    /** `value_commitment_v1`. */
    valueCommitment: u64 -> Bytes32)
}

/** The native verifiers behind the host functions: commitments, balance and range proofs. */
module Native {
  import opened Bytes
  import opened Limits
  import opened Group
  import opened Tree
  import opened Hosts
  import Clsag
  import FcmpCodec

  const MAX_AGGREGATED: nat := MAX_OUTPUTS

  /** A value on `H` and a blinding on `G`. */
  datatype Opening = Opening(value: Scalar, blinding: Scalar)

  function CommitTo(c: Suite, o: Opening): Point {
    Plus(Scale(c.h, o.value), Scale(G, o.blinding))
  }

  function CommitBytes(c: Suite, o: Opening): Bytes32 {
    (c.compress)(CommitTo(c, o))
  }

  function CommitAll(c: Suite, os: seq<Opening>): (cs: seq<Bytes32>)
    ensures |cs| == |os|
  {
    seq(|os|, i requires 0 <= i < |os| => CommitBytes(c, os[i]))
  }

  /** `native::commit`: `None` for a blinding that is not a canonical scalar. */
  function Commit(c: Suite, amount: u64, blinding: Bytes): Option<Bytes32> {
    match ScalarFrom(blinding)
    case None => None
    case Some(x) => Some(CommitBytes(c, Opening(amount, x)))
  }

  function ValueCommitment(c: Suite, amount: u64): Bytes32 {
    CommitBytes(c, Opening(amount, 0))
  }

  // ---- parsing concatenated points ----------------------------------------

  function ParsePoints(blob: Bytes): Option<seq<Bytes32>> {
    if |blob| % 32 != 0 then None else Some(seq(|blob| / 32, i requires 0 <= i < |blob| / 32 => blob[32 * i..32 * i + 32]))
  }

  lemma ParseFlatten(cs: seq<Bytes32>)
    ensures ParsePoints(Flatten(cs)) == Some(cs)
  {
    FlattenLength(cs, 32);
    forall i | 0 <= i < |cs|
      ensures Flatten(cs)[32 * i..32 * i + 32] == cs[i]
    {
      FlattenChunk(cs, 32, i);
    }
    assert ParsePoints(Flatten(cs)).value == cs;
  }

  function DecompressAll(c: Suite, points: seq<Bytes32>): (r: Option<seq<Point>>)
    ensures r.Some? ==> |r.value| == |points|
  {
    if forall i :: 0 <= i < |points| ==> (c.decompress)(points[i]).Some? then
      Some(seq(|points|, i requires 0 <= i < |points| => (c.decompress)(points[i]).value))
    else
      None
  }

  // ---- balance ------------------------------------------------------------

  function SumPoints(ps: seq<Point>): Point {
    if ps == [] then IDENTITY else Plus(SumPoints(ps[..|ps| - 1]), ps[|ps| - 1])
  }

  /** `native::verify_balance`: `Σ inputs = Σ outputs + fee·H`, over points that all decode. */
  predicate VerifyBalance(c: Suite, inputs: Bytes, outputs: Bytes, fee: u64) {
    match (ParsePoints(inputs), ParsePoints(outputs))
    case (Some(inBytes), Some(outBytes)) =>
      (match (DecompressAll(c, inBytes), DecompressAll(c, outBytes))
       case (Some(ins), Some(outs)) =>
         ins != [] && outs != [] && SumPoints(ins) == Plus(SumPoints(outs), Scale(c.h, fee))
       case _ => false)
    case _ => false
  }

  /** Nothing balances without a point on each side, or with bytes that are not encodings of points. */
  lemma BalanceNeedsPoints(c: Suite, inputs: Bytes, outputs: Bytes, fee: u64)
    requires VerifyBalance(c, inputs, outputs, fee)
    ensures |inputs| >= 32 && |inputs| % 32 == 0 && |outputs| >= 32 && |outputs| % 32 == 0
    ensures forall i :: 0 <= i < |inputs| / 32 ==> (c.decompress)(inputs[32 * i..32 * i + 32]).Some?
    ensures forall j :: 0 <= j < |outputs| / 32 ==> (c.decompress)(outputs[32 * j..32 * j + 32]).Some?
  {
    var ins, outs := ParsePoints(inputs).value, ParsePoints(outputs).value;
    forall i | 0 <= i < |inputs| / 32
      ensures (c.decompress)(inputs[32 * i..32 * i + 32]).Some?
    {
      assert (c.decompress)(ins[i]).Some?;
    }
    forall j | 0 <= j < |outputs| / 32
      ensures (c.decompress)(outputs[32 * j..32 * j + 32]).Some?
    {
      assert (c.decompress)(outs[j]).Some?;
    }
  }

  function TotalValue(os: seq<Opening>): Scalar {
    if os == [] then 0 else Add(TotalValue(os[..|os| - 1]), os[|os| - 1].value)
  }

  function TotalBlinding(os: seq<Opening>): Scalar {
    if os == [] then 0 else Add(TotalBlinding(os[..|os| - 1]), os[|os| - 1].blinding)
  }

  function CommitPoints(c: Suite, os: seq<Opening>): (ps: seq<Point>)
    ensures |ps| == |os|
  {
    seq(|os|, i requires 0 <= i < |os| => CommitTo(c, os[i]))
  }

  lemma PlusExchange(a: Point, b: Point, x: Point, y: Point)
    ensures Plus(Plus(a, b), Plus(x, y)) == Plus(Plus(a, x), Plus(b, y))
  {
  }

  /** Commitments add up: the sum commits to the totals. */
  lemma {:induction false} SumOfCommitments(c: Suite, os: seq<Opening>)
    ensures SumPoints(CommitPoints(c, os)) == CommitTo(c, Opening(TotalValue(os), TotalBlinding(os)))
  {
    if os == [] {
    } else {
      var most, last := os[..|os| - 1], os[|os| - 1];
      SumOfCommitments(c, most);
      assert CommitPoints(c, os)[..|os| - 1] == CommitPoints(c, most);
      ScaleAdd(c.h, TotalValue(most), last.value);
      ScaleAdd(G, TotalBlinding(most), last.blinding);
      PlusExchange(Scale(c.h, TotalValue(most)), Scale(G, TotalBlinding(most)), Scale(c.h, last.value), Scale(G, last.blinding));
    }
  }

  lemma DecompressCommitments(c: Suite, os: seq<Opening>)
    requires c.Canonical()
    ensures DecompressAll(c, CommitAll(c, os)) == Some(CommitPoints(c, os))
  {
    forall i | 0 <= i < |os|
      ensures (c.decompress)(CommitAll(c, os)[i]) == Some(CommitPoints(c, os)[i])
    {
      assert (c.decompress)((c.compress)(CommitTo(c, os[i]))) == Some(CommitTo(c, os[i]));
    }
    assert DecompressAll(c, CommitAll(c, os)).value == CommitPoints(c, os);
  }

  /** The balance check on commitments whose openings are known. */
  lemma BalanceOfCommitments(c: Suite, ins: seq<Opening>, outs: seq<Opening>, fee: u64)
    requires c.Canonical() && ins != [] && outs != []
    ensures VerifyBalance(c, Flatten(CommitAll(c, ins)), Flatten(CommitAll(c, outs)), fee) <==>
            CommitTo(c, Opening(TotalValue(ins), TotalBlinding(ins))) ==
            CommitTo(c, Opening(Add(TotalValue(outs), fee), TotalBlinding(outs)))
  {
    ParseFlatten(CommitAll(c, ins));
    ParseFlatten(CommitAll(c, outs));
    DecompressCommitments(c, ins);
    DecompressCommitments(c, outs);
    SumOfCommitments(c, ins);
    SumOfCommitments(c, outs);
    ScaleAdd(c.h, TotalValue(outs), fee);
    PlusExchange(Scale(c.h, TotalValue(outs)), Scale(G, TotalBlinding(outs)), Scale(c.h, fee), IDENTITY);
  }

  /** Completeness: equal totals pass. Soundness: if the check passes, either the totals agree or
    * the parties know a discrete-logarithm relation between `H` and `G`.
    */
  lemma BalanceOrRelation(c: Suite, ins: seq<Opening>, outs: seq<Opening>, fee: u64)
    requires c.Canonical() && ins != [] && outs != []
    ensures var value, blinding := Sub(TotalValue(ins), Add(TotalValue(outs), fee)), Sub(TotalBlinding(outs), TotalBlinding(ins));
            VerifyBalance(c, Flatten(CommitAll(c, ins)), Flatten(CommitAll(c, outs)), fee) <==> Scale(c.h, value) == Scale(G, blinding)
  {
    var value, blinding := Sub(TotalValue(ins), Add(TotalValue(outs), fee)), Sub(TotalBlinding(outs), TotalBlinding(ins));
    BalanceOfCommitments(c, ins, outs, fee);
    ScaleAdd(c.h, Add(TotalValue(outs), fee), value);
    ScaleAdd(G, TotalBlinding(ins), blinding);
    assert Add(Add(TotalValue(outs), fee), value) == TotalValue(ins);
    assert Add(TotalBlinding(ins), blinding) == TotalBlinding(outs);
  }

  /** `native::balancing_blinding`: `Σ first − Σ second`. */
  function SumScalars(bs: seq<Bytes32>): Option<Scalar> {
    if bs == [] then Some(0)
    else match (SumScalars(bs[..|bs| - 1]), ScalarFrom(bs[|bs| - 1]))
      case (Some(acc), Some(s)) => Some(Add(acc, s))
      case _ => None
  }

  lemma {:induction false} CanonicalBlindings(blindings: seq<Bytes32>)
    requires SumScalars(blindings).Some?
    ensures forall i :: 0 <= i < |blindings| ==> ScalarFrom(blindings[i]).Some?
  {
    if blindings != [] {
      CanonicalBlindings(blindings[..|blindings| - 1]);
    }
  }

  function BalancingBlinding(first: seq<Bytes32>, second: seq<Bytes32>): Option<Bytes32> {
    match (SumScalars(first), SumScalars(second))
    case (Some(a), Some(b)) => Some(ScalarBytes(Sub(a, b)))
    case _ => None
  }

  /** Adding the balancing blinding to the second list makes the two sums equal. */
  lemma BalancingBlindingBalances(first: seq<Bytes32>, second: seq<Bytes32>)
    requires BalancingBlinding(first, second).Some?
    ensures SumScalars(second + [BalancingBlinding(first, second).value]) == SumScalars(first)
  {
    var last := BalancingBlinding(first, second).value;
    var a, b := SumScalars(first).value, SumScalars(second).value;
    assert (second + [last])[..|second|] == second;
    ScalarRoundTrip(Sub(a, b));
    assert Add(b, Sub(a, b)) == a;
  }

  // ---- range proofs -------------------------------------------------------

  /** The Bulletproofs library. */
  datatype Bulletproofs = Bulletproofs(
    prove: (seq<u64>, seq<Scalar>) -> Option<(Bytes, seq<Bytes32>)>,
    verify: (Bytes, seq<Bytes32>) -> bool)
  {
    /** A proof over a power-of-two number of commitments verifies against those commitments. */
    ghost predicate Complete(c: Suite) {
      forall values: seq<u64>, blindings: seq<Scalar> ::
        |values| == |blindings| && IsPowerOfTwo(|values|) && prove(values, blindings).Some? ==>
          && prove(values, blindings).value.1 == CommitAll(c, Openings(values, blindings))
          && verify(prove(values, blindings).value.0, prove(values, blindings).value.1)
    }

    /** Proving never fails for up to eight values, and the proof fits a transaction. */
    ghost predicate Reliable() {
      forall values: seq<u64>, blindings: seq<Scalar> ::
        |values| == |blindings| <= MAX_AGGREGATED && IsPowerOfTwo(|values|) ==>
          prove(values, blindings).Some? && |prove(values, blindings).value.0| <= MAX_RANGE_PROOF_BYTES
    }
  }

  function Openings(values: seq<u64>, blindings: seq<Scalar>): (os: seq<Opening>)
    requires |values| == |blindings|
    ensures |os| == |values|
  {
    seq(|values|, i requires 0 <= i < |values| => Opening(values[i], blindings[i]))
  }

  predicate IsPowerOfTwo(n: nat) {
    n == 1 || (n > 1 && n % 2 == 0 && IsPowerOfTwo(n / 2))
  }

  lemma {:induction false} Pow2IsPowerOfTwo(d: nat)
    ensures IsPowerOfTwo(Pow2(d))
  {
    if d > 0 {
      Pow2IsPowerOfTwo(d - 1);
    }
  }

  /** The next power of two. */
  lemma {:induction false} NextPowerOfTwo(n: nat, m: nat)
    requires 1 <= n <= m && IsPowerOfTwo(m)
    ensures m >= Pow2(Depth(n))
  {
    if n > 1 {
      NextPowerOfTwo((n + 1) / 2, m / 2);
    }
  }

  /** `s` lengthened with `x` to the next power of two. */
  function PadTo<T>(s: seq<T>, x: T, n: nat): (r: seq<T>)
    requires n >= |s|
    ensures |r| == n
  {
    s + seq(n - |s|, _ => x)
  }

  function PadPoints(c: Suite, points: seq<Bytes32>): seq<Bytes32> {
    DepthIsLeast(|points|);
    PadTo(points, (c.compress)(IDENTITY), Pow2(Depth(|points|)))
  }

  /** When `verify_range_proof` accepts. */
  predicate RangeAccepts(c: Suite, bp: Bulletproofs, proof: Bytes, commitments: Bytes) {
    match ParsePoints(commitments)
    case None => false
    case Some(points) => 1 <= |points| <= MAX_AGGREGATED && (bp.verify)(proof, PadPoints(c, points))
  }

  /** One to eight commitments are checked, and the library sees them first, then only identities, up
    * to a power of two.
    */
  lemma RangeAcceptsExactly(c: Suite, bp: Bulletproofs, proof: Bytes, cs: seq<Bytes32>)
    ensures RangeAccepts(c, bp, proof, Flatten(cs)) <==> 1 <= |cs| <= 8 && (bp.verify)(proof, PadPoints(c, cs))
    ensures var padded := PadPoints(c, cs);
            && |padded| >= |cs| && padded[..|cs|] == cs
            && forall j :: |cs| <= j < |padded| ==> padded[j] == (c.compress)(IDENTITY)
    ensures 1 <= |cs| ==> IsPowerOfTwo(|PadPoints(c, cs)|) && |PadPoints(c, cs)| < 2 * |cs|
  {
    ParseFlatten(cs);
    Pow2IsPowerOfTwo(Depth(|cs|));
    if |cs| >= 1 {
      DepthIsLeast(|cs|);
    }
  }

  method VerifyRangeProof(c: Suite, bp: Bulletproofs, proof: Bytes, commitments: Bytes) returns (ok: bool)
    ensures ok <==> RangeAccepts(c, bp, proof, commitments)
  {
    var parsed := ParsePoints(commitments);
    if parsed.None? || parsed.value == [] || |parsed.value| > MAX_AGGREGATED {
      return false;
    }
    var points := parsed.value;
    ghost var goal := Pow2(Depth(|points|));
    DepthIsLeast(|points|);
    Pow2IsPowerOfTwo(Depth(|points|));
    while !IsPowerOfTwo(|points|)
      invariant |parsed.value| <= |points| <= goal
      invariant points == PadTo(parsed.value, (c.compress)(IDENTITY), |points|)
      decreases goal - |points|
    {
      points := points + [(c.compress)(IDENTITY)];
    }
    NextPowerOfTwo(|parsed.value|, |points|);
    return (bp.verify)(proof, points);
  }

  /** Decode every blinding; `None` if one is not canonical. */
  method DecodeScalars(blindings: seq<Bytes32>) returns (r: Option<seq<Scalar>>)
    ensures r.Some? ==> |r.value| == |blindings| && forall j :: 0 <= j < |blindings| ==> ScalarFrom(blindings[j]) == Some(r.value[j])
    ensures SumScalars(blindings).Some? ==> r.Some?
  {
    var scalars := [];
    for i := 0 to |blindings|
      invariant |scalars| == i
      invariant forall j :: 0 <= j < i ==> ScalarFrom(blindings[j]) == Some(scalars[j])
    {
      var s := ScalarFrom(blindings[i]);
      if s.None? {
        if SumScalars(blindings).Some? {
          CanonicalBlindings(blindings);
        }
        return None;
      }
      scalars := scalars + [s.value];
    }
    return Some(scalars);
  }

  /** Lengthen values and blindings with zeros to the next power of two. */
  method PadOpenings(values: seq<u64>, scalars: seq<Scalar>) returns (vs: seq<u64>, ss: seq<Scalar>)
    requires |values| == |scalars| > 0
    ensures |values| <= |vs| == |ss| == Pow2(Depth(|values|)) && IsPowerOfTwo(|vs|)
    ensures vs == PadTo(values, 0, |vs|) && ss == PadTo(scalars, 0, |ss|)
  {
    vs, ss := values, scalars;
    ghost var goal := Pow2(Depth(|values|));
    DepthIsLeast(|values|);
    Pow2IsPowerOfTwo(Depth(|values|));
    while !IsPowerOfTwo(|vs|)
      invariant |values| <= |vs| == |ss| <= goal
      invariant vs == PadTo(values, 0, |vs|) && ss == PadTo(scalars, 0, |ss|)
      decreases goal - |vs|
    {
      vs, ss := vs + [0], ss + [0];
    }
    NextPowerOfTwo(|values|, |vs|);
  }

  /** Prover and verifier pad alike. */
  lemma PaddedProofAccepted(c: Suite, bp: Bulletproofs, values: seq<u64>, scalars: seq<Scalar>, vs: seq<u64>, ss: seq<Scalar>)
    requires bp.Complete(c) && 1 <= |values| == |scalars| <= MAX_AGGREGATED
    requires |values| <= |vs| == |ss| == Pow2(Depth(|values|)) && IsPowerOfTwo(|vs|)
    requires vs == PadTo(values, 0, |vs|) && ss == PadTo(scalars, 0, |ss|)
    requires (bp.prove)(vs, ss).Some?
    ensures var (proof, commitments) := (bp.prove)(vs, ss).value;
            && |commitments| == |vs| && commitments[..|values|] == CommitAll(c, Openings(values, scalars))
            && RangeAccepts(c, bp, proof, Flatten(commitments[..|values|]))
  {
    var (proof, commitments) := (bp.prove)(vs, ss).value;
    assert commitments == CommitAll(c, Openings(vs, ss)) && (bp.verify)(proof, commitments);
    PaddingCommits(c, values, scalars, |vs|);
    ParseFlatten(CommitAll(c, Openings(values, scalars)));
  }

  /** A proof made by `prove_range` is accepted for the commitments it returns, which are those of
    * the values given.
    */
  method ProveRange(c: Suite, bp: Bulletproofs, values: seq<u64>, blindings: seq<Bytes32>)
    returns (r: Option<(Bytes, seq<Bytes32>)>)
    requires bp.Complete(c)
    ensures r.Some? ==> 1 <= |values| == |blindings| == |r.value.1| <= MAX_AGGREGATED
    ensures r.Some? ==> forall i :: 0 <= i < |values| ==> Commit(c, values[i], blindings[i]) == Some(r.value.1[i])
    ensures r.Some? ==> RangeAccepts(c, bp, r.value.0, Flatten(r.value.1))
    ensures bp.Reliable() && 1 <= |values| == |blindings| <= MAX_AGGREGATED && SumScalars(blindings).Some? ==>
      r.Some? && |r.value.0| <= MAX_RANGE_PROOF_BYTES
  {
    if values == [] || |values| != |blindings| || |values| > MAX_AGGREGATED {
      return None;
    }
    var scalars := DecodeScalars(blindings);
    if scalars.None? {
      return None;
    }
    var vs, ss := PadOpenings(values, scalars.value);
    NextPowerOfTwo(|values|, MAX_AGGREGATED);
    var proved := (bp.prove)(vs, ss);
    if proved.None? {
      return None;
    }
    PaddedProofAccepted(c, bp, values, scalars.value, vs, ss);
    var (proof, commitments) := proved.value;
    return Some((proof, commitments[..|values|]));
  }

  /** Padding the values and blindings with zeros pads the commitments with the identity. */
  lemma PaddingCommits(c: Suite, values: seq<u64>, scalars: seq<Scalar>, n: nat)
    requires |values| == |scalars| <= n
    ensures CommitAll(c, Openings(PadTo(values, 0, n), PadTo(scalars, 0, n))) ==
            PadTo(CommitAll(c, Openings(values, scalars)), (c.compress)(IDENTITY), n)
    ensures CommitAll(c, Openings(PadTo(values, 0, n), PadTo(scalars, 0, n)))[..|values|] == CommitAll(c, Openings(values, scalars))
  {
    assert CommitTo(c, Opening(0, 0)) == IDENTITY;
  }

  // ---- the host -----------------------------------------------------------

  /** The host functions of a node: the native verifiers over `c` and `bp`. */
  function NativeHost(c: Suite, bp: Bulletproofs): Host {
    Host(c.blake,
         (b: Bytes32) => c.IsValidPoint(b),
         (msg, blob, pseudo, keyImage, sig) => Clsag.Verifies(c, msg, blob, pseudo, keyImage, sig, FcmpCodec.MAX_FCMP_RING),
         (ins: Bytes, outs: Bytes, fee: u64) => VerifyBalance(c, ins, outs, fee),
         (proof, commitments) => RangeAccepts(c, bp, proof, commitments),
         (amount: u64) => ValueCommitment(c, amount))
  }
}

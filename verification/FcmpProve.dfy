/** The full-membership prover, and its completeness against the verifier. */
module FcmpProve {
  import opened Bytes
  import opened Limits
  import opened Group
  import opened Merkle
  import opened FcmpCodec
  import opened Fcmp
  import opened ClsagSign
  import opened Native
  import Clsag

  datatype ProveWitness = ProveWitness(digests: seq<Bytes32>, admitted: seq<RingMember>, spent: nat, secret: Bytes32,
                                       inputBlinding: Bytes32, pseudoBlinding: Bytes32)

  datatype ProveResult = ProveResult(proof: Bytes, keyImage: Bytes32, pseudo: Bytes32)

  /** When `prove` succeeds: sizes within bounds, `admitted` exactly the non-EMPTY leaves in slot
    * order, and the real member's secret known.
    */
  predicate Provable(c: Suite, w: ProveWitness) {
    && 1 <= |w.digests| <= MAX_FCMP_ANON_SET && 1 <= |w.admitted| <= MAX_FCMP_RING
    && FullRing(c.blake, w.digests, w.admitted)
    && CanSign(c, RingBlob(w.admitted), w.spent, w.secret, w.inputBlinding, w.pseudoBlinding, MAX_FCMP_RING)
  }

  /** Member `k` is the first one claiming slot `i`, and opens its digest. */
  predicate Matches(h: Hash, digests: seq<Bytes32>, ring: seq<RingMember>, i: nat, k: nat)
    requires i < |digests|
  {
    k < |ring| && ring[k].treeIndex == i && LeafHash(h, ring[k].key, ring[k].commitment) == digests[i]
  }

  /** `iter().find`: the first member claiming slot `i`. */
  method FindMember(ring: seq<RingMember>, i: nat) returns (k: nat)
    ensures k <= |ring|
    ensures k < |ring| ==> ring[k].treeIndex == i
    ensures forall j :: 0 <= j < k ==> ring[j].treeIndex != i
  {
    k := 0;
    while k < |ring| && ring[k].treeIndex != i
      invariant k <= |ring|
      invariant forall j :: 0 <= j < k ==> ring[j].treeIndex != i
    {
      k := k + 1;
    }
  }

  /** The prover's scan: every non-EMPTY digest has a member opening it. */
  method CoversFilled(h: Hash, digests: seq<Bytes32>, ring: seq<RingMember>) returns (covered: bool)
    ensures covered ==> forall i :: 0 <= i < |digests| && digests[i] != EmptyLeafHash(h) ==> exists k :: Matches(h, digests, ring, i, k)
    ensures !covered ==> !FullRing(h, digests, ring)
  {
    var empty := EmptyLeafHash(h);
    var i := 0;
    while i < |digests|
      invariant 0 <= i <= |digests|
      invariant forall j :: 0 <= j < i && digests[j] != empty ==> exists k :: Matches(h, digests, ring, j, k)
    {
      if digests[i] != empty {
        var k := FindMember(ring, i);
        if k == |ring| {
          assert !Listed(ring, i);
          return false;
        }
        if LeafHash(h, ring[k].key, ring[k].commitment) != digests[i] {
          assert !Opens(h, digests, ring[k]);
          return false;
        }
        assert Matches(h, digests, ring, i, k);
      }
      i := i + 1;
    }
    return true;
  }

  lemma FilledFits(h: Hash, digests: seq<Bytes32>, n: nat)
    requires n <= |digests|
    ensures |FilledBelow(h, digests, n)| <= n
  {
    if n > 0 {
      FilledFits(h, digests, n - 1);
      FilledGrows(h, digests, n - 1);
    }
  }

  /** A full ring is no larger than its tree. */
  lemma FullRingFits(h: Hash, digests: seq<Bytes32>, ring: seq<RingMember>)
    requires FullRing(h, digests, ring)
    ensures |ring| <= |digests|
  {
    FullRingCounts(h, digests, ring);
    FilledFits(h, digests, |digests|);
  }

  /** The prover's checks together decide "full ring". */
  method WitnessIsFull(h: Hash, digests: seq<Bytes32>, ring: seq<RingMember>) returns (full: bool)
    ensures full <==> FullRing(h, digests, ring)
  {
    var covered := CoversFilled(h, digests, ring);
    if !covered {
      return false;
    }
    var nonEmpty := CountFilled(h, digests);
    if nonEmpty != |ring| {
      if FullRing(h, digests, ring) {
        FullRingCounts(h, digests, ring);
      }
      return false;
    }
    var ordered := IsIncreasing(ring);
    if !ordered {
      return false;
    }
    forall i | 0 <= i < |digests| && digests[i] != EmptyLeafHash(h)
      ensures exists k :: 0 <= k < |ring| && ring[k].treeIndex == i && LeafHash(h, ring[k].key, ring[k].commitment) == digests[i]
    {
      var k :| Matches(h, digests, ring, i, k);
    }
    CountingGivesFullRing(h, digests, ring);
    return true;
  }

  /** An encoded proof over a full ring with a verifying signature is accepted. */
  lemma AssembledProofAccepted(c: Suite, bp: Bulletproofs, msg: Bytes32, p: FcmpProof, pseudo: Bytes32, keyImage: Bytes32)
    requires p.Legal() && FullRing(c.blake, p.digests, p.ring)
    requires c.IsValidPoint(keyImage) && c.IsValidPoint(pseudo)
    requires Clsag.Verifies(c, msg, RingBlob(p.ring), pseudo, keyImage, p.clsag, MAX_FCMP_RING)
    ensures Accepts(NativeHost(c, bp), msg, Root(c.blake, p.digests), pseudo, keyImage, Wire(p))
  {
    ParseWire(p);
    LegalFitsTheCap(p);
  }

  /** `prove` succeeds exactly on provable witnesses. The key image is the secret's, C' re-blinds
    * the real commitment, and unless one of them is the identity the proof is accepted under the
    * root of the witness's digests. The encoder's size limit never gets in the way.
    */
  method Prove(c: Suite, ghost bp: Bulletproofs, msg: Bytes32, w: ProveWitness, a: Scalar, drawn: seq<Scalar>)
    returns (r: Option<ProveResult>)
    requires c.Canonical() && |drawn| == |w.admitted|
    ensures r.Some? <==> Provable(c, w)
    ensures r.Some? ==> Some(r.value.keyImage) == KeyImage(c, w.secret)
    ensures r.Some? ==>
      r.value.pseudo == (c.compress)(PseudoPoint(c, RingBlob(w.admitted), w.spent, w.inputBlinding, w.pseudoBlinding))
    ensures r.Some? ==> Parse(r.value.proof).Some? && Parse(r.value.proof).value.ring == w.admitted
    ensures r.Some? ==> DrawnFrom(c, msg, RingBlob(w.admitted), r.value.pseudo, r.value.keyImage, Parse(r.value.proof).value.clsag,
                                  w.spent, a, drawn)
    ensures r.Some? ==> |r.value.proof| == WireLength(|w.digests|, |w.admitted|) <= MAX_FCMP_PROOF_BYTES
    ensures r.Some? && c.IsValidPoint(r.value.keyImage) && c.IsValidPoint(r.value.pseudo) ==>
      Accepts(NativeHost(c, bp), msg, Root(c.blake, w.digests), r.value.pseudo, r.value.keyImage, r.value.proof)
  {
    var slots, members := |w.digests|, |w.admitted|;
    if members > 0 {
      RingBlobReads(w.admitted, 0);
    }
    if slots == 0 || slots > MAX_FCMP_ANON_SET || members == 0 || members > MAX_FCMP_RING || w.spent >= members {
      return None;
    }
    var full := WitnessIsFull(c.blake, w.digests, w.admitted);
    if !full {
      return None;
    }
    FullRingFits(c.blake, w.digests, w.admitted);
    var blob := BuildRingBlob(w.admitted);
    var signed := SignWithMax(c, msg, blob, w.spent, w.secret, w.inputBlinding, w.pseudoBlinding, a, drawn, MAX_FCMP_RING);
    if signed.None? {
      return None;
    }
    var p := FcmpProof(w.digests, w.admitted, signed.value.signature);
    var bytes := Encode(p);
    LegalFitsTheCap(p);
    ParseWire(p);
    if c.IsValidPoint(signed.value.keyImage) && c.IsValidPoint(signed.value.pseudo) {
      AssembledProofAccepted(c, bp, msg, p, signed.value.pseudo, signed.value.keyImage);
    }
    return Some(ProveResult(bytes.value, signed.value.keyImage, signed.value.pseudo));
  }
}

/** What accepted signatures and range proofs are evidence of, as relations on points and openings.
  *
  * Nothing is assumed about how the value generator relates to the base point: where two openings
  * of one point meet, the relation between the generators is computed from them.
  */
module Ideal {
  import opened Bytes
  import opened Group
  import opened Hosts
  import opened Clsag
  import opened FcmpCodec
  import opened Native
  import opened Transactions
  import Fcmp
  import ClsagSign

  // ---- openings -----------------------------------------------------------

  /** The opening somebody knows of each confidential commitment. */
  type Known = Bytes32 -> Opening

  /** `o` opens the point encoded by `b`. */
  ghost predicate OpensTo(c: Suite, b: Bytes32, o: Opening) {
    (c.decompress)(b) == Some(CommitTo(c, o))
  }

  /** The known opening is right, and its value is a 64-bit one. */
  ghost predicate InRange(c: Suite, open: Known, b: Bytes32) {
    OpensTo(c, b, open(b)) && open(b).value < U64_BOUND
  }

  /** An opening, as bytes, is the commitment it opens. */
  lemma OpenedBytes(c: Suite, b: Bytes32, o: Opening)
    requires c.Canonical() && OpensTo(c, b, o)
    ensures CommitBytes(c, o) == b
  {
    assert (c.compress)((c.decompress)(b).value) == b;
  }

  // ---- signatures ---------------------------------------------------------

  /** What the maker of a signature knows: the position it spends, its secret, and the re-blinding. */
  datatype Witness = Witness(l: nat, x: Scalar, z: Scalar)

  /** The witness somebody knows of each signature: message, ring blob, C', key image, signature. */
  type Signers = (Bytes, Bytes, Bytes, Bytes, Bytes) -> Witness

  /** The relation a CLSAG proves: `P_l = x·G`, `I = x·Hp(P_l)`, `C_l − C' = z·G`. */
  predicate SpendsAt(c: Suite, blob: Bytes, pseudo: Bytes, keyImage: Bytes, w: Witness) {
    && |pseudo| == 32 && |keyImage| == 32 && w.l < RingSize(blob) && Decodes(c, blob, w.l)
    && KeyAt(c, blob, w.l) == Scale(G, w.x)
    && keyImage == (c.compress)(Scale(HashToPoint(c, KeyBytes(blob, w.l)), w.x))
    && (c.decompress)(pseudo).Some?
    && Minus(CommitmentAt(c, blob, w.l), (c.decompress)(pseudo).value) == Scale(G, w.z)
  }

  lemma MinusSwap(p: Point, q: Point, r: Point)
    ensures Minus(p, q) == r <==> q == Minus(p, r)
  {
  }

  /** A witness fixes the amount side too: the only key image and the only C' it explains are
    * `x·Hp(P_l)` and `C_l − z·G`, and those it does explain.
    */
  lemma WitnessPins(c: Suite, blob: Bytes, pseudo: Bytes32, keyImage: Bytes32, w: Witness)
    requires c.Canonical() && w.l < RingSize(blob) && Decodes(c, blob, w.l)
    ensures SpendsAt(c, blob, pseudo, keyImage, w) <==>
            && KeyBytes(blob, w.l) == (c.compress)(Scale(G, w.x))
            && keyImage == (c.compress)(Scale(HashToPoint(c, KeyBytes(blob, w.l)), w.x))
            && pseudo == (c.compress)(Minus(CommitmentAt(c, blob, w.l), Scale(G, w.z)))
  {
    var key, target := KeyBytes(blob, w.l), Minus(CommitmentAt(c, blob, w.l), Scale(G, w.z));
    assert (c.decompress)((c.compress)(target)) == Some(target);
    assert (c.decompress)((c.compress)(Scale(G, w.x))) == Some(Scale(G, w.x));
    assert (c.compress)((c.decompress)(key).value) == key;
    if (c.decompress)(pseudo).Some? {
      assert (c.compress)((c.decompress)(pseudo).value) == pseudo;
      MinusSwap(CommitmentAt(c, blob, w.l), (c.decompress)(pseudo).value, Scale(G, w.z));
    }
  }

  /** Whoever owns the opening `o` of member `l`'s commitment and its secret `x`, and publishes its
    * key image and a fresh commitment to the same value, is a witness.
    */
  lemma OwnerIsWitness(c: Suite, blob: Bytes, l: nat, x: Scalar, o: Opening, blinding: Scalar)
    requires c.Canonical() && l < RingSize(blob) && KeyBytes(blob, l) == (c.compress)(Scale(G, x))
    requires OpensTo(c, CommitmentBytes(blob, l), o)
    ensures SpendsAt(c, blob, CommitBytes(c, Opening(o.value, blinding)), (c.compress)(Scale(HashToPoint(c, KeyBytes(blob, l)), x)),
                     Witness(l, x, Sub(o.blinding, blinding)))
  {
    CommitmentOpens(c, Opening(o.value, blinding));
    assert (c.decompress)((c.compress)(Scale(G, x))) == Some(Scale(G, x));
    ScaleG(o.blinding);
    ScaleG(blinding);
    ScaleG(Sub(o.blinding, blinding));
  }

  /** So is everybody the signing code signs for: what `sign_with_max` publishes, its arguments explain. */
  lemma SignerIsWitness(c: Suite, blob: Bytes, spent: nat, secret: Bytes, inputBlinding: Bytes, pseudoBlinding: Bytes, maxN: nat)
    requires c.Canonical() && ClsagSign.CanSign(c, blob, spent, secret, inputBlinding, pseudoBlinding, maxN)
    ensures SpendsAt(c, blob, (c.compress)(ClsagSign.PseudoPoint(c, blob, spent, inputBlinding, pseudoBlinding)),
                     ClsagSign.KeyImage(c, secret).value,
                     Witness(spent, ScalarFrom(secret).value, Sub(ScalarFrom(inputBlinding).value, ScalarFrom(pseudoBlinding).value)))
  {
    var w := Witness(spent, ScalarFrom(secret).value, Sub(ScalarFrom(inputBlinding).value, ScalarFrom(pseudoBlinding).value));
    var key := KeyBytes(blob, spent);
    assert Decodes(c, blob, spent) && (c.compress)((c.decompress)(key).value) == key;
    WitnessPins(c, blob, (c.compress)(ClsagSign.PseudoPoint(c, blob, spent, inputBlinding, pseudoBlinding)),
                ClsagSign.KeyImage(c, secret).value, w);
  }

  /** The known witness of the signature in an input's proof. */
  ghost function WitnessOf(know: Signers, msg: Bytes, input: FcmpInput): Witness {
    match Parse(input.proof)
    case None => Witness(0, 0, 0)
    case Some(p) => know(msg, Fcmp.RingBlob(p.ring), input.pseudo, input.keyImage, p.clsag)
  }

  /** The known witness of this input is right. */
  ghost predicate Witnessed(c: Suite, know: Signers, msg: Bytes, input: FcmpInput) {
    && Parse(input.proof).Some?
    && SpendsAt(c, Fcmp.RingBlob(Parse(input.proof).value.ring), input.pseudo, input.keyImage, WitnessOf(know, msg, input))
  }

  /** The key image of a one-time key: `x·Hp(P)` for the `x` with `P = x·G`. */
  function KeyImageFor(c: Suite, key: Bytes32): Bytes32 {
    match (c.decompress)(key)
    case None => key
    case Some(p) => (c.compress)(Scale(HashToPoint(c, key), p.log))
  }

  /** The pseudo-commitment differs from `commitment` by `z·G` only. */
  predicate Reblinds(c: Suite, commitment: Bytes32, pseudo: Bytes32, z: Scalar) {
    && (c.decompress)(commitment).Some? && (c.decompress)(pseudo).Some?
    && Minus((c.decompress)(commitment).value, (c.decompress)(pseudo).value) == Scale(G, z)
  }

  /** A witnessed input spends the member its witness names: the key image is that member's, and C'
    * re-blinds that member's commitment by the witness's `z`.
    */
  lemma WitnessedSpend(c: Suite, know: Signers, msg: Bytes, input: FcmpInput)
    requires Witnessed(c, know, msg, input)
    ensures var ring, w := Parse(input.proof).value.ring, WitnessOf(know, msg, input);
            && w.l < |ring| && input.keyImage == KeyImageFor(c, ring[w.l].key)
            && Reblinds(c, ring[w.l].commitment, input.pseudo, w.z)
  {
    var ring, w := Parse(input.proof).value.ring, WitnessOf(know, msg, input);
    Fcmp.RingBlobReads(ring, 0);
    Fcmp.RingBlobReads(ring, w.l);
    ScaleG(w.x);
  }

  /** Re-blinding moves the blinding and keeps the value: whoever opens C_l opens C' to the same value. */
  lemma ReblindKeepsValue(c: Suite, commitment: Bytes32, o: Opening, pseudo: Bytes32, z: Scalar)
    requires OpensTo(c, commitment, o) && Reblinds(c, commitment, pseudo, z)
    ensures OpensTo(c, pseudo, Opening(o.value, Sub(o.blinding, z)))
  {
    ScaleG(o.blinding);
    ScaleG(z);
    ScaleG(Sub(o.blinding, z));
  }

  /** An input that re-blinds an opened commitment and is itself opened to another value yields a
    * relation between the generators.
    */
  lemma SpendValueOrRelation(c: Suite, commitment: Bytes32, o: Opening, pseudo: Bytes32, p: Opening, z: Scalar)
    requires OpensTo(c, commitment, o) && OpensTo(c, pseudo, p) && Reblinds(c, commitment, pseudo, z)
    ensures p.value == o.value ||
            (Sub(o.value, p.value) != 0 && Scale(c.h, Sub(o.value, p.value)) == Scale(G, Sub(p.blinding, Sub(o.blinding, z))))
  {
    ReblindKeepsValue(c, commitment, o, pseudo, z);
    TwoOpeningsRelate(c, Opening(o.value, Sub(o.blinding, z)), p);
  }

  /** Two openings of one point are a relation between `H` and `G`. */
  lemma TwoOpeningsRelate(c: Suite, a: Opening, b: Opening)
    requires CommitTo(c, a) == CommitTo(c, b)
    ensures Scale(c.h, Sub(a.value, b.value)) == Scale(G, Sub(b.blinding, a.blinding))
  {
    ScaleAdd(c.h, b.value, Sub(a.value, b.value));
    ScaleAdd(G, a.blinding, Sub(b.blinding, a.blinding));
    assert Add(b.value, Sub(a.value, b.value)) == a.value && Add(a.blinding, Sub(b.blinding, a.blinding)) == b.blinding;
  }

  // ---- hosts --------------------------------------------------------------

  /** Hashing, balance and public commitments are the modelled ones. */
  ghost predicate NativeLedger(host: Host, c: Suite) {
    && host.blake == c.blake
    && (forall ins: Bytes, outs: Bytes, fee: u64 :: (host.balance)(ins, outs, fee) ==> VerifyBalance(c, ins, outs, fee))
    && (forall a: u64 :: (host.valueCommitment)(a) == ValueCommitment(c, a))
  }

  lemma NativeHostIsNative(c: Suite, bp: Bulletproofs)
    ensures NativeLedger(NativeHost(c, bp), c)
  {
  }

  /** The native host with CLSAG verification replaced by a look at what is known: a signature is
    * accepted when its known witness is right.
    */
  function IdealHost(c: Suite, bp: Bulletproofs, know: Signers): Host {
    NativeHost(c, bp).(clsag := (msg: Bytes, blob: Bytes, pseudo: Bytes, keyImage: Bytes, sig: Bytes) =>
                         SpendsAt(c, blob, pseudo, keyImage, know(msg, blob, pseudo, keyImage, sig)))
  }

  lemma IdealHostIsNative(c: Suite, bp: Bulletproofs, know: Signers)
    ensures NativeLedger(IdealHost(c, bp, know), c)
  {
  }

  /** The ideal host accepts only witnessed inputs, so it accepts no C' but `C_l − z·G` for the known
    * `l` and `z`.
    */
  lemma IdealSpendsAreWitnessed(c: Suite, bp: Bulletproofs, know: Signers, msg: Bytes, root: Bytes, input: FcmpInput)
    requires c.Canonical() && Fcmp.Accepts(IdealHost(c, bp, know), msg, root, input.pseudo, input.keyImage, input.proof)
    ensures Witnessed(c, know, msg, input)
    ensures var ring, w := Parse(input.proof).value.ring, WitnessOf(know, msg, input);
            && w.l < |ring| && (c.decompress)(ring[w.l].commitment).Some?
            && input.pseudo == (c.compress)(Minus((c.decompress)(ring[w.l].commitment).value, Scale(G, w.z)))
  {
    var ring, w := Parse(input.proof).value.ring, WitnessOf(know, msg, input);
    WitnessedSpend(c, know, msg, input);
    Fcmp.RingBlobReads(ring, w.l);
    WitnessPins(c, Fcmp.RingBlob(ring), input.pseudo, input.keyImage, w);
  }

  /** Whatever the library verifies is opened, to 64-bit values. */
  ghost predicate RangeLibrarySound(c: Suite, bp: Bulletproofs, open: Known) {
    forall proof: Bytes, points: seq<Bytes32>, j: nat {:trigger (bp.verify)(proof, points), points[j]} ::
      (bp.verify)(proof, points) && j < |points| ==> InRange(c, open, points[j])
  }

  /** If the range-proof library is sound, so is `verify_range_proof`: padding hides nothing. */
  lemma NativeRangeIsSound(c: Suite, bp: Bulletproofs, open: Known, proof: Bytes, outs: seq<Bytes32>, j: nat)
    requires RangeLibrarySound(c, bp, open) && RangeAccepts(c, bp, proof, Flatten(outs)) && j < |outs|
    ensures InRange(c, open, outs[j])
  {
    ParseFlatten(outs);
    assert PadPoints(c, outs)[j] == outs[j];
  }

  // ---- the hypotheses are consistent --------------------------------------

  function LogDecompress(b: Bytes32): Option<Point> {
    match ScalarFrom(b)
    case None => None
    case Some(x) => Some(Point(x))
  }

  const SECOND_GENERATOR: Point := Point(1_000_003)

  /** Encode a point as its logarithm, with a value generator other than the base point. */
  function LogSuite(blake: Bytes -> Bytes32): Suite {
    Suite(blake, b => 0, b => G, SECOND_GENERATOR, (p: Point) => ScalarBytes(p.log), (b: Bytes32) => LogDecompress(b))
  }

  lemma LogIsCanonical(blake: Bytes -> Bytes32)
    ensures LogSuite(blake).Canonical()
  {
    var c := LogSuite(blake);
    forall p: Point
      ensures (c.decompress)((c.compress)(p)) == Some(p)
    {
      ScalarRoundTrip(p.log);
    }
    forall b: Bytes32 | (c.decompress)(b).Some?
      ensures (c.compress)((c.decompress)(b).value) == b
    {
      ToFromLe(b);
    }
  }

  /** Know `o` for its own commitment, and for any other point a pure blinding. */
  function OneOpening(c: Suite, o: Opening, b: Bytes32): Opening {
    if b == CommitBytes(c, o) then o
    else match (c.decompress)(b)
      case None => Opening(0, 0)
      case Some(p) => Opening(0, p.log)
  }

  lemma CommitmentOpens(c: Suite, o: Opening)
    requires c.Canonical()
    ensures OpensTo(c, CommitBytes(c, o), o)
  {
    assert (c.decompress)((c.compress)(CommitTo(c, o))) == Some(CommitTo(c, o));
  }

  lemma PureBlinding(c: Suite, p: Point)
    ensures CommitTo(c, Opening(0, p.log)) == p
  {
    ScaleG(p.log);
  }

  lemma OneOpeningOpens(blake: Bytes -> Bytes32, o: Opening, b: Bytes32)
    requires o.value < U64_BOUND
    ensures var c := LogSuite(blake);
            (c.decompress)(b).Some? ==> OpensTo(c, b, OneOpening(c, o, b)) && OneOpening(c, o, b).value < U64_BOUND
  {
    var c := LogSuite(blake);
    LogIsCanonical(blake);
    if b == CommitBytes(c, o) {
      CommitmentOpens(c, o);
    } else if (c.decompress)(b).Some? {
      PureBlinding(c, (c.decompress)(b).value);
    }
  }

  /** A library that proves every 64-bit opening and verifies every list of points. */
  ghost function EveryPoint(c: Suite): Bulletproofs {
    Bulletproofs((values: seq<u64>, blindings: seq<Scalar>) =>
                   if |values| == |blindings| then Some(([], CommitAll(c, Openings(values, blindings)))) else None,
                 (proof: Bytes, points: seq<Bytes32>) => DecompressAll(c, points).Some?)
  }

  lemma EveryPointWorks(c: Suite)
    requires c.Canonical()
    ensures EveryPoint(c).Complete(c) && EveryPoint(c).Reliable()
  {
    forall values: seq<u64>, blindings: seq<Scalar> | |values| == |blindings|
      ensures DecompressAll(c, CommitAll(c, Openings(values, blindings))).Some?
    {
      DecompressCommitments(c, Openings(values, blindings));
    }
  }

  /** For any 64-bit amount and any blinding there are parameters under which that commitment is
    * known by that opening, encodings are canonical, the two generators differ, and the range-proof
    * library is sound, complete and reliable at once.
    */
  lemma HypothesesAreConsistent(blake: Bytes -> Bytes32, o: Opening) returns (c: Suite, bp: Bulletproofs, open: Known)
    requires o.value < U64_BOUND
    ensures c.blake == blake && c.Canonical() && c.h != G && c.h != IDENTITY
    ensures open(CommitBytes(c, o)) == o && InRange(c, open, CommitBytes(c, o))
    ensures RangeLibrarySound(c, bp, open) && bp.Complete(c) && bp.Reliable()
  {
    var suite := LogSuite(blake);
    c, bp, open := suite, EveryPoint(suite), (b: Bytes32) => OneOpening(suite, o, b);
    LogIsCanonical(blake);
    EveryPointWorks(c);
    forall b: Bytes32 | (c.decompress)(b).Some?
      ensures InRange(c, open, b)
    {
      OneOpeningOpens(blake, o, b);
    }
    CommitmentOpens(c, o);
  }
}

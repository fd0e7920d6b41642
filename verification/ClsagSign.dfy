/** CLSAG signing, and its completeness: whatever the signer returns, the verifier accepts. */
module ClsagSign {
  import opened Bytes
  import opened Group
  import opened Clsag

  datatype ClsagResult = ClsagResult(signature: Bytes, keyImage: Bytes32, pseudo: Bytes32)

  /** `clsag::key_image`: it depends on the one-time secret alone. */
  function KeyImage(c: Suite, secret: Bytes): Option<Bytes32> {
    match ScalarFrom(secret)
    case None => None
    case Some(x) => Some((c.compress)(Scale(HashToPoint(c, (c.compress)(Scale(G, x))), x)))
  }

  // ---- the encoding of a signature ----------------------------------------

  function ScalarChunks(s: seq<Scalar>): (chunks: seq<Bytes>)
    ensures |chunks| == |s| && AllWidth(chunks, 32)
  {
    seq(|s|, i requires 0 <= i < |s| => ScalarBytes(s[i]))
  }

  function SignatureChunks(c0: Scalar, s: seq<Scalar>, aux: Bytes32): (chunks: seq<Bytes>)
    ensures |chunks| == |s| + 2 && AllWidth(chunks, 32)
  {
    [ScalarBytes(c0)] + ScalarChunks(s) + [aux]
  }

  function SignatureBytes(c0: Scalar, s: seq<Scalar>, aux: Bytes32): Bytes {
    Flatten(SignatureChunks(c0, s, aux))
  }

  lemma SignatureReadsBack(c: Suite, c0: Scalar, s: seq<Scalar>, aux: Bytes32)
    requires (c.decompress)(aux).Some?
    ensures var sig, n := SignatureBytes(c0, s, aux), |s|;
            && SignatureParses(c, sig, n)
            && SignatureScalar(sig, 0) == Some(c0)
            && Responses(c, sig, n) == s
            && AuxImage(sig, n) == aux
  {
    var chunks, sig, n := SignatureChunks(c0, s, aux), SignatureBytes(c0, s, aux), |s|;
    FlattenLength(chunks, 32);
    forall k {:trigger SignatureScalar(sig, k)} | 0 <= k <= n
      ensures SignatureScalar(sig, k) == Some(if k == 0 then c0 else s[k - 1])
    {
      FlattenChunk(chunks, 32, k);
      assert sig[32 * k..][..32] == sig[32 * k..32 * k + 32];
      ScalarRoundTrip(if k == 0 then c0 else s[k - 1]);
    }
    FlattenChunk(chunks, 32, n + 1);
    assert sig[32 * (n + 1)..] == sig[32 * (n + 1)..32 * (n + 1) + 32];
  }

  // ---- closing the ring ---------------------------------------------------

  /** `s = a − ch·w` turns the commitment `s·B + ch·(w·B)` into `a·B`, for any base. */
  lemma ResponseOpens(base: Point, a: Scalar, ch: Scalar, w: Scalar)
    ensures Plus(Scale(base, Sub(a, Mul(ch, w))), Scale(Scale(base, w), ch)) == Scale(base, a)
  {
    ScaleScale(base, w, ch);
    ScaleAdd(base, Sub(a, Mul(ch, w)), Mul(ch, w));
  }

  /** Weighting `x·B` and `z·B` is scaling `B` by the aggregate secret. */
  lemma AggregateSecret(base: Point, x: Scalar, z: Scalar, muP: Scalar, muC: Scalar)
    ensures Plus(Scale(Scale(base, x), muP), Scale(Scale(base, z), muC)) == Scale(base, Add(Mul(muP, x), Mul(muC, z)))
  {
    ScaleScale(base, x, muP);
    ScaleScale(base, z, muC);
    ScaleAdd(base, Mul(muP, x), Mul(muC, z));
  }

  /** What the signer knows about the real position. */
  ghost predicate Knows(c: Suite, t: Transcript, spent: nat, x: Scalar, z: Scalar) {
    && spent < RingSize(t.blob) && Decodes(c, t.blob, spent)
    && KeyAt(c, t.blob, spent) == Scale(G, x)
    && t.pseudoPoint == Minus(CommitmentAt(c, t.blob, spent), Scale(G, z))
    && var base := HashToPoint(c, KeyBytes(t.blob, spent));
       t.wTilde == Plus(Scale(Scale(base, x), t.muP), Scale(Scale(base, z), t.muC))
  }

  function Seed(c: Suite, t: Transcript, spent: nat, a: Scalar): Scalar
    requires spent < RingSize(t.blob)
  {
    RoundChallenge(c, t, Scale(G, a), Scale(HashToPoint(c, KeyBytes(t.blob, spent)), a))
  }

  lemma RealRoundGivesSeed(c: Suite, t: Transcript, spent: nat, x: Scalar, z: Scalar, a: Scalar, ch: Scalar)
    requires Knows(c, t, spent, x, z)
    ensures Round(c, t, spent, Sub(a, Mul(ch, Add(Mul(t.muP, x), Mul(t.muC, z)))), ch) == Seed(c, t, spent, a)
  {
    var w := Add(Mul(t.muP, x), Mul(t.muC, z));
    var base := HashToPoint(c, KeyBytes(t.blob, spent));
    var commitment := CommitmentAt(c, t.blob, spent);
    assert Minus(commitment, Minus(commitment, Scale(G, z))) == Scale(G, z);
    AggregateSecret(G, x, z, t.muP, t.muC);
    AggregateSecret(base, x, z, t.muP, t.muC);
    ResponseOpens(G, a, ch, w);
    ResponseOpens(base, a, ch, w);
  }

  /** The signer walks from just after the real position round to it; the verifier walks from 0.
    * Both meet the same challenges, so the verifier returns to `c0`.
    */
  lemma RingCloses(c: Suite, t: Transcript, drawn: seq<Scalar>, spent: nat, x: Scalar, z: Scalar, a: Scalar, c0: Scalar, ch: Scalar)
    requires Knows(c, t, spent, x, z) && |drawn| == RingSize(t.blob)
    requires c0 == Walk(Rounds(c, t, drawn), spent + 1, |drawn|, Seed(c, t, spent, a))
    requires ch == Walk(Rounds(c, t, drawn), 0, spent, c0)
    ensures var s := drawn[spent := Sub(a, Mul(ch, Add(Mul(t.muP, x), Mul(t.muC, z))))];
            Walk(Rounds(c, t, s), 0, |s|, c0) == c0
  {
    var s := drawn[spent := Sub(a, Mul(ch, Add(Mul(t.muP, x), Mul(t.muC, z))))];
    var before, after := Rounds(c, t, drawn), Rounds(c, t, s);
    WalkAgree(before, after, 0, spent, c0);
    RealRoundGivesSeed(c, t, spent, x, z, a, ch);
    assert Walk(after, 0, spent + 1, c0) == Seed(c, t, spent, a);
    WalkJoin(after, 0, spent + 1, |s|, c0);
    WalkAgree(before, after, spent + 1, |s|, Seed(c, t, spent, a));
  }

  // ---- what the randomness does -------------------------------------------

  /** The signature was made with nonce `a` and decoy responses `drawn`: its responses at the other
    * positions are those drawn, and the real one reopens `a·G` under the challenge the rounds before it
    * lead to.
    */
  ghost predicate DrawnFrom(c: Suite, msg: Bytes, blob: Bytes, pseudo: Bytes32, keyImage: Bytes32, sig: Bytes, spent: nat,
                            a: Scalar, drawn: seq<Scalar>)
  {
    && spent < RingSize(blob) == |drawn| && SignatureParses(c, sig, RingSize(blob)) && Decodes(c, blob, spent)
    && (c.decompress)(pseudo).Some? && (c.decompress)(keyImage).Some?
    && var s := Responses(c, sig, RingSize(blob));
       var t := VerifierTranscript(c, msg, blob, pseudo, keyImage, AuxImage(sig, RingSize(blob)));
       var ch := Walk(Rounds(c, t, s), 0, spent, SignatureScalar(sig, 0).value);
       && (forall i :: 0 <= i < |drawn| && i != spent ==> s[i] == drawn[i])
       && Plus(Scale(G, s[spent]), Scale(Aggregate(t, KeyAt(c, blob, spent), CommitmentAt(c, blob, spent)), ch)) == Scale(G, a)
  }

  lemma RealRoundReopens(c: Suite, t: Transcript, spent: nat, x: Scalar, z: Scalar, a: Scalar, ch: Scalar)
    requires Knows(c, t, spent, x, z)
    ensures Plus(Scale(G, Sub(a, Mul(ch, Add(Mul(t.muP, x), Mul(t.muC, z))))),
                 Scale(Aggregate(t, KeyAt(c, t.blob, spent), CommitmentAt(c, t.blob, spent)), ch)) == Scale(G, a)
  {
    var commitment := CommitmentAt(c, t.blob, spent);
    assert Minus(commitment, Minus(commitment, Scale(G, z))) == Scale(G, z);
    AggregateSecret(G, x, z, t.muP, t.muC);
    ResponseOpens(G, a, ch, Add(Mul(t.muP, x), Mul(t.muC, z)));
  }

  lemma SignedAsDrawn(c: Suite, t: Transcript, keyImage: Bytes32, aux: Bytes32, drawn: seq<Scalar>, spent: nat, x: Scalar,
                      z: Scalar, a: Scalar, c0: Scalar, ch: Scalar)
    requires Knows(c, t, spent, x, z) && |drawn| == RingSize(t.blob) && |t.pseudo| == 32
    requires (c.decompress)(t.pseudo).Some? && (c.decompress)(keyImage).Some? && (c.decompress)(aux).Some?
    requires t == VerifierTranscript(c, t.msg, t.blob, t.pseudo, keyImage, aux)
    requires ch == Walk(Rounds(c, t, drawn), 0, spent, c0)
    ensures var s := drawn[spent := Sub(a, Mul(ch, Add(Mul(t.muP, x), Mul(t.muC, z))))];
            DrawnFrom(c, t.msg, t.blob, t.pseudo, keyImage, SignatureBytes(c0, s, aux), spent, a, drawn)
  {
    var s := drawn[spent := Sub(a, Mul(ch, Add(Mul(t.muP, x), Mul(t.muC, z))))];
    SignatureReadsBack(c, c0, s, aux);
    WalkAgree(Rounds(c, t, drawn), Rounds(c, t, s), 0, spent, c0);
    RealRoundReopens(c, t, spent, x, z, a, ch);
  }

  // ---- signing ------------------------------------------------------------

  /** When `sign_with_max` produces a signature. */
  predicate CanSign(c: Suite, blob: Bytes, spent: nat, secret: Bytes, inputBlinding: Bytes, pseudoBlinding: Bytes, maxN: nat) {
    && RingParses(c, blob, maxN)
    && spent < RingSize(blob)
    && ScalarFrom(secret).Some? && KeyAt(c, blob, spent) == Scale(G, ScalarFrom(secret).value)
    && ScalarFrom(inputBlinding).Some? && ScalarFrom(pseudoBlinding).Some?
  }

  /** `C' = C_l − (x_in − x')·G`. */
  function PseudoPoint(c: Suite, blob: Bytes, spent: nat, inputBlinding: Bytes, pseudoBlinding: Bytes): Point
    requires spent < RingSize(blob) && Decodes(c, blob, spent)
    requires ScalarFrom(inputBlinding).Some? && ScalarFrom(pseudoBlinding).Some?
  {
    Minus(CommitmentAt(c, blob, spent), Scale(G, Sub(ScalarFrom(inputBlinding).value, ScalarFrom(pseudoBlinding).value)))
  }

  /** Signing with nonce `a` and decoy responses `drawn`. The key image is `key_image(secret)`
    * whatever the ring, and the signature is accepted unless that image is the identity.
    */
  method SignWithMax(c: Suite, msg: Bytes32, blob: Bytes, spent: nat, secret: Bytes, inputBlinding: Bytes,
                     pseudoBlinding: Bytes, a: Scalar, drawn: seq<Scalar>, maxN: nat)
    returns (r: Option<ClsagResult>)
    requires c.Canonical() && |drawn| == RingSize(blob)
    ensures r.Some? <==> CanSign(c, blob, spent, secret, inputBlinding, pseudoBlinding, maxN)
    ensures r.Some? ==> Some(r.value.keyImage) == KeyImage(c, secret)
    ensures r.Some? ==> r.value.pseudo == (c.compress)(PseudoPoint(c, blob, spent, inputBlinding, pseudoBlinding))
    ensures r.Some? ==> |r.value.signature| == 32 * (RingSize(blob) + 2)
    ensures r.Some? ==> DrawnFrom(c, msg, blob, r.value.pseudo, r.value.keyImage, r.value.signature, spent, a, drawn)
    ensures r.Some? && (c.decompress)(r.value.keyImage) != Some(IDENTITY) ==>
              Verifies(c, msg, blob, r.value.pseudo, r.value.keyImage, r.value.signature, maxN)
  {
    var ring := ParseRing(c, blob, maxN);
    if ring.None? {
      return None;
    }
    var (keys, commitments) := ring.value;
    var n := |keys|;
    if spent >= n {
      return None;
    }
    var xo := ScalarFrom(secret);
    if xo.None? {
      return None;
    }
    var x := xo.value;
    if keys[spent] != Scale(G, x) {
      return None;
    }
    var inB, psB := ScalarFrom(inputBlinding), ScalarFrom(pseudoBlinding);
    if inB.None? || psB.None? {
      return None;
    }
    var z := Sub(inB.value, psB.value);
    var pseudoPoint := Minus(commitments[spent], Scale(G, z));
    var pseudo := (c.compress)(pseudoPoint);
    var hpReal := HashToPoint(c, KeyBytes(blob, spent));
    var image, d := Scale(hpReal, x), Scale(hpReal, z);
    var keyImage, aux := (c.compress)(image), (c.compress)(d);
    var (muP, muC) := AggregationCoefficients(c, blob, keyImage, aux, pseudo);
    var w := Add(Mul(muP, x), Mul(muC, z));
    var t := Transcript(blob, pseudo, msg, muP, muC, pseudoPoint, Plus(Scale(image, muP), Scale(d, muC)));
    assert Knows(c, t, spent, x, z);
    var c0, ch := WalkRing(c, t, keys, commitments, drawn, spent, Seed(c, t, spent, a));
    RingCloses(c, t, drawn, spent, x, z, a, c0, ch);
    var s := drawn[spent := Sub(a, Mul(ch, w))];
    SignatureReadsBack(c, c0, s, aux);
    assert t == VerifierTranscript(c, msg, blob, pseudo, keyImage, aux);
    SignedAsDrawn(c, t, keyImage, aux, drawn, spent, x, z, a, c0, ch);
    return Some(ClsagResult(SignatureBytes(c0, s, aux), keyImage, pseudo));
  }

  lemma NextPosition(cur: nat, n: nat)
    requires cur < n
    ensures (cur + 1) % n == if cur + 1 == n then 0 else cur + 1
  {
    if cur + 1 == n {
      RemainderUnique(n, 1, 0, n);
    } else {
      RemainderUnique(cur + 1, 0, cur + 1, n);
    }
  }

  /** Where the signer stands at `cur` with challenge `ch`: past the real position and not yet at
    * 0 (`start` is unset), or past 0 and not yet at the real position.
    */
  ghost predicate Walking(step: Step, n: nat, spent: nat, seed: Scalar, cur: nat, ch: Scalar, start: Option<Scalar>) {
    match start
    case None => spent < cur < n && ch == Walk(step, spent + 1, cur, seed)
    case Some(c0) => cur <= spent < n && c0 == Walk(step, spent + 1, n, seed) && ch == Walk(step, 0, cur, c0)
  }

  lemma WalkingStep(step: Step, n: nat, spent: nat, seed: Scalar, cur: nat, ch: Scalar, start: Option<Scalar>)
    requires Walking(step, n, spent, seed, cur, ch, start) && cur != spent
    ensures var next := if cur + 1 == n then 0 else cur + 1;
            Walking(step, n, spent, seed, next, step(cur, ch), if next == 0 then Some(step(cur, ch)) else start)
  {
  }

  /** The signer's loop: from the position after the real one round to the real one, noting the
    * challenge met at position 0.
    */
  method WalkRing(c: Suite, t: Transcript, keys: seq<Point>, commitments: seq<Point>, s: seq<Scalar>, spent: nat, seed: Scalar)
    returns (c0: Scalar, ch: Scalar)
    requires |keys| == |commitments| == |s| == RingSize(t.blob) && spent < |s|
    requires forall i :: 0 <= i < |s| ==>
               Decodes(c, t.blob, i) && keys[i] == KeyAt(c, t.blob, i) && commitments[i] == CommitmentAt(c, t.blob, i)
    ensures c0 == Walk(Rounds(c, t, s), spent + 1, |s|, seed)
    ensures ch == Walk(Rounds(c, t, s), 0, spent, c0)
  {
    var n := |s|;
    ghost var step := Rounds(c, t, s);
    ch := seed;
    NextPosition(spent, n);
    var cur: nat := (spent + 1) % n;
    var start := if cur == 0 then Some(ch) else None;
    while cur != spent
      invariant Walking(step, n, spent, seed, cur, ch, start)
      decreases if start.None? then n + n - cur else spent - cur
    {
      WalkingStep(step, n, spent, seed, cur, ch, start);
      NextPosition(cur, n);
      var wi := Plus(Scale(keys[cur], t.muP), Scale(Minus(commitments[cur], t.pseudoPoint), t.muC));
      var l := Plus(Scale(G, s[cur]), Scale(wi, ch));
      var r := Plus(Scale(HashToPoint(c, KeyBytes(t.blob, cur)), s[cur]), Scale(t.wTilde, ch));
      ch := RoundChallenge(c, t, l, r);
      cur := (cur + 1) % n;
      if cur == 0 {
        start := Some(ch);
      }
    }
    c0 := start.value;
  }
}

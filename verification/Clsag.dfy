/** CLSAG linkable ring signatures (eprint 2019/654) over an arbitrary suite. */
module Clsag {
  import opened Bytes
  import opened Group

  const DOM_AGG_KEY: Bytes := Ascii("kohl/clsag/agg-key/v1")
  const DOM_AGG_COM: Bytes := Ascii("kohl/clsag/agg-com/v1")
  const DOM_ROUND: Bytes := Ascii("kohl/clsag/round/v1")
  const DOM_HP: Bytes := Ascii("kohl/clsag/hp/v1")

  function HashToPoint(c: Suite, bytes: Bytes): Point {
    (c.hp)(DOM_HP + bytes)
  }

  // ---- the ring blob ------------------------------------------------------

  function RingSize(blob: Bytes): nat {
    |blob| / 64
  }

  function KeyBytes(blob: Bytes, i: nat): Bytes32
    requires i < RingSize(blob)
  {
    blob[64 * i..][..32]
  }

  function CommitmentBytes(blob: Bytes, i: nat): Bytes32
    requires i < RingSize(blob)
  {
    blob[64 * i + 32..][..32]
  }

  predicate Decodes(c: Suite, blob: Bytes, i: nat)
    requires i < RingSize(blob)
  {
    (c.decompress)(KeyBytes(blob, i)).Some? && (c.decompress)(CommitmentBytes(blob, i)).Some?
  }

  /** When `parse_ring` accepts. */
  predicate RingParses(c: Suite, blob: Bytes, maxN: nat) {
    && blob != [] && |blob| % 64 == 0
    && RingSize(blob) <= maxN
    && forall i :: 0 <= i < RingSize(blob) ==> Decodes(c, blob, i)
  }

  function KeyAt(c: Suite, blob: Bytes, i: nat): Point
    requires i < RingSize(blob) && Decodes(c, blob, i)
  {
    (c.decompress)(KeyBytes(blob, i)).value
  }

  function CommitmentAt(c: Suite, blob: Bytes, i: nat): Point
    requires i < RingSize(blob) && Decodes(c, blob, i)
  {
    (c.decompress)(CommitmentBytes(blob, i)).value
  }

  method ParseRing(c: Suite, blob: Bytes, maxN: nat) returns (r: Option<(seq<Point>, seq<Point>)>)
    ensures r.Some? <==> RingParses(c, blob, maxN)
    ensures r.Some? ==> |r.value.0| == |r.value.1| == RingSize(blob) > 0
    ensures r.Some? ==> forall i :: 0 <= i < RingSize(blob) ==>
                          r.value.0[i] == KeyAt(c, blob, i) && r.value.1[i] == CommitmentAt(c, blob, i)
  {
    if blob == [] || |blob| % 64 != 0 {
      return None;
    }
    var n := |blob| / 64;
    if n == 0 || n > maxN {
      return None;
    }
    var keys, commitments: seq<Point> := [], [];
    var i := 0;
    while i < n
      invariant 0 <= i <= n && |keys| == |commitments| == i
      invariant forall j :: 0 <= j < i ==>
                  Decodes(c, blob, j) && keys[j] == KeyAt(c, blob, j) && commitments[j] == CommitmentAt(c, blob, j)
    {
      var key := (c.decompress)(KeyBytes(blob, i));
      if key.None? {
        assert !Decodes(c, blob, i);
        return None;
      }
      var commitment := (c.decompress)(CommitmentBytes(blob, i));
      if commitment.None? {
        assert !Decodes(c, blob, i);
        return None;
      }
      keys, commitments := keys + [key.value], commitments + [commitment.value];
      i := i + 1;
    }
    return Some((keys, commitments));
  }

  // ---- transcript ---------------------------------------------------------

  function AggregationCoefficients(c: Suite, blob: Bytes, keyImage: Bytes, aux: Bytes, pseudo: Bytes): (Scalar, Scalar) {
    ((c.hs)(DOM_AGG_KEY + blob + keyImage + aux + pseudo), (c.hs)(DOM_AGG_COM + blob + keyImage + aux + pseudo))
  }

  /** What every round of one signature shares. */
  datatype Transcript = Transcript(blob: Bytes, pseudo: Bytes, msg: Bytes, muP: Scalar, muC: Scalar,
                                   pseudoPoint: Point, wTilde: Point)

  function RoundChallenge(c: Suite, t: Transcript, l: Point, r: Point): Scalar {
    (c.hs)(DOM_ROUND + t.blob + t.pseudo + t.msg + (c.compress)(l) + (c.compress)(r))
  }

  function Aggregate(t: Transcript, key: Point, commitment: Point): Point {
    Plus(Scale(key, t.muP), Scale(Minus(commitment, t.pseudoPoint), t.muC))
  }

  /** The challenge that follows `ch` at ring position `i` when its response is `s`. */
  function Round(c: Suite, t: Transcript, i: nat, s: Scalar, ch: Scalar): Scalar
    requires i < RingSize(t.blob) && Decodes(c, t.blob, i)
  {
    RoundChallenge(c, t,
                   Plus(Scale(G, s), Scale(Aggregate(t, KeyAt(c, t.blob, i), CommitmentAt(c, t.blob, i)), ch)),
                   Plus(Scale(HashToPoint(c, KeyBytes(t.blob, i)), s), Scale(t.wTilde, ch)))
  }

  /** Rounds as a function of the position and the incoming challenge. */
  type Step = (nat, Scalar) -> Scalar

  function Rounds(c: Suite, t: Transcript, s: seq<Scalar>): Step {
    (i: nat, ch: Scalar) =>
      if i < |s| && i < RingSize(t.blob) && Decodes(c, t.blob, i) then Round(c, t, i, s[i], ch) else 0
  }

  /** The challenge reached from `ch` after the rounds at positions `from..end`. */
  function Walk(step: Step, from: nat, end: nat, ch: Scalar): Scalar
    decreases end
  {
    if from >= end then ch else step(end - 1, Walk(step, from, end - 1, ch))
  }

  lemma {:induction false} WalkJoin(step: Step, from: nat, mid: nat, end: nat, ch: Scalar)
    requires from <= mid <= end
    ensures Walk(step, mid, end, Walk(step, from, mid, ch)) == Walk(step, from, end, ch)
    decreases end
  {
    if mid < end {
      WalkJoin(step, from, mid, end - 1, ch);
    }
  }

  lemma {:induction false} WalkAgree(a: Step, b: Step, from: nat, end: nat, ch: Scalar)
    requires forall i: nat, x: Scalar :: from <= i < end ==> a(i, x) == b(i, x)
    ensures Walk(a, from, end, ch) == Walk(b, from, end, ch)
    decreases end
  {
    if from < end {
      WalkAgree(a, b, from, end - 1, ch);
    }
  }

  // ---- verification -------------------------------------------------------

  function SignatureScalar(sig: Bytes, k: nat): Option<Scalar>
    requires 32 * k + 32 <= |sig|
  {
    ScalarFrom(sig[32 * k..][..32])
  }

  function AuxImage(sig: Bytes, n: nat): Bytes32
    requires |sig| == 32 * (n + 2)
  {
    sig[32 * (n + 1)..]
  }

  /** The encoding of a signature: `c0`, one scalar per member, the auxiliary image. */
  predicate SignatureParses(c: Suite, sig: Bytes, n: nat) {
    && |sig| == 32 * (n + 2)
    && (forall k {:trigger SignatureScalar(sig, k)} :: 0 <= k <= n ==> SignatureScalar(sig, k).Some?)
    && (c.decompress)(AuxImage(sig, n)).Some?
  }

  function Responses(c: Suite, sig: Bytes, n: nat): (s: seq<Scalar>)
    requires SignatureParses(c, sig, n)
    ensures |s| == n
  {
    seq(n, i requires 0 <= i < n => SignatureScalar(sig, i + 1).value)
  }

  function VerifierTranscript(c: Suite, msg: Bytes, blob: Bytes, pseudo: Bytes32, keyImage: Bytes32, aux: Bytes32): Transcript
    requires (c.decompress)(pseudo).Some? && (c.decompress)(keyImage).Some? && (c.decompress)(aux).Some?
  {
    var (muP, muC) := AggregationCoefficients(c, blob, keyImage, aux, pseudo);
    var image, d := (c.decompress)(keyImage).value, (c.decompress)(aux).value;
    Transcript(blob, pseudo, msg, muP, muC, (c.decompress)(pseudo).value, Plus(Scale(image, muP), Scale(d, muC)))
  }

  /** When a signature is accepted: everything decodes canonically, the key image is not the
    * identity, and the rounds lead from `c0` back to `c0`.
    */
  predicate Verifies(c: Suite, msg: Bytes, blob: Bytes, pseudo: Bytes, keyImage: Bytes, sig: Bytes, maxN: nat) {
    && |msg| == 32 && |pseudo| == 32 && |keyImage| == 32
    && RingParses(c, blob, maxN)
    && SignatureParses(c, sig, RingSize(blob))
    && (c.decompress)(pseudo).Some? && (c.decompress)(keyImage).Some?
    && (c.decompress)(keyImage).value != IDENTITY
    && var n := RingSize(blob);
       var t := VerifierTranscript(c, msg, blob, pseudo, keyImage, AuxImage(sig, n));
       var c0 := SignatureScalar(sig, 0).value;
       Walk(Rounds(c, t, Responses(c, sig, n)), 0, n, c0) == c0
  }

  method VerifyWithMax(c: Suite, msg: Bytes, blob: Bytes, pseudo: Bytes, keyImage: Bytes, sig: Bytes, maxN: nat)
    returns (ok: bool)
    ensures ok <==> Verifies(c, msg, blob, pseudo, keyImage, sig, maxN)
  {
    if |msg| != 32 || |pseudo| != 32 || |keyImage| != 32 {
      return false;
    }
    var ring := ParseRing(c, blob, maxN);
    if ring.None? {
      return false;
    }
    var (keys, commitments) := ring.value;
    var n := |keys|;
    if |sig| != 32 * (n + 2) {
      return false;
    }
    var c0 := SignatureScalar(sig, 0);
    if c0.None? {
      return false;
    }
    var s: seq<Scalar> := [];
    var i := 0;
    while i < n
      invariant 0 <= i <= n && |s| == i
      invariant forall k {:trigger SignatureScalar(sig, k)} :: 0 <= k <= i ==> SignatureScalar(sig, k).Some?
      invariant forall k :: 0 <= k < i ==> s[k] == SignatureScalar(sig, k + 1).value
    {
      var si := SignatureScalar(sig, i + 1);
      if si.None? {
        return false;
      }
      s := s + [si.value];
      i := i + 1;
    }
    var d := (c.decompress)(AuxImage(sig, n));
    if d.None? {
      return false;
    }
    var pseudoPoint, image := (c.decompress)(pseudo), (c.decompress)(keyImage);
    if pseudoPoint.None? || image.None? {
      return false;
    }
    if image.value == IDENTITY {
      return false;
    }
    assert s == Responses(c, sig, n);
    ok := CloseRing(c, VerifierTranscript(c, msg, blob, pseudo, keyImage, AuxImage(sig, n)), keys, commitments, s, c0.value);
  }

  /** The verifier's loop. */
  method CloseRing(c: Suite, t: Transcript, keys: seq<Point>, commitments: seq<Point>, s: seq<Scalar>, c0: Scalar)
    returns (closed: bool)
    requires |keys| == |commitments| == |s| == RingSize(t.blob)
    requires forall i :: 0 <= i < |s| ==>
               Decodes(c, t.blob, i) && keys[i] == KeyAt(c, t.blob, i) && commitments[i] == CommitmentAt(c, t.blob, i)
    ensures closed <==> Walk(Rounds(c, t, s), 0, |s|, c0) == c0
  {
    var ch := c0;
    var i := 0;
    while i < |s|
      invariant 0 <= i <= |s|
      invariant ch == Walk(Rounds(c, t, s), 0, i, c0)
    {
      var w := Plus(Scale(keys[i], t.muP), Scale(Minus(commitments[i], t.pseudoPoint), t.muC));
      var l := Plus(Scale(G, s[i]), Scale(w, ch));
      var r := Plus(Scale(HashToPoint(c, KeyBytes(t.blob, i)), s[i]), Scale(t.wTilde, ch));
      ch := RoundChallenge(c, t, l, r);
      i := i + 1;
    }
    closed := ch == c0;
  }
}

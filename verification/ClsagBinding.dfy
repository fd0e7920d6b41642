/** What the hashes of a ring signature bind: coefficients, challenges, and through them the message. */
module ClsagBinding {
  import opened Bytes
  import opened Group
  import opened Clsag

  // ---- aggregation coefficients -------------------------------------------

  /** A domain, a ring, and three points. */
  function RingString(domain: Bytes, blob: Bytes, image: Bytes32, aux: Bytes32, pseudo: Bytes32): Bytes {
    domain + blob + image + aux + pseudo
  }

  lemma RingStringBinds(domain: Bytes, blob: Bytes, image: Bytes32, aux: Bytes32, pseudo: Bytes32,
                        blob': Bytes, image': Bytes32, aux': Bytes32, pseudo': Bytes32)
    requires RingString(domain, blob, image, aux, pseudo) == RingString(domain, blob', image', aux', pseudo')
    ensures blob == blob' && image == image' && aux == aux' && pseudo == pseudo'
  {
    SplitEnd(domain + blob + image + aux, pseudo, domain + blob' + image' + aux', pseudo');
    SplitEnd(domain + blob + image, aux, domain + blob' + image', aux');
    SplitEnd(domain + blob, image, domain + blob', image');
    SplitStart(domain, blob, domain, blob');
  }

  /** The key coefficient is fixed by the ring, the key image, the auxiliary image and C', and by
    * nothing less, short of two strings with one scalar.
    */
  lemma KeyCoefficientBinds(c: Suite, blob: Bytes, image: Bytes32, aux: Bytes32, pseudo: Bytes32,
                            blob': Bytes, image': Bytes32, aux': Bytes32, pseudo': Bytes32)
    requires AggregationCoefficients(c, blob, image, aux, pseudo).0 == AggregationCoefficients(c, blob', image', aux', pseudo').0
    ensures (blob == blob' && image == image' && aux == aux' && pseudo == pseudo') ||
            ScalarClash(c, RingString(DOM_AGG_KEY, blob, image, aux, pseudo), RingString(DOM_AGG_KEY, blob', image', aux', pseudo'))
  {
    if RingString(DOM_AGG_KEY, blob, image, aux, pseudo) == RingString(DOM_AGG_KEY, blob', image', aux', pseudo') {
      RingStringBinds(DOM_AGG_KEY, blob, image, aux, pseudo, blob', image', aux', pseudo');
    }
  }

  /** So is the commitment coefficient. */
  lemma CommitmentCoefficientBinds(c: Suite, blob: Bytes, image: Bytes32, aux: Bytes32, pseudo: Bytes32,
                                   blob': Bytes, image': Bytes32, aux': Bytes32, pseudo': Bytes32)
    requires AggregationCoefficients(c, blob, image, aux, pseudo).1 == AggregationCoefficients(c, blob', image', aux', pseudo').1
    ensures (blob == blob' && image == image' && aux == aux' && pseudo == pseudo') ||
            ScalarClash(c, RingString(DOM_AGG_COM, blob, image, aux, pseudo), RingString(DOM_AGG_COM, blob', image', aux', pseudo'))
  {
    if RingString(DOM_AGG_COM, blob, image, aux, pseudo) == RingString(DOM_AGG_COM, blob', image', aux', pseudo') {
      RingStringBinds(DOM_AGG_COM, blob, image, aux, pseudo, blob', image', aux', pseudo');
    }
  }

  /** The two coefficients never come from one string: equal ones are a clash. */
  lemma CoefficientsAreSeparate(c: Suite, blob: Bytes, image: Bytes32, aux: Bytes32, pseudo: Bytes32,
                                blob': Bytes, image': Bytes32, aux': Bytes32, pseudo': Bytes32)
    requires AggregationCoefficients(c, blob, image, aux, pseudo).0 == AggregationCoefficients(c, blob', image', aux', pseudo').1
    ensures ScalarClash(c, RingString(DOM_AGG_KEY, blob, image, aux, pseudo), RingString(DOM_AGG_COM, blob', image', aux', pseudo'))
  {
    var x, y := RingString(DOM_AGG_KEY, blob, image, aux, pseudo), RingString(DOM_AGG_COM, blob', image', aux', pseudo');
    assert x[15] == DOM_AGG_KEY[15] == 107 && y[15] == DOM_AGG_COM[15] == 99;
  }

  // ---- rounds -------------------------------------------------------------

  function RoundString(c: Suite, t: Transcript, l: Point, r: Point): Bytes {
    DOM_ROUND + t.blob + t.pseudo + t.msg + (c.compress)(l) + (c.compress)(r)
  }

  /** A challenge fixes the ring, C', the message and the two points it is made from. */
  lemma ChallengeBinds(c: Suite, t: Transcript, l: Point, r: Point, t': Transcript, l': Point, r': Point)
    requires c.Canonical() && |t.pseudo| == |t.msg| == |t'.pseudo| == |t'.msg| == 32
    requires RoundChallenge(c, t, l, r) == RoundChallenge(c, t', l', r')
    ensures (t.blob == t'.blob && t.pseudo == t'.pseudo && t.msg == t'.msg && l == l' && r == r') ||
            ScalarClash(c, RoundString(c, t, l, r), RoundString(c, t', l', r'))
  {
    if RoundString(c, t, l, r) == RoundString(c, t', l', r') {
      RoundStringBinds(c, t, l, r, t', l', r');
    }
  }

  lemma RoundStringBinds(c: Suite, t: Transcript, l: Point, r: Point, t': Transcript, l': Point, r': Point)
    requires c.Canonical() && |t.pseudo| == |t.msg| == |t'.pseudo| == |t'.msg| == 32
    requires RoundString(c, t, l, r) == RoundString(c, t', l', r')
    ensures t.blob == t'.blob && t.pseudo == t'.pseudo && t.msg == t'.msg && l == l' && r == r'
  {
    var cl, cr, cl', cr' := (c.compress)(l), (c.compress)(r), (c.compress)(l'), (c.compress)(r');
    SplitEnd(DOM_ROUND + t.blob + t.pseudo + t.msg + cl, cr, DOM_ROUND + t'.blob + t'.pseudo + t'.msg + cl', cr');
    SplitEnd(DOM_ROUND + t.blob + t.pseudo + t.msg, cl, DOM_ROUND + t'.blob + t'.pseudo + t'.msg, cl');
    SplitEnd(DOM_ROUND + t.blob + t.pseudo, t.msg, DOM_ROUND + t'.blob + t'.pseudo, t'.msg);
    SplitEnd(DOM_ROUND + t.blob, t.pseudo, DOM_ROUND + t'.blob, t'.pseudo);
    SplitStart(DOM_ROUND, t.blob, DOM_ROUND, t'.blob);
    assert (c.decompress)(cl) == Some(l) && (c.decompress)(cl') == Some(l');
    assert (c.decompress)(cr) == Some(r) && (c.decompress)(cr') == Some(r');
  }

  /** The base point of key images is different for every key, or two strings hash to one point. */
  lemma ImageBaseBinds(c: Suite, key: Bytes, key': Bytes)
    requires HashToPoint(c, key) == HashToPoint(c, key')
    ensures key == key' || (DOM_HP + key != DOM_HP + key' && (c.hp)(DOM_HP + key) == (c.hp)(DOM_HP + key'))
  {
    if DOM_HP + key == DOM_HP + key' {
      SplitStart(DOM_HP, key, DOM_HP, key');
    }
  }

  // ---- a signature pins its message, ring and C' --------------------------

  /** The two points a round is made from. */
  function LeftPoint(c: Suite, t: Transcript, i: nat, s: Scalar, ch: Scalar): Point
    requires i < RingSize(t.blob) && Decodes(c, t.blob, i)
  {
    Plus(Scale(G, s), Scale(Aggregate(t, KeyAt(c, t.blob, i), CommitmentAt(c, t.blob, i)), ch))
  }

  function RightPoint(c: Suite, t: Transcript, i: nat, s: Scalar, ch: Scalar): Point
    requires i < RingSize(t.blob)
  {
    Plus(Scale(HashToPoint(c, KeyBytes(t.blob, i)), s), Scale(t.wTilde, ch))
  }

  lemma RoundHashesPoints(c: Suite, t: Transcript, i: nat, s: Scalar, ch: Scalar)
    requires i < RingSize(t.blob) && Decodes(c, t.blob, i)
    ensures Round(c, t, i, s, ch) == RoundChallenge(c, t, LeftPoint(c, t, i, s, ch), RightPoint(c, t, i, s, ch))
  {
  }

  /** What the verifier hashes in the last round of an accepted signature. */
  ghost function LastString(c: Suite, msg: Bytes, blob: Bytes, pseudo: Bytes32, keyImage: Bytes32, sig: Bytes): Bytes
    requires SignatureParses(c, sig, RingSize(blob)) && RingParses(c, blob, RingSize(blob))
    requires (c.decompress)(pseudo).Some? && (c.decompress)(keyImage).Some?
  {
    var n := RingSize(blob);
    var t, s := VerifierTranscript(c, msg, blob, pseudo, keyImage, AuxImage(sig, n)), Responses(c, sig, n);
    var ch := Walk(Rounds(c, t, s), 0, n - 1, SignatureScalar(sig, 0).value);
    assert Decodes(c, blob, n - 1);
    RoundString(c, t, LeftPoint(c, t, n - 1, s[n - 1], ch), RightPoint(c, t, n - 1, s[n - 1], ch))
  }

  /** It hashes to the signature's first scalar. */
  lemma LastChallenge(c: Suite, msg: Bytes, blob: Bytes, pseudo: Bytes32, keyImage: Bytes32, sig: Bytes, maxN: nat)
    requires Verifies(c, msg, blob, pseudo, keyImage, sig, maxN)
    ensures (c.hs)(LastString(c, msg, blob, pseudo, keyImage, sig)) == SignatureScalar(sig, 0).value
  {
    var n := RingSize(blob);
    var t, s := VerifierTranscript(c, msg, blob, pseudo, keyImage, AuxImage(sig, n)), Responses(c, sig, n);
    assert Decodes(c, blob, n - 1);
  }

  /** Two accepted signatures with one first scalar are over the same message, ring and C', or what
    * their last rounds hash are two strings with one scalar.
    */
  lemma SignaturePins(c: Suite, msg: Bytes, blob: Bytes, pseudo: Bytes32, keyImage: Bytes32, sig: Bytes,
                      msg': Bytes, blob': Bytes, pseudo': Bytes32, keyImage': Bytes32, sig': Bytes, maxN: nat)
    requires c.Canonical()
    requires Verifies(c, msg, blob, pseudo, keyImage, sig, maxN) && Verifies(c, msg', blob', pseudo', keyImage', sig', maxN)
    requires SignatureScalar(sig, 0) == SignatureScalar(sig', 0)
    ensures (msg == msg' && blob == blob' && pseudo == pseudo') ||
            ScalarClash(c, LastString(c, msg, blob, pseudo, keyImage, sig), LastString(c, msg', blob', pseudo', keyImage', sig'))
  {
    LastChallenge(c, msg, blob, pseudo, keyImage, sig, maxN);
    LastChallenge(c, msg', blob', pseudo', keyImage', sig', maxN);
    if LastString(c, msg, blob, pseudo, keyImage, sig) == LastString(c, msg', blob', pseudo', keyImage', sig') {
      LastStringBinds(c, msg, blob, pseudo, keyImage, sig, msg', blob', pseudo', keyImage', sig', maxN);
    }
  }

  lemma LastStringBinds(c: Suite, msg: Bytes, blob: Bytes, pseudo: Bytes32, keyImage: Bytes32, sig: Bytes,
                        msg': Bytes, blob': Bytes, pseudo': Bytes32, keyImage': Bytes32, sig': Bytes, maxN: nat)
    requires c.Canonical()
    requires Verifies(c, msg, blob, pseudo, keyImage, sig, maxN) && Verifies(c, msg', blob', pseudo', keyImage', sig', maxN)
    requires LastString(c, msg, blob, pseudo, keyImage, sig) == LastString(c, msg', blob', pseudo', keyImage', sig')
    ensures msg == msg' && blob == blob' && pseudo == pseudo'
  {
    var n, n' := RingSize(blob), RingSize(blob');
    var t, s := VerifierTranscript(c, msg, blob, pseudo, keyImage, AuxImage(sig, n)), Responses(c, sig, n);
    var t', s' := VerifierTranscript(c, msg', blob', pseudo', keyImage', AuxImage(sig', n')), Responses(c, sig', n');
    var ch := Walk(Rounds(c, t, s), 0, n - 1, SignatureScalar(sig, 0).value);
    var ch' := Walk(Rounds(c, t', s'), 0, n' - 1, SignatureScalar(sig', 0).value);
    assert Decodes(c, blob, n - 1) && Decodes(c, blob', n' - 1);
    RoundStringBinds(c, t, LeftPoint(c, t, n - 1, s[n - 1], ch), RightPoint(c, t, n - 1, s[n - 1], ch),
                     t', LeftPoint(c, t', n' - 1, s'[n' - 1], ch'), RightPoint(c, t', n' - 1, s'[n' - 1], ch'));
  }
}

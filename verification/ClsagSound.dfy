/** Special soundness of the ring signature: closings of the verifier's equations give the witness. */
module ClsagSound {
  import opened Bytes
  import opened Group
  import opened Clsag
  import opened ClsagBinding
  import opened Ideal

  // ---- inverses -----------------------------------------------------------

  /** `d` would show that the group order is not prime. */
  predicate DividesOrder(d: nat) {
    1 < d < ORDER && ORDER % d == 0
  }

  lemma MultipleOf(g: nat, k: nat)
    requires g > 0
    ensures (g * k) % g == 0
  {
    RemainderUnique(g * k, k, 0, g);
  }

  lemma EuclidStep(a: nat, b: nat, g: nat, u: int, v: int, p: nat, q: nat)
    requires b > 0 && b == g * p && a % b == g * q && u * b + v * (a % b) == g
    ensures a == g * (a / b * p + q)
    ensures v * a + (u - a / b * v) * b == g
  {
    var k, r := a / b, a % b;
    assert a == k * b + r;
    assert k * b == g * (k * p) by {
      assert k * (g * p) == g * (k * p);
    }
    assert g * (k * p + q) == g * (k * p) + g * q;
    assert v * a == v * (k * b) + v * r;
    assert v * (k * b) == k * v * b;
    assert (u - k * v) * b == u * b - k * v * b;
  }

  /** The greatest common divisor as a combination, with both cofactors. */
  lemma {:induction false} Euclid(a: nat, b: nat) returns (g: nat, u: int, v: int, p: nat, q: nat)
    requires a > 0 || b > 0
    ensures g > 0 && a == g * p && b == g * q && u * a + v * b == g
    decreases b
  {
    if b == 0 {
      g, u, v, p, q := a, 1, 0, 1, 0;
    } else {
      var g', u', v', p', q' := Euclid(b, a % b);
      EuclidStep(a, b, g', u', v', p', q');
      g, u, v, p, q := g', v', u' - a / b * v', a / b * p' + q', p';
    }
  }

  lemma InverseFrom(x: Scalar, u: int, v: int, q: int)
    requires q == ORDER && u * x + v * q == 1
    ensures Mul(x, u % q) == 1
  {
    ModMul(u, x, q);
    assert (u % q) * x == x * (u % q);
    assert u * x == 1 + (-v) * q;
    ModShift(1, -v, q);
    RemainderUnique(1, 0, 1, q);
  }

  /** Every non-zero scalar has an inverse, unless the order has a proper divisor. */
  lemma InverseOrDivisor(x: Scalar) returns (y: Scalar, d: nat)
    requires x != 0
    ensures Mul(x, y) == 1 || DividesOrder(d)
  {
    var g, u, v, p, q := Euclid(x, ORDER);
    y, d := u % ORDER, g;
    if g == 1 {
      InverseFrom(x, u, v, ORDER);
    } else {
      MultipleOf(g, q);
      assert p >= 1;
      assert g <= g * p;
    }
  }

  // ---- scalar algebra -----------------------------------------------------

  lemma MulDistributesLeft(x: Scalar, y: Scalar, z: Scalar)
    ensures Mul(x, Add(y, z)) == Add(Mul(x, y), Mul(x, z))
  {
    MulComm(x, Add(y, z));
    MulComm(x, y);
    MulComm(x, z);
    MulDistributes(y, z, x);
  }

  lemma SubThenAdd(x: Scalar, y: Scalar)
    ensures Add(Sub(x, y), y) == x
  {
  }

  lemma AddThenSub(x: Scalar, y: Scalar)
    ensures Sub(Add(x, y), y) == x
  {
  }

  lemma MulSub(x: Scalar, y: Scalar, z: Scalar)
    ensures Mul(Sub(x, y), z) == Sub(Mul(x, z), Mul(y, z))
  {
    MulDistributes(Sub(x, y), y, z);
    SubThenAdd(x, y);
    AddThenSub(Mul(Sub(x, y), z), Mul(y, z));
  }

  lemma SameSums(a: Scalar, x: Scalar, b: Scalar, y: Scalar)
    requires Add(a, x) == Add(b, y)
    ensures Sub(y, x) == Sub(a, b)
  {
  }

  lemma DropCommon(u: Scalar, v: Scalar, k: Scalar)
    ensures Sub(Add(u, k), Add(v, k)) == Sub(u, v)
  {
  }

  /** Divide `delta·value = total` by `delta`. */
  lemma Divide(inverse: Scalar, delta: Scalar, value: Scalar, total: Scalar)
    requires Mul(delta, inverse) == 1 && Mul(delta, value) == total
    ensures Mul(inverse, total) == value
  {
    MulAssoc(inverse, delta, value);
    MulComm(delta, inverse);
    MulComm(1, value);
    MulOne(value);
  }

  lemma MulExchange(x: Scalar, y: Scalar, z: Scalar)
    ensures Mul(x, Mul(y, z)) == Mul(y, Mul(x, z)) && Mul(x, Mul(y, z)) == Mul(Mul(y, x), z)
  {
    MulAssoc(x, y, z);
    MulAssoc(y, x, z);
    MulComm(x, y);
  }

  /** Eliminate `b` from two equations in `a` and `b`. */
  lemma Eliminate(m: Scalar, n: Scalar, m': Scalar, n': Scalar, a: Scalar, b: Scalar)
    ensures Sub(Mul(n', Add(Mul(m, a), Mul(n, b))), Mul(n, Add(Mul(m', a), Mul(n', b)))) ==
            Mul(Sub(Mul(m, n'), Mul(m', n)), a)
  {
    MulDistributesLeft(n', Mul(m, a), Mul(n, b));
    MulDistributesLeft(n, Mul(m', a), Mul(n', b));
    MulExchange(n', n, b);
    MulExchange(n', m, a);
    MulExchange(n, m', a);
    DropCommon(Mul(n', Mul(m, a)), Mul(n, Mul(m', a)), Mul(n', Mul(n, b)));
    MulSub(Mul(m, n'), Mul(m', n), a);
  }

  // ---- one coefficient pair -----------------------------------------------

  /** Two closings of round `i` from one pair of points, with different challenges. */
  ghost predicate TwoClosings(c: Suite, t: Transcript, i: nat, s: Scalar, ch: Scalar, s': Scalar, ch': Scalar)
    requires i < RingSize(t.blob) && Decodes(c, t.blob, i)
  {
    && LeftPoint(c, t, i, s, ch) == LeftPoint(c, t, i, s', ch')
    && RightPoint(c, t, i, s, ch) == RightPoint(c, t, i, s', ch')
    && ch != ch'
  }

  lemma ClosingsDiffer(p: Point, q: Point, s: Scalar, ch: Scalar, s': Scalar, ch': Scalar)
    requires Plus(Scale(p, s), Scale(q, ch)) == Plus(Scale(p, s'), Scale(q, ch'))
    ensures Mul(Sub(ch', ch), q.log) == Mul(Sub(s, s'), p.log)
  {
    SameSums(Mul(s, p.log), Mul(ch, q.log), Mul(s', p.log), Mul(ch', q.log));
    MulSub(ch', ch, q.log);
    MulSub(s, s', p.log);
  }

  /** They give one scalar behind the aggregated key and the aggregated image. */
  lemma ExtractAggregate(c: Suite, t: Transcript, i: nat, s: Scalar, ch: Scalar, s': Scalar, ch': Scalar) returns (w: Scalar, d: nat)
    requires i < RingSize(t.blob) && Decodes(c, t.blob, i) && TwoClosings(c, t, i, s, ch, s', ch')
    ensures DividesOrder(d) ||
            (Scale(G, w) == Aggregate(t, KeyAt(c, t.blob, i), CommitmentAt(c, t.blob, i)) &&
             Scale(HashToPoint(c, KeyBytes(t.blob, i)), w) == t.wTilde)
  {
    var key, base := Aggregate(t, KeyAt(c, t.blob, i), CommitmentAt(c, t.blob, i)), HashToPoint(c, KeyBytes(t.blob, i));
    var delta, diff := Sub(ch', ch), Sub(s, s');
    var inverse, div := InverseOrDivisor(delta);
    w, d := Mul(inverse, diff), div;
    if Mul(delta, inverse) == 1 {
      ClosingsDiffer(G, key, s, ch, s', ch');
      MulOne(diff);
      Divide(inverse, delta, key.log, diff);
      ScaleG(w);
      ClosingsDiffer(base, t.wTilde, s, ch, s', ch');
      Divide(inverse, delta, t.wTilde.log, Mul(diff, base.log));
      MulAssoc(inverse, diff, base.log);
    }
  }

  // ---- two coefficient pairs ----------------------------------------------

  /** The aggregated image is made of `image` and `aux` by the transcript's coefficients. */
  predicate Combines(t: Transcript, image: Point, aux: Point) {
    t.wTilde == Plus(Scale(image, t.muP), Scale(aux, t.muC))
  }

  lemma VerifierCombines(c: Suite, msg: Bytes, blob: Bytes, pseudo: Bytes32, keyImage: Bytes32, aux: Bytes32)
    requires (c.decompress)(pseudo).Some? && (c.decompress)(keyImage).Some? && (c.decompress)(aux).Some?
    ensures Combines(VerifierTranscript(c, msg, blob, pseudo, keyImage, aux), (c.decompress)(keyImage).value, (c.decompress)(aux).value)
    ensures VerifierTranscript(c, msg, blob, pseudo, keyImage, aux).pseudoPoint == (c.decompress)(pseudo).value
    ensures var t := VerifierTranscript(c, msg, blob, pseudo, keyImage, aux);
            (t.muP, t.muC) == AggregationCoefficients(c, blob, keyImage, aux, pseudo)
  {
  }

  function Determinant(t: Transcript, t': Transcript): Scalar {
    Sub(Mul(t.muP, t'.muC), Mul(t'.muP, t.muC))
  }

  /** Solve for the first of two points that two independent combinations of them are known multiples of. */
  lemma SolveFirst(m: Scalar, n: Scalar, m': Scalar, n': Scalar, inverse: Scalar, base: Point, a: Point, b: Point, w: Scalar, w': Scalar)
    requires Mul(Sub(Mul(m, n'), Mul(m', n)), inverse) == 1
    requires Scale(base, w) == Plus(Scale(a, m), Scale(b, n)) && Scale(base, w') == Plus(Scale(a, m'), Scale(b, n'))
    ensures Scale(base, Mul(inverse, Sub(Mul(n', w), Mul(n, w')))) == a
  {
    var total := Sub(Mul(n', w), Mul(n, w'));
    Eliminate(m, n, m', n', a.log, b.log);
    MulAssoc(n', w, base.log);
    MulAssoc(n, w', base.log);
    MulSub(Mul(n', w), Mul(n, w'), base.log);
    Divide(inverse, Sub(Mul(m, n'), Mul(m', n)), a.log, Mul(total, base.log));
    MulAssoc(inverse, total, base.log);
  }

  lemma NegatedDeterminant(m: Scalar, n: Scalar, m': Scalar, n': Scalar)
    requires Sub(Mul(m, n'), Mul(m', n)) != 0
    ensures Sub(Mul(n, m'), Mul(n', m)) != 0
  {
    MulComm(m, n');
    MulComm(m', n);
  }

  lemma PlusComm(p: Point, q: Point)
    ensures Plus(p, q) == Plus(q, p)
  {
  }

  /** And for the second. */
  lemma SolveSecond(m: Scalar, n: Scalar, m': Scalar, n': Scalar, inverse: Scalar, base: Point, a: Point, b: Point, w: Scalar, w': Scalar)
    requires Mul(Sub(Mul(n, m'), Mul(n', m)), inverse) == 1
    requires Scale(base, w) == Plus(Scale(a, m), Scale(b, n)) && Scale(base, w') == Plus(Scale(a, m'), Scale(b, n'))
    ensures Scale(base, Mul(inverse, Sub(Mul(m', w), Mul(m, w')))) == b
  {
    PlusComm(Scale(a, m), Scale(b, n));
    PlusComm(Scale(a, m'), Scale(b, n'));
    SolveFirst(n, m, n', m', inverse, base, b, a, w, w');
  }

  /** Two transcripts over one ring and C' with independent coefficients, and the scalars behind their
    * aggregates, give the member's secret and its re-blinding.
    */
  lemma ExtractWitness(c: Suite, t: Transcript, t': Transcript, i: nat, keyImage: Bytes32, aux: Point, pseudo: Bytes32,
                       w: Scalar, w': Scalar) returns (x: Scalar, z: Scalar, d: nat)
    requires c.Canonical() && i < RingSize(t.blob) && Decodes(c, t.blob, i) && t'.blob == t.blob
    requires (c.decompress)(pseudo) == Some(t.pseudoPoint) && t'.pseudoPoint == t.pseudoPoint && (c.decompress)(keyImage).Some?
    requires Combines(t, (c.decompress)(keyImage).value, aux) && Combines(t', (c.decompress)(keyImage).value, aux)
    requires Determinant(t, t') != 0
    requires Scale(G, w) == Aggregate(t, KeyAt(c, t.blob, i), CommitmentAt(c, t.blob, i))
    requires Scale(G, w') == Aggregate(t', KeyAt(c, t.blob, i), CommitmentAt(c, t.blob, i))
    requires Scale(HashToPoint(c, KeyBytes(t.blob, i)), w) == t.wTilde && Scale(HashToPoint(c, KeyBytes(t.blob, i)), w') == t'.wTilde
    ensures DividesOrder(d) || SpendsAt(c, t.blob, pseudo, keyImage, Witness(i, x, z))
  {
    var key, image, base := KeyAt(c, t.blob, i), (c.decompress)(keyImage).value, HashToPoint(c, KeyBytes(t.blob, i));
    var gap := Minus(CommitmentAt(c, t.blob, i), t.pseudoPoint);
    var inverse, div := InverseOrDivisor(Determinant(t, t'));
    NegatedDeterminant(t.muP, t.muC, t'.muP, t'.muC);
    var inverse', div' := InverseOrDivisor(Sub(Mul(t.muC, t'.muP), Mul(t'.muC, t.muP)));
    x, z := Mul(inverse, Sub(Mul(t'.muC, w), Mul(t.muC, w'))), Mul(inverse', Sub(Mul(t'.muP, w), Mul(t.muP, w')));
    d := if DividesOrder(div) then div else div';
    if !DividesOrder(d) {
      SolveFirst(t.muP, t.muC, t'.muP, t'.muC, inverse, G, key, gap, w, w');
      SolveFirst(t.muP, t.muC, t'.muP, t'.muC, inverse, base, image, aux, w, w');
      SolveSecond(t.muP, t.muC, t'.muP, t'.muC, inverse', G, key, gap, w, w');
      assert (c.compress)((c.decompress)(keyImage).value) == keyImage;
    }
  }

  /** Special soundness: two closings under each of two independent coefficient pairs, for one ring,
    * key image, auxiliary image and C', give a witness: the member's secret, whose key image this is,
    * and the re-blinding of the member's commitment.
    */
  lemma SpecialSoundness(c: Suite, t: Transcript, t': Transcript, i: nat, keyImage: Bytes32, aux: Point, pseudo: Bytes32,
                         s0: Scalar, ch0: Scalar, s1: Scalar, ch1: Scalar, s2: Scalar, ch2: Scalar, s3: Scalar, ch3: Scalar)
    returns (x: Scalar, z: Scalar, d: nat)
    requires c.Canonical() && i < RingSize(t.blob) && Decodes(c, t.blob, i) && t'.blob == t.blob
    requires (c.decompress)(pseudo) == Some(t.pseudoPoint) && t'.pseudoPoint == t.pseudoPoint && (c.decompress)(keyImage).Some?
    requires Combines(t, (c.decompress)(keyImage).value, aux) && Combines(t', (c.decompress)(keyImage).value, aux)
    requires Determinant(t, t') != 0
    requires TwoClosings(c, t, i, s0, ch0, s1, ch1) && TwoClosings(c, t', i, s2, ch2, s3, ch3)
    ensures DividesOrder(d) || SpendsAt(c, t.blob, pseudo, keyImage, Witness(i, x, z))
  {
    var w, d0 := ExtractAggregate(c, t, i, s0, ch0, s1, ch1);
    var w', d1 := ExtractAggregate(c, t', i, s2, ch2, s3, ch3);
    x, z, d := 0, 0, if DividesOrder(d0) then d0 else d1;
    if !DividesOrder(d) {
      x, z, d := ExtractWitness(c, t, t', i, keyImage, aux, pseudo, w, w');
    }
  }
}

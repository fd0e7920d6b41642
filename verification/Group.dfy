/** The prime-order group and its scalar field, as used by CLSAG, stealth keys and commitments.
  *
  * A prime-order group is cyclic, so every element is `x·G` for exactly one `x` below the group
  * order: a point is modelled by that `x`. Code in the other modules never looks at it.
  */
module Group {
  import opened Bytes

  /** Order of the Ristretto group (section 4.1 of RFC 9496). */
  const ORDER: int := 7237005577332262213973186563042994240857116359379907606001950938285454250989

  type Scalar = x: int | 0 <= x < ORDER witness 0

  function Add(x: Scalar, y: Scalar): Scalar {
    if x + y < ORDER then x + y else x + y - ORDER
  }

  function Neg(x: Scalar): Scalar {
    if x == 0 then 0 else ORDER - x
  }

  function Sub(x: Scalar, y: Scalar): Scalar {
    Add(x, Neg(y))
  }

  function MulMod(x: int, y: int, q: int): (r: int)
    requires q > 0
    ensures 0 <= r < q
  {
    (x * y) % q
  }

  function Mul(x: Scalar, y: Scalar): Scalar {
    MulMod(x, y, ORDER)
  }

  // ---- modular arithmetic -------------------------------------------------

  lemma MultipleIsLarge(d: int, q: int)
    requires d >= 1 && q >= 0
    ensures d * q >= q
  {
    assert d * q == (d - 1) * q + q;
  }

  lemma RemainderUnique(n: int, k: int, r: int, q: int)
    requires 0 <= r < q && n == k * q + r
    ensures n % q == r
  {
    var d := k - n / q;
    assert d * q == n % q - r by {
      assert n == (n / q) * q + n % q;
    }
    if d >= 1 {
      MultipleIsLarge(d, q);
      assert false;
    } else if d <= -1 {
      MultipleIsLarge(-d, q);
      assert false;
    }
  }

  lemma ModShift(a: int, k: int, q: int)
    requires q > 0
    ensures (a + k * q) % q == a % q
  {
    assert a + k * q == (a / q + k) * q + a % q;
    RemainderUnique(a + k * q, a / q + k, a % q, q);
  }

  lemma ModAdd(a: int, b: int, q: int)
    requires q > 0
    ensures (a % q + b) % q == (a + b) % q
  {
    ModShift(a % q + b, a / q, q);
  }

  lemma ModMul(a: int, b: int, q: int)
    requires q > 0
    ensures ((a % q) * b) % q == (a * b) % q
  {
    assert a * b == (a % q) * b + (a / q * b) * q by {
      assert a == (a / q) * q + a % q;
    }
    ModShift((a % q) * b, a / q * b, q);
  }

  lemma MulModAssoc(x: int, y: int, z: int, q: int)
    requires q > 0
    ensures MulMod(MulMod(x, y, q), z, q) == MulMod(x, MulMod(y, z, q), q)
  {
    ModMul(x * y, z, q);
    ModMul(y * z, x, q);
    assert x * y * z == y * z * x;
    assert ((y * z) % q) * x == x * ((y * z) % q);
  }

  lemma MulModDistributes(x: int, y: int, z: int, q: int)
    requires q > 0
    ensures MulMod((x + y) % q, z, q) == (MulMod(x, z, q) + MulMod(y, z, q)) % q
  {
    ModMul(x + y, z, q);
    ModAdd(x * z, y * z, q);
    ModAdd(y * z, MulMod(x, z, q), q);
    assert (x + y) * z == x * z + y * z;
  }

  lemma AddIsModular(x: Scalar, y: Scalar)
    ensures Add(x, y) == (x + y) % ORDER
  {
  }

  lemma MulAssoc(x: Scalar, y: Scalar, z: Scalar)
    ensures Mul(Mul(x, y), z) == Mul(x, Mul(y, z))
  {
    MulModAssoc(x, y, z, ORDER);
  }

  lemma MulComm(x: Scalar, y: Scalar)
    ensures Mul(x, y) == Mul(y, x)
  {
    assert x * y == y * x;
  }

  lemma MulDistributes(x: Scalar, y: Scalar, z: Scalar)
    ensures Mul(Add(x, y), z) == Add(Mul(x, z), Mul(y, z))
  {
    AddIsModular(x, y);
    AddIsModular(Mul(x, z), Mul(y, z));
    MulModDistributes(x, y, z, ORDER);
  }

  lemma MulOne(x: Scalar)
    ensures Mul(x, 1) == x
  {
    assert x * 1 == x;
  }

  // ---- points -------------------------------------------------------------

  datatype Point = Point(log: Scalar)

  const IDENTITY: Point := Point(0)
  const G: Point := Point(1)

  function Plus(p: Point, q: Point): Point {
    Point(Add(p.log, q.log))
  }

  function Minus(p: Point, q: Point): Point {
    Point(Sub(p.log, q.log))
  }

  function Scale(p: Point, s: Scalar): Point {
    Point(Mul(s, p.log))
  }

  /** The laws of a module over the scalars, stated on points. */
  lemma ScaleAdd(p: Point, s: Scalar, t: Scalar)
    ensures Scale(p, Add(s, t)) == Plus(Scale(p, s), Scale(p, t))
  {
    MulDistributes(s, t, p.log);
  }

  lemma ScaleScale(p: Point, s: Scalar, t: Scalar)
    ensures Scale(Scale(p, s), t) == Scale(p, Mul(t, s))
  {
    MulAssoc(t, s, p.log);
  }

  lemma ScaleG(s: Scalar)
    ensures Scale(G, s) == Point(s)
  {
    MulOne(s);
  }

  // ---- encodings ----------------------------------------------------------

  /** Everything the source takes from its curve and hash libraries, as parameters:
    * `blake` is BLAKE2b-256, `hs` hashes to a scalar, `hp` hashes to a point,
    * `h` is the value generator, and `compress`/`decompress` encode points.
    */
  datatype Suite = Suite(
    blake: Bytes -> Bytes32,
    hs: Bytes -> Scalar,
    hp: Bytes -> Point,
    h: Point,
    compress: Point -> Bytes32,
    decompress: Bytes32 -> Option<Point>)
  {
    /** Encoding is canonical: sections 4.3.1 and 4.3.2 of RFC 9496. */
    ghost predicate Canonical() {
      && (forall p :: decompress(compress(p)) == Some(p))
      && (forall b :: decompress(b).Some? ==> compress(decompress(b).value) == b)
    }

    /** `native::is_valid_point`: a canonical encoding of a point other than the identity. */
    predicate IsValidPoint(b: Bytes32) {
      decompress(b).Some? && decompress(b).value != IDENTITY
    }
  }

  /** Two different strings that hash to one scalar. */
  ghost predicate ScalarClash(c: Suite, x: Bytes, y: Bytes) {
    x != y && (c.hs)(x) == (c.hs)(y)
  }

  function ScalarBytes(x: Scalar): Bytes32 {
    ToLe(x, 32)
  }

  /** `Scalar::from_canonical_bytes`. */
  function ScalarFrom(b: Bytes): Option<Scalar> {
    if |b| == 32 && FromLe(b) < ORDER then Some(FromLe(b)) else None
  }

  lemma OrderFits()
    ensures ORDER < Pow256(32)
  {
    assert Pow256(8) == U64_BOUND;
    assert Pow256(16) == U64_BOUND * U64_BOUND by {
      assert Pow256(16) == 256 * 256 * 256 * 256 * 256 * 256 * 256 * 256 * Pow256(8);
    }
    assert Pow256(24) == U64_BOUND * Pow256(16);
    assert Pow256(32) == U64_BOUND * Pow256(24);
  }

  /** Only canonical bytes decode. */
  lemma ScalarIsCanonical(b: Bytes)
    requires ScalarFrom(b).Some?
    ensures b == ScalarBytes(ScalarFrom(b).value)
  {
    ToFromLe(b);
  }

  /** Scalars round-trip through their bytes. */
  lemma ScalarRoundTrip(x: Scalar)
    ensures ScalarFrom(ScalarBytes(x)) == Some(x)
  {
    OrderFits();
    FromToLe(x, 32);
  }
}

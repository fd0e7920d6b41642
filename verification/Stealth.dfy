/** Dual-key stealth addresses: shared secrets, one-time keys and masked amounts. */
module Stealth {
  import opened Bytes
  import opened Group
  import opened Tree

  const DOM_OTK: Bytes := Ascii("kohl/stealth/otk/v1")
  const DOM_VIEW_TAG: Bytes := Ascii("kohl/stealth/view-tag/v1")
  const DOM_BLINDING: Bytes := Ascii("kohl/stealth/blinding/v1")
  const DOM_AMOUNT: Bytes := Ascii("kohl/stealth/amount/v1")
  const DOM_WALLET_VIEW: Bytes := Ascii("kohl/wallet/view/v1")
  const DOM_WALLET_SPEND: Bytes := Ascii("kohl/wallet/spend/v1")

  datatype StealthKeys = StealthKeys(viewSecret: Bytes32, spendSecret: Bytes32)

  datatype StealthAddress = StealthAddress(viewPublic: Bytes32, spendPublic: Bytes32)

  function PublicKey(c: Suite, x: Scalar): Bytes32 {
    (c.compress)(Scale(G, x))
  }

  /** The secrets of view scalar `a` and spend scalar `b`. */
  function KeysOf(a: Scalar, b: Scalar): StealthKeys {
    StealthKeys(ScalarBytes(a), ScalarBytes(b))
  }

  function AddressOf(c: Suite, a: Scalar, b: Scalar): StealthAddress {
    StealthAddress(PublicKey(c, a), PublicKey(c, b))
  }

  /** `keys` are the secrets of `address`. */
  ghost predicate Matched(c: Suite, keys: StealthKeys, address: StealthAddress) {
    exists a, b :: KeysOf(a, b) == keys && AddressOf(c, a, b) == address
  }

  // ---- shared secrets -----------------------------------------------------

  /** `secret · public`, compressed: `r·A` for the sender, `a·R` for the receiver. */
  function SharedSecret(c: Suite, secret: Bytes, public: Bytes32): Option<Bytes32> {
    match ((c.decompress)(public), ScalarFrom(secret))
    case (Some(p), Some(x)) => Some((c.compress)(Scale(p, x)))
    case _ => None
  }

  /** Sender and receiver reach the same secret. */
  lemma SharedSecretsAgree(c: Suite, r: Scalar, a: Scalar)
    requires c.Canonical()
    ensures SharedSecret(c, ScalarBytes(r), PublicKey(c, a)).Some?
    ensures SharedSecret(c, ScalarBytes(r), PublicKey(c, a)) == SharedSecret(c, ScalarBytes(a), PublicKey(c, r))
  {
    ScalarRoundTrip(r);
    ScalarRoundTrip(a);
    ScaleScale(G, a, r);
    ScaleScale(G, r, a);
    MulComm(a, r);
  }

  /** Secrets behave like multiples of the public key: one times it is the key itself, and secrets of
    * a sum of scalars are sums of secrets. So no two scalars share a secret with one key by design.
    */
  lemma SharedSecretIsLinear(c: Suite, x: Scalar, y: Scalar, public: Bytes32)
    requires c.Canonical() && (c.decompress)(public).Some?
    ensures SharedSecret(c, ScalarBytes(1), public) == Some(public)
    ensures var sx, sy, sum := SharedSecret(c, ScalarBytes(x), public), SharedSecret(c, ScalarBytes(y), public),
                               SharedSecret(c, ScalarBytes(Add(x, y)), public);
            && sx.Some? && sy.Some? && sum.Some?
            && (c.decompress)(sx.value).Some? && (c.decompress)(sy.value).Some?
            && (c.decompress)(sum.value) == Some(Plus((c.decompress)(sx.value).value, (c.decompress)(sy.value).value))
  {
    var p := (c.decompress)(public).value;
    ScalarRoundTrip(1);
    ScalarRoundTrip(x);
    ScalarRoundTrip(y);
    ScalarRoundTrip(Add(x, y));
    MulComm(1, p.log);
    MulOne(p.log);
    ScaleAdd(p, x, y);
    assert (c.compress)(p) == public;
    assert (c.decompress)((c.compress)(Scale(p, x))) == Some(Scale(p, x));
    assert (c.decompress)((c.compress)(Scale(p, y))) == Some(Scale(p, y));
    assert (c.decompress)((c.compress)(Scale(p, Add(x, y)))) == Some(Scale(p, Add(x, y)));
  }

  // ---- one-time keys ------------------------------------------------------

  function Derived(c: Suite, domain: Bytes, shared: Bytes32, index: nat): Scalar {
    (c.hs)(domain + shared + ToLe(index, 4))
  }

  function DerivationScalar(c: Suite, shared: Bytes32, index: nat): Scalar {
    Derived(c, DOM_OTK, shared, index)
  }

  function ViewTag(c: Suite, shared: Bytes32, index: nat): byte {
    ScalarBytes(Derived(c, DOM_VIEW_TAG, shared, index))[0]
  }

  /** `P = Hs(shared ‖ i)·G + B`, with its view tag. */
  function DeriveOneTimeKey(c: Suite, shared: Bytes32, spendPublic: Bytes32, index: nat): Option<(Bytes32, byte)> {
    match (c.decompress)(spendPublic)
    case None => None
    case Some(b) => Some(((c.compress)(Plus(Scale(G, DerivationScalar(c, shared, index)), b)), ViewTag(c, shared, index)))
  }

  /** `x = Hs(a·R ‖ i) + b`. */
  function RecoverSpendSecret(c: Suite, keys: StealthKeys, txPubkey: Bytes32, index: nat): Option<Bytes32> {
    match (SharedSecret(c, keys.viewSecret, txPubkey), ScalarFrom(keys.spendSecret))
    case (Some(shared), Some(b)) => Some(ScalarBytes(Add(DerivationScalar(c, shared, index), b)))
    case _ => None
  }

  /** The recovered secret opens the one-time key. */
  lemma RecoveredSecretOpens(c: Suite, a: Scalar, b: Scalar, txPubkey: Bytes32, index: nat)
    requires c.Canonical()
    ensures var keys, address := KeysOf(a, b), AddressOf(c, a, b);
            var shared := SharedSecret(c, keys.viewSecret, txPubkey);
            shared.Some? ==>
              && RecoverSpendSecret(c, keys, txPubkey, index).Some?
              && var x := ScalarFrom(RecoverSpendSecret(c, keys, txPubkey, index).value);
                 && x.Some?
                 && DeriveOneTimeKey(c, shared.value, address.spendPublic, index) ==
                    Some((PublicKey(c, x.value), ViewTag(c, shared.value, index)))
  {
    var keys, address := KeysOf(a, b), AddressOf(c, a, b);
    ScalarRoundTrip(b);
    if SharedSecret(c, keys.viewSecret, txPubkey).Some? {
      var shared := SharedSecret(c, keys.viewSecret, txPubkey).value;
      ScalarRoundTrip(Add(DerivationScalar(c, shared, index), b));
      ScaleAdd(G, DerivationScalar(c, shared, index), b);
    }
  }

  function DeriveBlinding(c: Suite, shared: Bytes32, index: nat): Bytes32 {
    ScalarBytes(Derived(c, DOM_BLINDING, shared, index))
  }

  // ---- what derivations bind ----------------------------------------------

  /** What is hashed for output `index`. */
  function OutputString(domain: Bytes, shared: Bytes32, index: nat): Bytes {
    domain + shared + ToLe(index, 4)
  }

  lemma OutputStringBinds(domain: Bytes, shared: Bytes32, i: nat, shared': Bytes32, j: nat)
    requires i < 0x1_0000_0000 && j < 0x1_0000_0000
    requires OutputString(domain, shared, i) == OutputString(domain, shared', j)
    ensures shared == shared' && i == j
  {
    SplitEnd(domain + shared, ToLe(i, 4), domain + shared', ToLe(j, 4));
    SplitStart(domain, shared, domain, shared');
    LeWidths();
    FromToLe(i, 4);
    FromToLe(j, 4);
  }

  /** Each of the four derivations tells secrets and positions apart, short of two strings with one
    * scalar.
    */
  lemma DerivationBinds(c: Suite, shared: Bytes32, i: nat, shared': Bytes32, j: nat)
    requires i < 0x1_0000_0000 && j < 0x1_0000_0000 && (shared != shared' || i != j)
    ensures DerivationScalar(c, shared, i) == DerivationScalar(c, shared', j) ==>
              ScalarClash(c, OutputString(DOM_OTK, shared, i), OutputString(DOM_OTK, shared', j))
    ensures DeriveBlinding(c, shared, i) == DeriveBlinding(c, shared', j) ==>
              ScalarClash(c, OutputString(DOM_BLINDING, shared, i), OutputString(DOM_BLINDING, shared', j))
    ensures AmountMask(c, shared, i) == AmountMask(c, shared', j) ==>
              ScalarClash(c, OutputString(DOM_AMOUNT, shared, i), OutputString(DOM_AMOUNT, shared', j))
  {
    forall domain: Bytes
      ensures OutputString(domain, shared, i) != OutputString(domain, shared', j)
    {
      if OutputString(domain, shared, i) == OutputString(domain, shared', j) {
        OutputStringBinds(domain, shared, i, shared', j);
      }
    }
    ScalarRoundTrip(Derived(c, DOM_BLINDING, shared, i));
    ScalarRoundTrip(Derived(c, DOM_BLINDING, shared', j));
    ScalarRoundTrip(Derived(c, DOM_AMOUNT, shared, i));
    ScalarRoundTrip(Derived(c, DOM_AMOUNT, shared', j));
  }

  /** No two of them share a string: a value of one is never by design a value of another. */
  lemma DomainsAreSeparate(shared: Bytes32, i: nat, shared': Bytes32, j: nat)
    ensures OutputString(DOM_OTK, shared, i) != OutputString(DOM_BLINDING, shared', j)
    ensures OutputString(DOM_OTK, shared, i) != OutputString(DOM_AMOUNT, shared', j)
    ensures OutputString(DOM_OTK, shared, i) != OutputString(DOM_VIEW_TAG, shared', j)
    ensures OutputString(DOM_BLINDING, shared, i) != OutputString(DOM_AMOUNT, shared', j)
    ensures OutputString(DOM_VIEW_TAG, shared, i) != OutputString(DOM_AMOUNT, shared', j)
    ensures OutputString(DOM_VIEW_TAG, shared, i) != OutputString(DOM_BLINDING, shared', j)
  {
    assert OutputString(DOM_VIEW_TAG, shared, i)[13] == DOM_VIEW_TAG[13] == 118;
    assert OutputString(DOM_BLINDING, shared', j)[13] == DOM_BLINDING[13] == 98;
  }

  /** The view tag is the low byte of its scalar. */
  lemma ViewTagIsLowByte(c: Suite, shared: Bytes32, index: nat)
    ensures ViewTag(c, shared, index) as int == (c.hs)(OutputString(DOM_VIEW_TAG, shared, index)) % 256
  {
  }

  // ---- masked amounts -----------------------------------------------------

  /** Bitwise exclusive or of the low `bits` bits. */
  function Xor(x: nat, y: nat, bits: nat): (r: nat)
    ensures r < Pow2(bits)
  {
    if bits == 0 then 0 else (x + y) % 2 + 2 * Xor(x / 2, y / 2, bits - 1)
  }

  lemma LowBit(x: nat, y: nat, high: nat)
    ensures ((x + y) % 2 + 2 * high) / 2 == high
    ensures ((x + y) % 2 + 2 * high + y) % 2 == x % 2
  {
  }

  lemma {:induction false} XorUndoes(x: nat, y: nat, bits: nat)
    requires x < Pow2(bits)
    ensures Xor(Xor(x, y, bits), y, bits) == x
  {
    if bits > 0 {
      XorUndoes(x / 2, y / 2, bits - 1);
      LowBit(x, y, Xor(x / 2, y / 2, bits - 1));
    }
  }

  function XorByte(x: byte, y: byte): byte {
    assert Pow2(8) == 256 by {
      assert Pow2(4) == 16;
      assert Pow2(8) == 2 * (2 * (2 * (2 * Pow2(4))));
    }
    Xor(x as int, y as int, 8) as byte
  }

  lemma XorByteUndoes(x: byte, y: byte)
    ensures XorByte(XorByte(x, y), y) == x
  {
    assert Pow2(4) == 16;
    assert Pow2(8) == 2 * (2 * (2 * (2 * Pow2(4))));
    XorUndoes(x as int, y as int, 8);
  }

  lemma {:induction false} XorUndoesOther(x: nat, y: nat, bits: nat)
    requires y < Pow2(bits)
    ensures Xor(Xor(x, y, bits), x, bits) == y
  {
    if bits > 0 {
      XorUndoesOther(x / 2, y / 2, bits - 1);
      LowBit(y, x, Xor(x / 2, y / 2, bits - 1));
    }
  }

  lemma XorByteUndoesOther(x: byte, y: byte)
    ensures XorByte(XorByte(x, y), x) == y
  {
    assert Pow2(4) == 16;
    assert Pow2(8) == 2 * (2 * (2 * (2 * Pow2(4))));
    XorUndoesOther(x as int, y as int, 8);
  }

  function XorBytes(b: Bytes, mask: Bytes): (r: Bytes)
    requires |b| <= |mask|
    ensures |r| == |b|
  {
    seq(|b|, i requires 0 <= i < |b| => XorByte(b[i], mask[i]))
  }

  function AmountMask(c: Suite, shared: Bytes32, index: nat): Bytes32 {
    ScalarBytes(Derived(c, DOM_AMOUNT, shared, index))
  }

  function MaskedAmount(c: Suite, shared: Bytes32, index: nat, amount: u64): (masked: Bytes)
    ensures |masked| == 8
  {
    XorBytes(ToLe(amount, 8), AmountMask(c, shared, index))
  }

  function UnmaskedAmount(c: Suite, shared: Bytes32, index: nat, masked: Bytes): u64
    requires |masked| == 8
  {
    ToFromLe(XorBytes(masked, AmountMask(c, shared, index)));
    LeWidths();
    FromLe(XorBytes(masked, AmountMask(c, shared, index)))
  }

  /** Unmasking undoes masking. */
  lemma UnmaskMasked(c: Suite, shared: Bytes32, index: nat, amount: u64)
    ensures UnmaskedAmount(c, shared, index, MaskedAmount(c, shared, index, amount)) == amount
  {
    var mask := AmountMask(c, shared, index);
    forall i | 0 <= i < 8
      ensures XorBytes(XorBytes(ToLe(amount, 8), mask), mask)[i] == ToLe(amount, 8)[i]
    {
      XorByteUndoes(ToLe(amount, 8)[i], mask[i]);
    }
    assert XorBytes(XorBytes(ToLe(amount, 8), mask), mask) == ToLe(amount, 8);
    LeWidths();
    FromToLe(amount, 8);
  }

  /** Who knows the amount reads the mask off the payload: every byte of it is used. */
  lemma MaskIsUsed(c: Suite, shared: Bytes32, index: nat, amount: u64)
    ensures XorBytes(MaskedAmount(c, shared, index, amount), ToLe(amount, 8)) == AmountMask(c, shared, index)[..8]
  {
    var mask := AmountMask(c, shared, index);
    forall i | 0 <= i < 8
      ensures XorBytes(MaskedAmount(c, shared, index, amount), ToLe(amount, 8))[i] == mask[..8][i]
    {
      XorByteUndoesOther(ToLe(amount, 8)[i], mask[i]);
    }
  }

  /** XOR an array in place with the first bytes of a mask. */
  method XorInPlace(out: array<byte>, mask: Bytes)
    requires out.Length <= |mask|
    modifies out
    ensures out[..] == XorBytes(old(out[..]), mask)
  {
    var i := 0;
    while i < out.Length
      invariant 0 <= i <= out.Length
      invariant forall k :: 0 <= k < i ==> out[k] == XorByte(old(out[k]), mask[k])
      invariant forall k :: i <= k < out.Length ==> out[k] == old(out[k])
    {
      out[i] := XorByte(out[i], mask[i]);
      i := i + 1;
    }
  }

  method MaskAmount(c: Suite, shared: Bytes32, index: nat, amount: u64) returns (masked: Bytes)
    ensures masked == MaskedAmount(c, shared, index, amount)
  {
    var bytes := ToLe(amount, 8);
    var out := new byte[8](i requires 0 <= i < 8 => bytes[i]);
    assert out[..] == bytes;
    XorInPlace(out, AmountMask(c, shared, index));
    return out[..];
  }

  method UnmaskAmount(c: Suite, shared: Bytes32, index: nat, masked: Bytes) returns (amount: u64)
    requires |masked| == 8
    ensures amount == UnmaskedAmount(c, shared, index, masked)
  {
    var out := new byte[8](i requires 0 <= i < 8 => masked[i]);
    assert out[..] == masked;
    XorInPlace(out, AmountMask(c, shared, index));
    ToFromLe(out[..]);
    LeWidths();
    return FromLe(out[..]);
  }
}

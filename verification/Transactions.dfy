/** Transactions, stored outputs, and their SCALE encodings. */
module Transactions {
  import opened Bytes
  import opened Limits

  const SIGNING_DOMAIN: Bytes := Ascii("kohl/transfer/v4")

  /** A new confidential output as it appears in a transaction. */
  datatype Output = Output(key: Bytes32, commitment: Bytes32, viewTag: byte, payload: Bytes)

  datatype CoinbaseOutput = CoinbaseOutput(key: Bytes32, amount: u64, viewTag: byte)

  datatype StoredOutput = StoredOutput(key: Bytes32, commitment: Bytes32, txPubkey: Bytes32, viewTag: byte,
                                       payload: Bytes, amount: Option<u64>, height: nat, coinbase: bool)

  /** How an output of a transfer is stored. */
  function StoredFrom(o: Output, txPubkey: Bytes32, height: nat): StoredOutput {
    StoredOutput(o.key, o.commitment, txPubkey, o.viewTag, o.payload, None, height, false)
  }

  datatype FcmpInput = FcmpInput(keyImage: Bytes32, pseudo: Bytes32, proof: Bytes)

  datatype TransferData = TransferData(root: Bytes32, inputs: seq<FcmpInput>, outputs: seq<Output>,
                                       txPubkey: Bytes32, rangeProof: Bytes, fee: u64)
  {
    /** The `BoundedVec` limits. */
    predicate Bounded() {
      && |inputs| <= MAX_FCMP_INPUTS && |outputs| <= MAX_OUTPUTS
      && |rangeProof| <= MAX_RANGE_PROOF_BYTES
      && (forall i :: 0 <= i < |inputs| ==> |inputs[i].proof| <= MAX_FCMP_PROOF_BYTES)
      && (forall j :: 0 <= j < |outputs| ==> |outputs[j].payload| <= MAX_PAYLOAD_BYTES)
    }
  }

  type TransferTx = t: TransferData | t.Bounded()
    witness TransferData(seq(32, _ => 0), [], [], seq(32, _ => 0), [], 0)

  // ---- SCALE --------------------------------------------------------------

  /** Compact length prefix, for lengths below 2^14. */
  function Compact(n: nat): Bytes
    requires n < 0x4000
  {
    if n < 64 then [(4 * n) as byte] else ToLe(4 * n + 1, 2)
  }

  function VecBytes(v: Bytes): Bytes
    requires |v| < 0x4000
  {
    Compact(|v|) + v
  }

  function OutputBytes(o: Output): Bytes
    requires |o.payload| <= MAX_PAYLOAD_BYTES
  {
    o.key + (o.commitment + ([o.viewTag] + VecBytes(o.payload)))
  }

  function InputBytes(i: FcmpInput): Bytes
    requires |i.proof| <= MAX_FCMP_PROOF_BYTES
  {
    i.keyImage + (i.pseudo + VecBytes(i.proof))
  }

  function OutputList(outputs: seq<Output>): Bytes
    requires forall j :: 0 <= j < |outputs| ==> |outputs[j].payload| <= MAX_PAYLOAD_BYTES
  {
    if outputs == [] then [] else OutputBytes(outputs[0]) + OutputList(outputs[1..])
  }

  function InputList(inputs: seq<FcmpInput>): Bytes
    requires forall j :: 0 <= j < |inputs| ==> |inputs[j].proof| <= MAX_FCMP_PROOF_BYTES
  {
    if inputs == [] then [] else InputBytes(inputs[0]) + InputList(inputs[1..])
  }

  function TransferBytes(tx: TransferTx): Bytes {
    tx.root + (Compact(|tx.inputs|) + (InputList(tx.inputs) + (Compact(|tx.outputs|) + (OutputList(tx.outputs) +
    (tx.txPubkey + (VecBytes(tx.rangeProof) + ToLe(tx.fee, 8)))))))
  }

  function EncodedSize(tx: TransferTx): nat {
    |TransferBytes(tx)|
  }

  function Images(inputs: seq<FcmpInput>): (kis: seq<Bytes32>)
    ensures |kis| == |inputs| && AllWidth(kis, 32)
  {
    seq(|inputs|, i requires 0 <= i < |inputs| => inputs[i].keyImage)
  }

  function Pseudos(inputs: seq<FcmpInput>): (ps: seq<Bytes32>)
    ensures |ps| == |inputs| && AllWidth(ps, 32)
  {
    seq(|inputs|, i requires 0 <= i < |inputs| => inputs[i].pseudo)
  }

  predicate Distinct(kis: seq<Bytes32>) {
    forall i, j :: 0 <= i < j < |kis| ==> kis[i] != kis[j]
  }

  /** The string that `signing_hash` hashes. */
  function SigningPreimage(tx: TransferTx): Bytes {
    SIGNING_DOMAIN + (tx.root + (Compact(|tx.inputs|) + (Flatten(Images(tx.inputs)) + (Compact(|tx.inputs|) +
    (Flatten(Pseudos(tx.inputs)) + (Compact(|tx.outputs|) + (OutputList(tx.outputs) + (tx.txPubkey + ToLe(tx.fee, 8)))))))))
  }

  function SigningHash(blake: Bytes -> Bytes32, tx: TransferTx): Bytes32 {
    blake(SigningPreimage(tx))
  }

  /** Same root, key images, pseudo-commitments, outputs, transaction key and fee. */
  predicate SameSigned(a: TransferData, b: TransferData) {
    && a.root == b.root && a.outputs == b.outputs && a.txPubkey == b.txPubkey && a.fee == b.fee
    && |a.inputs| == |b.inputs|
    && forall i :: 0 <= i < |a.inputs| ==>
         a.inputs[i].keyImage == b.inputs[i].keyImage && a.inputs[i].pseudo == b.inputs[i].pseudo
  }

  // ---- what the signing hash binds ----------------------------------------

  lemma CompactLength(n: nat)
    requires n < 0x4000
    ensures |Compact(n)| == if n < 64 then 1 else 2
    ensures Compact(n)[0] as int % 4 == if n < 64 then 0 else 1
  {
    if n >= 64 {
      assert ToLe(4 * n + 1, 2)[0] as int == (4 * n + 1) % 256;
    }
  }

  /** Compact prefixes are prefix-free. */
  lemma PeelCompact(m: nat, x: Bytes, n: nat, y: Bytes)
    requires m < 0x4000 && n < 0x4000 && Compact(m) + x == Compact(n) + y
    ensures m == n && x == y
  {
    CompactLength(m);
    CompactLength(n);
    assert (Compact(m) + x)[0] == Compact(m)[0] && (Compact(n) + y)[0] == Compact(n)[0];
    SplitStart(Compact(m), x, Compact(n), y);
    if m >= 64 {
      assert Pow256(2) == 65536;
      FromToLe(4 * m + 1, 2);
      FromToLe(4 * n + 1, 2);
    }
  }

  lemma PeelOutput(a: Output, x: Bytes, b: Output, y: Bytes)
    requires |a.payload| <= MAX_PAYLOAD_BYTES && |b.payload| <= MAX_PAYLOAD_BYTES
    requires OutputBytes(a) + x == OutputBytes(b) + y
    ensures a == b && x == y
  {
    var a3, b3 := VecBytes(a.payload) + x, VecBytes(b.payload) + y;
    var a2, b2 := [a.viewTag] + a3, [b.viewTag] + b3;
    var a1, b1 := a.commitment + a2, b.commitment + b2;
    assert OutputBytes(a) + x == a.key + a1;
    assert OutputBytes(b) + y == b.key + b1;
    SplitStart(a.key, a1, b.key, b1);
    SplitStart(a.commitment, a2, b.commitment, b2);
    SplitStart([a.viewTag], a3, [b.viewTag], b3);
    assert [a.viewTag][0] == [b.viewTag][0];
    assert a3 == Compact(|a.payload|) + (a.payload + x);
    assert b3 == Compact(|b.payload|) + (b.payload + y);
    PeelCompact(|a.payload|, a.payload + x, |b.payload|, b.payload + y);
    SplitStart(a.payload, x, b.payload, y);
  }

  /** The first output comes first. */
  lemma OutputListHead(a: seq<Output>, x: Bytes)
    requires a != [] && forall j :: 0 <= j < |a| ==> |a[j].payload| <= MAX_PAYLOAD_BYTES
    ensures OutputList(a) + x == OutputBytes(a[0]) + (OutputList(a[1..]) + x)
  {
    ConcatAssoc(OutputBytes(a[0]), OutputList(a[1..]), x);
  }

  lemma {:induction false} PeelOutputs(a: seq<Output>, x: Bytes, b: seq<Output>, y: Bytes)
    requires |a| == |b|
    requires forall j :: 0 <= j < |a| ==> |a[j].payload| <= MAX_PAYLOAD_BYTES && |b[j].payload| <= MAX_PAYLOAD_BYTES
    requires OutputList(a) + x == OutputList(b) + y
    ensures a == b && x == y
    decreases |a|
  {
    if a == [] {
      assert [] + x == x && [] + y == y;
    } else {
      OutputListHead(a, x);
      OutputListHead(b, y);
      PeelOutput(a[0], OutputList(a[1..]) + x, b[0], OutputList(b[1..]) + y);
      PeelOutputs(a[1..], x, b[1..], y);
      assert a == [a[0]] + a[1..] && b == [b[0]] + b[1..];
    }
  }

  /** After the domain and root: key images, then pseudo-commitments. */
  lemma PeelInputs(a: TransferTx, x: Bytes, b: TransferTx, y: Bytes)
    requires Compact(|a.inputs|) + (Flatten(Images(a.inputs)) + (Compact(|a.inputs|) + (Flatten(Pseudos(a.inputs)) + x))) ==
             Compact(|b.inputs|) + (Flatten(Images(b.inputs)) + (Compact(|b.inputs|) + (Flatten(Pseudos(b.inputs)) + y)))
    ensures |a.inputs| == |b.inputs| && x == y
    ensures forall i :: 0 <= i < |a.inputs| ==>
              a.inputs[i].keyImage == b.inputs[i].keyImage && a.inputs[i].pseudo == b.inputs[i].pseudo
  {
    var a2, b2 := Flatten(Pseudos(a.inputs)) + x, Flatten(Pseudos(b.inputs)) + y;
    var a1, b1 := Flatten(Images(a.inputs)) + (Compact(|a.inputs|) + a2), Flatten(Images(b.inputs)) + (Compact(|b.inputs|) + b2);
    PeelCompact(|a.inputs|, a1, |b.inputs|, b1);
    FlattenLength(Images(a.inputs), 32);
    FlattenLength(Images(b.inputs), 32);
    FlattenLength(Pseudos(a.inputs), 32);
    FlattenLength(Pseudos(b.inputs), 32);
    SplitStart(Flatten(Images(a.inputs)), Compact(|a.inputs|) + a2, Flatten(Images(b.inputs)), Compact(|b.inputs|) + b2);
    PeelCompact(|a.inputs|, a2, |b.inputs|, b2);
    SplitStart(Flatten(Pseudos(a.inputs)), x, Flatten(Pseudos(b.inputs)), y);
    FlattenInjective(Images(a.inputs), Images(b.inputs), 32);
    FlattenInjective(Pseudos(a.inputs), Pseudos(b.inputs), 32);
    forall i | 0 <= i < |a.inputs|
      ensures a.inputs[i].keyImage == b.inputs[i].keyImage && a.inputs[i].pseudo == b.inputs[i].pseudo
    {
      assert Images(a.inputs)[i] == Images(b.inputs)[i] && Pseudos(a.inputs)[i] == Pseudos(b.inputs)[i];
    }
  }

  lemma PreimageFixesFields(a: TransferTx, b: TransferTx)
    requires SigningPreimage(a) == SigningPreimage(b)
    ensures SameSigned(a, b)
  {
    var a3, b3 := a.txPubkey + ToLe(a.fee, 8), b.txPubkey + ToLe(b.fee, 8);
    var a2, b2 := Compact(|a.outputs|) + (OutputList(a.outputs) + a3), Compact(|b.outputs|) + (OutputList(b.outputs) + b3);
    var a1 := Compact(|a.inputs|) + (Flatten(Images(a.inputs)) + (Compact(|a.inputs|) + (Flatten(Pseudos(a.inputs)) + a2)));
    var b1 := Compact(|b.inputs|) + (Flatten(Images(b.inputs)) + (Compact(|b.inputs|) + (Flatten(Pseudos(b.inputs)) + b2)));
    SplitStart(SIGNING_DOMAIN, a.root + a1, SIGNING_DOMAIN, b.root + b1);
    SplitStart(a.root, a1, b.root, b1);
    PeelInputs(a, a2, b, b2);
    PeelCompact(|a.outputs|, OutputList(a.outputs) + a3, |b.outputs|, OutputList(b.outputs) + b3);
    PeelOutputs(a.outputs, a3, b.outputs, b3);
    SplitStart(a.txPubkey, ToLe(a.fee, 8), b.txPubkey, ToLe(b.fee, 8));
    LeWidths();
    FromToLe(a.fee, 8);
    FromToLe(b.fee, 8);
  }

  /** The signed string fixes every field a spend must authorise, and depends on nothing else:
    * not on the proofs and not on the range proof.
    */
  lemma SigningBinds(a: TransferTx, b: TransferTx)
    ensures SigningPreimage(a) == SigningPreimage(b) <==> SameSigned(a, b)
  {
    if SigningPreimage(a) == SigningPreimage(b) {
      PreimageFixesFields(a, b);
    }
    if SameSigned(a, b) {
      assert Images(a.inputs) == Images(b.inputs) && Pseudos(a.inputs) == Pseudos(b.inputs);
    }
  }

  /** Two different strings with one digest. */
  ghost predicate DigestClash(blake: Bytes -> Bytes32, x: Bytes, y: Bytes) {
    x != y && blake(x) == blake(y)
  }

  /** One message serves one set of signed fields, or the two signed strings share a digest. */
  lemma SigningHashBinds(blake: Bytes -> Bytes32, a: TransferTx, b: TransferTx)
    ensures SameSigned(a, b) ==> SigningHash(blake, a) == SigningHash(blake, b)
    ensures SigningHash(blake, a) == SigningHash(blake, b) ==>
              SameSigned(a, b) || DigestClash(blake, SigningPreimage(a), SigningPreimage(b))
  {
    SigningBinds(a, b);
  }

  // ---- the order of key images --------------------------------------------

  /** `<` on byte arrays of equal length: lexicographic. */
  predicate Less(a: Bytes, b: Bytes)
    decreases |a|
  {
    a != [] && b != [] && (a[0] < b[0] || (a[0] == b[0] && Less(a[1..], b[1..])))
  }

  /** `Less` by its meaning: the first byte that differs is smaller. */
  ghost predicate LessAt(a: Bytes, b: Bytes, k: nat) {
    k < |a| && k < |b| && a[..k] == b[..k] && a[k] < b[k]
  }

  lemma {:induction false} LessHasPlace(a: Bytes, b: Bytes) returns (k: nat)
    requires Less(a, b)
    ensures LessAt(a, b, k)
    decreases |a|
  {
    k := 0;
    if a[0] == b[0] {
      var j := LessHasPlace(a[1..], b[1..]);
      assert a[..j + 1] == [a[0]] + a[1..][..j] && b[..j + 1] == [b[0]] + b[1..][..j];
      k := j + 1;
    }
  }

  lemma {:induction false} PlaceMeansLess(a: Bytes, b: Bytes, k: nat)
    requires LessAt(a, b, k)
    ensures Less(a, b)
    decreases k
  {
    if k > 0 {
      LessFurther(a, b, k);
      PlaceMeansLess(a[1..], b[1..], k - 1);
    }
  }

  lemma LessExactly(a: Bytes, b: Bytes)
    ensures Less(a, b) <==> exists k :: LessAt(a, b, k)
  {
    if Less(a, b) {
      var k := LessHasPlace(a, b);
    }
    if k: nat :| LessAt(a, b, k) {
      PlaceMeansLess(a, b, k);
    }
  }

  lemma LessFurther(a: Bytes, b: Bytes, k: nat)
    requires LessAt(a, b, k) && k > 0
    ensures a[0] == b[0] && LessAt(a[1..], b[1..], k - 1)
  {
    assert a[0] == a[..k][0] && b[0] == b[..k][0];
    assert a[1..][..k - 1] == a[..k][1..] && b[1..][..k - 1] == b[..k][1..];
  }

  lemma {:induction false} LessIsTotal(a: Bytes, b: Bytes)
    requires |a| == |b|
    ensures Less(a, b) || a == b || Less(b, a)
    decreases |a|
  {
    if a != [] && a[0] == b[0] {
      LessIsTotal(a[1..], b[1..]);
      assert a == [a[0]] + a[1..] && b == [b[0]] + b[1..];
    }
  }

  lemma {:induction false} LessIsTransitive(a: Bytes, b: Bytes, c: Bytes)
    requires Less(a, b) && Less(b, c)
    ensures Less(a, c)
    decreases |a|
  {
    if a[0] == b[0] && b[0] == c[0] {
      LessIsTransitive(a[1..], b[1..], c[1..]);
    }
  }

  lemma {:induction false} LessIsIrreflexive(a: Bytes)
    ensures !Less(a, a)
  {
    if a != [] {
      LessIsIrreflexive(a[1..]);
    }
  }
}

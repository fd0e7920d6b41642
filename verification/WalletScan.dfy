/** Making outputs for an address and finding them again by scanning. */
module WalletScan {
  import opened Bytes
  import opened Limits
  import opened Group
  import opened Stealth
  import opened Native
  import opened Transactions
  import ClsagSign

  datatype OwnedOutput = OwnedOutput(globalIndex: nat, localIndex: nat, amount: u64, blinding: Bytes32, secret: Bytes32,
                                     keyImage: Bytes32, key: Bytes32, commitment: Bytes32, height: nat, coinbase: bool)

  datatype Wallet = Wallet(keys: StealthKeys, address: StealthAddress)

  /** A wallet's address is the address of its keys. */
  ghost predicate ValidWallet(c: Suite, w: Wallet) {
    Matched(c, w.keys, w.address)
  }

  function FromSeed(c: Suite, seed: Bytes32): Wallet {
    var a, b := (c.hs)(DOM_WALLET_VIEW + seed), (c.hs)(DOM_WALLET_SPEND + seed);
    Wallet(KeysOf(a, b), AddressOf(c, a, b))
  }

  lemma FromSeedIsValid(c: Suite, seed: Bytes32)
    ensures ValidWallet(c, FromSeed(c, seed))
  {
    var a, b := (c.hs)(DOM_WALLET_VIEW + seed), (c.hs)(DOM_WALLET_SPEND + seed);
    assert KeysOf(a, b) == FromSeed(c, seed).keys && AddressOf(c, a, b) == FromSeed(c, seed).address;
  }

  /** Different seeds give different secrets, and no secret serves both purposes, short of two strings
    * with one scalar.
    */
  lemma SeedsAreToldApart(c: Suite, seed: Bytes32, seed': Bytes32)
    ensures var keys, keys' := FromSeed(c, seed).keys, FromSeed(c, seed').keys;
            && (keys.viewSecret == keys'.viewSecret ==>
                  seed == seed' || ScalarClash(c, DOM_WALLET_VIEW + seed, DOM_WALLET_VIEW + seed'))
            && (keys.spendSecret == keys'.spendSecret ==>
                  seed == seed' || ScalarClash(c, DOM_WALLET_SPEND + seed, DOM_WALLET_SPEND + seed'))
            && (keys.viewSecret == keys'.spendSecret ==>
                  ScalarClash(c, DOM_WALLET_VIEW + seed, DOM_WALLET_SPEND + seed'))
  {
    forall domain: Bytes | domain + seed == domain + seed'
      ensures seed == seed'
    {
      SplitStart(domain, seed, domain, seed');
    }
    ScalarRoundTrip((c.hs)(DOM_WALLET_VIEW + seed));
    ScalarRoundTrip((c.hs)(DOM_WALLET_VIEW + seed'));
    ScalarRoundTrip((c.hs)(DOM_WALLET_SPEND + seed));
    ScalarRoundTrip((c.hs)(DOM_WALLET_SPEND + seed'));
    assert |DOM_WALLET_VIEW + seed| != |DOM_WALLET_SPEND + seed'|;
  }

  // ---- making an output ---------------------------------------------------

  /** `make_output`: the output for `recipient` at position `li`, with its blinding. */
  function MakeOutput(c: Suite, txSecret: Bytes, recipient: StealthAddress, li: nat, amount: u64): Option<(Output, Bytes32)> {
    match SharedSecret(c, txSecret, recipient.viewPublic)
    case None => None
    case Some(shared) =>
      match (DeriveOneTimeKey(c, shared, recipient.spendPublic, li), Commit(c, amount, DeriveBlinding(c, shared, li)))
      case (Some(derived), Some(commitment)) =>
        Some((Output(derived.0, commitment, derived.1, MaskedAmount(c, shared, li, amount)), DeriveBlinding(c, shared, li)))
      case _ => None
  }

  /** An output commits to the amount asked for, under the blinding returned with it. */
  lemma MadeOutputCommits(c: Suite, txSecret: Bytes, recipient: StealthAddress, li: nat, amount: u64)
    requires MakeOutput(c, txSecret, recipient, li, amount).Some?
    ensures var (o, blinding) := MakeOutput(c, txSecret, recipient, li, amount).value;
            && Commit(c, amount, blinding) == Some(o.commitment) && ScalarFrom(blinding).Some?
            && |o.payload| == 8
  {
  }

  // ---- scanning -----------------------------------------------------------

  /** Output `out` is the wallet's, as the output at position `li` of its transaction. */
  predicate BelongsAt(c: Suite, w: Wallet, shared: Bytes32, out: StoredOutput, li: nat) {
    && ViewTag(c, shared, li) == out.viewTag
    && DeriveOneTimeKey(c, shared, w.address.spendPublic, li) == Some((out.key, out.viewTag))
    && (out.amount.None? ==>
          |out.payload| >= 8 &&
          Commit(c, UnmaskedAmount(c, shared, li, out.payload[..8]), DeriveBlinding(c, shared, li)) == Some(out.commitment))
  }

  const ZERO_BLINDING: Bytes32 := ToLe(0, 32)

  /** An amount with the blinding of its commitment. */
  datatype Reading = Reading(amount: u64, blinding: Bytes32)

  /** The amount and blinding read off at position `li`. */
  function ReadAt(c: Suite, shared: Bytes32, out: StoredOutput, li: nat): Reading
    requires out.amount.None? ==> |out.payload| >= 8
  {
    if out.amount.Some? then Reading(out.amount.value, ZERO_BLINDING)
    else Reading(UnmaskedAmount(c, shared, li, out.payload[..8]), DeriveBlinding(c, shared, li))
  }

  /** `found` is `out`, owned through position `found.localIndex`, and can be spent: its secret gives
    * the key image and, if the wallet's address is that of its keys, opens the one-time key; and a
    * confidential amount opens the commitment.
    */
  ghost predicate Owned(c: Suite, w: Wallet, globalIndex: nat, out: StoredOutput, found: OwnedOutput) {
    && found.globalIndex == globalIndex && found.key == out.key && found.commitment == out.commitment
    && found.height == out.height && found.coinbase == out.coinbase
    && found.localIndex < MAX_OUTPUTS
    && ScalarFrom(found.secret).Some? && (ValidWallet(c, w) ==> PublicKey(c, ScalarFrom(found.secret).value) == out.key)
    && ClsagSign.KeyImage(c, found.secret) == Some(found.keyImage)
    && (match out.amount
        case Some(a) => found.amount == a && found.blinding == ZERO_BLINDING
        case None => Commit(c, found.amount, found.blinding) == Some(out.commitment))
  }

  /** No position below `n` claims the output. */
  predicate NoneBelow(c: Suite, w: Wallet, shared: Bytes32, out: StoredOutput, n: nat) {
    forall j :: 0 <= j < n ==> !BelongsAt(c, w, shared, out, j)
  }

  lemma SecretOpens(c: Suite, w: Wallet, txPubkey: Bytes32, shared: Bytes32, li: nat)
    requires c.Canonical() && ValidWallet(c, w) && SharedSecret(c, w.keys.viewSecret, txPubkey) == Some(shared)
    ensures RecoverSpendSecret(c, w.keys, txPubkey, li).Some?
    ensures var x := ScalarFrom(RecoverSpendSecret(c, w.keys, txPubkey, li).value);
            && x.Some? && DeriveOneTimeKey(c, shared, w.address.spendPublic, li) == Some((PublicKey(c, x.value), ViewTag(c, shared, li)))
  {
    var a, b :| KeysOf(a, b) == w.keys && AddressOf(c, a, b) == w.address;
    RecoveredSecretOpens(c, a, b, txPubkey, li);
  }

  lemma ValidCanSpend(c: Suite, w: Wallet)
    requires ValidWallet(c, w)
    ensures CanSpend(w)
  {
    var a, b :| KeysOf(a, b) == w.keys && AddressOf(c, a, b) == w.address;
    ScalarRoundTrip(b);
  }

  lemma UndecodableOwnsNothing(c: Suite, w: Wallet, shared: Bytes32, out: StoredOutput)
    requires (c.decompress)(w.address.spendPublic).None?
    ensures NoneBelow(c, w, shared, out, MAX_OUTPUTS)
  {
  }

  /** The spend secret is a scalar, as every generated one is. */
  predicate CanSpend(w: Wallet) {
    ScalarFrom(w.keys.spendSecret).Some?
  }

  /** `try_own` finds the output through the least position that claims it, and only then; without
    * usable secrets it finds nothing.
    */
  method TryOwn(c: Suite, w: Wallet, globalIndex: nat, out: StoredOutput) returns (r: Option<OwnedOutput>)
    requires c.Canonical()
    ensures var shared := SharedSecret(c, w.keys.viewSecret, out.txPubkey);
            && (shared.None? || !CanSpend(w) ==> r == None)
            && (shared.Some? && CanSpend(w) && r.None? ==> NoneBelow(c, w, shared.value, out, MAX_OUTPUTS))
            && (shared.Some? && r.Some? ==>
                  && NoneBelow(c, w, shared.value, out, r.value.localIndex)
                  && BelongsAt(c, w, shared.value, out, r.value.localIndex)
                  && Reading(r.value.amount, r.value.blinding) == ReadAt(c, shared.value, out, r.value.localIndex))
    ensures r.Some? ==> Owned(c, w, globalIndex, out, r.value)
  {
    var secretShared := SharedSecret(c, w.keys.viewSecret, out.txPubkey);
    if secretShared.None? {
      return None;
    }
    var shared := secretShared.value;
    var li := 0;
    while li < MAX_OUTPUTS
      invariant 0 <= li <= MAX_OUTPUTS
      invariant NoneBelow(c, w, shared, out, li)
    {
      if ViewTag(c, shared, li) == out.viewTag {
        var derived := DeriveOneTimeKey(c, shared, w.address.spendPublic, li);
        if derived.None? {
          UndecodableOwnsNothing(c, w, shared, out);
          return None;
        }
        if derived.value.0 == out.key {
          var recovered := RecoverSpendSecret(c, w.keys, out.txPubkey, li);
          if recovered.None? {
            return None;
          }
          var secret := recovered.value;
          ScalarRoundTrip(Add(DerivationScalar(c, shared, li), ScalarFrom(w.keys.spendSecret).value));
          if ValidWallet(c, w) {
            SecretOpens(c, w, out.txPubkey, shared, li);
          }
          if out.amount.None? && |out.payload| < 8 {
            return None;
          }
          var matching := true;
          var amount, blinding := 0, ZERO_BLINDING;
          match out.amount {
            case Some(a) =>
              amount := a;
            case None =>
              amount := UnmaskAmount(c, shared, li, out.payload[..8]);
              blinding := DeriveBlinding(c, shared, li);
              ScalarRoundTrip(Derived(c, DOM_BLINDING, shared, li));
              matching := Commit(c, amount, blinding).value == out.commitment;
          }
          if matching {
            var keyImage := ClsagSign.KeyImage(c, secret).value;
            return Some(OwnedOutput(globalIndex, li, amount, blinding, secret, keyImage, out.key, out.commitment,
                                    out.height, out.coinbase));
          }
        }
      }
      li := li + 1;
    }
    return None;
  }

  /** `found[k]` is the output at `at[k]`, in order. */
  ghost predicate FoundAt(c: Suite, w: Wallet, outputs: seq<(nat, StoredOutput)>, found: seq<OwnedOutput>, at: seq<nat>) {
    && |at| == |found|
    && (forall k :: 0 <= k < |found| ==> at[k] < |outputs| && Owned(c, w, outputs[at[k]].0, outputs[at[k]].1, found[k]))
    && (forall k, l :: 0 <= k < l < |at| ==> at[k] < at[l])
  }

  /** No position claims the output. */
  ghost predicate Skipped(c: Suite, w: Wallet, out: StoredOutput) {
    var shared := SharedSecret(c, w.keys.viewSecret, out.txPubkey);
    shared.Some? && CanSpend(w) ==> NoneBelow(c, w, shared.value, out, MAX_OUTPUTS)
  }

  /** `found` are the owned ones among the first `n` outputs, in order, and nothing claims the rest. */
  ghost predicate ScanResult(c: Suite, w: Wallet, outputs: seq<(nat, StoredOutput)>, n: nat, found: seq<OwnedOutput>)
    requires n <= |outputs|
  {
    exists at: seq<nat> :: FoundAt(c, w, outputs, found, at) && RestSkipped(c, w, outputs, n, at)
  }

  lemma FoundOneMore(c: Suite, w: Wallet, outputs: seq<(nat, StoredOutput)>, n: nat, found: seq<OwnedOutput>, at: seq<nat>, r: OwnedOutput)
    requires n < |outputs| && FoundAt(c, w, outputs, found, at) && forall k :: 0 <= k < |at| ==> at[k] < n
    requires Owned(c, w, outputs[n].0, outputs[n].1, r)
    ensures FoundAt(c, w, outputs, found + [r], at + [n])
  {
    forall k | 0 <= k < |found + [r]|
      ensures (at + [n])[k] < |outputs| && Owned(c, w, outputs[(at + [n])[k]].0, outputs[(at + [n])[k]].1, (found + [r])[k])
    {
      if k < |found| {
        assert Owned(c, w, outputs[at[k]].0, outputs[at[k]].1, found[k]);
      }
    }
  }

  /** Every output below `n` that `at` leaves out is claimed by no position. */
  ghost predicate RestSkipped(c: Suite, w: Wallet, outputs: seq<(nat, StoredOutput)>, n: nat, at: seq<nat>)
    requires n <= |outputs|
  {
    && (forall k :: 0 <= k < |at| ==> at[k] < n)
    && forall j :: 0 <= j < n && j !in at ==> Skipped(c, w, outputs[j].1)
  }

  lemma ScanOneMore(c: Suite, w: Wallet, outputs: seq<(nat, StoredOutput)>, n: nat, found: seq<OwnedOutput>, r: Option<OwnedOutput>)
    requires n < |outputs| && ScanResult(c, w, outputs, n, found)
    requires r.Some? ==> Owned(c, w, outputs[n].0, outputs[n].1, r.value)
    requires r.None? ==> Skipped(c, w, outputs[n].1)
    ensures ScanResult(c, w, outputs, n + 1, if r.Some? then found + [r.value] else found)
  {
    var at: seq<nat> :| FoundAt(c, w, outputs, found, at) && RestSkipped(c, w, outputs, n, at);
    if r.Some? {
      FoundOneMore(c, w, outputs, n, found, at, r.value);
      RestOneMore(c, w, outputs, n, at);
    } else {
      assert RestSkipped(c, w, outputs, n + 1, at);
    }
  }

  lemma RestOneMore(c: Suite, w: Wallet, outputs: seq<(nat, StoredOutput)>, n: nat, at: seq<nat>)
    requires n < |outputs| && RestSkipped(c, w, outputs, n, at)
    ensures RestSkipped(c, w, outputs, n + 1, at + [n])
  {
    assert (at + [n])[|at|] == n && forall j :: j in at ==> j in at + [n];
  }

  /** `scan` returns the owned outputs in order, leaving out exactly those nothing claims. */
  method Scan(c: Suite, w: Wallet, outputs: seq<(nat, StoredOutput)>) returns (found: seq<OwnedOutput>)
    requires c.Canonical()
    ensures ScanResult(c, w, outputs, |outputs|, found)
  {
    found := [];
    assert FoundAt(c, w, outputs, [], []) && RestSkipped(c, w, outputs, 0, []);
    var i := 0;
    while i < |outputs|
      invariant 0 <= i <= |outputs|
      invariant ScanResult(c, w, outputs, i, found)
    {
      var r := TryOwn(c, w, outputs[i].0, outputs[i].1);
      ScanOneMore(c, w, outputs, i, found, r);
      if r.Some? {
        found := found + [r.value];
      }
      i := i + 1;
    }
  }

  // ---- the round trip -----------------------------------------------------

  /** The payload of a made output reads back as its amount. */
  lemma PayloadReads(c: Suite, shared: Bytes32, out: StoredOutput, li: nat, amount: u64)
    requires out.amount.None? && out.payload == MaskedAmount(c, shared, li, amount)
    ensures ReadAt(c, shared, out, li) == Reading(amount, DeriveBlinding(c, shared, li))
    ensures Commit(c, amount, DeriveBlinding(c, shared, li)).Some?
  {
    ScalarRoundTrip(Derived(c, DOM_BLINDING, shared, li));
    UnmaskMasked(c, shared, li, amount);
    assert out.payload[..8] == out.payload;
  }

  /** The sender's shared secret with a wallet's address is the one the wallet computes. */
  lemma WalletSharesSecret(c: Suite, w: Wallet, r: Scalar) returns (shared: Bytes32)
    requires c.Canonical() && ValidWallet(c, w)
    ensures SharedSecret(c, ScalarBytes(r), w.address.viewPublic) == Some(shared)
    ensures SharedSecret(c, w.keys.viewSecret, PublicKey(c, r)) == Some(shared)
    ensures (c.decompress)(w.address.spendPublic).Some?
  {
    var a, b :| KeysOf(a, b) == w.keys && AddressOf(c, a, b) == w.address;
    SharedSecretsAgree(c, r, a);
    shared := SharedSecret(c, ScalarBytes(r), PublicKey(c, a)).value;
  }

  /** An output made for a wallet's address with transaction key `r` is claimed at its position,
    * where it reads as the amount and blinding it was made with.
    */
  lemma MadeOutputBelongs(c: Suite, w: Wallet, r: Scalar, li: nat, amount: u64, height: nat)
    requires c.Canonical() && ValidWallet(c, w)
    ensures MakeOutput(c, ScalarBytes(r), w.address, li, amount).Some?
    ensures var (o, blinding) := MakeOutput(c, ScalarBytes(r), w.address, li, amount).value;
            var out := StoredFrom(o, PublicKey(c, r), height);
            var shared := SharedSecret(c, w.keys.viewSecret, out.txPubkey);
            && shared.Some? && BelongsAt(c, w, shared.value, out, li)
            && ReadAt(c, shared.value, out, li) == Reading(amount, blinding)
  {
    var shared := WalletSharesSecret(c, w, r);
    ScalarRoundTrip(Derived(c, DOM_BLINDING, shared, li));
    var (o, blinding) := MakeOutput(c, ScalarBytes(r), w.address, li, amount).value;
    PayloadReads(c, shared, StoredFrom(o, PublicKey(c, r), height), li, amount);
  }

  /** A different reading through an earlier position needs a collision of the key derivation and
    * a second opening of the same commitment.
    */
  ghost predicate Clash(c: Suite, shared: Bytes32, out: StoredOutput, j: nat, li: nat, amount: u64, blinding: Bytes32) {
    && j < li && DerivationScalar(c, shared, j) == DerivationScalar(c, shared, li)
    && out.amount.None? && |out.payload| >= 8
    && ReadAt(c, shared, out, j) != Reading(amount, blinding)
    && Commit(c, ReadAt(c, shared, out, j).amount, ReadAt(c, shared, out, j).blinding) == Some(out.commitment)
    && Commit(c, amount, blinding) == Some(out.commitment)
  }

  lemma SameKeySameDerivation(c: Suite, shared: Bytes32, spendPublic: Bytes32, i: nat, j: nat)
    requires c.Canonical() && DeriveOneTimeKey(c, shared, spendPublic, i).Some?
    requires DeriveOneTimeKey(c, shared, spendPublic, i).value.0 == DeriveOneTimeKey(c, shared, spendPublic, j).value.0
    ensures DerivationScalar(c, shared, i) == DerivationScalar(c, shared, j)
  {
    var b := (c.decompress)(spendPublic).value;
    var x, y := DerivationScalar(c, shared, i), DerivationScalar(c, shared, j);
    assert Plus(Scale(G, x), b) == Plus(Scale(G, y), b) by {
      assert (c.decompress)((c.compress)(Plus(Scale(G, x), b))) == Some(Plus(Scale(G, x), b));
      assert (c.decompress)((c.compress)(Plus(Scale(G, y), b))) == Some(Plus(Scale(G, y), b));
    }
    ScaleG(x);
    ScaleG(y);
  }

  /** Outputs made with one transaction key for one address at different positions have different keys
    * and different blindings, short of two strings with one scalar.
    */
  lemma PositionsAreToldApart(c: Suite, txSecret: Bytes, recipient: StealthAddress, i: nat, a: u64, j: nat, b: u64)
    requires c.Canonical() && i < 0x1_0000_0000 && j < 0x1_0000_0000 && i != j
    requires MakeOutput(c, txSecret, recipient, i, a).Some? && MakeOutput(c, txSecret, recipient, j, b).Some?
    ensures var shared := SharedSecret(c, txSecret, recipient.viewPublic).value;
            var (first, blinding), (second, blinding') := MakeOutput(c, txSecret, recipient, i, a).value,
                                                           MakeOutput(c, txSecret, recipient, j, b).value;
            && (first.key != second.key || ScalarClash(c, OutputString(DOM_OTK, shared, i), OutputString(DOM_OTK, shared, j)))
            && (blinding != blinding' || ScalarClash(c, OutputString(DOM_BLINDING, shared, i), OutputString(DOM_BLINDING, shared, j)))
  {
    var shared := SharedSecret(c, txSecret, recipient.viewPublic).value;
    DerivationBinds(c, shared, i, shared, j);
    if MakeOutput(c, txSecret, recipient, i, a).value.0.key == MakeOutput(c, txSecret, recipient, j, b).value.0.key {
      SameKeySameDerivation(c, shared, recipient.spendPublic, i, j);
    }
  }

  /** Whoever finds the output finds the amount and blinding it was made with, or exhibits a clash. */
  lemma FoundAsMade(c: Suite, w: Wallet, r: Scalar, li: nat, amount: u64, height: nat, shared: Bytes32, first: nat)
    requires c.Canonical() && ValidWallet(c, w)
    requires MakeOutput(c, ScalarBytes(r), w.address, li, amount).Some?
    requires var out := StoredFrom(MakeOutput(c, ScalarBytes(r), w.address, li, amount).value.0, PublicKey(c, r), height);
             && SharedSecret(c, w.keys.viewSecret, out.txPubkey) == Some(shared)
             && NoneBelow(c, w, shared, out, first) && BelongsAt(c, w, shared, out, first)
    ensures first <= li
    ensures var (o, blinding) := MakeOutput(c, ScalarBytes(r), w.address, li, amount).value;
            var out := StoredFrom(o, PublicKey(c, r), height);
            ReadAt(c, shared, out, first) == Reading(amount, blinding) || Clash(c, shared, out, first, li, amount, blinding)
    ensures first == li || DerivationScalar(c, shared, first) == DerivationScalar(c, shared, li)
  {
    MadeOutputBelongs(c, w, r, li, amount, height);
    var (o, blinding) := MakeOutput(c, ScalarBytes(r), w.address, li, amount).value;
    var out := StoredFrom(o, PublicKey(c, r), height);
    assert BelongsAt(c, w, shared, out, li);
    SameKeySameDerivation(c, shared, w.address.spendPublic, first, li);
  }

  /** The scan round trip: an output made for this wallet's address is found by `try_own`, with the
    * amount and blinding it was made with.
    */
  method FindOwnOutput(c: Suite, w: Wallet, globalIndex: nat, r: Scalar, li: nat, amount: u64, height: nat)
    returns (found: OwnedOutput)
    requires c.Canonical() && ValidWallet(c, w) && li < MAX_OUTPUTS
    ensures var made := MakeOutput(c, ScalarBytes(r), w.address, li, amount);
            && made.Some?
            && var (o, blinding) := made.value;
               var out := StoredFrom(o, PublicKey(c, r), height);
               && Owned(c, w, globalIndex, out, found)
               && (Reading(found.amount, found.blinding) == Reading(amount, blinding) ||
                   (SharedSecret(c, w.keys.viewSecret, out.txPubkey).Some? &&
                    Clash(c, SharedSecret(c, w.keys.viewSecret, out.txPubkey).value, out, found.localIndex, li, amount, blinding)))
               && (found.localIndex == li ||
                   (SharedSecret(c, w.keys.viewSecret, out.txPubkey).Some? &&
                    var shared := SharedSecret(c, w.keys.viewSecret, out.txPubkey).value;
                    ScalarClash(c, OutputString(DOM_OTK, shared, found.localIndex), OutputString(DOM_OTK, shared, li))))
  {
    MadeOutputBelongs(c, w, r, li, amount, height);
    ValidCanSpend(c, w);
    var out := StoredFrom(MakeOutput(c, ScalarBytes(r), w.address, li, amount).value.0, PublicKey(c, r), height);
    var owned := TryOwn(c, w, globalIndex, out);
    var shared := SharedSecret(c, w.keys.viewSecret, out.txPubkey).value;
    FoundAsMade(c, w, r, li, amount, height, shared, owned.value.localIndex);
    if owned.value.localIndex != li {
      DerivationBinds(c, shared, owned.value.localIndex, shared, li);
    }
    found := owned.value;
  }
}

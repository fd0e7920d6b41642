/** Staging the inputs of a transfer: checks, pseudo-commitments and the order of key images. */
module WalletStaging {
  import opened Bytes
  import opened Limits
  import opened Group
  import opened Merkle
  import opened Native
  import opened Transactions
  import opened FcmpCodec
  import opened WalletScan
  import opened FcmpProve

  datatype MembershipSnapshot = MembershipSnapshot(root: Bytes32, digests: seq<Bytes32>, admitted: seq<RingMember>)

  datatype WalletError = NotEnoughFunds(needed: nat, have: nat) | MembershipIncomplete | MembershipStale | TreeTooLarge | Crypto | Bounds

  datatype BuildResult = Built(tx: TransferTx) | Failed(error: WalletError)

  // ---- checks before any cryptography -------------------------------------

  function AmountSum(inputs: seq<OwnedOutput>): nat {
    if inputs == [] then 0 else AmountSum(inputs[..|inputs| - 1]) + inputs[|inputs| - 1].amount
  }

  /** `checked_add` all the way. */
  function CheckedTotal(inputs: seq<OwnedOutput>): (r: Option<u64>)
    ensures r == if AmountSum(inputs) < U64_BOUND then Some(AmountSum(inputs)) else None
  {
    if inputs == [] then Some(0)
    else match CheckedTotal(inputs[..|inputs| - 1])
      case None => None
      case Some(acc) =>
        if acc + inputs[|inputs| - 1].amount < U64_BOUND then Some(acc + inputs[|inputs| - 1].amount) else None
  }

  predicate InSnapshot(m: MembershipSnapshot, input: OwnedOutput) {
    exists k :: 0 <= k < |m.admitted| && m.admitted[k].treeIndex == input.globalIndex
  }

  /** The first check that fails, in the order they are made. */
  function PrecheckError(c: Suite, inputs: seq<OwnedOutput>, m: MembershipSnapshot, send: u64, fee: u64): Option<WalletError> {
    if inputs == [] || |inputs| > MAX_FCMP_INPUTS then Some(Bounds)
    else if |m.digests| > MAX_FCMP_ANON_SET then Some(TreeTooLarge)
    else if m.admitted == [] then Some(MembershipIncomplete)
    else if Root(c.blake, m.digests) != m.root then Some(MembershipStale)
    else if !(forall i :: 0 <= i < |inputs| ==> InSnapshot(m, inputs[i])) then Some(MembershipIncomplete)
    else match CheckedTotal(inputs)
      case None => Some(Bounds)
      case Some(total) =>
        if send + fee >= U64_BOUND then Some(Bounds)
        else if total < send + fee then Some(NotEnoughFunds(send + fee, total))
        else None
  }

  /** When every check passes, and what a shortfall reports. */
  lemma PrecheckExactly(c: Suite, inputs: seq<OwnedOutput>, m: MembershipSnapshot, send: u64, fee: u64)
    ensures PrecheckError(c, inputs, m, send, fee) == None <==>
            && 1 <= |inputs| <= 4 && 1 <= |m.admitted| && |m.digests| <= 64 && m.root == Root(c.blake, m.digests)
            && (forall i :: 0 <= i < |inputs| ==> exists k :: 0 <= k < |m.admitted| && m.admitted[k].treeIndex == inputs[i].globalIndex)
            && send + fee <= AmountSum(inputs) < U64_BOUND
    ensures PrecheckError(c, inputs, m, send, fee).Some? && PrecheckError(c, inputs, m, send, fee).value.NotEnoughFunds? ==>
              PrecheckError(c, inputs, m, send, fee).value == NotEnoughFunds(send + fee, AmountSum(inputs)) &&
              AmountSum(inputs) < send + fee < U64_BOUND
  {
    assert forall i :: 0 <= i < |inputs| ==> (InSnapshot(m, inputs[i]) <==>
             exists k :: 0 <= k < |m.admitted| && m.admitted[k].treeIndex == inputs[i].globalIndex);
  }

  // ---- staging ------------------------------------------------------------

  /** An input with its pseudo-commitment and its position in the ring. */
  datatype Staged = Staged(input: OwnedOutput, blinding: Bytes32, spent: nat, pseudo: Bytes32)

  ghost predicate StagedFor(c: Suite, m: MembershipSnapshot, st: Staged, input: OwnedOutput, blinding: Bytes32) {
    && st.input == input && st.blinding == blinding
    && st.spent < |m.admitted| && m.admitted[st.spent].treeIndex == input.globalIndex
    && Commit(c, input.amount, blinding) == Some(st.pseudo)
  }

  method Stage(c: Suite, m: MembershipSnapshot, inputs: seq<OwnedOutput>, blindings: seq<Bytes32>) returns (staged: seq<Staged>)
    requires |inputs| == |blindings|
    requires forall i :: 0 <= i < |inputs| ==> InSnapshot(m, inputs[i]) && ScalarFrom(blindings[i]).Some?
    ensures |staged| == |inputs|
    ensures forall i :: 0 <= i < |inputs| ==> StagedFor(c, m, staged[i], inputs[i], blindings[i])
  {
    staged := [];
    for i := 0 to |inputs|
      invariant |staged| == i
      invariant forall j :: 0 <= j < i ==> StagedFor(c, m, staged[j], inputs[j], blindings[j])
    {
      assert InSnapshot(m, inputs[i]);
      var spent := FindMember(m.admitted, inputs[i].globalIndex);
      var pseudo := Commit(c, inputs[i].amount, blindings[i]).value;
      staged := staged + [Staged(inputs[i], blindings[i], spent, pseudo)];
    }
  }

  // ---- sorting by key image -----------------------------------------------

  /** Stable insertion: after every element whose key image is not larger. */
  function Insert(x: Staged, s: seq<Staged>): seq<Staged> {
    if s == [] || !Less(x.input.keyImage, s[|s| - 1].input.keyImage) then s + [x]
    else Insert(x, s[..|s| - 1]) + [s[|s| - 1]]
  }

  function SortByKeyImage(s: seq<Staged>): seq<Staged> {
    if s == [] then [] else Insert(s[|s| - 1], SortByKeyImage(s[..|s| - 1]))
  }

  predicate NotAbove(a: Staged, b: Staged) {
    !Less(b.input.keyImage, a.input.keyImage)
  }

  predicate Sorted(s: seq<Staged>) {
    forall i :: 0 < i < |s| ==> NotAbove(s[i - 1], s[i])
  }

  lemma {:induction false} InsertPermutes(x: Staged, s: seq<Staged>)
    ensures multiset(Insert(x, s)) == multiset(s) + multiset{x}
    ensures |Insert(x, s)| == |s| + 1
  {
    if s == [] || !Less(x.input.keyImage, s[|s| - 1].input.keyImage) {
    } else {
      InsertPermutes(x, s[..|s| - 1]);
      assert s == s[..|s| - 1] + [s[|s| - 1]];
    }
  }

  lemma {:induction false} SortPermutes(s: seq<Staged>)
    ensures multiset(SortByKeyImage(s)) == multiset(s)
    ensures |SortByKeyImage(s)| == |s|
  {
    if s != [] {
      SortPermutes(s[..|s| - 1]);
      InsertPermutes(s[|s| - 1], SortByKeyImage(s[..|s| - 1]));
      assert s == s[..|s| - 1] + [s[|s| - 1]];
    }
  }

  function StagedImages(s: seq<Staged>): (kis: seq<Bytes32>)
    ensures |kis| == |s|
  {
    seq(|s|, i requires 0 <= i < |s| => s[i].input.keyImage)
  }

  lemma ImagesSnoc(s: seq<Staged>, x: Staged)
    ensures StagedImages(s + [x]) == StagedImages(s) + [x.input.keyImage]
  {
  }

  lemma {:induction false} InsertPermutesImages(x: Staged, s: seq<Staged>)
    ensures multiset(StagedImages(Insert(x, s))) == multiset(StagedImages(s)) + multiset{x.input.keyImage}
  {
    if s == [] || !Less(x.input.keyImage, s[|s| - 1].input.keyImage) {
      ImagesSnoc(s, x);
    } else {
      var most, last := s[..|s| - 1], s[|s| - 1];
      InsertPermutesImages(x, most);
      assert s == most + [last];
      ImagesSnoc(most, last);
      ImagesSnoc(Insert(x, most), last);
    }
  }

  /** Sorting permutes the key images. */
  lemma {:induction false} SortPermutesImages(s: seq<Staged>)
    ensures multiset(StagedImages(SortByKeyImage(s))) == multiset(StagedImages(s))
  {
    if s != [] {
      var most, last := s[..|s| - 1], s[|s| - 1];
      SortPermutesImages(most);
      InsertPermutesImages(last, SortByKeyImage(most));
      assert s == most + [last];
      ImagesSnoc(most, last);
    }
  }

  /** The last element after insertion is the new one or the old last one. */
  lemma {:induction false} InsertKeepsSorted(x: Staged, s: seq<Staged>)
    requires Sorted(s)
    ensures Sorted(Insert(x, s)) && Insert(x, s) != []
    ensures var last := Insert(x, s)[|Insert(x, s)| - 1]; last == x || (s != [] && last == s[|s| - 1])
  {
    if s != [] && Less(x.input.keyImage, s[|s| - 1].input.keyImage) {
      var most := s[..|s| - 1];
      InsertKeepsSorted(x, most);
      LessIsIrreflexive(x.input.keyImage);
      if Less(s[|s| - 1].input.keyImage, x.input.keyImage) {
        LessIsTransitive(x.input.keyImage, s[|s| - 1].input.keyImage, x.input.keyImage);
      }
      if most != [] {
        assert NotAbove(s[|s| - 2], s[|s| - 1]);
      }
    }
  }

  lemma {:induction false} SortSorts(s: seq<Staged>)
    ensures Sorted(SortByKeyImage(s))
  {
    if s != [] {
      SortSorts(s[..|s| - 1]);
      InsertKeepsSorted(s[|s| - 1], SortByKeyImage(s[..|s| - 1]));
    }
  }

  // ---- openings of the staged inputs --------------------------------------

  function OpeningOf(st: Staged): Opening {
    Opening(st.input.amount, if ScalarFrom(st.blinding).Some? then ScalarFrom(st.blinding).value else 0)
  }

  function OpeningsOf(s: seq<Staged>): (os: seq<Opening>)
    ensures |os| == |s|
  {
    seq(|s|, i requires 0 <= i < |s| => OpeningOf(s[i]))
  }

  lemma TotalsSnoc(os: seq<Opening>, o: Opening)
    ensures TotalValue(os + [o]) == Add(TotalValue(os), o.value)
    ensures TotalBlinding(os + [o]) == Add(TotalBlinding(os), o.blinding)
  {
    assert (os + [o])[..|os|] == os;
  }

  lemma OpeningsSnoc(s: seq<Staged>, x: Staged)
    ensures OpeningsOf(s + [x]) == OpeningsOf(s) + [OpeningOf(x)]
  {
  }

  lemma AddSwap(a: Scalar, b: Scalar, x: Scalar)
    ensures Add(Add(a, b), x) == Add(Add(a, x), b)
  {
  }

  lemma {:induction false} InsertKeepsTotals(x: Staged, s: seq<Staged>)
    ensures TotalValue(OpeningsOf(Insert(x, s))) == Add(TotalValue(OpeningsOf(s)), OpeningOf(x).value)
    ensures TotalBlinding(OpeningsOf(Insert(x, s))) == Add(TotalBlinding(OpeningsOf(s)), OpeningOf(x).blinding)
  {
    if s == [] || !Less(x.input.keyImage, s[|s| - 1].input.keyImage) {
      OpeningsSnoc(s, x);
      TotalsSnoc(OpeningsOf(s), OpeningOf(x));
    } else {
      var most, last := s[..|s| - 1], s[|s| - 1];
      InsertKeepsTotals(x, most);
      assert s == most + [last];
      OpeningsSnoc(most, last);
      TotalsSnoc(OpeningsOf(most), OpeningOf(last));
      OpeningsSnoc(Insert(x, most), last);
      TotalsSnoc(OpeningsOf(Insert(x, most)), OpeningOf(last));
      AddSwap(TotalValue(OpeningsOf(most)), OpeningOf(x).value, OpeningOf(last).value);
      AddSwap(TotalBlinding(OpeningsOf(most)), OpeningOf(x).blinding, OpeningOf(last).blinding);
    }
  }

  /** Sorting changes neither total. */
  lemma {:induction false} SortKeepsTotals(s: seq<Staged>)
    ensures TotalValue(OpeningsOf(SortByKeyImage(s))) == TotalValue(OpeningsOf(s))
    ensures TotalBlinding(OpeningsOf(SortByKeyImage(s))) == TotalBlinding(OpeningsOf(s))
  {
    if s != [] {
      var most, last := s[..|s| - 1], s[|s| - 1];
      SortKeepsTotals(most);
      InsertKeepsTotals(last, SortByKeyImage(most));
      assert s == most + [last];
      OpeningsSnoc(most, last);
      TotalsSnoc(OpeningsOf(most), OpeningOf(last));
    }
  }
}

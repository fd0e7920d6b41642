/** The wallet's cached membership witness and its reorganisation checks. */
module WalletCache {
  import opened Bytes
  import opened Limits
  import opened Merkle
  import opened Transactions
  import opened FcmpCodec
  import opened WalletStaging
  import opened Fcmp
  import opened Pallet
  import opened TreeInvariant

  // ---- what a rebuild computes --------------------------------------------

  type OutputsByIndex = map<nat, StoredOutput>

  /** Slot `i` is EMPTY, or the output at `i` is known and opens its digest. */
  predicate SlotKnown(h: Hash, digests: seq<Bytes32>, byIndex: OutputsByIndex, i: nat)
    requires i < |digests|
  {
    digests[i] == EmptyLeafHash(h) ||
    (i in byIndex && LeafHash(h, byIndex[i].key, byIndex[i].commitment) == digests[i])
  }

  /** The first reason `rebuild` refuses the digests. */
  function RebuildError(h: Hash, root: Bytes32, digests: seq<Bytes32>, byIndex: OutputsByIndex): Option<WalletError> {
    if |digests| > MAX_FCMP_ANON_SET then Some(TreeTooLarge)
    else if Root(h, digests) != root then Some(MembershipStale)
    else if !(forall i :: 0 <= i < |digests| ==> SlotKnown(h, digests, byIndex, i)) then Some(MembershipIncomplete)
    else None
  }

  /** The outputs at the non-EMPTY slots below `n`, in order. */
  function AdmittedBelow(h: Hash, digests: seq<Bytes32>, byIndex: OutputsByIndex, n: nat): (ring: seq<RingMember>)
    requires n <= |digests| <= MAX_FCMP_ANON_SET
    requires forall i :: 0 <= i < n ==> SlotKnown(h, digests, byIndex, i)
    ensures |ring| <= n
  {
    if n == 0 then []
    else if digests[n - 1] == EmptyLeafHash(h) then AdmittedBelow(h, digests, byIndex, n - 1)
    else
      assert SlotKnown(h, digests, byIndex, n - 1);
      AdmittedBelow(h, digests, byIndex, n - 1) + [RingMember(byIndex[n - 1].key, byIndex[n - 1].commitment, n - 1)]
  }

  /** Below `n`: slots increase, members open their digests, and no non-EMPTY slot is missing. */
  lemma {:induction false} AdmittedFacts(h: Hash, digests: seq<Bytes32>, byIndex: OutputsByIndex, n: nat)
    requires n <= |digests| <= MAX_FCMP_ANON_SET
    requires forall i :: 0 <= i < n ==> SlotKnown(h, digests, byIndex, i)
    ensures var ring := AdmittedBelow(h, digests, byIndex, n);
            && Increasing(ring)
            && (forall k :: 0 <= k < |ring| ==> ring[k].treeIndex < n && Opens(h, digests, ring[k]))
            && (forall i :: 0 <= i < n && digests[i] != EmptyLeafHash(h) ==> Listed(ring, i))
  {
    if n > 0 {
      AdmittedFacts(h, digests, byIndex, n - 1);
      assert SlotKnown(h, digests, byIndex, n - 1);
      var most, ring := AdmittedBelow(h, digests, byIndex, n - 1), AdmittedBelow(h, digests, byIndex, n);
      if digests[n - 1] != EmptyLeafHash(h) {
        forall i | 0 <= i < n && digests[i] != EmptyLeafHash(h)
          ensures Listed(ring, i)
        {
          if i < n - 1 {
            var k :| 0 <= k < |most| && most[k].treeIndex == i;
            assert ring[k].treeIndex == i;
          } else {
            assert ring[|most|].treeIndex == i;
          }
        }
      }
    }
  }

  /** The snapshot is a witness: its root is that of its digests, and its ring is the full set. */
  ghost predicate Witness(h: Hash, m: MembershipSnapshot) {
    && |m.digests| <= MAX_FCMP_ANON_SET && m.root == Root(h, m.digests)
    && FullRing(h, m.digests, m.admitted)
  }

  function Rebuilt(h: Hash, root: Bytes32, digests: seq<Bytes32>, byIndex: OutputsByIndex): MembershipSnapshot
    requires RebuildError(h, root, digests, byIndex) == None
  {
    MembershipSnapshot(root, digests, AdmittedBelow(h, digests, byIndex, |digests|))
  }

  /** Every snapshot `rebuild` accepts is a witness; with at least one admitted leaf it meets every
    * check the prover makes of it.
    */
  lemma RebuiltIsWitness(h: Hash, root: Bytes32, digests: seq<Bytes32>, byIndex: OutputsByIndex)
    requires RebuildError(h, root, digests, byIndex) == None
    ensures Witness(h, Rebuilt(h, root, digests, byIndex))
    ensures var m := Rebuilt(h, root, digests, byIndex);
            m.admitted != [] ==> 1 <= |m.admitted| <= |m.digests| <= MAX_FCMP_ANON_SET <= MAX_FCMP_RING
  {
    AdmittedFacts(h, digests, byIndex, |digests|);
  }

  // ---- the chain's own storage --------------------------------------------

  /** No output's leaf hash is the EMPTY digest. */
  ghost predicate NoLeafLooksEmpty(h: Hash, s: State) {
    forall i: nat :: i in s.admitted && i in s.outputs ==> SlotLeafHash(h, s, i) != EmptyLeafHash(h)
  }

  lemma ChainSlot(h: Hash, cfg: Config, s: State, i: nat)
    requires TreeInv(h, cfg, s) && i < s.treeSlots
    ensures var ds := DigestList(h, s.digests, s.treeSlots);
            ds[i] == LeafDigest(h, LeafOf(s, i)) && SlotKnown(h, ds, s.outputs, i)
  {
    DigestListIsDigests(h, cfg, s);
    assert AdmittedHolds(cfg, s, i);
    assert Digests(h, Leaves(s))[i] == LeafDigest(h, LeafOf(s, i));
  }

  /** From the storage of any reachable state with at most 64 slots the cache rebuilds, and its
    * ring is exactly the admitted outputs.
    */
  lemma ChainStateRebuilds(h: Hash, cfg: Config, s: State)
    requires TreeInv(h, cfg, s) && s.treeSlots <= MAX_FCMP_ANON_SET
    ensures var ds := DigestList(h, s.digests, s.treeSlots);
            && RebuildError(h, s.root, ds, s.outputs) == None
            && (NoLeafLooksEmpty(h, s) ==> RingOf(Leaves(s), Rebuilt(h, s.root, ds, s.outputs).admitted))
  {
    var ds := DigestList(h, s.digests, s.treeSlots);
    DigestListIsDigests(h, cfg, s);
    forall i | 0 <= i < |ds|
      ensures SlotKnown(h, ds, s.outputs, i)
    {
      ChainSlot(h, cfg, s, i);
    }
    if NoLeafLooksEmpty(h, s) {
      RebuiltRing(h, cfg, s, ds);
    }
  }

  lemma RebuiltRing(h: Hash, cfg: Config, s: State, ds: seq<Bytes32>)
    requires TreeInv(h, cfg, s) && ds == DigestList(h, s.digests, s.treeSlots) && NoLeafLooksEmpty(h, s)
    requires RebuildError(h, s.root, ds, s.outputs) == None
    ensures RingOf(Leaves(s), Rebuilt(h, s.root, ds, s.outputs).admitted)
  {
    var ring := Rebuilt(h, s.root, ds, s.outputs).admitted;
    AdmittedFacts(h, ds, s.outputs, |ds|);
    forall i: nat | i < |ds|
      ensures Leaves(s)[i] == LeafOf(s, i) && (LeafOf(s, i).Occupied? <==> ds[i] != EmptyLeafHash(h))
    {
      ChainSlot(h, cfg, s, i);
    }
    forall k | 0 <= k < |ring|
      ensures Leaves(s)[ring[k].treeIndex] == Occupied(ring[k].key, ring[k].commitment)
    {
      MemberIsOutput(h, ds, s.outputs, |ds|, k);
      assert Opens(h, ds, ring[k]);
    }
  }

  /** Members carry the key and commitment of the output at their slot. */
  lemma {:induction false} MemberIsOutput(h: Hash, digests: seq<Bytes32>, byIndex: OutputsByIndex, n: nat, k: nat)
    requires n <= |digests| <= MAX_FCMP_ANON_SET
    requires forall i :: 0 <= i < n ==> SlotKnown(h, digests, byIndex, i)
    requires k < |AdmittedBelow(h, digests, byIndex, n)|
    ensures var x := AdmittedBelow(h, digests, byIndex, n)[k];
            x.treeIndex in byIndex && byIndex[x.treeIndex].key == x.key && byIndex[x.treeIndex].commitment == x.commitment
  {
    assert n > 0;
    assert SlotKnown(h, digests, byIndex, n - 1);
    if k < |AdmittedBelow(h, digests, byIndex, n - 1)| {
      MemberIsOutput(h, digests, byIndex, n - 1, k);
    }
  }

  // ---- the cache ----------------------------------------------------------

  class MembershipCache {
    var tipHeight: nat
    var snapshot: Option<MembershipSnapshot>

    /** A cached snapshot is always a witness. */
    ghost predicate Valid(h: Hash)
      reads this
    {
      snapshot.Some? ==> Witness(h, snapshot.value)
    }

    constructor ()
      ensures tipHeight == 0 && snapshot == None
    {
      tipHeight, snapshot := 0, None;
    }

    method Clear()
      modifies this
      ensures tipHeight == 0 && snapshot == None
    {
      tipHeight, snapshot := 0, None;
    }

    /** Replace the snapshot, or report the first failing check and leave the cache as it was. */
    method Rebuild(h: Hash, tip: nat, root: Bytes32, digests: seq<Bytes32>, byIndex: OutputsByIndex) returns (r: Option<WalletError>)
      requires Valid(h)
      modifies this
      ensures Valid(h)
      ensures r == RebuildError(h, root, digests, byIndex)
      ensures r.None? ==> tipHeight == tip && snapshot == Some(Rebuilt(h, root, digests, byIndex))
      ensures r.Some? ==> tipHeight == old(tipHeight) && snapshot == old(snapshot)
    {
      if |digests| > MAX_FCMP_ANON_SET {
        return Some(TreeTooLarge);
      }
      var computed := RootFromLeaves(h, digests);
      if computed != root {
        return Some(MembershipStale);
      }
      var empty := EmptyLeafHash(h);
      var admitted := [];
      var i := 0;
      while i < |digests|
        invariant 0 <= i <= |digests|
        invariant forall j :: 0 <= j < i ==> SlotKnown(h, digests, byIndex, j)
        invariant admitted == AdmittedBelow(h, digests, byIndex, i)
      {
        if digests[i] != empty {
          if i !in byIndex || LeafHash(h, byIndex[i].key, byIndex[i].commitment) != digests[i] {
            assert !SlotKnown(h, digests, byIndex, i);
            return Some(MembershipIncomplete);
          }
          admitted := admitted + [RingMember(byIndex[i].key, byIndex[i].commitment, i)];
        }
        i := i + 1;
      }
      tipHeight := tip;
      snapshot := Some(MembershipSnapshot(root, digests, admitted));
      RebuiltIsWitness(h, root, digests, byIndex);
      return None;
    }

    /** The tip went back, or the root or the size moved. */
    predicate NeedsResync(chainTip: nat, chainRoot: Bytes32, chainSlots: nat)
      reads this
    {
      snapshot.None? || chainTip < tipHeight || snapshot.value.root != chainRoot || |snapshot.value.digests| != chainSlots
    }

    method ResyncIfReorged(chainTip: nat, chainRoot: Bytes32, chainSlots: nat) returns (cleared: bool)
      modifies this
      ensures cleared == old(NeedsResync(chainTip, chainRoot, chainSlots))
      ensures cleared <==> old(snapshot).None? || chainTip < old(tipHeight) || old(snapshot).value.root != chainRoot ||
                           |old(snapshot).value.digests| != chainSlots
      ensures cleared ==> tipHeight == 0 && snapshot == None
      ensures !cleared ==> tipHeight == old(tipHeight) && snapshot == old(snapshot)
      ensures !cleared ==> snapshot.Some? && snapshot.value.root == chainRoot && |snapshot.value.digests| == chainSlots
    {
      cleared := NeedsResync(chainTip, chainRoot, chainSlots);
      if cleared {
        Clear();
      }
    }

    method EnsureSpendsAdmitted(indices: seq<nat>) returns (ok: bool)
      ensures ok <==> snapshot.Some? && forall k :: 0 <= k < |indices| ==> Listed(snapshot.value.admitted, indices[k])
    {
      if snapshot.None? {
        return false;
      }
      var k := 0;
      while k < |indices|
        invariant 0 <= k <= |indices|
        invariant forall j :: 0 <= j < k ==> Listed(snapshot.value.admitted, indices[j])
      {
        if !Listed(snapshot.value.admitted, indices[k]) {
          return false;
        }
        k := k + 1;
      }
      return true;
    }
  }

  /** A cache that needs no resync holds the leaves behind the chain's root: same digests, or two
    * of the strings hashed on either side collide.
    */
  lemma UpToDateMeansSameTree(h: Hash, cfg: Config, s: State, m: MembershipSnapshot, strings: set<Bytes>)
    requires TreeInv(h, cfg, s) && Witness(h, m) && m.root == s.root
    requires Hashes(h, Leaves(s), strings) && Hashes(h, LeavesOf(|m.digests|, m.admitted), strings) && CollisionFree(h, strings)
    ensures m.digests == DigestList(h, s.digests, s.treeSlots) && RingOf(Leaves(s), m.admitted)
  {
    FullRingHasLeaves(h, m.digests, m.admitted);
    RootBinding(h, LeavesOf(|m.digests|, m.admitted), Leaves(s), strings);
    DigestListIsDigests(h, cfg, s);
  }
}

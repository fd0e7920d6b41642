/** Full-membership proofs: the full ring, and verification against a root. */
module Fcmp {
  import opened Bytes
  import opened Limits
  import opened Hosts
  import opened Merkle
  import opened FcmpCodec
  import Clsag

  // ---- the full mature set ------------------------------------------------

  predicate Increasing(ring: seq<RingMember>) {
    forall i, j :: 0 <= i < j < |ring| ==> ring[i].treeIndex < ring[j].treeIndex
  }

  /** Member `m` opens the digest of its slot, and that slot is not EMPTY. */
  predicate Opens(h: Hash, digests: seq<Bytes32>, m: RingMember) {
    && m.treeIndex < |digests|
    && digests[m.treeIndex] == LeafHash(h, m.key, m.commitment)
    && digests[m.treeIndex] != EmptyLeafHash(h)
  }

  predicate Listed(ring: seq<RingMember>, i: nat) {
    exists k :: 0 <= k < |ring| && ring[k].treeIndex == i
  }

  /** The ring is every non-EMPTY leaf, opened, in slot order. */
  predicate FullRing(h: Hash, digests: seq<Bytes32>, ring: seq<RingMember>) {
    && Increasing(ring)
    && (forall k :: 0 <= k < |ring| ==> Opens(h, digests, ring[k]))
    && (forall i :: 0 <= i < |digests| && digests[i] != EmptyLeafHash(h) ==> Listed(ring, i))
  }

  /** The slots that are not EMPTY. */
  ghost function Filled(h: Hash, digests: seq<Bytes32>): set<nat> {
    FilledBelow(h, digests, |digests|)
  }

  ghost function FilledBelow(h: Hash, digests: seq<Bytes32>, n: nat): set<nat>
    requires n <= |digests|
  {
    set i: nat | i < n && digests[i] != EmptyLeafHash(h)
  }

  ghost function Slots(ring: seq<RingMember>): set<nat> {
    set k: nat | k < |ring| :: ring[k].treeIndex
  }

  lemma {:induction false} SlotsAreDistinct(ring: seq<RingMember>)
    requires Increasing(ring)
    ensures |Slots(ring)| == |ring|
  {
    if ring != [] {
      var last := |ring| - 1;
      SlotsAreDistinct(ring[..last]);
      assert Slots(ring) == Slots(ring[..last]) + {ring[last].treeIndex};
      assert ring[last].treeIndex !in Slots(ring[..last]);
    }
  }

  lemma SubsetOfSameSize(a: set<nat>, b: set<nat>)
    requires a <= b && |a| == |b|
    ensures a == b
  {
    assert |b - a| == 0;
  }

  /** A full ring has one member per non-EMPTY slot. */
  lemma FullRingCounts(h: Hash, digests: seq<Bytes32>, ring: seq<RingMember>)
    requires FullRing(h, digests, ring)
    ensures |Filled(h, digests)| == |ring|
  {
    SlotsAreDistinct(ring);
    assert Filled(h, digests) == Slots(ring) by {
      forall i | i in Filled(h, digests)
        ensures i in Slots(ring)
      {
        var k :| 0 <= k < |ring| && ring[k].treeIndex == i;
      }
    }
  }

  /** The prover's checks find every non-EMPTY slot in the ring and compare the two counts; by
    * the pigeonhole principle nothing else is in the ring.
    */
  lemma CountingGivesFullRing(h: Hash, digests: seq<Bytes32>, ring: seq<RingMember>)
    requires Increasing(ring) && |Filled(h, digests)| == |ring|
    requires forall i :: 0 <= i < |digests| && digests[i] != EmptyLeafHash(h) ==>
               exists k :: 0 <= k < |ring| && ring[k].treeIndex == i && LeafHash(h, ring[k].key, ring[k].commitment) == digests[i]
    ensures FullRing(h, digests, ring)
  {
    SlotsAreDistinct(ring);
    forall i | i in Filled(h, digests)
      ensures i in Slots(ring)
    {
      var k :| 0 <= k < |ring| && ring[k].treeIndex == i;
    }
    SubsetOfSameSize(Filled(h, digests), Slots(ring));
    forall k | 0 <= k < |ring|
      ensures Opens(h, digests, ring[k])
    {
      assert ring[k].treeIndex in Slots(ring);
      var j :| 0 <= j < |ring| && ring[j].treeIndex == ring[k].treeIndex &&
        LeafHash(h, ring[j].key, ring[j].commitment) == digests[ring[k].treeIndex];
      assert j == k;
    }
    forall i | 0 <= i < |digests| && digests[i] != EmptyLeafHash(h)
      ensures Listed(ring, i)
    {
      assert i in Filled(h, digests);
    }
  }

  lemma FilledGrows(h: Hash, digests: seq<Bytes32>, i: nat)
    requires i < |digests|
    ensures |FilledBelow(h, digests, i + 1)| == |FilledBelow(h, digests, i)| + if digests[i] != EmptyLeafHash(h) then 1 else 0
  {
    var before, after := FilledBelow(h, digests, i), FilledBelow(h, digests, i + 1);
    assert after == if digests[i] != EmptyLeafHash(h) then before + {i} else before;
  }

  method CountFilled(h: Hash, digests: seq<Bytes32>) returns (nonEmpty: nat)
    ensures nonEmpty == |Filled(h, digests)|
  {
    var empty := EmptyLeafHash(h);
    nonEmpty := 0;
    var i := 0;
    while i < |digests|
      invariant 0 <= i <= |digests|
      invariant nonEmpty == |FilledBelow(h, digests, i)|
    {
      FilledGrows(h, digests, i);
      if digests[i] != empty {
        nonEmpty := nonEmpty + 1;
      }
      i := i + 1;
    }
  }

  /** `windows(2)`: every member's slot is below the next one's. */
  method IsIncreasing(ring: seq<RingMember>) returns (ok: bool)
    ensures ok <==> Increasing(ring)
  {
    var i := 1;
    while i < |ring|
      invariant 1 <= i
      invariant i <= |ring| || |ring| == 0
      invariant Increasing(ring[..Min(i, |ring|)])
    {
      if ring[i - 1].treeIndex >= ring[i].treeIndex {
        return false;
      }
      i := i + 1;
    }
    assert ring[..Min(i, |ring|)] == ring;
    return true;
  }

  // ---- verification -------------------------------------------------------

  /** `P ‖ C` of every ring member. */
  function BlobParts(ring: seq<RingMember>): (parts: seq<Bytes>)
    ensures |parts| == |ring| && AllWidth(parts, 64)
  {
    seq(|ring|, i requires 0 <= i < |ring| => ring[i].key + ring[i].commitment)
  }

  function RingBlob(ring: seq<RingMember>): Bytes {
    Flatten(BlobParts(ring))
  }

  /** Slicing a ring blob gives the members back. */
  lemma RingBlobReads(ring: seq<RingMember>, i: nat)
    requires i < |ring|
    ensures Clsag.RingSize(RingBlob(ring)) == |ring|
    ensures Clsag.KeyBytes(RingBlob(ring), i) == ring[i].key
    ensures Clsag.CommitmentBytes(RingBlob(ring), i) == ring[i].commitment
  {
    var blob := RingBlob(ring);
    FlattenChunk(BlobParts(ring), 64, i);
    var part := blob[64 * i..64 * i + 64];
    assert part == ring[i].key + ring[i].commitment;
    assert blob[64 * i..][..32] == part[..32];
    assert blob[64 * i + 32..][..32] == part[32..];
  }

  method BuildRingBlob(ring: seq<RingMember>) returns (blob: Bytes)
    ensures blob == RingBlob(ring)
  {
    blob := [];
    ghost var parts := BlobParts(ring);
    var i := 0;
    while i < |ring|
      invariant 0 <= i <= |ring|
      invariant blob == Flatten(parts[..i])
    {
      FlattenSnoc(parts[..i], parts[i]);
      assert parts[..i + 1] == parts[..i] + [parts[i]];
      assert blob + ring[i].key + ring[i].commitment == blob + (ring[i].key + ring[i].commitment);
      blob := blob + ring[i].key;
      blob := blob + ring[i].commitment;
      i := i + 1;
    }
    assert parts[..|ring|] == parts;
  }

  predicate PublicInputsWellFormed(msg: Bytes, root: Bytes, pseudo: Bytes, keyImage: Bytes, proof: Bytes) {
    && |msg| == 32 && |root| == 32 && |pseudo| == 32 && |keyImage| == 32
    && |proof| <= MAX_FCMP_PROOF_BYTES
  }

  /** When a proof is accepted: it decodes, its digests hash to the root, its ring is the full
    * set of non-EMPTY leaves, and the CLSAG over that ring verifies.
    */
  ghost predicate Accepts(host: Host, msg: Bytes, root: Bytes, pseudo: Bytes, keyImage: Bytes, proof: Bytes) {
    && PublicInputsWellFormed(msg, root, pseudo, keyImage, proof)
    && (host.isValidPoint)(keyImage) && (host.isValidPoint)(pseudo)
    && Parse(proof).Some?
    && var p := Parse(proof).value;
       && Root(host.blake, p.digests) == root
       && FullRing(host.blake, p.digests, p.ring)
       && (host.clsag)(msg, RingBlob(p.ring), pseudo, keyImage, p.clsag)
  }

  function LooksLikeTransparentPath(proof: Bytes): bool {
    |proof| >= 8 && proof[..8] == TRANSPARENT_PATH_DEBUG_TAG
  }

  lemma TagsDiffer()
    ensures PROOF_TAG != TRANSPARENT_PATH_DEBUG_TAG
  {
    assert PROOF_TAG[0] == 70 && TRANSPARENT_PATH_DEBUG_TAG[0] == 84;
  }

  /** A transparent path is never an encoding of a proof. */
  lemma TransparentPathsDoNotParse(proof: Bytes)
    requires LooksLikeTransparentPath(proof)
    ensures Parse(proof).None?
  {
    TagsDiffer();
    if Parse(proof).Some? {
      WireLayout(Parse(proof).value);
    }
  }

  method Verify(host: Host, msg: Bytes, root: Bytes, pseudo: Bytes, keyImage: Bytes, proof: Bytes) returns (ok: bool)
    ensures ok <==> Accepts(host, msg, root, pseudo, keyImage, proof)
  {
    if !PublicInputsWellFormed(msg, root, pseudo, keyImage, proof) {
      return false;
    }
    if !(host.isValidPoint)(keyImage) || !(host.isValidPoint)(pseudo) {
      return false;
    }
    if LooksLikeTransparentPath(proof) {
      TransparentPathsDoNotParse(proof);
      return false;
    }
    var parsed := Decode(proof);
    if parsed.None? {
      return false;
    }
    var p := parsed.value;
    var computed := RootFromLeaves(host.blake, p.digests);
    if computed != root {
      return false;
    }
    var full := IsFullRing(host.blake, p.digests, p.ring);
    if !full {
      return false;
    }
    var blob := BuildRingBlob(p.ring);
    return (host.clsag)(msg, blob, pseudo, keyImage, p.clsag);
  }

  /** The verifier's checks on the ring: count, membership with no repetition, order, and no
    * non-EMPTY digest left out.
    */
  method IsFullRing(h: Hash, digests: seq<Bytes32>, ring: seq<RingMember>) returns (full: bool)
    requires ring != []
    ensures full <==> FullRing(h, digests, ring)
  {
    if FullRing(h, digests, ring) {
      FullRingCounts(h, digests, ring);
    }
    var nonEmpty := CountFilled(h, digests);
    if nonEmpty != |ring| || ring == [] {
      return false;
    }
    var membersOk, seen := CheckMembers(h, digests, ring);
    if !membersOk {
      return false;
    }
    var ordered := IsIncreasing(ring);
    if !ordered {
      return false;
    }
    full := NothingLeftOut(h, digests, ring, seen);
  }

  method CheckMembers(h: Hash, digests: seq<Bytes32>, ring: seq<RingMember>) returns (ok: bool, seen: set<nat>)
    ensures ok ==> (forall k :: 0 <= k < |ring| ==> Opens(h, digests, ring[k])) && seen == Slots(ring)
    ensures !ok ==> !FullRing(h, digests, ring)
  {
    var empty := EmptyLeafHash(h);
    seen := {};
    var k := 0;
    while k < |ring|
      invariant 0 <= k <= |ring|
      invariant forall j :: 0 <= j < k ==> Opens(h, digests, ring[j])
      invariant seen == Slots(ring[..k])
    {
      var m := ring[k];
      if m.treeIndex >= |digests| || m.treeIndex in seen {
        if m.treeIndex in seen {
          var j :| 0 <= j < k && ring[..k][j].treeIndex == m.treeIndex;
          assert !(ring[j].treeIndex < ring[k].treeIndex);
        } else {
          assert !Opens(h, digests, ring[k]);
        }
        return false, seen;
      }
      seen := seen + {m.treeIndex};
      var lh := LeafHash(h, m.key, m.commitment);
      if digests[m.treeIndex] != lh || lh == empty {
        assert !Opens(h, digests, ring[k]);
        return false, seen;
      }
      assert seen == Slots(ring[..k + 1]) by {
        assert forall j :: 0 <= j < k ==> ring[..k + 1][j] == ring[..k][j];
        assert ring[..k + 1][k] == m;
      }
      k := k + 1;
    }
    assert ring[..k] == ring;
    return true, seen;
  }

  method NothingLeftOut(h: Hash, digests: seq<Bytes32>, ring: seq<RingMember>, seen: set<nat>) returns (ok: bool)
    requires Increasing(ring) && seen == Slots(ring)
    requires forall k :: 0 <= k < |ring| ==> Opens(h, digests, ring[k])
    ensures ok <==> FullRing(h, digests, ring)
  {
    var empty := EmptyLeafHash(h);
    var i := 0;
    while i < |digests|
      invariant 0 <= i <= |digests|
      invariant forall j :: 0 <= j < i && digests[j] != empty ==> Listed(ring, j)
    {
      if digests[i] != empty && i !in seen {
        assert !Listed(ring, i);
        return false;
      }
      i := i + 1;
    }
    return true;
  }

  // ---- rings and leaves ---------------------------------------------------

  /** The ring is every occupied leaf, with its key and commitment, in slot order. */
  ghost predicate RingOf(leaves: seq<Leaf>, ring: seq<RingMember>) {
    && Increasing(ring)
    && (forall k :: 0 <= k < |ring| ==>
          ring[k].treeIndex < |leaves| && leaves[ring[k].treeIndex] == Occupied(ring[k].key, ring[k].commitment))
    && (forall i :: 0 <= i < |leaves| && leaves[i].Occupied? ==> Listed(ring, i))
  }

  ghost function LeafFor(ring: seq<RingMember>, i: nat): Leaf {
    if Listed(ring, i) then
      var k :| 0 <= k < |ring| && ring[k].treeIndex == i;
      Occupied(ring[k].key, ring[k].commitment)
    else Vacant
  }

  /** The leaves a ring stands for, in a tree of `slots` slots. */
  ghost function LeavesOf(slots: nat, ring: seq<RingMember>): seq<Leaf> {
    seq(slots, i requires 0 <= i => LeafFor(ring, i))
  }

  /** The digests of an accepted proof are those of the leaves its ring stands for. Nothing is
    * assumed about the hash.
    */
  lemma FullRingHasLeaves(h: Hash, digests: seq<Bytes32>, ring: seq<RingMember>)
    requires FullRing(h, digests, ring)
    ensures Digests(h, LeavesOf(|digests|, ring)) == digests
    ensures RingOf(LeavesOf(|digests|, ring), ring)
  {
    var leaves := LeavesOf(|digests|, ring);
    forall k | 0 <= k < |ring|
      ensures leaves[ring[k].treeIndex] == Occupied(ring[k].key, ring[k].commitment)
    {
      var i := ring[k].treeIndex;
      assert Listed(ring, i);
      var j :| 0 <= j < |ring| && ring[j].treeIndex == i && LeafFor(ring, i) == Occupied(ring[j].key, ring[j].commitment);
      assert j == k;
    }
    forall i | 0 <= i < |digests|
      ensures LeafDigest(h, leaves[i]) == digests[i]
    {
      if Listed(ring, i) {
        var k :| 0 <= k < |ring| && ring[k].treeIndex == i;
        assert Opens(h, digests, ring[k]);
      }
    }
  }

  /** `strings` contains what is hashed to recompute the root of a proof. */
  ghost predicate ProofHashes(h: Hash, proof: Bytes, strings: set<Bytes>) {
    Parse(proof).Some? ==>
      Hashes(h, LeavesOf(|Parse(proof).value.digests|, Parse(proof).value.ring), strings)
  }

  /** Under the root of known leaves, an accepted proof's ring is exactly their occupied ones,
    * unless two of the strings hashed on either side collide.
    */
  lemma AcceptedRing(host: Host, leaves: seq<Leaf>, msg: Bytes, pseudo: Bytes, keyImage: Bytes, proof: Bytes, strings: set<Bytes>)
    requires Accepts(host, msg, Root(host.blake, Digests(host.blake, leaves)), pseudo, keyImage, proof)
    requires Hashes(host.blake, leaves, strings) && ProofHashes(host.blake, proof, strings)
    requires CollisionFree(host.blake, strings)
    ensures RingOf(leaves, Parse(proof).value.ring)
  {
    var h, p := host.blake, Parse(proof).value;
    FullRingHasLeaves(h, p.digests, p.ring);
    RootBinding(h, LeavesOf(|p.digests|, p.ring), leaves, strings);
  }
}

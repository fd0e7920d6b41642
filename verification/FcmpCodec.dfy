/** The `FCMP0001` proof encoding. */
module FcmpCodec {
  import opened Bytes
  import opened Limits

  const PROOF_TAG: Bytes := Ascii("FCMP0001")
  const TRANSPARENT_PATH_DEBUG_TAG: Bytes := Ascii("TRPATH01")
  const MAX_FCMP_RING: nat := 64

  datatype RingMember = RingMember(key: Bytes32, commitment: Bytes32, treeIndex: u64)

  datatype FcmpProof = FcmpProof(digests: seq<Bytes32>, ring: seq<RingMember>, clsag: Bytes)
  {
    /** The shape `encode` insists on. */
    predicate Legal() {
      && 1 <= |ring| <= |digests| <= MAX_FCMP_ANON_SET
      && |ring| <= MAX_FCMP_RING
      && |clsag| == 32 * (|ring| + 2)
    }
  }

  /** What is legal, in numbers. */
  lemma LegalExactly(p: FcmpProof)
    ensures p.Legal() <==> 1 <= |p.ring| <= |p.digests| <= 64 && |p.clsag| == 32 * |p.ring| + 64
  {
  }

  function MemberBytes(m: RingMember): (b: Bytes)
    ensures |b| == 72
  {
    m.key + m.commitment + ToLe(m.treeIndex, 8)
  }

  function RingBytes(ring: seq<RingMember>): (parts: seq<Bytes>)
    ensures |parts| == |ring| && AllWidth(parts, 72)
  {
    seq(|ring|, i requires 0 <= i < |ring| => MemberBytes(ring[i]))
  }

  /** Six fields, one after the other. */
  function Six(a: Bytes, b: Bytes, c: Bytes, d: Bytes, e: Bytes, f: Bytes): Bytes {
    a + b + c + d + e + f
  }

  /** Cutting six fields back out at their offsets. */
  lemma SixCuts(a: Bytes, b: Bytes, c: Bytes, d: Bytes, e: Bytes, f: Bytes, o1: nat, o2: nat, o3: nat, o4: nat, o5: nat)
    requires o1 == |a| && o2 == o1 + |b| && o3 == o2 + |c| && o4 == o3 + |d| && o5 == o4 + |e|
    ensures var s := Six(a, b, c, d, e, f);
            && |s| == o5 + |f|
            && s[..o1] == a && s[o1..o2] == b && s[o2..o3] == c && s[o3..o4] == d && s[o4..o5] == e && s[o5..] == f
  {
  }

  lemma SixJoin(s: Bytes, o1: nat, o2: nat, o3: nat, o4: nat, o5: nat)
    requires o1 <= o2 <= o3 <= o4 <= o5 <= |s|
    ensures Six(s[..o1], s[o1..o2], s[o2..o3], s[o3..o4], s[o4..o5], s[o5..]) == s
  {
    assert s[..o1] + s[o1..o2] == s[..o2];
    assert s[..o2] + s[o2..o3] == s[..o3];
    assert s[..o3] + s[o3..o4] == s[..o4];
    assert s[..o4] + s[o4..o5] == s[..o5];
  }

  /** The wire format: every field at full width, nothing in between. */
  function Wire(p: FcmpProof): Bytes {
    Six(PROOF_TAG, ToLe(|p.digests|, 8), Flatten(p.digests), ToLe(|p.ring|, 4), Flatten(RingBytes(p.ring)), p.clsag)
  }

  function WireLength(slots: nat, members: nat): nat {
    8 + 8 + 32 * slots + 4 + 72 * members + 32 * (members + 2)
  }

  /** Where each field of a legal proof sits in its encoding. */
  ghost predicate Layout(p: FcmpProof, b: Bytes) {
    var n, m := |p.digests|, |p.ring|;
    var d, r, s := 16 + 32 * n, 20 + 32 * n, 20 + 32 * n + 72 * m;
    && |b| == WireLength(n, m)
    && b[..8] == PROOF_TAG
    && FromLe(b[8..16]) == n
    && b[16..d] == Flatten(p.digests)
    && FromLe(b[d..r]) == m
    && b[r..s] == Flatten(RingBytes(p.ring))
    && b[s..] == p.clsag
  }

  lemma WireLayout(p: FcmpProof)
    requires p.Legal()
    ensures Layout(p, Wire(p))
  {
    var n, m := |p.digests|, |p.ring|;
    FlattenLength(p.digests, 32);
    FlattenLength(RingBytes(p.ring), 72);
    LeWidths();
    FromToLe(n, 8);
    FromToLe(m, 4);
    SixCuts(PROOF_TAG, ToLe(n, 8), Flatten(p.digests), ToLe(m, 4), Flatten(RingBytes(p.ring)), p.clsag,
            8, 16, 16 + 32 * n, 20 + 32 * n, 20 + 32 * n + 72 * m);
  }

  lemma MemberBytesInjective(a: RingMember, b: RingMember)
    requires MemberBytes(a) == MemberBytes(b)
    ensures a == b
  {
    var x, y := MemberBytes(a), MemberBytes(b);
    assert a.key == x[..32] && b.key == y[..32];
    assert a.commitment == x[32..64] && b.commitment == y[32..64];
    assert ToLe(a.treeIndex, 8) == x[64..] && ToLe(b.treeIndex, 8) == y[64..];
    LeWidths();
    FromToLe(a.treeIndex, 8);
    FromToLe(b.treeIndex, 8);
  }

  /** Encodings are unique: no two legal proofs share their bytes. */
  lemma WireInjective(a: FcmpProof, b: FcmpProof)
    requires a.Legal() && b.Legal() && Wire(a) == Wire(b)
    ensures a == b
  {
    WireLayout(a);
    WireLayout(b);
    FlattenInjective(a.digests, b.digests, 32);
    FlattenInjective(RingBytes(a.ring), RingBytes(b.ring), 72);
    forall i | 0 <= i < |a.ring|
      ensures a.ring[i] == b.ring[i]
    {
      assert RingBytes(a.ring)[i] == RingBytes(b.ring)[i];
      MemberBytesInjective(a.ring[i], b.ring[i]);
    }
  }

  /** A legal proof never reaches the 12 KiB cap. */
  lemma LegalFitsTheCap(p: FcmpProof)
    requires p.Legal()
    ensures |Wire(p)| == WireLength(|p.digests|, |p.ring|) <= MAX_FCMP_PROOF_BYTES
  {
    WireLayout(p);
  }

  method PushDigests(before: Bytes, digests: seq<Bytes32>) returns (out: Bytes)
    ensures out == before + Flatten(digests)
  {
    out := before;
    var i := 0;
    while i < |digests|
      invariant 0 <= i <= |digests|
      invariant out == before + Flatten(digests[..i])
    {
      FlattenSnoc(digests[..i], digests[i]);
      assert digests[..i + 1] == digests[..i] + [digests[i]];
      out := out + digests[i];
      i := i + 1;
    }
    assert digests[..|digests|] == digests;
  }

  method PushRing(before: Bytes, ring: seq<RingMember>) returns (out: Bytes)
    ensures out == before + Flatten(RingBytes(ring))
  {
    out := before;
    ghost var parts := RingBytes(ring);
    var i := 0;
    while i < |ring|
      invariant 0 <= i <= |ring|
      invariant out == before + Flatten(parts[..i])
    {
      var m := ring[i];
      FlattenSnoc(parts[..i], parts[i]);
      assert parts[..i + 1] == parts[..i] + [parts[i]];
      assert out + m.key + m.commitment + ToLe(m.treeIndex, 8) == before + (Flatten(parts[..i]) + parts[i]);
      out := out + m.key;
      out := out + m.commitment;
      out := out + ToLe(m.treeIndex, 8);
      i := i + 1;
    }
    assert parts[..|ring|] == parts;
  }

  /** `encode` succeeds on exactly the legal proofs, and its own size check never fires. */
  method Encode(p: FcmpProof) returns (r: Option<Bytes>)
    ensures r == if p.Legal() then Some(Wire(p)) else None
  {
    var slots, members := |p.digests|, |p.ring|;
    if slots == 0 || slots > MAX_FCMP_ANON_SET || members == 0 || members > MAX_FCMP_RING || members > slots {
      return None;
    }
    if |p.clsag| != 32 * (members + 2) {
      return None;
    }
    var out := PROOF_TAG;
    out := out + ToLe(slots, 8);
    out := PushDigests(out, p.digests);
    out := out + ToLe(members, 4);
    out := PushRing(out, p.ring);
    out := out + p.clsag;
    LegalFitsTheCap(p);
    if |out| > MAX_FCMP_PROOF_BYTES {
      return None;
    }
    return Some(out);
  }

  /** Cut `count` 32-byte digests. */
  method TakeDigests(chunk: Bytes, count: nat) returns (digests: seq<Bytes32>)
    requires |chunk| == 32 * count
    ensures |digests| == count && Flatten(digests) == chunk
  {
    digests := [];
    var i := 0;
    while i < count
      invariant 0 <= i <= count == |chunk| / 32 && |digests| == i
      invariant Flatten(digests) == chunk[..32 * i]
    {
      var d: Bytes32 := chunk[32 * i..32 * i + 32];
      FlattenSnoc(digests, d);
      assert chunk[..32 * i] + d == chunk[..32 * (i + 1)];
      digests := digests + [d];
      i := i + 1;
    }
  }

  function ParseMember(part: Bytes): (m: RingMember)
    requires |part| == 72
    ensures MemberBytes(m) == part
  {
    LeWidths();
    ToFromLe(part[64..]);
    assert part == part[..32] + part[32..64] + part[64..];
    RingMember(part[..32], part[32..][..32], FromLe(part[64..]))
  }

  method TakeRing(chunk: Bytes, count: nat) returns (ring: seq<RingMember>)
    requires |chunk| == 72 * count
    ensures |ring| == count && Flatten(RingBytes(ring)) == chunk
  {
    ring := [];
    var i := 0;
    while i < count
      invariant 0 <= i <= count == |chunk| / 72 && |ring| == i
      invariant Flatten(RingBytes(ring)) == chunk[..72 * i]
    {
      var part := chunk[72 * i..72 * i + 72];
      var m := ParseMember(part);
      FlattenSnoc(RingBytes(ring), part);
      assert RingBytes(ring + [m]) == RingBytes(ring) + [part];
      assert chunk[..72 * i] + part == chunk[..72 * (i + 1)];
      ring := ring + [m];
      i := i + 1;
    }
  }

  /** What a byte string decodes to, if some legal proof encodes to it. */
  ghost function Parse(bytes: Bytes): (r: Option<FcmpProof>)
    ensures r.Some? ==> r.value.Legal() && Wire(r.value) == bytes
    ensures r.None? ==> forall p: FcmpProof :: p.Legal() ==> Wire(p) != bytes
  {
    if exists p: FcmpProof :: p.Legal() && Wire(p) == bytes then
      var p: FcmpProof :| p.Legal() && Wire(p) == bytes;
      Some(p)
    else
      None
  }

  /** Encoding and then decoding gives the proof back. */
  lemma ParseWire(p: FcmpProof)
    requires p.Legal()
    ensures Parse(Wire(p)) == Some(p)
  {
    WireInjective(p, Parse(Wire(p)).value);
  }

  /** Once the header is known to be sound, cut the three variable fields. */
  method TakeFields(proof: Bytes, slots: nat, members: nat) returns (p: FcmpProof)
    requires 1 <= members <= slots <= MAX_FCMP_ANON_SET
    requires |proof| == WireLength(slots, members)
    requires proof[..8] == PROOF_TAG && FromLe(proof[8..16]) == slots
    requires FromLe(proof[16 + 32 * slots..20 + 32 * slots]) == members
    ensures p.Legal() && Wire(p) == proof
  {
    var digestsEnd, ringStart := 16 + 32 * slots, 20 + 32 * slots;
    var ringEnd := ringStart + 72 * members;
    var digests := TakeDigests(proof[16..digestsEnd], slots);
    var ring := TakeRing(proof[ringStart..ringEnd], members);
    p := FcmpProof(digests, ring, proof[ringEnd..]);
    Reassemble(proof, p);
  }

  /** `decode` is exactly the inverse of the encoding: it accepts precisely the bytes some legal
    * proof encodes to, and returns that proof.
    */
  method Decode(proof: Bytes) returns (r: Option<FcmpProof>)
    ensures r.Some? ==> r.value.Legal() && Wire(r.value) == proof
    ensures r.None? ==> forall p: FcmpProof :: p.Legal() ==> Wire(p) != proof
    ensures r == Parse(proof)
  {
    if Parse(proof).Some? {
      WireLayout(Parse(proof).value);
    }
    if |proof| < 8 + 8 + 4 + 72 + 32 * 3 {
      return None;
    }
    if proof[..8] != PROOF_TAG {
      return None;
    }
    var slots := FromLe(proof[8..16]);
    if slots == 0 || slots > MAX_FCMP_ANON_SET {
      return None;
    }
    var digestsEnd := 16 + slots * 32;
    if |proof| < digestsEnd + 4 {
      return None;
    }
    var members := FromLe(proof[digestsEnd..digestsEnd + 4]);
    if members == 0 || members > MAX_FCMP_RING || members > slots {
      return None;
    }
    var ringEnd := digestsEnd + 4 + members * 72;
    if |proof| < ringEnd {
      return None;
    }
    if |proof| != ringEnd + 32 * (members + 2) {
      return None;
    }
    var p := TakeFields(proof, slots, members);
    ParseWire(p);
    return Some(p);
  }

  /** The fields of a proof, put back in their places, are the bytes they were cut from. */
  lemma Reassemble(b: Bytes, p: FcmpProof)
    requires p.Legal() && Layout(p, b)
    ensures Wire(p) == b
  {
    var n, m := |p.digests|, |p.ring|;
    var d, r, s := 16 + 32 * n, 20 + 32 * n, 20 + 32 * n + 72 * m;
    ToFromLe(b[8..16]);
    ToFromLe(b[d..r]);
    SixJoin(b, 8, 16, d, r, s);
  }
}

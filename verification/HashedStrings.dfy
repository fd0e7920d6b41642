/** The strings a run hashes, as a set: for the tree in every state, and for the proofs of applied
  * transfers.
  */
module HashedStrings {
  import opened Bytes
  import opened Tree
  import opened Merkle
  import opened Hosts
  import opened Transactions
  import opened Pallet
  import opened TreeInvariant
  import opened Conservation
  import Fcmp
  import FcmpCodec

  // ---- the sets -----------------------------------------------------------

  /** What is hashed for the subtree of depth `d` over the leaves from `lo` on. */
  ghost function TreeStrings(h: Hash, leaves: seq<Leaf>, lo: nat, d: nat): set<Bytes>
    decreases d
  {
    if d == 0 then {TopPreimage(h, leaves, lo, d)}
    else {TopPreimage(h, leaves, lo, d)} + TreeStrings(h, leaves, lo, d - 1) + TreeStrings(h, leaves, lo + Pow2(d - 1), d - 1)
  }

  ghost function LeafStrings(h: Hash, leaves: seq<Leaf>): set<Bytes> {
    TreeStrings(h, leaves, 0, Depth(|leaves|))
  }

  ghost function ProofStrings(h: Hash, proof: Bytes): set<Bytes> {
    match FcmpCodec.Parse(proof)
    case None => {}
    case Some(p) => LeafStrings(h, Fcmp.LeavesOf(|p.digests|, p.ring))
  }

  ghost function InputStrings(h: Hash, inputs: seq<FcmpInput>): set<Bytes> {
    if inputs == [] then {} else InputStrings(h, inputs[..|inputs| - 1]) + ProofStrings(h, inputs[|inputs| - 1].proof)
  }

  ghost function StepStrings(host: Host, cfg: Config, s: State, x: Extrinsic): set<Bytes> {
    if x.TransferCall? && Call(host, cfg, s, x).Ok? then InputStrings(host.blake, x.tx.inputs) else {}
  }

  /** Everything hashed in a run. */
  ghost function RunStrings(host: Host, cfg: Config, past: seq<Block>, xs: Block): set<Bytes>
    decreases |past|, 1, |xs|
  {
    LeafStrings(host.blake, Leaves(During(host, cfg, past, xs))) +
    if xs == [] then PastStrings(host, cfg, past)
    else
      StepStrings(host, cfg, During(host, cfg, past, xs[..|xs| - 1]), xs[|xs| - 1]) + RunStrings(host, cfg, past, xs[..|xs| - 1])
  }

  ghost function PastStrings(host: Host, cfg: Config, past: seq<Block>): set<Bytes>
    decreases |past|, 0, 0
  {
    LeafStrings(host.blake, Leaves(EndOf(host, cfg, past))) +
    if past == [] then {} else RunStrings(host, cfg, past[..|past| - 1], past[|past| - 1])
  }

  // ---- they are exactly what must be covered ------------------------------

  lemma {:induction false} TreeStringsExactly(h: Hash, leaves: seq<Leaf>, lo: nat, d: nat, strings: set<Bytes>)
    ensures HashesBelow(h, leaves, lo, d, strings) <==> TreeStrings(h, leaves, lo, d) <= strings
    decreases d
  {
    if d > 0 {
      TreeStringsExactly(h, leaves, lo, d - 1, strings);
      TreeStringsExactly(h, leaves, lo + Pow2(d - 1), d - 1, strings);
    }
  }

  lemma LeafStringsExactly(h: Hash, leaves: seq<Leaf>, strings: set<Bytes>)
    ensures Hashes(h, leaves, strings) <==> LeafStrings(h, leaves) <= strings
  {
    TreeStringsExactly(h, leaves, 0, Depth(|leaves|), strings);
  }

  lemma ProofStringsExactly(h: Hash, proof: Bytes, strings: set<Bytes>)
    ensures Fcmp.ProofHashes(h, proof, strings) <==> ProofStrings(h, proof) <= strings
  {
    match FcmpCodec.Parse(proof)
    case None =>
    case Some(p) => LeafStringsExactly(h, Fcmp.LeavesOf(|p.digests|, p.ring), strings);
  }

  ghost predicate ProofsHashed(h: Hash, inputs: seq<FcmpInput>, strings: set<Bytes>) {
    forall i :: 0 <= i < |inputs| ==> Fcmp.ProofHashes(h, inputs[i].proof, strings)
  }

  lemma ProofsSnoc(h: Hash, most: seq<FcmpInput>, last: FcmpInput, strings: set<Bytes>)
    ensures ProofsHashed(h, most + [last], strings) <==>
            ProofsHashed(h, most, strings) && Fcmp.ProofHashes(h, last.proof, strings)
  {
    var all := most + [last];
    assert all[|most|] == last && forall i :: 0 <= i < |most| ==> all[i] == most[i];
    if ProofsHashed(h, all, strings) {
      forall i | 0 <= i < |most|
        ensures Fcmp.ProofHashes(h, most[i].proof, strings)
      {
        assert Fcmp.ProofHashes(h, all[i].proof, strings);
      }
    }
  }

  lemma {:induction false} InputStringsExactly(h: Hash, inputs: seq<FcmpInput>, strings: set<Bytes>)
    ensures ProofsHashed(h, inputs, strings) <==> InputStrings(h, inputs) <= strings
  {
    if inputs != [] {
      var most, last := inputs[..|inputs| - 1], inputs[|inputs| - 1];
      InputStringsExactly(h, most, strings);
      ProofStringsExactly(h, last.proof, strings);
      ProofsSnoc(h, most, last, strings);
      assert most + [last] == inputs;
    }
  }

  lemma StepStringsExactly(host: Host, cfg: Config, s: State, x: Extrinsic, strings: set<Bytes>)
    ensures StepCovered(host, cfg, s, x, strings) <==> StepStrings(host, cfg, s, x) <= strings
  {
    if x.TransferCall? {
      InputStringsExactly(host.blake, x.tx.inputs, strings);
    }
  }

  /** A set covers a run exactly when it contains the run's strings: they are the least such set. */
  lemma {:induction false} RunStringsExactly(host: Host, cfg: Config, past: seq<Block>, xs: Block, strings: set<Bytes>)
    ensures RunCovered(host, cfg, past, xs, strings) <==> RunStrings(host, cfg, past, xs) <= strings
    decreases |past|, 1, |xs|
  {
    LeafStringsExactly(host.blake, Leaves(During(host, cfg, past, xs)), strings);
    if xs == [] {
      PastStringsExactly(host, cfg, past, strings);
    } else {
      StepStringsExactly(host, cfg, During(host, cfg, past, xs[..|xs| - 1]), xs[|xs| - 1], strings);
      RunStringsExactly(host, cfg, past, xs[..|xs| - 1], strings);
    }
  }

  lemma {:induction false} PastStringsExactly(host: Host, cfg: Config, past: seq<Block>, strings: set<Bytes>)
    ensures PastCovered(host, cfg, past, strings) <==> PastStrings(host, cfg, past) <= strings
    decreases |past|, 0, 0
  {
    LeafStringsExactly(host.blake, Leaves(EndOf(host, cfg, past)), strings);
    if past != [] {
      RunStringsExactly(host, cfg, past[..|past| - 1], past[|past| - 1], strings);
    }
  }

  lemma RunStringsCover(host: Host, cfg: Config, past: seq<Block>, xs: Block)
    ensures RunCovered(host, cfg, past, xs, RunStrings(host, cfg, past, xs))
  {
    RunStringsExactly(host, cfg, past, xs, RunStrings(host, cfg, past, xs));
  }
}

/** The domain tags as they go into hashes and onto the wire, byte by byte. */
module Domains {
  import opened Bytes
  import Clsag
  import FcmpCodec
  import Merkle
  import Stealth
  import Transactions

  lemma SigningTag()
    ensures Transactions.SIGNING_DOMAIN ==
            [107, 111, 104, 108, 47, 116, 114, 97, 110, 115, 102, 101, 114, 47, 118, 52]
  {
  }

  lemma ProofTag()
    ensures FcmpCodec.PROOF_TAG ==
            [70, 67, 77, 80, 48, 48, 48, 49]
  {
  }

  lemma PathTag()
    ensures FcmpCodec.TRANSPARENT_PATH_DEBUG_TAG ==
            [84, 82, 80, 65, 84, 72, 48, 49]
  {
  }

  lemma LeafTag()
    ensures Merkle.LEAF_DOM ==
            [107, 111, 104, 108, 47, 102, 99, 109, 112, 47, 108, 101, 97, 102, 47, 118, 49]
  {
  }

  lemma EmptyLeafTag()
    ensures Merkle.EMPTY_LEAF_DOM ==
            [107, 111, 104, 108, 47, 102, 99, 109, 112, 47, 108, 101, 97, 102, 47, 101, 109, 112, 116, 121, 47, 118, 49]
  {
  }

  lemma NodeTag()
    ensures Merkle.MERKLE_DOM ==
            [107, 111, 104, 108, 47, 102, 99, 109, 112, 47, 109, 101, 114, 107, 108, 101, 47, 118, 49]
  {
  }

  lemma EmptyChildTag()
    ensures Merkle.MERKLE_EMPTY_DOM ==
            [107, 111, 104, 108, 47, 102, 99, 109, 112, 47, 109, 101, 114, 107, 108, 101, 47, 118, 49, 47, 101, 109, 112, 116, 121]
  {
  }

  lemma KeyCoefficientTag()
    ensures Clsag.DOM_AGG_KEY ==
            [107, 111, 104, 108, 47, 99, 108, 115, 97, 103, 47, 97, 103, 103, 45, 107, 101, 121, 47, 118, 49]
  {
  }

  lemma CommitmentCoefficientTag()
    ensures Clsag.DOM_AGG_COM ==
            [107, 111, 104, 108, 47, 99, 108, 115, 97, 103, 47, 97, 103, 103, 45, 99, 111, 109, 47, 118, 49]
  {
  }

  lemma RoundTag()
    ensures Clsag.DOM_ROUND ==
            [107, 111, 104, 108, 47, 99, 108, 115, 97, 103, 47, 114, 111, 117, 110, 100, 47, 118, 49]
  {
  }

  lemma PointTag()
    ensures Clsag.DOM_HP ==
            [107, 111, 104, 108, 47, 99, 108, 115, 97, 103, 47, 104, 112, 47, 118, 49]
  {
  }

  lemma OneTimeKeyTag()
    ensures Stealth.DOM_OTK ==
            [107, 111, 104, 108, 47, 115, 116, 101, 97, 108, 116, 104, 47, 111, 116, 107, 47, 118, 49]
  {
  }

  lemma ViewTagTag()
    ensures Stealth.DOM_VIEW_TAG ==
            [107, 111, 104, 108, 47, 115, 116, 101, 97, 108, 116, 104, 47, 118, 105, 101, 119, 45, 116, 97, 103, 47, 118, 49]
  {
  }

  lemma BlindingTag()
    ensures Stealth.DOM_BLINDING ==
            [107, 111, 104, 108, 47, 115, 116, 101, 97, 108, 116, 104, 47, 98, 108, 105, 110, 100, 105, 110, 103, 47, 118, 49]
  {
  }

  lemma AmountTag()
    ensures Stealth.DOM_AMOUNT ==
            [107, 111, 104, 108, 47, 115, 116, 101, 97, 108, 116, 104, 47, 97, 109, 111, 117, 110, 116, 47, 118, 49]
  {
  }

  lemma ViewSeedTag()
    ensures Stealth.DOM_WALLET_VIEW ==
            [107, 111, 104, 108, 47, 119, 97, 108, 108, 101, 116, 47, 118, 105, 101, 119, 47, 118, 49]
  {
  }

  lemma SpendSeedTag()
    ensures Stealth.DOM_WALLET_SPEND ==
            [107, 111, 104, 108, 47, 119, 97, 108, 108, 101, 116, 47, 115, 112, 101, 110, 100, 47, 118, 49]
  {
  }
}

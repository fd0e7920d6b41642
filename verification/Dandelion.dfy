/** The Dandelion++ stem engine: peers, epochs, embargoes and routing decisions. */
module Dandelion {
  import opened Bytes

  type PeerName = string
  type TxKey = string

  datatype StemEntry = StemEntry(deadline: nat, from: Option<PeerName>)
  {
    /** Nothing to relay to: the node diffuses this epoch, the roll says so, or every connected peer is
      * the one the entry came from.
      */
    predicate Blocked(now: Situation) {
      now.route.isFluffNode || now.fluffHop || forall p :: p in now.peers ==> from == Some(p)
    }
  }

  datatype EpochRoute = EpochRoute(outbound: Option<PeerName>, isFluffNode: bool, index: nat)

  /** Tunables, and the hash-based rolls as functions of the epoch. */
  datatype Rules = Rules(
    embargo: nat,
    epoch: nat,
    maxStemEntries: nat,
    score: (nat, PeerName) -> nat,
    fluffRole: nat -> bool,
    hopFluff: (nat, TxKey) -> bool)

  /** `p` has the least score among `peers` in epoch `index`. */
  predicate Best(rules: Rules, index: nat, peers: set<PeerName>, p: PeerName) {
    p in peers && forall q :: q in peers ==> (rules.score)(index, p) <= (rules.score)(index, q)
  }

  /** What a routing decision depends on besides the entry: the route in force, the connected peers
    * and the roll for this hop.
    */
  datatype Situation = Situation(route: EpochRoute, peers: set<PeerName>, fluffHop: bool)
  {
    predicate Consistent() {
      (route.outbound.None? <==> peers == {}) && (route.outbound.Some? ==> route.outbound.value in peers)
    }
  }

  /** A transaction whose entry came from `source` may be relayed to `hop`: the outbound peer, or any
    * other peer if that is the source.
    */
  predicate MayRelay(now: Situation, source: Option<PeerName>, hop: PeerName) {
    && !now.route.isFluffNode && !now.fluffHop && now.route.outbound.Some?
    && hop in now.peers && source != Some(hop)
    && (source != now.route.outbound ==> now.route.outbound == Some(hop))
  }

  /** Where the entry of `key` comes from once `sender` has sent it: only the first sender counts. */
  function SourceAfter(stem: map<TxKey, StemEntry>, key: TxKey, sender: PeerName): Option<PeerName> {
    if key in stem then stem[key].from else Some(sender)
  }

  /** The key is new, or its entry already names the sender. */
  predicate FirstSender(stem: map<TxKey, StemEntry>, key: TxKey, sender: PeerName) {
    key !in stem || stem[key].from == Some(sender)
  }

  /** The exact guard: a message can never go back to its sender, whatever the route, the peers and the
    * rolls, if and only if the key is new or its entry names the sender.
    */
  lemma NeverBackExactly(stem: map<TxKey, StemEntry>, key: TxKey, sender: PeerName)
    ensures FirstSender(stem, key, sender) <==>
            forall now: Situation :: now.Consistent() ==> !MayRelay(now, SourceAfter(stem, key, sender), sender)
  {
    if !FirstSender(stem, key, sender) {
      var now := Situation(EpochRoute(Some(sender), false, 0), {sender}, false);
      assert now.Consistent() && MayRelay(now, SourceAfter(stem, key, sender), sender);
    }
  }

  /** No entry of `stem` expires before `k`. */
  predicate Soonest(stem: map<TxKey, StemEntry>, k: TxKey) {
    k in stem && forall j :: j in stem ==> stem[k].deadline <= stem[j].deadline
  }

  /** Among any of the keys one has the least deadline. */
  lemma {:induction false} SoonestAmong(stem: map<TxKey, StemEntry>, keys: set<TxKey>) returns (k: TxKey)
    requires keys != {} && keys <= stem.Keys
    ensures k in keys && forall j :: j in keys ==> stem[k].deadline <= stem[j].deadline
    decreases |keys|
  {
    var x :| x in keys;
    var rest := keys - {x};
    k := x;
    if rest != {} {
      var y := SoonestAmong(stem, rest);
      k := if stem[x].deadline <= stem[y].deadline then x else y;
    }
  }

  lemma RemovedOne(before: map<TxKey, StemEntry>, after: map<TxKey, StemEntry>, k: TxKey)
    requires k in before && after == before - {k}
    ensures |after| == |before| - 1
  {
    assert after.Keys == before.Keys - {k};
  }

  lemma AddedOne(before: map<TxKey, StemEntry>, k: TxKey, e: StemEntry)
    requires k !in before
    ensures |before[k := e]| == |before| + 1
  {
    assert before[k := e].Keys == before.Keys + {k};
  }

  class DandelionEngine {
    const rules: Rules
    var stem: map<TxKey, StemEntry>
    var route: EpochRoute
    var peers: set<PeerName>
    var epochStarted: nat
    var epochIndex: nat

    /** Outbound is set exactly when somebody is connected, and is connected; the role is the
      * epoch's; the stem set is bounded.
      */
    ghost predicate Valid()
      reads this
    {
      && (route.outbound.None? <==> peers == {})
      && (route.outbound.Some? ==> route.outbound.value in peers)
      && route.index == epochIndex && route.isFluffNode == (rules.fluffRole)(epochIndex)
      && |stem| <= Max(1, rules.maxStemEntries)
    }

    constructor (rules: Rules, now: nat)
      ensures this.rules == rules && Valid() && peers == {} && stem == map[] && epochIndex == 0 && epochStarted == now
    {
      this.rules := rules;
      stem, peers, epochIndex, epochStarted := map[], {}, 0, now;
      route := EpochRoute(None, (rules.fluffRole)(0), 0);
    }

    // ---- epochs -----------------------------------------------------------

    /** The peer with the least score, if anybody is connected. */
    method PickOutbound() returns (outbound: Option<PeerName>)
      ensures outbound.None? <==> peers == {}
      ensures outbound.Some? ==> Best(rules, epochIndex, peers, outbound.value)
    {
      outbound := None;
      var left := peers;
      while left != {}
        invariant left <= peers
        invariant outbound.None? <==> left == peers
        invariant outbound.Some? ==> Best(rules, epochIndex, peers - left, outbound.value)
        decreases |left|
      {
        var p :| p in left;
        if outbound.None? || (rules.score)(epochIndex, p) < (rules.score)(epochIndex, outbound.value) {
          outbound := Some(p);
        }
        left := left - {p};
      }
      assert peers - left == peers;
    }

    method RecomputeEpoch(now: nat)
      modifies this`route, this`epochStarted
      ensures epochStarted == now && route.index == epochIndex && route.isFluffNode == (rules.fluffRole)(epochIndex)
      ensures route.outbound.None? <==> peers == {}
      ensures route.outbound.Some? ==> Best(rules, epochIndex, peers, route.outbound.value)
    {
      epochStarted := now;
      var outbound := PickOutbound();
      route := EpochRoute(outbound, (rules.fluffRole)(epochIndex), epochIndex);
    }

    /** Whether the epoch is over at `now`; a clock that went back counts as no time at all. */
    predicate EpochOver(now: nat)
      reads this
    {
      Max(now - epochStarted, 0) >= rules.epoch
    }

    /** A new epoch gets a new role and the best outbound peer; otherwise nothing changes. */
    method MaybeRollEpoch(now: nat)
      requires Valid()
      modifies this`route, this`epochStarted, this`epochIndex
      ensures Valid()
      ensures !old(EpochOver(now)) ==> route == old(route) && epochStarted == old(epochStarted) && epochIndex == old(epochIndex)
      ensures old(EpochOver(now)) ==> epochStarted == now && epochIndex == (old(epochIndex) + 1) % U64_BOUND
      ensures old(EpochOver(now)) && peers != {} ==> Best(rules, epochIndex, peers, route.outbound.value)
      ensures now >= old(epochStarted) + rules.epoch || rules.epoch == 0 ==>
                epochIndex == (old(epochIndex) + 1) % 0x1_0000_0000_0000_0000 && epochStarted == now
      ensures now < old(epochStarted) + rules.epoch && rules.epoch > 0 ==>
                epochIndex == old(epochIndex) && epochStarted == old(epochStarted) && route == old(route)
    {
      if EpochOver(now) {
        epochIndex := (epochIndex + 1) % U64_BOUND;
        RecomputeEpoch(now);
      }
    }

    // ---- peers ------------------------------------------------------------

    method PeerConnected(peer: PeerName, now: nat)
      requires Valid()
      modifies this`peers, this`route, this`epochStarted
      ensures Valid() && peers == old(peers) + {peer}
      ensures old(route.outbound).Some? ==> route == old(route)
      ensures old(route.outbound).None? ==> route.outbound == Some(peer)
      ensures epochStarted == if old(route.outbound).None? then now else old(epochStarted)
    {
      peers := peers + {peer};
      if route.outbound.None? {
        RecomputeEpoch(now);
      }
    }

    method PeerDisconnected(peer: PeerName, now: nat)
      requires Valid()
      modifies this`peers, this`route, this`epochStarted
      ensures Valid() && peers == old(peers) - {peer}
      ensures old(route.outbound) != Some(peer) ==> route == old(route)
      ensures old(route.outbound) == Some(peer) && peers != {} ==> Best(rules, epochIndex, peers, route.outbound.value)
      ensures epochStarted == if old(route.outbound) == Some(peer) then now else old(epochStarted)
    {
      peers := peers - {peer};
      if route.outbound == Some(peer) {
        RecomputeEpoch(now);
      } else {
        assert route.outbound.None? ==> peers == {};
        assert route.outbound.Some? ==> route.outbound.value in peers;
      }
    }

    // ---- the stem set -----------------------------------------------------

    predicate IsStem(key: TxKey)
      reads this
    {
      key in stem
    }

    /** Drop the entry closest to its embargo if the set is full. */
    method EvictIfFull() returns (ghost evicted: Option<TxKey>)
      modifies this`stem
      ensures evicted.None? <==> |old(stem)| < rules.maxStemEntries || old(stem).Keys == {}
      ensures evicted.None? ==> stem == old(stem)
      ensures evicted.Some? ==> Soonest(old(stem), evicted.value) && stem == old(stem) - {evicted.value}
      ensures |stem| == |old(stem)| - if evicted.Some? then 1 else 0
    {
      evicted := None;
      if |stem| < rules.maxStemEntries || stem.Keys == {} {
        return;
      }
      ghost var least := SoonestAmong(stem, stem.Keys);
      assert Soonest(stem, least);
      var key :| key in stem && Soonest(stem, key);
      RemovedOne(stem, stem - {key}, key);
      stem := stem - {key};
      evicted := Some(key);
    }

    /** Start an embargo for `key` unless it already has one. */
    method EnterStem(key: TxKey, from: Option<PeerName>, now: nat) returns (entered: bool)
      requires Valid()
      modifies this`stem
      ensures Valid()
      ensures entered == (key !in old(stem))
      ensures !entered ==> stem == old(stem)
      ensures entered ==> key in stem && stem[key] == StemEntry(now + rules.embargo, from)
      ensures forall k :: k in stem && k != key ==> k in old(stem) && stem[k] == old(stem)[k]
      ensures forall k :: k in old(stem) && k !in stem ==> Soonest(old(stem), k) && |old(stem)| >= rules.maxStemEntries
      ensures |stem| >= |old(stem)|
    {
      if key in stem {
        return false;
      }
      ghost var evicted := EvictIfFull();
      AddedOne(stem, key, StemEntry(now + rules.embargo, from));
      stem := stem[key := StemEntry(now + rules.embargo, from)];
      return true;
    }

    /** Clear the stem bit. */
    method Fluff(key: TxKey) returns (was: bool)
      requires Valid()
      modifies this`stem
      ensures Valid() && stem == old(stem) - {key} && was == (key in old(stem))
    {
      was := key in stem;
      ghost var before := stem;
      stem := stem - {key};
      assert stem.Keys == before.Keys - {key};
      CardinalityBelow(stem.Keys, before.Keys);
    }

    /** The keys whose embargo is over. */
    function EmbargoExpired(now: nat): set<TxKey>
      reads this
    {
      set k | k in stem && now >= stem[k].deadline
    }

    // ---- routing ----------------------------------------------------------

    /** Why a stem hop would diffuse rather than relay, in the epoch in force. */
    predicate MustFluff(key: TxKey)
      reads this
    {
      key !in stem || stem[key].Blocked(Now(key))
    }

    function Now(key: TxKey): Situation
      reads this
    {
      Situation(route, peers, (rules.hopFluff)(epochIndex, key))
    }

    /** The next hop is a connected peer other than the one the entry came from, and there is one
      * exactly when nothing makes this hop diffuse.
      */
    method StemDecision(key: TxKey, now: nat) returns (hop: Option<PeerName>)
      requires Valid()
      modifies this`route, this`epochStarted, this`epochIndex
      ensures Valid()
      ensures hop.Some? ==> hop.value in peers && key in stem && stem[key].from != hop
      ensures hop.Some? ==> MayRelay(Now(key), stem[key].from, hop.value)
      ensures hop.None? <==> MustFluff(key)
      ensures !old(EpochOver(now)) ==> route == old(route) && epochIndex == old(epochIndex)
      ensures now >= old(epochStarted) + rules.epoch || rules.epoch == 0 ==>
                epochIndex == (old(epochIndex) + 1) % 0x1_0000_0000_0000_0000 && epochStarted == now
      ensures now < old(epochStarted) + rules.epoch && rules.epoch > 0 ==>
                epochIndex == old(epochIndex) && epochStarted == old(epochStarted) && route == old(route)
    {
      MaybeRollEpoch(now);
      if key !in stem || route.isFluffNode || (rules.hopFluff)(epochIndex, key) {
        return None;
      }
      var from := stem[key].from;
      if route.outbound.None? {
        return None;
      }
      var outbound := route.outbound.value;
      if from == Some(outbound) {
        if exists p :: p in peers && from != Some(p) {
          var p :| p in peers && from != Some(p);
          return Some(p);
        }
        return None;
      }
      return Some(outbound);
    }
  }

  lemma CardinalityBelow<T>(a: set<T>, b: set<T>)
    requires a <= b
    ensures |a| <= |b|
  {
    assert b == a + (b - a);
  }
}

/** The Dandelion++ event loop: peers, stem messages, pool imports and embargo ticks. */
module DandelionHandler {
  import opened Bytes
  import opened Dandelion

  type PeerId = nat

  /** What reaches the loop. Network, pool and sync answers are part of the event. */
  datatype Event =
    | StreamOpened(peer: PeerId, hasRole: bool)
    | StreamClosed(peer: PeerId)
    | SyncConnected(peer: PeerId)
    | SyncDisconnected(peer: PeerId)
    | LocalSubmit(key: TxKey)
    | PoolImport(key: TxKey, syncing: bool, sent: bool)
    | StemReceived(from: PeerId, accepted: Option<TxKey>, syncing: bool, sent: bool)
    | Tick

  datatype Timed = Timed(at: nat, event: Event)

  /** Distinct peers have distinct base58 names. */
  ghost predicate Injective(name: PeerId -> PeerName) {
    forall p, q :: name(p) == name(q) ==> p == q
  }

  ghost function Names(peers: map<PeerId, PeerName>): set<PeerName> {
    set p | p in peers :: peers[p]
  }

  /** Every embargo runs until after the last tick, and began no later than `clock`. */
  ghost predicate Embargoed(stem: map<TxKey, StemEntry>, embargo: nat, lastTick: nat, clock: nat) {
    forall k :: k in stem ==> lastTick <= stem[k].deadline <= clock + embargo
  }

  class Handler {
    const engine: DandelionEngine
    const name: PeerId -> PeerName
    var peers: map<PeerId, PeerName>
    ghost var clock: nat
    ghost var lastTick: nat

    /** The peer map and the engine's peer set agree; embargoes are bounded. */
    ghost predicate Valid()
      reads this, engine
    {
      && engine.Valid() && Injective(name) && lastTick <= clock
      && (forall p :: p in peers ==> peers[p] == name(p))
      && engine.peers == Names(peers)
      && Embargoed(engine.stem, engine.rules.embargo, lastTick, clock)
    }

    constructor (rules: Rules, name: PeerId -> PeerName, now: nat)
      requires Injective(name)
      ensures Valid() && fresh(engine) && engine.rules == rules && this.name == name && clock == lastTick == now
      ensures peers == map[] && engine.stem == map[]
    {
      this.name := name;
      peers, clock, lastTick := map[], now, now;
      engine := new DandelionEngine(rules, now);
    }

    // ---- peers ------------------------------------------------------------

    method Connect(peer: PeerId, now: nat)
      requires Valid() && now >= clock
      modifies this, engine
      ensures Valid() && clock == now && lastTick == old(lastTick)
      ensures peers == old(peers)[peer := name(peer)] && engine.stem == old(engine.stem)
      ensures engine.route.outbound == if old(engine.route.outbound).Some? then old(engine.route.outbound) else Some(name(peer))
      ensures engine.epochIndex == old(engine.epochIndex)
    {
      ghost var before := peers;
      peers := peers[peer := name(peer)];
      engine.PeerConnected(name(peer), now);
      clock := now;
      assert Names(peers) == Names(before) + {name(peer)} by {
        assert peer in peers && peers[peer] == name(peer);
        forall x | x in Names(before) ensures x in Names(peers) {
          var p :| p in before && before[p] == x;
          assert p in peers && peers[p] == x;
        }
      }
    }

    method Disconnect(peer: PeerId, now: nat)
      requires Valid() && now >= clock
      modifies this, engine
      ensures Valid() && clock == now && lastTick == old(lastTick)
      ensures peers == old(peers) - {peer} && engine.stem == old(engine.stem)
    {
      ghost var before := peers;
      if peer in peers {
        var id := peers[peer];
        peers := peers - {peer};
        engine.PeerDisconnected(id, now);
        assert Names(peers) == Names(before) - {name(peer)} by {
          forall x | x in Names(before) && x != name(peer) ensures x in Names(peers) {
            var p :| p in before && before[p] == x;
            assert p in peers && peers[p] == x;
          }
        }
      } else {
        assert peers - {peer} == peers;
      }
      clock := now;
    }

    /** Look a name up in the peer map. */
    method PeerById(id: PeerName) returns (peer: Option<PeerId>)
      requires Valid()
      ensures peer.Some? <==> id in engine.peers
      ensures peer.Some? ==> peer.value in peers && peers[peer.value] == id
    {
      if p :| p in peers && peers[p] == id {
        return Some(p);
      }
      return None;
    }

    // ---- stem traffic -----------------------------------------------------

    /** Relay to the decided peer, or clear the stem bit. The lookup never misses, so the
      * transaction is diffused only by decision or because it left the pool.
      */
    method RelayOrFluff(key: TxKey, hop: Option<PeerName>, sent: bool) returns (to': Option<PeerId>)
      requires Valid() && (hop.Some? ==> hop.value in engine.peers)
      modifies engine
      ensures Valid() && engine.peers == old(engine.peers)
      ensures engine.route == old(engine.route) && engine.epochIndex == old(engine.epochIndex)
      ensures to'.Some? <==> hop.Some? && sent
      ensures to'.Some? ==> to'.value in peers && peers[to'.value] == hop.value && engine.stem == old(engine.stem)
      ensures to'.None? ==> engine.stem == old(engine.stem) - {key}
    {
      if hop.Some? {
        var peer := PeerById(hop.value);
        if peer.Some? && sent {
          return peer;
        }
      }
      var was := engine.Fluff(key);
      return None;
    }

    /** Decide the hop of a stem transaction and relay it, or clear its stem bit. */
    method RouteStem(key: TxKey, sent: bool, now: nat) returns (to': Option<PeerId>)
      requires Valid() && key in engine.stem
      modifies engine
      ensures Valid() && engine.peers == old(engine.peers)
      ensures to'.Some? <==> sent && !old(engine.stem)[key].Blocked(engine.Now(key))
      ensures to'.Some? ==> to'.value in peers && MayRelay(engine.Now(key), old(engine.stem)[key].from, peers[to'.value])
      ensures engine.stem == if to'.Some? then old(engine.stem) else old(engine.stem) - {key}
      ensures !old(engine.EpochOver(now)) ==> engine.route == old(engine.route) && engine.epochIndex == old(engine.epochIndex)
    {
      var hop := engine.StemDecision(key, now);
      to' := RelayOrFluff(key, hop, sent);
    }

    /** The pool saw `key`: only a stem transaction is routed, to a connected peer other than the
      * one it came from.
      */
    method OnPoolImport(key: TxKey, syncing: bool, sent: bool, now: nat) returns (to': Option<PeerId>)
      requires Valid() && now >= clock
      modifies this`clock, engine
      ensures Valid() && clock == now && engine.peers == old(engine.peers)
      ensures to'.Some? ==> to'.value in peers && key in old(engine.stem) && old(engine.stem)[key].from != Some(peers[to'.value])
      ensures syncing || key !in old(engine.stem) ==> to'.None? && engine.stem == old(engine.stem)
      ensures !syncing && key in old(engine.stem) ==> (to'.Some? <==> sent && !old(engine.stem)[key].Blocked(engine.Now(key)))
      ensures !syncing ==> engine.stem == if to'.Some? then old(engine.stem) else old(engine.stem) - {key}
    {
      clock := now;
      to' := None;
      if syncing || !engine.IsStem(key) {
        return;
      }
      to' := RouteStem(key, sent, now);
    }

    /** The message is accepted, no epoch ends and no roll hits, and the entry's source is not the
      * outbound peer: it will be relayed to the outbound peer.
      */
    predicate GoesOut(from: PeerId, accepted: Option<TxKey>, syncing: bool, sent: bool, now: nat)
      reads this, engine
    {
      && !syncing && sent && accepted.Some? && !engine.EpochOver(now)
      && !engine.route.isFluffNode && !(engine.rules.hopFluff)(engine.epochIndex, accepted.value)
      && engine.route.outbound.Some? && SourceAfter(engine.stem, accepted.value, name(from)) != engine.route.outbound
    }

    /** A stem message arrived and the pool accepted it as `key`: start the embargo, then relay or
      * diffuse. It is never relayed to the peer its entry came from. It goes back to its sender only
      * if the key was already there from somebody else, and then through the outbound peer being the
      * sender or being that other source.
      */
    method OnStemReceived(from: PeerId, accepted: Option<TxKey>, syncing: bool, sent: bool, now: nat) returns (to': Option<PeerId>)
      requires Valid() && now >= clock
      modifies this`clock, engine
      ensures Valid() && clock == now && engine.peers == old(engine.peers)
      ensures syncing || accepted.None? ==> to'.None? && engine.stem == old(engine.stem)
      ensures to'.Some? ==> accepted.Some? && to'.value in peers && accepted.value in engine.stem &&
                            engine.stem[accepted.value].from == SourceAfter(old(engine.stem), accepted.value, name(from)) &&
                            MayRelay(engine.Now(accepted.value), engine.stem[accepted.value].from, peers[to'.value])
      ensures accepted.Some? && FirstSender(old(engine.stem), accepted.value, name(from)) ==> to' != Some(from)
      ensures to' == Some(from) ==> engine.route.outbound == Some(name(from)) ||
                                    engine.route.outbound == old(engine.stem)[accepted.value].from
      ensures old(GoesOut(from, accepted, syncing, sent, now)) ==>
                to'.Some? && Some(peers[to'.value]) == engine.route.outbound && engine.route == old(engine.route) &&
                engine.epochIndex == old(engine.epochIndex)
      ensures to'.Some? && accepted.value in old(engine.stem) ==> engine.stem == old(engine.stem)
      ensures !syncing && accepted.Some? ==>
                var source := SourceAfter(old(engine.stem), accepted.value, name(from));
                to'.Some? <==> sent && !StemEntry(0, source).Blocked(engine.Now(accepted.value))
      ensures !syncing && accepted.Some? && to'.None? ==> accepted.value !in engine.stem
      ensures to'.Some? && accepted.value !in old(engine.stem) ==>
                engine.stem[accepted.value] == StemEntry(now + engine.rules.embargo, Some(name(from)))
    {
      clock := now;
      to' := None;
      if syncing || accepted.None? {
        return;
      }
      var key := accepted.value;
      var entered := engine.EnterStem(key, Some(name(from)), now);
      assert Embargoed(engine.stem, engine.rules.embargo, lastTick, clock);
      to' := RouteStem(key, sent, now);
    }

    method OnLocalSubmit(key: TxKey, now: nat)
      requires Valid() && now >= clock
      modifies this`clock, engine
      ensures Valid() && clock == now && engine.peers == old(engine.peers) && key in engine.stem
      ensures key in old(engine.stem) ==> engine.stem == old(engine.stem)
      ensures key !in old(engine.stem) ==> engine.stem[key] == StemEntry(now + engine.rules.embargo, None)
    {
      clock := now;
      var entered := engine.EnterStem(key, None, now);
    }

    /** Clear every expired entry. */
    method OnTick(now: nat)
      requires Valid() && now >= clock
      modifies this`clock, this`lastTick, engine`stem
      ensures Valid() && clock == lastTick == now
      ensures forall k :: k in engine.stem <==> k in old(engine.stem) && now < old(engine.stem)[k].deadline
      ensures forall k :: k in engine.stem ==> engine.stem[k] == old(engine.stem)[k]
    {
      ghost var before := engine.stem;
      clock := now;
      var expired := engine.EmbargoExpired(now);
      ghost var all := expired;
      while expired != {}
        modifies engine`stem
        invariant engine.Valid() && expired <= all
        invariant forall k :: k in engine.stem <==> k in before && (k in all ==> k in expired)
        invariant forall k :: k in engine.stem ==> engine.stem[k] == before[k]
        decreases |expired|
      {
        var key :| key in expired;
        var was := engine.Fluff(key);
        expired := expired - {key};
      }
      lastTick := now;
    }

    // ---- every run --------------------------------------------------------

    method Handle(e: Timed)
      requires Valid() && e.at >= clock
      modifies this, engine
      ensures Valid() && clock == e.at
      ensures lastTick == if e.event.Tick? then e.at else old(lastTick)
      ensures peers == PeersAfter(old(peers), name, e.event)
      ensures e.event.LocalSubmit? ==> e.event.key in engine.stem
      ensures e.event.Tick? ==> forall k :: k in engine.stem <==> k in old(engine.stem) && e.at < old(engine.stem)[k].deadline
      ensures e.event.StreamOpened? || e.event.StreamClosed? || e.event.SyncConnected? || e.event.SyncDisconnected? ==>
                engine.stem == old(engine.stem)
    {
      match e.event {
        case StreamOpened(peer, hasRole) =>
          if hasRole {
            Connect(peer, e.at);
          } else {
            clock := e.at;
          }
        case StreamClosed(peer) => Disconnect(peer, e.at);
        case SyncConnected(peer) => Connect(peer, e.at);
        case SyncDisconnected(peer) => Disconnect(peer, e.at);
        case LocalSubmit(key) => OnLocalSubmit(key, e.at);
        case PoolImport(key, syncing, sent) => var hop := OnPoolImport(key, syncing, sent, e.at);
        case StemReceived(from, accepted, syncing, sent) => var hop := OnStemReceived(from, accepted, syncing, sent, e.at);
        case Tick => OnTick(e.at);
      }
    }

    /** Over every event sequence whose ticks are at most `gap` apart, no entry outlives its
      * embargo by more than `gap`: whatever is still on the stem at the end entered at
      * `deadline − embargo`, which is at most `embargo + gap` ago.
      */
    method RunEvents(events: seq<Timed>, gap: nat)
      requires Valid() && InOrder(clock, events) && TicksWithin(lastTick, events, gap) && clock <= lastTick + gap
      modifies this, engine
      ensures Valid() && clock == EndTime(old(clock), events)
      ensures forall k :: k in engine.stem ==> clock <= engine.stem[k].deadline + gap
      ensures |engine.stem| <= Max(1, engine.rules.maxStemEntries)
      ensures engine.route.outbound.None? <==> peers.Keys == {}
      ensures peers == PeersAfterAll(old(peers), name, events)
    {
      var i := 0;
      while i < |events|
        invariant 0 <= i <= |events| && Valid()
        invariant InOrder(clock, events[i..]) && TicksWithin(lastTick, events[i..], gap) && clock <= lastTick + gap
        invariant EndTime(clock, events[i..]) == EndTime(old(clock), events)
        invariant PeersAfterAll(peers, name, events[i..]) == PeersAfterAll(old(peers), name, events)
      {
        assert events[i..][1..] == events[i + 1..];
        Handle(events[i]);
        i := i + 1;
      }
      assert events[i..] == [];
      NamesEmpty(peers);
    }
  }

  /** Who is connected after an event: a notification stream with a role or a sync connection adds the
    * peer, the end of either removes it, and nothing else matters.
    */
  function PeersAfter(peers: map<PeerId, PeerName>, name: PeerId -> PeerName, e: Event): map<PeerId, PeerName> {
    match e
    case StreamOpened(peer, hasRole) => if hasRole then peers[peer := name(peer)] else peers
    case SyncConnected(peer) => peers[peer := name(peer)]
    case StreamClosed(peer) => peers - {peer}
    case SyncDisconnected(peer) => peers - {peer}
    case _ => peers
  }

  function PeersAfterAll(peers: map<PeerId, PeerName>, name: PeerId -> PeerName, events: seq<Timed>): map<PeerId, PeerName>
    decreases events
  {
    if events == [] then peers else PeersAfterAll(PeersAfter(peers, name, events[0].event), name, events[1..])
  }

  /** A name per peer. */
  function Tally(p: PeerId): PeerName {
    seq(p + 1, _ => 'p')
  }

  lemma TallyIsInjective()
    ensures Injective(Tally)
  {
    forall p: PeerId, q: PeerId | Tally(p) == Tally(q)
      ensures p == q
    {
      assert |Tally(p)| == p + 1 && |Tally(q)| == q + 1;
    }
  }

  /** Peers 1 and 2, connected in that order, under rules whose rolls never hit. */
  method TwoPeers() returns (handler: Handler)
    ensures fresh(handler) && fresh(handler.engine) && handler.Valid() && handler.clock == 0 && handler.name == Tally
    ensures handler.engine.stem == map[] && handler.engine.route.outbound == Some(Tally(1))
    ensures handler.engine.rules.epoch > 0
    ensures forall index: nat, k: TxKey :: !(handler.engine.rules.hopFluff)(index, k)
    ensures forall index: nat :: !(handler.engine.rules.fluffRole)(index)
  {
    TallyIsInjective();
    var rules := Rules(16_000, 600_000, 4096, (index: nat, p: PeerName) => 0, (index: nat) => false, (index: nat, k: TxKey) => false);
    handler := new Handler(rules, Tally, 0);
    handler.Connect(1, 0);
    handler.Connect(2, 0);
  }

  /** Two events that send a transaction back: peer 1 is outbound, peer 2 sends a transaction that is
    * relayed to peer 1, and peer 1 then sends the same transaction and gets it back.
    */
  method SentBack(key: TxKey) returns (first: Option<PeerId>, second: Option<PeerId>)
    ensures first == Some(1) && second == Some(1)
  {
    var handler := TwoPeers();
    NamesDiffer();
    first := handler.OnStemReceived(2, Some(key), false, true, 0);
    OnlyPeer(handler, first.value, 1);
    second := handler.OnStemReceived(1, Some(key), false, true, 0);
    OnlyPeer(handler, second.value, 1);
  }

  lemma NamesDiffer()
    ensures Tally(1) != Tally(2)
  {
    assert |Tally(1)| == 2 && |Tally(2)| == 3;
  }

  lemma OnlyPeer(handler: Handler, p: PeerId, q: PeerId)
    requires handler.Valid() && p in handler.peers && handler.peers[p] == handler.name(q)
    ensures p == q
  {
  }

  lemma NamesEmpty(peers: map<PeerId, PeerName>)
    ensures Names(peers) == {} <==> peers.Keys == {}
  {
    if peers.Keys != {} {
      var p :| p in peers;
      assert peers[p] in Names(peers);
    }
  }

  /** Times do not go back. */
  predicate InOrder(start: nat, events: seq<Timed>)
    decreases events
  {
    events != [] ==> start <= events[0].at && InOrder(events[0].at, events[1..])
  }

  /** No event is more than `gap` after the tick before it. */
  predicate TicksWithin(lastTick: nat, events: seq<Timed>, gap: nat)
    decreases events
  {
    events != [] ==>
      && events[0].at <= lastTick + gap
      && TicksWithin(if events[0].event.Tick? then events[0].at else lastTick, events[1..], gap)
  }

  function EndTime(start: nat, events: seq<Timed>): nat
    decreases events
  {
    if events == [] then start else EndTime(events[0].at, events[1..])
  }
}

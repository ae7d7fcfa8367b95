/** Two devices run the whole handshake: it succeeds and both ends hold the same keys, crossed. */
module Exchange {
  import opened Bytes
  import opened Options
  import opened Transcript
  import opened IndexTables
  import opened Devices

  /** The two ends know each other's public keys and share the preshared key. */
  ghost predicate Facing(a: Device, pa: Peer, b: Device, pb: Peer)
    reads a, b, pa, pb
  {
    && a != b && a.known !! b.known && a.crypto == b.crypto
    && pa in a.known && pb in b.known
    && pa.handshake.remoteStatic == b.publicKey && pb.handshake.remoteStatic == a.publicKey
    && pa.handshake.presharedKey == pb.handshake.presharedKey
  }

  /** The random source gives a usable index. */
  ghost predicate Draws(d: Device, p: Peer, draws: seq<Draw>)
    reads d, p
  {
    var r := Settle(d.table - {p.handshake.localIndex}, draws);
    r.Drawn? && r.index != 0
  }

  /** The keypairs of the two ends match. */
  predicate Matching(ka: Keypair, kb: Keypair) {
    && ka.isInitiator && !kb.isInitiator
    && ka.send == kb.receive && ka.receive == kb.send
    && ka.localIndex == kb.remoteIndex && ka.remoteIndex == kb.localIndex
  }

  /** The responder's view of an initiation addressed to it. */
  lemma InitiationIsAcceptable(a: Device, pa: Peer, b: Device, pb: Peer, hs: Handshake, hs': Handshake,
                               eph: Octets, time: Octets, now: int, m: MessageInitiation)
    requires Facing(a, pa, b, pb) && Laws(a.crypto) && a.Keyed() && b.Keyed()
    requires hs.remoteStatic == b.publicKey && hs.precomputedStaticStatic == a.crypto.dh(a.privateKey, b.publicKey)
    requires a.Initiation(hs, hs', eph, time, m) && m.typ == MessageInitiationType
    requires pb.isRunning && After(time, pb.handshake.lastTimestamp)
    requires now - pb.handshake.lastInitiationConsumption > HandshakeInitiationRate
    ensures b.SenderOf(m) == Some(pb.handshake.remoteStatic)
    ensures b.TimeOf(m, pb.handshake.precomputedStaticStatic) == Some(time)
    ensures b.Acceptable(m, now)
    ensures var hb := b.Initiated(pb.handshake, m, now); hb.hash == hs'.hash && hb.chainKey == hs'.chainKey
  {
    var c := a.crypto;
    hide ReadStatic, ReadTime, SealedStatic, SealedTime, HashAfterFirst, Time, After, IsZero;
    FirstMessageIsRead(c, a.privateKey, b.privateKey, eph, time);
  }

  /** The initiator's view of the response to its own initiation. */
  lemma ResponseIsAccepted(a: Device, b: Device, ha: Handshake, hb: Handshake, hb': Handshake, e: Octets,
      e2: Octets, m: MessageResponse)
    requires a.crypto == b.crypto && Laws(a.crypto) && a.publicKey == a.crypto.public(a.privateKey)
    requires ha.phase == InitiationCreated && ha.localEphemeral == e
    requires ha.hash == hb.hash && ha.chainKey == hb.chainKey && ha.presharedKey == hb.presharedKey
    requires hb.remoteEphemeral == a.crypto.public(e) && hb.remoteStatic == a.publicKey
    requires b.Response(hb, hb', e2, m)
    ensures a.Answers(ha, m)
    ensures a.Completed(ha, m).chainKey == hb'.chainKey
    ensures a.Completed(ha, m) ==
      ha.(phase := ResponseConsumed, remoteIndex := m.sender, hash := a.Completed(ha, m).hash, chainKey := hb'.chainKey)
  {
    hide ReadEmpty, SealedEmpty, HashAfterSecond, Psk, IsZero;
    SecondMessageIsRead(a.crypto, a.privateKey, e, e2, ha.hash, ha.chainKey, ha.presharedKey);
  }

  lemma ResponderAnswers(b: Device, hb: Handshake, e: Octets, i: Octets, e2: Octets)
    requires Laws(b.crypto) && hb.remoteEphemeral == b.crypto.public(e) && hb.remoteStatic == b.crypto.public(i)
    ensures b.Answerable(hb, Some(e2))
  {
    hide IsZero;
  }

  lemma InitiatorReaches(a: Device, hs: Handshake, b: Octets, e: Octets)
    requires Laws(a.crypto) && hs.remoteStatic == a.crypto.public(b)
    requires hs.precomputedStaticStatic == a.crypto.dh(a.privateKey, hs.remoteStatic)
    ensures a.ReachesIndex(hs, Some(e))
  {
    hide IsZero;
  }

  /** Initiation and its consumption: both handshakes then hold the same hash and chain key. */
  method Initiate(a: Device, pa: Peer, b: Device, pb: Peer, typ: u32, e: Octets, time: Octets, now: int,
                  draws: seq<Draw>)
    requires Facing(a, pa, b, pb) && Laws(a.crypto) && Draws(a, pa, draws)
    requires pb.isRunning && After(time, pb.handshake.lastTimestamp)
    requires now - pb.handshake.lastInitiationConsumption > HandshakeInitiationRate
    requires a.Valid() && b.Valid()
    modifies a`table, pa`handshake, b.known`handshake
    ensures a.Valid() && b.Valid() && Facing(a, pa, b, pb)
    ensures var ha, hb := pa.handshake, pb.handshake;
      && ha.phase == InitiationCreated && hb.phase == InitiationConsumed
      && ha.hash == hb.hash && ha.chainKey == hb.chainKey
      && ha.localEphemeral == e && hb.remoteEphemeral == a.crypto.public(e)
      && hb.remoteIndex == ha.localIndex && hb.localIndex == old(pb.handshake.localIndex)
      && hb.lastTimestamp == time
  {
    hide Inv, Laws, Settle, After, Device.Initiation, Device.ReachesIndex, Device.PeersView, Device.AllConfirmed;
    InitiatorReaches(a, pa.handshake, b.privateKey, e);
    var msg := a.CreateMessageInitiation(pa, typ, Some(e), time, draws);
    var m := msg.value.(typ := MessageInitiationType);
    InitiationType(a, old(pa.handshake), pa.handshake, e, time, msg.value);
    InitiationIsAcceptable(a, pa, b, pb, old(pa.handshake), pa.handshake, e, time, now, m);
    var peer := b.ConsumeMessageInitiation(m, now);
  }

  lemma InitiationType(a: Device, hs: Handshake, hs': Handshake, e: Octets, time: Octets, m: MessageInitiation)
    requires a.Initiation(hs, hs', e, time, m)
    ensures a.Initiation(hs, hs', e, time, m.(typ := MessageInitiationType))
    ensures hs' ==
      hs.(phase := InitiationCreated, localIndex := m.sender, localEphemeral := e, hash := hs'.hash,
          chainKey := hs'.chainKey)
    ensures m.ephemeral == a.crypto.public(e)
  {
  }

  /** The handshakes of the two ends between the two messages. */
  ghost predicate Halfway(a: Device, pa: Peer, b: Device, pb: Peer, e: Octets)
    reads a, b, pa, pb
  {
    var ha, hb := pa.handshake, pb.handshake;
    && Facing(a, pa, b, pb)
    && ha.phase == InitiationCreated && hb.phase == InitiationConsumed
    && ha.hash == hb.hash && ha.chainKey == hb.chainKey
    && ha.localEphemeral == e && hb.remoteEphemeral == a.crypto.public(e)
    && hb.remoteIndex == ha.localIndex
  }

  /** The response and its consumption: both ends then hold the same chain key and each other's index. */
  method Respond(a: Device, pa: Peer, b: Device, pb: Peer, typ: u32, e: Octets, e2: Octets, draws: seq<Draw>)
    requires Halfway(a, pa, b, pb, e) && Laws(a.crypto) && Draws(b, pb, draws)
    requires a.Valid() && b.Valid()
    modifies b`table, pb`handshake, a.known`handshake
    ensures a.Valid() && b.Valid() && Facing(a, pa, b, pb)
    ensures var ha, hb := pa.handshake, pb.handshake;
      && ha.phase == ResponseConsumed && hb.phase == ResponseCreated
      && ha.chainKey == hb.chainKey
      && ha.remoteIndex == hb.localIndex && hb.remoteIndex == ha.localIndex
  {
    hide Inv, Laws, Settle, Device.Response, Device.Answerable, Device.Answers, Device.PeersView, Device.Consistent,
      Device.Completed;
    OwnKey(a);
    ResponderAnswers(b, pb.handshake, e, a.privateKey, e2);
    var msg := b.CreateMessageResponse(pb, typ, Some(e2), draws);
    var m := msg.value.(typ := MessageResponseType);
    ghost var hb := old(pb.handshake).(localIndex := msg.value.sender);
    ResponseType(b, old(pb.handshake), Settle(old(b.table) - {old(pb.handshake.localIndex)}, draws).index, pb.handshake,
                 e2, msg.value);
    ResponseIsAccepted(a, b, pa.handshake, hb, pb.handshake, e, e2, m);
    PendingEntry(a, pa);
    var peer := a.ConsumeMessageResponse(m);
  }

  lemma ResponseType(b: Device, hs: Handshake, index: u32, hs': Handshake, e2: Octets, m: MessageResponse)
    requires b.Response(hs.(localIndex := index), hs', e2, m)
    ensures m.sender == index && m.receiver == hs.remoteIndex
    ensures b.Response(hs.(localIndex := index), hs', e2, m.(typ := MessageResponseType))
    ensures hs' ==
      hs.(localIndex := index, phase := ResponseCreated, localEphemeral := e2, hash := hs'.hash,
          chainKey := hs'.chainKey)
  {
  }

  lemma OwnKey(a: Device)
    requires a.Valid()
    ensures a.publicKey == a.crypto.public(a.privateKey)
  {
  }

  /** A handshake that awaits a response is found at its index. */
  lemma PendingEntry(a: Device, pa: Peer)
    requires pa in a.known && pa.handshake.phase == InitiationCreated && a.Valid()
    ensures pa.handshake.localIndex in a.table && a.table[pa.handshake.localIndex] == ForHandshake(pa)
  {
    a.Views(pa);
    assert PeerOk(a.State(), pa);
  }

  /** Both ends derive their keypairs. */
  method Begins(a: Device, pa: Peer, b: Device, pb: Peer)
    requires Facing(a, pa, b, pb)
    requires pa.handshake.phase == ResponseConsumed && pb.handshake.phase == ResponseCreated
    requires pa.handshake.chainKey == pb.handshake.chainKey
    requires pa.handshake.remoteIndex == pb.handshake.localIndex && pb.handshake.remoteIndex == pa.handshake.localIndex
    requires a.Valid() && b.Valid()
    modifies a`table, pa, b`table, pb
    ensures a.Valid() && b.Valid() && Facing(a, pa, b, pb)
    ensures pa.current != null && pb.next != null && Matching(pa.current, pb.next)
    ensures fresh(pa.current) && pa.current.sendNonce == 0
    ensures fresh(pb.next.replayFilter) && fresh(pb.next.replayFilter.ring)
    ensures pb.next.replayFilter.Valid() && pb.next.replayFilter.accepted == {}
  {
    hide Inv, Device.PeersView, Device.Consistent, Kdf2;
    var okB := b.BeginSymmetricSession(pb);
    var okA := a.BeginSymmetricSession(pa);
    a.Views(pa);
    b.Views(pb);
  }

  /** A first packet, sealed under the initiator's key and opened under the responder's, confirms the responder's. */
  method Confirms(a: Device, pa: Peer, b: Device, pb: Peer, packet: Octets, padding: nat) returns (got: Option<Octets>)
    requires Facing(a, pa, b, pb) && Laws(a.crypto)
    requires pa.current != null && pb.next != null && Matching(pa.current, pb.next) && pa.current.sendNonce == 0
    requires pb.next.replayFilter.Valid() && pb.next.replayFilter.accepted == {}
    requires a.Valid() && b.Valid()
    modifies pa.current`sendNonce, b`table, pb, pb.next.replayFilter, pb.next.replayFilter.ring
    ensures a.Valid() && b.Valid()
    ensures got == Some(Padded(packet, padding))
    ensures pb.current == old(pb.next) && pb.next == null && pb.current in pb.confirmed
  {
    hide Inv, Laws, Device.PeersView, Device.Consistent;
    var msg := a.SealPacket(pa.current, packet, padding);
    b.Views(pb);
    SlotFacts(b.State(), pb);
    var peer, keypair := b.LookupKeypair(msg.value.receiver);
    assert peer == pb && keypair == pb.next;
    OpensAgain(a.crypto, keypair.receive, msg.value.counter, Padded(packet, padding));
    got := b.Receive(peer, keypair, msg.value);
    b.Views(pb);
  }

  lemma OpensAgain(c: Crypto, key: Octets, nonce: u64, packet: Octets)
    requires Laws(c)
    ensures c.open(key, nonce, c.seal(key, nonce, packet, []), []) == Some(packet)
  {
  }

  /**
   The whole exchange, from any valid states of the two devices, followed by the initiator's first packet: the packet
   arrives, the keypairs match, each index leads to its keypair, and both ends then send under them.
   */
  method Handshakes(a: Device, pa: Peer, b: Device, pb: Peer, typ1: u32, typ2: u32, e: Octets, e2: Octets,
                    time: Octets, now: int, draws1: seq<Draw>, draws2: seq<Draw>, packet: Octets, padding: nat)
    returns (got: Option<Octets>)
    requires Facing(a, pa, b, pb) && Laws(a.crypto) && Draws(a, pa, draws1) && Draws(b, pb, draws2)
    requires pb.isRunning && After(time, pb.handshake.lastTimestamp)
    requires now - pb.handshake.lastInitiationConsumption > HandshakeInitiationRate
    requires a.Valid() && b.Valid()
    modifies a`table, a.known, b`table, b.known
    ensures a.Valid() && b.Valid()
    ensures got == Some(Padded(packet, padding))
    ensures pa.current != null && pb.current != null && Matching(pa.current, pb.current) && pb.current in pb.confirmed
    ensures var ka, kb := pa.current, pb.current;
      && ka.localIndex in a.table && a.table[ka.localIndex] == ForKeypair(pa, ka)
      && kb.localIndex in b.table && b.table[kb.localIndex] == ForKeypair(pb, kb)
  {
    hide Inv, Laws, After, Settle, Device.PeersView, Device.AllConfirmed, Device.Keyed;
    Initiate(a, pa, b, pb, typ1, e, time, now, draws1);
    Respond(a, pa, b, pb, typ2, e, e2, draws2);
    Begins(a, pa, b, pb);
    got := Confirms(a, pa, b, pb, packet, padding);
    var ka := a.Current(pa);
    var kb := b.Current(pb);
  }
}

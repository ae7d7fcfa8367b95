/** The device's side of the handshake: every method is one atomic step on the peers and the index table. */
module Devices {
  import opened Bytes
  import opened Options
  import opened Transcript
  import opened IndexTables
  import Nonces
  import Replay

  const MaxPeers := 0x1_0000
  const MessageInitiationType: u32 := 1
  const MessageResponseType: u32 := 2
  const HandshakeInitiationRate := 20_000_000

  datatype MessageInitiation = MessageInitiation(typ: u32, sender: u32, ephemeral: Octets, sealedStatic: Octets,
                                                 sealedTime: Octets)

  datatype MessageResponse = MessageResponse(typ: u32, sender: u32, receiver: u32, ephemeral: Octets, empty: Octets)

  datatype MessageTransport = MessageTransport(receiver: u32, counter: u64, content: Octets)

  function Padded(packet: Octets, padding: nat): Octets {
    packet + seq(padding, _ => 0)
  }

  /** One attempt to draw an index; a failed read of the random source still leaves some value. */
  datatype Draw = Drawn(index: u32) | Failed(index: u32)

  /** The draw the retry loop ends with: the first that is free or failed. */
  function Settle(table: map<u32, Entry>, draws: seq<Draw>): (r: Draw)
    ensures r.Drawn? ==> r.index !in table && r in draws
  {
    if draws == [] then Failed(0)
    else if draws[0].Drawn? && draws[0].index in table then Settle(table, draws[1..])
    else draws[0]
  }

  /** A keypair a peer sends under is its own or has been confirmed; next holds only responder keypairs. */
  ghost predicate ConfirmedOk(p: Peer)
    reads p`current, p`next, p`confirmed
  {
    && (p.current != null ==> p.current.isInitiator || p.current in p.confirmed)
    && (p.next != null ==> !p.next.isInitiator)
  }

  ghost function ViewOf(p: Peer): PeerView
    reads p
  {
    PeerView(p.handshake.phase, p.handshake.localIndex, p.current, p.previous, p.next)
  }

  class Device {
    const crypto: Crypto
    const privateKey: Octets
    const publicKey: Octets
    var peers: map<Octets, Peer>
    var table: map<u32, Entry>
    /** The peers of the key map, as a set. */
    ghost var known: set<Peer>

    ghost function PeersView(): map<Peer, PeerView>
      reads this`known, known
    {
      map p | p in known :: ViewOf(p)
    }

    ghost function State(): View
      reads this, known
    {
      View(PeersView(), table)
    }

    lemma Views(peer: Peer)
      ensures peer in known ==> peer in PeersView() && PeersView()[peer] == ViewOf(peer)
      ensures PeersView().Keys == known
    {
    }

    ghost predicate Keyed()
      reads this`peers, this`known, known`handshake
    {
      && publicKey == crypto.public(privateKey)
      && (forall k :: k in peers ==> peers[k] in known && peers[k].handshake.remoteStatic == k)
      && forall p :: p in known ==>
        && p.handshake.remoteStatic in peers && peers[p.handshake.remoteStatic] == p
        && p.handshake.precomputedStaticStatic == crypto.dh(privateKey, p.handshake.remoteStatic)
    }

    ghost predicate AllConfirmed()
      reads this`known, known`current, known`next, known`confirmed
    {
      forall p :: p in known ==> ConfirmedOk(p)
    }

    ghost predicate Consistent()
      reads this`peers, this`known, known`handshake, known`current, known`next, known`confirmed
    {
      Keyed() && AllConfirmed()
    }

    ghost predicate Valid()
      reads this, known
    {
      Consistent() && Inv(State())
    }

    constructor (crypto: Crypto, privateKey: Octets)
      ensures Valid() && peers == map[] && table == map[]
      ensures this.crypto == crypto && this.privateKey == privateKey
    {
      this.crypto, this.privateKey, publicKey := crypto, privateKey, crypto.public(privateKey);
      peers, table, known := map[], map[], {};
    }

    /** Any change confined to one peer's handshake, as the view sees it. */
    method SetHandshake(peer: Peer, hs: Handshake)
      requires Consistent() && peer in known
      requires hs.remoteStatic == peer.handshake.remoteStatic
      requires hs.precomputedStaticStatic == peer.handshake.precomputedStaticStatic
      modifies peer`handshake
      ensures Consistent() && peer.handshake == hs
      ensures State() == Seen(old(State()), peer, old(ViewOf(peer)).(phase := hs.phase, localIndex := hs.localIndex))
    {
      hide AllConfirmed;
      peer.handshake := hs;
      assert PeersView() ==
        Seen(old(State()), peer, old(ViewOf(peer)).(phase := hs.phase, localIndex := hs.localIndex)).peers;
    }

    method SetSlots(peer: Peer, current: Keypair?, previous: Keypair?, next: Keypair?)
      requires Consistent() && peer in known
      requires current != null ==> current.isInitiator || current in peer.confirmed
      requires next != null ==> !next.isInitiator
      modifies peer`current, peer`previous, peer`next
      ensures Consistent() && peer.current == current && peer.previous == previous && peer.next == next
      ensures State() ==
        Seen(old(State()), peer, old(ViewOf(peer)).(current := current, previous := previous, next := next))
    {
      hide Keyed;
      peer.current, peer.previous, peer.next := current, previous, next;
      forall p | p in known ensures ConfirmedOk(p) {
        assert old(ConfirmedOk(p));
      }
      assert PeersView() ==
        Seen(old(State()), peer, old(ViewOf(peer)).(current := current, previous := previous, next := next)).peers;
    }

    method Enter(pk: Octets, peer: Peer)
      requires pk !in peers && peer !in known && Consistent()
      requires peer.handshake.remoteStatic == pk && peer.handshake.precomputedStaticStatic == crypto.dh(privateKey, pk)
      requires ViewOf(peer) == PeerView(Zeroed, 0, null, null, null)
      modifies this`peers, this`known
      ensures Consistent() && peers == old(peers)[pk := peer] && known == old(known) + {peer}
      ensures State() == Seen(old(State()), peer, PeerView(Zeroed, 0, null, null, null))
    {
      peers := peers[pk := peer];
      known := known + {peer};
      assert AllConfirmed();
      assert PeersView() == old(PeersView())[peer := PeerView(Zeroed, 0, null, null, null)];
    }

    method NewPeer(pk: Octets, psk: Octets) returns (peer: Peer?)
      requires Valid()
      modifies this`peers, this`known
      ensures Valid() && table == old(table)
      ensures peer != null <==> |old(peers)| < MaxPeers && pk !in old(peers)
      ensures peer == null ==> peers == old(peers)
      ensures peer != null ==> fresh(peer) && peers == old(peers)[pk := peer] && peer.handshake.presharedKey == psk
    {
      hide Inv, Keyed, AllConfirmed, PeersView;
      if |peers| >= MaxPeers { return null; }
      if pk in peers { return null; }
      peer := new Peer(pk, crypto.dh(privateKey, pk), psk);
      Views(peer);
      Enter(pk, peer);
      assert peer !in old(known);
      NewcomerKeeps(old(State()), peer);
    }

    /* The index table. */

    method Delete(index: u32)
      requires Consistent()
      modifies this`table
      ensures Consistent() && State() == old(State()).(table := old(table) - {index})
    {
      hide Keyed, AllConfirmed, PeersView;
      table := table - {index};
    }

    method DeleteKeypair(key: Keypair?)
      requires Consistent()
      modifies this`table
      ensures Consistent() && State() == old(State()).(table := Without(old(table), key))
    {
      hide Keyed, AllConfirmed, PeersView;
      if key != null { Delete(key.localIndex); }
    }

    method SwapIndexForKeypair(index: u32, keypair: Keypair)
      requires Consistent()
      modifies this`table
      ensures Consistent() && State() == old(State()).(table :=
        if index in old(table) then old(table)[index := ForKeypair(old(table)[index].peer, keypair)] else old(table))
    {
      hide Keyed, AllConfirmed, PeersView;
      if index !in table { return; }
      table := table[index := ForKeypair(table[index].peer, keypair)];
    }

    method NewIndexForHandshake(peer: Peer, draws: seq<Draw>) returns (index: u32, ok: bool)
      requires Consistent()
      modifies this`table
      ensures Consistent()
      ensures var d := Settle(old(table), draws);
        && index == d.index && ok == d.Drawn?
        && State() == if ok then old(State()).(table := old(table)[index := ForHandshake(peer)]) else old(State())
    {
      hide Keyed, AllConfirmed, PeersView;
      var i := 0;
      while i < |draws|
        invariant 0 <= i <= |draws| && table == old(table) && Consistent() && PeersView() == old(PeersView())
        invariant Settle(table, draws) == Settle(table, draws[i..])
      {
        if draws[i].Failed? { return draws[i].index, false; }
        index := draws[i].index;
        if index !in table {
          table := table[index := ForHandshake(peer)];
          return index, true;
        }
        i := i + 1;
      }
      return 0, false;
    }

    /* The first message. */

    /** Whether an initiation from this handshake gets as far as asking for an index. */
    predicate ReachesIndex(hs: Handshake, eph: Option<Octets>) {
      && eph.Some? && SharedSecret(crypto, eph.value, hs.remoteStatic).Some?
      && !IsZero(hs.precomputedStaticStatic)
    }

    /** The fields of an initiation and the handshake it leaves, but for the index. */
    ghost predicate Initiation(hs0: Handshake, hs: Handshake, eph: Octets, time: Octets, m: MessageInitiation) {
      var es, ss := crypto.dh(eph, hs0.remoteStatic), hs0.precomputedStaticStatic;
      && m.ephemeral == crypto.public(eph)
      && m.sealedStatic == SealedStatic(crypto, hs0.remoteStatic, m.ephemeral, es, publicKey)
      && m.sealedTime == SealedTime(crypto, hs0.remoteStatic, m.ephemeral, es, ss, m.sealedStatic, time)
      && hs == hs0.(phase := InitiationCreated, localIndex := m.sender, localEphemeral := eph,
                    hash := HashAfterFirst(crypto, hs0.remoteStatic, m.ephemeral, m.sealedStatic, m.sealedTime),
                    chainKey := Time(crypto, m.ephemeral, es, ss).0)
    }

    /** The key schedule of CreateMessageInitiation, up to the index. */
    method MixInitiation(hs0: Handshake, typ: u32, eph: Option<Octets>, time: Octets)
      returns (ok: bool, hs: Handshake, m: MessageInitiation)
      ensures hs == hs0.(hash := hs.hash, chainKey := hs.chainKey, localEphemeral := hs.localEphemeral)
      ensures m.typ == typ && (ok <==> ReachesIndex(hs0, eph))
      ensures ok ==> forall i: u32 ::
        Initiation(hs0,
                   hs.(phase := InitiationCreated, localIndex := i, hash := MixHash(crypto, hs.hash, m.sealedTime)),
                   eph.value, time, m.(sender := i))
    {
      m := MessageInitiation(typ, 0, [], [], []);
      hs := hs0.(hash := InitialHash(crypto), chainKey := InitialChainKey(crypto),
                 localEphemeral := if eph.Some? then eph.value else []);
      if eph.None? { return false, hs, m; }
      hs := hs.(hash := MixHash(crypto, hs.hash, hs.remoteStatic));
      var e := crypto.public(hs.localEphemeral);
      hs := hs.(chainKey := Kdf1(crypto, hs.chainKey, e));
      hs := hs.(hash := MixHash(crypto, hs.hash, e));
      var es := SharedSecret(crypto, hs.localEphemeral, hs.remoteStatic);
      if es.None? { return false, hs, m; }
      var (ck, key) := Kdf2(crypto, hs.chainKey, es.value);
      var sealedStatic := crypto.seal(key, 0, publicKey, hs.hash);
      hs := hs.(chainKey := ck, hash := MixHash(crypto, hs.hash, sealedStatic));
      if IsZero(hs.precomputedStaticStatic) { return false, hs, m; }
      var (ck2, key2) := Kdf2(crypto, hs.chainKey, hs.precomputedStaticStatic);
      var sealedTime := crypto.seal(key2, 0, time, hs.hash);
      hs := hs.(chainKey := ck2);
      return true, hs, MessageInitiation(typ, 0, e, sealedStatic, sealedTime);
    }

    method CreateMessageInitiation(peer: Peer, typ: u32, eph: Option<Octets>, time: Octets, draws: seq<Draw>)
      returns (msg: Option<MessageInitiation>)
      requires peer in known && Valid()
      modifies this`table, peer`handshake
      ensures Consistent()
      ensures var hs := old(peer.handshake); var d := Settle(old(table) - {hs.localIndex}, draws);
        && (msg.Some? <==> ReachesIndex(hs, eph) && d.Drawn?)
        && State() == (if !ReachesIndex(hs, eph) then old(State())
                       else if d.Drawn? then SetPhase(Assign(old(State()), peer, d.index), peer, InitiationCreated)
                       else Lose(old(State()), peer, hs.localIndex))
        && (Valid() <==> !ReachesIndex(hs, eph) || (if d.Drawn? then d.index != 0 else hs.localIndex == 0))
        && (msg.Some? ==>
            && msg.value.typ == typ && msg.value.sender == d.index
            && Initiation(hs, peer.handshake, eph.value, time, msg.value))
    {
      hide Inv, Consistent, PeersView, Initiation, ReachesIndex, Settle, MixHash;
      Views(peer);
      ghost var hs0 := peer.handshake;
      var ok, hs, m := MixInitiation(peer.handshake, typ, eph, time);
      SetHandshake(peer, hs);
      SeenSame(old(State()), peer);
      if !ok { return None; }
      Delete(hs.localIndex);
      var index;
      index, ok := NewIndexForHandshake(peer, draws);
      if !ok {
        LoseKeeps(old(State()), peer, hs.localIndex);
        PendingIndex(old(State()), peer);
        assert State() == Lose(old(State()), peer, hs.localIndex);
        return None;
      }
      AssignPhaseKeeps(old(State()), peer, index, InitiationCreated);
      SetHandshake(peer,
        hs.(localIndex := index, hash := MixHash(crypto, hs.hash, m.sealedTime), phase := InitiationCreated));
      assert State() == SetPhase(Assign(old(State()), peer, index), peer, InitiationCreated);
      return Some(m.(sender := index));
    }

    /* Reading the first message. */

    /** The secret the message's ephemeral key shares with the device, and who it names as sender. */
    function SenderOf(msg: MessageInitiation): Option<Octets> {
      var es := SharedSecret(crypto, privateKey, msg.ephemeral);
      if es.None? then None else ReadStatic(crypto, publicKey, msg.ephemeral, es.value, msg.sealedStatic)
    }

    function TimeOf(msg: MessageInitiation, staticStatic: Octets): Option<Octets> {
      ReadTime(crypto, publicKey, msg.ephemeral, crypto.dh(privateKey, msg.ephemeral), staticStatic, msg.sealedStatic,
               msg.sealedTime)
    }

    /** The message names a running peer, and is neither replayed nor too soon after the last one. */
    ghost predicate Acceptable(msg: MessageInitiation, now: int)
      requires Keyed()
      reads this`peers, this`known, known
    {
      && msg.typ == MessageInitiationType
      && SenderOf(msg).Some? && SenderOf(msg).value in peers
      && var peer := peers[SenderOf(msg).value];
      && peer.isRunning
      && Timely(peer.handshake, msg, now)
    }

    predicate Timely(hs: Handshake, msg: MessageInitiation, now: int) {
      && !IsZero(hs.precomputedStaticStatic)
      && TimeOf(msg, hs.precomputedStaticStatic).Some?
      && After(TimeOf(msg, hs.precomputedStaticStatic).value, hs.lastTimestamp)
      && now - hs.lastInitiationConsumption > HandshakeInitiationRate
    }

    /** The handshake after an accepted initiation. */
    ghost function Initiated(hs: Handshake, msg: MessageInitiation, now: int): Handshake
      requires TimeOf(msg, hs.precomputedStaticStatic).Some?
    {
      hs.(phase := InitiationConsumed, remoteIndex := msg.sender, remoteEphemeral := msg.ephemeral,
          hash := HashAfterFirst(crypto, publicKey, msg.ephemeral, msg.sealedStatic, msg.sealedTime),
          chainKey := Time(crypto, msg.ephemeral, crypto.dh(privateKey, msg.ephemeral), hs.precomputedStaticStatic).0,
          lastTimestamp := TimeOf(msg, hs.precomputedStaticStatic).value, lastInitiationConsumption := now)
    }

    /** The part of ConsumeMessageInitiation before the peer is known. */
    method OpenStatic(msg: MessageInitiation) returns (pk: Option<Octets>, hash: Octets, chainKey: Octets)
      ensures pk == SenderOf(msg)
      ensures pk.Some? ==>
        && hash == MixHash(crypto, Hash1(crypto, publicKey, msg.ephemeral), msg.sealedStatic)
        && chainKey == Static(crypto, msg.ephemeral, crypto.dh(privateKey, msg.ephemeral)).0
    {
      hash := MixHash(crypto, InitialHash(crypto), publicKey);
      hash := MixHash(crypto, hash, msg.ephemeral);
      chainKey := Kdf1(crypto, InitialChainKey(crypto), msg.ephemeral);
      var ss := SharedSecret(crypto, privateKey, msg.ephemeral);
      if ss.None? { return None, hash, chainKey; }
      var (ck, key) := Kdf2(crypto, chainKey, ss.value);
      chainKey := ck;
      pk := crypto.open(key, 0, msg.sealedStatic, hash);
      if pk.None? { return; }
      hash := MixHash(crypto, hash, msg.sealedStatic);
    }

    /** The part after it: the handshake's next value, if the message is acceptable to it. */
    method OpenTime(hs: Handshake, msg: MessageInitiation, hash0: Octets, chainKey0: Octets,
        now: int) returns (r: Option<Handshake>)
      requires hash0 == MixHash(crypto, Hash1(crypto, publicKey, msg.ephemeral), msg.sealedStatic)
      requires chainKey0 == Static(crypto, msg.ephemeral, crypto.dh(privateKey, msg.ephemeral)).0
      ensures r.Some? <==> Timely(hs, msg, now)
      ensures r.Some? ==> r.value == Initiated(hs, msg, now)
    {
      if IsZero(hs.precomputedStaticStatic) { return None; }
      var (chainKey, key) := Kdf2(crypto, chainKey0, hs.precomputedStaticStatic);
      var timestamp := crypto.open(key, 0, msg.sealedTime, hash0);
      if timestamp.None? { return None; }
      var hash := MixHash(crypto, hash0, msg.sealedTime);
      var replay := !After(timestamp.value, hs.lastTimestamp);
      var flood := now - hs.lastInitiationConsumption <= HandshakeInitiationRate;
      if replay { return None; }
      if flood { return None; }
      var hs' := hs.(hash := hash, chainKey := chainKey, remoteIndex := msg.sender, remoteEphemeral := msg.ephemeral);
      if After(timestamp.value, hs'.lastTimestamp) { hs' := hs'.(lastTimestamp := timestamp.value); }
      if now > hs'.lastInitiationConsumption { hs' := hs'.(lastInitiationConsumption := now); }
      return Some(hs'.(phase := InitiationConsumed));
    }

    method ConsumeMessageInitiation(msg: MessageInitiation, now: int) returns (peer: Peer?)
      requires Valid()
      modifies known`handshake
      ensures Valid()
      ensures peer != null <==> old(Acceptable(msg, now))
      ensures forall p :: p in known && p != peer ==> p.handshake == old(p.handshake)
      ensures peer == null ==> State() == old(State())
      ensures peer != null ==>
        && peer in known && SenderOf(msg) == Some(peer.handshake.remoteStatic)
        && TimeOf(msg, old(peer.handshake.precomputedStaticStatic)).Some?
        && peer.handshake == Initiated(old(peer.handshake), msg, now)
        && State() == SetPhase(old(State()), peer, InitiationConsumed)
    {
      hide Inv, AllConfirmed, PeersView, SenderOf, TimeOf, Timely;
      if msg.typ != MessageInitiationType { return null; }
      var pk, hash, chainKey := OpenStatic(msg);
      if pk.None? { return null; }
      if pk.value !in peers { return null; }
      peer := peers[pk.value];
      if !peer.isRunning { return null; }
      var hs := OpenTime(peer.handshake, msg, hash, chainKey, now);
      if hs.None? { return null; }
      Views(peer);
      SetPhaseKeeps(old(State()), peer, InitiationConsumed);
      TimelyTime(peer.handshake, msg, now);
      SetHandshake(peer, hs.value);
    }

    lemma TimelyTime(hs: Handshake, msg: MessageInitiation, now: int)
      requires Timely(hs, msg, now)
      ensures TimeOf(msg, hs.precomputedStaticStatic).Some?
    {
    }

    /* The second message. */

    /** The secrets of the second message, as the responder computes them, are usable. */
    predicate Answerable(hs: Handshake, eph: Option<Octets>) {
      && eph.Some? && SharedSecret(crypto, eph.value, hs.remoteEphemeral).Some?
      && SharedSecret(crypto, eph.value, hs.remoteStatic).Some?
    }

    /** The fields of a response and the handshake it leaves, from the handshake with its new index. */
    ghost predicate Response(hs0: Handshake, hs: Handshake, eph: Octets, m: MessageResponse) {
      var ee, se := crypto.dh(eph, hs0.remoteEphemeral), crypto.dh(eph, hs0.remoteStatic);
      && m.sender == hs0.localIndex && m.receiver == hs0.remoteIndex && m.ephemeral == crypto.public(eph)
      && m.empty == SealedEmpty(crypto, hs0.hash, hs0.chainKey, m.ephemeral, ee, se, hs0.presharedKey)
      && hs == hs0.(phase := ResponseCreated, localEphemeral := eph,
                    hash := HashAfterSecond(crypto, hs0.hash, hs0.chainKey, m.ephemeral, ee, se, hs0.presharedKey,
                                            m.empty),
                    chainKey := Psk(crypto, hs0.chainKey, m.ephemeral, ee, se, hs0.presharedKey).0)
    }

    /** The key schedule of CreateMessageResponse, after the index. */
    method MixResponse(hs0: Handshake, typ: u32, eph: Option<Octets>)
      returns (ok: bool, hs: Handshake, m: MessageResponse)
      ensures m.typ == typ && (ok <==> Answerable(hs0, eph))
      ensures !ok ==> hs == hs0.(hash := hs.hash, chainKey := hs.chainKey, localEphemeral := hs.localEphemeral)
      ensures ok ==> Response(hs0, hs, eph.value, m)
    {
      m := MessageResponse(typ, hs0.localIndex, hs0.remoteIndex, [], []);
      hs := hs0.(localEphemeral := if eph.Some? then eph.value else []);
      if eph.None? { return false, hs, m; }
      m := m.(ephemeral := crypto.public(hs.localEphemeral));
      hs := hs.(hash := MixHash(crypto, hs.hash, m.ephemeral));
      hs := hs.(chainKey := Kdf1(crypto, hs.chainKey, m.ephemeral));
      var ss := SharedSecret(crypto, hs.localEphemeral, hs.remoteEphemeral);
      if ss.None? { return false, hs, m; }
      hs := hs.(chainKey := Kdf1(crypto, hs.chainKey, ss.value));
      ss := SharedSecret(crypto, hs.localEphemeral, hs.remoteStatic);
      if ss.None? { return false, hs, m; }
      hs := hs.(chainKey := Kdf1(crypto, hs.chainKey, ss.value));
      var (ck, tau, key) := Kdf3(crypto, hs.chainKey, hs.presharedKey);
      hs := hs.(chainKey := ck, hash := MixHash(crypto, hs.hash, tau));
      m := m.(empty := crypto.seal(key, 0, [], hs.hash));
      hs := hs.(hash := MixHash(crypto, hs.hash, m.empty), phase := ResponseCreated);
      return true, hs, m;
    }

    method CreateMessageResponse(peer: Peer, typ: u32, eph: Option<Octets>, draws: seq<Draw>)
      returns (msg: Option<MessageResponse>)
      requires peer in known && Valid()
      modifies this`table, peer`handshake
      ensures Consistent()
      ensures var hs := old(peer.handshake); var d := Settle(old(table) - {hs.localIndex}, draws);
        && (msg.Some? <==> hs.phase == InitiationConsumed && d.Drawn? && Answerable(hs, eph))
        && State() == (if hs.phase != InitiationConsumed then old(State())
                       else if d.Failed? then Lose(old(State()), peer, d.index)
                       else if msg.Some? then SetPhase(Assign(old(State()), peer, d.index), peer, ResponseCreated)
                       else Assign(old(State()), peer, d.index))
        && (Valid() <==> hs.phase != InitiationConsumed || (d.Drawn? <==> d.index != 0))
        && (msg.Some? ==>
          msg.value.typ == typ && Response(hs.(localIndex := d.index), peer.handshake, eph.value, msg.value))
    {
      hide Inv, Consistent, PeersView, Response, Answerable, Settle;
      Views(peer);
      if peer.handshake.phase != InitiationConsumed { return None; }
      Delete(peer.handshake.localIndex);
      var index, ok := NewIndexForHandshake(peer, draws);
      var hs := peer.handshake.(localIndex := index);
      SetHandshake(peer, hs);
      if !ok {
        LoseKeeps(old(State()), peer, index);
        assert State() == Lose(old(State()), peer, index);
        return None;
      }
      assert State() == Assign(old(State()), peer, index);
      AssignKeeps(old(State()), peer, index);
      AssignPhaseKeeps(old(State()), peer, index, ResponseCreated);
      AnswerableIndex(old(peer.handshake), index, eph);
      var m;
      ok, hs, m := MixResponse(hs, typ, eph);
      ResponseKeeps(peer.handshake, hs, eph, m);
      SetHandshake(peer, hs);
      if !ok {
        SeenSame(Assign(old(State()), peer, index), peer);
        return None;
      }
      assert State() == SetPhase(Assign(old(State()), peer, index), peer, ResponseCreated);
      return Some(m);
    }

    lemma AnswerableIndex(hs: Handshake, index: u32, eph: Option<Octets>)
      ensures Answerable(hs.(localIndex := index), eph) <==> Answerable(hs, eph)
    {
    }

    lemma ResponseKeeps(hs0: Handshake, hs: Handshake, eph: Option<Octets>, m: MessageResponse)
      ensures eph.Some? && Response(hs0, hs, eph.value, m) ==>
        hs.localIndex == hs0.localIndex && hs.phase == ResponseCreated && hs.remoteStatic == hs0.remoteStatic
        && hs.precomputedStaticStatic == hs0.precomputedStaticStatic
    {
    }

    /* Reading the second message. */

    /** The response authenticates against the handshake that awaits it. */
    predicate Answers(hs: Handshake, msg: MessageResponse) {
      var ee := SharedSecret(crypto, hs.localEphemeral, msg.ephemeral);
      var se := SharedSecret(crypto, privateKey, msg.ephemeral);
      && hs.phase == InitiationCreated && ee.Some? && se.Some?
      && ReadEmpty(crypto, hs.hash, hs.chainKey, msg.ephemeral, ee.value, se.value, hs.presharedKey, msg.empty).Some?
    }

    ghost function Completed(hs: Handshake, msg: MessageResponse): Handshake {
      var ee, se := crypto.dh(hs.localEphemeral, msg.ephemeral), crypto.dh(privateKey, msg.ephemeral);
      hs.(phase := ResponseConsumed, remoteIndex := msg.sender,
          hash := HashAfterSecond(crypto, hs.hash, hs.chainKey, msg.ephemeral, ee, se, hs.presharedKey, msg.empty),
          chainKey := Psk(crypto, hs.chainKey, msg.ephemeral, ee, se, hs.presharedKey).0)
    }

    method OpenEmpty(hs: Handshake, msg: MessageResponse) returns (r: Option<Handshake>)
      ensures r.Some? <==> Answers(hs, msg)
      ensures r.Some? ==> r.value == Completed(hs, msg)
    {
      if hs.phase != InitiationCreated { return None; }
      var hash := MixHash(crypto, hs.hash, msg.ephemeral);
      var chainKey := Kdf1(crypto, hs.chainKey, msg.ephemeral);
      var ss := SharedSecret(crypto, hs.localEphemeral, msg.ephemeral);
      if ss.None? { return None; }
      chainKey := Kdf1(crypto, chainKey, ss.value);
      ss := SharedSecret(crypto, privateKey, msg.ephemeral);
      if ss.None? { return None; }
      chainKey := Kdf1(crypto, chainKey, ss.value);
      var (ck, tau, key) := Kdf3(crypto, chainKey, hs.presharedKey);
      hash := MixHash(crypto, hash, tau);
      if crypto.open(key, 0, msg.empty, hash).None? { return None; }
      hash := MixHash(crypto, hash, msg.empty);
      return Some(hs.(hash := hash, chainKey := ck, remoteIndex := msg.sender, phase := ResponseConsumed));
    }

    method ConsumeMessageResponse(msg: MessageResponse) returns (peer: Peer?)
      requires Valid()
      modifies known`handshake
      ensures Valid()
      ensures peer != null <==>
        msg.typ == MessageResponseType && msg.receiver in table && table[msg.receiver].ForHandshake?
                                && old(Answers(table[msg.receiver].peer.handshake, msg))
      ensures forall p :: p in known && p != peer ==> p.handshake == old(p.handshake)
      ensures peer == null ==> State() == old(State())
      ensures peer != null ==>
        && peer in known && table[msg.receiver].peer == peer && old(peer.handshake.localIndex) == msg.receiver
        && peer.handshake == Completed(old(peer.handshake), msg)
        && State() == SetPhase(old(State()), peer, ResponseConsumed)
    {
      hide Inv, Keyed, AllConfirmed, PeersView, Answers;
      if msg.typ != MessageResponseType { return null; }
      if msg.receiver !in table || !table[msg.receiver].ForHandshake? { return null; }
      EntryFacts(State(), msg.receiver);
      peer := table[msg.receiver].peer;
      Views(peer);
      var hs := OpenEmpty(peer.handshake, msg);
      if hs.None? { return null; }
      SetPhaseKeeps(old(State()), peer, ResponseConsumed);
      SetHandshake(peer, hs.value);
    }

    /* Keypairs. */

    /** The sending and receiving keys of each end. */
    function SessionKeys(chainKey: Octets, initiator: bool): (Octets, Octets) {
      var (t0, t1) := Kdf2(crypto, chainKey, []);
      if initiator then (t0, t1) else (t1, t0)
    }

    method BeginSymmetricSession(peer: Peer) returns (ok: bool)
      requires peer in known && Valid()
      modifies this`table, peer`handshake, peer`current, peer`previous, peer`next
      ensures Valid()
      ensures ok <==> old(peer.handshake.phase) == ResponseConsumed || old(peer.handshake.phase) == ResponseCreated
      ensures !ok ==> State() == old(State()) && peer.handshake == old(peer.handshake)
      ensures ok ==>
        var initiator := old(peer.handshake.phase) == ResponseConsumed;
        var k := if initiator then peer.current else peer.next;
        && k != null && fresh(k) && k.isInitiator == initiator && k.sendNonce == 0
        && (k.send, k.receive) == SessionKeys(old(peer.handshake.chainKey), initiator)
        && k.localIndex == old(peer.handshake.localIndex) && k.remoteIndex == old(peer.handshake.remoteIndex)
        && fresh(k.replayFilter) && fresh(k.replayFilter.ring)
        && k.replayFilter.Valid() && k.replayFilter.accepted == {}
        && State() == Begin(old(State()), peer, k)
        && peer.handshake ==
          old(peer.handshake).(phase := Zeroed, localIndex := 0, hash := [], chainKey := [], localEphemeral := [])
    {
      hide Inv, Consistent, PeersView;
      Views(peer);
      var hs := peer.handshake;
      var isInitiator: bool, sendKey: Octets, recvKey: Octets;
      if hs.phase == ResponseConsumed {
        var (t0, t1) := Kdf2(crypto, hs.chainKey, []);
        sendKey, recvKey, isInitiator := t0, t1, true;
      } else if hs.phase == ResponseCreated {
        var (t0, t1) := Kdf2(crypto, hs.chainKey, []);
        recvKey, sendKey, isInitiator := t0, t1, false;
      } else {
        return false;
      }
      PendingIndex(State(), peer);
      var keypair := new Keypair(sendKey, recvKey, isInitiator, hs.localIndex, hs.remoteIndex);
      BeginKeeps(old(State()), peer, keypair);
      SwapIndexForKeypair(hs.localIndex, keypair);
      SetHandshake(peer, hs.(phase := Zeroed, hash := [], chainKey := [], localEphemeral := [], localIndex := 0));
      var previous, next, current := peer.previous, peer.next, peer.current;
      SlotsConfirmed(peer);
      ghost var mid := PeerView(Zeroed, 0, current, previous, next);
      SeenTwice(old(PeersView()), peer, mid, PeerView(Zeroed, 0, keypair, next, null));
      SeenTwice(old(PeersView()), peer, mid, PeerView(Zeroed, 0, keypair, current, null));
      SeenTwice(old(PeersView()), peer, mid, PeerView(Zeroed, 0, current, null, keypair));
      if isInitiator {
        if next != null {
          DeleteKeypair(current);
          DeleteKeypair(previous);
          SetSlots(peer, keypair, next, null);
        } else {
          DeleteKeypair(previous);
          SetSlots(peer, keypair, current, null);
        }
      } else {
        DeleteKeypair(next);
        DeleteKeypair(previous);
        SetSlots(peer, current, null, keypair);
      }
      return true;
    }

    lemma SlotsConfirmed(peer: Peer)
      requires Consistent() && peer in known
      ensures ConfirmedOk(peer)
    {
    }

    /** Called once a packet under the keypair has been decrypted and has passed the replay filter. */
    method ReceivedWithKeypair(peer: Peer, receivedKeypair: Keypair) returns (promoted: bool)
      requires peer in known && receivedKeypair in peer.confirmed && Valid()
      modifies this`table, peer`current, peer`previous, peer`next
      ensures Valid()
      ensures promoted <==> old(peer.next) == receivedKeypair
      ensures State() == if promoted then Confirm(old(State()), peer) else old(State())
    {
      hide Inv, Consistent, PeersView;
      Views(peer);
      if peer.next != receivedKeypair { return false; }
      ConfirmKeeps(State(), peer);
      SlotsConfirmed(peer);
      var older := peer.previous;
      DeleteKeypair(older);
      SetSlots(peer, peer.next, peer.current, null);
      return true;
    }

    /** One staged packet under a keypair: the next nonce is used once, and never one at the limit or beyond. */
    method SealPacket(keypair: Keypair, packet: Octets, padding: nat) returns (msg: Option<MessageTransport>)
      modifies keypair`sendNonce
      ensures var nonce := old(keypair.sendNonce);
        if nonce < Nonces.RejectAfterMessages then
          && keypair.sendNonce == nonce + 1
          && msg == Some(MessageTransport(keypair.remoteIndex, nonce,
                                          crypto.seal(keypair.send, nonce, Padded(packet, padding), [])))
        else keypair.sendNonce == Nonces.RejectAfterMessages && msg.None?
    {
      keypair.sendNonce := (keypair.sendNonce + 1) % 0x1_0000_0000_0000_0000;
      var nonce: u64 := (keypair.sendNonce - 1) % 0x1_0000_0000_0000_0000;
      if nonce >= Nonces.RejectAfterMessages {
        keypair.sendNonce := Nonces.RejectAfterMessages;
        return None;
      }
      return Some(MessageTransport(keypair.remoteIndex, nonce,
                                   crypto.seal(keypair.send, nonce, Padded(packet, padding), [])));
    }

    /** The keypair an arriving packet names. */
    method LookupKeypair(receiver: u32) returns (peer: Peer?, keypair: Keypair?)
      requires Valid()
      ensures keypair != null <==> receiver in table && table[receiver].ForKeypair?
      ensures keypair != null ==>
        peer != null && peer in known && table[receiver] == ForKeypair(peer, keypair) && keypair.localIndex == receiver
    {
      hide Inv, Consistent, PeersView;
      if receiver !in table || !table[receiver].ForKeypair? { return null, null; }
      KeypairEntryFacts(State(), receiver);
      Views(table[receiver].peer);
      return table[receiver].peer, table[receiver].keypair;
    }

    /**
     One received packet, at whatever time after its arrival: it is delivered exactly when it opens under the keypair's
     receiving key and the replay filter admits its counter, and only then does the keypair count as confirmed. A packet
     that does not open leaves the filter alone.
     */
    method Receive(peer: Peer, keypair: Keypair, msg: MessageTransport) returns (packet: Option<Octets>)
      requires peer in known && keypair.replayFilter.Valid() && Valid()
      modifies this`table, peer, keypair.replayFilter, keypair.replayFilter.ring
      ensures Valid() && keypair.replayFilter.Valid()
      ensures var plain := crypto.open(keypair.receive, msg.counter, msg.content, []);
        && packet == (if Replay.Admits(old(keypair.replayFilter.accepted), msg.counter, Nonces.RejectAfterMessages)
                      then plain else None)
        && keypair.replayFilter.accepted ==
           (if plain.Some?
            then Replay.After(old(keypair.replayFilter.accepted), msg.counter, Nonces.RejectAfterMessages)
            else old(keypair.replayFilter.accepted))
      ensures peer.confirmed == if packet.Some? then old(peer.confirmed) + {keypair} else old(peer.confirmed)
      ensures State() == if packet.Some? && old(peer.next) == keypair then Confirm(old(State()), peer) else old(State())
      ensures peer.handshake == old(peer.handshake) && peer.isRunning == old(peer.isRunning)
    {
      hide Inv, Consistent, PeersView;
      packet := crypto.open(keypair.receive, msg.counter, msg.content, []);
      if packet.None? { return; }
      var ok := keypair.replayFilter.ValidateCounter(msg.counter, Nonces.RejectAfterMessages);
      if !ok { return None; }
      MarkConfirmed(peer, keypair);
      var _ := ReceivedWithKeypair(peer, keypair);
    }

    ghost method MarkConfirmed(peer: Peer, keypair: Keypair)
      requires peer in known && Valid()
      modifies peer`confirmed
      ensures Valid() && State() == old(State())
      ensures peer.confirmed == old(peer.confirmed) + {keypair}
    {
      hide Inv, Keyed;
      peer.confirmed := peer.confirmed + {keypair};
      assert PeersView() == old(PeersView());
      forall p | p in known ensures ConfirmedOk(p) {
        assert old(ConfirmedOk(p));
      }
    }

    /** The keypair SendStagedPackets takes. */
    method Current(peer: Peer) returns (keypair: Keypair?)
      requires peer in known && Valid()
      ensures keypair == peer.current
      ensures keypair != null ==> keypair.isInitiator || keypair in peer.confirmed
      ensures keypair != null ==> keypair.localIndex in table && table[keypair.localIndex] == ForKeypair(peer, keypair)
    {
      hide Inv, Consistent, PeersView;
      Views(peer);
      SlotsConfirmed(peer);
      SlotFacts(State(), peer);
      keypair := peer.current;
    }

    method ZeroAndFlushAll(peer: Peer)
      requires peer in known && Valid()
      modifies this`table, peer`handshake, peer`current, peer`previous, peer`next
      ensures Valid() && State() == Flush(old(State()), peer)
      ensures forall i :: i in table ==> table[i].peer != peer
    {
      hide Inv, Consistent, PeersView;
      Views(peer);
      FlushKeeps(State(), peer);
      DeleteKeypair(peer.previous);
      DeleteKeypair(peer.current);
      DeleteKeypair(peer.next);
      SetSlots(peer, null, null, null);
      SeenTwice(old(PeersView()), peer, ViewOf(peer), PeerView(Zeroed, 0, null, null, null));
      Delete(peer.handshake.localIndex);
      ClearHandshake(peer);
    }

    method ClearHandshake(peer: Peer)
      requires peer in known && Consistent()
      modifies peer`handshake
      ensures Consistent() && State() == Seen(old(State()), peer, old(ViewOf(peer)).(phase := Zeroed, localIndex := 0))
    {
      SetHandshake(peer,
        peer.handshake.(localEphemeral := [], remoteEphemeral := [], chainKey := [], hash := [], localIndex := 0,
                        phase := Zeroed));
    }

    method ExpireCurrentKeypairs(peer: Peer)
      requires peer in known && Valid()
      modifies this`table, peer`handshake, peer.current, peer.next
      ensures Valid() && State() == Clear(old(State()), peer)
      ensures peer.current != null ==> peer.current.sendNonce == Nonces.RejectAfterMessages
      ensures peer.next != null ==> peer.next.sendNonce == Nonces.RejectAfterMessages
    {
      hide Inv, Consistent, PeersView;
      Views(peer);
      ClearKeeps(State(), peer);
      Delete(peer.handshake.localIndex);
      ClearHandshake(peer);
      if peer.current != null { peer.current.sendNonce := Nonces.RejectAfterMessages; }
      if peer.next != null { peer.next.sendNonce := Nonces.RejectAfterMessages; }
    }
  }
}

/**
 * The receiver-index table together with what it points at: each peer's pending handshake and its
 * three keypair slots. Steps are functions on a value-level view; the device's methods are proved
 * to take exactly these steps.
 */
module IndexTables {
  import opened Bytes
  import opened Transcript
  import Replay

  datatype Phase = Zeroed | InitiationCreated | InitiationConsumed | ResponseCreated | ResponseConsumed

  datatype Handshake = Handshake(
    phase: Phase, hash: Octets, chainKey: Octets, presharedKey: Octets, localEphemeral: Octets,
    localIndex: u32, remoteIndex: u32, remoteStatic: Octets, remoteEphemeral: Octets,
    precomputedStaticStatic: Octets, lastTimestamp: Octets, lastInitiationConsumption: int)

  class Keypair {
    const send: Octets
    const receive: Octets
    const isInitiator: bool
    const localIndex: u32
    const remoteIndex: u32
    const replayFilter: Replay.Filter
    var sendNonce: u64

    constructor (send: Octets, receive: Octets, isInitiator: bool, localIndex: u32, remoteIndex: u32)
      ensures this.send == send && this.receive == receive && this.isInitiator == isInitiator
      ensures this.localIndex == localIndex && this.remoteIndex == remoteIndex && sendNonce == 0
      ensures fresh(replayFilter) && fresh(replayFilter.ring) && replayFilter.Valid() && replayFilter.accepted == {}
    {
      this.send, this.receive, this.isInitiator := send, receive, isInitiator;
      this.localIndex, this.remoteIndex, sendNonce := localIndex, remoteIndex, 0;
      replayFilter := new Replay.Filter();
    }
  }

  class Peer {
    var handshake: Handshake
    var current: Keypair?
    var previous: Keypair?
    var next: Keypair?
    var isRunning: bool
    /** Keypairs under which a packet has been decrypted and has passed the replay filter. */
    ghost var confirmed: set<Keypair>

    constructor (pk: Octets, staticStatic: Octets, psk: Octets)
      ensures handshake.remoteStatic == pk && handshake.precomputedStaticStatic == staticStatic
      ensures handshake.phase == Zeroed && handshake.localIndex == 0 && handshake.presharedKey == psk
      ensures current == null && previous == null && next == null && confirmed == {} && !isRunning
    {
      handshake := Handshake(Zeroed, [], [], psk, [], 0, 0, pk, [], staticStatic, [], 0);
      current, previous, next, isRunning, confirmed := null, null, null, false, {};
    }
  }

  datatype Entry = ForHandshake(peer: Peer) | ForKeypair(peer: Peer, keypair: Keypair)

  datatype PeerView = PeerView(phase: Phase, localIndex: u32, current: Keypair?, previous: Keypair?, next: Keypair?)

  datatype View = View(peers: map<Peer, PeerView>, table: map<u32, Entry>)

  ghost predicate InSlots(k: Keypair?, s: PeerView) {
    k != null && (k == s.current || k == s.previous || k == s.next)
  }

  /** A phase in which the other end may answer to the local index. */
  predicate Awaiting(phase: Phase) {
    phase == InitiationCreated || phase == ResponseCreated || phase == ResponseConsumed
  }

  ghost predicate PeerOk(v: View, p: Peer)
    requires p in v.peers
  {
    var s := v.peers[p];
    && (s.localIndex != 0 ==> s.localIndex in v.table && v.table[s.localIndex] == ForHandshake(p))
    && (Awaiting(s.phase) ==> s.localIndex != 0)
    && SlotOk(v, p, s.current) && SlotOk(v, p, s.previous) && SlotOk(v, p, s.next)
    && (s.current != null ==> s.current != s.previous && s.current != s.next)
    && (s.previous != null ==> s.previous != s.next)
  }

  ghost predicate SlotOk(v: View, p: Peer, k: Keypair?) {
    k != null ==> k.localIndex in v.table && v.table[k.localIndex] == ForKeypair(p, k)
  }

  ghost predicate EntryOk(v: View, i: u32)
    requires i in v.table
  {
    && i != 0
    && v.table[i].peer in v.peers
    && match v.table[i]
       case ForHandshake(p) => v.peers[p].localIndex == i
       case ForKeypair(p, k) => k.localIndex == i && InSlots(k, v.peers[p])
  }

  /**
   * The table holds exactly each peer's pending handshake at its local index and exactly the
   * keypairs in the slots; no keypair sits in two slots.
   */
  ghost predicate Inv(v: View) {
    && (forall p :: p in v.peers ==> PeerOk(v, p))
    && (forall i :: i in v.table ==> EntryOk(v, i))
  }

  /** No keypair serves two peers and no two keypairs in slots share an index. */
  lemma SlotsAreDisjoint(v: View, p: Peer, q: Peer, k: Keypair, l: Keypair)
    requires Inv(v) && p in v.peers && q in v.peers
    requires InSlots(k, v.peers[p]) && InSlots(l, v.peers[q])
    requires k == l || k.localIndex == l.localIndex
    ensures p == q && k == l
  {
    assert PeerOk(v, p) && PeerOk(v, q);
  }

  lemma PendingIndex(v: View, p: Peer)
    requires Inv(v) && p in v.peers
    ensures Awaiting(v.peers[p].phase) ==> v.peers[p].localIndex != 0
  {
    assert PeerOk(v, p);
  }

  lemma EntryFacts(v: View, i: u32)
    requires Inv(v) && i in v.table && v.table[i].ForHandshake?
    ensures v.table[i].peer in v.peers && v.peers[v.table[i].peer].localIndex == i && i != 0
  {
    assert EntryOk(v, i);
  }

  lemma KeypairEntryFacts(v: View, i: u32)
    requires Inv(v) && i in v.table && v.table[i].ForKeypair?
    ensures v.table[i].peer in v.peers && v.table[i].keypair.localIndex == i
  {
    assert EntryOk(v, i);
  }

  lemma SlotFacts(v: View, p: Peer)
    requires Inv(v) && p in v.peers
    ensures SlotOk(v, p, v.peers[p].current) && SlotOk(v, p, v.peers[p].next)
  {
    assert PeerOk(v, p);
  }

  /* The steps. */

  /** Only p's own record changes. */
  ghost function Seen(v: View, p: Peer, s: PeerView): View {
    v.(peers := v.peers[p := s])
  }

  lemma SeenSame(v: View, p: Peer)
    requires p in v.peers
    ensures Seen(v, p, v.peers[p]) == v
  {
    assert v.peers[p := v.peers[p]] == v.peers;
  }

  lemma SeenTwice(m: map<Peer, PeerView>, p: Peer, a: PeerView, b: PeerView)
    ensures m[p := a][p := b] == m[p := b]
  {
  }

  lemma NewcomerKeeps(v: View, p: Peer)
    requires Inv(v) && p !in v.peers
    ensures Inv(Seen(v, p, PeerView(Zeroed, 0, null, null, null)))
  {
    var w := Seen(v, p, PeerView(Zeroed, 0, null, null, null));
    forall q | q in w.peers ensures PeerOk(w, q) {
      if q != p { assert PeerOk(v, q); }
    }
    forall i | i in w.table ensures EntryOk(w, i) { assert EntryOk(v, i); }
  }

  function Without(table: map<u32, Entry>, k: Keypair?): map<u32, Entry> {
    if k == null then table else table - {k.localIndex}
  }

  /** The old index is given up and the drawn one taken. */
  ghost function Assign(v: View, p: Peer, index: u32): View
    requires p in v.peers
  {
    var s := v.peers[p];
    View(v.peers[p := s.(localIndex := index)], (v.table - {s.localIndex})[index := ForHandshake(p)])
  }

  /** Drawing failed: the old index is given up, and index is what the handshake then records. */
  ghost function Lose(v: View, p: Peer, index: u32): View
    requires p in v.peers
  {
    var s := v.peers[p];
    View(v.peers[p := s.(localIndex := index)], v.table - {s.localIndex})
  }

  ghost function SetPhase(v: View, p: Peer, phase: Phase): View
    requires p in v.peers
  {
    v.(peers := v.peers[p := v.peers[p].(phase := phase)])
  }

  /** Expiry: the handshake is cleared, the keypairs stay. */
  ghost function Clear(v: View, p: Peer): View
    requires p in v.peers
  {
    var s := v.peers[p];
    View(v.peers[p := s.(phase := Zeroed, localIndex := 0)], v.table - {s.localIndex})
  }

  ghost function Flush(v: View, p: Peer): View
    requires p in v.peers
  {
    var s := v.peers[p];
    var t := Without(Without(Without(v.table, s.previous), s.current), s.next);
    View(v.peers[p := PeerView(Zeroed, 0, null, null, null)], t - {s.localIndex})
  }

  /** The pending index now leads to the keypair, which takes its slot. */
  ghost function Begin(v: View, p: Peer, k: Keypair): View
    requires p in v.peers
  {
    var s := v.peers[p];
    var t := if s.localIndex in v.table then v.table[s.localIndex := ForKeypair(v.table[s.localIndex].peer, k)]
      else v.table;
    if k.isInitiator then
      if s.next != null then
        View(v.peers[p := PeerView(Zeroed, 0, k, s.next, null)], Without(Without(t, s.current), s.previous))
      else
        View(v.peers[p := PeerView(Zeroed, 0, k, s.current, null)], Without(t, s.previous))
    else
      View(v.peers[p := PeerView(Zeroed, 0, s.current, null, k)], Without(Without(t, s.next), s.previous))
  }

  ghost function Confirm(v: View, p: Peer): View
    requires p in v.peers
  {
    var s := v.peers[p];
    View(v.peers[p := PeerView(s.phase, s.localIndex, s.next, s.current, null)], Without(v.table, s.previous))
  }

  /**
   * What a step may do to the others: only peer p changes, and the entries that disappear or
   * change belonged to p.
   */
  ghost predicate OnlyFor(v: View, w: View, p: Peer) {
    && w.peers.Keys == v.peers.Keys
    && (forall q :: q in v.peers && q != p ==> w.peers[q] == v.peers[q])
    && (forall i :: i in v.table && v.table[i].peer != p ==> i in w.table && w.table[i] == v.table[i])
    && (forall i :: i in w.table && w.table[i].peer != p ==> i in v.table && w.table[i] == v.table[i])
  }

  /** A step for p keeps the invariant when it keeps p's part of it. */
  lemma StepKeeps(v: View, w: View, p: Peer)
    requires Inv(v) && p in v.peers && OnlyFor(v, w, p)
    requires PeerOk(w, p)
    requires forall i :: i in w.table && w.table[i].peer == p ==> EntryOk(w, i)
    ensures Inv(w)
  {
    forall q | q in w.peers ensures PeerOk(w, q) {
      if q != p { assert PeerOk(v, q); }
    }
    forall i | i in w.table ensures EntryOk(w, i) {
      if w.table[i].peer != p { assert EntryOk(v, i); }
    }
  }

  /** Giving a peer a drawn index keeps the invariant exactly when the draw is not zero. */
  lemma AssignKeeps(v: View, p: Peer, index: u32)
    requires Inv(v) && p in v.peers
    requires index !in v.table - {v.peers[p].localIndex}
    ensures Inv(Assign(v, p, index)) <==> index != 0
  {
    var w := Assign(v, p, index);
    assert PeerOk(v, p);
    if index != 0 {
      forall i | i in w.table && w.table[i].peer == p ensures EntryOk(w, i) {
        if i != index { assert EntryOk(v, i); }
      }
      forall i | i in v.table && v.table[i].peer != p ensures i in w.table && w.table[i] == v.table[i] {
        assert EntryOk(v, i);
      }
      StepKeeps(v, w, p);
    } else {
      assert index in w.table;
      assert !EntryOk(w, index);
    }
  }

  /**
   * When drawing fails the invariant survives exactly when the handshake is left with index zero,
   * in a phase that awaits nothing.
   */
  lemma LoseKeeps(v: View, p: Peer, index: u32)
    requires Inv(v) && p in v.peers
    ensures Inv(Lose(v, p, index)) <==> index == 0 && !Awaiting(v.peers[p].phase)
  {
    var w := Lose(v, p, index);
    assert PeerOk(v, p);
    if index == 0 && !Awaiting(v.peers[p].phase) {
      forall i | i in w.table ensures i in v.table && EntryOk(v, i) && EntryOk(w, i) {
        assert EntryOk(v, i);
      }
      forall i | i in v.table && v.table[i].peer != p ensures i in w.table && w.table[i] == v.table[i] {
        assert EntryOk(v, i);
      }
      StepKeeps(v, w, p);
    } else {
      assert index in w.table ==> EntryOk(v, index);
      assert !PeerOk(w, p);
    }
  }

  lemma SetPhaseKeeps(v: View, p: Peer, phase: Phase)
    requires Inv(v) && p in v.peers
    requires Awaiting(phase) ==> v.peers[p].localIndex != 0
    ensures Inv(SetPhase(v, p, phase))
  {
    var w := SetPhase(v, p, phase);
    assert PeerOk(v, p);
    forall i | i in w.table && w.table[i].peer == p ensures EntryOk(w, i) { assert EntryOk(v, i); }
    StepKeeps(v, w, p);
  }

  /** The same for the step that also enters a phase awaiting an answer. */
  lemma AssignPhaseKeeps(v: View, p: Peer, index: u32, phase: Phase)
    requires Inv(v) && p in v.peers
    requires index !in v.table - {v.peers[p].localIndex}
    ensures Inv(SetPhase(Assign(v, p, index), p, phase)) <==> index != 0
  {
    AssignKeeps(v, p, index);
    var w := SetPhase(Assign(v, p, index), p, phase);
    if index != 0 {
      SetPhaseKeeps(Assign(v, p, index), p, phase);
    } else {
      assert index in w.table;
      assert !EntryOk(w, index);
    }
  }

  lemma ClearKeeps(v: View, p: Peer)
    requires Inv(v) && p in v.peers
    ensures Inv(Clear(v, p))
  {
    SetPhaseKeeps(v, p, Zeroed);
    LoseKeeps(SetPhase(v, p, Zeroed), p, 0);
    assert Lose(SetPhase(v, p, Zeroed), p, 0) == Clear(v, p);
  }

  /** Dropping a keypair's entry touches only entries of its peer. */
  lemma FlushKeeps(v: View, p: Peer)
    requires Inv(v) && p in v.peers
    ensures Inv(Flush(v, p))
    ensures forall i :: i in Flush(v, p).table ==> Flush(v, p).table[i].peer != p
  {
    var w := Flush(v, p);
    assert PeerOk(v, p);
    forall i | i in v.table ensures v.table[i].peer == p <==> i !in w.table { assert EntryOk(v, i); }
    StepKeeps(v, w, p);
  }

  /** What is left of the table once the pending index leads to k and the entries of a and b are gone. */
  ghost predicate Retargeted(v: View, w: View, p: Peer, k: Keypair, a: Keypair?, b: Keypair?) {
    && w.peers.Keys == v.peers.Keys
    && (forall q :: q in v.peers && q != p ==> w.peers[q] == v.peers[q])
    && k.localIndex in w.table && w.table[k.localIndex] == ForKeypair(p, k)
    && forall i :: i != k.localIndex ==>
      && (i in w.table <==> i in v.table && (a != null ==> i != a.localIndex) && (b != null ==> i != b.localIndex))
      && (i in w.table ==> w.table[i] == v.table[i])
  }

  lemma RetargetedKeeps(v: View, w: View, p: Peer, k: Keypair, a: Keypair?, b: Keypair?)
    requires Inv(v) && p in v.peers && !InSlots(k, v.peers[p])
    requires v.peers[p].localIndex != 0 && k.localIndex == v.peers[p].localIndex
    requires Retargeted(v, w, p, k, a, b)
    requires var s := v.peers[p];
      && (a != null ==> InSlots(a, s)) && (b != null ==> InSlots(b, s))
      && w.peers[p].localIndex == 0 && w.peers[p].phase == Zeroed
    requires var s, r := v.peers[p], w.peers[p];
      && (r.current != null ==> r.current != r.previous && r.current != r.next)
      && (r.previous != null ==> r.previous != r.next)
      && InSlots(k, r)
      && forall l :: l != k ==> (InSlots(l, r) <==> InSlots(l, s) && l != a && l != b)
    ensures Inv(w)
  {
    var s, r := v.peers[p], w.peers[p];
    assert PeerOk(v, p);
    forall l | InSlots(l, r) ensures SlotOk(w, p, l) {
      if l != k { assert InSlots(l, s); }
    }
    assert PeerOk(w, p);
    forall i | i in v.table && v.table[i].peer != p ensures i in w.table && w.table[i] == v.table[i] {
      assert EntryOk(v, i);
    }
    forall i | i in w.table && w.table[i].peer == p ensures EntryOk(w, i) {
      if i != k.localIndex { assert EntryOk(v, i); }
    }
    StepKeeps(v, w, p);
  }

  /** The rotation keeps the invariant whichever end completes, and whatever the slots hold. */
  lemma BeginKeeps(v: View, p: Peer, k: Keypair)
    requires Inv(v) && p in v.peers && !InSlots(k, v.peers[p])
    requires v.peers[p].localIndex != 0 && k.localIndex == v.peers[p].localIndex
    ensures Inv(Begin(v, p, k))
  {
    var w, s := Begin(v, p, k), v.peers[p];
    assert PeerOk(v, p);
    hide Inv, EntryOk, Awaiting;
    var a := if !k.isInitiator then s.next else if s.next != null then s.current else null;
    RetargetedKeeps(v, w, p, k, a, s.previous);
  }

  lemma ConfirmKeeps(v: View, p: Peer)
    requires Inv(v) && p in v.peers && v.peers[p].next != null
    ensures Inv(Confirm(v, p))
  {
    var w, s := Confirm(v, p), v.peers[p];
    assert PeerOk(v, p);
    forall i | i in v.table && v.table[i].peer != p ensures i in w.table && w.table[i] == v.table[i] {
      assert EntryOk(v, i);
    }
    forall i | i in w.table && w.table[i].peer == p ensures EntryOk(w, i) { assert EntryOk(v, i); }
    StepKeeps(v, w, p);
  }

  /**
   * Why zero must not be drawn: it also means "no index", so the next idle peer that creates an
   * initiation deletes the entry of the peer that drew it.
   */
  lemma ZeroIsLost(v: View, p: Peer, q: Peer, index: u32)
    requires Inv(v) && p in v.peers && q in v.peers && p != q
    requires v.peers[q].localIndex == 0 && index != 0 && index !in v.table
    ensures var w := SetPhase(Assign(v, p, 0), p, InitiationCreated);
      && 0 in w.table && w.table[0] == ForHandshake(p)
      && w.peers[q].localIndex == 0
      && Assign(w, q, index).peers[p] == w.peers[p]
      && forall i :: i in Assign(w, q, index).table ==> Assign(w, q, index).table[i] != ForHandshake(p)
  {
    var w := SetPhase(Assign(v, p, 0), p, InitiationCreated);
    var u := Assign(w, q, index);
    forall i | i in u.table ensures u.table[i] != ForHandshake(p) {
      if i != index {
        assert i in v.table;
        assert EntryOk(v, i);
      }
    }
  }

  /** One atomic step of a run, with what its guard in the source establishes. */
  datatype Step =
    | Creates(peer: Peer, index: u32, phase: Phase)   // an initiation or a response, with its drawn index
    | Loses(peer: Peer, index: u32)                   // the random source failed and left this value
    | Enters(peer: Peer, phase: Phase)                // a message consumed
    | Begins(peer: Peer, keypair: Keypair)
    | Confirms(peer: Peer)
    | Expires(peer: Peer)
    | Flushes(peer: Peer)

  ghost predicate Enabled(v: View, s: Step) {
    && s.peer in v.peers
    && match s
       case Creates(p, index, _) => index !in v.table - {v.peers[p].localIndex}
       case Loses(_, _) => true
       case Enters(p, phase) => phase == InitiationConsumed
         || (phase == ResponseConsumed && v.peers[p].phase == InitiationCreated)
       case Begins(p, k) =>
         && (v.peers[p].phase == ResponseCreated || v.peers[p].phase == ResponseConsumed)
         && k.localIndex == v.peers[p].localIndex && !InSlots(k, v.peers[p])
       case Confirms(p) => v.peers[p].next != null
       case Expires(_) => true
       case Flushes(_) => true
  }

  ghost function Next(v: View, s: Step): View
    requires s.peer in v.peers
  {
    match s
    case Creates(p, index, phase) => SetPhase(Assign(v, p, index), p, phase)
    case Loses(p, index) => Lose(v, p, index)
    case Enters(p, phase) => SetPhase(v, p, phase)
    case Begins(p, k) => Begin(v, p, k)
    case Confirms(p) => Confirm(v, p)
    case Expires(p) => Clear(v, p)
    case Flushes(p) => Flush(v, p)
  }

  ghost predicate IsRun(v: View, run: seq<Step>)
    decreases |run|
  {
    run == [] || (Enabled(v, run[0]) && IsRun(Next(v, run[0]), run[1..]))
  }

  ghost function Reached(v: View, run: seq<Step>): View
    requires IsRun(v, run)
    decreases |run|
  {
    if run == [] then v else Reached(Next(v, run[0]), run[1..])
  }

  /** Steps that cannot hurt: a draw other than zero, and a failed draw that leaves zero where nothing is awaited. */
  predicate Harmless(v: View, s: Step)
    requires s.peer in v.peers
  {
    match s
    case Creates(_, index, _) => index != 0
    case Loses(p, index) => index == 0 && !Awaiting(v.peers[p].phase)
    case _ => true
  }

  ghost predicate AllHarmless(v: View, run: seq<Step>)
    requires IsRun(v, run)
    decreases |run|
  {
    run == [] || (Harmless(v, run[0]) && AllHarmless(Next(v, run[0]), run[1..]))
  }

  /** Every state on the way is good. */
  ghost predicate GoodThroughout(v: View, run: seq<Step>)
    requires IsRun(v, run)
    decreases |run|
  {
    Inv(v) && (run == [] || GoodThroughout(Next(v, run[0]), run[1..]))
  }

  /** From any good state, a run stays in good states exactly when all its steps are harmless. */
  lemma {:induction false} RunKeeps(v: View, run: seq<Step>)
    requires Inv(v) && IsRun(v, run)
    ensures GoodThroughout(v, run) <==> AllHarmless(v, run)
    ensures AllHarmless(v, run) ==> Inv(Reached(v, run))
    decreases |run|
  {
    hide Inv, Assign, SetPhase, Begin, Confirm, Clear, Flush, Lose, Harmless, Next;
    if run != [] {
      StepKeepsInv(v, run[0]);
      if Harmless(v, run[0]) {
        RunKeeps(Next(v, run[0]), run[1..]);
      } else {
        NotGood(Next(v, run[0]), run[1..]);
      }
    }
  }

  lemma NotGood(v: View, run: seq<Step>)
    requires !Inv(v) && IsRun(v, run)
    ensures !GoodThroughout(v, run)
  {
  }

  lemma StepKeepsInv(v: View, s: Step)
    requires Inv(v) && Enabled(v, s)
    ensures Inv(Next(v, s)) <==> Harmless(v, s)
  {
    hide Inv, Assign, SetPhase, Begin, Confirm, Clear, Flush, Lose;
    PendingIndex(v, s.peer);
    match s
    case Creates(p, index, phase) => AssignPhaseKeeps(v, p, index, phase);
    case Loses(p, index) => LoseKeeps(v, p, index);
    case Enters(p, phase) => SetPhaseKeeps(v, p, phase);
    case Begins(p, k) => BeginKeeps(v, p, k);
    case Confirms(p) => ConfirmKeeps(v, p);
    case Expires(p) => ClearKeeps(v, p);
    case Flushes(p) => FlushKeeps(v, p);
  }
}

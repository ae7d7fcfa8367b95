/** Each trie operation, as a step between well-formed tries, and its effect on the routes. */
module TrieOps {
  import opened TrieModel
  import opened TrieInsert
  import opened TrieRemove

  /** A step that keeps the trie well formed and sets the route of n's prefix to peer. */
  ghost predicate Routed(t: Trie, t': Trie, n: TrieEntry, peer: Peer) {
    && Shape(t') && UniqueKeys(t) && UniqueKeys(t')
    && Routes(t') == Routes(t)[KeyOf(n) := peer]
  }

  lemma PushBackKeeps(t: Trie, peer: Peer, n: TrieEntry)
    requires Linked(t)
    ensures Linked(PushBack(t, peer, n))
    ensures Branching(t) ==> Branching(PushBack(t, peer, n))
  {
    PeerIrrelevant(t, PushBack(t, peer, n));
  }

  /** Placement speaks of the nodes only. */
  lemma PlacedKeeps(t: Trie, ip: Bits, cidr: nat, parent: TrieEntry?, peer: Peer, n: TrieEntry)
    requires Placed(t, ip, cidr, parent)
    ensures Placed(PushBack(t, peer, n), ip, cidr, parent)
    ensures SlotOf(PushBack(t, peer, n), parent, ip) == SlotOf(t, parent, ip)
  {
  }

  lemma GrownRouted(t: Trie, t1: Trie, t': Trie, parent: TrieEntry?, ip: Bits, cidr: nat, top: TrieEntry, n: TrieEntry,
                    peer: Peer, news: set<TrieEntry>)
    requires Placed(t1, ip, cidr, parent)
    requires Regrown(t1, t', parent, ip, top)
    requires t'.recs.Keys == t1.recs.Keys + news && n in news && news !! t1.recs.Keys
    requires t'.recs[n].peer == peer && t'.recs[n].listed
    requires forall y :: y in news && y != n ==>
      t'.recs[y].peer == null && !t'.recs[y].listed && t'.recs[y].child0 != null && t'.recs[y].child1 != null
    requires t1 == PushBack(t, peer, n) && t'.lists == t1.lists
    requires Shape(t) && Linked(t')
    ensures Routed(t, t', n, peer)
  {
    hide Linked, ListsOk, UniqueKeys, Routes, Placed, Regrown;
    PlacedFacts(t1, ip, cidr, parent);
    assert Branching(t1);
    GrownBranching(t1, t', parent, ip, top, news);
    GrownOneMore(t1, t', parent, ip, top, n, peer, news);
    assert OneMore(t, t', n, peer);
    OneMoreLists(t, t', n, peer);
    LinkedUnique(t);
    LinkedUnique(t');
    OneMoreRoutes(t, t', n, peer);
  }

  /** Insertion into an empty slot. */
  lemma LeafInsert(t: Trie, parent: TrieEntry?, ip: Bits, cidr: nat, n: TrieEntry, peer: Peer)
    requires Placed(t, ip, cidr, parent) && Fresh(t, n, ip, cidr)
    requires SlotOf(t, parent, ip) == null
    requires Shape(t)
    ensures Routed(t, LeafState(PushBack(t, peer, n), parent, ip, n, peer), n, peer)
  {
    hide Linked, ListsOk, Branching, Placed, LeafState, Routed, Regrown;
    PlacedFacts(t, ip, cidr, parent);
    PushBackKeeps(t, peer, n);
    PlacedKeeps(t, ip, cidr, parent, peer, n);
    var t1 := PushBack(t, peer, n);
    LeafLinked(t1, parent, ip, cidr, n, peer);
    LeafRegrown(t1, parent, ip, n, peer);
    LeafLists(t1, parent, ip, n, peer);
    GrownRouted(t, t1, LeafState(t1, parent, ip, n, peer), parent, ip, cidr, n, n, peer, {n});
  }

  lemma LeafLists(t: Trie, parent: TrieEntry?, ip: Bits, n: TrieEntry, peer: Peer)
    requires parent != null ==> parent in t.recs && parent.cidr < |ip|
    ensures LeafState(t, parent, ip, n, peer).lists == t.lists
  {
  }

  /** Insertion of a prefix that contains what hangs in the slot. */
  lemma AboveInsert(t: Trie, parent: TrieEntry?, ip: Bits, cidr: nat, n: TrieEntry, peer: Peer, down: TrieEntry)
    requires Placed(t, ip, cidr, parent) && Fresh(t, n, ip, cidr)
    requires SlotOf(t, parent, ip) == down && StrictlyCovers(n, down)
    requires Shape(t)
    ensures down in t.recs
    ensures Routed(t, AboveState(PushBack(t, peer, n), parent, ip, n, peer, down), n, peer)
  {
    hide Linked, ListsOk, Branching, Placed, AboveState, Routed, Regrown;
    PlacedFacts(t, ip, cidr, parent);
    PushBackKeeps(t, peer, n);
    PlacedKeeps(t, ip, cidr, parent, peer, n);
    var t1 := PushBack(t, peer, n);
    AboveLinked(t1, parent, ip, cidr, n, peer, down);
    SlotContent(t1, parent, ip);
    AboveRegrown(t1, parent, ip, n, peer, down);
    AboveLists(t1, parent, ip, n, peer, down);
    GrownRouted(t, t1, AboveState(t1, parent, ip, n, peer, down), parent, ip, cidr, n, n, peer, {n});
  }

  lemma AboveLists(t: Trie, parent: TrieEntry?, ip: Bits, n: TrieEntry, peer: Peer, down: TrieEntry)
    requires parent != null ==> parent in t.recs && parent.cidr < |ip|
    requires down in t.recs && n.cidr < |down.bits|
    ensures AboveState(t, parent, ip, n, peer, down).lists == t.lists
  {
  }

  /** Insertion of a prefix that parts from what hangs in the slot. */
  lemma ForkInsert(t: Trie, parent: TrieEntry?, ip: Bits, cidr: nat, n: TrieEntry, peer: Peer, down: TrieEntry,
                   fork: TrieEntry)
    requires Placed(t, ip, cidr, parent) && Fresh(t, n, ip, cidr) && fork !in t.recs
    requires SlotOf(t, parent, ip) == down && Forks(n, down, fork)
    requires Shape(t)
    ensures down in t.recs
    ensures Routed(t, ForkState(PushBack(t, peer, n), parent, ip, n, peer, down, fork), n, peer)
  {
    hide Linked, ListsOk, Branching, Placed, ForkState, Routed, Regrown;
    PlacedFacts(t, ip, cidr, parent);
    PushBackKeeps(t, peer, n);
    PlacedKeeps(t, ip, cidr, parent, peer, n);
    var t1 := PushBack(t, peer, n);
    ForkLinked(t1, parent, ip, cidr, n, peer, down, fork);
    SlotContent(t1, parent, ip);
    ForkRegrown(t1, parent, ip, n, peer, down, fork);
    ForkLists(t1, parent, ip, n, peer, down, fork);
    GrownRouted(t, t1, ForkState(t1, parent, ip, n, peer, down, fork), parent, ip, cidr, fork, n, peer, {n, fork});
  }

  lemma ForkLists(t: Trie, parent: TrieEntry?, ip: Bits, n: TrieEntry, peer: Peer, down: TrieEntry, fork: TrieEntry)
    requires parent != null ==> parent in t.recs && parent.cidr < |ip|
    requires IsAddress(ip) && n !in t.recs && fork !in t.recs && n != fork && down in t.recs
    requires fork.cidr < |down.bits| && fork.cidr < |n.bits| && down.bits[fork.cidr] != n.bits[fork.cidr]
    requires parent != down
    ensures var t' := ForkState(t, parent, ip, n, peer, down, fork);
      t'.lists == t.lists && fork in t'.recs && !t'.recs[fork].listed
  {
  }

  // ---------------------------------------------------------------------------------------------
  // Overwriting the owner of a stored prefix.

  /** removeFromPeerEntries, when the node has an owner. */
  ghost function Released(t: Trie, x: TrieEntry): Trie
    requires x in t.recs && (t.recs[x].peer != null ==> t.recs[x].peer in t.lists)
  {
    if t.recs[x].peer != null then Unowned(t, x) else t
  }

  ghost function OwnedState(t: Trie, x: TrieEntry, peer: Peer): Trie
    requires x in t.recs && (t.recs[x].peer != null ==> t.recs[x].peer in t.lists)
  {
    var t0 := Released(t, x);
    PushBack(t0.(recs := t0.recs[x := t0.recs[x].(peer := peer, listed := true)]), peer, x)
  }

  /** insert on a stored prefix hands it over to the new owner. */
  lemma OwnedInsert(t: Trie, x: TrieEntry, peer: Peer)
    requires Shape(t) && x in t.recs
    ensures t.recs[x].peer != null ==> t.recs[x].peer in t.lists
    ensures Routed(t, OwnedState(t, x, peer), x, peer)
  {
    assert t.recs[x].peer != null ==> t.recs[x].peer in t.lists;
    hide Linked, ListsOk, OwnedState, UniqueKeys;
    var t' := OwnedState(t, x, peer);
    OwnedLinked(t, x, peer);
    OwnedLists(t, x, peer);
    LinkedUnique(t);
    LinkedUnique(t');
    OwnedRoutes(t, x, peer);
  }

  lemma OwnedLinked(t: Trie, x: TrieEntry, peer: Peer)
    requires x in t.recs && (t.recs[x].peer != null ==> t.recs[x].peer in t.lists)
    requires Linked(t) && Branching(t)
    ensures Linked(OwnedState(t, x, peer)) && Branching(OwnedState(t, x, peer))
  {
    hide Linked, WithoutNode;
    var t' := OwnedState(t, x, peer);
    assert SameLinks(t, t');
    PeerIrrelevant(t, t');
  }

  lemma OwnedLists(t: Trie, x: TrieEntry, peer: Peer)
    requires x in t.recs && (t.recs[x].peer != null ==> t.recs[x].peer in t.lists)
    requires ListsOk(t)
    ensures ListsOk(OwnedState(t, x, peer))
  {
    if t.recs[x].peer != null {
      UnownedLists(t, x);
    }
    ReownedLists(Released(t, x), x, peer);
  }

  lemma ReownedLists(t0: Trie, x: TrieEntry, peer: Peer)
    requires ListsOk(t0) && x in t0.recs && t0.recs[x].peer == null
    ensures ListsOk(PushBack(t0.(recs := t0.recs[x := t0.recs[x].(peer := peer, listed := true)]), peer, x))
  {
    var t' := PushBack(t0.(recs := t0.recs[x := t0.recs[x].(peer := peer, listed := true)]), peer, x);
    forall p, n | p in t'.lists && n in t'.lists[p]
      ensures n in t'.recs && t'.recs[n].peer == p
    {
      if n != x {
        assert n in t0.lists[p];
      }
    }
    assert x !in ListOf(t0, peer);
    NoDuplicatesSnoc(ListOf(t0, peer), x);
    assert t'.lists[peer][|ListOf(t0, peer)|] == x;
  }

  lemma OwnedRoutes(t: Trie, x: TrieEntry, peer: Peer)
    requires x in t.recs && (t.recs[x].peer != null ==> t.recs[x].peer in t.lists)
    requires UniqueKeys(t) && UniqueKeys(OwnedState(t, x, peer))
    ensures Routes(OwnedState(t, x, peer)) == Routes(t)[KeyOf(x) := peer]
  {
    hide KeyOf, Routes, WithoutNode;
    var t' := OwnedState(t, x, peer);
    RoutesHas(t', x);
    forall k | k in Routes(t') && k != KeyOf(x)
      ensures k in Routes(t) && Routes(t)[k] == Routes(t')[k]
    {
      var n := RoutesFrom(t', k);
      RoutesHas(t, n);
    }
    forall k | k in Routes(t) && k != KeyOf(x)
      ensures k in Routes(t')
    {
      var n := RoutesFrom(t, k);
      RoutesHas(t', n);
    }
  }

  // ---------------------------------------------------------------------------------------------
  // Longest-prefix match.

  predicate Matches(k: Key, ip: Bits) {
    k.width == |ip| && k.prefix <= ip
  }

  /** found is the owner of the longest stored prefix of ip; null when none is stored. */
  ghost predicate LongestMatch(routes: map<Key, Peer>, ip: Bits, found: Peer?) {
    if found == null then forall k :: k in routes ==> !Matches(k, ip)
    else exists k :: BestKey(routes, ip, k) && routes[k] == found
  }

  ghost predicate BestKey(routes: map<Key, Peer>, ip: Bits, k: Key) {
    k in routes && Matches(k, ip) && forall j :: j in routes && Matches(j, ip) ==> |j.prefix| <= |k.prefix|
  }

  lemma MatchesNode(n: TrieEntry, ip: Bits)
    requires n.cidr <= |n.bits|
    ensures Matches(KeyOf(n), ip) <==> Contains(n, ip)
    ensures |KeyOf(n).prefix| == n.cidr
  {
    if |n.bits| == |ip| {
      assert KeyOf(n).prefix <= ip <==> n.bits[..n.cidr] == ip[..n.cidr];
    }
  }

  /** best is the last owned node on the way; everything else that matches lies under next. */
  ghost predicate Searching(t: Trie, ip: Bits, best: TrieEntry?, next: TrieEntry?) {
    && (best != null ==> best in t.recs && t.recs[best].peer != null && Contains(best, ip))
    && (next != null ==> next in t.recs)
    && (forall m :: m in t.recs && t.recs[m].peer != null && Contains(m, ip) ==>
          (best != null && m.cidr <= best.cidr) || (next != null && Covers(next, m)))
  }

  lemma SearchStart(t: Trie, ip: Bits)
    requires Linked(t) && IsAddress(ip)
    ensures Searching(t, ip, null, Root(t, |ip|))
  {
    assert RootOk(t, |ip|);
    forall m | m in t.recs && Contains(m, ip)
      ensures Root(t, |ip|) != null && Covers(Root(t, |ip|), m)
    {
      assert Rooted(t, m);
    }
  }

  /** One turn of the lookup loop. */
  lemma SearchStep(t: Trie, ip: Bits, best: TrieEntry?, next: TrieEntry)
    requires Linked(t) && next in t.recs && Contains(next, ip)
    requires Searching(t, ip, best, next)
    requires best != null ==> best.cidr <= next.cidr
    ensures var best' := if t.recs[next].peer != null then next else best;
      Searching(t, ip, best', if next.cidr < |ip| then Child(t.recs[next], ip[next.cidr]) else null)
  {
    assert NodeOk(t, next);
    var best' := if t.recs[next].peer != null then next else best;
    forall m | m in t.recs && t.recs[m].peer != null && Contains(m, ip)
      ensures (best' != null && m.cidr <= best'.cidr)
           || (next.cidr < |ip| && var c := Child(t.recs[next], ip[next.cidr]); c != null && Covers(c, m))
    {
      assert PairOk(t, next, m) && NodeOk(t, m);
      if m != next && Covers(next, m) {
        CoveredBit(m, ip, next.cidr);
      }
    }
  }

  /** Where the loop stops, the last owned node is the answer. */
  lemma SearchDone(t: Trie, ip: Bits, best: TrieEntry?, next: TrieEntry?)
    requires Linked(t) && UniqueKeys(t)
    requires Searching(t, ip, best, next) && (next == null || !Contains(next, ip))
    ensures LongestMatch(Routes(t), ip, if best == null then null else t.recs[best].peer)
  {
    hide Routes, KeyOf;
    forall k | k in Routes(t) && Matches(k, ip)
      ensures best != null && |k.prefix| <= best.cidr
    {
      var m := RoutesFrom(t, k);
      assert NodeOk(t, m);
      MatchesNode(m, ip);
      if next != null && Covers(next, m) {
        CoversTransitive(next, m, ip);
      }
    }
    if best != null {
      assert NodeOk(t, best);
      MatchesNode(best, ip);
      RoutesHas(t, best);
      assert BestKey(Routes(t), ip, KeyOf(best));
    }
  }

  // ---------------------------------------------------------------------------------------------
  // Placement.

  /** parent is the last node passed; every stored prefix of ip not longer than cidr is passed or lies under next. */
  ghost predicate Placing(t: Trie, ip: Bits, cidr: nat, parent: TrieEntry?, next: TrieEntry?) {
    && IsAddress(ip) && cidr <= |ip|
    && (parent != null ==> parent in t.recs && Contains(parent, ip) && parent.cidr < cidr)
    && next == SlotOf(t, parent, ip)
    && (next != null ==> next in t.recs)
    && (forall m :: m in t.recs && Contains(m, ip) && m.cidr <= cidr ==>
          (parent != null && m.cidr <= parent.cidr) || (next != null && Covers(next, m)))
  }

  lemma PlaceStart(t: Trie, ip: Bits, cidr: nat)
    requires Linked(t) && IsAddress(ip) && cidr <= |ip|
    ensures Placing(t, ip, cidr, null, Root(t, |ip|))
  {
    assert RootOk(t, |ip|);
    forall m | m in t.recs && Contains(m, ip)
      ensures Root(t, |ip|) != null && Covers(Root(t, |ip|), m)
    {
      assert Rooted(t, m);
    }
  }

  lemma PlaceStep(t: Trie, ip: Bits, cidr: nat, parent: TrieEntry?, next: TrieEntry)
    requires Linked(t) && Placing(t, ip, cidr, parent, next)
    requires Contains(next, ip) && next.cidr < cidr
    ensures Placing(t, ip, cidr, next, Child(t.recs[next], ip[next.cidr]))
  {
    assert NodeOk(t, next);
    forall m | m in t.recs && Contains(m, ip) && m.cidr <= cidr
      ensures m.cidr <= next.cidr
           || var c := Child(t.recs[next], ip[next.cidr]); c != null && Covers(c, m)
    {
      assert PairOk(t, next, m) && NodeOk(t, m);
      if m.cidr > next.cidr {
        Chain(next, m, ip);
        CoveredBit(m, ip, next.cidr);
      }
    }
    assert ChildOk(t, next, ip[next.cidr]);
  }

  lemma PlaceDone(t: Trie, ip: Bits, cidr: nat, parent: TrieEntry?, next: TrieEntry?)
    requires Linked(t) && Placing(t, ip, cidr, parent, next)
    requires next == null || next.cidr > cidr || !Contains(next, ip)
    ensures Placed(t, ip, cidr, parent)
  {
    forall m | m in t.recs && Contains(m, ip) && m.cidr <= cidr
      ensures parent != null && m.cidr <= parent.cidr
    {
      if next != null && Covers(next, m) {
        CoversTransitive(next, m, ip);
      }
    }
  }
}

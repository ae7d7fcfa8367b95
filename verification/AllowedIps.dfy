/** AllowedIPs (device/allowedips.go): the trie on the heap, refining a map with longest-prefix match. */
module AllowedIps {
  import opened TrieModel
  import opened TrieInsert
  import opened TrieRemove
  import opened TrieOps

  class AllowedIPs {
    var ipv4: TrieEntry?
    var ipv6: TrieEntry?
    ghost var nodes: set<TrieEntry>
    ghost var peers: set<Peer>

    ghost function RecOf(n: TrieEntry): Rec
      reads n
    {
      Rec(n.peer, n.child0, n.child1, n.parent, n.parentBitType, n.listed)
    }

    /** The fields of all nodes and the peers' lists, as a value. */
    ghost function State(): Trie
      reads this, nodes, peers
    {
      Trie(map n | n in nodes :: RecOf(n), ipv4, ipv6, map p | p in peers :: p.trieEntries)
    }

    ghost predicate Valid()
      reads this, nodes, peers
    {
      Shape(State())
    }

    constructor ()
      ensures Valid() && nodes == {} && peers == {}
      ensures UniqueKeys(State()) && Routes(State()) == map[]
    {
      ipv4, ipv6 := null, null;
      nodes, peers := {}, {};
    }

    // -------------------------------------------------------------------------------------------
    // Assignments to single fields.

    method AssignRoot(width: nat, c: TrieEntry?)
      modifies this`ipv4, this`ipv6
      ensures State() == WithRoot(old(State()), width, c)
    {
      if width == 32 {
        ipv4 := c;
      } else {
        ipv6 := c;
      }
    }

    method AssignChild(n: TrieEntry, bit: bool, c: TrieEntry?)
      requires n in nodes
      modifies n`child0, n`child1
      ensures State() == Add(old(State()), n, WithChild(old(State()).recs[n], bit, c))
    {
      if bit {
        n.child1 := c;
      } else {
        n.child0 := c;
      }
      assert State().recs == Add(old(State()), n, WithChild(old(State()).recs[n], bit, c)).recs;
    }

    /** *parentBit = c. */
    method AssignSlot(parent: TrieEntry?, ip: Bits, c: TrieEntry?)
      requires parent != null ==> parent in nodes && parent.cidr < |ip|
      modifies this`ipv4, this`ipv6, parent
      ensures State() == SetSlot(old(State()), parent, ip, c)
    {
      hide WithChild, WithRoot;
      if parent == null {
        AssignRoot(|ip|, c);
      } else {
        AssignChild(parent, ip[parent.cidr], c);
      }
    }

    method AssignParent(n: TrieEntry, parent: TrieEntry?, bitType: nat)
      requires n in nodes
      modifies n`parent, n`parentBitType
      ensures State() == Add(old(State()), n, old(State()).recs[n].(parent := parent, parentBitType := bitType))
    {
      n.parent := parent;
      n.parentBitType := bitType;
      assert State().recs ==
        Add(old(State()), n, old(State()).recs[n].(parent := parent, parentBitType := bitType)).recs;
    }

    /** addToPeerEntries, after the owner is set. */
    method AddToPeerEntries(n: TrieEntry, peer: Peer)
      requires n in nodes && peer in peers
      modifies n`peer, n`listed, peer
      ensures State() == PushBack(Add(old(State()), n, old(State()).recs[n].(peer := peer, listed := true)), peer, n)
    {
      n.peer := peer;
      peer.trieEntries := peer.trieEntries + [n];
      n.listed := true;
      ghost var t := PushBack(Add(old(State()), n, old(State()).recs[n].(peer := peer, listed := true)), peer, n);
      assert State().recs == t.recs;
      assert State().lists == t.lists;
    }

    /** removeFromPeerEntries, followed by node.peer = nil. */
    method RemoveFromPeerEntries(n: TrieEntry)
      requires n in nodes && n.peer != null && n.peer in peers && n.listed
      modifies n`peer, n`listed, n.peer
      ensures State() == Unowned(old(State()), n)
    {
      var peer := n.peer;
      peer.trieEntries := WithoutNode(peer.trieEntries, n);
      n.listed := false;
      n.peer := null;
      ghost var t := Unowned(old(State()), n);
      assert State().recs == t.recs;
      assert State().lists == t.lists;
    }

    /** A new node without owner enters the trie with no links yet. */
    method NewNode(ip: Bits, cidr: nat) returns (n: TrieEntry)
      requires cidr <= |ip|
      modifies this`nodes
      ensures fresh(n) && nodes == old(nodes) + {n} && n !in old(nodes)
      ensures n.bits == Mask(ip, cidr) && n.cidr == cidr
      ensures State() == Add(old(State()), n, Rec(null, null, null, null, 2, false))
    {
      n := new TrieEntry(ip, cidr, null);
      nodes := nodes + {n};
      ghost var t := Add(old(State()), n, Rec(null, null, null, null, 2, false));
      assert State().recs == t.recs;
    }

    /** A new node enters the trie and its owner's list, with no links yet. */
    method NewOwnedNode(ip: Bits, cidr: nat, peer: Peer) returns (n: TrieEntry)
      requires cidr <= |ip| && peer in peers
      modifies this`nodes, peer
      ensures fresh(n) && nodes == old(nodes) + {n} && n !in old(nodes) && peers == old(peers)
      ensures n.bits == Mask(ip, cidr) && n.cidr == cidr
      ensures State() == Add(PushBack(old(State()), peer, n), n, Rec(peer, null, null, null, 2, true))
    {
      n := NewNode(ip, cidr);
      AddToPeerEntries(n, peer);
      ghost var t := Add(PushBack(old(State()), peer, n), n, Rec(peer, null, null, null, 2, true));
      assert State().recs == t.recs;
    }

    /** Sets the children and the parent of a node. */
    method Link(n: TrieEntry, child0: TrieEntry?, child1: TrieEntry?, parent: TrieEntry?, bitType: nat)
      requires n in nodes
      modifies n`child0, n`child1, n`parent, n`parentBitType
      ensures State() == Add(old(State()), n, Rec(n.peer, child0, child1, parent, bitType, n.listed))
    {
      n.child0, n.child1 := child0, child1;
      n.parent, n.parentBitType := parent, bitType;
      assert State().recs == Add(old(State()), n, Rec(n.peer, child0, child1, parent, bitType, n.listed)).recs;
    }

    // -------------------------------------------------------------------------------------------
    // Searching.

    /** Reading a field of a node reads the state. */
    lemma Fields(n: TrieEntry)
      ensures n in nodes <==> n in State().recs
      ensures n in nodes ==> State().recs[n] == Rec(n.peer, n.child0, n.child1, n.parent, n.parentBitType, n.listed)
      ensures State().root4 == ipv4 && State().root6 == ipv6
    {
    }

    /** nodePlacement: the stored prefix itself, or the longest stored one that is shorter. */
    method NodePlacement(ip: Bits, cidr: nat) returns (node: TrieEntry?, exact: bool)
      requires Valid() && IsAddress(ip) && cidr <= |ip|
      ensures exact ==> node != null && node in nodes && Contains(node, ip) && node.cidr == cidr
      ensures !exact ==> Placed(State(), ip, cidr, node)
    {
      hide Linked, Branching, ListsOk, Placed, Placing, CommonBits, Contains, State;
      ghost var t := State();
      PlaceStart(t, ip, cidr);
      RootWidth(t, |ip|);
      node := null;
      var next := if |ip| == 32 then ipv4 else ipv6;
      RootField(ip);
      while next != null && next.cidr <= cidr && CommonBits(next.bits, ip) >= next.cidr
        invariant Placing(t, ip, cidr, node, next)
        invariant next != null ==> next in t.recs && |next.bits| == |ip| && next.cidr <= |ip|
        decreases if next == null then 0 else |ip| + 1 - next.cidr
      {
        PrefixTest(next, ip);
        Fields(next);
        if next.cidr == cidr {
          return next, true;
        }
        PlaceStep(t, ip, cidr, node, next);
        ChildProgress(t, next, ip);
        node := next;
        next := if ip[next.cidr] then next.child1 else next.child0;
      }
      if next != null && next.cidr <= cidr {
        PrefixTest(next, ip);
      }
      PlaceDone(t, ip, cidr, node, next);
      return node, false;
    }

    lemma RootField(ip: Bits)
      ensures Root(State(), |ip|) == if |ip| == 32 then ipv4 else ipv6
    {
    }

    /** Lookup: the owner of the longest stored prefix of the address. */
    method Lookup(ip: Bits) returns (found: Peer?)
      requires Valid() && IsAddress(ip)
      ensures UniqueKeys(State()) && LongestMatch(Routes(State()), ip, found)
    {
      hide Linked, Branching, ListsOk, UniqueKeys, Routes, Searching, CommonBits, Contains, State, LongestMatch;
      ghost var t := State();
      SearchStart(t, ip);
      LinkedUnique(t);
      RootWidth(t, |ip|);
      RootField(ip);
      found := null;
      ghost var best: TrieEntry? := null;
      var node := if |ip| == 32 then ipv4 else ipv6;
      while node != null && CommonBits(node.bits, ip) >= node.cidr
        invariant Searching(t, ip, best, node)
        invariant node != null ==> node in t.recs && |node.bits| == |ip| && node.cidr <= |ip|
        invariant node != null && best != null ==> best.cidr <= node.cidr
        invariant best != null ==> best in t.recs
        invariant found == if best == null then null else t.recs[best].peer
        decreases if node == null then 0 else |ip| + 1 - node.cidr
      {
        PrefixTest(node, ip);
        Fields(node);
        SearchStep(t, ip, best, node);
        ChildProgress(t, node, ip);
        if node.peer != null {
          found, best := node.peer, node;
        }
        if node.cidr == |ip| {
          node := null;
          break;
        }
        node := if ip[node.cidr] then node.child1 else node.child0;
      }
      if node != null {
        PrefixTest(node, ip);
      }
      SearchDone(t, ip, best, node);
    }

    // -------------------------------------------------------------------------------------------
    // Insertion.

    /** The new node goes into an empty slot below parent. */
    method InsertLeaf(parent: TrieEntry?, ip: Bits, cidr: nat, peer: Peer)
      requires Valid() && peer in peers
      requires Placed(State(), ip, cidr, parent) && ip == Mask(ip, cidr) && SlotOf(State(), parent, ip) == null
      modifies this`ipv4, this`ipv6, this`nodes, parent, peer
      ensures peers == old(peers) && old(nodes) <= nodes && fresh(nodes - old(nodes))
      ensures Valid() && UniqueKeys(State()) && UniqueKeys(old(State()))
      ensures Routes(State()) == old(Routes(State()))[Key(|ip|, ip[..cidr]) := peer]
    {
      hide Shape, Placed, State, WithChild, Routes, UniqueKeys, LeafState, PushBack, SetSlot, SlotOf;
      ghost var t := State();
      StateDomains();
      PlacedFacts(t, ip, cidr, parent);
      PlacedCidr(t, ip, cidr, parent);
      var n := NewOwnedNode(ip, cidr, peer);
      Fields(n);
      Link(n, null, null, parent, if parent == null then 2 else BitType(ip[parent.cidr]));
      AssignSlot(parent, ip, n);
      PushBackRecs(t, peer, n);
      LeafSequence(PushBack(t, peer, n), parent, ip, n, peer);
      LeafInsert(t, parent, ip, cidr, n, peer);
    }

    /** The new prefix contains what hangs in the slot: it takes its place and adopts it. */
    method InsertAbove(parent: TrieEntry?, ip: Bits, cidr: nat, peer: Peer, down: TrieEntry)
      requires Valid() && peer in peers
      requires Placed(State(), ip, cidr, parent) && ip == Mask(ip, cidr) && SlotOf(State(), parent, ip) == down
      requires down in nodes && cidr < down.cidr <= |down.bits| == |ip| && down.bits[..cidr] == ip[..cidr]
      modifies this`ipv4, this`ipv6, this`nodes, parent, peer, down
      ensures peers == old(peers) && old(nodes) <= nodes && fresh(nodes - old(nodes))
      ensures Valid() && UniqueKeys(State()) && UniqueKeys(old(State()))
      ensures Routes(State()) == old(Routes(State()))[Key(|ip|, ip[..cidr]) := peer]
    {
      hide Shape, Placed, State, Routes, UniqueKeys, AboveState, PushBack, SetSlot, SlotOf, Add;
      ghost var t := State();
      StateDomains();
      PlacedFacts(t, ip, cidr, parent);
      PlacedCidr(t, ip, cidr, parent);
      var n := NewOwnedNode(ip, cidr, peer);
      AddedRec(PushBack(t, peer, n), n, Rec(peer, null, null, null, 2, true));
      Fields(n);
      var bit := down.bits[n.cidr];
      AssignParent(down, n, BitType(bit));
      Link(n, if bit then null else down, if bit then down else null, parent,
           if parent == null then 2 else BitType(ip[parent.cidr]));
      AssignSlot(parent, ip, n);
      PushBackRecs(t, peer, n);
      AboveSequence(PushBack(t, peer, n), parent, ip, n, peer, down);
      AboveInsert(t, parent, ip, cidr, n, peer, down);
    }

    /** The two prefixes part at bit `common`: an ownerless node joins them. */
    method InsertFork(parent: TrieEntry?, ip: Bits, cidr: nat, peer: Peer, down: TrieEntry, common: nat)
      requires Valid() && peer in peers
      requires Placed(State(), ip, cidr, parent) && ip == Mask(ip, cidr) && SlotOf(State(), parent, ip) == down
      requires down in nodes && common < cidr && common < down.cidr <= |down.bits| == |ip|
      requires down.bits[..common] == ip[..common] && down.bits[common] != ip[common]
      modifies this`ipv4, this`ipv6, this`nodes, parent, peer, down
      ensures peers == old(peers) && old(nodes) <= nodes && fresh(nodes - old(nodes))
      ensures Valid() && UniqueKeys(State()) && UniqueKeys(old(State()))
      ensures Routes(State()) == old(Routes(State()))[Key(|ip|, ip[..cidr]) := peer]
    {
      hide Shape, Placed, State, Routes, UniqueKeys, ForkState, PushBack, SetSlot, SlotOf, Add;
      ghost var t := State();
      StateDomains();
      PlacedFacts(t, ip, cidr, parent);
      PlacedCidr(t, ip, cidr, parent);
      var n := NewOwnedNode(ip, cidr, peer);
      ghost var t1 := State();
      var fork := NewNode(n.bits, common);
      MaskTwice(n.bits, common);
      AddedRec(t1, fork, Rec(null, null, null, null, 2, false));
      Fields(fork);
      var downBit, newBit := down.bits[common], n.bits[common];
      AssignParent(down, fork, BitType(downBit));
      AssignParent(n, fork, BitType(newBit));
      Link(fork, if downBit then n else down, if downBit then down else n, parent,
           if parent == null then 2 else BitType(ip[parent.cidr]));
      AssignSlot(parent, ip, fork);
      PushBackRecs(t, peer, n);
      ForkSequence(PushBack(t, peer, n), parent, ip, n, peer, down, fork);
      ForkInsert(t, parent, ip, cidr, n, peer, down, fork);
    }

    lemma StateDomains()
      ensures State().recs.Keys == nodes && State().lists.Keys == peers
    {
    }

    /** A stored prefix changes hands. */
    method Overwrite(x: TrieEntry, peer: Peer)
      requires Valid() && peer in peers && x in nodes && (x.peer != null ==> x.peer in peers && x.listed)
      modifies x, x.peer, peer
      ensures Valid() && UniqueKeys(State()) && UniqueKeys(old(State()))
      ensures Routes(State()) == old(Routes(State()))[KeyOf(x) := peer]
    {
      hide Shape, State, Routes, UniqueKeys, OwnedState, Unowned, PushBack;
      ghost var t := State();
      Fields(x);
      StateDomains();
      if x.peer != null {
        RemoveFromPeerEntries(x);
      }
      AddToPeerEntries(x, peer);
      OwnedSequence(t, x, peer);
      OwnedInsert(t, x, peer);
    }

    lemma NodePeer(x: TrieEntry)
      requires Valid() && x in nodes
      ensures x.peer != null ==> x.peer in peers && x.listed
    {
      Fields(x);
      StateDomains();
      hide State, Linked, Branching;
    }

    /** A peer seen for the first time has an empty list. */
    ghost method Register(peer: Peer)
      requires Valid() && (peer in peers || peer.trieEntries == [])
      modifies this`peers
      ensures peers == old(peers) + {peer} && Valid()
      ensures UniqueKeys(State()) && UniqueKeys(old(State())) && Routes(State()) == old(Routes(State()))
    {
      hide Shape, Linked, Routes, UniqueKeys;
      ghost var t := State();
      peers := peers + {peer};
      RegisteredState(t, peer);
      ShapeUnique(t);
      RegisterKeeps(t, State(), peer);
    }

    lemma RegisteredState(t: Trie, peer: Peer)
      requires peer in peers && t.recs == State().recs && t.root4 == ipv4 && t.root6 == ipv6
      requires t.lists.Keys + {peer} == peers && (forall p :: p in t.lists ==> t.lists[p] == p.trieEntries)
      requires peer in t.lists || peer.trieEntries == []
      ensures State().lists == t.lists || (peer !in t.lists && State().lists == t.lists[peer := []])
    {
      if peer in t.lists {
        assert State().lists == t.lists;
      } else {
        assert State().lists == t.lists[peer := []];
      }
    }

    /** Insert: afterwards the prefix routes to peer and every other route is as before. */
    method Insert(ip: Bits, cidr: nat, peer: Peer)
      requires Valid() && IsAddress(ip) && cidr <= |ip|
      requires peer in peers || peer.trieEntries == []
      modifies this, nodes, peers, peer
      ensures Valid() && peers == old(peers) + {peer} && old(nodes) <= nodes && fresh(nodes - old(nodes))
      ensures UniqueKeys(State()) && UniqueKeys(old(State()))
      ensures Routes(State()) == old(Routes(State()))[Key(|ip|, ip[..cidr]) := peer]
    {
      hide Shape, State, Routes, UniqueKeys, Placed, Contains, CommonBits, SlotOf;
      Register(peer);
      ghost var t := State();
      StateDomains();
      var node, exact := NodePlacement(ip, cidr);
      if exact {
        ExactKey(node, ip, cidr);
        NodePeer(node);
        Overwrite(node, peer);
        return;
      }
      var masked := Mask(ip, cidr);
      PlacedMask(t, ip, cidr, node);
      MaskTwice(ip, cidr);
      PlacedFacts(t, masked, cidr, node);
      RootField(masked);
      if node != null {
        Fields(node);
      }
      var down := if node == null then (if |ip| == 32 then ipv4 else ipv6)
                  else if masked[node.cidr] then node.child1 else node.child0;
      SlotIs(t, node, masked, down);
      if down == null {
        InsertLeaf(node, masked, cidr, peer);
        return;
      }
      DownFacts(t, masked, cidr, node, down);
      var common := CommonBits(down.bits, masked);
      CommonPart(down, masked, cidr);
      if common < cidr {
        InsertFork(node, masked, cidr, peer, down, common);
      } else {
        InsertAbove(node, masked, cidr, peer, down);
      }
    }

    // -------------------------------------------------------------------------------------------
    // Removal.

    /** The slot of x now holds c. */
    method FillSlotOf(x: TrieEntry, c: TrieEntry?)
      requires x in nodes && (x.parent != null ==> x.parent in nodes)
      modifies this`ipv4, this`ipv6, x.parent
      ensures State() == SetSlotOf(old(State()), x, c)
    {
      hide WithChild, WithRoot, State, Add;
      Fields(x);
      StateDomains();
      if x.parent == null {
        AssignRoot(|x.bits|, c);
      } else {
        ghost var t, p := State(), x.parent;
        AssignChild(x.parent, x.parentBitType == 1, c);
        SetSlotIsAdd(t, x, c, p);
      }
    }

    /** zeroizePointers, once no slot points at x any more. */
    method Drop(x: TrieEntry)
      requires x in nodes
      modifies this`nodes, x
      ensures nodes == old(nodes) - {x}
      ensures State() == old(State()).(recs := old(State()).recs - {x})
    {
      ghost var t := State();
      nodes := nodes - {x};
      x.peer, x.child0, x.child1, x.parent := null, null, null, null;
      assert State().recs == t.recs - {x};
    }

    /** x leaves the trie and its only child, if any, takes its slot. */
    method SpliceOut(x: TrieEntry)
      requires x in nodes && Linked(State()) && Lone(State(), x)
      modifies this`ipv4, this`ipv6, this`nodes, nodes
      ensures nodes == old(nodes) - {x}
      ensures old(Linked(State())) && x in old(State()).recs
      ensures NodeLinks(old(State()), x) && State() == Splice(old(State()), x)
    {
      hide Linked, State, NodeOk, Splice, SetSlotOf, Add;
      ghost var t := State();
      Fields(x);
      StateDomains();
      NodeFacts(t, x);
      var c := if x.child0 == null then x.child1 else x.child0;
      if c != null {
        AssignParent(c, x.parent, x.parentBitType);
      }
      FillSlotOf(x, c);
      Drop(x);
      SpliceSequence(t, x);
    }

    /** node.remove(): the node loses its owner, and leaves the trie unless it still joins two subtries. */
    method RemoveNode(x: TrieEntry)
      requires Valid() && x in nodes && x.peer != null && x.peer in peers && x.listed
      modifies this`ipv4, this`ipv6, this`nodes, nodes, x.peer
      ensures peers == old(peers) && nodes <= old(nodes)
      ensures Valid() && UniqueKeys(State()) && UniqueKeys(old(State()))
      ensures Routes(State()) == old(Routes(State())) - {KeyOf(x)}
      ensures State().lists == old(State()).lists[old(x.peer) := WithoutNode(old(x.peer.trieEntries), x)]
    {
      hide Shape, State, Routes, UniqueKeys, RemoveState, Unowned, Splice, Linked, ListsOk, Lone, Spliced, WithoutNode;
      ghost var t, owner := State(), x.peer;
      Fields(x);
      StateDomains();
      ListField(owner);
      RemoveKeepsShape(t, x);
      RemoveLists(t, x);
      RemoveCases(t, x);
      RemoveFromPeerEntries(x);
      Fields(x);
      StateDomains();
      if x.child0 != null && x.child1 != null {
        return;
      }
      var child := if x.child0 == null then x.child1 else x.child0;
      var parent := x.parent;
      SpliceOut(x);
      StateDomains();
      if child != null || parent == null {
        return;
      }
      Fields(parent);
      if parent.peer != null {
        return;
      }
      SpliceOut(parent);
    }

    lemma ListField(p: Peer)
      requires p in peers
      ensures p in State().lists && State().lists[p] == p.trieEntries
    {
    }

    /** Remove: the prefix stops routing to peer, if it did; nothing else changes. */
    method Remove(ip: Bits, cidr: nat, peer: Peer)
      requires Valid() && IsAddress(ip) && cidr <= |ip|
      modifies this`ipv4, this`ipv6, this`nodes, nodes, peers
      ensures peers == old(peers) && nodes <= old(nodes)
      ensures Valid() && UniqueKeys(State()) && UniqueKeys(old(State()))
      ensures var k, routes := Key(|ip|, ip[..cidr]), old(Routes(State()));
        Routes(State()) == if k in routes && routes[k] == peer then routes - {k} else routes
    {
      hide Shape, State, Routes, UniqueKeys, Placed, Contains;
      ghost var t := State();
      ShapeUnique(t);
      StateDomains();
      var node, exact := NodePlacement(ip, cidr);
      if !exact {
        NotStored(t, ip, cidr, node);
        return;
      }
      ExactKey(node, ip, cidr);
      Fields(node);
      StoredRoute(t, node);
      if node.peer != peer {
        return;
      }
      NodePeer(node);
      RemoveNode(node);
    }

    /** RemoveByPeer: exactly the routes to peer disappear. */
    method RemoveByPeer(peer: Peer)
      requires Valid() && (peer in peers || peer.trieEntries == [])
      modifies this`ipv4, this`ipv6, this`nodes, nodes, peers
      ensures peers == old(peers) && nodes <= old(nodes)
      ensures Valid() && UniqueKeys(State()) && UniqueKeys(old(State()))
      ensures Routes(State()) == WithoutPeer(old(Routes(State())), peer)
    {
      hide Shape, Routes, UniqueKeys, State;
      ShapeUnique(State());
      ghost var routes := Routes(State());
      while peer.trieEntries != []
        invariant peers == old(peers) && nodes <= old(nodes) && (peer in peers || peer.trieEntries == [])
        invariant Valid() && UniqueKeys(State())
        invariant WithoutPeer(Routes(State()), peer) == WithoutPeer(routes, peer)
        decreases |peer.trieEntries|
      {
        var x := peer.trieEntries[0];
        ListField(peer);
        StateDomains();
        FirstOwned(State(), peer, x);
        Fields(x);
        StoredRoute(State(), x);
        WithoutPeerMinus(Routes(State()), KeyOf(x), peer);
        RemoveNode(x);
        ListField(peer);
      }
      NoneOwned();
      StateDomains();
      NoRouteTo(State(), peer);
    }

    lemma NoneOwned()
      ensures forall p :: p in peers ==> p in State().lists && State().lists[p] == p.trieEntries
    {
    }

    /** EntriesForPeer, called to the end: each prefix routed to peer once, and no other. */
    method EntriesForPeer(peer: Peer) returns (keys: seq<(Bits, nat)>)
      requires Valid() && (peer in peers || peer.trieEntries == [])
      ensures UniqueKeys(State())
      ensures forall i :: 0 <= i < |keys| ==> keys[i].1 <= |keys[i].0|
      ensures forall i, j :: 0 <= i < j < |keys| ==> keys[i] != keys[j]
      ensures forall k :: (k in Routes(State()) && Routes(State())[k] == peer) <==>
        exists i :: 0 <= i < |keys| && keys[i].1 <= |keys[i].0| && k == Key(|keys[i].0|, keys[i].0[..keys[i].1])
    {
      hide Shape, Routes, UniqueKeys, State;
      ghost var t := State();
      ShapeUnique(t);
      NoneOwned();
      StateDomains();
      keys := [];
      for i := 0 to |peer.trieEntries|
        invariant |keys| == i
        invariant forall j :: 0 <= j < i ==> keys[j] == (peer.trieEntries[j].bits, peer.trieEntries[j].cidr)
      {
        var n := peer.trieEntries[i];
        keys := keys + [(n.bits, n.cidr)];
      }
      ListedRoutes(t, peer, keys);
    }
  }

  /** A list of nodes of one peer names exactly its routes. */
  lemma ListedRoutes(t: Trie, peer: Peer, keys: seq<(Bits, nat)>)
    requires Shape(t) && UniqueKeys(t) && (peer !in t.lists ==> keys == [])
    requires peer in t.lists ==> |keys| == |t.lists[peer]|
    requires forall j :: 0 <= j < |keys| ==> keys[j] == (t.lists[peer][j].bits, t.lists[peer][j].cidr)
    ensures forall i :: 0 <= i < |keys| ==> keys[i].1 <= |keys[i].0|
    ensures forall i, j :: 0 <= i < j < |keys| ==> keys[i] != keys[j]
    ensures forall k :: (k in Routes(t) && Routes(t)[k] == peer) <==>
      exists i :: 0 <= i < |keys| && keys[i].1 <= |keys[i].0| && k == Key(|keys[i].0|, keys[i].0[..keys[i].1])
  {
    hide Routes, Linked, Branching;
    var s := if peer in t.lists then t.lists[peer] else [];
    forall i | 0 <= i < |keys|
      ensures keys[i].1 <= |keys[i].0|
    {
      assert s[i] in s;
      ChildrenOk(t, s[i]);
    }
    forall i, j | 0 <= i < j < |keys|
      ensures keys[i] != keys[j]
    {
      assert s[i] in s && s[j] in s && s[i] != s[j];
      assert KeyOf(s[i]) != KeyOf(s[j]);
    }
    forall k
      ensures (k in Routes(t) && Routes(t)[k] == peer) <==>
        exists i :: 0 <= i < |keys| && keys[i].1 <= |keys[i].0| && k == Key(|keys[i].0|, keys[i].0[..keys[i].1])
    {
      if k in Routes(t) && Routes(t)[k] == peer {
        var n := RoutesFrom(t, k);
        ChildrenOk(t, n);
        assert n in s;
        var i :| 0 <= i < |s| && s[i] == n;
        assert keys[i].1 <= |keys[i].0| && k == Key(|keys[i].0|, keys[i].0[..keys[i].1]);
      }
      if i :| 0 <= i < |keys| && keys[i].1 <= |keys[i].0| && k == Key(|keys[i].0|, keys[i].0[..keys[i].1]) {
        assert s[i] in s;
        RoutesHas(t, s[i]);
      }
    }
  }

  /** A prefix that nodePlacement does not find exactly has no route. */
  lemma NotStored(t: Trie, ip: Bits, cidr: nat, parent: TrieEntry?)
    requires Placed(t, ip, cidr, parent) && UniqueKeys(t)
    requires Shape(t)
    ensures cidr <= |ip| && Key(|ip|, ip[..cidr]) !in Routes(t)
  {
    hide Routes, Linked, UniqueKeys, Branching, ListsOk, KeyOf;
    var k := Key(|ip|, ip[..cidr]);
    if k in Routes(t) {
      var n := RoutesFrom(t, k);
      ChildrenOk(t, n);
      KeyContains(n, ip, cidr);
    }
  }

  lemma KeyContains(n: TrieEntry, ip: Bits, cidr: nat)
    requires n.cidr <= |n.bits| && cidr <= |ip|
    ensures KeyOf(n) == Key(|ip|, ip[..cidr]) ==> Contains(n, ip) && n.cidr == cidr
  {
    assert |n.bits[..n.cidr]| == n.cidr;
  }

  lemma StoredRoute(t: Trie, n: TrieEntry)
    requires UniqueKeys(t) && n in t.recs
    ensures t.recs[n].peer != null ==> KeyOf(n) in Routes(t) && Routes(t)[KeyOf(n)] == t.recs[n].peer
    ensures t.recs[n].peer == null ==> KeyOf(n) !in Routes(t)
  {
    hide Routes, KeyOf;
    if t.recs[n].peer != null {
      RoutesHas(t, n);
    } else if KeyOf(n) in Routes(t) {
      var m := RoutesFrom(t, KeyOf(n));
    }
  }

  lemma FirstOwned(t: Trie, peer: Peer, x: TrieEntry)
    requires Shape(t) && peer in t.lists && x in t.lists[peer]
    ensures x in t.recs && t.recs[x].peer == peer && t.recs[x].listed
  {
    hide Linked, Branching;
  }

  lemma WithoutPeerMinus(routes: map<Key, Peer>, k: Key, peer: Peer)
    requires k in routes && routes[k] == peer
    ensures WithoutPeer(routes - {k}, peer) == WithoutPeer(routes, peer)
  {
  }

  lemma NoRouteTo(t: Trie, peer: Peer)
    requires Shape(t) && UniqueKeys(t) && (peer in t.lists ==> t.lists[peer] == [])
    ensures Routes(t) == WithoutPeer(Routes(t), peer)
  {
    hide Routes, Linked, Branching;
    forall k | k in Routes(t)
      ensures Routes(t)[k] != peer
    {
      var n := RoutesFrom(t, k);
    }
  }

  ghost function WithoutPeer(routes: map<Key, Peer>, peer: Peer): map<Key, Peer> {
    map k | k in routes && routes[k] != peer :: routes[k]
  }

  /** RemoveState, one case at a time. */
  lemma RemoveCases(t: Trie, x: TrieEntry)
    requires Shape(t) && x in t.recs && t.recs[x].peer != null
    ensures t.recs[x].peer in t.lists
    ensures var r, t0 := t.recs[x], Unowned(t, x);
      && x in t0.recs && t0.recs[x] == r.(peer := null, listed := false)
      && (r.child0 != null && r.child1 != null ==> RemoveState(t, x) == t0)
      && (r.child0 == null || r.child1 == null ==>
          && Linked(t0) && Lone(t0, x) && NodeLinks(t0, x)
          && var t1 := Splice(t0, x);
            && (OnlyChild(r) != null || r.parent == null ==> RemoveState(t, x) == t1)
            && (OnlyChild(r) == null && r.parent != null ==>
                && r.parent in t1.recs && r.parent in t.recs && t1.recs[r.parent].peer == t.recs[r.parent].peer
                && (t.recs[r.parent].peer != null ==> RemoveState(t, x) == t1)
                && (t.recs[r.parent].peer == null ==>
                    && Linked(t1) && Lone(t1, r.parent) && NodeLinks(t1, r.parent)
                    && RemoveState(t, x) == Splice(t1, r.parent))))
  {
    hide Linked, ListsOk, Spliced, UniqueKeys, Routes, Splice, NodeOk;
    UnownedLists(t, x);
    UnownedLinked(t, x);
    var r, t0 := t.recs[x], Unowned(t, x);
    if r.child0 == null || r.child1 == null {
      NodeFacts(t0, x);
      SpliceKeeps(t0, x);
      var t1 := Splice(t0, x);
      if OnlyChild(r) == null && r.parent != null {
        assert BranchingBut(t0, x);
        ParentAfter(t0, t1, x, r.parent);
        if t.recs[r.parent].peer == null {
          NodeFacts(t1, r.parent);
        }
      }
    }
  }

  lemma RemoveLists(t: Trie, x: TrieEntry)
    requires Shape(t) && x in t.recs && t.recs[x].peer != null
    ensures t.recs[x].peer in t.lists
    ensures RemoveState(t, x).lists == t.lists[t.recs[x].peer := WithoutNode(t.lists[t.recs[x].peer], x)]
  {
    hide Shape, Linked, RemoveState, Unowned, Splice, Lone, WithoutNode;
    RemoveCases(t, x);
    UnownedListField(t, x);
    var r, t0 := t.recs[x], Unowned(t, x);
    if r.child0 == null || r.child1 == null {
      SpliceListField(t0, x);
      if OnlyChild(r) == null && r.parent != null && t.recs[r.parent].peer == null {
        SpliceListField(Splice(t0, x), r.parent);
      }
    }
  }

  lemma UnownedListField(t: Trie, x: TrieEntry)
    requires x in t.recs && t.recs[x].peer != null && t.recs[x].peer in t.lists
    ensures Unowned(t, x).lists == t.lists[t.recs[x].peer := WithoutNode(t.lists[t.recs[x].peer], x)]
  {
  }

  lemma SpliceListField(t: Trie, x: TrieEntry)
    requires NodeLinks(t, x)
    ensures x in t.recs && Splice(t, x).lists == t.lists
  {
  }

  /** The neighbours of x are nodes of the trie. */
  ghost predicate NodeLinks(t: Trie, x: TrieEntry) {
    && x in t.recs && (t.recs[x].parent != null ==> t.recs[x].parent in t.recs)
    && var c := OnlyChild(t.recs[x]); c != null ==> c in t.recs
  }

  lemma SetSlotIsAdd(t: Trie, x: TrieEntry, c: TrieEntry?, p: TrieEntry)
    requires x in t.recs && t.recs[x].parent == p && p in t.recs
    ensures SetSlotOf(t, x, c) == Add(t, p, WithChild(t.recs[p], t.recs[x].parentBitType == 1, c))
  {
  }

  lemma SpliceSequence(t: Trie, x: TrieEntry)
    requires NodeLinks(t, x)
    requires var c := OnlyChild(t.recs[x]); c != null ==> c != x
    ensures var c := OnlyChild(t.recs[x]);
      var t1 := if c == null then t
        else Add(t, c, t.recs[c].(parent := t.recs[x].parent, parentBitType := t.recs[x].parentBitType));
      && x in t1.recs && t1.recs[x] == t.recs[x] && (t.recs[x].parent != null ==> t.recs[x].parent in t1.recs)
      && var t2 := SetSlotOf(t1, x, c);
        t2.(recs := t2.recs - {x}) == Splice(t, x)
  {
  }

  lemma ShapeUnique(t: Trie)
    requires Shape(t)
    ensures UniqueKeys(t)
  {
    hide UniqueKeys, Linked;
    LinkedUnique(t);
  }

  lemma RegisterKeeps(t: Trie, t': Trie, peer: Peer)
    requires Shape(t) && UniqueKeys(t) && t'.recs == t.recs && t'.root4 == t.root4 && t'.root6 == t.root6
    requires t'.lists == t.lists || (peer !in t.lists && t'.lists == t.lists[peer := []])
    ensures Shape(t') && UniqueKeys(t') && Routes(t') == Routes(t)
  {
    hide Linked, UniqueKeys, Routes;
    PeerIrrelevant(t, t');
    SameRecsRoutes(t, t');
  }

  lemma SameRecsRoutes(t: Trie, t': Trie)
    requires UniqueKeys(t) && t'.recs == t.recs
    ensures UniqueKeys(t') && Routes(t') == Routes(t)
  {
    hide KeyOf;
  }

  lemma OwnedSequence(t: Trie, x: TrieEntry, peer: Peer)
    requires x in t.recs && (t.recs[x].peer != null ==> t.recs[x].peer in t.lists)
    ensures var t0 := if t.recs[x].peer != null then Unowned(t, x) else t;
      x in t0.recs && PushBack(Add(t0, x, t0.recs[x].(peer := peer, listed := true)), peer, x) == OwnedState(t, x, peer)
  {
    hide PushBack;
  }

  lemma ExactKey(n: TrieEntry, ip: Bits, cidr: nat)
    requires Contains(n, ip) && n.cidr == cidr
    ensures KeyOf(n) == Key(|ip|, ip[..cidr])
  {
  }

  lemma PlacedMask(t: Trie, ip: Bits, cidr: nat, parent: TrieEntry?)
    requires Placed(t, ip, cidr, parent)
    ensures cidr <= |ip| && Placed(t, Mask(ip, cidr), cidr, parent)
    ensures Mask(ip, cidr)[..cidr] == ip[..cidr]
  {
    var m := Mask(ip, cidr);
    forall n: TrieEntry | n.cidr <= cidr
      ensures Contains(n, m) == Contains(n, ip)
    {
      assert m[..n.cidr] == m[..cidr][..n.cidr] && ip[..n.cidr] == ip[..cidr][..n.cidr];
    }
  }

  lemma SlotIs(t: Trie, parent: TrieEntry?, ip: Bits, d: TrieEntry?)
    requires parent != null ==> parent in t.recs && parent.cidr < |ip|
    requires parent == null ==> d == Root(t, |ip|)
    requires parent != null ==> d == if ip[parent.cidr] then t.recs[parent].child1 else t.recs[parent].child0
    ensures SlotOf(t, parent, ip) == d
  {
  }

  /** What hangs below the placement is longer than the new prefix, or parts from it. */
  lemma DownFacts(t: Trie, ip: Bits, cidr: nat, parent: TrieEntry?, down: TrieEntry)
    requires Placed(t, ip, cidr, parent)
    requires parent != null ==> parent in t.recs && parent.cidr < |ip|
    requires SlotOf(t, parent, ip) == down
    requires Shape(t)
    ensures down in t.recs && down.cidr <= |down.bits| == |ip|
    ensures !(Contains(down, ip) && down.cidr <= cidr)
  {
    PlacedFacts(t, ip, cidr, parent);
    SlotContent(t, parent, ip);
    ChildrenOk(t, down);
  }

  lemma CommonPart(down: TrieEntry, ip: Bits, cidr: nat)
    requires down.cidr <= |down.bits| == |ip| && cidr <= |ip|
    requires !(Contains(down, ip) && down.cidr <= cidr)
    ensures var c := CommonBits(down.bits, ip);
      && (c < cidr ==> c < down.cidr && down.bits[..c] == ip[..c] && down.bits[c] != ip[c])
      && (c >= cidr ==> cidr < down.cidr && down.bits[..cidr] == ip[..cidr])
  {
    PrefixTest(down, ip);
    var c := CommonBits(down.bits, ip);
    if c >= cidr {
      assert down.bits[..cidr] == down.bits[..c][..cidr] == ip[..c][..cidr] == ip[..cidr];
    }
  }

  /** commonBits(node.bits, ip) >= node.cidr asks whether the node's prefix contains the address. */
  lemma PrefixTest(n: TrieEntry, ip: Bits)
    requires |n.bits| == |ip| && n.cidr <= |ip|
    ensures CommonBits(n.bits, ip) >= n.cidr <==> Contains(n, ip)
  {
    var c := CommonBits(n.bits, ip);
    if c >= n.cidr {
      assert n.bits[..n.cidr] == n.bits[..c][..n.cidr] == ip[..c][..n.cidr] == ip[..n.cidr];
    } else if Contains(n, ip) {
      CoveredBit(n, ip, c);
    }
  }

  lemma ChildProgress(t: Trie, n: TrieEntry, ip: Bits)
    requires Linked(t) && n in t.recs && |n.bits| == |ip|
    ensures n.cidr <= |ip|
    ensures n.cidr < |ip| ==> var c := Child(t.recs[n], ip[n.cidr]);
      c != null ==> c in t.recs && n.cidr < c.cidr <= |ip| == |c.bits|
  {
    ChildrenOk(t, n);
    if n.cidr < |ip| {
      var c := Child(t.recs[n], ip[n.cidr]);
      if c != null {
        ChildrenOk(t, c);
      }
    }
  }

  lemma RootWidth(t: Trie, w: nat)
    requires Linked(t) && (w == 32 || w == 128)
    ensures var r := Root(t, w); r != null ==> r in t.recs && |r.bits| == w && r.cidr <= w
  {
    assert RootOk(t, w);
    var r := Root(t, w);
    if r != null {
      ChildrenOk(t, r);
    }
  }

  lemma PlacedCidr(t: Trie, ip: Bits, cidr: nat, parent: TrieEntry?)
    requires Placed(t, ip, cidr, parent)
    ensures cidr <= |ip|
  {
  }

  lemma LeafSequence(t: Trie, parent: TrieEntry?, ip: Bits, n: TrieEntry, peer: Peer)
    requires parent != null ==> parent in t.recs && parent.cidr < |ip|
    ensures var t1 := Add(t, n, Rec(peer, null, null, null, 2, true));
      SetSlot(Add(t1, n, Rec(peer, null, null, parent, SlotType(parent, ip), true)), parent, ip, n)
      == LeafState(t, parent, ip, n, peer)
  {
    hide SetSlot;
    AddTwice(t, n, Rec(peer, null, null, null, 2, true), Rec(peer, null, null, parent, SlotType(parent, ip), true));
  }

  lemma AddTwice(t: Trie, n: TrieEntry, a: Rec, b: Rec)
    ensures Add(Add(t, n, a), n, b) == Add(t, n, b)
  {
    assert t.recs[n := a][n := b] == t.recs[n := b];
  }

  lemma AddSwap(t: Trie, n: TrieEntry, a: Rec, m: TrieEntry, b: Rec)
    requires n != m
    ensures Add(Add(t, n, a), m, b) == Add(Add(t, m, b), n, a)
  {
    assert t.recs[n := a][m := b] == t.recs[m := b][n := a];
  }

  lemma PushBackRecs(t: Trie, peer: Peer, n: TrieEntry)
    ensures PushBack(t, peer, n).recs == t.recs
  {
  }

  lemma AddedRec(t: Trie, n: TrieEntry, r: Rec)
    ensures n in Add(t, n, r).recs && Add(t, n, r).recs[n] == r
  {
  }

  lemma MaskTwice(ip: Bits, c: nat)
    requires c <= |ip|
    ensures Mask(Mask(ip, c), c) == Mask(ip, c)
  {
  }

  lemma AboveSequence(t: Trie, parent: TrieEntry?, ip: Bits, n: TrieEntry, peer: Peer, down: TrieEntry)
    requires n !in t.recs && down in t.recs && n.cidr < |down.bits|
    requires parent != null ==> parent in t.recs && parent.cidr < |ip|
    ensures var bit := down.bits[n.cidr];
      var t1 := Add(t, n, Rec(peer, null, null, null, 2, true));
      var t2 := Add(t1, down, t1.recs[down].(parent := n, parentBitType := BitType(bit)));
      var r := Rec(peer, if bit then null else down, if bit then down else null, parent, SlotType(parent, ip), true);
      SetSlot(Add(t2, n, r), parent, ip, n) == AboveState(t, parent, ip, n, peer, down)
  {
    var bit := down.bits[n.cidr];
    var r1, r := Rec(peer, null, null, null, 2, true),
      Rec(peer, if bit then null else down, if bit then down else null, parent, SlotType(parent, ip), true);
    var m := Moved(t.recs[down], n, bit);
    AddSwap(t, n, r1, down, m);
    AddTwice(Add(t, down, m), n, r1, r);
    hide SetSlot;
  }

  lemma ForkSequence(t: Trie, parent: TrieEntry?, ip: Bits, n: TrieEntry, peer: Peer, down: TrieEntry, fork: TrieEntry)
    requires n !in t.recs && fork !in t.recs && n != fork && down in t.recs
    requires fork.cidr < |down.bits| && fork.cidr < |n.bits| && down.bits[fork.cidr] != n.bits[fork.cidr]
    requires parent != null ==> parent in t.recs && parent.cidr < |ip|
    ensures var db, nb := down.bits[fork.cidr], n.bits[fork.cidr];
      var t1 := Add(Add(t, n, Rec(peer, null, null, null, 2, true)), fork, Rec(null, null, null, null, 2, false));
      var t2 := Add(t1, down, t1.recs[down].(parent := fork, parentBitType := BitType(db)));
      var t3 := Add(t2, n, t2.recs[n].(parent := fork, parentBitType := BitType(nb)));
      var r := Rec(null, if db then n else down, if db then down else n, parent, SlotType(parent, ip), false);
      SetSlot(Add(t3, fork, r), parent, ip, fork) == ForkState(t, parent, ip, n, peer, down, fork)
  {
    var db, nb := down.bits[fork.cidr], n.bits[fork.cidr];
    var r1, r0 := Rec(peer, null, null, null, 2, true), Rec(null, null, null, null, 2, false);
    var r := Rec(null, if db then n else down, if db then down else n, parent, SlotType(parent, ip), false);
    var m, r2 := Moved(t.recs[down], fork, db), Rec(peer, null, null, fork, BitType(nb), true);
    AddThree(t, n, r1, fork, r0, down, m, r2, r);
    hide SetSlot;
  }

  lemma AddThree(t: Trie, n: TrieEntry, r1: Rec, fork: TrieEntry, r0: Rec, down: TrieEntry, m: Rec, r2: Rec, r: Rec)
    requires n != fork && down != n && down != fork
    ensures Add(Add(Add(Add(Add(t, n, r1), fork, r0), down, m), n, r2), fork, r) ==
      Add(Add(Add(t, down, m), n, r2), fork, r)
  {
    assert t.recs[n := r1][fork := r0][down := m][n := r2][fork := r] == t.recs[down := m][n := r2][fork := r];
  }
}

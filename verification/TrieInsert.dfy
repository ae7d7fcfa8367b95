/** Insertion into the routing trie, on the value of its fields. */
module TrieInsert {
  import opened TrieModel

  /** parent is where nodePlacement stops: the longest stored prefix of ip that is shorter than cidr. */
  ghost predicate Placed(t: Trie, ip: Bits, cidr: nat, parent: TrieEntry?) {
    && IsAddress(ip) && cidr <= |ip|
    && (parent != null ==> parent in t.recs && Contains(parent, ip) && parent.cidr < cidr)
    && (forall m :: m in t.recs && Contains(m, ip) && m.cidr <= cidr ==> parent != null && m.cidr <= parent.cidr)
  }

  ghost function SlotType(parent: TrieEntry?, ip: Bits): nat
    requires parent != null ==> parent.cidr < |ip|
  {
    if parent == null then 2 else BitType(ip[parent.cidr])
  }

  /** *parentBit: the slot below parent on the side of ip. */
  ghost function SlotOf(t: Trie, parent: TrieEntry?, ip: Bits): TrieEntry?
    requires parent != null ==> parent in t.recs && parent.cidr < |ip|
  {
    if parent == null then Root(t, |ip|) else Child(t.recs[parent], ip[parent.cidr])
  }

  ghost function WithChild(r: Rec, bit: bool, c: TrieEntry?): Rec {
    if bit then r.(child1 := c) else r.(child0 := c)
  }

  ghost function WithRoot(t: Trie, width: nat, c: TrieEntry?): Trie {
    if width == 32 then t.(root4 := c) else t.(root6 := c)
  }

  /** *parentBit = c. */
  ghost function SetSlot(t: Trie, parent: TrieEntry?, ip: Bits, c: TrieEntry?): Trie
    requires parent != null ==> parent in t.recs && parent.cidr < |ip|
  {
    if parent == null then WithRoot(t, |ip|, c)
    else t.(recs := t.recs[parent := WithChild(t.recs[parent], ip[parent.cidr], c)])
  }

  ghost function Add(t: Trie, n: TrieEntry, r: Rec): Trie {
    t.(recs := t.recs[n := r])
  }

  /** m lies under the slot below parent on the side of ip. */
  ghost predicate Below(parent: TrieEntry?, ip: Bits, m: TrieEntry)
    requires parent != null ==> parent.cidr < |ip|
  {
    && |m.bits| == |ip|
    && (parent != null ==> StrictlyCovers(parent, m) && m.bits[parent.cidr] == ip[parent.cidr])
  }

  lemma BelowSlot(t: Trie, parent: TrieEntry?, ip: Bits, m: TrieEntry)
    requires Linked(t) && m in t.recs
    requires parent != null ==> parent in t.recs && parent.cidr < |ip|
    requires Below(parent, ip, m)
    ensures SlotOf(t, parent, ip) != null && Covers(SlotOf(t, parent, ip), m)
  {
    if parent == null {
      assert Rooted(t, m);
    } else {
      assert PairOk(t, parent, m);
    }
  }

  /** What covers a prefix of the inserted address is the placement or above it. */
  lemma AbovePlacement(t: Trie, ip: Bits, cidr: nat, parent: TrieEntry?, n: TrieEntry)
    requires Linked(t) && Placed(t, ip, cidr, parent)
    requires n in t.recs && Contains(n, ip) && n.cidr <= cidr
    ensures parent != null && (n == parent || StrictlyCovers(n, parent))
    ensures n != parent ==>
      var c := Child(t.recs[n], ip[n.cidr]);
      c != null && c.cidr <= parent.cidr && Contains(c, ip)
  {
    Chain(n, parent, ip);
    assert PairOk(t, n, parent);
    if n != parent {
      assert NodeOk(t, n) && NodeOk(t, parent);
      assert parent.bits[n.cidr] == parent.bits[..parent.cidr][n.cidr] == ip[..parent.cidr][n.cidr] == ip[n.cidr];
      var c := Child(t.recs[n], ip[n.cidr]);
      CoversTransitive(c, parent, ip);
    }
  }

  // ---------------------------------------------------------------------------------------------
  // Replacing what hangs in one slot by a node that covers it.

  ghost predicate SameBut(r: Rec, r': Rec, bit: bool, c: TrieEntry?) {
    && r'.peer == r.peer && r'.listed == r.listed && Child(r', bit) == c && Child(r', !bit) == Child(r, !bit)
  }

  /** t' is t with new nodes, top in the slot, and only the former content of the slot moved. */
  ghost predicate Regrown(t: Trie, t': Trie, parent: TrieEntry?, ip: Bits, top: TrieEntry?)
    requires parent != null ==> parent in t.recs && parent.cidr < |ip|
  {
    && (forall n :: n in t.recs ==> n in t'.recs)
    && (forall n :: n in t.recs && n != parent ==> SameBut(t.recs[n], t'.recs[n], false, Child(t.recs[n], false)))
    && (parent != null ==> parent in t'.recs && SameBut(t.recs[parent], t'.recs[parent], ip[parent.cidr], top))
    && (forall n :: n in t.recs && n != SlotOf(t, parent, ip) ==>
          t'.recs[n].parent == t.recs[n].parent && t'.recs[n].parentBitType == t.recs[n].parentBitType)
    && (forall w :: w == 32 || w == 128 ==> Root(t', w) == if parent == null && w == |ip| then top else Root(t, w))
  }

  lemma ChildAfter(t: Trie, t': Trie, parent: TrieEntry?, ip: Bits, top: TrieEntry?, n: TrieEntry, bit: bool)
    requires parent != null ==> parent in t.recs && parent.cidr < |ip|
    requires Regrown(t, t', parent, ip, top) && n in t.recs
    ensures n in t'.recs
    ensures Child(t'.recs[n], bit) ==
            if n == parent && bit == ip[n.cidr] then top else Child(t.recs[n], bit)
  {
    if n == parent {
      assert SameBut(t.recs[n], t'.recs[n], ip[n.cidr], top);
    } else {
      assert SameBut(t.recs[n], t'.recs[n], false, Child(t.recs[n], false));
    }
  }

  /** Among old nodes. */
  lemma OldPair(t: Trie, t': Trie, parent: TrieEntry?, ip: Bits, top: TrieEntry, n: TrieEntry, m: TrieEntry)
    requires Linked(t) && n in t.recs && m in t.recs
    requires parent != null ==> parent in t.recs && parent.cidr < |ip|
    requires parent != null ==> Contains(parent, ip)
    requires Regrown(t, t', parent, ip, top)
    requires Below(parent, ip, m) ==> Covers(top, m)
    ensures n in t'.recs && PairOk(t', n, m) && Rooted(t', m)
  {
    assert PairOk(t, n, m) && Rooted(t, m) && NodeOk(t, m);
    ChildAfter(t, t', parent, ip, top, n, false);
    ChildAfter(t, t', parent, ip, top, n, true);
    hide Linked, NodeOk, Regrown;
    RootsAfter(t, t', parent, ip, top, m);
  }

  lemma RootsAfter(t: Trie, t': Trie, parent: TrieEntry?, ip: Bits, top: TrieEntry?, m: TrieEntry)
    requires parent != null ==> parent in t.recs && parent.cidr < |ip|
    requires Regrown(t, t', parent, ip, top) && IsAddress(m.bits)
    ensures Root(t', |m.bits|) == if parent == null && |m.bits| == |ip| then top else Root(t, |m.bits|)
  {
  }

  /** A new prefix of the inserted address, longer than the placement. */
  ghost predicate NewOnPath(t: Trie, parent: TrieEntry?, ip: Bits, cidr: nat, y: TrieEntry) {
    && y !in t.recs && WellSized(y) && Contains(y, ip) && y.cidr <= cidr
    && (parent != null ==> parent.cidr < y.cidr)
  }

  lemma NewIsBelow(t: Trie, parent: TrieEntry?, ip: Bits, cidr: nat, y: TrieEntry)
    requires Placed(t, ip, cidr, parent) && NewOnPath(t, parent, ip, cidr, y)
    ensures Below(parent, ip, y)
  {
    if parent != null {
      Chain(parent, y, ip);
      assert y.bits[parent.cidr] == y.bits[..y.cidr][parent.cidr] == ip[..y.cidr][parent.cidr] == ip[parent.cidr];
    }
  }

  /** From old nodes to a new one. */
  lemma OldToNew(t: Trie, t': Trie, parent: TrieEntry?, ip: Bits, cidr: nat, top: TrieEntry, n: TrieEntry, y: TrieEntry)
    requires Linked(t) && n in t.recs && Placed(t, ip, cidr, parent)
    requires Regrown(t, t', parent, ip, top)
    requires NewOnPath(t, parent, ip, cidr, y) && Covers(top, y)
    ensures n in t'.recs && PairOk(t', n, y)
  {
    ChildAfter(t, t', parent, ip, top, n, false);
    ChildAfter(t, t', parent, ip, top, n, true);
    assert NodeOk(t, n);
    if Covers(n, y) {
      CoversTransitive(n, y, ip);
      AbovePlacement(t, ip, cidr, parent, n);
      assert n.cidr < y.cidr;
      assert y.bits[n.cidr] == y.bits[..y.cidr][n.cidr] == ip[..y.cidr][n.cidr] == ip[n.cidr];
      if n != parent {
        Chain(Child(t.recs[n], ip[n.cidr]), y, ip);
      }
    }
  }

  lemma NewRooted(t: Trie, t': Trie, parent: TrieEntry?, ip: Bits, cidr: nat, top: TrieEntry, y: TrieEntry)
    requires Linked(t) && Placed(t, ip, cidr, parent)
    requires Regrown(t, t', parent, ip, top)
    requires NewOnPath(t, parent, ip, cidr, y) && Covers(top, y)
    ensures Rooted(t', y)
  {
    RootsAfter(t, t', parent, ip, top, y);
    if parent != null {
      var r := Root(t, |ip|);
      assert Rooted(t, parent) && NodeOk(t, parent);
      NewIsBelow(t, parent, ip, cidr, y);
      CoversTransitive(r, parent, y.bits);
    }
  }

  /** The links of an old node. */
  lemma OldNode(t: Trie, t': Trie, parent: TrieEntry?, ip: Bits, top: TrieEntry, n: TrieEntry)
    requires Linked(t) && n in t.recs && IsAddress(ip)
    requires parent != null ==> parent in t.recs && parent.cidr < |ip| == |parent.bits|
    requires Regrown(t, t', parent, ip, top)
    requires top in t'.recs && t'.recs[top].parent == parent && t'.recs[top].parentBitType == SlotType(parent, ip)
    requires parent != null ==> StrictlyCovers(parent, top) && top.bits[parent.cidr] == ip[parent.cidr]
    requires n == SlotOf(t, parent, ip) ==> n in t'.recs && ParentOk(t', n)
    ensures n in t'.recs && NodeOk(t', n)
  {
    ChildAfter(t, t', parent, ip, top, n, false);
    ChildAfter(t, t', parent, ip, top, n, true);
    OldChild(t, t', parent, ip, top, n, false);
    OldChild(t, t', parent, ip, top, n, true);
    assert NodeOk(t, n);
    if n != SlotOf(t, parent, ip) {
      OldParent(t, t', parent, ip, top, n);
    }
  }

  /** What hangs in a slot remembers it. */
  lemma SlotContent(t: Trie, parent: TrieEntry?, ip: Bits)
    requires IsAddress(ip)
    requires parent != null ==> parent in t.recs && parent.cidr < |ip| == |parent.bits|
    requires Linked(t)
    ensures var d := SlotOf(t, parent, ip);
      d != null ==> d in t.recs && t.recs[d].parent == parent && t.recs[d].parentBitType == SlotType(parent, ip)
                    && Below(parent, ip, d)
  {
    var d := SlotOf(t, parent, ip);
    if d != null {
      if parent == null {
        assert RootOk(t, |ip|);
        assert NodeOk(t, d);
      } else {
        assert NodeOk(t, parent);
        assert ChildOk(t, parent, ip[parent.cidr]);
      }
    }
  }

  lemma OldChild(t: Trie, t': Trie, parent: TrieEntry?, ip: Bits, top: TrieEntry, n: TrieEntry, bit: bool)
    requires IsAddress(ip)
    requires parent != null ==> parent in t.recs && parent.cidr < |ip| == |parent.bits|
    requires Regrown(t, t', parent, ip, top)
    requires Linked(t) && n in t.recs
    requires top in t'.recs && t'.recs[top].parent == parent && t'.recs[top].parentBitType == SlotType(parent, ip)
    requires parent != null ==> StrictlyCovers(parent, top) && top.bits[parent.cidr] == ip[parent.cidr]
    ensures n in t'.recs && ChildOk(t', n, bit)
  {
    ChildAfter(t, t', parent, ip, top, n, bit);
    assert NodeOk(t, n) && ChildOk(t, n, bit);
    var c := Child(t.recs[n], bit);
    if c != null && !(n == parent && bit == ip[n.cidr]) {
      SlotContent(t, parent, ip);
    }
  }

  lemma OldParent(t: Trie, t': Trie, parent: TrieEntry?, ip: Bits, top: TrieEntry, n: TrieEntry)
    requires parent != null ==> parent in t.recs && parent.cidr < |ip|
    requires n in t.recs && n != SlotOf(t, parent, ip)
    requires Regrown(t, t', parent, ip, top)
    requires Linked(t)
    ensures n in t'.recs && ParentOk(t', n)
  {
    assert NodeOk(t, n);
    var p := t.recs[n].parent;
    if p == null {
      RootsAfter(t, t', parent, ip, top, n);
    } else {
      ChildAfter(t, t', parent, ip, top, p, t.recs[n].parentBitType == 1);
    }
  }

  /** Hanging new nodes into the slot of the placement, above what was there, keeps the links. */
  lemma GrowLinked(t: Trie, t': Trie, parent: TrieEntry?, ip: Bits, cidr: nat, top: TrieEntry, news: set<TrieEntry>)
    requires Placed(t, ip, cidr, parent)
    requires Regrown(t, t', parent, ip, top)
    requires t'.recs.Keys == t.recs.Keys + news && top in news
    requires t'.recs[top].parent == parent && t'.recs[top].parentBitType == SlotType(parent, ip)
    requires forall y :: y in news ==> NewOnPath(t, parent, ip, cidr, y) && Covers(top, y) && NodeOk(t', y)
    requires forall y, m :: y in news && m in t'.recs ==> PairOk(t', y, m)
    requires var d := SlotOf(t, parent, ip); d != null ==> d in t'.recs && ParentOk(t', d) && Covers(top, d)
    requires Linked(t)
    ensures Linked(t')
  {
    hide NodeOk, PairOk, Rooted, Regrown, RootOk, Placed;
    PlacedFacts(t, ip, cidr, parent);
    NewIsBelow(t, parent, ip, cidr, top);
    forall n | n in t'.recs
      ensures NodeOk(t', n) && Rooted(t', n)
    {
      if n in news {
        NewRooted(t, t', parent, ip, cidr, top, n);
      } else {
        OldNode(t, t', parent, ip, top, n);
        OldCovered(t, parent, ip, top, n);
        OldPair(t, t', parent, ip, top, n, n);
      }
    }
    forall n, m | n in t'.recs && m in t'.recs
      ensures PairOk(t', n, m)
    {
      if n !in news {
        if m in news {
          OldToNew(t, t', parent, ip, cidr, top, n, m);
        } else {
          OldCovered(t, parent, ip, top, m);
          OldPair(t, t', parent, ip, top, n, m);
        }
      }
    }
    RootStays(t, t', parent, ip, cidr, top, 32);
    RootStays(t, t', parent, ip, cidr, top, 128);
  }

  lemma PlacedFacts(t: Trie, ip: Bits, cidr: nat, parent: TrieEntry?)
    requires Placed(t, ip, cidr, parent)
    ensures IsAddress(ip)
    ensures (parent != null ==> parent in t.recs && Contains(parent, ip) && parent.cidr < |ip| == |parent.bits|)
  {
  }

  lemma OldCovered(t: Trie, parent: TrieEntry?, ip: Bits, top: TrieEntry, m: TrieEntry)
    requires parent != null ==> parent in t.recs && parent.cidr < |ip|
    requires var d := SlotOf(t, parent, ip); d != null ==> Covers(top, d)
    requires Linked(t) && m in t.recs
    ensures Below(parent, ip, m) ==> Covers(top, m)
  {
    if Below(parent, ip, m) {
      BelowSlot(t, parent, ip, m);
      CoversTransitive(top, SlotOf(t, parent, ip), m.bits);
    }
  }

  lemma RootStays(t: Trie, t': Trie, parent: TrieEntry?, ip: Bits, cidr: nat, top: TrieEntry, w: nat)
    requires w == 32 || w == 128
    requires Placed(t, ip, cidr, parent)
    requires Regrown(t, t', parent, ip, top)
    requires top in t'.recs && t'.recs[top].parent == parent && |top.bits| == |ip|
    requires Linked(t)
    ensures RootOk(t', w)
  {
    assert RootOk(t, w);
    var r := Root(t', w);
    if r != null && r != top {
      assert r == Root(t, w) && r in t.recs;
      if parent == null {
        assert w != |ip|;
        assert NodeOk(t, r);
      }
      SlotContent(t, parent, ip);
    }
  }

  // ---------------------------------------------------------------------------------------------
  // The three ways an insertion ends.

  ghost function Moved(r: Rec, parent: TrieEntry, bit: bool): Rec {
    r.(parent := parent, parentBitType := BitType(bit))
  }

  /** The slot was empty: the new node is a leaf. */
  ghost function LeafState(t: Trie, parent: TrieEntry?, ip: Bits, n: TrieEntry, peer: Peer): Trie
    requires parent != null ==> parent in t.recs && parent.cidr < |ip|
  {
    SetSlot(Add(t, n, Rec(peer, null, null, parent, SlotType(parent, ip), true)), parent, ip, n)
  }

  /** The new prefix contains what was in the slot. */
  ghost function AboveState(t: Trie, parent: TrieEntry?, ip: Bits, n: TrieEntry, peer: Peer, down: TrieEntry): Trie
    requires parent != null ==> parent in t.recs && parent.cidr < |ip|
    requires down in t.recs && n.cidr < |down.bits|
  {
    var bit := down.bits[n.cidr];
    var t1 := Add(t, down, Moved(t.recs[down], n, bit));
    var t2 := Add(t1, n, WithChild(Rec(peer, null, null, parent, SlotType(parent, ip), true), bit, down));
    SetSlot(t2, parent, ip, n)
  }

  /** The two prefixes part ways: a node without owner joins them. */
  ghost function ForkState(t: Trie, parent: TrieEntry?, ip: Bits, n: TrieEntry, peer: Peer, down: TrieEntry,
                           fork: TrieEntry): Trie
    requires parent != null ==> parent in t.recs && parent.cidr < |ip|
    requires down in t.recs && fork.cidr < |down.bits| && fork.cidr < |n.bits|
  {
    var downBit, newBit := down.bits[fork.cidr], n.bits[fork.cidr];
    var t1 := Add(t, down, Moved(t.recs[down], fork, downBit));
    var t2 := Add(t1, n, Rec(peer, null, null, fork, BitType(newBit), true));
    var r := WithChild(WithChild(Rec(null, null, null, parent, SlotType(parent, ip), false), downBit, down), newBit, n);
    SetSlot(Add(t2, fork, r), parent, ip, fork)
  }

  ghost predicate Fresh(t: Trie, n: TrieEntry, ip: Bits, cidr: nat) {
    n !in t.recs && n.bits == ip && n.cidr == cidr && WellSized(n)
  }

  /** An old node under a new prefix of the path hangs in the slot. */
  lemma UnderNew(t: Trie, ip: Bits, cidr: nat, parent: TrieEntry?, y: TrieEntry, m: TrieEntry)
    requires Placed(t, ip, cidr, parent) && NewOnPath(t, parent, ip, cidr, y)
    requires Linked(t) && m in t.recs
    ensures Covers(y, m) ==> y.cidr < m.cidr
    ensures Covers(y, m) ==> var d := SlotOf(t, parent, ip); d != null && Covers(d, m)
  {
    if Covers(y, m) {
      assert NodeOk(t, m);
      if m.cidr == y.cidr {
        ContainsShorter(y, m.bits, ip, y.cidr);
        assert Contains(m, ip);
        assert false;
      }
      NewIsBelow(t, parent, ip, cidr, y);
      if parent != null {
        CoversTransitive(parent, y, m.bits);
        assert m.bits[parent.cidr] == m.bits[..y.cidr][parent.cidr] == y.bits[..y.cidr][parent.cidr] ==
          y.bits[parent.cidr];
      }
      BelowSlot(t, parent, ip, m);
    }
  }

  lemma NewSelf(t: Trie, parent: TrieEntry?, ip: Bits, cidr: nat, n: TrieEntry)
    requires Placed(t, ip, cidr, parent) && Fresh(t, n, ip, cidr)
    ensures NewOnPath(t, parent, ip, cidr, n)
  {
  }

  lemma LeafRegrown(t: Trie, parent: TrieEntry?, ip: Bits, n: TrieEntry, peer: Peer)
    requires parent != null ==> parent in t.recs && parent.cidr < |ip|
    requires IsAddress(ip) && n !in t.recs
    ensures var t' := LeafState(t, parent, ip, n, peer);
      && Regrown(t, t', parent, ip, n)
      && t'.recs.Keys == t.recs.Keys + {n}
      && t'.recs[n] == Rec(peer, null, null, parent, SlotType(parent, ip), true)
  {
  }

  /** The new node of an insertion is well linked at its top. */
  lemma TopParentOk(t: Trie, t': Trie, parent: TrieEntry?, ip: Bits, top: TrieEntry)
    requires parent != null ==> parent in t.recs && parent.cidr < |ip|
    requires IsAddress(ip) && |top.bits| == |ip|
    requires Regrown(t, t', parent, ip, top)
    requires top in t'.recs && t'.recs[top].parent == parent && t'.recs[top].parentBitType == SlotType(parent, ip)
    ensures ParentOk(t', top)
  {
    if parent != null {
      ChildAfter(t, t', parent, ip, top, parent, ip[parent.cidr]);
    }
  }

  lemma LeafLinked(t: Trie, parent: TrieEntry?, ip: Bits, cidr: nat, n: TrieEntry, peer: Peer)
    requires Placed(t, ip, cidr, parent) && Fresh(t, n, ip, cidr)
    requires SlotOf(t, parent, ip) == null
    requires Linked(t)
    ensures Linked(LeafState(t, parent, ip, n, peer))
  {
    hide Linked, Placed, LeafState, Regrown;
    PlacedFacts(t, ip, cidr, parent);
    var t' := LeafState(t, parent, ip, n, peer);
    NewSelf(t, parent, ip, cidr, n);
    LeafRegrown(t, parent, ip, n, peer);
    TopParentOk(t, t', parent, ip, n);
    forall m | m in t'.recs
      ensures PairOk(t', n, m)
    {
      if m != n {
        UnderNew(t, ip, cidr, parent, n, m);
      }
    }
    GrowLinked(t, t', parent, ip, cidr, n, {n});
  }

  /** Bits of a covered prefix agree with those of the covering one. */
  lemma CoveredBit(n: TrieEntry, ip: Bits, k: nat)
    requires Contains(n, ip) && k < n.cidr
    ensures k < |n.bits| == |ip| && n.bits[k] == ip[k]
  {
    assert n.bits[k] == n.bits[..n.cidr][k] == ip[..n.cidr][k] == ip[k];
  }

  lemma AboveRegrown(t: Trie, parent: TrieEntry?, ip: Bits, n: TrieEntry, peer: Peer, down: TrieEntry)
    requires parent != null ==> parent in t.recs && parent.cidr < |ip|
    requires IsAddress(ip) && n !in t.recs && down in t.recs && n.cidr < |down.bits|
    requires SlotOf(t, parent, ip) == down && parent != down
    ensures var t' := AboveState(t, parent, ip, n, peer, down);
      && Regrown(t, t', parent, ip, n)
      && t'.recs.Keys == t.recs.Keys + {n}
      && t'.recs[n] == WithChild(Rec(peer, null, null, parent, SlotType(parent, ip), true), down.bits[n.cidr], down)
      && t'.recs[down] == Moved(t.recs[down], n, down.bits[n.cidr])
  {
    var bit := down.bits[n.cidr];
    var r := WithChild(Rec(peer, null, null, parent, SlotType(parent, ip), true), bit, down);
    var t2 := Add(Add(t, down, Moved(t.recs[down], n, bit)), n, r);
    SlotRegrown(t, t2, parent, ip, n, {n}, down);
    hide Regrown, SetSlot;
    SetSlotKeeps(t2, parent, ip, n, n);
    SetSlotKeeps(t2, parent, ip, n, down);
  }

  lemma AboveLinked(t: Trie, parent: TrieEntry?, ip: Bits, cidr: nat, n: TrieEntry, peer: Peer, down: TrieEntry)
    requires Placed(t, ip, cidr, parent) && Fresh(t, n, ip, cidr)
    requires SlotOf(t, parent, ip) == down
    requires StrictlyCovers(n, down)
    requires Linked(t)
    ensures down in t.recs
    ensures Linked(AboveState(t, parent, ip, n, peer, down))
  {
    hide Linked, Placed, AboveState, Regrown;
    PlacedFacts(t, ip, cidr, parent);
    SlotContent(t, parent, ip);
    var t' := AboveState(t, parent, ip, n, peer, down);
    NewSelf(t, parent, ip, cidr, n);
    AboveRegrown(t, parent, ip, n, peer, down);
    TopParentOk(t, t', parent, ip, n);
    forall m | m in t'.recs
      ensures PairOk(t', n, m)
    {
      if m != n {
        UnderNew(t, ip, cidr, parent, n, m);
        if Covers(n, m) {
          CoveredBit(down, m.bits, n.cidr);
        }
      }
    }
    assert NodeOk(t', n);
    GrowLinked(t, t', parent, ip, cidr, n, {n});
  }

  lemma ForkRegrown(t: Trie, parent: TrieEntry?, ip: Bits, n: TrieEntry, peer: Peer, down: TrieEntry, fork: TrieEntry)
    requires parent != null ==> parent in t.recs && parent.cidr < |ip|
    requires IsAddress(ip) && n !in t.recs && fork !in t.recs && n != fork && down in t.recs
    requires fork.cidr < |down.bits| && fork.cidr < |n.bits| && down.bits[fork.cidr] != n.bits[fork.cidr]
    requires SlotOf(t, parent, ip) == down && parent != down
    ensures var t' := ForkState(t, parent, ip, n, peer, down, fork);
      && Regrown(t, t', parent, ip, fork)
      && t'.recs.Keys == t.recs.Keys + {n, fork}
      && t'.recs[n] == Rec(peer, null, null, fork, BitType(n.bits[fork.cidr]), true)
      && t'.recs[fork].parent == parent && t'.recs[fork].parentBitType == SlotType(parent, ip)
      && t'.recs[fork].peer == null
      && Child(t'.recs[fork], down.bits[fork.cidr]) == down && Child(t'.recs[fork], n.bits[fork.cidr]) == n
      && t'.recs[down] == Moved(t.recs[down], fork, down.bits[fork.cidr])
  {
    var db, nb := down.bits[fork.cidr], n.bits[fork.cidr];
    var r := WithChild(WithChild(Rec(null, null, null, parent, SlotType(parent, ip), false), db, down), nb, n);
    var m := Moved(t.recs[down], fork, db);
    var s := Rec(peer, null, null, fork, BitType(nb), true);
    var t3 := Add(Add(Add(t, down, m), n, s), fork, r);
    SlotRegrown(t, t3, parent, ip, fork, {n, fork}, down);
    hide Regrown, SetSlot;
    SetSlotKeeps(t3, parent, ip, fork, n);
    SetSlotKeeps(t3, parent, ip, fork, fork);
    SetSlotKeeps(t3, parent, ip, fork, down);
  }

  /** Filling the slot of a state that differs from t by new nodes and by where down hangs. */
  lemma SlotRegrown(t: Trie, t3: Trie, parent: TrieEntry?, ip: Bits, top: TrieEntry, news: set<TrieEntry>,
                    down: TrieEntry?)
    requires parent != null ==> parent in t.recs && parent.cidr < |ip|
    requires IsAddress(ip) && SlotOf(t, parent, ip) == down && parent != down
    requires t3.recs.Keys == t.recs.Keys + news && news !! t.recs.Keys && t3.root4 == t.root4 && t3.root6 == t.root6
    requires forall x :: x in t.recs && x != down ==> t3.recs[x] == t.recs[x]
    requires down != null ==> down in t.recs && SameBut(t.recs[down], t3.recs[down], false, Child(t.recs[down], false))
    ensures Regrown(t, SetSlot(t3, parent, ip, top), parent, ip, top)
    ensures SetSlot(t3, parent, ip, top).recs.Keys == t.recs.Keys + news
  {
  }

  lemma SetSlotKeeps(t: Trie, parent: TrieEntry?, ip: Bits, c: TrieEntry?, x: TrieEntry)
    requires parent != null ==> parent in t.recs && parent.cidr < |ip|
    requires x in t.recs && x != parent
    ensures x in SetSlot(t, parent, ip, c).recs && SetSlot(t, parent, ip, c).recs[x] == t.recs[x]
  {
  }

  /** fork is the longest common prefix of the new node and what was in the slot. */
  ghost predicate Forks(n: TrieEntry, down: TrieEntry, fork: TrieEntry) {
    && WellSized(fork) && fork.cidr < n.cidr && fork.cidr < down.cidr <= |down.bits|
    && Contains(fork, n.bits) && Contains(fork, down.bits)
    && n.bits[fork.cidr] != down.bits[fork.cidr]
  }

  lemma ForkIsNew(t: Trie, parent: TrieEntry?, ip: Bits, cidr: nat, n: TrieEntry, down: TrieEntry, fork: TrieEntry)
    requires Placed(t, ip, cidr, parent) && Fresh(t, n, ip, cidr) && fork !in t.recs
    requires Forks(n, down, fork) && Below(parent, ip, down)
    ensures NewOnPath(t, parent, ip, cidr, fork)
  {
    if parent != null && fork.cidr <= parent.cidr {
      if fork.cidr < parent.cidr {
        CoveredBit(parent, ip, fork.cidr);
        CoveredBit(parent, down.bits, fork.cidr);
      }
      assert false;
    }
  }

  lemma ForkPair(t: Trie, t': Trie, parent: TrieEntry?, ip: Bits, cidr: nat, n: TrieEntry, down: TrieEntry,
                 fork: TrieEntry, m: TrieEntry)
    requires Placed(t, ip, cidr, parent) && NewOnPath(t, parent, ip, cidr, n) && NewOnPath(t, parent, ip, cidr, fork)
    requires SlotOf(t, parent, ip) == down && Forks(n, down, fork)
    requires n in t'.recs && fork in t'.recs
    requires Child(t'.recs[fork], down.bits[fork.cidr]) == down && Child(t'.recs[fork], n.bits[fork.cidr]) == n
    requires Linked(t) && (m in t.recs || m == n || m == fork)
    ensures PairOk(t', n, m) && PairOk(t', fork, m)
  {
    if m in t.recs {
      UnderNew(t, ip, cidr, parent, n, m);
      UnderNew(t, ip, cidr, parent, fork, m);
      if Covers(fork, m) {
        CoveredBit(down, m.bits, fork.cidr);
      }
      if Covers(n, m) {
        CoveredBit(n, m.bits, fork.cidr);
        CoveredBit(down, m.bits, fork.cidr);
        assert false;
      }
    }
  }

  lemma ForkLinked(t: Trie, parent: TrieEntry?, ip: Bits, cidr: nat, n: TrieEntry, peer: Peer, down: TrieEntry,
                   fork: TrieEntry)
    requires Placed(t, ip, cidr, parent) && Fresh(t, n, ip, cidr) && fork !in t.recs
    requires SlotOf(t, parent, ip) == down && Forks(n, down, fork)
    requires Linked(t)
    ensures down in t.recs
    ensures Linked(ForkState(t, parent, ip, n, peer, down, fork))
  {
    hide Linked, Placed, ForkState, Regrown;
    PlacedFacts(t, ip, cidr, parent);
    SlotContent(t, parent, ip);
    var t' := ForkState(t, parent, ip, n, peer, down, fork);
    NewSelf(t, parent, ip, cidr, n);
    ForkIsNew(t, parent, ip, cidr, n, down, fork);
    ForkRegrown(t, parent, ip, n, peer, down, fork);
    TopParentOk(t, t', parent, ip, fork);
    forall m | m in t'.recs
      ensures PairOk(t', n, m) && PairOk(t', fork, m)
    {
      ForkPair(t, t', parent, ip, cidr, n, down, fork, m);
    }
    assert NodeOk(t', n) && NodeOk(t', fork) && ParentOk(t', down);
    GrowLinked(t, t', parent, ip, cidr, fork, {n, fork});
  }

  // ---------------------------------------------------------------------------------------------
  // Lists, branching and routes.

  ghost function ListOf(t: Trie, p: Peer): seq<TrieEntry> {
    if p in t.lists then t.lists[p] else []
  }

  /** addToPeerEntries. */
  ghost function PushBack(t: Trie, p: Peer, n: TrieEntry): Trie {
    t.(lists := t.lists[p := ListOf(t, p) + [n]])
  }

  /** Same nodes, links and roots. */
  ghost predicate SameLinks(t: Trie, t': Trie) {
    && t'.recs.Keys == t.recs.Keys && t'.root4 == t.root4 && t'.root6 == t.root6
    && forall n :: n in t.recs ==> t'.recs[n].(peer := t.recs[n].peer, listed := t.recs[n].listed) == t.recs[n]
  }

  lemma PeerIrrelevant(t: Trie, t': Trie)
    requires Linked(t) && SameLinks(t, t')
    ensures Linked(t')
  {
    hide NodeOk, Rooted, PairOk, SameLinks, RootOk;
    RootSameLinks(t, t', 32);
    RootSameLinks(t, t', 128);
    forall n | n in t'.recs
      ensures NodeOk(t', n) && Rooted(t', n)
    {
      SameNodes(t, t', n);
      assert NodeOk(t, n) && Rooted(t, n);
      NodeSameLinks(t, t', n);
      RootedSameLinks(t, t', n);
    }
    forall n, m | n in t'.recs && m in t'.recs
      ensures PairOk(t', n, m)
    {
      SameNodes(t, t', n);
      SameNodes(t, t', m);
      assert PairOk(t, n, m);
      PairSameLinks(t, t', n, m);
    }
  }

  lemma RootSameLinks(t: Trie, t': Trie, width: nat)
    requires SameLinks(t, t') && RootOk(t, width)
    ensures RootOk(t', width)
  {
  }

  lemma SameNodes(t: Trie, t': Trie, n: TrieEntry)
    requires SameLinks(t, t') && n in t'.recs
    ensures n in t.recs
  {
  }

  lemma NodeSameLinks(t: Trie, t': Trie, n: TrieEntry)
    requires SameLinks(t, t') && n in t.recs && NodeOk(t, n)
    ensures n in t'.recs && NodeOk(t', n)
  {
  }

  lemma RootedSameLinks(t: Trie, t': Trie, n: TrieEntry)
    requires SameLinks(t, t') && n in t.recs && Rooted(t, n)
    ensures n in t'.recs && Rooted(t', n)
  {
  }

  lemma PairSameLinks(t: Trie, t': Trie, n: TrieEntry, m: TrieEntry)
    requires SameLinks(t, t') && n in t.recs && m in t.recs && PairOk(t, n, m)
    ensures n in t'.recs && m in t'.recs && PairOk(t', n, m)
  {
  }

  /** t' has one more owned node than t, and perhaps ownerless ones. */
  ghost predicate OneMore(t: Trie, t': Trie, n: TrieEntry, peer: Peer) {
    && n !in t.recs && n in t'.recs && t'.recs[n].peer == peer && t'.recs[n].listed
    && (forall x :: x in t.recs ==>
      x in t'.recs && t'.recs[x].peer == t.recs[x].peer && t'.recs[x].listed == t.recs[x].listed)
    && (forall x :: x in t'.recs && x !in t.recs && x != n ==> t'.recs[x].peer == null && !t'.recs[x].listed)
  }

  lemma OneMoreLists(t: Trie, t': Trie, n: TrieEntry, peer: Peer)
    requires OneMore(t, t', n, peer) && ListsOk(t)
    requires t'.lists == PushBack(t, peer, n).lists
    ensures ListsOk(t')
  {
    assert n !in ListOf(t, peer);
    forall p | p in t'.lists
      ensures NoDuplicates(t'.lists[p])
    {
      if p == peer {
        NoDuplicatesSnoc(ListOf(t, peer), n);
      }
    }
    hide NoDuplicates;
    forall p, x | p in t'.lists && x in t'.lists[p]
      ensures x in t'.recs && t'.recs[x].peer == p
    {
      assert x == n || x in t.lists[p];
    }
    forall x | x in t'.recs && t'.recs[x].peer != null
      ensures t'.recs[x].peer in t'.lists && x in t'.lists[t'.recs[x].peer]
    {
      if x in t.recs {
        assert x in t.lists[t.recs[x].peer];
      } else {
        assert t'.lists[peer][|ListOf(t, peer)|] == n;
      }
    }
  }

  lemma NoDuplicatesSnoc(s: seq<TrieEntry>, n: TrieEntry)
    requires NoDuplicates(s) && n !in s
    ensures NoDuplicates(s + [n])
  {
  }

  lemma OneMoreRoutes(t: Trie, t': Trie, n: TrieEntry, peer: Peer)
    requires OneMore(t, t', n, peer) && UniqueKeys(t) && UniqueKeys(t')
    ensures Routes(t') == Routes(t)[KeyOf(n) := peer]
  {
    hide KeyOf, Routes;
    RoutesHas(t', n);
    forall k | k in Routes(t') && k != KeyOf(n)
      ensures k in Routes(t) && Routes(t)[k] == Routes(t')[k]
    {
      var x := RoutesFrom(t', k);
      RoutesHas(t, x);
    }
    forall k | k in Routes(t)
      ensures k in Routes(t')
    {
      var x := RoutesFrom(t, k);
      RoutesHas(t', x);
    }
  }

  lemma GrownBranching(t: Trie, t': Trie, parent: TrieEntry?, ip: Bits, top: TrieEntry, news: set<TrieEntry>)
    requires parent != null ==> parent in t.recs && parent.cidr < |ip|
    requires Regrown(t, t', parent, ip, top) && Branching(t)
    requires t'.recs.Keys == t.recs.Keys + news
    requires forall y :: y in news ==>
      t'.recs[y].peer != null || (t'.recs[y].child0 != null && t'.recs[y].child1 != null)
    ensures Branching(t')
  {
    forall n | n in t.recs && t'.recs[n].peer == null
      ensures t'.recs[n].child0 != null && t'.recs[n].child1 != null
    {
      ChildAfter(t, t', parent, ip, top, n, false);
      ChildAfter(t, t', parent, ip, top, n, true);
      assert t'.recs[n].peer == t.recs[n].peer;
    }
  }

  lemma GrownOneMore(t: Trie, t': Trie, parent: TrieEntry?, ip: Bits, top: TrieEntry, n: TrieEntry, peer: Peer,
      news: set<TrieEntry>)
    requires parent != null ==> parent in t.recs && parent.cidr < |ip|
    requires Regrown(t, t', parent, ip, top)
    requires t'.recs.Keys == t.recs.Keys + news && n in news && news !! t.recs.Keys
    requires t'.recs[n].peer == peer && t'.recs[n].listed
    requires forall y :: y in news && y != n ==> t'.recs[y].peer == null && !t'.recs[y].listed
    ensures OneMore(t, t', n, peer)
  {
    forall x | x in t.recs
      ensures x in t'.recs && t'.recs[x].peer == t.recs[x].peer && t'.recs[x].listed == t.recs[x].listed
    {
      ChildAfter(t, t', parent, ip, top, x, false);
      if x == parent {
        assert SameBut(t.recs[x], t'.recs[x], ip[x.cidr], top);
      }
    }
  }
}

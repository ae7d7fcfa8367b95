/** Removal from the routing trie, on the value of its fields. */
module TrieRemove {
  import opened TrieModel
  import opened TrieInsert

  /** x has at most one child; this is it. */
  ghost function OnlyChild(r: Rec): TrieEntry? {
    if r.child0 == null then r.child1 else r.child0
  }

  /** child.parent = node.parent. */
  ghost function Adopted(c: Rec, r: Rec): Rec {
    c.(parent := r.parent, parentBitType := r.parentBitType)
  }

  /** *node.parent.parentBit = child. */
  ghost function SetSlotOf(t: Trie, x: TrieEntry, c: TrieEntry?): Trie
    requires x in t.recs && (t.recs[x].parent != null ==> t.recs[x].parent in t.recs)
  {
    var r := t.recs[x];
    if r.parent == null then WithRoot(t, |x.bits|, c)
    else t.(recs := t.recs[r.parent := WithChild(t.recs[r.parent], r.parentBitType == 1, c)])
  }

  /** Taking x out: its only child, if any, takes its slot. */
  ghost function Splice(t: Trie, x: TrieEntry): Trie
    requires x in t.recs && (t.recs[x].parent != null ==> t.recs[x].parent in t.recs)
    requires var c := OnlyChild(t.recs[x]); c != null ==> c in t.recs
  {
    var c := OnlyChild(t.recs[x]);
    var t1 := if c == null || c == x then t else Add(t, c, Adopted(t.recs[c], t.recs[x]));
    var t2 := SetSlotOf(t1, x, c);
    t2.(recs := t2.recs - {x})
  }

  /** What taking x out does to another node. */
  ghost predicate NodeAfter(t: Trie, t': Trie, x: TrieEntry, n: TrieEntry)
    requires x in t.recs && n in t.recs && n in t'.recs
  {
    var r, c := t.recs[x], OnlyChild(t.recs[x]);
    && t'.recs[n].peer == t.recs[n].peer && t'.recs[n].listed == t.recs[n].listed
    && Child(t'.recs[n], false) == (if n == r.parent && r.parentBitType == 0 then c else Child(t.recs[n], false))
    && Child(t'.recs[n], true) == (if n == r.parent && r.parentBitType == 1 then c else Child(t.recs[n], true))
    && t'.recs[n].parent == (if n == c then r.parent else t.recs[n].parent)
    && t'.recs[n].parentBitType == (if n == c then r.parentBitType else t.recs[n].parentBitType)
  }

  ghost predicate RootAfter(t: Trie, t': Trie, x: TrieEntry, w: nat)
    requires x in t.recs
  {
    Root(t', w) == if t.recs[x].parent == null && w == |x.bits| then OnlyChild(t.recs[x]) else Root(t, w)
  }

  ghost predicate Spliced(t: Trie, t': Trie, x: TrieEntry)
    requires x in t.recs
  {
    && t'.recs.Keys == t.recs.Keys - {x}
    && (forall n :: n in t'.recs ==> NodeAfter(t, t', x, n))
    && RootAfter(t, t', x, 32) && RootAfter(t, t', x, 128)
  }

  lemma NodeFacts(t: Trie, x: TrieEntry)
    requires Linked(t) && x in t.recs
    ensures NodeOk(t, x)
    ensures t.recs[x].parent != null ==> t.recs[x].parent in t.recs && t.recs[x].parent != x
    ensures var c := OnlyChild(t.recs[x]); c != null ==> c in t.recs && c != x && c != t.recs[x].parent
  {
    assert NodeOk(t, x);
    var p, c := t.recs[x].parent, OnlyChild(t.recs[x]);
    if p != null {
      assert NodeOk(t, p);
      assert ChildOk(t, p, t.recs[x].parentBitType == 1);
    }
    if c != null {
      assert ChildOk(t, x, false) && ChildOk(t, x, true);
    }
  }

  lemma SpliceIsSpliced(t: Trie, x: TrieEntry)
    requires x in t.recs && IsAddress(x.bits)
    requires t.recs[x].parent != null ==>
      t.recs[x].parent in t.recs && t.recs[x].parent != x && t.recs[x].parentBitType <= 1
    requires var c := OnlyChild(t.recs[x]); c != null ==> c in t.recs && c != x && c != t.recs[x].parent
    ensures Spliced(t, Splice(t, x), x)
  {
    var t' := Splice(t, x);
    forall n | n in t'.recs
      ensures NodeAfter(t, t', x, n)
    {
    }
  }

  // ---------------------------------------------------------------------------------------------
  // Taking out a node with at most one child keeps the links.

  ghost predicate Lone(t: Trie, x: TrieEntry)
    requires x in t.recs
  {
    t.recs[x].child0 == null || t.recs[x].child1 == null
  }

  /** Whatever x strictly covers hangs below its only child. */
  lemma BelowLone(t: Trie, x: TrieEntry, m: TrieEntry)
    requires Linked(t) && x in t.recs && m in t.recs && m != x && Lone(t, x)
    ensures Covers(x, m) ==> OnlyChild(t.recs[x]) != null && Covers(OnlyChild(t.recs[x]), m)
  {
    assert NodeOk(t, m) && PairOk(t, x, m);
  }

  lemma SplicedPair(t: Trie, t': Trie, x: TrieEntry, n: TrieEntry, m: TrieEntry)
    requires Linked(t) && x in t.recs && Lone(t, x)
    requires Spliced(t, t', x) && n in t'.recs && m in t'.recs
    ensures PairOk(t', n, m)
  {
    assert PairOk(t, n, m) && NodeAfter(t, t', x, n) && NodeOk(t, x) && NodeOk(t, n);
    BelowLone(t, x, m);
    if StrictlyCovers(n, m) {
      var c := Child(t.recs[n], m.bits[n.cidr]);
      if c == x {
        assert ChildOk(t, n, m.bits[n.cidr]);
      }
      SlotOwner(t, x, n, m.bits[n.cidr]);
    }
  }

  /** Only one slot points at x. */
  lemma SlotOwner(t: Trie, x: TrieEntry, n: TrieEntry, bit: bool)
    requires Linked(t) && x in t.recs && n in t.recs
    ensures Child(t.recs[n], bit) == x <==> n == t.recs[x].parent && BitType(bit) == t.recs[x].parentBitType
  {
    assert NodeOk(t, x) && NodeOk(t, n) && ChildOk(t, n, bit);
  }

  lemma SplicedRooted(t: Trie, t': Trie, x: TrieEntry, m: TrieEntry)
    requires Linked(t) && x in t.recs && Lone(t, x)
    requires Spliced(t, t', x) && m in t'.recs
    ensures Rooted(t', m)
  {
    assert Rooted(t, m) && NodeOk(t, m) && NodeOk(t, x);
    BelowLone(t, x, m);
    assert RootOk(t, |m.bits|);
  }

  lemma SplicedChild(t: Trie, t': Trie, x: TrieEntry, n: TrieEntry, bit: bool)
    requires Linked(t) && x in t.recs && Lone(t, x)
    requires Spliced(t, t', x) && n in t'.recs
    ensures ChildOk(t', n, bit)
  {
    hide Linked, Spliced, NodeOk, NodeAfter;
    NodeFacts(t, x);
    SplicedFacts(t, t', x, n);
    ChildrenOk(t, n);
    ChildrenOk(t, x);
    SlotOwner(t, x, n, bit);
    ChildNow(t, t', x, n, bit);
    var c := OnlyChild(t.recs[x]);
    var d := Child(t'.recs[n], bit);
    if c != null {
      SlotOwner(t, c, n, bit);
      SlotOwner(t, c, x, t.recs[x].child0 == null);
    }
    if d != null {
      AdoptedNow(t, t', x, d);
      if Child(t.recs[n], bit) == x {
        CoversTransitive(n, x, c.bits);
        CoveredBit(x, c.bits, n.cidr);
      }
    }
  }

  lemma ChildrenOk(t: Trie, n: TrieEntry)
    requires Linked(t) && n in t.recs
    ensures WellSized(n) && ChildOk(t, n, false) && ChildOk(t, n, true) && ParentOk(t, n)
  {
    assert NodeOk(t, n);
  }

  lemma SplicedFacts(t: Trie, t': Trie, x: TrieEntry, n: TrieEntry)
    requires x in t.recs && Spliced(t, t', x) && n in t'.recs
    ensures n in t.recs && n != x
  {
  }

  lemma SplicedIn(t: Trie, t': Trie, x: TrieEntry, n: TrieEntry)
    requires x in t.recs && Spliced(t, t', x) && n in t.recs && n != x
    ensures n in t'.recs
  {
  }

  lemma ChildNow(t: Trie, t': Trie, x: TrieEntry, n: TrieEntry, bit: bool)
    requires x in t.recs && Spliced(t, t', x) && n in t'.recs
    ensures n in t.recs
    ensures Child(t'.recs[n], bit) ==
      if n == t.recs[x].parent && t.recs[x].parentBitType == BitType(bit) then OnlyChild(t.recs[x])
        else Child(t.recs[n], bit)
  {
    assert NodeAfter(t, t', x, n);
  }

  lemma AdoptedNow(t: Trie, t': Trie, x: TrieEntry, n: TrieEntry)
    requires x in t.recs && Spliced(t, t', x) && n in t.recs && n != x
    ensures n in t'.recs
    ensures t'.recs[n].parent == if n == OnlyChild(t.recs[x]) then t.recs[x].parent else t.recs[n].parent
    ensures t'.recs[n].parentBitType == if n == OnlyChild(t.recs[x]) then t.recs[x].parentBitType
      else t.recs[n].parentBitType
  {
    assert NodeAfter(t, t', x, n);
  }

  lemma SplicedParent(t: Trie, t': Trie, x: TrieEntry, n: TrieEntry)
    requires Linked(t) && x in t.recs && Lone(t, x)
    requires Spliced(t, t', x) && n in t'.recs
    ensures ParentOk(t', n)
  {
    RootsNow(t, t', x, n);
    hide Linked, Spliced, NodeOk, NodeAfter, RootAfter;
    NodeFacts(t, x);
    SplicedFacts(t, t', x, n);
    ChildrenOk(t, n);
    ChildrenOk(t, x);
    AdoptedNow(t, t', x, n);
    var c := OnlyChild(t.recs[x]);
    var p := if n == c then t.recs[x].parent else t.recs[n].parent;
    if p != null {
      var b := t'.recs[n].parentBitType == 1;
      if n != c {
        SlotOwner(t, n, x, b);
        SlotOwner(t, x, p, b);
      }
      SplicedIn(t, t', x, p);
      ChildNow(t, t', x, p, b);
    }
  }

  lemma RootsNow(t: Trie, t': Trie, x: TrieEntry, n: TrieEntry)
    requires Linked(t) && x in t.recs && Spliced(t, t', x) && n in t'.recs
    ensures IsAddress(n.bits)
    ensures Root(t', |n.bits|) ==
      if t.recs[x].parent == null && |n.bits| == |x.bits| then OnlyChild(t.recs[x]) else Root(t, |n.bits|)
  {
    assert NodeOk(t, n);
    hide Linked;
  }

  lemma SpliceLinked(t: Trie, t': Trie, x: TrieEntry)
    requires Linked(t) && x in t.recs && Lone(t, x)
    requires Spliced(t, t', x)
    ensures Linked(t')
  {
    hide NodeOk, PairOk, Rooted, RootOk;
    forall n | n in t'.recs
      ensures NodeOk(t', n) && Rooted(t', n)
    {
      SplicedNode(t, t', x, n);
      SplicedRooted(t, t', x, n);
    }
    forall n, m | n in t'.recs && m in t'.recs
      ensures PairOk(t', n, m)
    {
      SplicedPair(t, t', x, n, m);
    }
    SplicedRoot(t, t', x, 32);
    SplicedRoot(t, t', x, 128);
  }

  lemma SplicedNode(t: Trie, t': Trie, x: TrieEntry, n: TrieEntry)
    requires Linked(t) && x in t.recs && Lone(t, x)
    requires Spliced(t, t', x) && n in t'.recs
    ensures NodeOk(t', n)
  {
    hide Spliced, Lone;
    SplicedChild(t, t', x, n, false);
    SplicedChild(t, t', x, n, true);
    SplicedParent(t, t', x, n);
    SplicedFacts(t, t', x, n);
    ChildrenOk(t, n);
  }

  lemma SplicedRoot(t: Trie, t': Trie, x: TrieEntry, w: nat)
    requires Linked(t) && x in t.recs && Lone(t, x) && (w == 32 || w == 128)
    requires Spliced(t, t', x)
    ensures RootOk(t', w)
  {
    assert RootOk(t, w) && RootAfter(t, t', x, w);
    hide Linked, Spliced, NodeOk;
    NodeFacts(t, x);
    ChildrenOk(t, x);
    var r := Root(t', w);
    if r != null {
      ChildrenOk(t, r);
      AdoptedNow(t, t', x, r);
    }
  }

  // ---------------------------------------------------------------------------------------------
  // remove.

  function WithoutNode(s: seq<TrieEntry>, x: TrieEntry): (r: seq<TrieEntry>) {
    if s == [] then [] else if s[0] == x then s[1..] else [s[0]] + WithoutNode(s[1..], x)
  }

  /** removeFromPeerEntries and node.peer = nil. */
  ghost function Unowned(t: Trie, x: TrieEntry): Trie
    requires x in t.recs && t.recs[x].peer != null && t.recs[x].peer in t.lists
  {
    var p := t.recs[x].peer;
    t.(recs := t.recs[x := t.recs[x].(peer := null, listed := false)],
       lists := t.lists[p := WithoutNode(t.lists[p], x)])
  }

  lemma {:induction false} WithoutNodeElements(s: seq<TrieEntry>, x: TrieEntry)
    requires NoDuplicates(s)
    ensures NoDuplicates(WithoutNode(s, x))
    ensures forall n :: n in WithoutNode(s, x) <==> n in s && n != x
  {
    if s != [] {
      assert NoDuplicates(s[1..]);
      WithoutNodeElements(s[1..], x);
      assert s == [s[0]] + s[1..];
      if s[0] == x {
        assert x !in s[1..];
      } else {
        var r := WithoutNode(s[1..], x);
        assert WithoutNode(s, x) == [s[0]] + r;
        assert s[0] !in r;
      }
    }
  }

  lemma WithoutNodeMember(s: seq<TrieEntry>, x: TrieEntry, n: TrieEntry)
    requires NoDuplicates(s)
    ensures n in WithoutNode(s, x) <==> n in s && n != x
  {
    WithoutNodeElements(s, x);
  }

  lemma UnownedLists(t: Trie, x: TrieEntry)
    requires x in t.recs && t.recs[x].peer != null && ListsOk(t)
    ensures t.recs[x].peer in t.lists
    ensures ListsOk(Unowned(t, x))
  {
    hide NoDuplicates;
    var p := t.recs[x].peer;
    WithoutNodeElements(t.lists[p], x);
    var t' := Unowned(t, x);
    forall q, n | q in t'.lists && n in t'.lists[q]
      ensures n in t'.recs && t'.recs[n].peer == q
    {
      if q == p {
        WithoutNodeMember(t.lists[p], x, n);
      }
      assert n in t.lists[q];
      assert t.recs[n].peer == q;
    }
  }

  lemma UnownedLinked(t: Trie, x: TrieEntry)
    requires x in t.recs && t.recs[x].peer != null && t.recs[x].peer in t.lists
    requires Linked(t)
    ensures Linked(Unowned(t, x))
  {
    PeerIrrelevant(t, Unowned(t, x));
  }

  lemma UnownedRoutes(t: Trie, x: TrieEntry)
    requires x in t.recs && t.recs[x].peer != null && t.recs[x].peer in t.lists
    requires UniqueKeys(t)
    ensures UniqueKeys(Unowned(t, x))
    ensures KeyOf(x) in Routes(t)
    ensures Routes(Unowned(t, x)) == Routes(t) - {KeyOf(x)}
  {
    hide KeyOf, Routes, WithoutNode;
    var t' := Unowned(t, x);
    RoutesHas(t, x);
    forall k | k in Routes(t')
      ensures k in Routes(t) && k != KeyOf(x) && Routes(t')[k] == Routes(t)[k]
    {
      var n := RoutesFrom(t', k);
      RoutesHas(t, n);
    }
    forall k | k in Routes(t) && k != KeyOf(x)
      ensures k in Routes(t')
    {
      var n := RoutesFrom(t, k);
      RoutesHas(t', n);
    }
  }

  lemma SplicedLists(t: Trie, t': Trie, x: TrieEntry)
    requires x in t.recs && t.recs[x].peer == null && Spliced(t, t', x) && t'.lists == t.lists
    requires ListsOk(t)
    ensures ListsOk(t')
  {
    forall n | n in t'.recs
      ensures t'.recs[n].peer == t.recs[n].peer && t'.recs[n].listed == t.recs[n].listed
    {
      assert NodeAfter(t, t', x, n);
    }
  }

  lemma SplicedRoutes(t: Trie, t': Trie, x: TrieEntry)
    requires x in t.recs && t.recs[x].peer == null && Spliced(t, t', x)
    requires UniqueKeys(t)
    ensures UniqueKeys(t') && Routes(t') == Routes(t)
  {
    forall n | n in t'.recs
      ensures n in t.recs && t'.recs[n].peer == t.recs[n].peer
    {
      assert NodeAfter(t, t', x, n);
    }
  }

  /** The state after node.remove(). */
  ghost function RemoveState(t: Trie, x: TrieEntry): Trie
    requires Shape(t) && x in t.recs && t.recs[x].peer != null
  {
    UnownedLists(t, x);
    UnownedLinked(t, x);
    var r, t0 := t.recs[x], Unowned(t, x);
    if r.child0 != null && r.child1 != null then t0
    else
      NodeFacts(t0, x);
      SpliceKeeps(t0, x);
      var t1 := Splice(t0, x);
      if OnlyChild(r) != null || r.parent == null || t.recs[r.parent].peer != null then t1
      else
        NodeFacts(t1, r.parent);
        Splice(t1, r.parent)
  }

  /** Taking out an ownerless node with at most one child keeps links, lists and routes. */
  lemma SpliceKeeps(t: Trie, x: TrieEntry)
    requires Linked(t) && ListsOk(t) && x in t.recs && t.recs[x].peer == null && Lone(t, x)
    ensures t.recs[x].parent != null ==> t.recs[x].parent in t.recs && t.recs[x].parent != x
    ensures var c := OnlyChild(t.recs[x]); c != null ==> c in t.recs && c != x
    ensures var t' := Splice(t, x);
      && Spliced(t, t', x) && Linked(t') && ListsOk(t') && UniqueKeys(t) && UniqueKeys(t') && Routes(t') == Routes(t)
  {
    hide Linked, ListsOk, NodeOk, Spliced, Routes, UniqueKeys;
    NodeFacts(t, x);
    ChildrenOk(t, x);
    SpliceIsSpliced(t, x);
    var t' := Splice(t, x);
    SpliceLinked(t, t', x);
    SplicedLists(t, t', x);
    LinkedUnique(t);
    SplicedRoutes(t, t', x);
  }

  ghost predicate BranchingBut(t: Trie, x: TrieEntry?) {
    forall n :: n in t.recs && n != x && t.recs[n].peer == null ==> t.recs[n].child0 != null && t.recs[n].child1 != null
  }

  /** Taking x out leaves every ownerless node with two children, unless its parent loses its only replacement. */
  lemma SplicedBranching(t: Trie, t': Trie, x: TrieEntry)
    requires Linked(t) && x in t.recs && Spliced(t, t', x) && BranchingBut(t, x)
    ensures BranchingBut(t', if OnlyChild(t.recs[x]) == null then t.recs[x].parent else null)
  {
    hide Linked;
    forall n | n in t'.recs && !(OnlyChild(t.recs[x]) == null && n == t.recs[x].parent) && t'.recs[n].peer == null
      ensures t'.recs[n].child0 != null && t'.recs[n].child1 != null
    {
      assert NodeAfter(t, t', x, n);
    }
  }

  /** remove deletes exactly the node's route and keeps the trie well formed. */
  lemma RemoveKeepsShape(t: Trie, x: TrieEntry)
    requires Shape(t) && x in t.recs && t.recs[x].peer != null
    ensures UniqueKeys(t) && Shape(RemoveState(t, x)) && UniqueKeys(RemoveState(t, x))
    ensures Routes(RemoveState(t, x)) == Routes(t) - {KeyOf(x)}
  {
    hide Linked, ListsOk, Spliced, UniqueKeys, Routes, Splice, NodeOk;
    LinkedUnique(t);
    UnownedLists(t, x);
    UnownedLinked(t, x);
    UnownedRoutes(t, x);
    var r, t0 := t.recs[x], Unowned(t, x);
    assert BranchingBut(t0, x);
    if r.child0 == null || r.child1 == null {
      SpliceKeeps(t0, x);
      var t1 := Splice(t0, x);
      SplicedBranching(t0, t1, x);
      if OnlyChild(r) == null && r.parent != null {
        ParentAfter(t0, t1, x, r.parent);
        if t.recs[r.parent].peer == null {
          SpliceKeeps(t1, r.parent);
          SplicedBranching(t1, Splice(t1, r.parent), r.parent);
        }
      }
    }
  }

  /** The parent of a removed leaf has lost that child and kept the other. */
  lemma ParentAfter(t: Trie, t': Trie, x: TrieEntry, p: TrieEntry)
    requires Linked(t) && x in t.recs && Spliced(t, t', x)
    requires t.recs[x].parent == p && OnlyChild(t.recs[x]) == null && BranchingBut(t, x)
    ensures p in t.recs && p != x && p in t'.recs && t'.recs[p].peer == t.recs[p].peer && Lone(t', p)
    ensures t.recs[p].peer == null ==> OnlyChild(t'.recs[p]) != null
  {
    NodeFacts(t, x);
    hide Linked;
    assert NodeAfter(t, t', x, p);
  }
}

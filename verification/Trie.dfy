/** The routing trie of device/allowedips.go: its nodes, and the invariant of their fields as a value. */
module TrieModel {

  /** An address as its bits, most significant first: 32 for IPv4, 128 for IPv6. */
  type Bits = seq<bool>

  predicate IsAddress(ip: Bits) {
    |ip| == 32 || |ip| == 128
  }

  /** commonBits: the number of leading bits two addresses share. */
  function CommonBits(a: Bits, b: Bits): (c: nat)
    requires |a| == |b|
    ensures c <= |a| && a[..c] == b[..c]
    ensures c < |a| ==> a[c] != b[c]
  {
    if |a| == 0 || a[0] != b[0] then 0
    else
      var c := 1 + CommonBits(a[1..], b[1..]);
      assert a[..c] == [a[0]] + a[1..][..c - 1] && b[..c] == [b[0]] + b[1..][..c - 1];
      c
  }

  /** maskSelf: the address with every bit past the prefix cleared. */
  function Mask(ip: Bits, cidr: nat): (m: Bits)
    requires cidr <= |ip|
    ensures |m| == |ip| && m[..cidr] == ip[..cidr]
    ensures forall k :: cidr <= k < |m| ==> !m[k]
  {
    ip[..cidr] + seq(|ip| - cidr, _ => false)
  }

  class Peer {
    /** trieEntries: the nodes this peer owns, oldest first. */
    var trieEntries: seq<TrieEntry>
  }

  class TrieEntry {
    const bits: Bits
    const cidr: nat
    var peer: Peer?
    var child0: TrieEntry?
    var child1: TrieEntry?
    /** The node whose child slot points here; null when the table's root slot does. */
    var parent: TrieEntry?
    /** Which slot: child 0, child 1, or 2 for a root slot. */
    var parentBitType: nat
    /** perPeerElem is set. */
    var listed: bool

    constructor (ip: Bits, cidr: nat, peer: Peer?)
      requires cidr <= |ip|
      ensures bits == Mask(ip, cidr) && this.cidr == cidr && this.peer == peer
      ensures child0 == null && child1 == null && parent == null && parentBitType == 2 && !listed
    {
      bits := Mask(ip, cidr);
      this.cidr := cidr;
      this.peer := peer;
      child0, child1, parent, parentBitType, listed := null, null, null, 2, false;
    }
  }

  // ---------------------------------------------------------------------------------------------
  // Prefixes.

  predicate WellSized(n: TrieEntry) {
    IsAddress(n.bits) && n.cidr <= |n.bits| && n.bits == Mask(n.bits, n.cidr)
  }

  /** The node's prefix contains the address. */
  predicate Contains(n: TrieEntry, ip: Bits) {
    |n.bits| == |ip| && n.cidr <= |ip| && n.bits[..n.cidr] == ip[..n.cidr]
  }

  /** The prefix of n contains that of m. */
  predicate Covers(n: TrieEntry, m: TrieEntry) {
    n.cidr <= m.cidr && Contains(n, m.bits)
  }

  predicate StrictlyCovers(n: TrieEntry, m: TrieEntry) {
    n.cidr < m.cidr <= |m.bits| && Contains(n, m.bits)
  }

  lemma ContainsShorter(n: TrieEntry, a: Bits, b: Bits, k: nat)
    requires Contains(n, a) && |a| == |b| && n.cidr <= k <= |a| && a[..k] == b[..k]
    ensures Contains(n, b)
  {
    assert a[..n.cidr] == a[..k][..n.cidr] && b[..n.cidr] == b[..k][..n.cidr];
  }

  /** Two prefixes of one address are comparable. */
  lemma Chain(n: TrieEntry, m: TrieEntry, ip: Bits)
    requires Contains(n, ip) && Contains(m, ip) && n.cidr <= m.cidr
    ensures Contains(n, m.bits)
  {
    ContainsShorter(n, ip, m.bits, m.cidr);
  }

  lemma CoversTransitive(n: TrieEntry, m: TrieEntry, ip: Bits)
    requires Contains(n, m.bits) && n.cidr <= m.cidr && Contains(m, ip)
    ensures Contains(n, ip)
  {
    ContainsShorter(n, m.bits, ip, m.cidr);
  }

  // ---------------------------------------------------------------------------------------------
  // The fields of all nodes, as a value.

  datatype Rec = Rec(peer: Peer?, child0: TrieEntry?, child1: TrieEntry?, parent: TrieEntry?, parentBitType: nat,
                     listed: bool)

  datatype Trie = Trie(recs: map<TrieEntry, Rec>, root4: TrieEntry?, root6: TrieEntry?,
                       lists: map<Peer, seq<TrieEntry>>)

  ghost function Child(r: Rec, bit: bool): TrieEntry? {
    if bit then r.child1 else r.child0
  }

  ghost function Root(t: Trie, width: nat): TrieEntry? {
    if width == 32 then t.root4 else t.root6
  }

  function BitType(bit: bool): nat { if bit then 1 else 0 }

  /** A child strictly extends its parent on the chosen bit and points back to it. */
  ghost predicate ChildOk(t: Trie, n: TrieEntry, bit: bool)
    requires n in t.recs
  {
    var c := Child(t.recs[n], bit);
    c != null ==>
      && c in t.recs && StrictlyCovers(n, c) && c.bits[n.cidr] == bit
      && t.recs[c].parent == n && t.recs[c].parentBitType == BitType(bit)
  }

  /** Exactly one slot points at the node, and it is the one the node remembers. */
  ghost predicate ParentOk(t: Trie, n: TrieEntry)
    requires n in t.recs
  {
    var r := t.recs[n];
    if r.parent == null then r.parentBitType == 2 && Root(t, |n.bits|) == n
    else r.parent in t.recs && r.parentBitType <= 1 && Child(t.recs[r.parent], r.parentBitType == 1) == n
  }

  ghost predicate NodeOk(t: Trie, n: TrieEntry)
    requires n in t.recs
  {
    && WellSized(n)
    && ChildOk(t, n, false) && ChildOk(t, n, true)
    && ParentOk(t, n)
  }

  ghost predicate RootOk(t: Trie, width: nat) {
    var r := Root(t, width);
    r != null ==> r in t.recs && t.recs[r].parent == null && |r.bits| == width
  }

  /** The root of its address family reaches every node. */
  ghost predicate Rooted(t: Trie, m: TrieEntry) {
    var r := Root(t, |m.bits|);
    r != null && Covers(r, m)
  }

  /** A node that covers another leads to it, and no two nodes have the same prefix. */
  ghost predicate PairOk(t: Trie, n: TrieEntry, m: TrieEntry)
    requires n in t.recs
  {
    && (StrictlyCovers(n, m) ==> var c := Child(t.recs[n], m.bits[n.cidr]); c != null && Covers(c, m))
    && (Covers(n, m) && n.cidr == m.cidr ==> n == m)
  }

  ghost predicate NoDuplicates(s: seq<TrieEntry>) {
    forall i, j :: 0 <= i < j < |s| ==> s[i] != s[j]
  }

  /** Every owned node is in its owner's list, and only there. */
  ghost predicate ListsOk(t: Trie) {
    && (forall n :: n in t.recs ==> (t.recs[n].listed <==> t.recs[n].peer != null))
    && (forall n :: n in t.recs && t.recs[n].peer != null ==> t.recs[n].peer in t.lists && n in t.lists[t.recs[n].peer])
    && (forall p :: p in t.lists ==> NoDuplicates(t.lists[p]))
    && (forall p, n :: p in t.lists && n in t.lists[p] ==> n in t.recs && t.recs[n].peer == p)
  }

  /** The links of the trie, without the peers' lists. */
  ghost predicate Linked(t: Trie) {
    && RootOk(t, 32) && RootOk(t, 128)
    && (forall n :: n in t.recs ==> NodeOk(t, n) && Rooted(t, n))
    && (forall n, m :: n in t.recs && m in t.recs ==> PairOk(t, n, m))
  }

  /** A node without owner joins two subtries. */
  ghost predicate Branching(t: Trie) {
    forall n :: n in t.recs && t.recs[n].peer == null ==> t.recs[n].child0 != null && t.recs[n].child1 != null
  }

  ghost predicate Shape(t: Trie) {
    Linked(t) && Branching(t) && ListsOk(t)
  }

  // ---------------------------------------------------------------------------------------------
  // The routes.

  datatype Key = Key(width: nat, prefix: Bits)

  ghost function KeyOf(n: TrieEntry): Key {
    Key(|n.bits|, if n.cidr <= |n.bits| then n.bits[..n.cidr] else n.bits)
  }

  ghost predicate UniqueKeys(t: Trie) {
    forall n, m :: n in t.recs && m in t.recs && KeyOf(n) == KeyOf(m) ==> n == m
  }

  ghost function OwnerOf(t: Trie, n: TrieEntry): Peer
    requires n in t.recs && t.recs[n].peer != null
  {
    t.recs[n].peer
  }

  /** The prefixes that have an owner. */
  ghost function Routes(t: Trie): map<Key, Peer>
    requires UniqueKeys(t)
  {
    map n | n in t.recs && t.recs[n].peer != null :: KeyOf(n) := OwnerOf(t, n)
  }

  lemma LinkedUnique(t: Trie)
    requires Linked(t)
    ensures UniqueKeys(t)
  {
    forall n, m | n in t.recs && m in t.recs && KeyOf(n) == KeyOf(m)
      ensures n == m
    {
      assert NodeOk(t, n) && NodeOk(t, m);
      assert |n.bits[..n.cidr]| == |m.bits[..m.cidr]|;
      assert PairOk(t, n, m);
    }
  }

  lemma RoutesHas(t: Trie, n: TrieEntry)
    requires UniqueKeys(t) && n in t.recs && t.recs[n].peer != null
    ensures KeyOf(n) in Routes(t) && Routes(t)[KeyOf(n)] == t.recs[n].peer
  {
    hide KeyOf;
  }

  lemma RoutesFrom(t: Trie, k: Key) returns (n: TrieEntry)
    requires UniqueKeys(t) && k in Routes(t)
    ensures n in t.recs && t.recs[n].peer != null && KeyOf(n) == k && Routes(t)[k] == t.recs[n].peer
  {
    hide KeyOf;
    n :| n in t.recs && t.recs[n].peer != null && KeyOf(n) == k;
  }
}

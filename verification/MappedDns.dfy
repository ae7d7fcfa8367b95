/** The name/address table of the mapped DNS resolver: a tree, a recency list and a record array. */
module MappedDnsTables {
  import opened Bytes
  import opened Options
  import opened Words
  import opened Lru
  import opened DnsMessages

  /** The tree and the records describe the same nodes as the list. */
  ghost predicate Agree(tree: map<Name, Node>, list: seq<Node>, records: seq<Option<Node>>) {
    && (forall i :: 0 <= i < |list| ==> InPlace(tree, records, list[i]))
    && (forall name :: name in tree ==> tree[name] in list && tree[name].name == name)
    && (forall i :: 0 <= i < |records| && records[i].Some? ==> records[i].value in list && records[i].value.idx == i)
  }

  ghost predicate InPlace(tree: map<Name, Node>, records: seq<Option<Node>>, n: Node) {
    && n.name in tree && tree[n.name] == n
    && n.idx < |records| && records[n.idx] == Some(n)
  }

  /** The complement of the netmask. */
  function HostMask(mask: u32): u32 { 0xFFFF_FFFF - mask }

  /** The test in the constructor, a signed comparison: a netmask below 2^31 has a negative complement. */
  predicate Constructible(mask: u32, max: nat) {
    mask >= 0x8000_0000 && max <= HostMask(mask)
  }

  method New(net: u32, mask: u32, max: nat) returns (r: MappedDns?)
    requires max > 0
    ensures r != null <==> Constructible(mask, max)
    ensures r != null ==>
      fresh(r) && fresh(r.records) && r.Valid() && r.list == [] && r.net == net && r.mask == mask && r.max == max
  {
    if !Constructible(mask, max) { return null; }
    r := new MappedDns(net, mask, max);
  }

  class MappedDns {
    const net: u32
    const mask: u32
    const max: nat
    var use: nat
    var tree: map<Name, Node>
    var list: seq<Node>
    const records: array<Option<Node>>

    ghost predicate Valid()
      reads this, records
    {
      && max > 0 && records.Length == max && use == |list|
      && Good(list, max)
      && Agree(tree, list, records[..])
    }

    constructor (net: u32, mask: u32, max: nat)
      requires max > 0
      ensures Valid() && list == [] && fresh(records)
      ensures this.net == net && this.mask == mask && this.max == max
    {
      this.net, this.mask, this.max := net, mask, max;
      use, tree, list := 0, map[], [];
      records := new Option<Node>[max](_ => None);
    }

    /** hev_list_del followed by hev_list_add_tail. */
    method MoveToTail(node: Node)
      requires Valid() && node in list
      modifies this`list
      ensures Valid() && list == Touch(old(list), max, node.name) && list[|list| - 1] == node
    {
      hide Agree, Good, ToTail;
      var k := Where(list, node.name);
      NodeIsWhere(list, max, node);
      ToTailKeeps(list, max, k);
      AgreeMoved(tree, list, ToTail(list, k), records[..]);
      ToTailLast(list, k);
      list := ToTail(list, k);
    }

    /** The index of the name, most recent from now on; the least recent name gives way when there is no room. */
    method Find(name: Name) returns (idx: nat)
      requires Valid()
      modifies this, records
      ensures Valid()
      ensures list == Touch(old(list), max, name)
      ensures idx < max && name in tree && tree[name] == list[|list| - 1] == Node(name, idx)
    {
      hide Agree, Good;
      idx := use;
      TouchKeeps(list, max, name);
      if name in tree {
        TreeInList(tree, list, records[..], name);
        var node := tree[name];
        MoveToTail(node);
        RecentIsFirst(tree, list, records[..], max);
        return node.idx;
      }
      NotInTree(tree, list, records[..], name);
      if use < max {
        use := use + 1;
        NewPlaced(tree, list, records[..], name, idx);
      } else {
        var nf := list[0];
        idx := nf.idx;
        EvictPlaced(tree, list, records[..], max, name);
        FirstIndex(list, max);
        tree := tree - {nf.name};
        list := list[1..];
      }
      var node := Node(name, idx);
      tree := tree[name := node];
      list := list + [node];
      records[idx] := Some(node);
      RecentIsFirst(tree, list, records[..], max);
    }

    /** The name an address stands for, which becomes the most recent. */
    method Lookup(ip: u32) returns (r: Option<Name>)
      requires Valid()
      modifies this`list
      ensures Valid()
      ensures r.None? ==> list == old(list) && forall n :: n in list ==> n.idx != BitAnd(ip, HostMask(mask))
      ensures r.Some? ==>
        list == Touch(old(list), max, r.value) && Node(r.value, BitAnd(ip, HostMask(mask))) in old(list)
    {
      hide Good;
      var idx := BitAnd(ip, HostMask(mask));
      if idx >= max {
        IndicesBelow(list, max);
        return None;
      }
      if records[idx].None? { return None; }
      var node := records[idx].value;
      MoveToTail(node);
      return Some(node.name);
    }
  }

  lemma AgreeMoved(tree: map<Name, Node>, l: seq<Node>, l': seq<Node>, records: seq<Option<Node>>)
    requires Agree(tree, l, records) && forall n :: n in l' <==> n in l
    ensures Agree(tree, l', records)
  {
    forall i | 0 <= i < |l'| ensures InPlace(tree, records, l'[i]) {
      assert l'[i] in l;
      var j :| 0 <= j < |l| && l[j] == l'[i];
    }
  }

  lemma ToTailLast(l: seq<Node>, k: nat)
    requires k < |l|
    ensures |ToTail(l, k)| == |l| && ToTail(l, k)[|l| - 1] == l[k]
  {
  }

  lemma NodeIsWhere(l: seq<Node>, max: nat, n: Node)
    requires Good(l, max) && n in l
    ensures Where(l, n.name) < |l| && l[Where(l, n.name)] == n
  {
    hide Where;
    var i :| 0 <= i < |l| && l[i] == n;
    var k := Where(l, n.name);
    assert k <= i && l[k].name == l[i].name;
  }

  lemma TreeInList(tree: map<Name, Node>, l: seq<Node>, records: seq<Option<Node>>, name: Name)
    requires Agree(tree, l, records) && name in tree
    ensures tree[name] in l && tree[name].name == name
  {
  }

  lemma NotInTree(tree: map<Name, Node>, l: seq<Node>, records: seq<Option<Node>>, name: Name)
    requires Agree(tree, l, records) && name !in tree
    ensures Where(l, name) == |l|
  {
    var k := Where(l, name);
    assert k < |l| ==> InPlace(tree, records, l[k]);
  }

  lemma FirstIndex(l: seq<Node>, max: nat)
    requires Good(l, max) && |l| > 0
    ensures l[0].idx < max
  {
  }

  lemma IndicesBelow(l: seq<Node>, max: nat)
    requires Good(l, max)
    ensures forall n :: n in l ==> n.idx < max
  {
  }

  lemma RecentIsFirst(tree: map<Name, Node>, l: seq<Node>, records: seq<Option<Node>>, max: nat)
    requires Agree(tree, l, records) && Good(l, max) && |l| > 0
    ensures var n := l[|l| - 1]; n.name in tree && tree[n.name] == n && n.idx < max
  {
    assert InPlace(tree, records, l[|l| - 1]);
  }

  /** A new name at a free index keeps the three structures in agreement. */
  lemma NewPlaced(tree: map<Name, Node>, l: seq<Node>, records: seq<Option<Node>>, name: Name, idx: nat)
    requires Agree(tree, l, records) && Good(l, |records|) && name !in tree && idx == |l| < |records|
    ensures Agree(tree[name := Node(name, idx)], l + [Node(name, idx)], records[idx := Some(Node(name, idx))])
  {
    var n := Node(name, idx);
    var l', t', r' := l + [n], tree[name := n], records[idx := Some(n)];
    forall i | 0 <= i < |l'| ensures InPlace(t', r', l'[i]) {
      if i < |l| { assert InPlace(tree, records, l[i]); }
    }
    MemberSnoc(l, n);
  }

  /** So does a new name that takes over the index of the least recent one. */
  lemma EvictPlaced(tree: map<Name, Node>, l: seq<Node>, records: seq<Option<Node>>, max: nat, name: Name)
    requires Agree(tree, l, records) && Good(l, max) && name !in tree && |l| == max == |records| > 0
    ensures l[0].idx < max
    ensures var n := Node(name, l[0].idx);
      Agree((tree - {l[0].name})[name := n], l[1..] + [n], records[l[0].idx := Some(n)])
  {
    var n := Node(name, l[0].idx);
    var l', t', r' := l[1..] + [n], (tree - {l[0].name})[name := n], records[l[0].idx := Some(n)];
    assert InPlace(tree, records, l[0]);
    forall i | 0 <= i < |l'| ensures InPlace(t', r', l'[i]) {
      if i < |l| - 1 {
        assert l'[i] == l[i + 1];
        assert InPlace(tree, records, l[i + 1]);
      }
    }
    MemberSnoc(l[1..], n);
    forall m | m in l && m != l[0] ensures m in l' {
      var i :| 0 <= i < |l| && l[i] == m;
      assert l'[i - 1] == m;
    }
  }

  lemma MemberSnoc(l: seq<Node>, n: Node)
    ensures forall m :: m in l + [n] <==> m in l || m == n
  {
  }

  /* Addresses. */

  /** Every index uses only host bits. */
  ghost predicate Inside(mask: u32, max: nat) {
    forall idx :: 0 <= idx < max ==> BitAnd(idx, HostMask(mask)) == idx
  }

  /** The address made from the network and an index leads back to that index, for every index. */
  ghost predicate Returns(net: u32, mask: u32, max: nat) {
    forall idx :: 0 <= idx < max ==> BitAnd(BitOr(net, idx), HostMask(mask)) == idx
  }

  /** That is so exactly when the network has no host bits and every index uses only host bits. */
  lemma AddressRoundTrip(net: u32, mask: u32, max: nat)
    requires max > 0
    ensures Returns(net, mask, max) <==> BitAnd(net, HostMask(mask)) == 0 && Inside(mask, max)
  {
    hide BitAnd, BitOr, HostMask;
    var h := HostMask(mask);
    AndOfZero(h);
    OrZero(net);
    if Returns(net, mask, max) {
      assert BitAnd(BitOr(net, 0), h) == 0;
      forall idx | 0 <= idx < max ensures BitAnd(idx, h) == idx {
        AndOfOr(net, idx, h);
        ZeroOr(BitAnd(idx, h));
        assert BitAnd(BitOr(net, idx), h) == idx;
      }
    }
    if BitAnd(net, h) == 0 && Inside(mask, max) {
      forall idx | 0 <= idx < max ensures BitAnd(BitOr(net, idx), h) == idx {
        AndOfOr(net, idx, h);
        ZeroOr(BitAnd(idx, h));
        assert BitAnd(idx, h) == idx;
      }
    }
  }

  lemma AndOfZero(h: nat)
    ensures BitAnd(0, h) == 0
  {
  }

  /** A contiguous netmask that passes the constructor leaves every index inside the host bits. */
  lemma ContiguousMask(mask: u32, k: nat, max: nat)
    requires HostMask(mask) == Pow2(k) - 1 && Constructible(mask, max)
    ensures Inside(mask, max)
  {
    forall idx | 0 <= idx < max ensures BitAnd(idx, HostMask(mask)) == idx {
      LowMask(idx, k);
      RemOfSmall(idx, Pow2(k));
    }
  }

  lemma AddressFits(net: u32, idx: nat)
    requires idx < 0x1_0000_0000
    ensures BitOr(net, idx) < 0x1_0000_0000
  {
    PowValues();
    OrFits(net, idx, 32);
  }

  /** lookup undoes find: with an aligned network, the address made from a found index leads back to the name. */
  method FindThenLookup(dns: MappedDns, name: Name) returns (r: Option<Name>)
    requires dns.Valid() && dns.max <= 0x1_0000_0000
    requires BitAnd(dns.net, HostMask(dns.mask)) == 0 && Inside(dns.mask, dns.max)
    modifies dns, dns.records
    ensures dns.Valid() && r == Some(name)
  {
    hide Agree, Good, Inside, BitAnd, BitOr, Touch, Where;
    var idx := dns.Find(name);
    AddressRoundTrip(dns.net, dns.mask, dns.max);
    AddressFits(dns.net, idx);
    ghost var l := dns.list;
    r := dns.Lookup(BitOr(dns.net, idx));
    SameIndex(l, dns.max, Node(name, idx), r);
  }

  lemma SameIndex(l: seq<Node>, max: nat, n: Node, r: Option<Name>)
    requires Good(l, max) && n in l
    requires r.None? ==> forall m :: m in l ==> m.idx != n.idx
    requires r.Some? ==> Node(r.value, n.idx) in l
    ensures r == Some(n.name)
  {
    var i :| 0 <= i < |l| && l[i] == n;
    if r.Some? {
      var j :| 0 <= j < |l| && l[j] == Node(r.value, n.idx);
      assert l[i].idx == l[j].idx;
    }
  }
}

/** The state receive offload keeps while it walks a batch, and the invariant of that walk. */
module GroState {
  import opened Bytes
  import opened Gso
  import opened GroPackets
  import opened GroGroups

  /** One element of bufs: the virtio header slot, the packet, and the capacity behind the packet's start. */
  datatype Buf = Buf(vnet: VirtioNetHdr, pkt: seq<byte>, room: nat)

  /** itemsByFlow. */
  type Table = map<FlowKey, seq<Item>>

  datatype Tables = Tables(tcpItems: Table, udpItems: Table) {
    function Get(tcp: bool): Table { if tcp then tcpItems else udpItems }

    function Set(tcp: bool, t: Table): (r: Tables)
      ensures r.Get(tcp) == t && r.Get(!tcp) == Get(!tcp)
    {
      if tcp then this.(tcpItems := t) else this.(udpItems := t)
    }
  }

  /** Which original packets each written buffer holds, in order. */
  type Groups = map<nat, seq<nat>>

  ghost predicate ItemOk(orig: seq<seq<byte>>, bufs: seq<Buf>, groups: Groups, item: Item, key: FlowKey, tcp: bool) {
    && item.key == key
    && item.bufsIndex in groups && item.bufsIndex < |bufs|
    && Holds(orig, bufs[item.bufsIndex].pkt, groups[item.bufsIndex], item, tcp)
  }

  ghost predicate Distinct(items: seq<Item>) {
    forall p, q :: 0 <= p < q < |items| ==> items[p].bufsIndex != items[q].bufsIndex
  }

  ghost predicate FlowOk(orig: seq<seq<byte>>, bufs: seq<Buf>, groups: Groups, items: seq<Item>, key: FlowKey,
                         tcp: bool) {
    && (forall p :: 0 <= p < |items| ==> ItemOk(orig, bufs, groups, items[p], key, tcp))
    && Distinct(items)
  }

  ghost predicate TableOk(orig: seq<seq<byte>>, bufs: seq<Buf>, groups: Groups, table: Table, tcp: bool) {
    forall key :: key in table ==> FlowOk(orig, bufs, groups, table[key], key, tcp)
  }

  ghost predicate InTable(table: Table, k: nat) {
    exists key, p :: key in table && 0 <= p < |table[key]| && table[key][p].bufsIndex == k
  }

  /** Group k lists distinct packets, all of which call k their home. */
  ghost predicate GroupOk(g: seq<nat>, home: seq<nat>, k: nat) {
    && |g| > 0 && k < |home|
    && (forall p :: 0 <= p < |g| ==> g[p] < |home| && home[g[p]] == k)
    && (forall p, q :: 0 <= p < q < |g| ==> g[p] != g[q])
  }

  /** Every packet seen so far is in exactly one group. */
  ghost predicate Partition(groups: Groups, home: seq<nat>) {
    && (forall k :: k in groups ==> GroupOk(groups[k], home, k))
    && (forall j :: 0 <= j < |home| ==> home[j] in groups && j in groups[home[j]])
  }

  /** A group that absorbed nothing is its own untouched packet. */
  ghost predicate SingleOk(orig: seq<seq<byte>>, bufs: seq<Buf>, g: seq<nat>, k: nat) {
    |g| == 1 ==> g == [k] && k < |bufs| && k < |orig| && bufs[k].pkt == orig[k]
  }

  /** Buffers respect their capacity, and those not reached yet are untouched. */
  ghost predicate BufsOk(orig: seq<seq<byte>>, bufs: seq<Buf>, n: nat) {
    && |bufs| == |orig| && n <= |bufs|
    && (forall j :: 0 <= j < |bufs| ==> |bufs[j].pkt| <= bufs[j].room <= 0xffff)
    && (forall j :: n <= j < |bufs| ==> bufs[j].pkt == orig[j])
  }

  /** The invariant after the first |home| packets. */
  ghost predicate Core(orig: seq<seq<byte>>, bufs: seq<Buf>, tabs: Tables, groups: Groups, home: seq<nat>) {
    && BufsOk(orig, bufs, |home|)
    && (forall tcp: bool :: TableOk(orig, bufs, groups, tabs.Get(tcp), tcp))
    && Partition(groups, home)
    && (forall k :: k in groups ==> SingleOk(orig, bufs, groups[k], k))
    && (forall k :: k in groups && |groups[k]| > 1 ==> Tracked(tabs, k))
    && (forall key :: key in tabs.Get(false) ==> InOrder(groups, tabs.Get(false)[key]))
  }

  ghost predicate Increasing(g: seq<nat>) {
    forall x, y :: 0 <= x < y < |g| ==> g[x] < g[y]
  }

  ghost predicate AllBefore(f: seq<nat>, g: seq<nat>) {
    forall x, y :: 0 <= x < |f| && 0 <= y < |g| ==> f[x] < g[y]
  }

  /** The items of a flow hold its packets in arrival order, within each item and across items. */
  ghost predicate InOrder(groups: Groups, items: seq<Item>) {
    && (forall p :: 0 <= p < |items| ==> items[p].bufsIndex in groups && Increasing(groups[items[p].bufsIndex]))
    && (forall p, q :: 0 <= p < q < |items| ==> AllBefore(groups[items[p].bufsIndex], groups[items[q].bufsIndex]))
  }

  ghost predicate Tracked(tabs: Tables, k: nat) {
    exists tcp: bool :: InTable(tabs.Get(tcp), k)
  }

  // ---------------------------------------------------------------------------------------------
  // Steps.

  /** A buffer is described by at most one item: the flow is read off its first packet. */
  lemma SameBufferSameFlow(orig: seq<seq<byte>>, bufs: seq<Buf>, groups: Groups, a: Item, b: Item, tcpA: bool,
                           tcpB: bool)
    requires ItemOk(orig, bufs, groups, a, a.key, tcpA) && ItemOk(orig, bufs, groups, b, b.key, tcpB)
    requires a.bufsIndex == b.bufsIndex
    ensures a.key == b.key && tcpA == tcpB
  {
    var j := groups[a.bufsIndex][0];
    assert Member(orig, j, a, tcpA) && Member(orig, j, b, tcpB) by {
      hide Member, Flatten, Regular, Sequenced, HeadersKept, AllVerified;
    }
    hide Holds;
  }

  /** Changing other buffers and groups does not disturb an item. */
  lemma ItemKept(orig: seq<seq<byte>>, bufs: seq<Buf>, bufs': seq<Buf>, groups: Groups, groups': Groups, item: Item,
                 key: FlowKey, tcp: bool)
    requires ItemOk(orig, bufs, groups, item, key, tcp)
    requires |bufs'| == |bufs| && item.bufsIndex in groups'
    requires bufs'[item.bufsIndex].pkt == bufs[item.bufsIndex].pkt
    requires groups'[item.bufsIndex] == groups[item.bufsIndex]
    ensures ItemOk(orig, bufs', groups', item, key, tcp)
  {
    hide Holds;
  }

  /** Whatever leaves the described buffers and groups alone leaves a table valid. */
  lemma TableKept(orig: seq<seq<byte>>, bufs: seq<Buf>, bufs': seq<Buf>, groups: Groups, groups': Groups, table: Table,
                  tcp: bool)
    requires TableOk(orig, bufs, groups, table, tcp)
    requires |bufs'| == |bufs|
    requires forall k :: k in groups && k < |bufs| && InTable(table, k) ==>
      k in groups' && bufs'[k].pkt == bufs[k].pkt && groups'[k] == groups[k]
    ensures TableOk(orig, bufs', groups', table, tcp)
  {
    hide ItemOk;
    forall key | key in table
      ensures FlowOk(orig, bufs', groups', table[key], key, tcp)
    {
      var items := table[key];
      forall p | 0 <= p < |items|
        ensures ItemOk(orig, bufs', groups', items[p], key, tcp)
      {
        assert ItemOk(orig, bufs, groups, items[p], key, tcp);
        BufferOfItem(orig, bufs, groups, items[p], key, tcp);
        ItemKept(orig, bufs, bufs', groups, groups', items[p], key, tcp);
      }
    }
  }

  lemma BufferOfItem(orig: seq<seq<byte>>, bufs: seq<Buf>, groups: Groups, item: Item, key: FlowKey, tcp: bool)
    requires ItemOk(orig, bufs, groups, item, key, tcp)
    ensures item.bufsIndex in groups && item.bufsIndex < |bufs|
    ensures |groups[item.bufsIndex]| == item.numMerged + 1
    ensures item.key == key
  {
    hide Members, Flatten, Regular, Sequenced, HeadersKept, AllVerified;
  }

  function Without(items: seq<Item>, p: nat): seq<Item>
    requires p < |items|
  {
    items[..p] + items[p + 1..]
  }

  lemma TrackedAfter(tabs: Tables, tabs': Tables, k: nat, tcp: bool)
    requires Tracked(tabs, k)
    requires tabs'.Get(!tcp) == tabs.Get(!tcp)
    requires InTable(tabs.Get(tcp), k) ==> InTable(tabs'.Get(tcp), k)
    ensures Tracked(tabs', k)
  {
    hide InTable;
    var b: bool :| InTable(tabs.Get(b), k);
    assert InTable(tabs'.Get(b), k);
  }

  /** deleteAt: dropping a TCP item that absorbed nothing. */
  lemma DeleteKeepsCore(orig: seq<seq<byte>>, bufs: seq<Buf>, tabs: Tables, groups: Groups, home: seq<nat>,
                        key: FlowKey, p: nat)
    requires Core(orig, bufs, tabs, groups, home)
    requires key in tabs.Get(true) && p < |tabs.Get(true)[key]| && tabs.Get(true)[key][p].numMerged == 0
    ensures Core(orig, bufs, tabs.Set(true, tabs.Get(true)[key := Without(tabs.Get(true)[key], p)]), groups, home)
  {
    hide ItemOk, Partition, BufsOk, SingleOk, Tracked, InOrder;
    var table := tabs.Get(true);
    var items := table[key];
    var table' := table[key := Without(items, p)];
    var tabs' := tabs.Set(true, table');
    assert FlowOk(orig, bufs, groups, items, key, true);
    assert FlowOk(orig, bufs, groups, Without(items, p), key, true);
    forall b: bool
      ensures TableOk(orig, bufs, groups, tabs'.Get(b), b)
    {
      assert TableOk(orig, bufs, groups, tabs.Get(b), b);
    }
    BufferOfItem(orig, bufs, groups, items[p], key, true);
    forall k | k in groups && |groups[k]| > 1
      ensures Tracked(tabs', k)
    {
      assert k != items[p].bufsIndex;
      StillInTable(table, key, p, k);
      TrackedAfter(tabs, tabs', k, true);
    }
  }

  lemma StillInTable(table: Table, key: FlowKey, p: nat, k: nat)
    requires key in table && p < |table[key]| && table[key][p].bufsIndex != k
    ensures InTable(table, k) ==> InTable(table[key := Without(table[key], p)], k)
  {
    if InTable(table, k) {
      var table': Table := table[key := Without(table[key], p)];
      var key', q :| key' in table && 0 <= q < |table[key']| && table[key'][q].bufsIndex == k;
      if key' == key && q > p {
        assert table'[key][q - 1].bufsIndex == k;
      } else {
        assert table'[key'][q].bufsIndex == k;
      }
    }
  }

  /** The next packet becomes a group of its own. */
  lemma NewGroupKeepsCore(orig: seq<seq<byte>>, bufs: seq<Buf>, tabs: Tables, groups: Groups, home: seq<nat>)
    requires Core(orig, bufs, tabs, groups, home) && |home| < |bufs|
    ensures |home| !in groups
    ensures Core(orig, bufs, tabs, groups[|home| := [|home|]], home + [|home|])
  {
    hide Holds, FlowOk, Tracked;
    var n := |home|;
    var groups' := groups[n := [n]];
    assert n !in groups;
    PartitionNew(groups, home);
    forall tcp: bool
      ensures TableOk(orig, bufs, groups', tabs.Get(tcp), tcp)
    {
      TableKept(orig, bufs, bufs, groups, groups', tabs.Get(tcp), tcp);
    }
    forall key | key in tabs.Get(false)
      ensures InOrder(groups', tabs.Get(false)[key])
    {
      InOrderKept(groups, groups', tabs.Get(false)[key]);
    }
  }

  lemma InOrderKept(groups: Groups, groups': Groups, items: seq<Item>)
    requires InOrder(groups, items)
    requires forall p :: 0 <= p < |items| && items[p].bufsIndex in groups ==>
      items[p].bufsIndex in groups' && groups'[items[p].bufsIndex] == groups[items[p].bufsIndex]
    ensures InOrder(groups', items)
  {
    hide Increasing, AllBefore;
  }

  lemma PartitionNew(groups: Groups, home: seq<nat>)
    requires Partition(groups, home)
    ensures |home| !in groups
    ensures Partition(groups[|home| := [|home|]], home + [|home|])
  {
    var n := |home|;
    var home', groups' := home + [n], groups[n := [n]];
    assert n !in groups;
    forall k | k in groups'
      ensures GroupOk(groups'[k], home', k)
    {
      assert k == n || GroupOk(groups[k], home, k);
    }
    forall j | 0 <= j < |home'|
      ensures home'[j] in groups' && j in groups'[home'[j]]
    {
      if j < n {
        assert home[j] in groups;
      }
    }
  }

  function FlowItems(table: Table, key: FlowKey): seq<Item> {
    if key in table then table[key] else []
  }

  /** Group k is a single packet that arrived after those of every other group. */
  ghost predicate Newest(groups: Groups, k: nat) {
    k in groups && |groups[k]| == 1 && forall j :: j in groups && j != k ==> AllBefore(groups[j], groups[k])
  }

  lemma InOrderInsert(groups: Groups, table: Table, item: Item)
    requires InOrder(groups, FlowItems(table, item.key))
    requires Newest(groups, item.bufsIndex) && !InTable(table, item.bufsIndex)
    ensures InOrder(groups, FlowItems(table, item.key) + [item])
  {
    var items := FlowItems(table, item.key);
    forall p | 0 <= p < |items|
      ensures AllBefore(groups[items[p].bufsIndex], groups[item.bufsIndex])
    {
      assert items[p].bufsIndex != item.bufsIndex;
    }
  }

  /** insert: a described buffer enters the table. */
  lemma InsertKeepsCore(orig: seq<seq<byte>>, bufs: seq<Buf>, tabs: Tables, groups: Groups, home: seq<nat>, tcp: bool,
                        item: Item)
    requires Core(orig, bufs, tabs, groups, home)
    requires ItemOk(orig, bufs, groups, item, item.key, tcp)
    requires !InTable(tabs.Get(tcp), item.bufsIndex)
    requires Newest(groups, item.bufsIndex)
    ensures Core(orig, bufs, tabs.Set(tcp, tabs.Get(tcp)[item.key := FlowItems(tabs.Get(tcp), item.key) + [item]]),
                 groups, home)
  {
    hide ItemOk, Partition, BufsOk, SingleOk, Tracked, InOrder, Newest;
    var table := tabs.Get(tcp);
    var items := FlowItems(table, item.key);
    if !tcp {
      InOrderNothing(groups);
      InOrderInsert(groups, table, item);
    }
    var table' := table[item.key := items + [item]];
    var tabs' := tabs.Set(tcp, table');
    assert TableOk(orig, bufs, groups, table, tcp);
    assert FlowOk(orig, bufs, groups, items, item.key, tcp);
    assert FlowOk(orig, bufs, groups, items + [item], item.key, tcp);
    forall b: bool
      ensures TableOk(orig, bufs, groups, tabs'.Get(b), b)
    {
      assert TableOk(orig, bufs, groups, tabs.Get(b), b);
    }
    forall k | k in groups && |groups[k]| > 1
      ensures Tracked(tabs', k)
    {
      GrownTable(table, item, k);
      TrackedAfter(tabs, tabs', k, tcp);
    }
  }

  lemma InOrderNothing(groups: Groups)
    ensures InOrder(groups, [])
  {
  }

  lemma GrownTable(table: Table, item: Item, k: nat)
    ensures InTable(table, k) ==> InTable(table[item.key := FlowItems(table, item.key) + [item]], k)
  {
    if InTable(table, k) {
      var table': Table := table[item.key := FlowItems(table, item.key) + [item]];
      var key, q :| key in table && 0 <= q < |table[key]| && table[key][q].bufsIndex == k;
      assert table'[key][q].bufsIndex == k;
    }
  }

  /** Only the flow that describes buffer k mentions it. */
  lemma ElsewhereNotInTable(orig: seq<seq<byte>>, bufs: seq<Buf>, tabs: Tables, groups: Groups, home: seq<nat>,
                            tcp: bool, key: FlowKey, p: nat, b: bool, key': FlowKey, q: nat)
    requires Core(orig, bufs, tabs, groups, home)
    requires key in tabs.Get(tcp) && p < |tabs.Get(tcp)[key]|
    requires key' in tabs.Get(b) && q < |tabs.Get(b)[key']|
    requires tabs.Get(b)[key'][q].bufsIndex == tabs.Get(tcp)[key][p].bufsIndex
    ensures b == tcp && key' == key && q == p
  {
    hide ItemOk, Partition, BufsOk, SingleOk, Tracked;
    var x, y := tabs.Get(tcp)[key][p], tabs.Get(b)[key'][q];
    assert FlowOk(orig, bufs, groups, tabs.Get(tcp)[key], key, tcp);
    assert FlowOk(orig, bufs, groups, tabs.Get(b)[key'], key', b);
    BufferOfItem(orig, bufs, groups, x, key, tcp);
    BufferOfItem(orig, bufs, groups, y, key', b);
    SameBufferSameFlow(orig, bufs, groups, x, y, tcp, b);
  }

  /** Buffers other than k and the packet being merged are as before. */
  ghost predicate OnlyChanged(bufs: seq<Buf>, bufs': seq<Buf>, k: nat, n: nat) {
    && |bufs'| == |bufs|
    && (forall j :: 0 <= j < |bufs| && j != k && j != n ==> bufs'[j] == bufs[j])
    && (forall j :: 0 <= j < |bufs'| ==> |bufs'[j].pkt| <= bufs'[j].room <= 0xffff)
  }

  /** An item other than the one merged into describes another buffer and is untouched. */
  lemma OtherItemAfterMerge(orig: seq<seq<byte>>, bufs: seq<Buf>, bufs': seq<Buf>, tabs: Tables, groups: Groups,
                            home: seq<nat>, tcp: bool, key: FlowKey, p: nat, g': seq<nat>, b: bool,
                            key': FlowKey, q: nat)
    requires Core(orig, bufs, tabs, groups, home) && |home| < |bufs|
    requires key in tabs.Get(tcp) && p < |tabs.Get(tcp)[key]|
    requires OnlyChanged(bufs, bufs', tabs.Get(tcp)[key][p].bufsIndex, |home|)
    requires key' in tabs.Get(b) && q < |tabs.Get(b)[key']|
    requires !(b == tcp && key' == key && q == p)
    ensures ItemOk(orig, bufs', groups[tabs.Get(tcp)[key][p].bufsIndex := g'], tabs.Get(b)[key'][q], key', b)
  {
    var k, x := tabs.Get(tcp)[key][p].bufsIndex, tabs.Get(b)[key'][q];
    assert ItemOk(orig, bufs, groups, x, key', b) by {
      hide ItemOk, Partition, SingleOk, Tracked, BufsOk;
      assert FlowOk(orig, bufs, groups, tabs.Get(b)[key'], key', b);
    }
    if x.bufsIndex == k {
      ElsewhereNotInTable(orig, bufs, tabs, groups, home, tcp, key, p, b, key', q);
    }
    hide ItemOk, Partition, SingleOk, Tracked, TableOk;
    BufferOfItem(orig, bufs, groups, x, key', b);
    InGroupsBelow(groups, home, x.bufsIndex);
    ItemKept(orig, bufs, bufs', groups, groups[k := g'], x, key', b);
  }

  lemma FlowAfterMerge(orig: seq<seq<byte>>, bufs: seq<Buf>, bufs': seq<Buf>, tabs: Tables, groups: Groups,
                       home: seq<nat>,
                       tcp: bool, key: FlowKey, p: nat, item': Item, g': seq<nat>, b: bool, key': FlowKey)
    requires Core(orig, bufs, tabs, groups, home) && |home| < |bufs|
    requires key in tabs.Get(tcp) && p < |tabs.Get(tcp)[key]|
    requires var k := tabs.Get(tcp)[key][p].bufsIndex;
      && item'.bufsIndex == k && item'.key == key && k < |bufs|
      && OnlyChanged(bufs, bufs', k, |home|)
      && Holds(orig, bufs'[k].pkt, g', item', tcp)
    requires key' in tabs.Get(b)
    ensures var k := tabs.Get(tcp)[key][p].bufsIndex;
      FlowOk(orig, bufs', groups[k := g'],
             if b == tcp && key' == key then tabs.Get(tcp)[key][p := item'] else tabs.Get(b)[key'], key', b)
  {
    var k := tabs.Get(tcp)[key][p].bufsIndex;
    var groups' := groups[k := g'];
    var items := tabs.Get(b)[key'];
    var items' := if b == tcp && key' == key then items[p := item'] else items;
    hide ItemOk, Holds, Core, Distinct, OnlyChanged;
    FlowDistinct(orig, bufs, tabs, groups, home, b, key');
    if b == tcp && key' == key {
      DistinctUpdate(items, p, item');
    }
    forall q | 0 <= q < |items'|
      ensures ItemOk(orig, bufs', groups', items'[q], key', b)
    {
      if b == tcp && key' == key && q == p {
        MergedItemOk(orig, bufs', groups', item', key, tcp);
      } else {
        OtherItemAfterMerge(orig, bufs, bufs', tabs, groups, home, tcp, key, p, g', b, key', q);
      }
    }
  }

  lemma FlowDistinct(orig: seq<seq<byte>>, bufs: seq<Buf>, tabs: Tables, groups: Groups, home: seq<nat>, b: bool,
                     key: FlowKey)
    requires Core(orig, bufs, tabs, groups, home) && key in tabs.Get(b)
    ensures Distinct(tabs.Get(b)[key])
  {
    hide ItemOk, Partition, SingleOk, Tracked, BufsOk;
    assert FlowOk(orig, bufs, groups, tabs.Get(b)[key], key, b);
  }

  lemma DistinctUpdate(items: seq<Item>, p: nat, item': Item)
    requires Distinct(items) && p < |items| && item'.bufsIndex == items[p].bufsIndex
    ensures Distinct(items[p := item'])
  {
  }

  lemma MergedItemOk(orig: seq<seq<byte>>, bufs: seq<Buf>, groups: Groups, item: Item, key: FlowKey, tcp: bool)
    requires item.key == key && item.bufsIndex in groups && item.bufsIndex < |bufs|
    requires Holds(orig, bufs[item.bufsIndex].pkt, groups[item.bufsIndex], item, tcp)
    ensures ItemOk(orig, bufs, groups, item, key, tcp)
  {
  }

  lemma InGroupsBelow(groups: Groups, home: seq<nat>, k: nat)
    requires Partition(groups, home) && k in groups
    ensures k < |home|
  {
    assert GroupOk(groups[k], home, k);
  }

  lemma PartitionMerge(groups: Groups, home: seq<nat>, k: nat, g': seq<nat>)
    requires Partition(groups, home) && k in groups
    requires g' == groups[k] + [|home|] || g' == [|home|] + groups[k]
    ensures Partition(groups[k := g'], home + [k])
  {
    var n := |home|;
    var home', groups' := home + [k], groups[k := g'];
    forall x | x in groups'
      ensures GroupOk(groups'[x], home', x)
    {
      assert GroupOk(groups[x], home, x);
    }
    forall j | 0 <= j < |home'|
      ensures home'[j] in groups' && j in groups'[home'[j]]
    {
      if j < n {
        assert home[j] in groups && j in groups[home[j]];
      } else {
        assert g'[|g'| - 1] == n || g'[0] == n;
      }
    }
  }

  lemma CoreOrder(orig: seq<seq<byte>>, bufs: seq<Buf>, tabs: Tables, groups: Groups, home: seq<nat>, key: FlowKey)
    requires Core(orig, bufs, tabs, groups, home) && key in tabs.Get(false)
    ensures InOrder(groups, tabs.Get(false)[key]) && Partition(groups, home)
  {
    hide InOrder, Partition, BufsOk, SingleOk, Tracked, TableOk;
  }

  lemma OrderAfterMerge(orig: seq<seq<byte>>, bufs: seq<Buf>, tabs: Tables, groups: Groups, home: seq<nat>, tcp: bool,
                        key: FlowKey, p: nat, item': Item, g': seq<nat>, key': FlowKey)
    requires Core(orig, bufs, tabs, groups, home)
    requires key in tabs.Get(tcp) && p < |tabs.Get(tcp)[key]|
    requires item'.bufsIndex == tabs.Get(tcp)[key][p].bufsIndex && item'.bufsIndex in groups
    requires !tcp ==> g' == groups[item'.bufsIndex] + [|home|] && p == |tabs.Get(tcp)[key]| - 1
    requires key' in tabs.Get(false)
    ensures InOrder(groups[item'.bufsIndex := g'],
                    if !tcp && key' == key then tabs.Get(false)[key'][p := item'] else tabs.Get(false)[key'])
  {
    hide Core, Partition, InOrder;
    var items, k := tabs.Get(false)[key'], item'.bufsIndex;
    CoreOrder(orig, bufs, tabs, groups, home, key');
    forall q | 0 <= q < |items| && items[q].bufsIndex == k
      ensures !tcp && key' == key && q == p
    {
      ElsewhereNotInTable(orig, bufs, tabs, groups, home, tcp, key, p, false, key', q);
    }
    if !tcp && key' == key {
      InOrderAppend(groups, home, items, item');
    } else {
      InOrderKept(groups, groups[k := g'], items);
    }
  }

  /** The newest packet joins the last item of a flow. */
  lemma InOrderAppend(groups: Groups, home: seq<nat>, items: seq<Item>, item': Item)
    requires Partition(groups, home) && InOrder(groups, items) && |items| > 0
    requires item'.bufsIndex == items[|items| - 1].bufsIndex
    requires forall q :: 0 <= q < |items| - 1 ==> items[q].bufsIndex != item'.bufsIndex
    ensures InOrder(groups[item'.bufsIndex := groups[item'.bufsIndex] + [|home|]], items[|items| - 1 := item'])
  {
    var k := item'.bufsIndex;
    assert GroupOk(groups[k], home, k);
    forall q | 0 <= q < |items| - 1
      ensures AllBefore(groups[items[q].bufsIndex], groups[k] + [|home|])
    {
      assert GroupOk(groups[items[q].bufsIndex], home, items[q].bufsIndex);
      assert AllBefore(groups[items[q].bufsIndex], groups[k]);
    }
    hide Partition;
  }

  /** Coalescing: buffer k absorbs the next packet at one of its ends. */
  lemma MergeKeepsCore(orig: seq<seq<byte>>, bufs: seq<Buf>, bufs': seq<Buf>, tabs: Tables, groups: Groups,
                       home: seq<nat>, tcp: bool, key: FlowKey, p: nat, item': Item, g': seq<nat>)
    requires Core(orig, bufs, tabs, groups, home) && |home| < |bufs|
    requires key in tabs.Get(tcp) && p < |tabs.Get(tcp)[key]|
    requires var k := tabs.Get(tcp)[key][p].bufsIndex;
      && item'.bufsIndex == k && item'.key == key && k < |bufs| && k in groups
      && (g' == groups[k] + [|home|] || (tcp && g' == [|home|] + groups[k]))
      && (!tcp ==> p == |tabs.Get(tcp)[key]| - 1)
      && OnlyChanged(bufs, bufs', k, |home|)
      && Holds(orig, bufs'[k].pkt, g', item', tcp)
    ensures var k := tabs.Get(tcp)[key][p].bufsIndex;
      Core(orig, bufs', tabs.Set(tcp, tabs.Get(tcp)[key := tabs.Get(tcp)[key][p := item']]), groups[k := g'],
           home + [k])
  {
    hide Holds, FlowOk, Tracked, Partition, InOrder;
    var k := tabs.Get(tcp)[key][p].bufsIndex;
    var groups' := groups[k := g'];
    var tabs' := tabs.Set(tcp, tabs.Get(tcp)[key := tabs.Get(tcp)[key][p := item']]);
    InGroupsBelow(groups, home, k);
    forall b: bool
      ensures TableOk(orig, bufs', groups', tabs'.Get(b), b)
    {
      forall key' | key' in tabs'.Get(b)
        ensures FlowOk(orig, bufs', groups', tabs'.Get(b)[key'], key', b)
      {
        FlowAfterMerge(orig, bufs, bufs', tabs, groups, home, tcp, key, p, item', g', b, key');
      }
    }
    PartitionMerge(groups, home, k, g');
    forall key' | key' in tabs'.Get(false)
      ensures InOrder(groups', tabs'.Get(false)[key'])
    {
      OrderAfterMerge(orig, bufs, tabs, groups, home, tcp, key, p, item', g', key');
    }
    forall x | x in groups'
      ensures SingleOk(orig, bufs', groups'[x], x)
    {
      InGroupsBelow(groups', home + [k], x);
      if x != k {
        InGroupsBelow(groups, home, x);
        assert SingleOk(orig, bufs, groups[x], x);
      } else {
        GroupNotEmpty(groups, home, k);
      }
    }
    forall x | x in groups' && |groups'[x]| > 1
      ensures Tracked(tabs', x)
    {
      if x == k {
        MergedInTable(tabs'.Get(tcp), key, p);
        TrackedBy(tabs', tcp, x);
      } else {
        UpdatedTable(tabs.Get(tcp), key, p, item', x);
        TrackedAfter(tabs, tabs', x, tcp);
      }
    }
  }

  lemma GroupNotEmpty(groups: Groups, home: seq<nat>, k: nat)
    requires Partition(groups, home) && k in groups
    ensures |groups[k]| > 0
  {
    assert GroupOk(groups[k], home, k);
  }

  lemma TrackedBy(tabs: Tables, tcp: bool, k: nat)
    requires InTable(tabs.Get(tcp), k)
    ensures Tracked(tabs, k)
  {
  }

  lemma MergedInTable(table: Table, key: FlowKey, p: nat)
    requires key in table && p < |table[key]|
    ensures InTable(table, table[key][p].bufsIndex)
  {
  }

  lemma UpdatedTable(table: Table, key: FlowKey, p: nat, item': Item, k: nat)
    requires key in table && p < |table[key]| && item'.bufsIndex == table[key][p].bufsIndex
    ensures InTable(table, k) ==> InTable(table[key := table[key][p := item']], k)
  {
    if InTable(table, k) {
      var table': Table := table[key := table[key][p := item']];
      var key', q :| key' in table && 0 <= q < |table[key']| && table[key'][q].bufsIndex == k;
      assert table'[key'][q].bufsIndex == k;
    }
  }
}

/** The decisions of tcpGRO, udpGRO and handleGRO, as functions of the batch state (tun/offload_linux.go). */
module GroSteps {
  import opened Bytes
  import opened Options
  import opened Gso
  import opened GroPackets
  import opened GroGroups
  import opened GroState
  import opened GroDelivery

  datatype CoalesceResult = InsufficientCap | PshEnding | ItemInvalidCsum | PktInvalidCsum | Success

  datatype GroResult = Noop | TableInsert | Coalesced

  /** The item that tracks packet i on its own. */
  function NewItem(m: Meta, i: nat, pkt: seq<byte>, known: bool): Item
    requires m.hdrLen <= |pkt|
  {
    Item(m.key, m.seqNum, i, 0, |pkt| - m.hdrLen, m.iphLen, m.hdrLen, m.psh, known)
  }

  /** flags |= PSH in the head of a merged packet. */
  function SetPsh(pkt: seq<byte>, at: nat): (r: seq<byte>)
    requires at < |pkt|
    ensures |r| == |pkt|
  {
    if pkt[at] / 8 % 2 == 1 then pkt else pkt[at := pkt[at] + 8]
  }

  /** The tables with item' in the place of the p-th item of a flow. */
  function Updated(tabs: Tables, tcp: bool, key: FlowKey, p: nat, item': Item): Tables
    requires key in tabs.Get(tcp) && p < |tabs.Get(tcp)[key]|
  {
    tabs.Set(tcp, tabs.Get(tcp)[key := tabs.Get(tcp)[key][p := item']])
  }

  /** The head packet after an append: PSH carries over. */
  function Head(target: seq<byte>, item: Item, psh: bool): (r: seq<byte>)
    requires item.iphLen + 13 < |target|
    ensures |r| == |target|
  {
    if psh then SetPsh(target, item.iphLen + 13) else target
  }

  function Bumped(item: Item, size: nat): Item {
    item.(numMerged := item.numMerged + 1, gsoSize := if size > item.gsoSize then size else item.gsoSize)
  }

  predicate Checkable(pkt: seq<byte>, item: Item) {
    && item.iphLen <= item.hdrLen <= |pkt|
    && AddrAt(item.key.isV6) + 2 * AddrLen(item.key.isV6) <= |pkt|
  }

  datatype Attempt = Skipped | Merged | ItemDropped | PktInvalid

  /** The checks both coalesce functions share, in their order: capacity, the item's checksum, the packet's. */
  ghost function ChecksOutcome(room: nat, offset: nat, len: nat, target: seq<byte>, pkt: seq<byte>, item: Item,
      tcp: bool): CoalesceResult
    requires Checkable(target, item) && Checkable(pkt, item)
  {
    if room < offset + len then InsufficientCap
    else if item.numMerged == 0
      && ((!tcp && item.cSumKnownInvalid)
        || !ChecksumValid(target, item.iphLen, TransportProtocol(tcp), item.key.isV6)) then ItemInvalidCsum
    else if !ChecksumValid(pkt, item.iphLen, TransportProtocol(tcp), item.key.isV6) then PktInvalidCsum
    else Success
  }

  /** The fields of packet n and of an item of its flow are such that they can be compared. */
  ghost predicate Comparable(bufs: seq<Buf>, n: nat, m: Meta, item: Item, tcp: bool) {
    && n < |bufs| && item.bufsIndex < |bufs| && m.iphLen == item.iphLen && item.gsoSize > 0
    && m.hdrLen < |bufs[n].pkt| && item.hdrLen <= |bufs[item.bufsIndex].pkt|
    && (if tcp then m.iphLen + 20 <= m.hdrLen && item.iphLen + 20 <= item.hdrLen else m.hdrLen == item.hdrLen)
    && Checkable(bufs[n].pkt, item.(hdrLen := m.hdrLen)) && Checkable(bufs[item.bufsIndex].pkt, item)
  }

  /** What comparing packet n with an item of its flow must lead to. */
  ghost function Outcome(bufs: seq<Buf>, n: nat, m: Meta, item: Item, offset: nat, tcp: bool): Attempt
    requires Comparable(bufs, n, m, item, tcp)
  {
    var pkt, target := bufs[n].pkt, bufs[item.bufsIndex].pkt;
    var mode := if tcp then TcpCanCoalesce(pkt, m, item, target) else UdpCanCoalesce(pkt, m, item, target);
    if mode.Unavailable? || m.hdrLen != item.hdrLen then Skipped
    else
      var room := if mode.Prepend? then bufs[n].room else bufs[item.bufsIndex].room;
      match ChecksOutcome(room, offset, |target| + |pkt| - item.hdrLen, target, pkt, item, tcp)
      case Success => Merged
      case ItemInvalidCsum => if tcp then ItemDropped else Skipped
      case PktInvalidCsum => PktInvalid
      case _ => Skipped
  }

  // ---------------------------------------------------------------------------------------------
  // One packet.

  datatype State = State(bufs: seq<Buf>, tabs: Tables)

  /** The outcome of one packet: the new state, the result code, and the buffer the packet is in afterwards. */
  datatype Stepped = Stepped(state: State, result: GroResult, home: nat)

  predicate HasItem(s: State, key: FlowKey, p: nat, tcp: bool) {
    key in s.tabs.Get(tcp) && p < |s.tabs.Get(tcp)[key]|
  }

  /** A packet and a buffer that absorbs it, for a comparison that did not answer Unavailable. */
  ghost function MergedBufs(bufs: seq<Buf>, n: nat, m: Meta, item: Item, tcp: bool): (r: seq<Buf>)
    requires Comparable(bufs, n, m, item, tcp) && m.hdrLen == item.hdrLen
    ensures |r| == |bufs|
  {
    var k, h, pkt, target := item.bufsIndex, item.hdrLen, bufs[n].pkt, bufs[item.bufsIndex].pkt;
    if !tcp then bufs[k := bufs[k].(pkt := target + pkt[h..])]
    else if TcpCanCoalesce(pkt, m, item, target).Prepend? then
      bufs[k := bufs[n].(pkt := pkt + target[h..])][n := bufs[k]]
    else bufs[k := bufs[k].(pkt := Head(target, item, m.psh) + pkt[h..])]
  }

  ghost function MergedItem(bufs: seq<Buf>, n: nat, m: Meta, item: Item, tcp: bool): Item
    requires Comparable(bufs, n, m, item, tcp) && m.hdrLen == item.hdrLen
  {
    var size := |bufs[n].pkt| - item.hdrLen;
    if !tcp then item.(numMerged := item.numMerged + 1)
    else if TcpCanCoalesce(bufs[n].pkt, m, item, bufs[item.bufsIndex].pkt).Prepend? then
      Bumped(item, size).(sentSeq := m.seqNum)
    else Bumped(item, size).(pshSet := item.pshSet || m.psh)
  }

  /** The state after packet n was compared with the p-th item of its flow. */
  ghost function Tried(s: State, n: nat, m: Meta, p: nat, offset: nat, tcp: bool): (r: State)
    requires HasItem(s, m.key, p, tcp) && Comparable(s.bufs, n, m, s.tabs.Get(tcp)[m.key][p], tcp)
    ensures |r.bufs| == |s.bufs| && r.tabs.Get(!tcp) == s.tabs.Get(!tcp)
    ensures !Outcome(s.bufs, n, m, s.tabs.Get(tcp)[m.key][p], offset, tcp).Merged? ==> r.bufs == s.bufs
  {
    var items := s.tabs.Get(tcp)[m.key];
    match Outcome(s.bufs, n, m, items[p], offset, tcp)
    case Merged =>
      State(MergedBufs(s.bufs, n, m, items[p], tcp),
            Updated(s.tabs, tcp, m.key, p, MergedItem(s.bufs, n, m, items[p], tcp)))
    case ItemDropped => s.(tabs := s.tabs.Set(tcp, s.tabs.Get(tcp)[m.key := Without(items, p)]))
    case _ => s
  }

  /** Packet n as an item of its own. */
  function Inserted(s: State, n: nat, m: Meta, known: bool, tcp: bool): State
    requires n < |s.bufs| && m.hdrLen <= |s.bufs[n].pkt|
  {
    var table := s.tabs.Get(tcp);
    s.(tabs := s.tabs.Set(tcp, table[m.key := FlowItems(table, m.key) + [NewItem(m, n, s.bufs[n].pkt, known)]]))
  }

  /** tcpGRO: the first p items of the flow, from the last, until one takes the packet or the packet proves invalid. */
  ghost function TcpRun(s: State, n: nat, m: Meta, p: nat, offset: nat): (r: Stepped)
    requires n < |s.bufs| && m.hdrLen <= |s.bufs[n].pkt|
    ensures |r.state.bufs| == |s.bufs| && r.state.tabs.Get(false) == s.tabs.Get(false)
    decreases p
  {
    if p == 0 || !HasItem(s, m.key, p - 1, true) || !Comparable(s.bufs, n, m, s.tabs.Get(true)[m.key][p - 1], true) then
      Stepped(Inserted(s, n, m, false, true), TableInsert, n)
    else
      var item := s.tabs.Get(true)[m.key][p - 1];
      match Outcome(s.bufs, n, m, item, offset, true)
      case Merged => Stepped(Tried(s, n, m, p - 1, offset, true), Coalesced, item.bufsIndex)
      case PktInvalid => Stepped(s, Noop, n)
      case _ => TcpRun(Tried(s, n, m, p - 1, offset, true), n, m, p - 1, offset)
  }

  /** udpGRO: only the last item of the flow. */
  ghost function UdpRun(s: State, n: nat, m: Meta, offset: nat): (r: Stepped)
    requires n < |s.bufs| && m.hdrLen <= |s.bufs[n].pkt|
    ensures |r.state.bufs| == |s.bufs|
  {
    var items := FlowItems(s.tabs.Get(false), m.key);
    if |items| == 0 || !Comparable(s.bufs, n, m, items[|items| - 1], false) then
      Stepped(Inserted(s, n, m, false, false), TableInsert, n)
    else
      match Outcome(s.bufs, n, m, items[|items| - 1], offset, false)
      case Merged => Stepped(Tried(s, n, m, |items| - 1, offset, false), Coalesced, items[|items| - 1].bufsIndex)
      case PktInvalid => Stepped(Inserted(s, n, m, true, false), TableInsert, n)
      case _ => Stepped(Inserted(s, n, m, false, false), TableInsert, n)
  }

  /** A packet written as it is. */
  function Passed(s: State, n: nat): (r: Stepped)
    requires n < |s.bufs|
    ensures |r.state.bufs| == |s.bufs|
  {
    Stepped(s.(bufs := s.bufs[n := s.bufs[n].(vnet := ZERO_HDR)]), Noop, n)
  }

  ghost function TcpStep(s: State, n: nat, offset: nat, isV6: bool): (r: Stepped)
    requires n < |s.bufs| && Parsable(s.bufs[n].pkt, isV6, true)
    ensures |r.state.bufs| == |s.bufs|
  {
    match ParseTcp(s.bufs[n].pkt, isV6)
    case None => Passed(s, n)
    case Some(m) =>
      var r := TcpRun(s, n, m, |FlowItems(s.tabs.Get(true), m.key)|, offset);
      if r.result.Noop? then Passed(r.state, n) else r
  }

  ghost function UdpStep(s: State, n: nat, offset: nat, isV6: bool): (r: Stepped)
    requires n < |s.bufs| && Parsable(s.bufs[n].pkt, isV6, false)
    ensures |r.state.bufs| == |s.bufs|
  {
    match ParseUdp(s.bufs[n].pkt, isV6)
    case None => Passed(s, n)
    case Some(m) => UdpRun(s, n, m, offset)
  }

  /** One turn of the loop in handleGRO. */
  ghost function Step(s: State, n: nat, offset: nat, canUdp: bool): (r: Stepped)
    requires n < |s.bufs|
    ensures |r.state.bufs| == |s.bufs|
  {
    match CandidateOf(s.bufs[n].pkt, canUdp)
    case NotCandidate => Passed(s, n)
    case Tcp4 => TcpStep(s, n, offset, false)
    case Tcp6 => TcpStep(s, n, offset, true)
    case Udp4 => UdpStep(s, n, offset, false)
    case Udp6 => UdpStep(s, n, offset, true)
  }

  /** The state after the first n packets. */
  ghost function Run(s: State, n: nat, offset: nat, canUdp: bool): (r: State)
    requires n <= |s.bufs|
    ensures |r.bufs| == |s.bufs|
  {
    if n == 0 then s else Step(Run(s, n - 1, offset, canUdp), n - 1, offset, canUdp).state
  }

  /** Packet n ends up inside an earlier buffer. */
  ghost predicate Absorbed(s: State, n: nat, offset: nat, canUdp: bool)
    requires n < |s.bufs|
  {
    Step(Run(s, n, offset, canUdp), n, offset, canUdp).result.Coalesced?
  }

  // ---------------------------------------------------------------------------------------------
  // UDP flows are not reordered.

  /** The flow of a packet that the UDP evaluation accepts. */
  function UdpFlow(pkt: seq<byte>): Option<FlowKey> {
    match CandidateOf(pkt, true)
    case Udp4 => FlowOf(ParseUdp(pkt, false))
    case Udp6 => FlowOf(ParseUdp(pkt, true))
    case _ => None
  }

  function FlowOf(m: Option<Meta>): Option<FlowKey> {
    if m.None? then None else Some(m.value.key)
  }

  /** Of two packets of one UDP flow, the earlier is never in a later buffer. */
  ghost predicate UdpInOrder(orig: seq<seq<byte>>, home: seq<nat>) {
    |home| <= |orig| && forall a, b :: 0 <= a < b < |home| && SameUdpFlow(orig[a], orig[b]) ==> home[a] <= home[b]
  }

  predicate SameUdpFlow(a: seq<byte>, b: seq<byte>) {
    UdpFlow(a).Some? && UdpFlow(a) == UdpFlow(b)
  }

  /** The buffers of the items of a flow. */
  ghost function Slots(table: Table, key: FlowKey): (r: seq<nat>)
    ensures |r| == |FlowItems(table, key)|
  {
    var items := FlowItems(table, key);
    seq(|items|, p requires 0 <= p < |items| => items[p].bufsIndex)
  }

  ghost predicate SlotsOk(table: Table, key: FlowKey, n: nat) {
    var slots := Slots(table, key);
    Increasing(slots) && forall p :: 0 <= p < |slots| ==> slots[p] < n
  }

  /** Packet a of a UDP flow is in the buffer of one of its flow's items, or by itself. */
  ghost predicate Housed(orig: seq<seq<byte>>, table: Table, home: seq<nat>, canUdp: bool, a: nat)
    requires a < |home| <= |orig|
  {
    && home[a] < |home|
    && (UdpFlow(orig[a]).Some? ==> if canUdp then home[a] in Slots(table, UdpFlow(orig[a]).value) else home[a] == a)
  }

  ghost predicate Ordered(orig: seq<seq<byte>>, table: Table, home: seq<nat>, canUdp: bool) {
    && UdpInOrder(orig, home)
    && (forall key: FlowKey :: SlotsOk(table, key, |home|))
    && (forall a :: 0 <= a < |home| ==> Housed(orig, table, home, canUdp, a))
  }

  /** A packet of no UDP flow, or one that is not evaluated, leaves the order alone. */
  lemma OrderedOther(orig: seq<seq<byte>>, table: Table, home: seq<nat>, canUdp: bool, h: nat)
    requires Ordered(orig, table, home, canUdp) && |home| < |orig| && h <= |home|
    requires UdpFlow(orig[|home|]).None? || (!canUdp && h == |home|)
    ensures Ordered(orig, table, home + [h], canUdp)
  {
    hide UdpFlow, Slots, Increasing;
    var home' := home + [h];
    forall a | 0 <= a < |home'| ensures Housed(orig, table, home', canUdp, a) {
      if a < |home| { assert Housed(orig, table, home, canUdp, a); }
    }
    forall a, b | 0 <= a < b < |home'| && SameUdpFlow(orig[a], orig[b]) ensures home'[a] <= home'[b] {
      assert Housed(orig, table, home, canUdp, a);
    }
    forall key: FlowKey ensures SlotsOk(table, key, |home'|) {
      assert SlotsOk(table, key, |home|);
    }
  }

  /** A packet opens a new last buffer of its flow, or joins the last one. */
  ghost predicate JoinsLast(table: Table, table': Table, key: FlowKey, n: nat, h: nat) {
    && (forall key' :: key' != key ==> Slots(table', key') == Slots(table, key'))
    && (|| (h == n && Slots(table', key) == Slots(table, key) + [n])
        || (|Slots(table, key)| > 0 && Slots(table', key) == Slots(table, key) && h == Last(Slots(table, key))))
  }

  lemma SlotsUdp(table: Table, table': Table, key: FlowKey, n: nat, h: nat, key': FlowKey)
    requires JoinsLast(table, table', key, n, h) && SlotsOk(table, key', n)
    ensures SlotsOk(table', key', n + 1)
  {
    hide Slots;
  }

  /** No buffer of the flow comes after h, which is one of them. */
  lemma LastSlot(table: Table, table': Table, key: FlowKey, n: nat, h: nat, x: nat)
    requires JoinsLast(table, table', key, n, h) && SlotsOk(table, key, n)
    ensures h in Slots(table', key) && h <= n
    ensures x in Slots(table, key) ==> x <= h && x in Slots(table', key)
  {
    hide Slots;
    var slots, slots' := Slots(table, key), Slots(table', key);
    assert slots'[|slots'| - 1] == h;
    if x in slots {
      var p :| 0 <= p < |slots| && slots[p] == x;
      assert slots'[p] == x;
    }
  }

  lemma HousedUdp(orig: seq<seq<byte>>, table: Table, table': Table, home: seq<nat>, key: FlowKey, h: nat, a: nat)
    requires a < |home| < |orig| && Housed(orig, table, home, true, a)
    requires JoinsLast(table, table', key, |home|, h) && SlotsOk(table, key, |home|)
    ensures Housed(orig, table', home + [h], true, a)
    ensures UdpFlow(orig[a]) == Some(key) ==> home[a] <= h
  {
    hide UdpFlow, Slots, SlotsOk;
    LastSlot(table, table', key, |home|, h, home[a]);
  }

  lemma OrderedUdp(orig: seq<seq<byte>>, table: Table, table': Table, home: seq<nat>, key: FlowKey, h: nat)
    requires Ordered(orig, table, home, true) && |home| < |orig| && UdpFlow(orig[|home|]) == Some(key)
    requires JoinsLast(table, table', key, |home|, h)
    ensures Ordered(orig, table', home + [h], true)
  {
    hide UdpFlow, Slots, SlotsOk, JoinsLast;
    var home' := home + [h];
    forall key': FlowKey ensures SlotsOk(table', key', |home'|) {
      assert SlotsOk(table, key', |home|);
      SlotsUdp(table, table', key, |home|, h, key');
    }
    assert SlotsOk(table, key, |home|);
    LastSlot(table, table', key, |home|, h, h);
    forall a | 0 <= a < |home'| ensures Housed(orig, table', home', true, a) {
      if a < |home| {
        assert Housed(orig, table, home, true, a);
        HousedUdp(orig, table, table', home, key, h, a);
      }
    }
    forall a, b | 0 <= a < b < |home'| && SameUdpFlow(orig[a], orig[b]) ensures home'[a] <= home'[b] {
      assert Housed(orig, table, home, true, a);
      HousedUdp(orig, table, table', home, key, h, a);
    }
  }

  function Last(s: seq<nat>): nat
    requires |s| > 0
  {
    s[|s| - 1]
  }

  lemma UdpRunSlots(s: State, n: nat, m: Meta, offset: nat)
    requires n < |s.bufs| && m.hdrLen <= |s.bufs[n].pkt|
    ensures var r := UdpRun(s, n, m, offset);
      JoinsLast(s.tabs.Get(false), r.state.tabs.Get(false), m.key, n, r.home)
  {
    hide Comparable, Outcome, MergedBufs;
  }

  /** One packet keeps the order of every UDP flow. */
  lemma OrderedStep(orig: seq<seq<byte>>, s: State, home: seq<nat>, offset: nat, canUdp: bool)
    requires Ordered(orig, s.tabs.Get(false), home, canUdp)
    requires |home| < |s.bufs| == |orig| && s.bufs[|home|].pkt == orig[|home|]
    requires Step(s, |home|, offset, canUdp).home <= |home|
    ensures var r := Step(s, |home|, offset, canUdp);
      Ordered(orig, r.state.tabs.Get(false), home + [r.home], canUdp)
  {
    hide Ordered, UdpRun, TcpRun, ParseUdp, ParseTcp, Parsable, Slots, JoinsLast;
    var n, pkt := |home|, orig[|home|];
    if UdpFlow(pkt).Some? && canUdp {
      var m := ParseUdp(pkt, CandidateOf(pkt, true).Udp6?).value;
      UdpRunSlots(s, n, m, offset);
      OrderedUdp(orig, s.tabs.Get(false), UdpRun(s, n, m, offset).state.tabs.Get(false), home, m.key,
                 UdpRun(s, n, m, offset).home);
    } else {
      OrderedOther(orig, s.tabs.Get(false), home, canUdp, Step(s, n, offset, canUdp).home);
    }
  }
}

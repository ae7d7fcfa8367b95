/** tcpGRO, udpGRO and handleGRO over a batch of buffers (tun/offload_linux.go). */
module GroBatch {
  import opened Bytes
  import opened Options
  import opened Checksum
  import opened Gso
  import opened GroPackets
  import opened GroGroups
  import opened GroState
  import opened GroDelivery
  import opened GroSteps

  /** Packet n parses to m. */
  ghost predicate Parsed(orig: seq<seq<byte>>, n: nat, m: Meta, tcp: bool) {
    && n < |orig| && Parsable(orig[n], m.key.isV6, tcp)
    && Parse(orig[n], m.key.isV6, tcp) == Some(m)
  }

  lemma ParsedFacts(orig: seq<seq<byte>>, n: nat, m: Meta, tcp: bool)
    requires Parsed(orig, n, m, tcp)
    ensures n < |orig|
    ensures m.iphLen == IpLen(m.key.isV6)
    ensures m.iphLen + (if tcp then 20 else 8) <= m.hdrLen <= m.iphLen + (if tcp then 60 else 8)
    ensures m.hdrLen < |orig[n]| <= 0xffff
    ensures tcp ==> SeqOf(orig[n], m.iphLen) == m.seqNum && (m.psh <==> HasPsh(orig[n], m.iphLen))
  {
  }

  lemma ParsedMember(orig: seq<seq<byte>>, n: nat, m: Meta, item: Item, tcp: bool)
    requires Parsed(orig, n, m, tcp)
    requires item.key == m.key && item.hdrLen == m.hdrLen && item.iphLen == m.iphLen
    ensures Member(orig, n, item, tcp)
  {
    hide Parse, Parsable;
  }

  lemma MemberShape(orig: seq<seq<byte>>, j: nat, item: Item, tcp: bool)
    requires Member(orig, j, item, tcp)
    ensures item.iphLen == IpLen(item.key.isV6)
    ensures item.iphLen + (if tcp then 20 else 8) <= item.hdrLen <= item.iphLen + (if tcp then 60 else 8)
  {
  }

  /** What an item says about its buffer, without the group. */
  lemma ItemShape(orig: seq<seq<byte>>, bufs: seq<Buf>, groups: Groups, item: Item, key: FlowKey, tcp: bool)
    requires ItemOk(orig, bufs, groups, item, key, tcp)
    ensures item.key == key && item.bufsIndex in groups && item.bufsIndex < |bufs|
    ensures item.iphLen == IpLen(key.isV6)
    ensures item.iphLen + (if tcp then 20 else 8) <= item.hdrLen <= item.iphLen + (if tcp then 60 else 8)
    ensures item.hdrLen < |bufs[item.bufsIndex].pkt|
    ensures item.gsoSize > 0
  {
    var g := groups[item.bufsIndex];
    assert Member(orig, g[0], item, tcp) && item.gsoSize > 0 by {
      hide Member, Flatten, Sequenced, HeadersKept, AllVerified;
    }
    MemberShape(orig, g[0], item, tcp);
    hide Members, Member, Regular, Flatten, Sequenced, HeadersKept, AllVerified;
  }

  /** A packet on its own is described by its own item. */
  lemma NewItemHolds(orig: seq<seq<byte>>, n: nat, m: Meta, known: bool, tcp: bool)
    requires Parsed(orig, n, m, tcp)
    ensures m.hdrLen <= |orig[n]|
    ensures Holds(orig, orig[n], [n], NewItem(m, n, orig[n], known), tcp)
  {
    hide Parsed, Parse, Parsable, Member, SeqOf, Flatten, Mul, Alike, HasPsh;
    ParsedFacts(orig, n, m, tcp);
    var item := NewItem(m, n, orig[n], known);
    ParsedMember(orig, n, m, item, tcp);
    assert Members(orig, [n], item, tcp);
    LonePayload(orig, n, m.hdrLen);
    AtFirst(m.seqNum, item.gsoSize);
    AlikeSelf(orig, n, item, tcp);
    if tcp {
      FlaggedAlone(orig, n, item);
    }
    hide Flagged;
  }

  lemma AlikeSelf(orig: seq<seq<byte>>, n: nat, item: Item, tcp: bool)
    requires Member(orig, n, item, tcp)
    ensures Alike(orig[n], orig[n], item, tcp)
  {
    hide Member;
    MemberBytes(orig, n, item, tcp);
  }

  lemma FlaggedAlone(orig: seq<seq<byte>>, n: nat, item: Item)
    requires Member(orig, n, item, true) && (item.pshSet <==> HasPsh(orig[n], item.iphLen))
    ensures Flagged(orig, orig[n], [n], item)
  {
    hide Member;
    MemberBytes(orig, n, item, true);
  }

  lemma LonePayload(orig: seq<seq<byte>>, n: nat, h: nat)
    requires n < |orig| && h < |orig[n]|
    ensures Flatten(Payloads(orig, [n], h)) == orig[n][h..]
    ensures Regular(Payloads(orig, [n], h), |orig[n]| - h)
  {
    hide Flatten;
    var p := orig[n][h..];
    assert Payloads(orig, [n], h) == [p];
    FlattenOne(p);
  }

  /** Packet n and the p-th item of its flow, in a valid state. */
  ghost predicate Facing(orig: seq<seq<byte>>, bufs: seq<Buf>, tabs: Tables, groups: Groups, home: seq<nat>, tcp: bool,
                         m: Meta, p: nat)
  {
    && Core(orig, bufs, tabs, groups, home) && |home| < |bufs|
    && Parsed(orig, |home|, m, tcp)
    && m.key in tabs.Get(tcp) && p < |tabs.Get(tcp)[m.key]|
  }

  ghost predicate Below(g: seq<nat>, n: nat) {
    forall j :: 0 <= j < |g| ==> g[j] < n
  }

  lemma GroupBelow(groups: Groups, home: seq<nat>, k: nat)
    requires Partition(groups, home) && k in groups
    ensures Below(groups[k], |home|)
  {
    assert GroupOk(groups[k], home, k);
  }

  lemma FacingItem(orig: seq<seq<byte>>, bufs: seq<Buf>, tabs: Tables, groups: Groups, home: seq<nat>, tcp: bool,
                   m: Meta, p: nat)
    requires Facing(orig, bufs, tabs, groups, home, tcp, m, p)
    ensures var item := tabs.Get(tcp)[m.key][p];
      && ItemOk(orig, bufs, groups, item, m.key, tcp)
      && item.bufsIndex < |home| && |groups[item.bufsIndex]| == item.numMerged + 1
      && Below(groups[item.bufsIndex], |home|)
    ensures |bufs| == |orig| && bufs[|home|].pkt == orig[|home|]
    ensures forall j :: 0 <= j < |bufs| ==> |bufs[j].pkt| <= bufs[j].room <= 0xffff
  {
    hide ItemOk, SingleOk, Tracked, Parsed;
    var item := tabs.Get(tcp)[m.key][p];
    assert FlowOk(orig, bufs, groups, tabs.Get(tcp)[m.key], m.key, tcp);
    BufferOfItem(orig, bufs, groups, item, m.key, tcp);
    InGroupsBelow(groups, home, item.bufsIndex);
    GroupBelow(groups, home, item.bufsIndex);
  }

  /** Both packets of a first merge were verified; later merges only add verified ones. */
  ghost predicate ChecksPassed(target: seq<byte>, pkt: seq<byte>, item: Item, tcp: bool) {
    && (item.numMerged == 0 ==> Verified(target, item, tcp))
    && Verified(pkt, item, tcp)
  }

  lemma FirstOfSingle(orig: seq<seq<byte>>, pkt: seq<byte>, g: seq<nat>, item: Item, tcp: bool)
    requires Holds(orig, pkt, g, item, tcp)
    ensures |g| == item.numMerged + 1
    ensures g[0] < |orig| && (|g| == 1 ==> pkt == orig[g[0]])
  {
    hide Member, Flatten, Regular, Sequenced, HeadersKept, AllVerified;
  }

  /** The outcome of the checks under which pkt is appended to the item's buffer, whose head became base. */
  ghost predicate MayAppend(target: Buf, pkt: seq<byte>, m: Meta, item: Item, tcp: bool, base: seq<byte>, item': Item) {
    && item.gsoSize > 0 && m.hdrLen == item.hdrLen <= |pkt| && item.hdrLen <= |target.pkt|
    && m.iphLen == item.iphLen && item.iphLen + 8 <= item.hdrLen
    && WholeSegments(target.pkt, item) && |pkt| - item.hdrLen <= item.gsoSize
    && (tcp ==> m.seqNum == (item.sentSeq + ItemLen(item)) % 0x1_0000_0000)
    && ChecksPassed(target.pkt, pkt, item, tcp)
    && |base| == |target.pkt| && base[item.hdrLen..] == target.pkt[item.hdrLen..]
    && HeadersKept(base, target.pkt, item, tcp)
    && |base| + |pkt| - item.hdrLen <= target.room
    && SameShape(item, item') && item'.bufsIndex == item.bufsIndex && item'.sentSeq == item.sentSeq
    && item'.gsoSize == item.gsoSize && item'.numMerged == item.numMerged + 1
    && IpHeadersCanCoalesce(pkt, target.pkt)
    && (tcp ==> MayAppendTcp(target.pkt, pkt, m, item, base, item'))
  }

  ghost predicate MayAppendTcp(target: seq<byte>, pkt: seq<byte>, m: Meta, item: Item, base: seq<byte>, item': Item)
    requires item.hdrLen <= |pkt| && item.hdrLen <= |target|
  {
    && item.iphLen + 20 <= item.hdrLen
    && pkt[item.iphLen + 20..item.hdrLen] == target[item.iphLen + 20..item.hdrLen]
    && !item.pshSet && item'.pshSet == m.psh && base == Head(target, item, m.psh)
  }

  lemma AppendedHolds(orig: seq<seq<byte>>, target: Buf, g: seq<nat>, m: Meta, item: Item, tcp: bool, n: nat,
                      base: seq<byte>, item': Item)
    requires Parsed(orig, n, m, tcp) && m.key == item.key
    requires MayAppend(target, orig[n], m, item, tcp, base, item')
    requires Holds(orig, target.pkt, g, item, tcp) && |target.pkt| <= 0xffff && Below(g, n)
    ensures Holds(orig, base + orig[n][item.hdrLen..], g + [n], item', tcp)
  {
    hide Holds, Parsed, Verified, HeadersKept, WholeSegments, ItemLen, HasPsh, IpHeadersCanCoalesce;
    ParsedMember(orig, n, m, item, tcp);
    ParsedFacts(orig, n, m, tcp);
    FirstOfSingle(orig, target.pkt, g, item, tcp);
    if tcp {
      HeadFlags(orig, target.pkt, g, item);
    }
    AppendHolds(orig, target.pkt, base, g, item, item', tcp, n);
  }

  lemma HeadFlags(orig: seq<seq<byte>>, pkt: seq<byte>, g: seq<nat>, item: Item)
    requires Holds(orig, pkt, g, item, true) && !item.pshSet
    ensures item.iphLen + 13 < |pkt| && pkt[item.iphLen + 13] == 0x10
  {
    hide Member, Flatten, Regular, Sequenced, HeadersKept, AllVerified, AllAlike;
  }

  lemma AppendStep(orig: seq<seq<byte>>, bufs: seq<Buf>, tabs: Tables, groups: Groups, home: seq<nat>, tcp: bool,
                   m: Meta, p: nat, n: nat, item: Item, base: seq<byte>, item': Item)
    requires n < |orig| && item.bufsIndex < |bufs|
    requires MayAppend(bufs[item.bufsIndex], orig[n], m, item, tcp, base, item')
    requires Facing(orig, bufs, tabs, groups, home, tcp, m, p)
    requires n == |home| && tabs.Get(tcp)[m.key][p] == item
    requires !tcp ==> p == |tabs.Get(tcp)[m.key]| - 1
    ensures item.bufsIndex in groups
    ensures Core(orig, bufs[item.bufsIndex := bufs[item.bufsIndex].(pkt := base + orig[n][item.hdrLen..])],
                 Updated(tabs, tcp, m.key, p, item'), groups[item.bufsIndex := groups[item.bufsIndex] + [n]],
                 home + [item.bufsIndex])
  {
    hide Core, Holds, Parsed, MayAppend;
    FacingItem(orig, bufs, tabs, groups, home, tcp, m, p);
    var k := item.bufsIndex;
    AppendSizes(bufs[k], orig[n], m, item, tcp, base, item');
    var bufs' := bufs[k := bufs[k].(pkt := base + orig[n][item.hdrLen..])];
    AppendedHolds(orig, bufs[k], groups[k], m, item, tcp, n, base, item');
    MergeKeepsCore(orig, bufs, bufs', tabs, groups, home, tcp, m.key, p, item', groups[k] + [n]);
  }

  lemma AppendSizes(target: Buf, pkt: seq<byte>, m: Meta, item: Item, tcp: bool, base: seq<byte>, item': Item)
    requires MayAppend(target, pkt, m, item, tcp, base, item')
    ensures item.hdrLen <= |pkt| && |base + pkt[item.hdrLen..]| <= target.room
    ensures item'.bufsIndex == item.bufsIndex && item'.key == item.key
  {
    hide WholeSegments, ItemLen, ChecksPassed, HeadersKept, IpHeadersCanCoalesce, MayAppendTcp;
  }

  /** The outcome of the checks under which pkt goes in front of the item's buffer. */
  ghost predicate MayPrepend(target: seq<byte>, mine: Buf, m: Meta, item: Item, item': Item) {
    && m.hdrLen == item.hdrLen <= |mine.pkt| && item.hdrLen <= |target|
    && m.iphLen == item.iphLen
    && item'.gsoSize == |mine.pkt| - item.hdrLen >= item.gsoSize
    && (item'.gsoSize == item.gsoSize || item.numMerged == 0)
    && (m.seqNum + item'.gsoSize) % 0x1_0000_0000 == item.sentSeq && item'.sentSeq == m.seqNum
    && ChecksPassed(target, mine.pkt, item, true)
    && |target| + |mine.pkt| - item.hdrLen <= mine.room
    && SameShape(item, item') && item'.bufsIndex == item.bufsIndex && item'.numMerged == item.numMerged + 1
    && IpHeadersCanCoalesce(mine.pkt, target)
    && item.iphLen + 20 <= item.hdrLen
    && mine.pkt[item.iphLen + 20..item.hdrLen] == target[item.iphLen + 20..item.hdrLen]
    && item'.pshSet == item.pshSet && !m.psh
  }

  lemma PrependedHolds(orig: seq<seq<byte>>, target: seq<byte>, mine: Buf, g: seq<nat>, m: Meta, item: Item, n: nat,
                       item': Item)
    requires Parsed(orig, n, m, true) && m.key == item.key && mine.pkt == orig[n]
    requires MayPrepend(target, mine, m, item, item')
    requires Holds(orig, target, g, item, true) && Below(g, n)
    ensures Holds(orig, orig[n] + target[item.hdrLen..], [n] + g, item', true)
  {
    hide Holds, Parsed, Verified, HasPsh, IpHeadersCanCoalesce;
    ParsedMember(orig, n, m, item, true);
    ParsedFacts(orig, n, m, true);
    FirstOfSingle(orig, target, g, item, true);
    PrependHolds(orig, target, g, item, item', n);
  }

  lemma PrependStep(orig: seq<seq<byte>>, bufs: seq<Buf>, tabs: Tables, groups: Groups, home: seq<nat>,
                    m: Meta, p: nat, n: nat, item: Item, item': Item)
    requires n < |bufs| && item.bufsIndex < |bufs|
    requires MayPrepend(bufs[item.bufsIndex].pkt, bufs[n], m, item, item')
    requires Facing(orig, bufs, tabs, groups, home, true, m, p)
    requires n == |home| && tabs.Get(true)[m.key][p] == item
    ensures item.bufsIndex in groups
    ensures Core(orig, bufs[item.bufsIndex := bufs[n].(pkt := bufs[n].pkt + bufs[item.bufsIndex].pkt[item.hdrLen..])]
                           [n := bufs[item.bufsIndex]],
                 Updated(tabs, true, m.key, p, item'), groups[item.bufsIndex := [n] + groups[item.bufsIndex]],
                 home + [item.bufsIndex])
  {
    hide Core, Holds, Parsed, MayPrepend;
    FacingItem(orig, bufs, tabs, groups, home, true, m, p);
    var k := item.bufsIndex;
    PrependSizes(bufs[k].pkt, bufs[n], m, item, item');
    var bufs' := bufs[k := bufs[n].(pkt := bufs[n].pkt + bufs[k].pkt[item.hdrLen..])][n := bufs[k]];
    PrependedHolds(orig, bufs[k].pkt, bufs[n], groups[k], m, item, n, item');
    MergeKeepsCore(orig, bufs, bufs', tabs, groups, home, true, m.key, p, item', [n] + groups[k]);
  }

  lemma PrependSizes(target: seq<byte>, mine: Buf, m: Meta, item: Item, item': Item)
    requires MayPrepend(target, mine, m, item, item')
    ensures item.hdrLen <= |target| && |mine.pkt + target[item.hdrLen..]| <= mine.room
    ensures item'.bufsIndex == item.bufsIndex && item'.key == item.key
  {
    hide ChecksPassed;
  }

  /** The effect of a successful coalesceTCPPackets. */
  ghost predicate TcpCoalesced(bufs: seq<Buf>, bufs': seq<Buf>, mode: CanCoalesce, n: nat, m: Meta, item: Item,
                               item': Item)
    requires n < |bufs| && item.bufsIndex < |bufs|
    requires item.iphLen + 20 <= item.hdrLen <= |bufs[n].pkt| && item.hdrLen <= |bufs[item.bufsIndex].pkt|
  {
    var k, h, pkt, target := item.bufsIndex, item.hdrLen, bufs[n].pkt, bufs[item.bufsIndex].pkt;
    && ChecksPassed(target, pkt, item, true)
    && (mode.Prepend? ==>
        && |target| + |pkt| - h <= bufs[n].room
        && item' == Bumped(item, |pkt| - h).(sentSeq := m.seqNum)
        && bufs' == bufs[k := bufs[n].(pkt := pkt + target[h..])][n := bufs[k]])
    && (!mode.Prepend? ==>
        && |target| + |pkt| - h <= bufs[k].room
        && item' == Bumped(item, |pkt| - h).(pshSet := item.pshSet || m.psh)
        && bufs' == bufs[k := bufs[k].(pkt := Head(target, item, m.psh) + pkt[h..])])
  }

  class Batch {
    var bufs: seq<Buf>
    var toWrite: seq<nat>
    var tabs: Tables
    ghost var orig: seq<seq<byte>>
    ghost var groups: Groups
    ghost var home: seq<nat>

    ghost predicate Valid()
      reads this
    {
      Core(orig, bufs, tabs, groups, home)
    }

    /** The checks both coalesce functions share: capacity, then the item's checksum, then the packet's. */
    static method CoalesceChecks(host: Host, room: nat, offset: nat, len: nat, target: seq<byte>, pkt: seq<byte>,
                                 item: Item, tcp: bool) returns (result: CoalesceResult)
      requires Checkable(target, item) && Checkable(pkt, item)
      ensures result == ChecksOutcome(room, offset, len, target, pkt, item, tcp)
      ensures result.ItemInvalidCsum? ==> item.numMerged == 0
      ensures result.Success? ==> offset + len <= room && ChecksPassed(target, pkt, item, tcp)
    {
      hide ChecksumValid;
      if room < offset + len {
        return InsufficientCap;
      }
      if item.numMerged == 0 {
        var valid := CheckChecksum(host, target, item.iphLen, TransportProtocol(tcp), item.key.isV6);
        if (!tcp && item.cSumKnownInvalid) || !valid {
          return ItemInvalidCsum;
        }
      }
      var valid := CheckChecksum(host, pkt, item.iphLen, TransportProtocol(tcp), item.key.isV6);
      if !valid {
        return PktInvalidCsum;
      }
      return Success;
    }

    /** coalesceTCPPackets. A prepend swaps the two buffers, because the item's index is the one being written. */
    method CoalesceTcp(host: Host, mode: CanCoalesce, n: nat, m: Meta, item: Item, offset: nat)
      returns (result: CoalesceResult, item': Item)
      requires n < |bufs| && item.bufsIndex < |bufs| && item.bufsIndex != n
      requires Checkable(bufs[n].pkt, item) && Checkable(bufs[item.bufsIndex].pkt, item)
      requires item.iphLen + 20 <= item.hdrLen
      modifies this`bufs
      ensures !result.Success? ==> bufs == old(bufs)
      ensures !(mode.Prepend? && m.psh) ==> result == ChecksOutcome(
        if mode.Prepend? then old(bufs[n].room) else old(bufs[item.bufsIndex].room), offset,
        |old(bufs[item.bufsIndex].pkt)| + |old(bufs[n].pkt)| - item.hdrLen,
        old(bufs[item.bufsIndex].pkt), old(bufs[n].pkt), item, true)
      ensures mode.Prepend? && m.psh ==> result.InsufficientCap? || result.PshEnding?
      ensures result.ItemInvalidCsum? ==> item.numMerged == 0
      ensures result.Success? ==> TcpCoalesced(old(bufs), bufs, mode, n, m, item, item')
    {
      hide ChecksPassed, SetPsh, ChecksOutcome;
      var k, h := item.bufsIndex, item.hdrLen;
      var pkt, target := bufs[n].pkt, bufs[k].pkt;
      var len := |target| + |pkt| - h;
      item' := item;
      if mode.Prepend? {
        result := CoalesceChecks(host, bufs[n].room, offset, len, target, pkt, item, true);
        if m.psh && !result.InsufficientCap? {
          return PshEnding, item;
        }
        if !result.Success? {
          return;
        }
        item' := item'.(sentSeq := m.seqNum);
        bufs := bufs[n := bufs[n].(pkt := pkt + target[h..])];
        bufs := bufs[k := bufs[n]][n := bufs[k]];
      } else {
        result := CoalesceChecks(host, bufs[k].room, offset, len, target, pkt, item, true);
        if !result.Success? {
          return;
        }
        if m.psh {
          item' := item'.(pshSet := true);
          bufs := bufs[k := bufs[k].(pkt := SetPsh(target, item.iphLen + 13))];
        }
        bufs := bufs[k := bufs[k].(pkt := bufs[k].pkt + pkt[h..])];
      }
      item' := Bumped(item', |pkt| - h);
    }

    /** coalesceUDPPackets. */
    method CoalesceUdp(host: Host, n: nat, m: Meta, item: Item, offset: nat)
      returns (result: CoalesceResult, item': Item)
      requires n < |bufs| && item.bufsIndex < |bufs| && item.bufsIndex != n
      requires Checkable(bufs[n].pkt, item) && Checkable(bufs[item.bufsIndex].pkt, item)
      modifies this`bufs
      ensures !result.Success? ==> bufs == old(bufs)
      ensures result == ChecksOutcome(old(bufs[item.bufsIndex].room), offset,
        |old(bufs[item.bufsIndex].pkt)| + |old(bufs[n].pkt)| - item.hdrLen,
        old(bufs[item.bufsIndex].pkt), old(bufs[n].pkt), item, false)
      ensures result.Success? ==>
        var k, h, pkt, target := item.bufsIndex, item.hdrLen, old(bufs[n].pkt), old(bufs[item.bufsIndex].pkt);
        && ChecksPassed(target, pkt, item, false)
        && |target| + |pkt| - h <= old(bufs[k].room)
        && item' == item.(numMerged := item.numMerged + 1)
        && bufs == old(bufs)[k := old(bufs)[k].(pkt := target + pkt[h..])]
    {
      hide ChecksPassed, ChecksOutcome;
      var k, h := item.bufsIndex, item.hdrLen;
      var pkt, target := bufs[n].pkt, bufs[k].pkt;
      result := CoalesceChecks(host, bufs[k].room, offset, |target| + |pkt| - h, target, pkt, item, false);
      item' := item;
      if result.Success? {
        bufs := bufs[k := bufs[k].(pkt := target + pkt[h..])];
        item' := item.(numMerged := item.numMerged + 1);
      }
    }

    /** One turn of the loop in tcpGRO: packet n against the p-th item of its flow. */
    method TryTcpItem(host: Host, n: nat, m: Meta, p: nat, offset: nat) returns (a: Attempt)
      requires Facing(orig, bufs, tabs, groups, home, true, m, p) && n == |home|
      modifies this`bufs, this`tabs, this`groups, this`home
      ensures Valid()
      ensures var item := old(tabs).Get(true)[m.key][p];
        Comparable(old(bufs), n, m, item, true) && a == Outcome(old(bufs), n, m, item, offset, true)
      ensures State(bufs, tabs) == Tried(State(old(bufs), old(tabs)), n, m, p, offset, true)
      ensures a.Merged? ==>
        home == old(home) + [old(tabs).Get(true)[m.key][p].bufsIndex] && groups.Keys == old(groups.Keys)
      ensures a.Merged? ==> home[n] < n
      ensures !a.Merged? ==> groups == old(groups) && home == old(home)
    {
      hide Core, Parsed, Holds, TcpCanCoalesce, ChecksPassed, Head, Bumped, ItemOk, ChecksOutcome;
      FacingItem(orig, bufs, tabs, groups, home, true, m, p);
      var item := tabs.Get(true)[m.key][p];
      var k := item.bufsIndex;
      ItemShape(orig, bufs, groups, item, m.key, true);
      ParsedFacts(orig, n, m, true);
      var mode := TcpCanCoalesce(bufs[n].pkt, m, item, bufs[k].pkt);
      if mode.Unavailable? {
        return Skipped;
      }
      AvailableSameHeaders(bufs[n].pkt, m, item, bufs[k].pkt);
      NoPshPrepend(bufs[n].pkt, m, item, bufs[k].pkt);
      ghost var bufs0 := bufs;
      var result, item' := CoalesceTcp(host, mode, n, m, item, offset);
      match result
      case Success =>
        TcpMergeStep(orig, bufs0, bufs, tabs, groups, home, m, p, n, item, mode, item');
        tabs := Updated(tabs, true, m.key, p, item');
        groups := groups[k := if mode.Append? then groups[k] + [n] else [n] + groups[k]];
        home := home + [k];
        return Merged;
      case ItemInvalidCsum =>
        DeleteKeepsCore(orig, bufs, tabs, groups, home, m.key, p);
        tabs := tabs.Set(true, tabs.Get(true)[m.key := Without(tabs.Get(true)[m.key], p)]);
        return ItemDropped;
      case PktInvalidCsum =>
        return PktInvalid;
      case _ =>
        return Skipped;
    }

    /** insert: packet n joins the table as an item of its own. */
    method InsertItem(n: nat, m: Meta, known: bool, isTcp: bool)
      requires Valid() && n == |home| < |bufs| && Parsed(orig, n, m, isTcp)
      requires m.hdrLen <= |bufs[n].pkt|
      modifies this`tabs, this`groups, this`home
      ensures Valid()
      ensures home == old(home) + [n] && n !in old(groups) && groups == old(groups)[n := [n]]
      ensures State(bufs, tabs) == Inserted(State(old(bufs), old(tabs)), n, m, known, isTcp)
    {
      hide Core, Parsed;
      CoreBufs(orig, bufs, tabs, groups, home);
      var item := NewItem(m, n, bufs[n].pkt, known);
      InsertStep(orig, bufs, tabs, groups, home, isTcp, m, n, known);
      tabs := tabs.Set(isTcp, tabs.Get(isTcp)[m.key := FlowItems(tabs.Get(isTcp), m.key) + [item]]);
      groups := groups[n := [n]];
      home := home + [n];
    }

    /** tcpGRO. */
    method TcpGro(host: Host, n: nat, offset: nat, isV6: bool) returns (r: GroResult)
      requires Valid() && n == |home| < |bufs| && Parsable(bufs[n].pkt, isV6, true)
      modifies this`bufs, this`tabs, this`groups, this`home
      ensures Valid() && |bufs| == old(|bufs|)
      ensures r.Noop? ==> groups == old(groups) && home == old(home)
      ensures r.TableInsert? ==> home == old(home) + [n] && groups.Keys == old(groups.Keys) + {n}
      ensures r.Coalesced? ==>
        |home| == n + 1 && home[..n] == old(home) && home[n] < n && groups.Keys == old(groups.Keys)
      ensures TcpStep(State(old(bufs), old(tabs)), n, offset, isV6) == Ended(State(bufs, tabs), n, r, home)
    {
      hide Core, Parsable, ParseTcp, Outcome, Comparable, Tried;
      CoreBufs(orig, bufs, tabs, groups, home);
      var parsed := ParseTcp(bufs[n].pkt, isV6);
      if parsed.None? {
        return Noop;
      }
      var m := parsed.value;
      assert Parsed(orig, n, m, true);
      hide Parsed;
      ghost var s := State(bufs, tabs);
      if m.key !in tabs.Get(true) {
        InsertItem(n, m, false, true);
        return TableInsert;
      }
      var p: nat := |tabs.Get(true)[m.key]|;
      while p > 0
        invariant Valid() && n == |home| && bufs == old(bufs) && groups == old(groups) && home == old(home)
        invariant m.key in tabs.Get(true) && p <= |tabs.Get(true)[m.key]|
        invariant TcpRun(s, n, m, |s.tabs.Get(true)[m.key]|, offset) == TcpRun(State(bufs, tabs), n, m, p, offset)
      {
        p := p - 1;
        ghost var before := State(bufs, tabs);
        var a := TryTcpItem(host, n, m, p, offset);
        TriedRun(before, n, m, p, offset);
        if a.Merged? {
          CoreBufs(orig, bufs, tabs, groups, home);
          return Coalesced;
        } else if a.PktInvalid? {
          return Noop;
        }
      }
      InsertItem(n, m, false, true);
      return TableInsert;
    }

    /** udpGRO: only the last item of the flow is considered, so that the flow is never reordered. */
    method UdpGro(host: Host, n: nat, offset: nat, isV6: bool) returns (r: GroResult)
      requires Valid() && n == |home| < |bufs| && Parsable(bufs[n].pkt, isV6, false)
      modifies this`bufs, this`tabs, this`groups, this`home
      ensures Valid() && |bufs| == old(|bufs|)
      ensures r.Noop? ==> groups == old(groups) && home == old(home)
      ensures r.TableInsert? ==> home == old(home) + [n] && groups.Keys == old(groups.Keys) + {n}
      ensures r.Coalesced? ==>
        |home| == n + 1 && home[..n] == old(home) && home[n] < n && groups.Keys == old(groups.Keys)
      ensures UdpStep(State(old(bufs), old(tabs)), n, offset, isV6) == Ended(State(bufs, tabs), n, r, home)
    {
      hide Core, Parsable, ParseUdp, Outcome, Comparable, Tried;
      CoreBufs(orig, bufs, tabs, groups, home);
      var parsed := ParseUdp(bufs[n].pkt, isV6);
      if parsed.None? {
        return Noop;
      }
      var m := parsed.value;
      assert Parsed(orig, n, m, false);
      hide Parsed;
      var known := false;
      if m.key in tabs.Get(false) && |tabs.Get(false)[m.key]| > 0 {
        var a := TryUdpItem(host, n, m, |tabs.Get(false)[m.key]| - 1, offset);
        if a.Merged? {
          CoreBufs(orig, bufs, tabs, groups, home);
          return Coalesced;
        }
        known := a.PktInvalid?;
      }
      InsertItem(n, m, known, false);
      return TableInsert;
    }

    /** Packet n against the last item of its UDP flow. */
    method TryUdpItem(host: Host, n: nat, m: Meta, p: nat, offset: nat) returns (a: Attempt)
      requires Facing(orig, bufs, tabs, groups, home, false, m, p) && n == |home| && p == |tabs.Get(false)[m.key]| - 1
      modifies this`bufs, this`tabs, this`groups, this`home
      ensures Valid()
      ensures a.Merged? ==>
        home == old(home) + [old(tabs).Get(false)[m.key][p].bufsIndex] && groups.Keys == old(groups.Keys)
      ensures a.Merged? ==> home[n] < n
      ensures !a.Merged? ==> bufs == old(bufs) && groups == old(groups) && home == old(home) && tabs == old(tabs)
      ensures var item := old(tabs).Get(false)[m.key][p];
        Comparable(old(bufs), n, m, item, false) && a == Outcome(old(bufs), n, m, item, offset, false)
      ensures State(bufs, tabs) == Tried(State(old(bufs), old(tabs)), n, m, p, offset, false)
    {
      hide Core, Parsed, Holds, UdpCanCoalesce, ChecksPassed, ItemOk, ChecksOutcome;
      FacingItem(orig, bufs, tabs, groups, home, false, m, p);
      var item := tabs.Get(false)[m.key][p];
      var k := item.bufsIndex;
      ItemShape(orig, bufs, groups, item, m.key, false);
      ParsedFacts(orig, n, m, false);
      var mode := UdpCanCoalesce(bufs[n].pkt, m, item, bufs[k].pkt);
      if mode.Unavailable? {
        return Skipped;
      }
      ghost var bufs0 := bufs;
      var result, item' := CoalesceUdp(host, n, m, item, offset);
      if result.Success? {
        UdpMayMerge(bufs0[k], bufs0[n].pkt, m, item, item');
        AppendStep(orig, bufs0, tabs, groups, home, false, m, p, n, item, bufs0[k].pkt, item');
        tabs := Updated(tabs, false, m.key, p, item');
        groups := groups[k := groups[k] + [n]];
        home := home + [k];
        return Merged;
      }
      return if result.PktInvalidCsum? then PktInvalid else Skipped;
    }

    /** The dispatch on the kind of candidate. */
    method Evaluate(host: Host, n: nat, offset: nat, canUdp: bool) returns (r: GroResult)
      requires Valid() && n == |home| < |bufs|
      modifies this`bufs, this`tabs, this`groups, this`home
      ensures Valid() && |bufs| == old(|bufs|)
      ensures r.Noop? ==> groups == old(groups) && home == old(home)
      ensures r.TableInsert? ==> home == old(home) + [n] && groups.Keys == old(groups.Keys) + {n}
      ensures r.Coalesced? ==>
        |home| == n + 1 && home[..n] == old(home) && home[n] < n && groups.Keys == old(groups.Keys)
      ensures Step(State(old(bufs), old(tabs)), n, offset, canUdp) == Ended(State(bufs, tabs), n, r, home)
    {
      hide Core, TcpStep, UdpStep, Parsable;
      match CandidateOf(bufs[n].pkt, canUdp) {
        case NotCandidate => r := Noop;
        case Tcp4 => r := TcpGro(host, n, offset, false);
        case Tcp6 => r := TcpGro(host, n, offset, true);
        case Udp4 => r := UdpGro(host, n, offset, false);
        case Udp6 => r := UdpGro(host, n, offset, true);
      }
    }

    /** One turn of the loop in handleGRO: packet n, in a valid state, is written, inserted or absorbed. */
    method HandlePacket(host: Host, n: nat, offset: nat, canUdp: bool)
      requires Valid() && n == |home| < |bufs|
      modifies this`bufs, this`tabs, this`groups, this`home, this`toWrite
      ensures Valid() && |bufs| == old(|bufs|)
      ensures var step := Step(State(old(bufs), old(tabs)), n, offset, canUdp);
        && State(bufs, tabs) == step.state && home == old(home) + [step.home] && step.home <= n
        && toWrite == (if step.result.Coalesced? then old(toWrite) else old(toWrite) + [n])
        && groups.Keys == old(groups.Keys) + (if step.result.Coalesced? then {} else {n})
    {
      hide Core, Step;
      var result := Evaluate(host, n, offset, canUdp);
      if result.Noop? {
        NewGroupKeepsCore(orig, bufs, tabs, groups, home);
        groups := groups[n := [n]];
        home := home + [n];
        HeaderSlotFree(orig, bufs, tabs, groups, home, n);
        bufs := bufs[n := bufs[n].(vnet := ZERO_HDR)];
      }
      if !result.Coalesced? {
        toWrite := toWrite + [n];
      }
    }

    /** The loop of handleGRO over all packets. */
    method Walk(host: Host, offset: nat, canUdp: bool) returns (ok: bool)
      requires Valid() && home == [] && toWrite == [] && groups == map[] && tabs == Tables(map[], map[])
      modifies this`bufs, this`tabs, this`groups, this`home, this`toWrite
      ensures ok <==> |orig| == 0 || (offset >= 10 && forall j :: 0 <= j < |orig| ==> |orig[j]| > 0)
      ensures Valid() && (ok ==> |home| == |orig|)
      ensures (forall k :: k in groups <==> k in toWrite) && Increasing(toWrite)
      ensures ok ==> UdpInOrder(orig, home) && WrittenAsRun(State(old(bufs), old(tabs)), toWrite, offset, canUdp)
    {
      hide Core, Increasing, Absorbed, Step, Ordered, WrittenUpTo;
      IncreasingNothing();
      CoreBufs(orig, bufs, tabs, groups, home);
      OrderedInitially(orig, canUdp);
      ghost var s := State(bufs, tabs);
      WrittenNothing(s, offset, canUdp);
      var n := 0;
      while n < |bufs|
        invariant n <= |bufs| == |orig| && Valid() && |home| == n
        invariant (forall k :: k in groups <==> k in toWrite) && Increasing(toWrite)
        invariant WrittenUpTo(s, toWrite, n, offset, canUdp)
        invariant n > 0 ==> offset >= 10
        invariant forall j :: 0 <= j < n ==> |orig[j]| > 0
        invariant |s.bufs| == |orig| && State(bufs, tabs) == Run(s, n, offset, canUdp)
        invariant Ordered(orig, tabs.Get(false), home, canUdp)
      {
        CoreBufs(orig, bufs, tabs, groups, home);
        if offset < 10 || |bufs[n].pkt| == 0 {
          return false;
        }
        WrittenNext(s, toWrite, n, offset, canUdp);
        RunNext(s, n, offset, canUdp);
        ghost var before, homeBefore := State(bufs, tabs), home;
        HandlePacket(host, n, offset, canUdp);
        OrderedStep(orig, before, homeBefore, offset, canUdp);
        n := n + 1;
      }
      OrderedIs(orig, tabs.Get(false), home, canUdp);
      WrittenAll(s, toWrite, offset, canUdp);
      return true;
    }

    /**
     handleGRO. On success every packet of the batch is in exactly one written buffer; a buffer that absorbed nothing
     is its own packet, and any other splits back into exactly the packets it absorbed. Packets are absorbed whenever
     the step function says so, and UDP flows stay in order. The table's item pool holds one flow per packet of a
     batch of the largest size.
     */
    method HandleGro(host: Host, offset: nat, canUdp: bool) returns (ok: bool)
      requires toWrite == [] && tabs == Tables(map[], map[]) && |bufs| <= IDEAL_BATCH_SIZE
      requires forall j :: 0 <= j < |bufs| ==> |bufs[j].pkt| <= bufs[j].room <= 0xffff
      modifies this
      ensures orig == Packets(old(bufs))
      ensures ok <==> |orig| == 0 || (offset >= 10 && forall j :: 0 <= j < |orig| ==> |orig[j]| > 0)
      ensures ok ==> |bufs| == |orig| == |home| && Partition(groups, home)
      ensures ok ==> (forall k :: k in groups <==> k in toWrite) && Increasing(toWrite)
      ensures ok ==> forall k :: k in groups ==> k < |bufs| && Delivered(orig, bufs[k], groups[k], k)
      ensures ok ==> UdpInOrder(orig, home)
      ensures ok ==> WrittenAsRun(State(old(bufs), Tables(map[], map[])), toWrite, offset, canUdp)
    {
      hide Core, Delivered, Partition, InOrder, Increasing, UdpInOrder, WrittenAsRun;
      orig := Packets(bufs);
      groups, home := map[], [];
      CoreInitially(orig, bufs);
      ok := Walk(host, offset, canUdp);
      if !ok {
        return;
      }
      ghost var bufs0 := bufs;
      CoreBufs(orig, bufs, tabs, groups, home);
      CoreReady(orig, bufs, tabs, groups, home, true);
      bufs := ApplyAccounting(host, bufs, tabs.Get(true), true);
      ghost var bufs1 := bufs;
      SecondReady(orig, bufs0, bufs1, tabs, groups, home);
      bufs := ApplyAccounting(host, bufs, tabs.Get(false), false);
      forall k | k in groups
        ensures k < |bufs| && Delivered(orig, bufs[k], groups[k], k)
      {
        PassesDeliver(orig, bufs0, bufs1, bufs, tabs, groups, home, k);
      }
      CoreFinally(orig, bufs0, tabs, groups, home);
    }
  }

  /** The outcome of an evaluation that returned r: a packet that nothing was done with is still to be passed on. */
  ghost function Ended(s: State, n: nat, r: GroResult, home: seq<nat>): Stepped
    requires n < |s.bufs| && (r.Noop? || n < |home|)
  {
    if r.Noop? then Passed(s, n) else Stepped(s, r, home[n])
  }

  const IDEAL_BATCH_SIZE := 128

  /** Exactly the packets that are not absorbed are written. */
  ghost predicate WrittenAsRun(s: State, toWrite: seq<nat>, offset: nat, canUdp: bool) {
    forall j :: 0 <= j < |s.bufs| ==> (j in toWrite <==> !Absorbed(s, j, offset, canUdp))
  }

  ghost predicate WrittenUpTo(s: State, toWrite: seq<nat>, n: nat, offset: nat, canUdp: bool)
    requires n <= |s.bufs|
  {
    && (forall k :: k in toWrite ==> k < n)
    && forall j :: 0 <= j < n ==> (j in toWrite <==> !Absorbed(s, j, offset, canUdp))
  }

  lemma WrittenNothing(s: State, offset: nat, canUdp: bool)
    ensures WrittenUpTo(s, [], 0, offset, canUdp)
  {
  }

  lemma WrittenAll(s: State, toWrite: seq<nat>, offset: nat, canUdp: bool)
    requires WrittenUpTo(s, toWrite, |s.bufs|, offset, canUdp)
    ensures WrittenAsRun(s, toWrite, offset, canUdp)
  {
    hide Absorbed;
  }

  lemma WrittenNext(s: State, toWrite: seq<nat>, n: nat, offset: nat, canUdp: bool)
    requires n < |s.bufs| && WrittenUpTo(s, toWrite, n, offset, canUdp) && Increasing(toWrite)
    ensures Absorbed(s, n, offset, canUdp) ==> WrittenUpTo(s, toWrite, n + 1, offset, canUdp)
    ensures !Absorbed(s, n, offset, canUdp) ==>
      Increasing(toWrite + [n]) && WrittenUpTo(s, toWrite + [n], n + 1, offset, canUdp)
  {
    hide Absorbed;
    IncreasingSnoc(toWrite, n);
  }

  lemma RunNext(s: State, n: nat, offset: nat, canUdp: bool)
    requires n < |s.bufs|
    ensures Run(s, n + 1, offset, canUdp) == Step(Run(s, n, offset, canUdp), n, offset, canUdp).state
    ensures Absorbed(s, n, offset, canUdp) <==> Step(Run(s, n, offset, canUdp), n, offset, canUdp).result.Coalesced?
  {
    hide Step;
  }

  lemma TriedRun(s: State, n: nat, m: Meta, p: nat, offset: nat)
    requires n < |s.bufs| && m.hdrLen <= |s.bufs[n].pkt|
    requires HasItem(s, m.key, p, true) && Comparable(s.bufs, n, m, s.tabs.Get(true)[m.key][p], true)
    ensures var item, next := s.tabs.Get(true)[m.key][p], Tried(s, n, m, p, offset, true);
      match Outcome(s.bufs, n, m, item, offset, true)
      case Merged => TcpRun(s, n, m, p + 1, offset) == Stepped(next, Coalesced, item.bufsIndex)
      case PktInvalid => next == s && TcpRun(s, n, m, p + 1, offset) == Stepped(s, Noop, n)
      case _ =>
        && next.bufs == s.bufs && m.key in next.tabs.Get(true) && p <= |next.tabs.Get(true)[m.key]|
        && TcpRun(s, n, m, p + 1, offset) == TcpRun(next, n, m, p, offset)
  {
    hide Comparable, Outcome, MergedBufs, MergedItem;
  }

  lemma OrderedInitially(orig: seq<seq<byte>>, canUdp: bool)
    ensures Ordered(orig, map[], [], canUdp)
  {
  }

  lemma OrderedIs(orig: seq<seq<byte>>, table: Table, home: seq<nat>, canUdp: bool)
    requires Ordered(orig, table, home, canUdp)
    ensures UdpInOrder(orig, home)
  {
    hide UdpInOrder, Housed, SlotsOk;
  }

  ghost function Packets(bufs: seq<Buf>): (ps: seq<seq<byte>>)
    ensures |ps| == |bufs| && forall j :: 0 <= j < |bufs| ==> ps[j] == bufs[j].pkt
  {
    seq(|bufs|, j requires 0 <= j < |bufs| => bufs[j].pkt)
  }

  lemma IncreasingNothing()
    ensures Increasing([])
  {
  }

  lemma IncreasingSnoc(g: seq<nat>, n: nat)
    requires Increasing(g) && forall k :: k in g ==> k < n
    ensures Increasing(g + [n])
  {
    assert forall x :: 0 <= x < |g| ==> g[x] in g;
  }

  lemma CoreInitially(orig: seq<seq<byte>>, bufs: seq<Buf>)
    requires |orig| == |bufs| && forall j :: 0 <= j < |bufs| ==> orig[j] == bufs[j].pkt
    requires forall j :: 0 <= j < |bufs| ==> |bufs[j].pkt| <= bufs[j].room <= 0xffff
    ensures Core(orig, bufs, Tables(map[], map[]), map[], [])
  {
  }

  lemma CoreFinally(orig: seq<seq<byte>>, bufs: seq<Buf>, tabs: Tables, groups: Groups, home: seq<nat>)
    requires Core(orig, bufs, tabs, groups, home)
    ensures Partition(groups, home)
    ensures forall key :: key in tabs.Get(false) ==> InOrder(groups, tabs.Get(false)[key])
  {
    hide TableOk, Partition, SingleOk, Tracked, InOrder, BufsOk;
  }

  /** Nothing in the invariant speaks of the virtio header slots. */
  lemma HeaderSlotFree(orig: seq<seq<byte>>, bufs: seq<Buf>, tabs: Tables, groups: Groups, home: seq<nat>, n: nat)
    requires Core(orig, bufs, tabs, groups, home) && n < |bufs|
    ensures Core(orig, bufs[n := bufs[n].(vnet := ZERO_HDR)], tabs, groups, home)
  {
    hide FlowOk, Partition, Tracked, InOrder, Holds;
    var bufs' := bufs[n := bufs[n].(vnet := ZERO_HDR)];
    forall tcp: bool
      ensures TableOk(orig, bufs', groups, tabs.Get(tcp), tcp)
    {
      TableKept(orig, bufs, bufs', groups, groups, tabs.Get(tcp), tcp);
    }
    forall k | k in groups
      ensures SingleOk(orig, bufs', groups[k], k)
    {
      assert SingleOk(orig, bufs, groups[k], k);
    }
  }

  lemma UdpMayMerge(target: Buf, pkt: seq<byte>, m: Meta, item: Item, item': Item)
    requires m.hdrLen == item.hdrLen < |pkt| && m.iphLen == item.iphLen && item.iphLen + 8 <= item.hdrLen
    requires item.gsoSize > 0 && item.hdrLen <= |target.pkt|
    requires !UdpCanCoalesce(pkt, m, item, target.pkt).Unavailable?
    requires ChecksPassed(target.pkt, pkt, item, false)
    requires |target.pkt| + |pkt| - item.hdrLen <= target.room
    requires item' == item.(numMerged := item.numMerged + 1)
    ensures MayAppend(target, pkt, m, item, false, target.pkt, item')
  {
    hide ChecksPassed, WholeSegments, ItemLen, IpHeadersCanCoalesce;
  }

  lemma CoreBufs(orig: seq<seq<byte>>, bufs: seq<Buf>, tabs: Tables, groups: Groups, home: seq<nat>)
    requires Core(orig, bufs, tabs, groups, home)
    ensures |bufs| == |orig| && |home| <= |bufs|
    ensures forall j :: 0 <= j < |bufs| ==> |bufs[j].pkt| <= bufs[j].room <= 0xffff
    ensures forall j :: |home| <= j < |bufs| ==> bufs[j].pkt == orig[j]
  {
    hide TableOk, Partition, SingleOk, Tracked, InOrder;
  }

  lemma NotInTable(orig: seq<seq<byte>>, bufs: seq<Buf>, tabs: Tables, groups: Groups, home: seq<nat>, tcp: bool,
                   k: nat)
    requires Core(orig, bufs, tabs, groups, home) && k !in groups
    ensures !InTable(tabs.Get(tcp), k)
  {
    hide ItemOk, Partition, SingleOk, Tracked, BufsOk;
    var table: Table := tabs.Get(tcp);
    forall key, p | key in table && 0 <= p < |table[key]|
      ensures table[key][p].bufsIndex != k
    {
      assert FlowOk(orig, bufs, groups, table[key], key, tcp);
      BufferOfItem(orig, bufs, groups, table[key][p], key, tcp);
    }
  }

  lemma CoreNewest(orig: seq<seq<byte>>, bufs: seq<Buf>, tabs: Tables, groups: Groups, home: seq<nat>)
    requires Core(orig, bufs, tabs, groups, home)
    ensures Newest(groups[|home| := [|home|]], |home|)
  {
    assert Partition(groups, home);
    hide Core;
    var n, groups' := |home|, groups[|home| := [|home|]];
    forall j | j in groups' && j != n
      ensures AllBefore(groups'[j], groups'[n])
    {
      assert GroupOk(groups[j], home, j);
    }
  }

  lemma InsertStep(orig: seq<seq<byte>>, bufs: seq<Buf>, tabs: Tables, groups: Groups, home: seq<nat>, tcp: bool,
                   m: Meta, n: nat, known: bool)
    requires n < |bufs| && m.hdrLen <= |bufs[n].pkt|
    requires Parsed(orig, n, m, tcp)
    requires Core(orig, bufs, tabs, groups, home) && n == |home|
    ensures n !in groups
    ensures Core(orig, bufs,
                 tabs.Set(tcp,
                   tabs.Get(tcp)[m.key := FlowItems(tabs.Get(tcp), m.key) + [NewItem(m, n, bufs[n].pkt, known)]]),
                 groups[n := [n]], home + [n])
  {
    hide Core, Parsed, Holds, InTable;
    CoreBufs(orig, bufs, tabs, groups, home);
    NewGroupKeepsCore(orig, bufs, tabs, groups, home);
    NotInTable(orig, bufs, tabs, groups, home, tcp, n);
    NewItemHolds(orig, n, m, known, tcp);
    CoreNewest(orig, bufs, tabs, groups, home);
    InsertKeepsCore(orig, bufs, tabs, groups[n := [n]], home + [n], tcp, NewItem(m, n, bufs[n].pkt, known));
  }

  /** A positive answer of tcpPacketsCanCoalesce followed by a successful coalesce keeps the invariant. */
  lemma TcpMergeStep(orig: seq<seq<byte>>, bufs: seq<Buf>, bufs': seq<Buf>, tabs: Tables, groups: Groups,
                     home: seq<nat>, m: Meta, p: nat, n: nat, item: Item, mode: CanCoalesce, item': Item)
    requires n < |bufs| && item.bufsIndex < |bufs|
    requires m.iphLen == item.iphLen && m.iphLen + 20 <= m.hdrLen < |bufs[n].pkt| && item.gsoSize > 0
    requires item.iphLen + 20 <= item.hdrLen <= |bufs[n].pkt| && item.hdrLen <= |bufs[item.bufsIndex].pkt|
    requires mode == TcpCanCoalesce(bufs[n].pkt, m, item, bufs[item.bufsIndex].pkt) && !mode.Unavailable?
    requires TcpCoalesced(bufs, bufs', mode, n, m, item, item')
    requires Facing(orig, bufs, tabs, groups, home, true, m, p)
    requires n == |home| && tabs.Get(true)[m.key][p] == item
    ensures item.bufsIndex in groups
    ensures var k := item.bufsIndex;
      Core(orig, bufs', Updated(tabs, true, m.key, p, item'),
           groups[k := if mode.Append? then groups[k] + [n] else [n] + groups[k]], home + [k])
  {
    hide Core, Parsed, TcpCanCoalesce, Bumped, ChecksPassed, MayAppend, MayPrepend, Head, ItemOk, Below, Facing;
    FacingItem(orig, bufs, tabs, groups, home, true, m, p);
    var k := item.bufsIndex;
    TcpMayMerge(bufs[k], bufs[n], m, item, mode, item');
    if mode.Append? {
      AppendStep(orig, bufs, tabs, groups, home, true, m, p, n, item, Head(bufs[k].pkt, item, m.psh), item');
    } else {
      PrependStep(orig, bufs, tabs, groups, home, m, p, n, item, item');
    }
  }

  lemma NoPshPrepend(pkt: seq<byte>, m: Meta, item: Item, target: seq<byte>)
    requires m.iphLen == item.iphLen && m.iphLen + 20 <= m.hdrLen < |pkt|
    requires item.gsoSize > 0 && item.iphLen + 20 <= item.hdrLen <= |target|
    ensures TcpCanCoalesce(pkt, m, item, target).Prepend? ==> !m.psh
  {
    hide WholeSegments, ItemLen, IpHeadersCanCoalesce;
  }

  lemma AvailableSameHeaders(pkt: seq<byte>, m: Meta, item: Item, target: seq<byte>)
    requires m.iphLen == item.iphLen && m.iphLen + 20 <= m.hdrLen < |pkt|
    requires item.gsoSize > 0 && item.iphLen + 20 <= item.hdrLen <= |target|
    ensures !TcpCanCoalesce(pkt, m, item, target).Unavailable? ==> m.hdrLen == item.hdrLen
  {
    hide WholeSegments, ItemLen, IpHeadersCanCoalesce;
  }

  lemma TcpMayMerge(target: Buf, mine: Buf, m: Meta, item: Item, mode: CanCoalesce, item': Item)
    requires m.iphLen == item.iphLen && m.iphLen + 20 <= m.hdrLen < |mine.pkt|
    requires item.gsoSize > 0 && item.iphLen + 20 <= item.hdrLen <= |target.pkt|
    requires mode == TcpCanCoalesce(mine.pkt, m, item, target.pkt) && !mode.Unavailable?
    requires item.hdrLen <= |mine.pkt| && ChecksPassed(target.pkt, mine.pkt, item, true)
    requires |target.pkt| + |mine.pkt| - item.hdrLen <= if mode.Prepend? then mine.room else target.room
    requires item' == (if mode.Prepend? then Bumped(item, |mine.pkt| - item.hdrLen).(sentSeq := m.seqNum)
                       else Bumped(item, |mine.pkt| - item.hdrLen).(pshSet := item.pshSet || m.psh))
    ensures mode.Append? ==> MayAppend(target, mine.pkt, m, item, true, Head(target.pkt, item, m.psh), item')
    ensures mode.Prepend? ==> MayPrepend(target.pkt, mine, m, item, item')
  {
    hide ChecksPassed, WholeSegments, ItemLen, IpHeadersCanCoalesce;
  }
}

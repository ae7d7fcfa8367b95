/** A batch in which receive offload loses a PSH flag: the packet that carries it arrives before its predecessor. */
module GroPush {
  import opened Bytes
  import opened Options
  import opened Checksum
  import opened Gso
  import opened GroPackets
  import opened GroGroups
  import opened GroState
  import opened GroDelivery
  import opened GroSteps
  import opened GroBatch

  /** An IPv4 TCP packet with one payload byte. */
  function Packet(seqNum: byte, flags: byte, csum: u16): (r: seq<byte>)
    ensures |r| == 41
  {
    [0x45, 0, 0, 41, 0, 0, 0, 0, 64, 6] + Zeroes(10) +
    [0, 0, 0, 0, 0, 0, 0, seqNum, 0, 0, 0, 0, 0x50, flags, 0, 0, csum / 256, csum % 256, 0, 0, 0]
  }

  function Zeroes(n: nat): (r: seq<byte>)
    ensures |r| == n && forall k :: 0 <= k < n ==> r[k] == 0
  {
    if n == 0 then [] else Zeroes(n - 1) + [0]
  }

  /** The second packet of the stream, with PSH. */
  function Later(): seq<byte> { Packet(1, 0x18, 0xafcb) }

  /** The first packet of the stream. */
  function Earlier(): seq<byte> { Packet(0, 0x10, 0xafd4) }

  lemma PacketBytes(seqNum: byte, flags: byte, csum: u16)
    ensures var b := Packet(seqNum, flags, csum);
      && b[0] == 0x45 && Get16(b, 2) == 41 && b[6] == 0 && b[7] == 0 && b[1] == 0 && b[8] == 64 && b[9] == 6
      && b[12..16] == Zeroes(4) && b[16..20] == Zeroes(4) && Get16(b, 20) == 0 && Get16(b, 22) == 0
      && Get32(b, 24) == seqNum && Get32(b, 28) == 0 && b[32] == 0x50 && b[33] == flags && |b[40..]| == 1
      && b[20..] == [0, 0, 0, 0, 0, 0, 0, seqNum, 0, 0, 0, 0, 0x50, flags, 0, 0, csum / 256, csum % 256, 0, 0, 0]
  {
    hide Zeroes;
    var b := Packet(seqNum, flags, csum);
    assert b[12..16] == Zeroes(4) && b[16..20] == Zeroes(4);
  }

  lemma NextWord(t: seq<byte>, i: nat)
    requires i + 2 <= |t|
    ensures WordSum(t[i..]) == t[i] as int * 256 + t[i + 1] as int + WordSum(t[i + 2..])
  {
    assert t[i..][2..] == t[i + 2..];
  }

  lemma TransportTotal(seqNum: byte, flags: byte, csum: u16)
    ensures WordSum(Packet(seqNum, flags, csum)[20..]) == seqNum as int + 0x5000 + flags as int + csum
  {
    PacketBytes(seqNum, flags, csum);
    hide WordSum, Packet, Zeroes;
    var t := Packet(seqNum, flags, csum)[20..];
    NextWord(t, 0);
    NextWord(t, 2);
    NextWord(t, 4);
    NextWord(t, 6);
    NextWord(t, 8);
    NextWord(t, 10);
    NextWord(t, 12);
    NextWord(t, 14);
    NextWord(t, 16);
    NextWord(t, 18);
    assert t[0..] == t && t[20..] == [0];
    OneByte();
  }

  lemma OneByte()
    ensures WordSum([0]) == 0 && WordSum(Zeroes(4)) == 0
  {
    var z := Zeroes(4);
    assert z == z[0..];
    NextWord(z, 0);
    NextWord(z, 2);
  }

  lemma ChecksumsAdd(seqNum: byte, flags: byte, csum: u16)
    requires seqNum as int + flags as int + csum == 0xafe4
    ensures Verified(Packet(seqNum, flags, csum), Alone(seqNum, flags), true)
  {
    TransportTotal(seqNum, flags, csum);
    PacketBytes(seqNum, flags, csum);
    OneByte();
    hide WordSum, Packet, Zeroes;
  }

  function Key(): FlowKey { FlowKey(Zeroes(4), Zeroes(4), 0, 0, 0, false) }

  function MetaOf(seqNum: byte, flags: byte): Meta { Meta(Key(), 20, 40, seqNum as int, flags == 0x18) }

  /** The item of a packet at the head of the batch. */
  function Alone(seqNum: byte, flags: byte): Item {
    Item(Key(), seqNum as int, 0, 0, 1, 20, 40, flags == 0x18, false)
  }

  lemma Parses(seqNum: byte, flags: byte, csum: u16, canUdp: bool)
    requires flags in {0x10, 0x18}
    ensures CandidateOf(Packet(seqNum, flags, csum), canUdp) == Tcp4
    ensures ParseTcp(Packet(seqNum, flags, csum), false) == Some(MetaOf(seqNum, flags))
  {
    PacketBytes(seqNum, flags, csum);
    hide Packet, Zeroes;
  }

  function Arrival(room: nat): State {
    State([Buf(ZERO_HDR, Later(), room), Buf(ZERO_HDR, Earlier(), room)], Tables(map[], map[]))
  }

  function Table1(): Tables { Tables(map[Key() := [Alone(1, 0x18)]], map[]) }

  /** The first of the two is inserted into the table. */
  lemma FirstIsInserted(room: nat, offset: nat, canUdp: bool)
    ensures Run(Arrival(room), 1, offset, canUdp) == Arrival(room).(tabs := Table1())
  {
    hide Packet, Zeroes, ParseTcp, TcpRun;
    Parses(1, 0x18, 0xafcb, canUdp);
    var s, m := Arrival(room), MetaOf(1, 0x18);
    EmptyRun(s, 0, m, offset);
    assert NewItem(m, 0, Later(), false) == Alone(1, 0x18);
    assert FlowItems(s.tabs.Get(true), m.key) + [Alone(1, 0x18)] == [Alone(1, 0x18)];
    assert s.tabs.Get(true)[m.key := [Alone(1, 0x18)]] == map[Key() := [Alone(1, 0x18)]];
    assert Inserted(s, 0, m, false, true) == s.(tabs := Table1());
    assert Step(s, 0, offset, canUdp).state == s.(tabs := Table1()) by { hide Inserted, Table1; }
    hide Step, Arrival, Table1;
    assert Run(s, 0, offset, canUdp) == s;
  }

  lemma EmptyRun(s: State, n: nat, m: Meta, offset: nat)
    requires n < |s.bufs| && m.hdrLen <= |s.bufs[n].pkt|
    ensures TcpRun(s, n, m, 0, offset) == Stepped(Inserted(s, n, m, false, true), TableInsert, n)
  {
  }

  /** The second goes in front of it. */
  lemma SecondIsPrepended(room: nat, offset: nat, canUdp: bool)
    requires room >= offset + 42
    ensures Absorbed(Arrival(room), 1, offset, canUdp)
  {
    hide Packet, Zeroes, ParseTcp, Step, Run, Comparable, Outcome, TcpRun;
    FirstIsInserted(room, offset, canUdp);
    Parses(0, 0x10, 0xafd4, canUdp);
    var s, m := Arrival(room).(tabs := Table1()), MetaOf(0, 0x10);
    Compared(s.bufs);
    Merges(s.bufs, room, offset);
    OneItem(s, 1, m, offset);
    StepOfTcp(s, 1, m, offset, canUdp);
  }

  lemma Compared(bufs: seq<Buf>)
    requires |bufs| == 2 && bufs[0].pkt == Later() && bufs[1].pkt == Earlier()
    ensures Comparable(bufs, 1, MetaOf(0, 0x10), Alone(1, 0x18), true)
  {
    hide Packet, Zeroes;
  }

  lemma Merges(bufs: seq<Buf>, room: nat, offset: nat)
    requires |bufs| == 2 && bufs[0].pkt == Later() && bufs[1].pkt == Earlier() && bufs[1].room == room >= offset + 42
    requires Comparable(bufs, 1, MetaOf(0, 0x10), Alone(1, 0x18), true)
    ensures Outcome(bufs, 1, MetaOf(0, 0x10), Alone(1, 0x18), offset, true).Merged?
  {
    hide Packet, Zeroes, ChecksumValid, TcpCanCoalesce, Comparable;
    ChecksumsAdd(1, 0x18, 0xafcb);
    ChecksumsAdd(0, 0x10, 0xafd4);
    Continues();
  }

  lemma Continues()
    ensures TcpCanCoalesce(Earlier(), MetaOf(0, 0x10), Alone(1, 0x18), Later()) == Prepend
  {
    hide Packet, Zeroes, Get16, Get32, WholeSegments;
    PacketBytes(1, 0x18, 0xafcb);
    PacketBytes(0, 0x10, 0xafd4);
    assert Earlier()[40..40] == Later()[40..40] == [];
  }

  lemma OneItem(s: State, n: nat, m: Meta, offset: nat)
    requires n < |s.bufs| && m.hdrLen <= |s.bufs[n].pkt|
    requires m.key in s.tabs.Get(true) && |s.tabs.Get(true)[m.key]| == 1
    requires Comparable(s.bufs, n, m, s.tabs.Get(true)[m.key][0], true)
    requires Outcome(s.bufs, n, m, s.tabs.Get(true)[m.key][0], offset, true).Merged?
    ensures TcpRun(s, n, m, 1, offset).result == Coalesced
  {
    hide Comparable, Outcome, MergedBufs, MergedItem;
  }

  lemma StepOfTcp(s: State, n: nat, m: Meta, offset: nat, canUdp: bool)
    requires n < |s.bufs| && CandidateOf(s.bufs[n].pkt, canUdp) == Tcp4 && ParseTcp(s.bufs[n].pkt, false) == Some(m)
    requires TcpRun(s, n, m, |FlowItems(s.tabs.Get(true), m.key)|, offset).result == Coalesced
    ensures Step(s, n, offset, canUdp).result == Coalesced
  {
    hide TcpRun, ParseTcp;
  }

  /** Two packets in one buffer, of which the second follows the first in the stream. */
  lemma GroupIsSwapped(groups: Groups, home: seq<nat>, toWrite: seq<nat>)
    requires Partition(groups, home) && |home| == 2 && (forall k :: k in groups <==> k in toWrite)
    requires 1 !in toWrite
    ensures 0 in groups && (groups[0] == [1, 0] || groups[0] == [0, 1])
  {
    assert home[0] in groups && home[1] in groups;
    assert GroupOk(groups[home[0]], home, home[0]) && GroupOk(groups[home[1]], home, home[1]);
    assert home[0] == 0 && home[1] == 0;
    var g := groups[0];
    TwoBelow(g);
    assert 0 in g && 1 in g;
  }

  lemma TwoBelow(g: seq<nat>)
    requires forall p :: 0 <= p < |g| ==> g[p] < 2
    requires forall p, q :: 0 <= p < q < |g| ==> g[p] != g[q]
    ensures |g| <= 2
  {
    if |g| > 2 {
      Repeats(g);
    }
  }

  lemma Repeats(g: seq<nat>)
    requires |g| > 2 && forall p :: 0 <= p < |g| ==> g[p] < 2
    ensures exists p, q :: 0 <= p < q < |g| && g[p] == g[q]
  {
    if g[0] != g[1] && g[0] != g[2] {
      assert g[1] == g[2];
    }
  }

  lemma OnlyFirst(toWrite: seq<nat>)
    requires Increasing(toWrite) && 0 in toWrite && forall k :: k in toWrite ==> k == 0
    ensures toWrite == [0]
  {
    assert forall p :: 0 <= p < |toWrite| ==> toWrite[p] in toWrite;
    if |toWrite| > 1 {
      NotAllZero(toWrite);
    }
  }

  lemma NotAllZero(s: seq<nat>)
    requires |s| > 1 && Increasing(s)
    ensures exists k :: k in s && k != 0
  {
    assert s[1] in s && s[0] < s[1];
  }

  /** The sequence numbers rule out the order of arrival. */
  lemma InStreamOrder(pkt: seq<byte>, hdr: VirtioNetHdr, isV6: bool, g: seq<nat>)
    requires Resplits([Later(), Earlier()], pkt, hdr, isV6, g) && Announced([Later(), Earlier()], hdr, isV6, g)
    requires g == [1, 0] || g == [0, 1]
    ensures !isV6 && IsTcp(hdr) && hdr.csumStart == 20 && hdr.hdrLen <= 41 && g == [1, 0]
  {
    hide Packet, Segment, Cleared, SegmentPayload, ChecksumValid, SameHeaders, Get32, Get16, HasPsh, FlagsRestored;
    PacketBytes(1, 0x18, 0xafcb);
    PacketBytes(0, 0x10, 0xafd4);
    assert Restores([Later(), Earlier()], pkt, hdr, isV6, g[0], 0);
    assert Restores([Later(), Earlier()], pkt, hdr, isV6, g[1], 1);
    SegmentFields(pkt, hdr, isV6, 0);
    SegmentFields(pkt, hdr, isV6, 1);
  }

  /** The PSH of the later packet is gone from the last segment. */
  ghost predicate PushLost(buf: Buf) {
    && SplitReady(buf.pkt, buf.vnet, false) && IsTcp(buf.vnet) && SegmentStart(buf.vnet, 1) <= |buf.pkt|
    && buf.vnet.hdrLen <= 41 && buf.vnet.csumStart == 20
    && var s := Segment(Cleared(buf.pkt, buf.vnet, false), buf.vnet, false, 1);
      && s[buf.vnet.hdrLen..] == Later()[buf.vnet.hdrLen..]
      && Get32(s, 24) == Get32(Later(), 24)
      && s[33] != 0x18 && Later()[33] == 0x18
  }

  lemma DeliveredLoses(buf: Buf, g: seq<nat>)
    requires Delivered([Later(), Earlier()], buf, g, 0) && (g == [1, 0] || g == [0, 1])
    ensures PushLost(buf)
  {
    hide Packet, Segment, Cleared, SegmentPayload, ChecksumValid, SameHeaders, Get32, Get16, Resplits, Announced;
    var orig, isV6 := [Later(), Earlier()], buf.pkt[0] / 16 == 6;
    InStreamOrder(buf.pkt, buf.vnet, isV6, g);
    PacketBytes(1, 0x18, 0xafcb);
    LastFlags(orig, buf.pkt, buf.vnet, isV6, g);
  }

  lemma LastFlags(orig: seq<seq<byte>>, pkt: seq<byte>, hdr: VirtioNetHdr, isV6: bool, g: seq<nat>)
    requires Resplits(orig, pkt, hdr, isV6, g) && IsTcp(hdr) && |g| == 2 && g[0] > g[1]
    ensures SplitReady(pkt, hdr, isV6) && Restores(orig, pkt, hdr, isV6, g[1], 1)
    ensures HasPsh(orig[g[1]], hdr.csumStart) ==> !FlagsRestored(orig, pkt, hdr, isV6, g[1], 1)
  {
    hide Restores, FlagsRestored, HasPsh, SplitReady;
    assert Restores(orig, pkt, hdr, isV6, g[1], 1);
  }

  /** handleGRO on the two packets: one buffer is written, and its last segment has lost the PSH of its packet. */
  method PushIsLost(batch: Batch, host: Host, offset: nat, canUdp: bool, room: nat)
    requires batch.bufs == Arrival(room).bufs && batch.toWrite == [] && batch.tabs == Tables(map[], map[])
    requires 10 <= offset && offset + 42 <= room <= 0xffff
    modifies batch
    ensures |batch.bufs| == 2 && batch.toWrite == [0] && PushLost(batch.bufs[0])
  {
    hide Packet, Delivered, Partition, Increasing, UdpInOrder, Absorbed, PushLost;
    SecondIsPrepended(room, offset, canUdp);
    var ok := batch.HandleGro(host, offset, canUdp);
    assert batch.orig == [Later(), Earlier()];
    assert State(Arrival(room).bufs, Tables(map[], map[])) == Arrival(room);
    assert 1 !in batch.toWrite;
    GroupIsSwapped(batch.groups, batch.home, batch.toWrite);
    OnlyFirst(batch.toWrite);
    DeliveredLoses(batch.bufs[0], batch.groups[0]);
  }
}

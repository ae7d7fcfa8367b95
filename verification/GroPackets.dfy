/** Per-packet decisions of receive offload: candidacy, parsing and mergeability (tun/offload_linux.go). */
module GroPackets {
  import opened Bytes
  import opened Options
  import opened Gso

  datatype Candidate = NotCandidate | Tcp4 | Tcp6 | Udp4 | Udp6

  /** packetIsGROCandidate. */
  function CandidateOf(b: seq<byte>, canUdp: bool): (r: Candidate)
    ensures r.Tcp4? ==> Parsable(b, false, true)
    ensures r.Tcp6? ==> Parsable(b, true, true)
    ensures r.Udp4? ==> Parsable(b, false, false)
    ensures r.Udp6? ==> Parsable(b, true, false)
  {
    if |b| < 28 then NotCandidate
    else if b[0] / 16 == 4 then
      if b[0] % 16 != 5 then NotCandidate
      else if b[9] == IPPROTO_TCP && |b| >= 40 then Tcp4
      else if b[9] == IPPROTO_UDP && canUdp then Udp4
      else NotCandidate
    else if b[0] / 16 == 6 then
      if b[6] == IPPROTO_TCP && |b| >= 60 then Tcp6
      else if b[6] == IPPROTO_UDP && |b| >= 48 && canUdp then Udp6
      else NotCandidate
    else NotCandidate
  }

  /** The protocol field, at the offset its IP version puts it. */
  predicate IsTcpPacket(b: seq<byte>)
    requires |b| >= 28
  {
    b[if b[0] / 16 == 4 then 9 else 6] == IPPROTO_TCP
  }

  datatype FlowKey = FlowKey(src: seq<byte>, dst: seq<byte>, srcPort: u16, dstPort: u16, rxAck: u32, isV6: bool)

  /** What one evaluation extracts from a packet. */
  datatype Meta = Meta(key: FlowKey, iphLen: nat, hdrLen: nat, seqNum: u32, psh: bool)

  /** A candidate of that version and protocol: large enough for the headers the parsers read. */
  predicate Parsable(pkt: seq<byte>, isV6: bool, tcp: bool) {
    && (if isV6 then |pkt| >= (if tcp then 60 else 48) && pkt[0] / 16 == 6
        else |pkt| >= (if tcp then 40 else 28) && pkt[0] == 0x45)
    && IsTcpPacket(pkt) == tcp
  }

  function IpLen(isV6: bool): nat { if isV6 then 40 else 20 }

  /** The IP-level checks shared by tcpGRO and udpGRO: size limit, length field, fragments. */
  predicate IpChecks(pkt: seq<byte>, isV6: bool)
    requires |pkt| >= 28
  {
    && |pkt| <= 0xffff
    && (if isV6 then Get16(pkt, 4) == |pkt| - 40
        else Get16(pkt, 2) == |pkt| && pkt[6] / 32 % 2 == 0 && pkt[6] % 32 == 0 && pkt[7] == 0)
  }

  function KeyOf(pkt: seq<byte>, isV6: bool, tcp: bool): FlowKey
    requires Parsable(pkt, isV6, tcp)
  {
    var at, n, h := AddrAt(isV6), AddrLen(isV6), IpLen(isV6);
    FlowKey(pkt[at..at + n], pkt[at + n..at + 2 * n], Get16(pkt, h), Get16(pkt, h + 2),
            if tcp then Get32(pkt, h + 8) else 0, isV6)
  }

  /** The part of tcpGRO before the table lookup: None is groResultNoop. */
  function ParseTcp(pkt: seq<byte>, isV6: bool): (r: Option<Meta>)
    requires Parsable(pkt, isV6, true)
    ensures r.Some? ==>
      && r.value.iphLen == IpLen(isV6)
      && r.value.iphLen + 20 <= r.value.hdrLen <= r.value.iphLen + 60
      && r.value.hdrLen < |pkt| <= 0xffff
      && r.value.key.isV6 == isV6
  {
    var h := IpLen(isV6);
    var tcpLen := pkt[h + 12] as int / 16 * 4;
    var flags := pkt[h + 13];
    if !IpChecks(pkt, isV6) || tcpLen < 20 || tcpLen > 60 || |pkt| < h + tcpLen then None
    else if flags != 0x10 && flags != 0x18 then None
    else if |pkt| == h + tcpLen then None
    else Some(Meta(KeyOf(pkt, isV6, true), h, h + tcpLen, Get32(pkt, h + 4), flags == 0x18))
  }

  /** The part of udpGRO before the table lookup. */
  function ParseUdp(pkt: seq<byte>, isV6: bool): (r: Option<Meta>)
    requires Parsable(pkt, isV6, false)
    ensures r.Some? ==>
      && r.value.iphLen == IpLen(isV6) && r.value.hdrLen == r.value.iphLen + 8
      && r.value.hdrLen < |pkt| <= 0xffff
      && r.value.key.isV6 == isV6
  {
    var h := IpLen(isV6);
    if !IpChecks(pkt, isV6) || |pkt| == h + 8 then None
    else Some(Meta(KeyOf(pkt, isV6, false), h, h + 8, 0, false))
  }

  function Parse(pkt: seq<byte>, isV6: bool, tcp: bool): (r: Option<Meta>)
    requires Parsable(pkt, isV6, tcp)
  {
    if tcp then ParseTcp(pkt, isV6) else ParseUdp(pkt, isV6)
  }

  /** tcpGROItem and udpGROItem; hdrLen is iphLen plus the transport header length. */
  datatype Item = Item(
    key: FlowKey,
    sentSeq: u32,
    bufsIndex: nat,
    numMerged: nat,
    gsoSize: nat,
    iphLen: nat,
    hdrLen: nat,
    pshSet: bool,
    cSumKnownInvalid: bool)

  /** ipHeadersCanCoalesce. */
  predicate IpHeadersCanCoalesce(a: seq<byte>, b: seq<byte>) {
    && |a| >= 9 && |b| >= 9
    && if a[0] / 16 == 6 then a[0] == b[0] && a[1] / 16 == b[1] / 16 && a[7] == b[7]
       else a[1] == b[1] && a[6] / 32 == b[6] / 32 && a[8] == b[8]
  }

  datatype CanCoalesce = Unavailable | Append | Prepend

  /** Bytes the item accounts for, in the 16-bit arithmetic of the source. */
  function ItemLen(item: Item): u16 {
    (item.gsoSize + item.numMerged * item.gsoSize) % 0x1_0000
  }

  predicate WholeSegments(target: seq<byte>, item: Item)
    requires item.gsoSize > 0 && item.hdrLen <= |target|
  {
    (|target| - item.hdrLen) % item.gsoSize == 0
  }

  /** tcpPacketsCanCoalesce. */
  function TcpCanCoalesce(pkt: seq<byte>, m: Meta, item: Item, target: seq<byte>): (r: CanCoalesce)
    requires m.iphLen == item.iphLen && m.iphLen + 20 <= m.hdrLen < |pkt|
    requires item.gsoSize > 0 && item.iphLen + 20 <= item.hdrLen <= |target|
  {
    var size := |pkt| - m.hdrLen;
    if m.hdrLen != item.hdrLen then Unavailable
    else if pkt[m.iphLen + 20..m.hdrLen] != target[m.iphLen + 20..m.hdrLen] then Unavailable
    else if !IpHeadersCanCoalesce(pkt, target) then Unavailable
    else if m.seqNum == (item.sentSeq + ItemLen(item)) % 0x1_0000_0000 then
      if item.pshSet || !WholeSegments(target, item) || size > item.gsoSize then Unavailable else Append
    else if (m.seqNum + size) % 0x1_0000_0000 == item.sentSeq then
      if m.psh || size < item.gsoSize || (size > item.gsoSize && item.numMerged > 0) then Unavailable else Prepend
    else Unavailable
  }

  /** udpPacketsCanCoalesce. */
  function UdpCanCoalesce(pkt: seq<byte>, m: Meta, item: Item, target: seq<byte>): (r: CanCoalesce)
    requires m.hdrLen == item.hdrLen < |pkt|
    requires item.gsoSize > 0 && item.hdrLen <= |target|
    ensures !r.Prepend?
  {
    if !IpHeadersCanCoalesce(pkt, target) || !WholeSegments(target, item) || |pkt| - m.hdrLen > item.gsoSize
    then Unavailable else Append
  }
}

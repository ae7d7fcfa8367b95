/** Segmentation of one offloaded super-packet (gsoSplit in tun/offload_linux.go). */
module Gso {
  import opened Bytes
  import opened Options
  import opened Checksum
  import Words

  const IPPROTO_TCP: byte := 6
  const IPPROTO_UDP: byte := 17

  datatype GsoType = GsoNone | GsoTcpV4 | GsoTcpV6 | GsoUdpL4 | GsoOther

  /** virtioNetHdr. */
  datatype VirtioNetHdr = VirtioNetHdr(
    needsCsum: bool,
    gsoType: GsoType,
    hdrLen: u16,
    gsoSize: u16,
    csumStart: u16,
    csumOffset: u16)

  predicate IsTcp(hdr: VirtioNetHdr) {
    hdr.gsoType.GsoTcpV4? || hdr.gsoType.GsoTcpV6?
  }

  function Protocol(hdr: VirtioNetHdr): byte {
    if IsTcp(hdr) then IPPROTO_TCP else IPPROTO_UDP
  }

  function AddrAt(isV6: bool): nat { if isV6 then 8 else 12 }

  function AddrLen(isV6: bool): nat { if isV6 then 16 else 4 }

  /** Where the transport checksum goes, in the 16-bit arithmetic of the source. */
  function CsumAt(hdr: VirtioNetHdr): u16 {
    (hdr.csumStart + hdr.csumOffset) % 0x1_0000
  }

  /** The shortest network header. */
  function MinIpLen(isV6: bool): nat { if isV6 then 40 else 20 }

  function MinTransportLen(hdr: VirtioNetHdr): nat { if IsTcp(hdr) then 20 else 8 }

  /** What gsoSplit needs to stay inside the packet: a whole network header, and both offsets inside. */
  predicate Splittable(input: seq<byte>, hdr: VirtioNetHdr, isV6: bool) {
    && MinIpLen(isV6) <= |input| <= 0xffff
    && hdr.csumStart + MinTransportLen(hdr) <= hdr.hdrLen <= |input|
    && CsumAt(hdr) + 2 <= |input|
  }

  /** The transport header follows a whole network header, and the checksum field lies inside it. */
  predicate SplitReady(input: seq<byte>, hdr: VirtioNetHdr, isV6: bool) {
    && |input| <= 0xffff
    && hdr.csumStart >= MinIpLen(isV6)
    && hdr.csumStart + MinTransportLen(hdr) <= hdr.hdrLen <= |input|
    && hdr.csumStart + hdr.csumOffset + 2 <= hdr.hdrLen
  }

  // ---------------------------------------------------------------------------------------------
  // The segments, as values.

  /** The packet with its checksum fields cleared. */
  function Cleared(input: seq<byte>, hdr: VirtioNetHdr, isV6: bool): (c: seq<byte>)
    requires Splittable(input, hdr, isV6)
    ensures Splittable(c, hdr, isV6) && |c| == |input|
    ensures SplitReady(input, hdr, isV6) ==> SplitReady(c, hdr, isV6) && c[hdr.hdrLen..] == input[hdr.hdrLen..]
  {
    Put16(if isV6 then input else Put16(input, 10, 0), CsumAt(hdr), 0)
  }

  /** Where the payload of segment i starts: nextSegmentDataAt after i turns. */
  function SegmentStart(hdr: VirtioNetHdr, i: nat): (at: nat)
    ensures at >= hdr.hdrLen
  {
    if i == 0 then hdr.hdrLen else SegmentStart(hdr, i - 1) + hdr.gsoSize
  }

  /** Payload bytes of segment i. */
  function SegmentPayload(input: seq<byte>, hdr: VirtioNetHdr, i: nat): (p: seq<byte>)
    requires SegmentStart(hdr, i) <= |input|
    ensures SegmentStart(hdr, i) + |p| <= |input|
  {
    var end := SegmentStart(hdr, i) + hdr.gsoSize;
    input[SegmentStart(hdr, i)..if end > |input| then |input| else end]
  }

  function PseudoOf(pkt: seq<byte>, protocol: byte, isV6: bool, len: u16): nat
    requires |pkt| >= AddrAt(isV6) + 2 * AddrLen(isV6)
  {
    var at, n := AddrAt(isV6), AddrLen(isV6);
    PseudoSum(protocol, pkt[at..at + n], pkt[at + n..at + 2 * n], len)
  }

  /** t with the complement of its checksum stored at position at. */
  function WithChecksum(t: seq<byte>, at: nat, pseudo: nat): (r: seq<byte>)
    requires at + 2 <= |t|
    ensures |r| == |t|
  {
    Put16(t, at, 0xffff - Fold(pseudo + WordSum(t)))
  }

  /** The network header of segment i. */
  function IpPart(c: seq<byte>, hdr: VirtioNetHdr, isV6: bool, i: nat, totalLen: u16): (h: seq<byte>)
    requires SplitReady(c, hdr, isV6)
    requires hdr.csumStart <= totalLen
    ensures |h| == hdr.csumStart
  {
    var h := c[..hdr.csumStart];
    if isV6 then
      Put16(h, 4, totalLen - hdr.csumStart)
    else
      var h1 := if i > 0 then Put16(h, 4, (Get16(h, 4) + i) % 0x1_0000) else h;
      WithChecksum(Put16(h1, 2, totalLen), 10, 0)
  }

  /** The flags byte without FIN (bit 0) and PSH (bit 3). */
  function ClearFinPsh(flags: byte): byte {
    flags - flags % 2 - 8 * (flags / 8 % 2)
  }

  /** Distance of segment i from the first sequence number, in the 16-bit arithmetic of the source. */
  function SeqDelta(hdr: VirtioNetHdr, i: nat): u16 {
    hdr.gsoSize * i % 0x1_0000
  }

  /** The transport header fields the split rewrites, checksum still clear. */
  function TransportFields(t: seq<byte>, hdr: VirtioNetHdr, i: nat, last: bool): (r: seq<byte>)
    requires |t| >= (if IsTcp(hdr) then 20 else 8)
    ensures |r| == |t|
  {
    if IsTcp(hdr) then
      var s := Put32(t, 4, (Get32(t, 4) + SeqDelta(hdr, i)) % 0x1_0000_0000);
      if last then s else s[13 := ClearFinPsh(s[13])]
    else
      Put16(t, 4, |t| % 0x1_0000)
  }

  /** Transport header and payload of segment i. */
  function TransportPart(c: seq<byte>, hdr: VirtioNetHdr, isV6: bool, i: nat): (r: seq<byte>)
    requires SplitReady(c, hdr, isV6)
    requires SegmentStart(hdr, i) <= |c|
    ensures |r| == hdr.hdrLen - hdr.csumStart + |SegmentPayload(c, hdr, i)|
  {
    var p := SegmentPayload(c, hdr, i);
    var t := TransportFields(c[hdr.csumStart..hdr.hdrLen] + p, hdr, i, SegmentStart(hdr, i) + |p| == |c|);
    WithChecksum(t, hdr.csumOffset, PseudoOf(c, Protocol(hdr), isV6, |t|))
  }

  function Segment(c: seq<byte>, hdr: VirtioNetHdr, isV6: bool, i: nat): (r: seq<byte>)
    requires SplitReady(c, hdr, isV6)
    requires SegmentStart(hdr, i) <= |c|
    ensures |r| == hdr.hdrLen + |SegmentPayload(c, hdr, i)|
  {
    var totalLen := hdr.hdrLen + |SegmentPayload(c, hdr, i)|;
    IpPart(c, hdr, isV6, i, totalLen) + TransportPart(c, hdr, isV6, i)
  }

  /** Number of segments for a positive segment size. */
  function SegmentCount(len: nat, hdr: VirtioNetHdr): nat
    requires hdr.gsoSize > 0 && hdr.hdrLen <= len
  {
    (len - hdr.hdrLen + hdr.gsoSize - 1) / hdr.gsoSize
  }

  // ---------------------------------------------------------------------------------------------
  // Writing into a buffer.

  /** b with src stored at position at. */
  function Paste(b: seq<byte>, at: nat, src: seq<byte>): (r: seq<byte>)
    requires at + |src| <= |b|
    ensures |r| == |b|
  {
    b[..at] + src + b[at + |src|..]
  }

  lemma PasteNext(b: seq<byte>, at: nat, x: seq<byte>, y: seq<byte>)
    requires at + |x| + |y| <= |b|
    ensures Paste(Paste(b, at, x), at + |x|, y) == Paste(b, at, x + y)
  {
  }

  lemma PastePut16(b: seq<byte>, off: nat, x: seq<byte>, at: nat, v: u16)
    requires off + |x| <= |b| && at + 2 <= |x|
    ensures Put16(Paste(b, off, x), off + at, v) == Paste(b, off, Put16(x, at, v))
  {
  }

  lemma PastePut32(b: seq<byte>, off: nat, x: seq<byte>, at: nat, v: u32)
    requires off + |x| <= |b| && at + 4 <= |x|
    ensures Put32(Paste(b, off, x), off + at, v) == Paste(b, off, Put32(x, at, v))
  {
    PastePut16(b, off, x, at, v / 0x1_0000);
    PastePut16(b, off, Put16(x, at, v / 0x1_0000), at + 2, v % 0x1_0000);
  }

  lemma PasteByte(b: seq<byte>, off: nat, x: seq<byte>, at: nat, v: byte)
    requires off + |x| <= |b| && at < |x|
    ensures Paste(b, off, x)[off + at := v] == Paste(b, off, x[at := v])
    ensures Paste(b, off, x)[off + at] == x[at]
  {
  }

  lemma PasteWindow(b: seq<byte>, off: nat, x: seq<byte>)
    requires off + |x| <= |b|
    ensures Paste(b, off, x)[off..off + |x|] == x
  {
  }

  /** copy(out[at:], src). */
  method CopyAt(out: array<byte>, at: nat, src: seq<byte>)
    requires at + |src| <= out.Length
    modifies out
    ensures out[..] == Paste(old(out[..]), at, src)
  {
    ghost var before := out[..];
    for k := 0 to |src|
      invariant forall j :: 0 <= j < out.Length ==> out[j] == if at <= j < at + k then src[j - at] else before[j]
    {
      out[at + k] := src[k];
    }
  }

  /** binary.BigEndian.PutUint16(out[at:], v). */
  method PutUint16(out: array<byte>, at: nat, v: u16)
    requires at + 2 <= out.Length
    modifies out
    ensures out[..] == Put16(old(out[..]), at, v)
  {
    out[at] := v / 256;
    out[at + 1] := v % 256;
  }

  /** binary.BigEndian.PutUint32(out[at:], v). */
  method PutUint32(out: array<byte>, at: nat, v: u32)
    requires at + 4 <= out.Length
    modifies out
    ensures out[..] == Put32(old(out[..]), at, v)
  {
    PutUint16(out, at, v / 0x1_0000);
    PutUint16(out, at + 2, v % 0x1_0000);
  }

  // ---------------------------------------------------------------------------------------------
  // gsoSplit, write by write.

  /** Bytes a buffer needs behind the offset. */
  function Room(len: nat, hdr: VirtioNetHdr): nat {
    var end := hdr.hdrLen + hdr.gsoSize;
    var n := if end > len then len else end;
    var m := if CsumAt(hdr) + 2 > n then CsumAt(hdr) + 2 else n;
    if m < 20 then 20 else m
  }

  /** Buffer b after the network header of segment i has been written at off. */
  function IpWritten(b: seq<byte>, off: nat, c: seq<byte>, hdr: VirtioNetHdr, isV6: bool, i: nat,
                     totalLen: u16): (r: seq<byte>)
    requires hdr.csumStart <= |c| && hdr.csumStart <= totalLen
    requires off + hdr.csumStart <= |b| && off + 12 <= |b|
    ensures |r| == |b|
  {
    var b1 := Paste(b, off, c[..hdr.csumStart]);
    if isV6 then
      Put16(b1, off + 4, totalLen - hdr.csumStart)
    else
      var b2 := if i > 0 then Put16(b1, off + 4, (Get16(b1, off + 4) + i) % 0x1_0000) else b1;
      var b3 := Put16(b2, off + 2, totalLen);
      Put16(b3, off + 10, 0xffff - Fold(WordSum(b3[off..off + hdr.csumStart])))
  }

  /** The fields of a transport header that the split rewrites, for a transport part of n bytes stored at at. */
  function FieldsWritten(b: seq<byte>, at: nat, hdr: VirtioNetHdr, first: u32, i: nat, last: bool,
                         n: nat): (r: seq<byte>)
    requires at + MinTransportLen(hdr) <= |b|
    ensures |r| == |b|
  {
    if IsTcp(hdr) then
      var s := Put32(b, at + 4, (first + SeqDelta(hdr, i)) % 0x1_0000_0000);
      if last then s else s[at + 13 := ClearFinPsh(s[at + 13])]
    else
      Put16(b, at + 4, n % 0x1_0000)
  }

  /** Buffer b after the transport header and payload of segment i have been written behind off. */
  function TransportWritten(b: seq<byte>, off: nat, c: seq<byte>, hdr: VirtioNetHdr, i: nat): (r: seq<byte>)
    requires SegmentStart(hdr, i) <= |c| && hdr.csumStart + MinTransportLen(hdr) <= hdr.hdrLen
    requires off + hdr.hdrLen + |SegmentPayload(c, hdr, i)| <= |b|
    ensures |r| == |b|
  {
    var p := SegmentPayload(c, hdr, i);
    var b1 := Paste(b, off + hdr.csumStart, c[hdr.csumStart..hdr.hdrLen]);
    var b2 := FieldsWritten(b1, off + hdr.csumStart, hdr, if IsTcp(hdr) then Get32(c, hdr.csumStart + 4) else 0, i,
                            SegmentStart(hdr, i) + |p| == |c|, hdr.hdrLen - hdr.csumStart + |p|);
    Paste(b2, off + hdr.hdrLen, p)
  }

  /** The checksum value for the transport part stored in b. */
  function TransportSum(b: seq<byte>, off: nat, c: seq<byte>, hdr: VirtioNetHdr, isV6: bool, totalLen: u16): u16
    requires hdr.csumStart <= totalLen && off + totalLen <= |b| && MinIpLen(isV6) <= |c|
  {
    0xffff - Fold(PseudoOf(c, Protocol(hdr), isV6, totalLen - hdr.csumStart)
                  + WordSum(b[off + hdr.csumStart..off + totalLen]))
  }

  /** Buffer b after segment i has been written at off. */
  function SegmentWritten(b: seq<byte>, off: nat, c: seq<byte>, hdr: VirtioNetHdr, isV6: bool, i: nat): (r: seq<byte>)
    requires Splittable(c, hdr, isV6) && SegmentStart(hdr, i) <= |c| && off + Room(|c|, hdr) <= |b|
    ensures |r| == |b|
  {
    var totalLen := hdr.hdrLen + |SegmentPayload(c, hdr, i)|;
    SegmentFits(c, hdr, i);
    var b1 := IpWritten(b, off, c, hdr, isV6, i, totalLen);
    var b2 := TransportWritten(b1, off, c, hdr, i);
    Put16(b2, off + CsumAt(hdr), TransportSum(b2, off, c, hdr, isV6, totalLen))
  }

  lemma HeaderFits(c: seq<byte>, hdr: VirtioNetHdr, isV6: bool)
    requires SplitReady(c, hdr, isV6)
    ensures hdr.csumStart + MinTransportLen(hdr) <= hdr.hdrLen <= |c| <= 0xffff
  {
  }

  lemma SegmentFits(c: seq<byte>, hdr: VirtioNetHdr, i: nat)
    requires SegmentStart(hdr, i) <= |c|
    ensures hdr.hdrLen + |SegmentPayload(c, hdr, i)| <= Room(|c|, hdr)
  {
    StartMonotone(hdr, 0, i);
  }

  /** The network header of segment i, written at off. */
  method WriteIpPart(host: Host, c: seq<byte>, hdr: VirtioNetHdr, isV6: bool, i: nat, totalLen: u16,
                     out: array<byte>, off: nat)
    requires hdr.csumStart <= |c| && hdr.csumStart <= totalLen
    requires off + hdr.csumStart <= out.Length && off + 12 <= out.Length
    modifies out
    ensures out[..] == IpWritten(old(out[..]), off, c, hdr, isV6, i, totalLen)
  {
    hide Get16, Put16, Fold, WordSum, Paste;
    CopyAt(out, off, c[..hdr.csumStart]);
    if !isV6 {
      if i > 0 {
        var id := (Get16(out[..], off + 4) + i) % 0x1_0000;
        PutUint16(out, off + 4, id);
      }
      PutUint16(out, off + 2, totalLen);
      var sum := Checksum16(host, out[off..off + hdr.csumStart], 0);
      PutUint16(out, off + 10, 0xffff - sum);
    } else {
      PutUint16(out, off + 4, totalLen - hdr.csumStart);
    }
  }

  /** Transport header and payload of segment i, written behind off with the checksum still clear. */
  method WriteTransportPart(c: seq<byte>, hdr: VirtioNetHdr, i: nat, p: seq<byte>, out: array<byte>, off: nat)
    requires SegmentStart(hdr, i) <= |c| && hdr.csumStart + MinTransportLen(hdr) <= hdr.hdrLen
    requires p == SegmentPayload(c, hdr, i) && off + hdr.hdrLen + |p| <= out.Length
    modifies out
    ensures out[..] == TransportWritten(old(out[..]), off, c, hdr, i)
  {
    hide Get16, Put16, Get32, Put32, ClearFinPsh, SegmentStart, SegmentPayload, SeqDelta, Paste;
    CopyAt(out, off + hdr.csumStart, c[hdr.csumStart..hdr.hdrLen]);
    if IsTcp(hdr) {
      var seqNum := (Get32(c, hdr.csumStart + 4) + SeqDelta(hdr, i)) % 0x1_0000_0000;
      PutUint32(out, off + hdr.csumStart + 4, seqNum);
      if SegmentStart(hdr, i) + |p| != |c| {
        out[off + hdr.csumStart + 13] := ClearFinPsh(out[off + hdr.csumStart + 13]);
      }
    } else {
      PutUint16(out, off + hdr.csumStart + 4, (|p| + hdr.hdrLen - hdr.csumStart) % 0x1_0000);
    }
    CopyAt(out, off + hdr.hdrLen, p);
  }

  lemma SameFold(a: nat, b: nat, rest: nat)
    requires Represents(a, b)
    ensures Fold(a + rest) == Fold(b + rest)
  {
    RepresentsReflexive(rest);
    RepresentsSum(a, b, rest, rest);
    RepresentsIsEqualFold(a + rest, b + rest);
  }

  /** Segment k as gsoSplit leaves it in its buffer. */
  ghost predicate Written(before: seq<byte>, after: seq<byte>, size: nat, c: seq<byte>, hdr: VirtioNetHdr, isV6: bool,
                          off: nat, k: nat)
  {
    && Splittable(c, hdr, isV6) && SegmentStart(hdr, k) <= |c| && off + Room(|c|, hdr) <= |before|
    && size == hdr.hdrLen + |SegmentPayload(c, hdr, k)|
    && after == SegmentWritten(before, off, c, hdr, isV6, k)
  }

  /** One turn of the loop: segment i into out, returning its size. */
  method WriteSegment(host: Host, c: seq<byte>, hdr: VirtioNetHdr, isV6: bool, i: nat, out: array<byte>, off: nat)
    returns (size: nat)
    requires Splittable(c, hdr, isV6) && SegmentStart(hdr, i) <= |c| && off + Room(|c|, hdr) <= out.Length
    modifies out
    ensures Written(old(out[..]), out[..], size, c, hdr, isV6, off, i)
  {
    hide IpWritten, TransportWritten, SegmentStart, SegmentPayload, Fold, WordSum, Put16, Represents, PseudoSum;
    var p := SegmentPayload(c, hdr, i);
    size := hdr.hdrLen + |p|;
    SegmentFits(c, hdr, i);
    WriteIpPart(host, c, hdr, isV6, i, size, out, off);
    WriteTransportPart(c, hdr, i, p, out, off);
    var at, n := AddrAt(isV6), AddrLen(isV6);
    var len := size - hdr.csumStart;
    var pseudo := PseudoHeaderChecksumNoFold(host, Protocol(hdr), c[at..at + n], c[at + n..at + 2 * n], len);
    var t := out[off + hdr.csumStart..off + size];
    var sum := Checksum16(host, t, pseudo);
    SameFold(pseudo, PseudoOf(c, Protocol(hdr), isV6, len), WordSum(t));
    PutUint16(out, off + CsumAt(hdr), 0xffff - sum);
  }

  /**
   gsoSplit. On success the returned count is the least number of segments that covers the packet; with too few
   buffers every buffer is filled and the returned count is one less than the number written.
   */
  method GsoSplit(host: Host, input: array<byte>, hdr: VirtioNetHdr, outBufs: seq<array<byte>>, sizes: array<nat>,
                  off: nat, isV6: bool) returns (n: int, ok: bool)
    requires Splittable(input[..], hdr, isV6)
    requires |outBufs| <= sizes.Length
    requires forall k :: 0 <= k < |outBufs| ==>
      off + Room(input.Length, hdr) <= outBufs[k].Length && outBufs[k] != input
    requires forall j, k :: 0 <= j < k < |outBufs| ==> outBufs[j] != outBufs[k]
    modifies input, sizes, outBufs
    ensures input[..] == Cleared(old(input[..]), hdr, isV6)
    ensures ok <==> input.Length <= SegmentStart(hdr, |outBufs|)
    ensures ok ==> 0 <= n <= |outBufs| && SegmentStart(hdr, n) >= input.Length
    ensures ok && n > 0 ==> SegmentStart(hdr, n - 1) < input.Length
    ensures !ok ==> n == |outBufs| - 1
    ensures forall k :: 0 <= k < (if ok then n else |outBufs|) ==>
      Written(old(outBufs[k][..]), outBufs[k][..], sizes[k], input[..], hdr, isV6, off, k)
    ensures forall k :: (if ok then n else |outBufs|) <= k < |outBufs| ==> outBufs[k][..] == old(outBufs[k][..])
  {
    hide Written, Splittable, SegmentPayload, SegmentStart, Cleared, Room;
    ghost var before := input[..];
    ClearChecksums(input, hdr, isV6);
    var c := input[..];
    FirstSegment(hdr);
    var next, i := hdr.hdrLen, 0;
    while next < |c|
      invariant 0 <= i <= |outBufs| && next == SegmentStart(hdr, i)
      invariant i > 0 ==> SegmentStart(hdr, i - 1) < |c|
      invariant input[..] == c
      invariant forall k :: 0 <= k < i ==>
        Written(old(outBufs[k][..]), outBufs[k][..], sizes[k], c, hdr, isV6, off, k)
      invariant forall k :: i <= k < |outBufs| ==> outBufs[k][..] == old(outBufs[k][..])
      decreases |outBufs| - i
    {
      if i == |outBufs| {
        return i - 1, false;
      }
      var size := WriteSegment(host, c, hdr, isV6, i, outBufs[i], off);
      sizes[i] := size;
      next := next + hdr.gsoSize;
      SegmentStartNext(hdr, i);
      i := i + 1;
    }
    StartMonotone(hdr, i, |outBufs|);
    return i, true;
  }

  /** Clears the IPv4 header checksum and the transport checksum in place. */
  method ClearChecksums(input: array<byte>, hdr: VirtioNetHdr, isV6: bool)
    requires Splittable(input[..], hdr, isV6)
    modifies input
    ensures input[..] == Cleared(old(input[..]), hdr, isV6)
  {
    if !isV6 {
      PutUint16(input, 10, 0);
    }
    PutUint16(input, CsumAt(hdr), 0);
  }

  lemma FirstSegment(hdr: VirtioNetHdr)
    ensures SegmentStart(hdr, 0) == hdr.hdrLen
  {
  }

  lemma SegmentStartNext(hdr: VirtioNetHdr, i: nat)
    ensures SegmentStart(hdr, i + 1) == SegmentStart(hdr, i) + hdr.gsoSize
  {
  }

  lemma {:induction false} StartMonotone(hdr: VirtioNetHdr, i: nat, j: nat)
    requires i <= j
    ensures SegmentStart(hdr, i) <= SegmentStart(hdr, j)
  {
    if i < j {
      StartMonotone(hdr, i, j - 1);
    }
  }

  // ---------------------------------------------------------------------------------------------
  // For a packet that is ready, the writes add up to the segment.

  lemma PasteGet16(b: seq<byte>, off: nat, x: seq<byte>, at: nat)
    requires off + |x| <= |b| && at + 2 <= |x|
    ensures Get16(Paste(b, off, x), off + at) == Get16(x, at)
  {
  }

  lemma IpWrittenIsPart(b: seq<byte>, off: nat, c: seq<byte>, hdr: VirtioNetHdr, isV6: bool, i: nat, totalLen: u16)
    requires SplitReady(c, hdr, isV6) && hdr.csumStart <= totalLen && off + hdr.csumStart <= |b|
    ensures IpWritten(b, off, c, hdr, isV6, i, totalLen) == Paste(b, off, IpPart(c, hdr, isV6, i, totalLen))
  {
    hide Get16, Put16, Fold, WordSum, Paste;
    var h := c[..hdr.csumStart];
    if isV6 {
      PastePut16(b, off, h, 4, totalLen - hdr.csumStart);
    } else {
      PasteGet16(b, off, h, 4);
      var id := (Get16(h, 4) + i) % 0x1_0000;
      PastePut16(b, off, h, 4, id);
      var h1 := if i > 0 then Put16(h, 4, id) else h;
      PastePut16(b, off, h1, 2, totalLen);
      var h2 := Put16(h1, 2, totalLen);
      PasteWindow(b, off, h2);
      PastePut16(b, off, h2, 10, 0xffff - Fold(WordSum(h2)));
    }
  }

  lemma FieldsPasted(b: seq<byte>, at: nat, header: seq<byte>, hdr: VirtioNetHdr, first: u32, i: nat, last: bool,
                     n: nat)
    requires at + |header| <= |b| && MinTransportLen(hdr) <= |header|
    ensures FieldsWritten(Paste(b, at, header), at, hdr, first, i, last, n)
      == Paste(b, at, FieldsWritten(header, 0, hdr, first, i, last, n))
  {
    hide Get16, Put16, Get32, Put32, ClearFinPsh, SeqDelta, Paste;
    if IsTcp(hdr) {
      var v := (first + SeqDelta(hdr, i)) % 0x1_0000_0000;
      PastePut32(b, at, header, 4, v);
      PasteByte(b, at, Put32(header, 4, v), 13, ClearFinPsh(Put32(header, 4, v)[13]));
    } else {
      PastePut16(b, at, header, 4, n % 0x1_0000);
    }
  }

  lemma FieldsExtended(header: seq<byte>, p: seq<byte>, hdr: VirtioNetHdr, i: nat, last: bool)
    requires MinTransportLen(hdr) <= |header|
    ensures TransportFields(header + p, hdr, i, last)
      == FieldsWritten(header, 0, hdr, if IsTcp(hdr) then Get32(header, 4) else 0, i, last, |header| + |p|) + p
  {
    hide SeqDelta, ClearFinPsh;
  }

  lemma TransportWrittenIsPart(b: seq<byte>, off: nat, c: seq<byte>, hdr: VirtioNetHdr, i: nat)
    requires SegmentStart(hdr, i) <= |c| && hdr.csumStart + MinTransportLen(hdr) <= hdr.hdrLen
    requires off + hdr.hdrLen + |SegmentPayload(c, hdr, i)| <= |b|
    ensures var p := SegmentPayload(c, hdr, i);
      TransportWritten(b, off, c, hdr, i) == Paste(b, off + hdr.csumStart,
        TransportFields(c[hdr.csumStart..hdr.hdrLen] + p, hdr, i, SegmentStart(hdr, i) + |p| == |c|))
  {
    hide FieldsWritten, TransportFields, SegmentStart, SegmentPayload, Paste, Put16, Put32, Get16;
    var p := SegmentPayload(c, hdr, i);
    var at, header, last := off + hdr.csumStart, c[hdr.csumStart..hdr.hdrLen], SegmentStart(hdr, i) + |p| == |c|;
    var first := if IsTcp(hdr) then Get32(c, hdr.csumStart + 4) else 0;
    if IsTcp(hdr) { SliceGet32(c, hdr.csumStart, hdr.hdrLen, 4); }
    FieldsPasted(b, at, header, hdr, first, i, last, |header| + |p|);
    PasteNext(b, at, FieldsWritten(header, 0, hdr, first, i, last, |header| + |p|), p);
    FieldsExtended(header, p, hdr, i, last);
  }

  lemma SliceGet32(c: seq<byte>, i: nat, j: nat, at: nat)
    requires i + at + 4 <= j <= |c|
    ensures Get32(c[i..j], at) == Get32(c, i + at)
  {
  }

  /** The bytes gsoSplit leaves for segment i of a ready packet are exactly that segment, and nothing else changes. */
  lemma WrittenIsSegment(b: seq<byte>, off: nat, c: seq<byte>, hdr: VirtioNetHdr, isV6: bool, i: nat)
    requires SplitReady(c, hdr, isV6) && SegmentStart(hdr, i) <= |c| && off + Room(|c|, hdr) <= |b|
    ensures Splittable(c, hdr, isV6)
    ensures hdr.hdrLen + |SegmentPayload(c, hdr, i)| <= Room(|c|, hdr)
    ensures SegmentWritten(b, off, c, hdr, isV6, i) == Paste(b, off, Segment(c, hdr, isV6, i))
  {
    hide IpWritten, TransportWritten, IpPart, TransportFields, SegmentStart, SegmentPayload, Fold, WordSum, Put16,
      Paste, Room;
    hide PseudoOf;
    SegmentFits(c, hdr, i);
    var p := SegmentPayload(c, hdr, i);
    var totalLen := hdr.hdrLen + |p|;
    var h := IpPart(c, hdr, isV6, i, totalLen);
    IpWrittenIsPart(b, off, c, hdr, isV6, i, totalLen);
    var b1 := Paste(b, off, h);
    TransportWrittenIsPart(b1, off, c, hdr, i);
    var t := TransportFields(c[hdr.csumStart..hdr.hdrLen] + p, hdr, i, SegmentStart(hdr, i) + |p| == |c|);
    var at := off + hdr.csumStart;
    PasteWindow(b1, at, t);
    var v := 0xffff - Fold(PseudoOf(c, Protocol(hdr), isV6, |t|) + WordSum(t));
    PastePut16(b1, at, t, hdr.csumOffset, v);
    PasteNext(b, off, h, Put16(t, hdr.csumOffset, v));
  }

  // ---------------------------------------------------------------------------------------------
  // What the segments are.

  /** A store inside the second half of a concatenation, and a read from it. */
  lemma GetRight(a: seq<byte>, b: seq<byte>, at: nat)
    requires at + 2 <= |b|
    ensures Get16(a + b, |a| + at) == Get16(b, at)
  {
  }

  lemma GetLeft(a: seq<byte>, b: seq<byte>, at: nat)
    requires at + 2 <= |a|
    ensures Get16(a + b, at) == Get16(a, at)
  {
  }

  lemma GetApart(b: seq<byte>, at: nat, v: u16, k: nat)
    requires at + 2 <= |b| && k + 2 <= |b|
    requires k + 2 <= at || at + 2 <= k
    ensures Get16(Put16(b, at, v), k) == Get16(b, k)
  {
  }

  function PayloadList(c: seq<byte>, hdr: VirtioNetHdr, n: nat): (r: seq<seq<byte>>)
    requires n > 0 ==> SegmentStart(hdr, n - 1) <= |c|
    ensures |r| == n
  {
    if n == 0 then []
    else PayloadList(c, hdr, n - 1) + [SegmentPayload(c, hdr, n - 1)]
  }

  /** Each segment carries its slice of the payload unchanged. */
  lemma SegmentCarriesPayload(c: seq<byte>, hdr: VirtioNetHdr, isV6: bool, i: nat)
    requires SplitReady(c, hdr, isV6) && SegmentStart(hdr, i) <= |c|
    ensures Segment(c, hdr, isV6, i)[hdr.hdrLen..] == SegmentPayload(c, hdr, i)
  {
    hide IpPart, TransportPart, SegmentPayload, SegmentStart;
    var p := SegmentPayload(c, hdr, i);
    var n := hdr.hdrLen - hdr.csumStart;
    var t := TransportPart(c, hdr, isV6, i);
    TransportKeepsPayload(c, hdr, isV6, i);
    assert (IpPart(c, hdr, isV6, i, hdr.hdrLen + |p|) + t)[hdr.hdrLen..] == t[n..];
  }

  lemma TransportKeepsPayload(c: seq<byte>, hdr: VirtioNetHdr, isV6: bool, i: nat)
    requires SplitReady(c, hdr, isV6) && SegmentStart(hdr, i) <= |c|
    ensures TransportPart(c, hdr, isV6, i)[hdr.hdrLen - hdr.csumStart..] == SegmentPayload(c, hdr, i)
  {
    hide Fold, WordSum, SegmentStart, SegmentPayload, PseudoOf, TransportFields;
    var p := SegmentPayload(c, hdr, i);
    FieldsKeepPayload(c[hdr.csumStart..hdr.hdrLen], p, hdr, i, SegmentStart(hdr, i) + |p| == |c|);
  }

  lemma FieldsKeepPayload(header: seq<byte>, p: seq<byte>, hdr: VirtioNetHdr, i: nat, last: bool)
    requires |header| >= (if IsTcp(hdr) then 20 else 8)
    ensures TransportFields(header + p, hdr, i, last)[|header|..] == p
  {
    hide SeqDelta, ClearFinPsh;
  }

  /** End of the payload covered by the first n segments. */
  function Covered(c: seq<byte>, hdr: VirtioNetHdr, n: nat): nat {
    if SegmentStart(hdr, n) <= |c| then SegmentStart(hdr, n) else |c|
  }

  /** The payloads of the segments of a successful split, concatenated, are the payload of the packet. */
  lemma {:induction false} SplitConservesPayload(c: seq<byte>, hdr: VirtioNetHdr, n: nat)
    requires hdr.hdrLen <= |c|
    requires n > 0 ==> SegmentStart(hdr, n - 1) <= |c|
    ensures hdr.hdrLen <= Covered(c, hdr, n) <= |c|
    ensures Flatten(PayloadList(c, hdr, n)) == c[hdr.hdrLen..Covered(c, hdr, n)]
  {
    if n > 0 {
      PayloadStep(c, hdr, n);
      SplitConservesPayload(c, hdr, n - 1);
      hide *;
      FlattenSnoc(PayloadList(c, hdr, n - 1), SegmentPayload(c, hdr, n - 1));
      SliceJoin(c, hdr.hdrLen, Covered(c, hdr, n - 1), Covered(c, hdr, n));
    }
  }

  lemma PayloadStep(c: seq<byte>, hdr: VirtioNetHdr, n: nat)
    requires n > 0 && SegmentStart(hdr, n - 1) <= |c|
    ensures n > 1 ==> SegmentStart(hdr, n - 2) <= |c|
    ensures Covered(c, hdr, n - 1) <= Covered(c, hdr, n) <= |c|
    ensures SegmentPayload(c, hdr, n - 1) == c[Covered(c, hdr, n - 1)..Covered(c, hdr, n)]
    ensures PayloadList(c, hdr, n) == PayloadList(c, hdr, n - 1) + [SegmentPayload(c, hdr, n - 1)]
  {
  }

  lemma SliceJoin(c: seq<byte>, i: nat, j: nat, k: nat)
    requires i <= j <= k <= |c|
    ensures c[i..j] + c[j..k] == c[i..k]
  {
  }

  /** The least number of segments that covers the packet is the ceiling of payload length over segment size. */
  lemma CountIsCeiling(len: nat, hdr: VirtioNetHdr, n: nat)
    requires hdr.gsoSize > 0 && hdr.hdrLen <= len
    requires SegmentStart(hdr, n) >= len
    requires n > 0 ==> SegmentStart(hdr, n - 1) < len
    ensures n == SegmentCount(len, hdr)
  {
    StartIsProduct(hdr, n);
    if n > 0 {
      StartIsProduct(hdr, n - 1);
      CeilingUnique(len - hdr.hdrLen, hdr.gsoSize, n);
    }
  }

  lemma {:induction false} StartIsProduct(hdr: VirtioNetHdr, i: nat)
    ensures SegmentStart(hdr, i) == hdr.hdrLen + hdr.gsoSize * i
  {
    if i > 0 {
      StartIsProduct(hdr, i - 1);
      assert hdr.gsoSize * i == hdr.gsoSize * (i - 1) + hdr.gsoSize;
    }
  }

  lemma CeilingUnique(x: nat, d: nat, n: nat)
    requires d > 0 && n > 0
    requires d * (n - 1) < x <= d * n
    ensures (x + d - 1) / d == n
  {
    var r := x + d - 1 - d * n;
    assert d * n == d * (n - 1) + d;
    assert x + d - 1 == d * n + r && 0 <= r < d;
    assert n * d == d * n;
    Words.QuotientUnique(x + d - 1, d, n, r);
  }

  // ---------------------------------------------------------------------------------------------
  // Header fields and checksums of the segments.

  /** checksumValid: the transport checksum of pkt, pseudo-header included, sums to all ones. */
  predicate ChecksumValid(pkt: seq<byte>, iphLen: nat, protocol: byte, isV6: bool)
    requires iphLen <= |pkt| && AddrAt(isV6) + 2 * AddrLen(isV6) <= |pkt|
  {
    Fold(PseudoOf(pkt, protocol, isV6, (|pkt| - iphLen) % 0x1_0000) + WordSum(pkt[iphLen..])) == 0xffff
  }

  /** checksumValid as it is computed. */
  method CheckChecksum(host: Host, pkt: seq<byte>, iphLen: nat, protocol: byte, isV6: bool) returns (valid: bool)
    requires iphLen <= |pkt| && AddrAt(isV6) + 2 * AddrLen(isV6) <= |pkt|
    ensures valid == ChecksumValid(pkt, iphLen, protocol, isV6)
  {
    hide Fold, WordSum, Represents;
    var at, n := AddrAt(isV6), AddrLen(isV6);
    var len := (|pkt| - iphLen) % 0x1_0000;
    var pseudo := PseudoHeaderChecksumNoFold(host, protocol, pkt[at..at + n], pkt[at + n..at + 2 * n], len);
    var sum := Checksum16(host, pkt[iphLen..], pseudo);
    SameFold(pseudo, PseudoOf(pkt, protocol, isV6, len), WordSum(pkt[iphLen..]));
    valid := 0xffff - sum == 0;
  }

  /** The checksum field misses the fields the split rewrites. */
  predicate MissesFields(hdr: VirtioNetHdr) {
    var o := hdr.csumOffset;
    if IsTcp(hdr) then o + 2 <= 4 || 8 <= o <= 11 || 14 <= o else o + 2 <= 4 || 6 <= o
  }

  /**
   For a checksum field at an even offset: no rewritten field under it is left with a value. The field has been
   cleared first, so a sequence number is what carries or multiplies into it.
   */
  predicate FieldsClear(input: seq<byte>, hdr: VirtioNetHdr, i: nat)
    requires hdr.csumStart + MinTransportLen(hdr) <= |input|
  {
    if IsTcp(hdr) then
      && (hdr.csumOffset == 4 ==> Get16(input, hdr.csumStart + 6) + hdr.gsoSize * i < 0x1_0000)
      && (hdr.csumOffset == 6 ==> hdr.gsoSize * i == 0)
    else hdr.csumOffset != 4
  }

  /** The IPv4 header of a segment: its length, identification and checksum, all else copied. */
  lemma Ipv4Header(c: seq<byte>, hdr: VirtioNetHdr, i: nat, totalLen: u16)
    requires SplitReady(c, hdr, false) && hdr.csumStart <= totalLen
    ensures var h := IpPart(c, hdr, false, i, totalLen);
      && Get16(h, 2) == totalLen
      && Get16(h, 4) == (Get16(c, 4) + i) % 0x1_0000
      && (Get16(c, 10) == 0 ==> Fold(WordSum(h)) == 0xffff)
      && forall k :: 0 <= k < |h| && k !in {2, 3, 4, 5, 10, 11} ==> h[k] == c[k]
  {
    hide Fold, WordSum;
    var h := c[..hdr.csumStart];
    var h1 := if i > 0 then Put16(h, 4, (Get16(h, 4) + i) % 0x1_0000) else h;
    var h2 := Put16(h1, 2, totalLen);
    Ipv4Fields(c, h, h1, h2, i, totalLen);
    if Get16(c, 10) == 0 {
      StoredChecksumVerifies(h2, 10, 0);
    }
    hide Get16;
    GetApart(h2, 10, 0xffff - Fold(0 + WordSum(h2)), 2);
    GetApart(h2, 10, 0xffff - Fold(0 + WordSum(h2)), 4);
  }

  lemma Ipv4Fields(c: seq<byte>, h: seq<byte>, h1: seq<byte>, h2: seq<byte>, i: nat, totalLen: u16)
    requires 20 <= |h| <= |c| && h == c[..|h|]
    requires h1 == if i > 0 then Put16(h, 4, (Get16(h, 4) + i) % 0x1_0000) else h
    requires h2 == Put16(h1, 2, totalLen)
    ensures Get16(h2, 2) == totalLen && Get16(h2, 4) == (Get16(c, 4) + i) % 0x1_0000
    ensures Get16(h2, 10) == Get16(c, 10)
    ensures forall k :: 0 <= k < |h2| && k !in {2, 3, 4, 5} ==> h2[k] == c[k]
  {
  }

  lemma Ipv6Header(c: seq<byte>, hdr: VirtioNetHdr, i: nat, totalLen: u16)
    requires SplitReady(c, hdr, true) && hdr.csumStart <= totalLen
    ensures var h := IpPart(c, hdr, true, i, totalLen);
      && Get16(h, 4) == totalLen - hdr.csumStart
      && forall k :: 0 <= k < |h| && k !in {4, 5} ==> h[k] == c[k]
  {
  }

  /** 16-bit arithmetic never wraps in the sequence number of a segment of an IP packet. */
  lemma SeqDeltaExact(len: nat, hdr: VirtioNetHdr, i: nat)
    requires SegmentStart(hdr, i) <= len <= 0xffff
    ensures SeqDelta(hdr, i) == hdr.gsoSize * i
  {
    StartIsProduct(hdr, i);
    SmallMod(hdr.gsoSize * i);
  }

  lemma SmallMod(x: nat)
    requires x <= 0xffff
    ensures x % 0x1_0000 == x
  {
  }

  /** Transport fields of a segment: everything but sequence number and flags, or length, is copied. */
  lemma FieldsOfTransport(t: seq<byte>, hdr: VirtioNetHdr, i: nat, last: bool)
    requires 20 <= |t| <= 0xffff || (8 <= |t| <= 0xffff && !IsTcp(hdr))
    ensures var r := TransportFields(t, hdr, i, last);
      && (IsTcp(hdr) ==>
          && Get32(r, 4) == (Get32(t, 4) + SeqDelta(hdr, i)) % 0x1_0000_0000
          && r[13] == (if last then t[13] else ClearFinPsh(t[13]))
          && forall k :: 0 <= k < |t| && k !in {4, 5, 6, 7, 13} ==> r[k] == t[k])
      && (!IsTcp(hdr) ==>
          && Get16(r, 4) == |t|
          && forall k :: 0 <= k < |t| && k !in {4, 5} ==> r[k] == t[k])
  {
    hide SeqDelta, ClearFinPsh;
    if IsTcp(hdr) {
      var v := (Get32(t, 4) + SeqDelta(hdr, i)) % 0x1_0000_0000;
      Put32Get(t, 4, v);
    }
  }

  /** The transport part of segment i before its checksum is stored. */
  function TransportBare(c: seq<byte>, hdr: VirtioNetHdr, i: nat): (t: seq<byte>)
    requires SegmentStart(hdr, i) <= |c| && hdr.csumStart + MinTransportLen(hdr) <= hdr.hdrLen
    ensures |t| == hdr.hdrLen - hdr.csumStart + |SegmentPayload(c, hdr, i)|
  {
    var p := SegmentPayload(c, hdr, i);
    TransportFields(c[hdr.csumStart..hdr.hdrLen] + p, hdr, i, SegmentStart(hdr, i) + |p| == |c|)
  }

  /** Its rewritten fields, and every other header byte copied. */
  lemma BareFields(c: seq<byte>, hdr: VirtioNetHdr, isV6: bool, i: nat)
    requires SplitReady(c, hdr, isV6) && SegmentStart(hdr, i) <= |c|
    ensures var t := TransportBare(c, hdr, i);
      && (IsTcp(hdr) ==>
          && Get32(t, 4) == (Get32(c, hdr.csumStart + 4) + hdr.gsoSize * i) % 0x1_0000_0000
          && t[13] == (if SegmentStart(hdr, i) + hdr.gsoSize >= |c| then c[hdr.csumStart + 13]
                       else ClearFinPsh(c[hdr.csumStart + 13]))
          && forall k :: 0 <= k < hdr.hdrLen - hdr.csumStart && k !in {4, 5, 6, 7, 13} ==> t[k] == c[hdr.csumStart + k])
      && (!IsTcp(hdr) ==>
          && Get16(t, 4) == |t|
          && forall k :: 0 <= k < hdr.hdrLen - hdr.csumStart && k !in {4, 5} ==> t[k] == c[hdr.csumStart + k])
  {
    hide SeqDelta, ClearFinPsh, TransportFields, SegmentStart;
    var p := SegmentPayload(c, hdr, i);
    var header := c[hdr.csumStart..hdr.hdrLen];
    FieldsOfTransport(header + p, hdr, i, SegmentStart(hdr, i) + |p| == |c|);
    SeqDeltaExact(|c|, hdr, i);
  }

  /** What lies under an even checksum field counts for nothing exactly when the fields there are clear. */
  lemma UnderChecksum(c: seq<byte>, hdr: VirtioNetHdr, isV6: bool, i: nat)
    requires SplitReady(c, hdr, isV6) && SegmentStart(hdr, i) <= |c| && hdr.csumOffset % 2 == 0
    requires Get16(c, hdr.csumStart + hdr.csumOffset) == 0
    ensures Get16(TransportBare(c, hdr, i), hdr.csumOffset) % 0xffff == 0 <==> FieldsClear(c, hdr, i)
  {
    hide TransportBare, SegmentStart, FieldsClear, Get16;
    if IsTcp(hdr) && (hdr.csumOffset == 4 || hdr.csumOffset == 6) {
      UnderTcpSequence(c, hdr, isV6, i);
    } else if IsTcp(hdr) {
      UnderTcpOther(c, hdr, isV6, i);
    } else {
      UnderUdp(c, hdr, isV6, i);
    }
  }

  lemma UnderTcpSequence(c: seq<byte>, hdr: VirtioNetHdr, isV6: bool, i: nat)
    requires SplitReady(c, hdr, isV6) && SegmentStart(hdr, i) <= |c|
    requires IsTcp(hdr) && (hdr.csumOffset == 4 || hdr.csumOffset == 6)
    requires Get16(c, hdr.csumStart + hdr.csumOffset) == 0
    ensures Get16(TransportBare(c, hdr, i), hdr.csumOffset) % 0xffff == 0 <==> FieldsClear(c, hdr, i)
  {
    hide TransportBare, SegmentPayload, SegmentStart, ClearFinPsh, Get32, Get16;
    BareFields(c, hdr, isV6, i);
    StartIsProduct(hdr, i);
    UnderSequence(c, TransportBare(c, hdr, i), hdr.csumStart, hdr.gsoSize * i);
  }

  lemma UnderTcpOther(c: seq<byte>, hdr: VirtioNetHdr, isV6: bool, i: nat)
    requires SplitReady(c, hdr, isV6) && SegmentStart(hdr, i) <= |c| && hdr.csumOffset % 2 == 0
    requires IsTcp(hdr) && hdr.csumOffset != 4 && hdr.csumOffset != 6
    requires Get16(c, hdr.csumStart + hdr.csumOffset) == 0
    ensures Get16(TransportBare(c, hdr, i), hdr.csumOffset) == 0 && FieldsClear(c, hdr, i)
  {
    hide TransportBare, SegmentPayload, SegmentStart, ClearFinPsh, Get32;
    BareFields(c, hdr, isV6, i);
    ClearedFlags();
    var o, t := hdr.csumOffset, TransportBare(c, hdr, i);
    assert c[hdr.csumStart + o] == 0 && c[hdr.csumStart + o + 1] == 0;
    assert t[o] == 0 && t[o + 1] == 0;
  }

  lemma UnderUdp(c: seq<byte>, hdr: VirtioNetHdr, isV6: bool, i: nat)
    requires SplitReady(c, hdr, isV6) && SegmentStart(hdr, i) <= |c| && hdr.csumOffset % 2 == 0 && !IsTcp(hdr)
    requires Get16(c, hdr.csumStart + hdr.csumOffset) == 0
    ensures Get16(TransportBare(c, hdr, i), hdr.csumOffset) % 0xffff == 0 <==> FieldsClear(c, hdr, i)
  {
    hide TransportBare, SegmentPayload, SegmentStart, Get32;
    BareFields(c, hdr, isV6, i);
    var o, t := hdr.csumOffset, TransportBare(c, hdr, i);
    assert o != 4 ==> t[o] == c[hdr.csumStart + o] && t[o + 1] == c[hdr.csumStart + o + 1];
  }

  lemma ClearedFlags()
    ensures ClearFinPsh(0) == 0
  {
  }

  lemma UnderSequence(c: seq<byte>, t: seq<byte>, at: nat, d: nat)
    requires at + 8 <= |c| && 8 <= |t| && d < 0xffff
    requires Get32(t, 4) == (Get32(c, at + 4) + d) % 0x1_0000_0000
    ensures Get16(c, at + 4) == 0 ==> (Get16(t, 4) % 0xffff == 0 <==> Get16(c, at + 6) + d < 0x1_0000)
    ensures Get16(c, at + 6) == 0 ==> (Get16(t, 6) % 0xffff == 0 <==> d == 0)
  {
    hide Get16;
    SplitSequence(Get16(c, at + 4), Get16(c, at + 6), d, Get16(t, 4), Get16(t, 6));
  }

  /** A sequence number one half of which was cleared, advanced by less than 65535. */
  lemma SplitSequence(hi: u16, lo: u16, d: nat, hi': u16, lo': u16)
    requires d < 0xffff && hi' * 0x1_0000 + lo' == (hi * 0x1_0000 + lo + d) % 0x1_0000_0000
    ensures hi == 0 ==> (hi' % 0xffff == 0 <==> lo + d < 0x1_0000)
    ensures lo == 0 ==> (lo' % 0xffff == 0 <==> d == 0)
  {
  }

  /** The transport part verifies exactly when the fields under its checksum are clear. */
  lemma TransportVerifies(c: seq<byte>, hdr: VirtioNetHdr, isV6: bool, i: nat)
    requires SplitReady(c, hdr, isV6) && SegmentStart(hdr, i) <= |c| && hdr.csumOffset % 2 == 0
    requires Get16(c, hdr.csumStart + hdr.csumOffset) == 0
    ensures var r := TransportPart(c, hdr, isV6, i);
      Fold(PseudoOf(c, Protocol(hdr), isV6, |r|) + WordSum(r)) == 0xffff <==> FieldsClear(c, hdr, i)
  {
    hide Fold, WordSum, PseudoOf, TransportFields, SegmentStart, SegmentPayload, FieldsClear, Get16, Put16;
    UnderChecksum(c, hdr, isV6, i);
    var t := TransportBare(c, hdr, i);
    PseudoPositive(c, Protocol(hdr), isV6, |t|);
    StoredVerifiesExactly(t, hdr.csumOffset, PseudoOf(c, Protocol(hdr), isV6, |t|));
  }

  lemma PseudoPositive(pkt: seq<byte>, protocol: byte, isV6: bool, len: u16)
    requires |pkt| >= AddrAt(isV6) + 2 * AddrLen(isV6) && protocol > 0
    ensures PseudoOf(pkt, protocol, isV6, len) > 0
  {
  }

  lemma ClearedFields(input: seq<byte>, hdr: VirtioNetHdr, isV6: bool)
    requires SplitReady(input, hdr, isV6)
    ensures var c := Cleared(input, hdr, isV6);
      && Get16(c, hdr.csumStart + hdr.csumOffset) == 0
      && (!isV6 ==> Get16(c, 10) == 0)
      && (var at := hdr.csumStart + hdr.csumOffset;
          forall k :: 0 <= k < hdr.hdrLen && k !in {10, 11, at, at + 1} ==> c[k] == input[k])
  {
  }

  /** The addresses of a segment are those of the packet. */
  lemma AddressesKept(c: seq<byte>, hdr: VirtioNetHdr, isV6: bool, i: nat, totalLen: u16)
    requires SplitReady(c, hdr, isV6) && hdr.csumStart <= totalLen
    ensures var h, at, n := IpPart(c, hdr, isV6, i, totalLen), AddrAt(isV6), AddrLen(isV6);
      at + 2 * n <= |h| && h[at..at + 2 * n] == c[at..at + 2 * n]
  {
    if isV6 {
      Ipv6Header(c, hdr, i, totalLen);
    } else {
      Ipv4Header(c, hdr, i, totalLen);
    }
    hide IpPart;
  }

  lemma SamePseudo(a: seq<byte>, b: seq<byte>, protocol: byte, isV6: bool, len: u16)
    requires AddrAt(isV6) + 2 * AddrLen(isV6) <= |a| && AddrAt(isV6) + 2 * AddrLen(isV6) <= |b|
    requires a[AddrAt(isV6)..AddrAt(isV6) + 2 * AddrLen(isV6)] == b[AddrAt(isV6)..AddrAt(isV6) + 2 * AddrLen(isV6)]
    ensures PseudoOf(a, protocol, isV6, len) == PseudoOf(b, protocol, isV6, len)
  {
    hide PseudoSum;
    var at, n := AddrAt(isV6), AddrLen(isV6);
    assert a[at..at + n] == a[at..at + 2 * n][..n] && b[at..at + n] == b[at..at + 2 * n][..n];
    assert a[at + n..at + 2 * n] == a[at..at + 2 * n][n..] && b[at + n..at + 2 * n] == b[at..at + 2 * n][n..];
  }

  /** A segment passes checksumValid exactly when its transport part verifies. */
  lemma SegmentIsChecked(input: seq<byte>, hdr: VirtioNetHdr, isV6: bool, i: nat)
    requires SplitReady(input, hdr, isV6) && SegmentStart(hdr, i) <= |input|
    ensures var c := Cleared(input, hdr, isV6);
      var s, t := Segment(c, hdr, isV6, i), TransportPart(c, hdr, isV6, i);
      && |s| >= hdr.csumStart && s[hdr.csumStart..] == t
      && s[..hdr.csumStart] == IpPart(c, hdr, isV6, i, |s|)
      && (ChecksumValid(s, hdr.csumStart, Protocol(hdr), isV6) <==>
          Fold(PseudoOf(c, Protocol(hdr), isV6, |t|) + WordSum(t)) == 0xffff)
  {
    hide Fold, WordSum, PseudoOf, IpPart, TransportPart, SegmentPayload, Cleared, Get16, SegmentStart;
    var c := Cleared(input, hdr, isV6);
    var s := Segment(c, hdr, isV6, i);
    var h, t := IpPart(c, hdr, isV6, i, |s|), TransportPart(c, hdr, isV6, i);
    AddressesKept(c, hdr, isV6, i, |s|);
    assert s[..hdr.csumStart] == h && s[hdr.csumStart..] == t;
    var at, n := AddrAt(isV6), AddrLen(isV6);
    assert s[at..at + 2 * n] == h[at..at + 2 * n];
    SamePseudo(s, c, Protocol(hdr), isV6, |t|);
    SmallMod(|t|);
  }

  /**
   With the checksum field at an even offset of the transport header, a segment passes checksumValid exactly when no
   rewritten field is left under it; its IPv4 header checksum always verifies.
   */
  lemma SegmentVerifies(input: seq<byte>, hdr: VirtioNetHdr, isV6: bool, i: nat)
    requires SplitReady(input, hdr, isV6) && SegmentStart(hdr, i) <= |input| && hdr.csumOffset % 2 == 0
    ensures var s := Segment(Cleared(input, hdr, isV6), hdr, isV6, i);
      && (ChecksumValid(s, hdr.csumStart, Protocol(hdr), isV6) <==> FieldsClear(input, hdr, i))
      && (!isV6 ==> Fold(WordSum(s[..hdr.csumStart])) == 0xffff)
  {
    hide Fold, WordSum, PseudoOf, IpPart, TransportPart, SegmentPayload, Cleared, Get16, SegmentStart, Segment,
      ChecksumValid;
    var c := Cleared(input, hdr, isV6);
    ClearedFields(input, hdr, isV6);
    SegmentIsChecked(input, hdr, isV6, i);
    TransportVerifies(c, hdr, isV6, i);
    SameClear(input, c, hdr, isV6, i);
    if !isV6 {
      Ipv4Header(c, hdr, i, |Segment(c, hdr, isV6, i)|);
    }
  }

  lemma SameClear(input: seq<byte>, c: seq<byte>, hdr: VirtioNetHdr, isV6: bool, i: nat)
    requires SplitReady(input, hdr, isV6) && c == Cleared(input, hdr, isV6)
    ensures FieldsClear(c, hdr, i) <==> FieldsClear(input, hdr, i)
  {
  }

  /**
   With the checksum field at an odd offset, of two packets that differ by one in the first payload byte of the
   segment at most one gives a segment that passes.
   */
  lemma OddOffsetFails(input: seq<byte>, hdr: VirtioNetHdr, isV6: bool, i: nat, x: byte)
    requires SplitReady(input, hdr, isV6) && SegmentStart(hdr, i) < |input| && hdr.csumOffset % 2 == 1
    requires hdr.gsoSize > 0
    requires var y := input[SegmentStart(hdr, i)]; x as int == y as int + 1 || y as int == x as int + 1
    ensures var input' := input[SegmentStart(hdr, i) := x];
      && SplitReady(input', hdr, isV6)
      && !(ChecksumValid(Segment(Cleared(input, hdr, isV6), hdr, isV6, i), hdr.csumStart, Protocol(hdr), isV6)
           && ChecksumValid(Segment(Cleared(input', hdr, isV6), hdr, isV6, i), hdr.csumStart, Protocol(hdr), isV6))
  {
    hide Fold, WordSum, PseudoOf, Segment, Cleared, Get16, Put16, ChecksumValid, TransportFields, SegmentStart,
      SegmentPayload;
    var input' := input[SegmentStart(hdr, i) := x];
    SegmentIsChecked(input, hdr, isV6, i);
    SegmentIsChecked(input', hdr, isV6, i);
    var c, c' := Cleared(input, hdr, isV6), Cleared(input', hdr, isV6);
    VariantBare(input, hdr, isV6, i, x);
    var t := TransportBare(c, hdr, i);
    var pseudo := PseudoOf(c, Protocol(hdr), isV6, |t|);
    PseudoPositive(c, Protocol(hdr), isV6, |t|);
    OddStoredFails(t, hdr.csumOffset, pseudo, hdr.hdrLen - hdr.csumStart, x);
  }

  /** What is cleared lies in front of the payload. */
  predicate KeepsPayload(hdr: VirtioNetHdr, isV6: bool) {
    CsumAt(hdr) + 2 <= hdr.hdrLen && (isV6 || 12 <= hdr.hdrLen)
  }

  /** Changing the first payload byte of segment i changes just that byte of its transport part. */
  lemma VariantBare(input: seq<byte>, hdr: VirtioNetHdr, isV6: bool, i: nat, x: byte)
    requires Splittable(input, hdr, isV6) && KeepsPayload(hdr, isV6) && hdr.csumStart >= MinIpLen(isV6)
    requires SegmentStart(hdr, i) < |input| && hdr.gsoSize > 0
    ensures var input' := input[SegmentStart(hdr, i) := x];
      && Splittable(input', hdr, isV6) && |SegmentPayload(input, hdr, i)| > 0
      && var c, c' := Cleared(input, hdr, isV6), Cleared(input', hdr, isV6);
      var t, t', n := TransportBare(c, hdr, i), TransportBare(c', hdr, i), hdr.hdrLen - hdr.csumStart;
      && n < |t| && t[n] == input[SegmentStart(hdr, i)] && t' == t[n := x]
      && c'[..hdr.hdrLen] == c[..hdr.hdrLen]
      && PseudoOf(c', Protocol(hdr), isV6, |t'|) == PseudoOf(c, Protocol(hdr), isV6, |t|)
  {
    hide Fold, WordSum, PseudoOf, TransportFields, SegmentStart, Get16, Get32, PseudoSum, Cleared, SegmentPayload,
      FieldsWritten;
    var at := SegmentStart(hdr, i);
    var input' := input[at := x];
    var c, c' := Cleared(input, hdr, isV6), Cleared(input', hdr, isV6);
    StartMonotone(hdr, 0, i);
    VariantCleared(input, hdr, isV6, at, x);
    VariantPayload(c, hdr, i, x);
    SameLength(input, c, hdr, i);
    var p := SegmentPayload(c, hdr, i);
    var header := c[hdr.csumStart..hdr.hdrLen];
    assert c'[hdr.csumStart..hdr.hdrLen] == header;
    var last := at + |p| == |c|;
    FieldsExtended(header, p, hdr, i, last);
    FieldsExtended(header, p[0 := x], hdr, i, last);
    var a, n := AddrAt(isV6), AddrLen(isV6);
    assert c'[a..a + 2 * n] == c[a..a + 2 * n];
    SamePseudo(c', c, Protocol(hdr), isV6, |header| + |p|);
  }

  lemma VariantPayload(c: seq<byte>, hdr: VirtioNetHdr, i: nat, x: byte)
    requires SegmentStart(hdr, i) < |c| && hdr.gsoSize > 0
    ensures |SegmentPayload(c, hdr, i)| > 0 && SegmentPayload(c, hdr, i)[0] == c[SegmentStart(hdr, i)]
    ensures SegmentPayload(c[SegmentStart(hdr, i) := x], hdr, i) == SegmentPayload(c, hdr, i)[0 := x]
  {
    hide SegmentStart;
  }

  lemma SameLength(a: seq<byte>, b: seq<byte>, hdr: VirtioNetHdr, i: nat)
    requires |a| == |b| && SegmentStart(hdr, i) <= |a|
    ensures |SegmentPayload(a, hdr, i)| == |SegmentPayload(b, hdr, i)|
  {
  }

  lemma VariantCleared(input: seq<byte>, hdr: VirtioNetHdr, isV6: bool, at: nat, x: byte)
    requires Splittable(input, hdr, isV6) && KeepsPayload(hdr, isV6) && hdr.hdrLen <= at < |input|
    ensures Splittable(input[at := x], hdr, isV6)
    ensures Cleared(input[at := x], hdr, isV6) == Cleared(input, hdr, isV6)[at := x]
    ensures Cleared(input, hdr, isV6)[at] == input[at]
  {
  }

  /** Length fields, identification, sequence number and flags of segment s, in terms of the packet c. */
  ghost predicate FieldsOf(s: seq<byte>, c: seq<byte>, hdr: VirtioNetHdr, isV6: bool, i: nat)
    requires SplitReady(c, hdr, isV6) && |s| >= hdr.hdrLen
  {
    && (!isV6 ==> Get16(s, 2) == |s| && Get16(s, 4) == (Get16(c, 4) + i) % 0x1_0000)
    && (isV6 ==> Get16(s, 4) == |s| - hdr.csumStart)
    && (IsTcp(hdr) ==>
        && Get32(s, hdr.csumStart + 4) == (Get32(c, hdr.csumStart + 4) + hdr.gsoSize * i) % 0x1_0000_0000
        && s[hdr.csumStart + 13] == (if SegmentStart(hdr, i) + hdr.gsoSize >= |c| then c[hdr.csumStart + 13]
                                     else ClearFinPsh(c[hdr.csumStart + 13])))
    && (!IsTcp(hdr) ==> Get16(s, hdr.csumStart + 4) == |s| - hdr.csumStart)
  }

  /** The fields of segment i, read back from its bytes. */
  lemma SegmentFields(input: seq<byte>, hdr: VirtioNetHdr, isV6: bool, i: nat)
    requires SplitReady(input, hdr, isV6) && SegmentStart(hdr, i) <= |input| && MissesFields(hdr)
    ensures FieldsOf(Segment(Cleared(input, hdr, isV6), hdr, isV6, i), input, hdr, isV6, i)
  {
    hide Segment, Cleared, SegmentPayload, SegmentStart, FieldsOf, MissesFields;
    var c := Cleared(input, hdr, isV6);
    SegmentFieldsOfCleared(c, hdr, isV6, i);
    SameFields(Segment(c, hdr, isV6, i), input, hdr, isV6, i);
  }

  /** The fields that segments are made from survive the clearing. */
  lemma SameFields(s: seq<byte>, input: seq<byte>, hdr: VirtioNetHdr, isV6: bool, i: nat)
    requires SplitReady(input, hdr, isV6) && |s| >= hdr.hdrLen && MissesFields(hdr)
    requires FieldsOf(s, Cleared(input, hdr, isV6), hdr, isV6, i)
    ensures FieldsOf(s, input, hdr, isV6, i)
  {
    hide Cleared, SegmentStart, ClearFinPsh;
    var c := Cleared(input, hdr, isV6);
    ClearedFields(input, hdr, isV6);
    assert Get16(c, 4) == Get16(input, 4);
    if IsTcp(hdr) {
      assert Get32(c, hdr.csumStart + 4) == Get32(input, hdr.csumStart + 4);
    }
  }

  /** A checksum that misses the rewritten fields leaves them, and all bytes outside itself, as they were. */
  lemma TransportFieldValues(c: seq<byte>, hdr: VirtioNetHdr, isV6: bool, i: nat)
    requires SplitReady(c, hdr, isV6) && SegmentStart(hdr, i) <= |c| && MissesFields(hdr)
    ensures var r, t := TransportPart(c, hdr, isV6, i), TransportBare(c, hdr, i);
      && |r| == |t|
      && (forall k :: 0 <= k < |t| && k != hdr.csumOffset && k != hdr.csumOffset + 1 ==> r[k] == t[k])
      && (IsTcp(hdr) ==>
          && Get32(r, 4) == (Get32(c, hdr.csumStart + 4) + hdr.gsoSize * i) % 0x1_0000_0000
          && r[13] == (if SegmentStart(hdr, i) + hdr.gsoSize >= |c| then c[hdr.csumStart + 13]
                       else ClearFinPsh(c[hdr.csumStart + 13])))
      && (!IsTcp(hdr) ==> Get16(r, 4) == |r|)
  {
    hide Fold, WordSum, PseudoOf, TransportFields, SegmentStart, SegmentPayload, ClearFinPsh;
    BareFields(c, hdr, isV6, i);
  }

  lemma SegmentFieldsOfCleared(c: seq<byte>, hdr: VirtioNetHdr, isV6: bool, i: nat)
    requires SplitReady(c, hdr, isV6) && SegmentStart(hdr, i) <= |c| && MissesFields(hdr)
    ensures FieldsOf(Segment(c, hdr, isV6, i), c, hdr, isV6, i)
  {
    hide Fold, WordSum, IpPart, TransportPart, SegmentPayload, SegmentStart, ClearFinPsh;
    var s := Segment(c, hdr, isV6, i);
    var h, t := IpPart(c, hdr, isV6, i, |s|), TransportPart(c, hdr, isV6, i);
    TransportFieldValues(c, hdr, isV6, i);
    if isV6 {
      Ipv6Header(c, hdr, i, |s|);
    } else {
      Ipv4Header(c, hdr, i, |s|);
    }
    GetLeft(h, t, 2);
    GetLeft(h, t, 4);
    GetRight(h, t, 4);
    GetRight(h, t, 6);
    hide Get16;
  }

  /** Header bytes the split rewrites. */
  predicate Rewritten(hdr: VirtioNetHdr, isV6: bool, k: nat) {
    || (if isV6 then k in {4, 5} else k in {2, 3, 4, 5, 10, 11})
    || k == hdr.csumStart + hdr.csumOffset || k == hdr.csumStart + hdr.csumOffset + 1
    || (k >= hdr.csumStart && k - hdr.csumStart in (if IsTcp(hdr) then {4, 5, 6, 7, 13} else {4, 5}))
  }

  /** Every other header byte is the packet's. */
  lemma SegmentKeeps(input: seq<byte>, hdr: VirtioNetHdr, isV6: bool, i: nat, k: nat)
    requires SplitReady(input, hdr, isV6) && SegmentStart(hdr, i) <= |input|
    requires k < hdr.hdrLen && !Rewritten(hdr, isV6, k)
    ensures Segment(Cleared(input, hdr, isV6), hdr, isV6, i)[k] == input[k]
  {
    hide Cleared, SegmentPayload, SegmentStart, IpPart, TransportPart, Fold, WordSum;
    var c := Cleared(input, hdr, isV6);
    ClearedKeeps(input, hdr, isV6, k);
    var s := Segment(c, hdr, isV6, i);
    if k < hdr.csumStart {
      if isV6 {
        Ipv6Header(c, hdr, i, |s|);
      } else {
        Ipv4Header(c, hdr, i, |s|);
      }
    } else {
      TransportKeeps(c, hdr, isV6, i, k - hdr.csumStart);
    }
  }

  lemma ClearedKeeps(input: seq<byte>, hdr: VirtioNetHdr, isV6: bool, k: nat)
    requires SplitReady(input, hdr, isV6) && k < hdr.hdrLen && !Rewritten(hdr, isV6, k)
    ensures Cleared(input, hdr, isV6)[k] == input[k]
  {
  }

  lemma TransportKeeps(c: seq<byte>, hdr: VirtioNetHdr, isV6: bool, i: nat, k: nat)
    requires SplitReady(c, hdr, isV6) && SegmentStart(hdr, i) <= |c|
    requires hdr.csumStart + k < hdr.hdrLen && !Rewritten(hdr, isV6, hdr.csumStart + k)
    ensures TransportPart(c, hdr, isV6, i)[k] == c[hdr.csumStart + k]
  {
    hide Fold, WordSum, PseudoOf, TransportFields, SegmentStart, SegmentPayload, ClearFinPsh;
    BareFields(c, hdr, isV6, i);
  }
}

/** handleVirtioRead: one read from the tun device, and exactly when its segments are right. */
module GsoRead {
  import opened Bytes
  import opened Options
  import opened Checksum
  import opened Gso

  /** The checks made before gsoSplit is called, and the header length they recompute. */
  function ReadChecks(input: seq<byte>, hdr: VirtioNetHdr): (r: Option<VirtioNetHdr>) {
    if |input| == 0 || !(hdr.gsoType.GsoTcpV4? || hdr.gsoType.GsoTcpV6? || hdr.gsoType.GsoUdpL4?) then None
    else
      var version := input[0] / 16;
      if !(version == 4 && !hdr.gsoType.GsoTcpV6?) && !(version == 6 && !hdr.gsoType.GsoTcpV4?) then None
      else if hdr.gsoType.GsoUdpL4? then
        LengthChecks(input, hdr.(hdrLen := (hdr.csumStart + 8) % 0x1_0000))
      else if |input| <= (hdr.csumStart + 12) % 0x1_0000 then None
      else
        var tcpLen := input[(hdr.csumStart + 12) % 0x1_0000] as int / 16 * 4;
        if tcpLen < 20 || tcpLen > 60 then None
        else LengthChecks(input, hdr.(hdrLen := (hdr.csumStart + tcpLen) % 0x1_0000))
  }

  function LengthChecks(input: seq<byte>, hdr: VirtioNetHdr): (r: Option<VirtioNetHdr>) {
    if |input| < hdr.hdrLen || hdr.hdrLen < hdr.csumStart then None
    else if CsumAt(hdr) + 1 >= |input| then None
    else Some(hdr)
  }

  /** The checks give what gsoSplit needs, for every packet that holds a network header of its version. */
  lemma ChecksEstablishSplittable(input: seq<byte>, hdr: VirtioNetHdr)
    requires ReadChecks(input, hdr).Some?
    requires |input| > 0 && MinIpLen(input[0] / 16 == 6) <= |input| <= 0xffff
    ensures var h := ReadChecks(input, hdr).value;
      && Splittable(input, h, input[0] / 16 == 6)
      && (h.hdrLen - h.csumStart) % 4 == 0
      && h == hdr.(hdrLen := h.hdrLen)
  {
    hide LengthChecks, Splittable, CsumAt;
    if IsTcp(hdr) {
      var d := input[(hdr.csumStart + 12) % 0x1_0000] as int / 16 * 4;
      LengthsEstablish(input, hdr.(hdrLen := (hdr.csumStart + d) % 0x1_0000), input[0] / 16 == 6, d / 4);
    } else {
      LengthsEstablish(input, hdr.(hdrLen := (hdr.csumStart + 8) % 0x1_0000), input[0] / 16 == 6, 2);
    }
  }

  /** The last two checks, for a transport header of four times d bytes: the 16-bit sum has not wrapped. */
  lemma LengthsEstablish(input: seq<byte>, h: VirtioNetHdr, isV6: bool, d: nat)
    requires LengthChecks(input, h).Some? && MinIpLen(isV6) <= |input| <= 0xffff
    requires h.hdrLen == (h.csumStart + 4 * d) % 0x1_0000 && MinTransportLen(h) <= 4 * d <= 60
    ensures LengthChecks(input, h) == Some(h) && Splittable(input, h, isV6) && h.hdrLen == h.csumStart + 4 * d
  {
    hide CsumAt;
  }

  // ---------------------------------------------------------------------------------------------
  // Packets without segmentation.

  /** The packet with its transport checksum completed. */
  function NoneChecked(input: seq<byte>, hdr: VirtioNetHdr): (r: seq<byte>)
    requires hdr.csumStart <= |input| && CsumAt(hdr) + 2 <= |input|
    ensures |r| == |input|
  {
    var z := Put16(input, CsumAt(hdr), 0);
    Put16(z, CsumAt(hdr), 0xffff - Fold(Get16(input, CsumAt(hdr)) + WordSum(z[hdr.csumStart..])))
  }

  /** The value found in the field, usually the pseudo-header sum, and the stored complement make the total verify. */
  lemma NoneVerifies(input: seq<byte>, hdr: VirtioNetHdr)
    requires hdr.csumStart + hdr.csumOffset + 2 <= |input| <= 0xffff && hdr.csumOffset % 2 == 0
    ensures Fold(Get16(input, CsumAt(hdr)) + WordSum(NoneChecked(input, hdr)[hdr.csumStart..])) == 0xffff
  {
    hide Fold, WordSum;
    var at, z, initial := CsumAt(hdr), Put16(input, CsumAt(hdr), 0), Get16(input, CsumAt(hdr));
    var t := z[hdr.csumStart..];
    var v := 0xffff - Fold(initial + WordSum(t));
    assert Put16(z, at, v)[hdr.csumStart..] == Put16(t, hdr.csumOffset, v);
    StoredChecksumVerifies(t, hdr.csumOffset, initial);
  }

  /** gsoNoneChecksum. */
  method NoneChecksum(host: Host, input: array<byte>, hdr: VirtioNetHdr)
    requires hdr.csumStart <= input.Length && CsumAt(hdr) + 2 <= input.Length
    modifies input
    ensures input[..] == NoneChecked(old(input[..]), hdr)
  {
    hide Fold, WordSum, Get16, Put16;
    var at := CsumAt(hdr);
    var initial := Get16(input[..], at);
    PutUint16(input, at, 0);
    assert input[hdr.csumStart..] == input[..][hdr.csumStart..];
    var sum := Checksum16(host, input[hdr.csumStart..], initial);
    PutUint16(input, at, 0xffff - sum);
  }

  // ---------------------------------------------------------------------------------------------
  // The whole read.

  /** What the source needs of its arguments: the packet, and buffers with room for any segment of it. */
  ghost predicate Prepared(input: seq<byte>, hdr: VirtioNetHdr, lengths: seq<nat>, off: nat) {
    && |lengths| > 0 && off <= lengths[0] && 0 < |input| <= 0xffff
    && (hdr.gsoType.GsoNone? && hdr.needsCsum ==> hdr.csumStart <= |input| && CsumAt(hdr) + 2 <= |input|)
    && (ReadChecks(input, hdr).Some? ==>
        && MinIpLen(input[0] / 16 == 6) <= |input|
        && forall k :: 0 <= k < |lengths| ==> off + Room(|input|, ReadChecks(input, hdr).value) <= lengths[k])
  }

  ghost function Lengths(bufs: seq<array<byte>>): (r: seq<nat>)
    ensures |r| == |bufs| && forall k :: 0 <= k < |bufs| ==> r[k] == bufs[k].Length
  {
    seq(|bufs|, k requires 0 <= k < |bufs| => bufs[k].Length)
  }

  /**
   A packet without segmentation is copied, its checksum completed if asked for. Any other is refused by the checks,
   or split; then every segment carries its slice of the packet's payload if what is cleared lies before it, and
   passes checksumValid if the checksum offset is good.
   */
  method HandleVirtioRead(host: Host, input: array<byte>, hdr: VirtioNetHdr, bufs: seq<array<byte>>, sizes: array<nat>,
                          off: nat)
    returns (n: int, ok: bool)
    requires Prepared(input[..], hdr, Lengths(bufs), off) && |bufs| <= sizes.Length
    requires forall k :: 0 <= k < |bufs| ==> bufs[k] != input
    requires forall j, k :: 0 <= j < k < |bufs| ==> bufs[j] != bufs[k]
    modifies input, sizes, bufs
    ensures hdr.gsoType.GsoNone? ==>
        var x := if hdr.needsCsum then NoneChecked(old(input[..]), hdr) else old(input[..]);
        && (ok <==> off + |x| <= bufs[0].Length)
        && (ok ==> n == 1 && sizes[0] == |x| && bufs[0][..] == Paste(old(bufs[0][..]), off, x))
    ensures !hdr.gsoType.GsoNone? && ReadChecks(old(input[..]), hdr).None? ==> !ok && n == 0
    ensures !hdr.gsoType.GsoNone? && ReadChecks(old(input[..]), hdr).Some? ==>
      var x, h := old(input[..]), ReadChecks(old(input[..]), hdr).value;
      var isV6 := x[0] / 16 == 6;
      && (ok <==> |x| <= SegmentStart(h, |bufs|))
      && (ok ==> 0 <= n <= |bufs| && SegmentStart(h, n) >= |x| && (n > 0 ==> SegmentStart(h, n - 1) < |x|))
      && forall k :: 0 <= k < (if ok then n else |bufs|) ==>
        Sent(x, h, isV6, old(bufs[k][..]), bufs[k][..], sizes[k], off, k)
  {
    hide Splittable, SegmentStart, Written, Sent, Room, SplitReady, ReadChecks;
    ghost var x := input[..];
    if hdr.gsoType.GsoNone? {
      if hdr.needsCsum { NoneChecksum(host, input, hdr); }
      if input.Length > bufs[0].Length - off { return 0, false; }
      CopyAt(bufs[0], off, input[..]);
      sizes[0] := input.Length;
      return 1, true;
    }
    var h := ReadChecks(input[..], hdr);
    if h.None? { return 0, false; }
    var isV6 := input[0] / 16 == 6;
    ChecksEstablishSplittable(x, hdr);
    n, ok := GsoSplit(host, input, h.value, bufs, sizes, off, isV6);
    forall k | 0 <= k < (if ok then n else |bufs|)
      ensures Sent(x, h.value, isV6, old(bufs[k][..]), bufs[k][..], sizes[k], off, k)
    {
      WrittenIsSent(x, h.value, isV6, old(bufs[k][..]), bufs[k][..], sizes[k], off, k);
    }
  }

  /** Segment k of packet x as it is handed on. */
  ghost predicate Sent(x: seq<byte>, h: VirtioNetHdr, isV6: bool, before: seq<byte>, after: seq<byte>, size: nat,
                       off: nat, k: nat) {
    && Splittable(x, h, isV6) && SegmentStart(h, k) <= |x|
    && Written(before, after, size, Cleared(x, h, isV6), h, isV6, off, k)
    && off + size <= |after|
    && (KeepsPayload(h, isV6) ==> after[off + h.hdrLen..off + size] == SegmentPayload(x, h, k))
    && (SplitReady(x, h, isV6) ==> after == Paste(before, off, Segment(Cleared(x, h, isV6), h, isV6, k)))
    && (SplitReady(x, h, isV6) && h.gsoSize > 0 && SegmentStart(h, k) < |x| && GoodOffset(x, h) ==>
        ChecksumValid(after[off..off + size], h.csumStart, Protocol(h), isV6))
  }

  // ---------------------------------------------------------------------------------------------
  // Checksums.

  /**
   The exact condition on the checksum offset: even, and over no rewritten field that is left with a value. UDP
   rewrites its length; TCP its sequence number, one half of which has then been cleared.
   */
  predicate GoodOffset(x: seq<byte>, h: VirtioNetHdr)
    requires h.gsoSize > 0 && h.csumStart + MinTransportLen(h) <= h.hdrLen <= |x|
  {
    && h.csumOffset % 2 == 0
    && if IsTcp(h) then
         && (h.csumOffset == 4 ==> Get16(x, h.csumStart + 6) + h.gsoSize * (SegmentCount(|x|, h) - 1) < 0x1_0000)
         && (h.csumOffset == 6 ==> SegmentCount(|x|, h) <= 1)
       else h.csumOffset != 4
  }

  ghost predicate AllVerify(x: seq<byte>, h: VirtioNetHdr, isV6: bool) {
    && SplitReady(x, h, isV6)
    && forall i: nat :: SegmentStart(h, i) < |x| ==> Verifies(x, h, isV6, i)
  }

  ghost predicate Verifies(x: seq<byte>, h: VirtioNetHdr, isV6: bool, i: nat)
    requires SplitReady(x, h, isV6) && SegmentStart(h, i) <= |x|
  {
    ChecksumValid(Segment(Cleared(x, h, isV6), h, isV6, i), h.csumStart, Protocol(h), isV6)
  }

  /** The segments of a packet are those numbered below the count. */
  lemma LastSegment(len: nat, h: VirtioNetHdr)
    requires h.gsoSize > 0 && h.hdrLen < len
    ensures SegmentCount(len, h) >= 1 && SegmentStart(h, SegmentCount(len, h) - 1) < len
    ensures forall i: nat :: SegmentStart(h, i) < len ==> i <= SegmentCount(len, h) - 1
  {
    FirstSegment(h);
    hide SegmentCount, SegmentStart;
    var n := FirstBeyond(len, h, 0);
    CountIsCeiling(len, h, n);
    forall i: nat | SegmentStart(h, i) < len ensures i <= n - 1 {
      if i >= n { StartMonotone(h, n, i); }
    }
  }

  lemma FirstBeyond(len: nat, h: VirtioNetHdr, from: nat) returns (n: nat)
    requires h.gsoSize > 0 && SegmentStart(h, from) < len
    ensures n > from && SegmentStart(h, n - 1) < len <= SegmentStart(h, n)
    decreases len - SegmentStart(h, from)
  {
    SegmentStartNext(h, from);
    if SegmentStart(h, from + 1) >= len {
      n := from + 1;
    } else {
      n := FirstBeyond(len, h, from + 1);
    }
  }

  /** A good offset leaves no value under the checksum of any segment; and the last one shows it. */
  lemma GoodIsClear(x: seq<byte>, h: VirtioNetHdr, isV6: bool, last: nat)
    requires SplitReady(x, h, isV6) && h.gsoSize > 0 && h.hdrLen < |x| && h.csumOffset % 2 == 0
    requires last + 1 == SegmentCount(|x|, h)
    ensures GoodOffset(x, h) ==> forall i: nat :: SegmentStart(h, i) < |x| ==> FieldsClear(x, h, i)
    ensures FieldsClear(x, h, last) ==> GoodOffset(x, h)
  {
    hide SegmentCount, SegmentStart, Get16;
    LastSegment(|x|, h);
    forall i: nat | SegmentStart(h, i) < |x| && GoodOffset(x, h) ensures FieldsClear(x, h, i) {
      Monotone(h.gsoSize, i, last);
    }
    NoProduct(h.gsoSize, last);
  }

  lemma Monotone(g: nat, i: nat, j: nat)
    requires i <= j
    ensures g * i <= g * j
  {
  }

  lemma NoProduct(g: nat, i: nat)
    requires g > 0
    ensures g * i == 0 ==> i == 0
  {
  }

  /**
   For a packet whose checksum field lies in its transport header: every segment passes checksumValid, whatever the
   payload, exactly when the offset is good.
   */
  lemma VerifiesExactly(x: seq<byte>, h: VirtioNetHdr, isV6: bool)
    requires SplitReady(x, h, isV6) && h.gsoSize > 0 && h.hdrLen < |x|
    ensures (forall p: seq<byte> :: |p| == |x| - h.hdrLen ==> AllVerify(x[..h.hdrLen] + p, h, isV6)) <==>
      GoodOffset(x, h)
  {
    HeaderFits(x, h, isV6);
    hide AllVerify, GoodOffset, SplitReady;
    if GoodOffset(x, h) {
      forall p: seq<byte> | |p| == |x| - h.hdrLen ensures AllVerify(x[..h.hdrLen] + p, h, isV6) {
        GoodVerifies(x, h, isV6, p);
      }
    } else {
      var p := BadFails(x, h, isV6);
      assert !AllVerify(x[..h.hdrLen] + p, h, isV6);
    }
  }

  /** The payload has no part in the condition. */
  lemma SameOffset(x: seq<byte>, h: VirtioNetHdr, isV6: bool, p: seq<byte>)
    requires SplitReady(x, h, isV6) && h.gsoSize > 0 && |p| == |x| - h.hdrLen
    ensures SplitReady(x[..h.hdrLen] + p, h, isV6)
    ensures GoodOffset(x[..h.hdrLen] + p, h) <==> GoodOffset(x, h)
  {
    hide SegmentCount;
    var y := x[..h.hdrLen] + p;
    assert IsTcp(h) ==> Get16(y, h.csumStart + 6) == Get16(x, h.csumStart + 6);
  }

  lemma GoodVerifies(x: seq<byte>, h: VirtioNetHdr, isV6: bool, p: seq<byte>)
    requires SplitReady(x, h, isV6) && h.gsoSize > 0 && h.hdrLen < |x| && |p| == |x| - h.hdrLen && GoodOffset(x, h)
    ensures AllVerify(x[..h.hdrLen] + p, h, isV6)
  {
    hide SplitReady, SegmentStart, SegmentCount, FieldsClear, ChecksumValid, Segment, Cleared;
    var y := x[..h.hdrLen] + p;
    SameOffset(x, h, isV6, p);
    LastSegment(|y|, h);
    GoodIsClear(y, h, isV6, SegmentCount(|y|, h) - 1);
    forall i: nat | SegmentStart(h, i) < |y| ensures Verifies(y, h, isV6, i) {
      SegmentVerifies(y, h, isV6, i);
    }
  }

  lemma BadFails(x: seq<byte>, h: VirtioNetHdr, isV6: bool) returns (p: seq<byte>)
    requires SplitReady(x, h, isV6) && h.gsoSize > 0 && h.hdrLen < |x| && !GoodOffset(x, h)
    ensures |p| == |x| - h.hdrLen && !AllVerify(x[..h.hdrLen] + p, h, isV6)
  {
    hide SplitReady, SegmentStart, SegmentCount, FieldsClear, ChecksumValid, Segment, Cleared;
    p := x[h.hdrLen..];
    assert x[..h.hdrLen] + p == x;
    LastSegment(|x|, h);
    if h.csumOffset % 2 == 0 {
      GoodIsClear(x, h, isV6, SegmentCount(|x|, h) - 1);
      SegmentVerifies(x, h, isV6, SegmentCount(|x|, h) - 1);
      assert !Verifies(x, h, isV6, SegmentCount(|x|, h) - 1);
    } else {
      FirstSegment(h);
      var y: byte := if x[h.hdrLen] == 255 then 254 else x[h.hdrLen] + 1;
      OddOffsetFails(x, h, isV6, 0, y);
      var p' := p[0 := y];
      assert x[..h.hdrLen] + p' == x[h.hdrLen := y];
      if AllVerify(x, h, isV6) {
        assert Verifies(x, h, isV6, 0);
        assert AllVerify(x[h.hdrLen := y], h, isV6) ==> Verifies(x[h.hdrLen := y], h, isV6, 0);
        p := p';
      }
    }
  }

  // ---------------------------------------------------------------------------------------------
  // Payload.

  /** If what is cleared lies before the payload, the bytes written behind the header are the packet's slice. */
  lemma PayloadWritten(b: seq<byte>, off: nat, x: seq<byte>, h: VirtioNetHdr, isV6: bool, k: nat)
    requires Splittable(x, h, isV6) && SegmentStart(h, k) <= |x| && off + Room(|x|, h) <= |b| && KeepsPayload(h, isV6)
    ensures h.hdrLen + |SegmentPayload(x, h, k)| <= Room(|x|, h)
    ensures
      var from := off + h.hdrLen;
      SegmentWritten(b, off, Cleared(x, h, isV6), h, isV6, k)[from..from + |SegmentPayload(x, h, k)|]
      == SegmentPayload(x, h, k)
  {
    hide IpWritten, TransportBare, SegmentStart, Room, SegmentWritten, Cleared, SegmentPayload, Paste, Put16, StoredSum,
      CsumAt;
    ClearedPayload(x, h, isV6, k);
    var c := Cleared(x, h, isV6);
    RoomCovers(c, h, isV6, k);
    Stages(b, off, c, h, isV6, k);
    var t, from := TransportBare(c, h, k), off + h.hdrLen;
    BareTail(c, h, k);
    var b1 := IpWritten(b, off, c, h, isV6, k, h.csumStart + |t|);
    PasteTail(b1, off + h.csumStart, t, h.hdrLen - h.csumStart);
    PutRight(Paste(b1, off + h.csumStart, t), off + CsumAt(h), StoredSum(c, h, isV6, t), from,
             from + |SegmentPayload(x, h, k)|);
  }

  /** The clearing stays in front of the payload. */
  lemma ClearedPayload(x: seq<byte>, h: VirtioNetHdr, isV6: bool, k: nat)
    requires Splittable(x, h, isV6) && SegmentStart(h, k) <= |x| && KeepsPayload(h, isV6)
    ensures SegmentPayload(Cleared(x, h, isV6), h, k) == SegmentPayload(x, h, k)
    ensures CsumAt(h) + 2 <= h.hdrLen
  {
    hide SegmentStart;
    StartMonotone(h, 0, k);
    FirstSegment(h);
  }

  lemma BareTail(c: seq<byte>, h: VirtioNetHdr, k: nat)
    requires SegmentStart(h, k) <= |c| && h.csumStart + MinTransportLen(h) <= h.hdrLen
    ensures TransportBare(c, h, k)[h.hdrLen - h.csumStart..] == SegmentPayload(c, h, k)
  {
    hide SegmentStart, SegmentPayload, TransportFields;
    var p := SegmentPayload(c, h, k);
    FieldsKeepPayload(c[h.csumStart..h.hdrLen], p, h, k, SegmentStart(h, k) + |p| == |c|);
  }

  lemma PasteTail(b: seq<byte>, at: nat, x: seq<byte>, d: nat)
    requires at + |x| <= |b| && d <= |x|
    ensures Paste(b, at, x)[at + d..at + |x|] == x[d..]
  {
  }

  lemma PutRight(b: seq<byte>, at: nat, v: u16, from: nat, to: nat)
    requires at + 2 <= from <= to <= |b|
    ensures Put16(b, at, v)[from..to] == b[from..to]
  {
  }

  lemma WrittenIsSent(x: seq<byte>, h: VirtioNetHdr, isV6: bool, before: seq<byte>, after: seq<byte>, size: nat,
                      off: nat, k: nat)
    requires Splittable(x, h, isV6)
    requires Written(before, after, size, Cleared(x, h, isV6), h, isV6, off, k)
    ensures Sent(x, h, isV6, before, after, size, off, k)
  {
    hide Splittable, SplitReady, SegmentStart, SegmentPayload, SegmentWritten, Segment, Cleared, Room, KeepsPayload,
      GoodOffset;
    hide ChecksumValid, FieldsClear, SegmentCount;
    var c := Cleared(x, h, isV6);
    SameLength(x, c, h, k);
    SegmentFits(c, h, k);
    if KeepsPayload(h, isV6) { PayloadWritten(before, off, x, h, isV6, k); }
    if SplitReady(x, h, isV6) {
      HeaderFits(x, h, isV6);
      ReadyCleared(x, h, isV6);
      WrittenIsSegment(before, off, c, h, isV6, k);
      PasteWindow(before, off, Segment(c, h, isV6, k));
      if h.gsoSize > 0 && SegmentStart(h, k) < |x| && GoodOffset(x, h) {
        StartMonotone(h, 0, k);
        FirstSegment(h);
        EvenOffset(x, h);
        LastSegment(|x|, h);
        GoodIsClear(x, h, isV6, SegmentCount(|x|, h) - 1);
        SegmentVerifies(x, h, isV6, k);
      }
    }
  }

  lemma ReadyCleared(x: seq<byte>, h: VirtioNetHdr, isV6: bool)
    requires SplitReady(x, h, isV6)
    ensures Splittable(x, h, isV6) && SplitReady(Cleared(x, h, isV6), h, isV6)
  {
  }

  lemma EvenOffset(x: seq<byte>, h: VirtioNetHdr)
    requires h.gsoSize > 0 && h.csumStart + MinTransportLen(h) <= h.hdrLen <= |x| && GoodOffset(x, h)
    ensures h.csumOffset % 2 == 0
  {
  }

  /** The buffers have room for any segment of a packet of this length. */
  ghost predicate Roomy(bufs: seq<seq<byte>>, off: nat, len: nat, h: VirtioNetHdr) {
    forall k :: 0 <= k < |bufs| ==> off + Room(len, h) <= |bufs[k]|
  }

  ghost predicate PayloadKept(b: seq<byte>, off: nat, x: seq<byte>, h: VirtioNetHdr, isV6: bool, k: nat)
    requires Splittable(x, h, isV6) && SegmentStart(h, k) <= |x| && off + Room(|x|, h) <= |b|
  {
    var p := SegmentPayload(x, h, k);
    && off + h.hdrLen + |p| <= |b|
    && SegmentWritten(b, off, Cleared(x, h, isV6), h, isV6, k)[off + h.hdrLen..off + h.hdrLen + |p|] == p
  }

  /** Every segment carries its slice of the packet's payload. */
  ghost predicate Conserves(bufs: seq<seq<byte>>, off: nat, x: seq<byte>, h: VirtioNetHdr, isV6: bool) {
    && Splittable(x, h, isV6) && Roomy(bufs, off, |x|, h)
    && forall k :: 0 <= k < |bufs| && SegmentStart(h, k) < |x| ==> PayloadKept(bufs[k], off, x, h, isV6, k)
  }

  /**
   For every packet that can be split, with enough buffers: the payload is conserved, whatever it is, exactly when the
   cleared checksum fields lie before it. The IPv4 one is at bytes 10 and 11, the other where the header says.
   */
  lemma PayloadExactly(bufs: seq<seq<byte>>, off: nat, x: seq<byte>, h: VirtioNetHdr, isV6: bool)
    requires Splittable(x, h, isV6) && h.gsoSize > 0
    requires Roomy(bufs, off, |x|, h) && |x| <= SegmentStart(h, |bufs|)
    ensures (forall p: seq<byte> :: |p| == |x| - h.hdrLen ==> Conserves(bufs, off, x[..h.hdrLen] + p, h, isV6))
      <==> KeepsPayload(h, isV6)
  {
    hide Conserves, KeepsPayload;
    if KeepsPayload(h, isV6) {
      forall p: seq<byte> | |p| == |x| - h.hdrLen ensures Conserves(bufs, off, x[..h.hdrLen] + p, h, isV6) {
        Kept(bufs, off, x[..h.hdrLen] + p, h, isV6);
      }
    } else {
      var p := LosesPayload(bufs, off, x, h, isV6);
      assert !Conserves(bufs, off, x[..h.hdrLen] + p, h, isV6);
    }
  }

  lemma Kept(bufs: seq<seq<byte>>, off: nat, x: seq<byte>, h: VirtioNetHdr, isV6: bool)
    requires Splittable(x, h, isV6) && Roomy(bufs, off, |x|, h) && KeepsPayload(h, isV6)
    ensures Conserves(bufs, off, x, h, isV6)
  {
    hide Splittable, SegmentStart, SegmentPayload, SegmentWritten, Cleared, Room, KeepsPayload;
    forall k | 0 <= k < |bufs| && SegmentStart(h, k) < |x| ensures PayloadKept(bufs[k], off, x, h, isV6, k) {
      PayloadWritten(bufs[k], off, x, h, isV6, k);
    }
  }

  /** A cleared byte that belongs to the payload. */
  function LostByte(h: VirtioNetHdr): nat {
    if CsumAt(h) + 2 > h.hdrLen then CsumAt(h) + 1 else 11
  }

  lemma LostByteIsCleared(x: seq<byte>, h: VirtioNetHdr, isV6: bool, y: byte)
    requires Splittable(x, h, isV6) && !KeepsPayload(h, isV6)
    ensures h.hdrLen <= LostByte(h) < |x|
    ensures Splittable(x[LostByte(h) := y], h, isV6)
    ensures Cleared(x[LostByte(h) := y], h, isV6) == Cleared(x, h, isV6)
  {
  }

  /** The segment a payload byte belongs to. */
  lemma SegmentOf(h: VirtioNetHdr, q: nat, from: nat) returns (k: nat)
    requires h.gsoSize > 0 && SegmentStart(h, from) <= q
    ensures SegmentStart(h, k) <= q < SegmentStart(h, k) + h.gsoSize
    decreases q - SegmentStart(h, from)
  {
    SegmentStartNext(h, from);
    if q < SegmentStart(h, from) + h.gsoSize {
      k := from;
    } else {
      k := SegmentOf(h, q, from + 1);
    }
  }

  /** Two packets that differ in a cleared payload byte give the same segments, so one of them loses it. */
  lemma LosesPayload(bufs: seq<seq<byte>>, off: nat, x: seq<byte>, h: VirtioNetHdr, isV6: bool) returns (p: seq<byte>)
    requires Splittable(x, h, isV6) && h.gsoSize > 0 && !KeepsPayload(h, isV6)
    requires Roomy(bufs, off, |x|, h) && |x| <= SegmentStart(h, |bufs|)
    ensures |p| == |x| - h.hdrLen && !Conserves(bufs, off, x[..h.hdrLen] + p, h, isV6)
  {
    hide Splittable, SegmentWritten, Cleared, Room, KeepsPayload, SegmentStart, LostByte, SegmentPayload;
    FirstSegment(h);
    var q := LostByte(h);
    LostByteIsCleared(x, h, isV6, 0);
    var y: byte := if x[q] == 0 then 1 else 0;
    LostByteIsCleared(x, h, isV6, y);
    var x' := x[q := y];
    var k := SegmentOf(h, q, 0);
    if k >= |bufs| { StartMonotone(h, |bufs|, k); }
    PayloadDiffers(x, h, k, q, y);
    p := x[h.hdrLen..];
    assert x[..h.hdrLen] + p == x;
    var p' := x'[h.hdrLen..];
    assert x[..h.hdrLen] + p' == x';
    if Conserves(bufs, off, x, h, isV6) {
      assert PayloadKept(bufs[k], off, x, h, isV6, k);
      assert Conserves(bufs, off, x', h, isV6) ==> PayloadKept(bufs[k], off, x', h, isV6, k);
      p := p';
    }
  }

  lemma PayloadDiffers(x: seq<byte>, h: VirtioNetHdr, k: nat, q: nat, y: byte)
    requires SegmentStart(h, k) <= q < SegmentStart(h, k) + h.gsoSize && q < |x| && x[q] != y
    ensures SegmentPayload(x[q := y], h, k) != SegmentPayload(x, h, k)
    ensures |SegmentPayload(x[q := y], h, k)| == |SegmentPayload(x, h, k)|
  {
    hide SegmentStart;
    var at := q - SegmentStart(h, k);
    assert SegmentPayload(x[q := y], h, k)[at] == y && SegmentPayload(x, h, k)[at] == x[q];
  }

  /** With a header of at most ten bytes, bytes 10 and 11 of an IPv4 packet reach the first segment as zeroes. */
  lemma ShortHeaderZeroes(b: seq<byte>, off: nat, x: seq<byte>, h: VirtioNetHdr)
    requires Splittable(x, h, false) && off + Room(|x|, h) <= |b|
    requires h.hdrLen <= 10 && h.hdrLen + h.gsoSize >= 12 && CsumAt(h) + 2 <= 10
    ensures SegmentStart(h, 0) == h.hdrLen
    ensures var w := SegmentWritten(b, off, Cleared(x, h, false), h, false, 0); w[off + 10] == 0 && w[off + 11] == 0
  {
    hide IpWritten, FieldsWritten, TransportSum;
    SegmentFits(x, h, 0);
    var c := Cleared(x, h, false);
    assert c[10] == 0 && c[11] == 0;
  }

  /** Such a packet passes the checks: a UDP header said to start at the first byte. */
  lemma ChecksAdmitShortHeader()
    ensures exists x: seq<byte>, hdr ::
      && |x| == 28 && x[0] / 16 == 4 && x[10] != 0 && x[11] != 0
      && ReadChecks(x, hdr).Some?
      && var h := ReadChecks(x, hdr).value;
        && Splittable(x, h, false) && h.hdrLen <= 10 && h.hdrLen + h.gsoSize >= 12 && CsumAt(h) + 2 <= 10
  {
    var x: seq<byte> := [0x45, 0, 0, 28, 0, 0, 0, 0, 64, 17, 1, 1] + seq(16, _ => 0);
    var hdr := VirtioNetHdr(true, GsoUdpL4, 0, 4, 0, 6);
    assert ReadChecks(x, hdr) == Some(hdr.(hdrLen := 8));
  }

  // ---------------------------------------------------------------------------------------------
  // The network header.

  ghost function NetworkHeader(b: seq<byte>, off: nat, x: seq<byte>, h: VirtioNetHdr, isV6: bool, k: nat): seq<byte>
    requires Splittable(x, h, isV6) && SegmentStart(h, k) <= |x| && off + Room(|x|, h) <= |b|
  {
    SegmentFits(x, h, k);
    SegmentWritten(b, off, Cleared(x, h, isV6), h, isV6, k)[off..off + h.csumStart]
  }

  /**
   The network header of a segment is independent of the payload exactly when the checksum field, in 16-bit arithmetic,
   does not fall in front of the transport header.
   */
  lemma NetworkHeaderExactly(b: seq<byte>, off: nat, x: seq<byte>, h: VirtioNetHdr, isV6: bool, k: nat)
    requires Splittable(x, h, isV6) && KeepsPayload(h, isV6) && h.csumStart >= MinIpLen(isV6)
    requires (h.hdrLen - h.csumStart) % 2 == 0 && h.gsoSize > 0 && SegmentStart(h, k) < |x| && off + Room(|x|, h) <= |b|
    ensures (forall p: seq<byte>, p': seq<byte> {:trigger x[..h.hdrLen] + p, x[..h.hdrLen] + p'} ::
        |p| == |p'| == |x| - h.hdrLen ==>
          NetworkHeader(b, off, x[..h.hdrLen] + p, h, isV6, k) == NetworkHeader(b, off, x[..h.hdrLen] + p', h, isV6, k))
      <==> CsumAt(h) >= h.csumStart
  {
    hide NetworkHeader, SegmentStart, Room;
    if CsumAt(h) >= h.csumStart {
      forall p: seq<byte>, p': seq<byte> | |p| == |p'| == |x| - h.hdrLen
        ensures NetworkHeader(b, off, x[..h.hdrLen] + p, h, isV6, k) ==
          NetworkHeader(b, off, x[..h.hdrLen] + p', h, isV6, k)
      {
        HeaderUnaffected(b, off, x[..h.hdrLen] + p, x[..h.hdrLen] + p', h, isV6, k);
      }
    } else {
      var at := SegmentStart(h, k);
      var y: byte := if x[at] == 255 then 254 else x[at] + 1;
      StartMonotone(h, 0, k);
      FirstSegment(h);
      HeaderAffected(b, off, x, h, isV6, k, y);
      var p, p' := x[h.hdrLen..], x[at := y][h.hdrLen..];
      assert x[..h.hdrLen] + p == x && x[..h.hdrLen] + p' == x[at := y];
    }
  }

  lemma HeaderUnaffected(b: seq<byte>, off: nat, x: seq<byte>, y: seq<byte>, h: VirtioNetHdr, isV6: bool, k: nat)
    requires Splittable(x, h, isV6) && |y| == |x| && y[..h.hdrLen] == x[..h.hdrLen]
    requires SegmentStart(h, k) <= |x| && off + Room(|x|, h) <= |b| && KeepsPayload(h, isV6) && CsumAt(h) >= h.csumStart
    ensures Splittable(y, h, isV6) && NetworkHeader(b, off, x, h, isV6, k) == NetworkHeader(b, off, y, h, isV6, k)
  {
    hide IpWritten, SegmentStart, Room, SegmentPayload, Cleared, SegmentWritten, CsumAt, KeepsPayload;
    RoomCovers(x, h, isV6, k);
    SamePrefix(x, y, h, isV6);
    hide Splittable;
    var c, d := Cleared(x, h, isV6), Cleared(y, h, isV6);
    SameLength(x, c, h, k);
    SameLength(x, d, h, k);
    var len := h.hdrLen + |SegmentPayload(x, h, k)|;
    HeaderIsIp(b, off, c, h, isV6, k, len);
    HeaderIsIp(b, off, d, h, isV6, k, len);
    SameIp(b, off, c, d, h, isV6, k, len);
  }

  lemma SamePrefix(x: seq<byte>, y: seq<byte>, h: VirtioNetHdr, isV6: bool)
    requires Splittable(x, h, isV6) && |y| == |x| && y[..h.hdrLen] == x[..h.hdrLen] && KeepsPayload(h, isV6)
    ensures Splittable(y, h, isV6)
    ensures Cleared(x, h, isV6)[..h.csumStart] == Cleared(y, h, isV6)[..h.csumStart]
  {
    assert forall i :: 0 <= i < h.hdrLen ==> x[..h.hdrLen][i] == y[..h.hdrLen][i];
  }

  lemma SameIp(b: seq<byte>, off: nat, c: seq<byte>, d: seq<byte>, h: VirtioNetHdr, isV6: bool, k: nat, len: u16)
    requires h.csumStart <= |c| && h.csumStart <= |d| && c[..h.csumStart] == d[..h.csumStart]
    requires h.csumStart <= len && off + h.csumStart <= |b| && off + 12 <= |b|
    ensures IpWritten(b, off, c, h, isV6, k, len) == IpWritten(b, off, d, h, isV6, k, len)
  {
    hide Paste, Put16, Get16, Fold, WordSum;
  }

  lemma RoomCovers(c: seq<byte>, h: VirtioNetHdr, isV6: bool, k: nat)
    requires Splittable(c, h, isV6) && SegmentStart(h, k) <= |c|
    ensures h.csumStart <= h.hdrLen && h.hdrLen + |SegmentPayload(c, h, k)| <= Room(|c|, h)
    ensures CsumAt(h) + 2 <= Room(|c|, h) && 20 <= Room(|c|, h)
    ensures h.hdrLen + |SegmentPayload(c, h, k)| <= 0xffff && MinIpLen(isV6) <= |c|
    ensures h.csumStart + MinTransportLen(h) <= h.hdrLen
  {
    hide SegmentStart;
    StartMonotone(h, 0, k);
    FirstSegment(h);
  }

  /** The checksum stored over transport part t. */
  function StoredSum(c: seq<byte>, h: VirtioNetHdr, isV6: bool, t: seq<byte>): u16
    requires MinIpLen(isV6) <= |c| && |t| <= 0xffff
  {
    0xffff - Fold(PseudoOf(c, Protocol(h), isV6, |t|) + WordSum(t))
  }

  /** A segment in three stages: the network header, the transport part behind it, the checksum on top. */
  lemma Stages(b: seq<byte>, off: nat, c: seq<byte>, h: VirtioNetHdr, isV6: bool, k: nat)
    requires Splittable(c, h, isV6) && SegmentStart(h, k) <= |c| && off + Room(|c|, h) <= |b|
    ensures h.csumStart + MinTransportLen(h) <= h.hdrLen && MinIpLen(isV6) <= |c|
    ensures var t := TransportBare(c, h, k);
      && h.csumStart + |t| <= 0xffff && off + h.csumStart + |t| <= |b| && off + CsumAt(h) + 2 <= |b| && off + 20 <= |b|
      && SegmentWritten(b, off, c, h, isV6, k) ==
         Put16(Paste(IpWritten(b, off, c, h, isV6, k, h.csumStart + |t|), off + h.csumStart, t), off + CsumAt(h),
               StoredSum(c, h, isV6, t))
  {
    hide IpWritten, SegmentStart, Room, SegmentPayload, TransportFields, Fold, WordSum, PseudoOf, Paste, CsumAt,
      TransportWritten, Put16, Splittable, MinTransportLen, Represents;
    RoomCovers(c, h, isV6, k);
    var b1 := IpWritten(b, off, c, h, isV6, k, h.hdrLen + |SegmentPayload(c, h, k)|);
    TransportWrittenIsPart(b1, off, c, h, k);
    PasteWindow(b1, off + h.csumStart, TransportBare(c, h, k));
  }

  /** Nothing written after the network header reaches back into it. */
  lemma HeaderIsIp(b: seq<byte>, off: nat, c: seq<byte>, h: VirtioNetHdr, isV6: bool, k: nat, len: u16)
    requires Splittable(c, h, isV6) && SegmentStart(h, k) <= |c| && off + Room(|c|, h) <= |b|
    requires CsumAt(h) >= h.csumStart
    requires len == h.hdrLen + |SegmentPayload(c, h, k)|
    ensures off + h.csumStart <= |b| && off + 12 <= |b| && h.csumStart <= |c| && h.csumStart <= len
    ensures SegmentWritten(b, off, c, h, isV6, k)[off..off + h.csumStart]
      == IpWritten(b, off, c, h, isV6, k, len)[off..off + h.csumStart]
  {
    hide IpWritten, SegmentStart, Room, SegmentPayload, TransportBare, StoredSum, Paste, CsumAt, Put16, SegmentWritten;
    Stages(b, off, c, h, isV6, k);
    var t := TransportBare(c, h, k);
    var b1 := IpWritten(b, off, c, h, isV6, k, h.csumStart + |t|);
    PasteLeft(b1, off + h.csumStart, t);
    var b2 := Paste(b1, off + h.csumStart, t);
    PutLeft(b2, off + CsumAt(h), StoredSum(c, h, isV6, t), off + h.csumStart);
    SliceOfTake(b1, off, off + h.csumStart);
    SliceOfTake(SegmentWritten(b, off, c, h, isV6, k), off, off + h.csumStart);
  }

  lemma PasteLeft(b: seq<byte>, at: nat, x: seq<byte>)
    requires at + |x| <= |b|
    ensures Paste(b, at, x)[..at] == b[..at]
  {
  }

  lemma PutLeft(b: seq<byte>, at: nat, v: u16, n: nat)
    requires n <= at && at + 2 <= |b|
    ensures Put16(b, at, v)[..n] == b[..n]
  {
  }

  lemma SliceOfTake(b: seq<byte>, i: nat, j: nat)
    requires i <= j <= |b|
    ensures b[i..j] == b[..j][i..]
  {
  }

  /** Otherwise the first byte of the field follows the payload's sum. */
  lemma HeaderAffected(b: seq<byte>, off: nat, x: seq<byte>, h: VirtioNetHdr, isV6: bool, k: nat, y: byte)
    requires Splittable(x, h, isV6) && KeepsPayload(h, isV6) && h.csumStart >= MinIpLen(isV6) && CsumAt(h) < h.csumStart
    requires (h.hdrLen - h.csumStart) % 2 == 0 && h.gsoSize > 0 && SegmentStart(h, k) < |x| && off + Room(|x|, h) <= |b|
    requires var z := x[SegmentStart(h, k)]; y as int == z as int + 1 || z as int == y as int + 1
    ensures var x' := x[SegmentStart(h, k) := y];
      Splittable(x', h, isV6) && NetworkHeader(b, off, x, h, isV6, k) != NetworkHeader(b, off, x', h, isV6, k)
  {
    hide SegmentStart, Room, SegmentPayload, Cleared, WordSum, Fold, PseudoOf, SegmentWritten, NetworkHeader,
      Represents;
    var x' := x[SegmentStart(h, k) := y];
    VariantBare(x, h, isV6, k, y);
    var c, c' := Cleared(x, h, isV6), Cleared(x', h, isV6);
    SameLength(x, c, h, k);
    SameLength(x', c', h, k);
    SegmentFits(c, h, k);
    SegmentFits(c', h, k);
    var t, n := TransportBare(c, h, k), h.hdrLen - h.csumStart;
    FieldFollows(b, off, c, h, isV6, k);
    FieldFollows(b, off, c', h, isV6, k);
    WordSumSetByte(t, n, y);
    var pseudo := PseudoOf(c, Protocol(h), isV6, |t|);
    PseudoPositive(c, Protocol(h), isV6, |t|);
    HighByteDiffers(pseudo + WordSum(t), pseudo + WordSum(t[n := y]));
    HeaderAt(b, off, x, h, isV6, k, CsumAt(h));
    HeaderAt(b, off, x', h, isV6, k, CsumAt(h));
  }

  lemma HeaderAt(b: seq<byte>, off: nat, x: seq<byte>, h: VirtioNetHdr, isV6: bool, k: nat, i: nat)
    requires Splittable(x, h, isV6) && SegmentStart(h, k) <= |x| && off + Room(|x|, h) <= |b| && i < h.csumStart
    ensures |NetworkHeader(b, off, x, h, isV6, k)| == h.csumStart
    ensures NetworkHeader(b, off, x, h, isV6, k)[i] == SegmentWritten(b, off, Cleared(x, h, isV6), h, isV6, k)[off + i]
  {
    hide SegmentWritten, Cleared, Room, SegmentStart;
    SegmentFits(x, h, k);
  }

  /** The first byte of the stored checksum, in terms of the transport part. */
  lemma FieldFollows(b: seq<byte>, off: nat, c: seq<byte>, h: VirtioNetHdr, isV6: bool, k: nat)
    requires Splittable(c, h, isV6) && SegmentStart(h, k) <= |c| && off + Room(|c|, h) <= |b|
    ensures var t := TransportBare(c, h, k);
      && h.csumStart + |t| <= 0xffff && off + CsumAt(h) < |b|
      && SegmentWritten(b, off, c, h, isV6, k)[off + CsumAt(h)] == StoredSum(c, h, isV6, t) / 256
  {
    hide IpWritten, SegmentStart, Room, TransportBare, StoredSum, Paste, CsumAt, SegmentWritten;
    Stages(b, off, c, h, isV6, k);
  }

  lemma HighByteDiffers(y: nat, y': nat)
    requires y > 0 && y' > 0 && (y' == y + 256 || y == y' + 256)
    ensures (0xffff - Fold(y)) / 256 != (0xffff - Fold(y')) / 256
  {
    if y' < y {
      HighByteDiffers(y', y);
    } else {
      var q := (y - 1) / 0xffff;
      assert Fold(y) == y - 0xffff * q;
      assert Fold(y') == if Fold(y) + 256 <= 0xffff then Fold(y) + 256 else Fold(y) + 256 - 0xffff;
    }
  }

  // ---------------------------------------------------------------------------------------------
  // All three together.

  /** What is handed on as segment k carries its payload slice and passes checksumValid. */
  ghost predicate SegmentRight(b: seq<byte>, off: nat, x: seq<byte>, h: VirtioNetHdr, isV6: bool, k: nat)
    requires Splittable(x, h, isV6) && SegmentStart(h, k) <= |x| && off + Room(|x|, h) <= |b|
    requires MinIpLen(isV6) <= h.csumStart
  {
    && PayloadKept(b, off, x, h, isV6, k)
    && ChecksumValid(Handed(b, off, x, h, isV6, k), h.csumStart, Protocol(h), isV6)
  }

  ghost function Handed(b: seq<byte>, off: nat, x: seq<byte>, h: VirtioNetHdr, isV6: bool, k: nat): (r: seq<byte>)
    requires Splittable(x, h, isV6) && SegmentStart(h, k) <= |x| && off + Room(|x|, h) <= |b|
    ensures |r| >= h.hdrLen >= h.csumStart
  {
    RoomCovers(x, h, isV6, k);
    SegmentWritten(b, off, Cleared(x, h, isV6), h, isV6, k)[off..off + h.hdrLen + |SegmentPayload(x, h, k)|]
  }

  /** Every segment is right, and has the network header it has for packet y. */
  ghost predicate AllRight(bufs: seq<seq<byte>>, off: nat, x: seq<byte>, y: seq<byte>, h: VirtioNetHdr, isV6: bool) {
    && Splittable(x, h, isV6) && |y| == |x| && MinIpLen(isV6) <= h.csumStart && Roomy(bufs, off, |x|, h)
    && forall k :: 0 <= k < |bufs| && SegmentStart(h, k) < |x| ==>
      && SegmentRight(bufs[k], off, x, h, isV6, k)
      && NetworkHeader(bufs[k], off, x, h, isV6, k) == NetworkHeader(bufs[k], off, y, h, isV6, k)
  }

  lemma HandedIsSegment(b: seq<byte>, off: nat, x: seq<byte>, h: VirtioNetHdr, isV6: bool, k: nat)
    requires Splittable(x, h, isV6) && SplitReady(x, h, isV6) && SegmentStart(h, k) <= |x| && off + Room(|x|, h) <= |b|
    ensures Handed(b, off, x, h, isV6, k) == Segment(Cleared(x, h, isV6), h, isV6, k)
  {
    hide SplitReady, Splittable, SegmentStart, SegmentPayload, SegmentWritten, Segment, Cleared, Room, Paste;
    var c := Cleared(x, h, isV6);
    ReadyCleared(x, h, isV6);
    SameLength(x, c, h, k);
    WrittenIsSegment(b, off, c, h, isV6, k);
    RoomCovers(c, h, isV6, k);
    PasteWindow(b, off, Segment(c, h, isV6, k));
  }

  /** Inside the header and not wrapped: the checksum field lies in the transport header. */
  lemma FieldInside(x: seq<byte>, h: VirtioNetHdr, isV6: bool)
    requires Splittable(x, h, isV6) && MinIpLen(isV6) <= h.csumStart
    ensures KeepsPayload(h, isV6) && CsumAt(h) >= h.csumStart <==> SplitReady(x, h, isV6)
  {
  }

  /**
   For a transport header behind a whole network header, with enough buffers: all segments are right for every payload,
   and their network headers do not depend on it, exactly when the checksum field lies before the payload, does not
   wrap, and has a good offset.
   */
  lemma RightExactly(bufs: seq<seq<byte>>, off: nat, x: seq<byte>, h: VirtioNetHdr, isV6: bool)
    requires Splittable(x, h, isV6) && MinIpLen(isV6) <= h.csumStart && (h.hdrLen - h.csumStart) % 4 == 0
    requires h.gsoSize > 0 && h.hdrLen < |x| && Roomy(bufs, off, |x|, h) && |x| <= SegmentStart(h, |bufs|)
    ensures (forall p: seq<byte> :: |p| == |x| - h.hdrLen ==> AllRight(bufs, off, x[..h.hdrLen] + p, x, h, isV6))
      <==> KeepsPayload(h, isV6) && CsumAt(h) >= h.csumStart && GoodOffset(x, h)
  {
    hide AllRight, KeepsPayload, CsumAt, GoodOffset, SegmentStart, Room;
    if KeepsPayload(h, isV6) && CsumAt(h) >= h.csumStart && GoodOffset(x, h) {
      forall p: seq<byte> | |p| == |x| - h.hdrLen ensures AllRight(bufs, off, x[..h.hdrLen] + p, x, h, isV6) {
        RightThen(bufs, off, x, h, isV6, p);
      }
    } else {
      var p := WrongElse(bufs, off, x, h, isV6);
      assert !AllRight(bufs, off, x[..h.hdrLen] + p, x, h, isV6);
    }
  }

  lemma RightThen(bufs: seq<seq<byte>>, off: nat, x: seq<byte>, h: VirtioNetHdr, isV6: bool, p: seq<byte>)
    requires Splittable(x, h, isV6) && MinIpLen(isV6) <= h.csumStart && h.gsoSize > 0 && h.hdrLen < |x|
    requires Roomy(bufs, off, |x|, h) && |p| == |x| - h.hdrLen
    requires KeepsPayload(h, isV6) && CsumAt(h) >= h.csumStart && GoodOffset(x, h)
    ensures AllRight(bufs, off, x[..h.hdrLen] + p, x, h, isV6)
  {
    hide KeepsPayload, CsumAt, GoodOffset, SegmentStart, Room, PayloadKept, ChecksumValid, Handed, NetworkHeader,
      SegmentPayload, Segment, Cleared, SplitReady;
    var y := x[..h.hdrLen] + p;
    FieldInside(x, h, isV6);
    FieldInside(y, h, isV6);
    GoodVerifies(x, h, isV6, p);
    assert y[..h.hdrLen] == x[..h.hdrLen];
    hide Splittable;
    forall k | 0 <= k < |bufs| && SegmentStart(h, k) < |y|
      ensures SegmentRight(bufs[k], off, y, h, isV6, k)
      ensures NetworkHeader(bufs[k], off, y, h, isV6, k) == NetworkHeader(bufs[k], off, x, h, isV6, k)
    {
      PayloadWritten(bufs[k], off, y, h, isV6, k);
      KeptNow(bufs[k], off, y, h, isV6, k);
      HandedIsSegment(bufs[k], off, y, h, isV6, k);
      assert Verifies(y, h, isV6, k);
      HeaderUnaffected(bufs[k], off, y, x, h, isV6, k);
    }
  }

  lemma KeptNow(b: seq<byte>, off: nat, x: seq<byte>, h: VirtioNetHdr, isV6: bool, k: nat)
    requires Splittable(x, h, isV6) && SegmentStart(h, k) <= |x| && off + Room(|x|, h) <= |b| && KeepsPayload(h, isV6)
    ensures PayloadKept(b, off, x, h, isV6, k)
  {
    hide Splittable, SegmentStart, SegmentPayload, SegmentWritten, Cleared, Room, KeepsPayload;
    PayloadWritten(b, off, x, h, isV6, k);
  }

  /** A payload that is not carried, an offset that does not verify, or a header that follows the payload. */
  lemma WrongElse(bufs: seq<seq<byte>>, off: nat, x: seq<byte>, h: VirtioNetHdr, isV6: bool) returns (p: seq<byte>)
    requires Splittable(x, h, isV6) && MinIpLen(isV6) <= h.csumStart && (h.hdrLen - h.csumStart) % 4 == 0
    requires h.gsoSize > 0 && h.hdrLen < |x| && Roomy(bufs, off, |x|, h) && |x| <= SegmentStart(h, |bufs|)
    requires !(KeepsPayload(h, isV6) && CsumAt(h) >= h.csumStart && GoodOffset(x, h))
    ensures |p| == |x| - h.hdrLen && !AllRight(bufs, off, x[..h.hdrLen] + p, x, h, isV6)
  {
    hide KeepsPayload, CsumAt, GoodOffset, SegmentStart, Room, PayloadKept, ChecksumValid, Handed, NetworkHeader,
      SegmentPayload, Segment, Cleared, SplitReady, AllVerify, Conserves, AllRight;
    if !KeepsPayload(h, isV6) {
      p := LosesPayload(bufs, off, x, h, isV6);
      RightConserves(bufs, off, x[..h.hdrLen] + p, x, h, isV6);
    } else if CsumAt(h) >= h.csumStart {
      FieldInside(x, h, isV6);
      p := BadFails(x, h, isV6);
      FieldInside(x[..h.hdrLen] + p, h, isV6);
      RightVerifies(bufs, off, x[..h.hdrLen] + p, x, h, isV6);
    } else {
      FirstSegment(h);
      var y: byte := if x[h.hdrLen] == 255 then 254 else x[h.hdrLen] + 1;
      EnoughBuffers(bufs, x, h);
      HeaderAffected(bufs[0], off, x, h, isV6, 0, y);
      p := x[h.hdrLen := y][h.hdrLen..];
      assert x[..h.hdrLen] + p == x[h.hdrLen := y];
      RightHeader(bufs, off, x[h.hdrLen := y], x, h, isV6);
    }
  }

  lemma EnoughBuffers(bufs: seq<seq<byte>>, x: seq<byte>, h: VirtioNetHdr)
    requires h.hdrLen < |x| <= SegmentStart(h, |bufs|)
    ensures |bufs| > 0
  {
    if |bufs| == 0 { FirstSegment(h); }
  }

  lemma RightConserves(bufs: seq<seq<byte>>, off: nat, x: seq<byte>, y: seq<byte>, h: VirtioNetHdr, isV6: bool)
    ensures AllRight(bufs, off, x, y, h, isV6) ==> Conserves(bufs, off, x, h, isV6)
  {
    hide Splittable, SegmentStart, Room, PayloadKept, ChecksumValid, Handed, NetworkHeader;
  }

  lemma RightVerifies(bufs: seq<seq<byte>>, off: nat, x: seq<byte>, y: seq<byte>, h: VirtioNetHdr, isV6: bool)
    requires SplitReady(x, h, isV6) && |x| <= SegmentStart(h, |bufs|)
    ensures AllRight(bufs, off, x, y, h, isV6) ==> AllVerify(x, h, isV6)
  {
    hide Splittable, SplitReady, SegmentStart, Room, PayloadKept, ChecksumValid, Handed, NetworkHeader, Segment,
      Cleared;
    if AllRight(bufs, off, x, y, h, isV6) {
      forall i: nat | SegmentStart(h, i) < |x| ensures Verifies(x, h, isV6, i) {
        if i >= |bufs| { StartMonotone(h, |bufs|, i); }
        assert SegmentRight(bufs[i], off, x, h, isV6, i);
        HandedIsSegment(bufs[i], off, x, h, isV6, i);
      }
    }
  }

  lemma RightHeader(bufs: seq<seq<byte>>, off: nat, x: seq<byte>, y: seq<byte>, h: VirtioNetHdr, isV6: bool)
    requires |bufs| > 0 && h.hdrLen < |x|
    ensures SegmentStart(h, 0) == h.hdrLen
    ensures AllRight(bufs, off, x, y, h, isV6) ==>
      NetworkHeader(bufs[0], off, x, h, isV6, 0) == NetworkHeader(bufs[0], off, y, h, isV6, 0)
  {
    hide Splittable, SegmentStart, Room, PayloadKept, ChecksumValid, Handed, NetworkHeader;
    FirstSegment(h);
  }
}

/** The accounting pass over a merged buffer, and the proof that splitting such a buffer restores the originals. */
module GroDelivery {
  import opened Bytes
  import opened Options
  import opened Checksum
  import opened Gso
  import opened GroPackets
  import opened GroGroups
  import opened GroState

  const ZERO_HDR := VirtioNetHdr(false, GsoNone, 0, 0, 0, 0)

  /** The virtio header a merged buffer is written with. */
  function MergedHdr(item: Item, tcp: bool): VirtioNetHdr
    requires item.hdrLen <= 0xffff && item.gsoSize <= 0xffff && item.iphLen <= 0xffff
  {
    VirtioNetHdr(true, if !tcp then GsoUdpL4 else if item.key.isV6 then GsoTcpV6 else GsoTcpV4,
                 item.hdrLen, item.gsoSize, item.iphLen, if tcp then 16 else 6)
  }

  /** Shape of a buffer the accounting can rewrite. */
  predicate Accountable(pkt: seq<byte>, item: Item, tcp: bool) {
    && item.iphLen == IpLen(item.key.isV6)
    && item.iphLen + (if tcp then 20 else 8) <= item.hdrLen < |pkt| <= 0xffff
    && 0 < item.gsoSize <= 0xffff
  }

  /** Length fields and IPv4 header checksum of a merged packet. */
  function WithIpLengths(pkt: seq<byte>, item: Item, tcp: bool): (r: seq<byte>)
    requires Accountable(pkt, item, tcp)
    ensures |r| == |pkt|
  {
    if item.key.isV6 then Put16(pkt, 4, |pkt| - item.iphLen)
    else
      var h := Put16(Put16(pkt, 10, 0), 2, |pkt|);
      Put16(h, 10, 0xffff - Fold(WordSum(h[..item.iphLen])))
  }

  /** The packet part of applyTCPCoalesceAccounting and applyUDPCoalesceAccounting. */
  function AccountedPkt(pkt: seq<byte>, item: Item, tcp: bool): (r: seq<byte>)
    requires Accountable(pkt, item, tcp)
    ensures |r| == |pkt|
  {
    var a := WithIpLengths(pkt, item, tcp);
    var b := if tcp then a else Put16(a, item.iphLen + 4, |pkt| - item.iphLen);
    Put16(b, item.iphLen + (if tcp then 16 else 6),
          Fold(PseudoOf(a, TransportProtocol(tcp), item.key.isV6, |pkt| - item.iphLen)))
  }

  function Accounted(buf: Buf, item: Item, tcp: bool): (r: Buf)
    requires item.numMerged > 0 ==> Accountable(buf.pkt, item, tcp)
    ensures |r.pkt| == |buf.pkt| && r.room == buf.room
  {
    if item.numMerged > 0 then buf.(vnet := MergedHdr(item, tcp), pkt := AccountedPkt(buf.pkt, item, tcp))
    else buf.(vnet := ZERO_HDR)
  }

  lemma IpLengthsKeep(pkt: seq<byte>, item: Item, tcp: bool)
    requires Accountable(pkt, item, tcp)
    ensures WithIpLengths(pkt, item, tcp)[item.iphLen..] == pkt[item.iphLen..]
  {
    hide Fold, WordSum;
  }

  /** The accounting touches neither the payload nor the TCP sequence number. */
  lemma AccountingKeeps(pkt: seq<byte>, item: Item, tcp: bool)
    requires Accountable(pkt, item, tcp)
    ensures var r := AccountedPkt(pkt, item, tcp);
      && r[item.hdrLen..] == pkt[item.hdrLen..]
      && (tcp ==> Get32(r, item.iphLen + 4) == Get32(pkt, item.iphLen + 4))
  {
    hide Fold, WithIpLengths, PseudoOf;
    IpLengthsKeep(pkt, item, tcp);
    var a := WithIpLengths(pkt, item, tcp);
    assert a[item.hdrLen..] == a[item.iphLen..][item.hdrLen - item.iphLen..];
    assert pkt[item.hdrLen..] == pkt[item.iphLen..][item.hdrLen - item.iphLen..];
    if tcp {
      assert forall k :: 0 <= k < 20 ==>
        a[item.iphLen + k] == a[item.iphLen..][k] == pkt[item.iphLen..][k] == pkt[item.iphLen + k];
      assert Get32(a, item.iphLen + 4) == Get32(pkt, item.iphLen + 4);
    }
  }

  // ---------------------------------------------------------------------------------------------
  // Cutting a regular concatenation every `size` bytes gives the parts back.

  lemma {:induction false} RegularCut(ps: seq<seq<byte>>, size: nat, j: nat)
    requires Regular(ps, size) && j < |ps|
    ensures Mul(j, size) + |ps[j]| <= |Flatten(ps)|
    ensures Flatten(ps)[Mul(j, size)..Mul(j, size) + |ps[j]|] == ps[j]
    ensures |ps[j]| == size || Mul(j, size) + |ps[j]| == |Flatten(ps)|
    decreases |ps|
  {
    var n := |ps|;
    AllEqualLength(ps[..n - 1], size);
    if j < n - 1 {
      AllEqualCut(ps[..n - 1], size, j);
      var f := Flatten(ps[..n - 1]);
      assert ps[..n - 1][j] == ps[j];
      assert Flatten(ps) == f + ps[n - 1];
      assert Flatten(ps)[Mul(j, size)..Mul(j, size) + size] == f[Mul(j, size)..Mul(j, size) + size];
    }
  }

  lemma {:induction false} AllEqualCut(ps: seq<seq<byte>>, size: nat, j: nat)
    requires forall i :: 0 <= i < |ps| ==> |ps[i]| == size
    requires j < |ps|
    ensures Mul(j, size) + size <= |Flatten(ps)|
    ensures Flatten(ps)[Mul(j, size)..Mul(j, size) + size] == ps[j]
  {
    var n := |ps|;
    var f := Flatten(ps[..n - 1]);
    AllEqualLength(ps[..n - 1], size);
    if j < n - 1 {
      AllEqualCut(ps[..n - 1], size, j);
      assert (f + ps[n - 1])[Mul(j, size)..Mul(j, size) + size] == f[Mul(j, size)..Mul(j, size) + size];
    }
  }

  lemma {:induction false} StartIsMul(hdr: VirtioNetHdr, i: nat)
    ensures SegmentStart(hdr, i) == hdr.hdrLen + Mul(i, hdr.gsoSize)
  {
    if i > 0 {
      StartIsMul(hdr, i - 1);
    }
  }

  // ---------------------------------------------------------------------------------------------
  // Splitting a merged and accounted buffer restores the group.

  /** Same addresses, ports and acknowledgement number, version, traffic class, DF, hop limit and TCP options. */
  ghost predicate SameHeaders(s: seq<byte>, o: seq<byte>, hdr: VirtioNetHdr, isV6: bool) {
    var at, n, h := AddrAt(isV6), AddrLen(isV6), hdr.csumStart;
    && MinIpLen(isV6) <= h && h + MinTransportLen(hdr) <= hdr.hdrLen <= |s| && hdr.hdrLen <= |o|
    && s[at..at + 2 * n] == o[at..at + 2 * n]
    && s[h..h + 4] == o[h..h + 4]
    && (IsTcp(hdr) ==> s[h + 8..h + 12] == o[h + 8..h + 12] && s[h + 20..hdr.hdrLen] == o[h + 20..hdr.hdrLen])
    && s[0] == o[0]
    && (if isV6 then s[1] / 16 == o[1] / 16 && s[7] == o[7] else s[1] == o[1] && s[6] / 32 == o[6] / 32 && s[8] == o[8])
  }

  /** Segment j of pkt is original packet x: its payload, headers and sequence number, under a valid checksum. */
  ghost predicate Restores(orig: seq<seq<byte>>, pkt: seq<byte>, hdr: VirtioNetHdr, isV6: bool, x: nat, j: nat)
    requires SplitReady(pkt, hdr, isV6)
  {
    && SegmentStart(hdr, j) <= |pkt|
    && x < |orig| && hdr.hdrLen <= |orig[x]|
    && var s := Segment(Cleared(pkt, hdr, isV6), hdr, isV6, j);
      && s[hdr.hdrLen..] == orig[x][hdr.hdrLen..]
      && SameHeaders(s, orig[x], hdr, isV6)
      && (IsTcp(hdr) ==> Get32(s, hdr.csumStart + 4) == Get32(orig[x], hdr.csumStart + 4))
      && ChecksumValid(s, hdr.csumStart, Protocol(hdr), isV6)
  }

  /** The TCP flags of segment j of pkt are those of original packet x. */
  ghost predicate FlagsRestored(orig: seq<seq<byte>>, pkt: seq<byte>, hdr: VirtioNetHdr, isV6: bool, x: nat, j: nat)
    requires SplitReady(pkt, hdr, isV6) && Restores(orig, pkt, hdr, isV6, x, j)
    requires IsTcp(hdr)
  {
    Segment(Cleared(pkt, hdr, isV6), hdr, isV6, j)[hdr.csumStart + 13] == orig[x][hdr.csumStart + 13]
  }

  /**
   Splitting pkt by hdr gives the packets of group g, in order and in full. The TCP flags come back too, except a PSH
   on the last packet when that packet arrived before another of its group.
   */
  ghost predicate Resplits(orig: seq<seq<byte>>, pkt: seq<byte>, hdr: VirtioNetHdr, isV6: bool, g: seq<nat>) {
    && SplitReady(pkt, hdr, isV6) && hdr.gsoSize > 0
    && SegmentCount(|pkt|, hdr) == |g|
    && (forall j :: 0 <= j < |g| ==> Restores(orig, pkt, hdr, isV6, g[j], j))
    && (IsTcp(hdr) ==> forall j :: 0 <= j < |g| ==>
        (FlagsRestored(orig, pkt, hdr, isV6, g[j], j) <==>
         (j == |g| - 1 && HasPsh(orig[g[j]], hdr.csumStart) ==> LastNewest(g))))
  }

  lemma HoldsAccountable(orig: seq<seq<byte>>, pkt: seq<byte>, g: seq<nat>, item: Item, tcp: bool)
    requires Holds(orig, pkt, g, item, tcp) && |g| > 1 && |pkt| <= 0xffff
    ensures Accountable(pkt, item, tcp)
  {
    assert Member(orig, g[0], item, tcp) by {
      hide Member, Flatten, Sequenced, HeadersKept, AllVerified;
    }
    hide Holds;
    assert item.iphLen == IpLen(item.key.isV6) && item.iphLen + (if tcp then 20 else 8) <= item.hdrLen;
    hide Member;
    HoldsSizes(orig, pkt, g, item, tcp);
  }

  lemma HoldsSizes(orig: seq<seq<byte>>, pkt: seq<byte>, g: seq<nat>, item: Item, tcp: bool)
    requires Holds(orig, pkt, g, item, tcp) && |g| > 1
    ensures item.hdrLen < |pkt| && 0 < item.gsoSize <= |pkt|
    ensures |pkt| - item.hdrLen > Mul(|g| - 1, item.gsoSize)
    ensures |pkt| - item.hdrLen <= Mul(|g|, item.gsoSize)
  {
    hide Member, Flatten, Sequenced, HeadersKept, AllVerified, Mul;
    var ps := Payloads(orig, g, item.hdrLen);
    RegularLength(ps, item.gsoSize);
    MulNext(|g| - 1, item.gsoSize);
    MulNext(|g| - 2, item.gsoSize);
  }

  /** The segment the split cuts at position j is the payload of the j-th packet of the group. */
  lemma CutIsPayload(orig: seq<seq<byte>>, pkt: seq<byte>, g: seq<nat>, item: Item, tcp: bool, c: seq<byte>,
                     hdr: VirtioNetHdr, j: nat)
    requires Holds(orig, pkt, g, item, tcp) && j < |g|
    requires hdr.hdrLen == item.hdrLen && hdr.gsoSize == item.gsoSize
    requires |c| == |pkt| && c[item.hdrLen..] == pkt[item.hdrLen..]
    ensures g[j] < |orig| && item.hdrLen <= |orig[g[j]]|
    ensures SegmentStart(hdr, j) < |c|
    ensures SegmentPayload(c, hdr, j) == orig[g[j]][item.hdrLen..]
  {
    hide Member, Flatten, Sequenced, HeadersKept, AllVerified, Mul, SegmentStart;
    var ps := Payloads(orig, g, item.hdrLen);
    RegularCut(ps, item.gsoSize, j);
    StartIsMul(hdr, j);
    var at, n := Mul(j, item.gsoSize), |ps[j]|;
    assert n > 0;
    SliceShift(c, item.hdrLen, Flatten(ps), at, n);
  }

  lemma SliceShift(c: seq<byte>, h: nat, f: seq<byte>, at: nat, n: nat)
    requires h <= |c| && c[h..] == f && at + n <= |f|
    ensures c[h + at..h + at + n] == f[at..at + n]
  {
    var s := c[h + at..h + at + n];
    forall k | 0 <= k < n
      ensures s[k] == f[at..at + n][k]
    {
      assert s[k] == c[h + (at + k)];
      assert f[at + k] == c[h..][at + k];
    }
  }

  /** The sequence number a merged buffer starts with is that of its first packet. */
  lemma HeadSequence(orig: seq<seq<byte>>, pkt: seq<byte>, g: seq<nat>, item: Item, j: nat)
    requires Holds(orig, pkt, g, item, true) && j < |g|
    requires item.iphLen + 20 <= item.hdrLen
    ensures item.iphLen + 8 <= |pkt| && g[j] < |orig| && item.iphLen + 8 <= |orig[g[j]]|
    ensures (Get32(pkt, item.iphLen + 4) + item.gsoSize * j) % 0x1_0000_0000 == Get32(orig[g[j]], item.iphLen + 4)
  {
    hide Member, Flatten, Regular, AllVerified, Mul;
    var first := orig[g[0]];
    assert Get32(pkt, item.iphLen + 4) == Get32(first, item.iphLen + 4);
    hide Get32, Get16, HeadersKept;
    assert SeqOf(first, item.iphLen) == (item.sentSeq + Mul(0, item.gsoSize)) % 0x1_0000_0000;
    AtFirst(item.sentSeq, item.gsoSize);
    assert SeqOf(orig[g[j]], item.iphLen) == (item.sentSeq + Mul(j, item.gsoSize)) % 0x1_0000_0000;
    MulIsProduct(j, item.gsoSize);
    assert item.gsoSize * j == j * item.gsoSize;
  }

  /** A merged buffer, accounted and split again, restores every packet of its group. */
  lemma MergedResplits(orig: seq<seq<byte>>, pkt: seq<byte>, g: seq<nat>, item: Item, tcp: bool)
    requires Holds(orig, pkt, g, item, tcp) && |g| > 1 && |pkt| <= 0xffff
    ensures Accountable(pkt, item, tcp)
    ensures Resplits(orig, AccountedPkt(pkt, item, tcp), MergedHdr(item, tcp), item.key.isV6, g)
  {
    hide Holds, AccountedPkt, Restores, SegmentCount, SplitReady, Accountable, FlagsRestored, LastNewest, HasPsh;
    HoldsAccountable(orig, pkt, g, item, tcp);
    MergedReady(pkt, item, tcp);
    var r, hdr, isV6 := AccountedPkt(pkt, item, tcp), MergedHdr(item, tcp), item.key.isV6;
    MergedCount(orig, pkt, g, item, tcp, hdr);
    forall j | 0 <= j < |g|
      ensures Restores(orig, r, hdr, isV6, g[j], j)
    {
      SegmentRestores(orig, pkt, g, item, tcp, j);
    }
    if tcp {
      forall j | 0 <= j < |g|
        ensures g[j] < |orig| && Restores(orig, r, hdr, isV6, g[j], j)
        ensures FlagsRestored(orig, r, hdr, isV6, g[j], j) <==>
                (j == |g| - 1 && HasPsh(orig[g[j]], hdr.csumStart) ==> LastNewest(g))
      {
        SegmentRestores(orig, pkt, g, item, tcp, j);
        SegmentFlags(orig, pkt, g, item, j);
      }
    }
  }

  lemma MergedReady(pkt: seq<byte>, item: Item, tcp: bool)
    requires Accountable(pkt, item, tcp)
    ensures item.hdrLen <= 0xffff && item.gsoSize <= 0xffff && item.iphLen <= 0xffff
    ensures SplitReady(AccountedPkt(pkt, item, tcp), MergedHdr(item, tcp), item.key.isV6)
  {
    hide AccountedPkt;
  }

  lemma MergedCount(orig: seq<seq<byte>>, pkt: seq<byte>, g: seq<nat>, item: Item, tcp: bool, hdr: VirtioNetHdr)
    requires Holds(orig, pkt, g, item, tcp) && |g| > 1
    requires hdr.hdrLen == item.hdrLen && hdr.gsoSize == item.gsoSize
    ensures hdr.gsoSize > 0 && hdr.hdrLen <= |pkt|
    ensures SegmentCount(|pkt|, hdr) == |g|
  {
    hide Holds, Mul, SegmentCount, SegmentStart;
    HoldsSizes(orig, pkt, g, item, tcp);
    StartIsMul(hdr, |g|);
    StartIsMul(hdr, |g| - 1);
    CountIsCeiling(|pkt|, hdr, |g|);
  }

  lemma SegmentRestores(orig: seq<seq<byte>>, pkt: seq<byte>, g: seq<nat>, item: Item, tcp: bool, j: nat)
    requires Holds(orig, pkt, g, item, tcp) && j < |g| && Accountable(pkt, item, tcp)
    requires SplitReady(AccountedPkt(pkt, item, tcp), MergedHdr(item, tcp), item.key.isV6)
    ensures g[j] < |orig| && Restores(orig, AccountedPkt(pkt, item, tcp), MergedHdr(item, tcp), item.key.isV6, g[j], j)
  {
    hide Holds, AccountedPkt, Segment, Cleared, SegmentPayload, SegmentStart, ChecksumValid, Get32;
    var r, hdr, isV6 := AccountedPkt(pkt, item, tcp), MergedHdr(item, tcp), item.key.isV6;
    AccountingKeeps(pkt, item, tcp);
    var c := Cleared(r, hdr, isV6);
    CutIsPayload(orig, pkt, g, item, tcp, c, hdr, j);
    SegmentCarriesPayload(c, hdr, isV6, j);
    SegmentVerifies(r, hdr, isV6, j);
    SegmentFields(r, hdr, isV6, j);
    var s := Segment(c, hdr, isV6, j);
    SegmentKept(pkt, item, tcp, j, s);
    hide SameHeaders, KeptFrom;
    GroupSameHeaders(orig, pkt, g, item, tcp, j, s);
    if tcp {
      HeadSequence(orig, pkt, g, item, j);
    }
  }

  /** A header byte that neither the accounting nor the split rewrites. */
  lemma HeaderByte(pkt: seq<byte>, item: Item, tcp: bool, j: nat, k: nat)
    requires Accountable(pkt, item, tcp)
    requires SplitReady(AccountedPkt(pkt, item, tcp), MergedHdr(item, tcp), item.key.isV6)
    requires SegmentStart(MergedHdr(item, tcp), j) <= |pkt|
    requires k < item.hdrLen && !Rewritten(MergedHdr(item, tcp), item.key.isV6, k)
    ensures var hdr := MergedHdr(item, tcp);
      Segment(Cleared(AccountedPkt(pkt, item, tcp), hdr, item.key.isV6), hdr, item.key.isV6, j)[k] == pkt[k]
  {
    hide AccountedPkt, Segment, Cleared, SegmentStart, Rewritten;
    SegmentKeeps(AccountedPkt(pkt, item, tcp), MergedHdr(item, tcp), item.key.isV6, j, k);
    AccountingByte(pkt, item, tcp, k);
  }

  lemma AccountingByte(pkt: seq<byte>, item: Item, tcp: bool, k: nat)
    requires Accountable(pkt, item, tcp) && k < item.hdrLen
    requires !Rewritten(MergedHdr(item, tcp), item.key.isV6, k) || (tcp && k == item.iphLen + 13)
    ensures AccountedPkt(pkt, item, tcp)[k] == pkt[k]
  {
    hide Fold, WordSum, PseudoOf;
  }

  /** s has the buffer's header bytes wherever neither pass rewrites them. */
  ghost predicate KeptFrom(s: seq<byte>, pkt: seq<byte>, hdr: VirtioNetHdr, isV6: bool) {
    && hdr.hdrLen <= |s| && hdr.hdrLen <= |pkt|
    && forall k :: 0 <= k < hdr.hdrLen && !Rewritten(hdr, isV6, k) ==> s[k] == pkt[k]
  }

  lemma SegmentKept(pkt: seq<byte>, item: Item, tcp: bool, j: nat, s: seq<byte>)
    requires Accountable(pkt, item, tcp)
    requires SplitReady(AccountedPkt(pkt, item, tcp), MergedHdr(item, tcp), item.key.isV6)
    requires SegmentStart(MergedHdr(item, tcp), j) <= |pkt|
    requires s == Segment(Cleared(AccountedPkt(pkt, item, tcp), MergedHdr(item, tcp), item.key.isV6),
                          MergedHdr(item, tcp), item.key.isV6, j)
    ensures KeptFrom(s, pkt, MergedHdr(item, tcp), item.key.isV6)
  {
    hide AccountedPkt, Segment, Cleared, SegmentStart, Rewritten;
    var hdr, isV6 := MergedHdr(item, tcp), item.key.isV6;
    forall k | 0 <= k < hdr.hdrLen && !Rewritten(hdr, isV6, k) ensures s[k] == pkt[k] {
      HeaderByte(pkt, item, tcp, j, k);
    }
  }

  lemma GroupSameHeaders(orig: seq<seq<byte>>, pkt: seq<byte>, g: seq<nat>, item: Item, tcp: bool, j: nat, s: seq<byte>)
    requires Holds(orig, pkt, g, item, tcp) && j < |g| && Accountable(pkt, item, tcp)
    requires KeptFrom(s, pkt, MergedHdr(item, tcp), item.key.isV6)
    ensures g[j] < |orig| && SameHeaders(s, orig[g[j]], MergedHdr(item, tcp), item.key.isV6)
  {
    hide Holds, KeptFrom, SameHeaders, Alike, HeadersKept, KeyOf, Parsable;
    GroupHeaders(orig, pkt, g, item, tcp, j);
    KeptSame(s, pkt, orig[g[0]], orig[g[j]], item, tcp);
  }

  /** What a group says about the headers of its j-th packet. */
  lemma GroupHeaders(orig: seq<seq<byte>>, pkt: seq<byte>, g: seq<nat>, item: Item, tcp: bool, j: nat)
    requires Holds(orig, pkt, g, item, tcp) && j < |g|
    ensures g[0] < |orig| && g[j] < |orig| && item.hdrLen <= |pkt|
    ensures item.hdrLen <= |orig[g[0]]| && item.hdrLen <= |orig[g[j]]|
    ensures HeadersKept(pkt, orig[g[0]], item, tcp) && Alike(orig[g[j]], pkt, item, tcp)
    ensures Parsable(orig[g[0]], item.key.isV6, tcp) && Parsable(orig[g[j]], item.key.isV6, tcp)
    ensures KeyOf(orig[g[0]], item.key.isV6, tcp) == KeyOf(orig[g[j]], item.key.isV6, tcp)
    ensures item.iphLen == IpLen(item.key.isV6)
  {
    assert Member(orig, g[0], item, tcp) && Member(orig, g[j], item, tcp) by {
      hide Member, Flatten, Sequenced, HeadersKept, AllVerified, AllAlike, Flagged;
    }
    MemberKey(orig, g[0], item, tcp);
    MemberKey(orig, g[j], item, tcp);
    hide Member, Flatten, Sequenced, HeadersKept, AllVerified, Flagged, Alike, Regular;
  }

  lemma MemberKey(orig: seq<seq<byte>>, x: nat, item: Item, tcp: bool)
    requires Member(orig, x, item, tcp)
    ensures Parsable(orig[x], item.key.isV6, tcp) && KeyOf(orig[x], item.key.isV6, tcp) == item.key
    ensures item.iphLen == IpLen(item.key.isV6)
  {
  }

  lemma KeptSame(s: seq<byte>, pkt: seq<byte>, first: seq<byte>, o: seq<byte>, item: Item, tcp: bool)
    requires Accountable(pkt, item, tcp) && KeptFrom(s, pkt, MergedHdr(item, tcp), item.key.isV6)
    requires item.hdrLen <= |first| && HeadersKept(pkt, first, item, tcp) && Alike(o, pkt, item, tcp)
    requires Parsable(first, item.key.isV6, tcp) && Parsable(o, item.key.isV6, tcp)
    requires KeyOf(first, item.key.isV6, tcp) == KeyOf(o, item.key.isV6, tcp)
    ensures SameHeaders(s, o, MergedHdr(item, tcp), item.key.isV6)
  {
    hide KeyOf;
    var hdr, isV6 := MergedHdr(item, tcp), item.key.isV6;
    var at, n, h := AddrAt(isV6), AddrLen(isV6), hdr.csumStart;
    KeyAddresses(first, o, isV6, tcp);
    KeptRange(s, pkt, first, item, tcp, at, at + 2 * n);
    KeptRange(s, pkt, first, item, tcp, h, h + 4);
    if tcp {
      KeptRange(s, pkt, first, item, tcp, h + 8, h + 12);
      assert s[h + 20..hdr.hdrLen] == pkt[h + 20..hdr.hdrLen];
    }
  }

  lemma KeptRange(s: seq<byte>, pkt: seq<byte>, first: seq<byte>, item: Item, tcp: bool, from: nat, to: nat)
    requires Accountable(pkt, item, tcp) && KeptFrom(s, pkt, MergedHdr(item, tcp), item.key.isV6)
    requires item.hdrLen <= |first| && HeadersKept(pkt, first, item, tcp) && from <= to <= item.hdrLen
    requires forall k: nat {:trigger Rewritten(MergedHdr(item, tcp), item.key.isV6, k)} ::
      from <= k < to ==> !Rewritten(MergedHdr(item, tcp), item.key.isV6, k) && k != item.iphLen + 13
    ensures s[from..to] == first[from..to]
  {
    hide Rewritten;
  }

  lemma KeyAddresses(a: seq<byte>, b: seq<byte>, isV6: bool, tcp: bool)
    requires Parsable(a, isV6, tcp) && Parsable(b, isV6, tcp) && KeyOf(a, isV6, tcp) == KeyOf(b, isV6, tcp)
    ensures var at, n, h := AddrAt(isV6), AddrLen(isV6), IpLen(isV6);
      && a[at..at + 2 * n] == b[at..at + 2 * n] && a[h..h + 4] == b[h..h + 4]
      && (tcp ==> a[h + 8..h + 12] == b[h + 8..h + 12])
  {
    var at, n, h := AddrAt(isV6), AddrLen(isV6), IpLen(isV6);
    assert a[at..at + 2 * n] == a[at..at + n] + a[at + n..at + 2 * n];
    assert b[at..at + 2 * n] == b[at..at + n] + b[at + n..at + 2 * n];
    SameWord(a, b, h);
    SameWord(a, b, h + 2);
    assert a[h..h + 4] == a[h..h + 2] + a[h + 2..h + 4] && b[h..h + 4] == b[h..h + 2] + b[h + 2..h + 4];
    if tcp {
      SameDoubleWord(a, b, h + 8);
    }
  }

  lemma SameWord(a: seq<byte>, b: seq<byte>, at: nat)
    requires at + 2 <= |a| && at + 2 <= |b| && Get16(a, at) == Get16(b, at)
    ensures a[at..at + 2] == b[at..at + 2]
  {
    assert a[at] == b[at] && a[at + 1] == b[at + 1];
  }

  lemma SameDoubleWord(a: seq<byte>, b: seq<byte>, at: nat)
    requires at + 4 <= |a| && at + 4 <= |b| && Get32(a, at) == Get32(b, at)
    ensures a[at..at + 4] == b[at..at + 4]
  {
    assert Get16(a, at) == Get16(b, at) && Get16(a, at + 2) == Get16(b, at + 2);
    SameWord(a, b, at);
    SameWord(a, b, at + 2);
    assert a[at..at + 4] == a[at..at + 2] + a[at + 2..at + 4] && b[at..at + 4] == b[at..at + 2] + b[at + 2..at + 4];
  }

  /** FIN and PSH are cleared in all segments but the last, which takes the flags of the buffer's head. */
  lemma SegmentFlags(orig: seq<seq<byte>>, pkt: seq<byte>, g: seq<nat>, item: Item, j: nat)
    requires Holds(orig, pkt, g, item, true) && j < |g| && |g| > 1 && Accountable(pkt, item, true)
    requires SplitReady(AccountedPkt(pkt, item, true), MergedHdr(item, true), item.key.isV6)
    requires Restores(orig, AccountedPkt(pkt, item, true), MergedHdr(item, true), item.key.isV6, g[j], j)
    ensures FlagsRestored(orig, AccountedPkt(pkt, item, true), MergedHdr(item, true), item.key.isV6, g[j], j) <==>
            (j == |g| - 1 && HasPsh(orig[g[j]], item.iphLen) ==> LastNewest(g))
  {
    hide Holds, AccountedPkt, Segment, Cleared, SegmentPayload, SegmentStart, ChecksumValid, Get32, Get16, SameHeaders,
      LastNewest, Rewritten;
    var r, hdr, isV6 := AccountedPkt(pkt, item, true), MergedHdr(item, true), item.key.isV6;
    SegmentFields(r, hdr, isV6, j);
    AccountingByte(pkt, item, true, item.iphLen + 13);
    HoldsSizes(orig, pkt, g, item, true);
    hide Mul;
    StartIsMul(hdr, j);
    MulNext(j, item.gsoSize);
    if j < |g| - 1 { MulMonotone(j + 1, |g| - 1, item.gsoSize); }
    GroupFlags(orig, pkt, g, item, j);
  }

  lemma {:induction false} MulMonotone(a: nat, b: nat, n: nat)
    requires a <= b
    ensures Mul(a, n) <= Mul(b, n)
  {
    if a < b {
      MulMonotone(a, b - 1, n);
      MulNext(b - 1, n);
    }
  }

  lemma GroupFlags(orig: seq<seq<byte>>, pkt: seq<byte>, g: seq<nat>, item: Item, j: nat)
    requires Holds(orig, pkt, g, item, true) && j < |g|
    ensures g[j] < |orig| && item.iphLen + 13 < |orig[g[j]]| && item.iphLen + 13 < |pkt|
    ensures orig[g[j]][item.iphLen + 13] == if HasPsh(orig[g[j]], item.iphLen) then 0x18 else 0x10
    ensures j < |g| - 1 ==> !HasPsh(orig[g[j]], item.iphLen)
    ensures pkt[item.iphLen + 13] in {0x10, 0x18}
    ensures j == |g| - 1 ==>
      (pkt[item.iphLen + 13] == 0x18 <==> HasPsh(orig[g[j]], item.iphLen) && LastNewest(g))
  {
    hide Flatten, Sequenced, HeadersKept, AllVerified, AllAlike, Member, LastNewest, Regular;
    assert Member(orig, g[j], item, true);
    MemberBytes(orig, g[j], item, true);
  }

  // ---------------------------------------------------------------------------------------------
  // The accounting pass.

  /** Network part of the accounting, as computed. */
  method AccountIpLengths(host: Host, pkt: seq<byte>, item: Item, tcp: bool) returns (r: seq<byte>)
    requires Accountable(pkt, item, tcp)
    ensures r == WithIpLengths(pkt, item, tcp)
  {
    if item.key.isV6 {
      r := Put16(pkt, 4, |pkt| - item.iphLen);
    } else {
      r := Put16(pkt, 10, 0);
      r := Put16(r, 2, |pkt|);
      var sum := Checksum16(host, r[..item.iphLen], 0);
      r := Put16(r, 10, 0xffff - sum);
    }
  }

  /** Lengths, IPv4 checksum and partial transport checksum of one merged packet, as computed. */
  method AccountPkt(host: Host, pkt: seq<byte>, item: Item, tcp: bool) returns (r: seq<byte>)
    requires Accountable(pkt, item, tcp)
    ensures r == AccountedPkt(pkt, item, tcp)
  {
    hide Fold, WordSum, Represents, WithIpLengths, Put16;
    var a := AccountIpLengths(host, pkt, item, tcp);
    r := a;
    if !tcp {
      r := Put16(r, item.iphLen + 4, |pkt| - item.iphLen);
    }
    var at, n := AddrAt(item.key.isV6), AddrLen(item.key.isV6);
    var pseudo := PseudoHeaderChecksumNoFold(host, TransportProtocol(tcp), a[at..at + n], a[at + n..at + 2 * n],
                                             |pkt| - item.iphLen);
    var sum := Checksum16(host, [], pseudo);
    SameFold(pseudo, PseudoOf(a, TransportProtocol(tcp), item.key.isV6, |pkt| - item.iphLen), WordSum([]));
    assert WordSum([]) == 0 by { WordSumEmpty(); }
    r := Put16(r, item.iphLen + (if tcp then 16 else 6), sum);
  }

  lemma WordSumEmpty()
    ensures WordSum([]) == 0
  {
  }

  /** Buffers described by the table are accounted for; all others are as before. */
  ghost predicate Pass(bufs: seq<Buf>, bufs': seq<Buf>, table: Table, tcp: bool) {
    && |bufs'| == |bufs|
    && (forall key, p :: key in table && 0 <= p < |table[key]| ==> AccountedAt(bufs, bufs', table[key][p], tcp))
    && (forall k :: 0 <= k < |bufs| && !InTable(table, k) ==> bufs'[k] == bufs[k])
  }

  ghost predicate AccountedAt(bufs: seq<Buf>, bufs': seq<Buf>, item: Item, tcp: bool) {
    && item.bufsIndex < |bufs| == |bufs'|
    && (item.numMerged > 0 ==> Accountable(bufs[item.bufsIndex].pkt, item, tcp))
    && bufs'[item.bufsIndex] == Accounted(bufs[item.bufsIndex], item, tcp)
  }

  /** Every item describes a buffer the accounting can rewrite, and no two describe the same. */
  ghost predicate FlowReady(bufs: seq<Buf>, items: seq<Item>, tcp: bool) {
    && (forall p :: 0 <= p < |items| ==> ItemReady(bufs, items[p], tcp))
    && Distinct(items)
  }

  ghost predicate ItemReady(bufs: seq<Buf>, item: Item, tcp: bool) {
    && item.bufsIndex < |bufs|
    && (item.numMerged > 0 ==> Accountable(bufs[item.bufsIndex].pkt, item, tcp))
  }

  ghost predicate Mentions(items: seq<Item>, k: nat) {
    exists p :: 0 <= p < |items| && items[p].bufsIndex == k
  }

  ghost predicate TableReady(bufs: seq<Buf>, table: Table, tcp: bool) {
    && (forall key :: key in table ==> FlowReady(bufs, table[key], tcp))
    && (forall key, key', k :: key in table && key' in table && key != key' && Mentions(table[key], k) ==>
      !Mentions(table[key'], k))
  }

  /** A valid walk ends in a state the accounting can process. */
  lemma CoreReady(orig: seq<seq<byte>>, bufs: seq<Buf>, tabs: Tables, groups: Groups, home: seq<nat>, tcp: bool)
    requires Core(orig, bufs, tabs, groups, home)
    ensures TableReady(bufs, tabs.Get(tcp), tcp)
  {
    hide ItemOk, Partition, SingleOk, Tracked, Accountable;
    var table: Table := tabs.Get(tcp);
    forall key | key in table
      ensures FlowReady(bufs, table[key], tcp)
    {
      assert FlowOk(orig, bufs, groups, table[key], key, tcp);
      forall p | 0 <= p < |table[key]|
        ensures ItemReady(bufs, table[key][p], tcp)
      {
        ItemIsReady(orig, bufs, groups, table[key][p], key, tcp);
      }
    }
    forall key, key', k | key in table && key' in table && key != key' && Mentions(table[key], k)
      ensures !Mentions(table[key'], k)
    {
      if Mentions(table[key'], k) {
        var p :| 0 <= p < |table[key]| && table[key][p].bufsIndex == k;
        var q :| 0 <= q < |table[key']| && table[key'][q].bufsIndex == k;
        ElsewhereNotInTable(orig, bufs, tabs, groups, home, tcp, key, p, tcp, key', q);
      }
    }
  }

  lemma ItemIsReady(orig: seq<seq<byte>>, bufs: seq<Buf>, groups: Groups, item: Item, key: FlowKey, tcp: bool)
    requires ItemOk(orig, bufs, groups, item, key, tcp)
    requires forall j :: 0 <= j < |bufs| ==> |bufs[j].pkt| <= bufs[j].room <= 0xffff
    ensures ItemReady(bufs, item, tcp)
  {
    hide Accountable, Members, Flatten, Regular, Sequenced, HeadersKept, AllVerified;
    var g := groups[item.bufsIndex];
    if item.numMerged > 0 {
      HoldsAccountable(orig, bufs[item.bufsIndex].pkt, g, item, tcp);
    }
  }

  /** The inner loop of the accounting: one flow. */
  method AccountFlow(host: Host, bufs: seq<Buf>, items: seq<Item>, tcp: bool) returns (r: seq<Buf>)
    requires FlowReady(bufs, items, tcp)
    ensures |r| == |bufs|
    ensures forall p :: 0 <= p < |items| ==> AccountedAt(bufs, r, items[p], tcp)
    ensures forall k :: 0 <= k < |bufs| && !Mentions(items, k) ==> r[k] == bufs[k]
  {
    hide Accountable, Accounted;
    r := bufs;
    for q := 0 to |items|
      invariant |r| == |bufs|
      invariant forall p :: 0 <= p < q ==> AccountedAt(bufs, r, items[p], tcp)
      invariant forall p :: q <= p < |items| ==> r[items[p].bufsIndex] == bufs[items[p].bufsIndex]
      invariant forall k :: 0 <= k < |bufs| && !Mentions(items, k) ==> r[k] == bufs[k]
    {
      var item := items[q];
      assert ItemReady(bufs, item, tcp);
      var k := item.bufsIndex;
      var b := AccountBuf(host, r[k], item, tcp);
      r := r[k := b];
    }
  }

  method AccountBuf(host: Host, buf: Buf, item: Item, tcp: bool) returns (r: Buf)
    requires item.numMerged > 0 ==> Accountable(buf.pkt, item, tcp)
    ensures r == Accounted(buf, item, tcp)
  {
    hide AccountedPkt;
    if item.numMerged > 0 {
      var pkt := AccountPkt(host, buf.pkt, item, tcp);
      r := buf.(vnet := MergedHdr(item, tcp), pkt := pkt);
    } else {
      r := buf.(vnet := ZERO_HDR);
    }
  }

  /** applyTCPCoalesceAccounting and applyUDPCoalesceAccounting: all flows, in whatever order the map yields them. */
  method ApplyAccounting(host: Host, bufs: seq<Buf>, table: Table, tcp: bool) returns (r: seq<Buf>)
    requires TableReady(bufs, table, tcp)
    ensures Pass(bufs, r, table, tcp)
  {
    hide FlowReady, Mentions, AccountedAt, InTable;
    r := bufs;
    var todo := table.Keys;
    while todo != {}
      invariant todo <= table.Keys
      invariant DoneFlows(bufs, r, table, table.Keys - todo, tcp)
      invariant PendingFlows(bufs, r, table, todo) && Unmentioned(bufs, r, table)
      decreases todo
    {
      var key :| key in todo;
      ghost var before := r;
      FlowStillReady(bufs, r, table[key], tcp);
      r := AccountFlow(host, r, table[key], tcp);
      FlowDone(bufs, before, r, table, table.Keys - todo, todo, key, tcp);
      assert table.Keys - todo + {key} == table.Keys - (todo - {key});
      todo := todo - {key};
    }
  }

  lemma FlowStillReady(bufs: seq<Buf>, r: seq<Buf>, items: seq<Item>, tcp: bool)
    requires FlowReady(bufs, items, tcp) && |r| == |bufs|
    requires forall k :: 0 <= k < |bufs| && Mentions(items, k) ==> r[k] == bufs[k]
    ensures FlowReady(r, items, tcp)
  {
    hide Accountable;
    forall p | 0 <= p < |items|
      ensures ItemReady(r, items[p], tcp)
    {
      assert ItemReady(bufs, items[p], tcp);
      assert Mentions(items, items[p].bufsIndex);
    }
  }

  /** The buffer of an item that one flow's turn leaves alone. */
  lemma AccountedStays(bufs: seq<Buf>, before: seq<Buf>, r: seq<Buf>, item: Item, tcp: bool)
    requires AccountedAt(bufs, before, item, tcp)
    requires |r| == |bufs| && r[item.bufsIndex] == before[item.bufsIndex]
    ensures AccountedAt(bufs, r, item, tcp)
  {
    hide Accountable, Accounted;
  }

  lemma AccountedFrom(bufs: seq<Buf>, before: seq<Buf>, r: seq<Buf>, item: Item, tcp: bool)
    requires AccountedAt(before, r, item, tcp)
    requires |before| == |bufs| && before[item.bufsIndex] == bufs[item.bufsIndex]
    ensures AccountedAt(bufs, r, item, tcp)
  {
    hide Accountable, Accounted;
  }

  ghost predicate DoneFlows(bufs: seq<Buf>, r: seq<Buf>, table: Table, done: set<FlowKey>, tcp: bool) {
    forall key, p :: key in done && key in table && 0 <= p < |table[key]| ==> AccountedAt(bufs, r, table[key][p], tcp)
  }

  ghost predicate PendingFlows(bufs: seq<Buf>, r: seq<Buf>, table: Table, todo: set<FlowKey>) {
    && |r| == |bufs|
    && forall key, k :: key in todo && key in table && 0 <= k < |bufs| && Mentions(table[key], k) ==> r[k] == bufs[k]
  }

  ghost predicate Unmentioned(bufs: seq<Buf>, r: seq<Buf>, table: Table) {
    && |r| == |bufs|
    && forall k :: 0 <= k < |bufs| && !InTable(table, k) ==> r[k] == bufs[k]
  }

  lemma MentionsItem(items: seq<Item>, p: nat)
    requires p < |items|
    ensures Mentions(items, items[p].bufsIndex)
  {
  }

  lemma MentionedInTable(table: Table, key: FlowKey, k: nat)
    requires key in table && Mentions(table[key], k)
    ensures InTable(table, k)
  {
  }

  /** One turn of the outer loop. */
  lemma FlowDone(bufs: seq<Buf>, before: seq<Buf>, r: seq<Buf>, table: Table, done: set<FlowKey>, todo: set<FlowKey>,
                 key: FlowKey, tcp: bool)
    requires TableReady(bufs, table, tcp) && key in todo && key in table && done !! todo
    requires DoneFlows(bufs, before, table, done, tcp)
    requires PendingFlows(bufs, before, table, todo) && Unmentioned(bufs, before, table)
    requires |r| == |before|
    requires forall p :: 0 <= p < |table[key]| ==> AccountedAt(before, r, table[key][p], tcp)
    requires forall k :: 0 <= k < |before| && !Mentions(table[key], k) ==> r[k] == before[k]
    ensures DoneFlows(bufs, r, table, done + {key}, tcp)
    ensures PendingFlows(bufs, r, table, todo - {key}) && Unmentioned(bufs, r, table)
  {
    hide AccountedAt, FlowReady, Mentions, InTable;
    forall key', p | key' in done + {key} && key' in table && 0 <= p < |table[key']|
      ensures AccountedAt(bufs, r, table[key'][p], tcp)
    {
      var item := table[key'][p];
      MentionsItem(table[key'], p);
      if key' == key {
        IndexInRange(before, r, item, tcp);
        AccountedFrom(bufs, before, r, item, tcp);
      } else {
        IndexInRange(bufs, before, item, tcp);
        assert !Mentions(table[key], item.bufsIndex);
        AccountedStays(bufs, before, r, item, tcp);
      }
    }
    forall key', k | key' in todo - {key} && key' in table && 0 <= k < |bufs| && Mentions(table[key'], k)
      ensures r[k] == bufs[k]
    {
      assert !Mentions(table[key], k);
    }
    forall k | 0 <= k < |bufs| && !InTable(table, k)
      ensures r[k] == bufs[k]
    {
      if Mentions(table[key], k) {
        MentionedInTable(table, key, k);
      }
    }
  }

  lemma IndexInRange(bufs: seq<Buf>, r: seq<Buf>, item: Item, tcp: bool)
    requires AccountedAt(bufs, r, item, tcp)
    ensures item.bufsIndex < |bufs| == |r|
  {
  }

  // ---------------------------------------------------------------------------------------------
  // What is written.

  /** The virtio header of a merged buffer describes the packets it was made of. */
  ghost predicate Announced(orig: seq<seq<byte>>, hdr: VirtioNetHdr, isV6: bool, g: seq<nat>) {
    && |g| > 0 && g[0] < |orig| && |orig[g[0]]| >= 28 && hdr.hdrLen <= |orig[g[0]]|
    && hdr.gsoSize == |orig[g[0]]| - hdr.hdrLen && hdr.csumStart == IpLen(isV6)
    && var tcp := IsTcpPacket(orig[g[0]]);
      && hdr.gsoType == (if !tcp then GsoUdpL4 else if isV6 then GsoTcpV6 else GsoTcpV4)
      && hdr.csumOffset == if tcp then 16 else 6
  }

  lemma MergedAnnounced(orig: seq<seq<byte>>, pkt: seq<byte>, g: seq<nat>, item: Item, tcp: bool)
    requires Holds(orig, pkt, g, item, tcp) && |g| > 1 && Accountable(pkt, item, tcp)
    ensures Announced(orig, MergedHdr(item, tcp), item.key.isV6, g)
  {
    assert Member(orig, g[0], item, tcp) && |orig[g[0]]| - item.hdrLen == item.gsoSize by {
      hide Member, Flatten, Sequenced, HeadersKept, AllVerified, AllAlike, Flagged, Accountable;
      var ps := Payloads(orig, g, item.hdrLen);
      assert |ps[0]| == item.gsoSize;
    }
    hide Holds;
    MemberBytes(orig, g[0], item, tcp);
  }

  /**
   A written buffer is an untouched packet, or splits back into the packets it absorbed; UDP ones in arrival order.
   */
  ghost predicate Delivered(orig: seq<seq<byte>>, buf: Buf, g: seq<nat>, k: nat) {
    && (|g| == 1 ==> g == [k] && k < |orig| && buf.pkt == orig[k])
    && (|g| > 1 ==>
        && |buf.pkt| > 0 && Resplits(orig, buf.pkt, buf.vnet, buf.pkt[0] / 16 == 6, g)
        && Announced(orig, buf.vnet, buf.pkt[0] / 16 == 6, g))
    && (buf.vnet.gsoType.GsoUdpL4? ==> Increasing(g))
  }

  lemma VersionKept(orig: seq<seq<byte>>, pkt: seq<byte>, g: seq<nat>, item: Item, tcp: bool)
    requires Holds(orig, pkt, g, item, tcp) && Accountable(pkt, item, tcp)
    ensures AccountedPkt(pkt, item, tcp)[0] / 16 == 6 <==> item.key.isV6
  {
    assert Member(orig, g[0], item, tcp) && pkt[0] == orig[g[0]][0] by {
      hide Member, Flatten, Sequenced, AllVerified, Accountable;
    }
    hide Holds;
    assert orig[g[0]][0] / 16 == 6 <==> item.key.isV6 by { hide Accountable; }
    hide Member;
    FirstByteKept(pkt, item, tcp);
  }

  lemma FirstByteKept(pkt: seq<byte>, item: Item, tcp: bool)
    requires Accountable(pkt, item, tcp)
    ensures AccountedPkt(pkt, item, tcp)[0] == pkt[0]
  {
    hide Fold, WordSum, PseudoOf;
  }

  /** A described buffer, once accounted for, is delivered. */
  lemma MergedDelivered(orig: seq<seq<byte>>, buf: Buf, g: seq<nat>, item: Item, tcp: bool, k: nat)
    requires Holds(orig, buf.pkt, g, item, tcp) && |g| > 1 && |buf.pkt| <= 0xffff && (tcp || Increasing(g))
    ensures Accountable(buf.pkt, item, tcp)
    ensures Delivered(orig, Accounted(buf, item, tcp), g, k)
  {
    FirstOfGroup(orig, buf.pkt, g, item, tcp);
    hide Holds, AccountedPkt, Resplits, Accountable, Announced;
    MergedResplits(orig, buf.pkt, g, item, tcp);
    MergedAnnounced(orig, buf.pkt, g, item, tcp);
    VersionKept(orig, buf.pkt, g, item, tcp);
  }

  lemma FirstOfGroup(orig: seq<seq<byte>>, pkt: seq<byte>, g: seq<nat>, item: Item, tcp: bool)
    requires Holds(orig, pkt, g, item, tcp)
    ensures |g| == item.numMerged + 1 && |pkt| > 0
  {
    hide Members, Flatten, Regular, Sequenced, HeadersKept, AllVerified;
  }

  /** The UDP pass still finds the buffers it describes as the walk left them. */
  lemma SecondReady(orig: seq<seq<byte>>, bufs: seq<Buf>, bufs1: seq<Buf>, tabs: Tables, groups: Groups, home: seq<nat>)
    requires Core(orig, bufs, tabs, groups, home)
    requires Pass(bufs, bufs1, tabs.Get(true), true)
    ensures forall k :: 0 <= k < |bufs| && InTable(tabs.Get(false), k) ==> bufs1[k] == bufs[k]
    ensures TableReady(bufs1, tabs.Get(false), false)
  {
    hide TableOk, Partition, SingleOk, Tracked, BufsOk, AccountedAt, Accountable, Core;
    forall k | 0 <= k < |bufs| && InTable(tabs.Get(false), k)
      ensures bufs1[k] == bufs[k]
    {
      NotBoth(orig, bufs, tabs, groups, home, k);
    }
    CoreReady(orig, bufs, tabs, groups, home, false);
    var table: Table := tabs.Get(false);
    hide InTable, Mentions;
    forall key | key in table
      ensures FlowReady(bufs1, table[key], false)
    {
      forall k | 0 <= k < |bufs| && Mentions(table[key], k)
        ensures bufs1[k] == bufs[k]
      {
        MentionedInTable(table, key, k);
      }
      FlowStillReady(bufs, bufs1, table[key], false);
    }
  }

  lemma NotBoth(orig: seq<seq<byte>>, bufs: seq<Buf>, tabs: Tables, groups: Groups, home: seq<nat>, k: nat)
    requires Core(orig, bufs, tabs, groups, home)
    ensures !(InTable(tabs.Get(false), k) && InTable(tabs.Get(true), k))
  {
    hide Core;
    if InTable(tabs.Get(false), k) && InTable(tabs.Get(true), k) {
      var t: Table, u: Table := tabs.Get(true), tabs.Get(false);
      var key, p :| key in t && 0 <= p < |t[key]| && t[key][p].bufsIndex == k;
      var key', q :| key' in u && 0 <= q < |u[key']| && u[key'][q].bufsIndex == k;
      ElsewhereNotInTable(orig, bufs, tabs, groups, home, true, key, p, false, key', q);
    }
  }

  /** After both passes every group is delivered. */
  lemma PassesDeliver(orig: seq<seq<byte>>, bufs: seq<Buf>, bufs1: seq<Buf>, bufs2: seq<Buf>, tabs: Tables,
                      groups: Groups, home: seq<nat>, k: nat)
    requires Core(orig, bufs, tabs, groups, home) && k in groups
    requires Pass(bufs, bufs1, tabs.Get(true), true)
    requires Pass(bufs1, bufs2, tabs.Get(false), false)
    ensures k < |bufs2| && Delivered(orig, bufs2[k], groups[k], k)
  {
    CoreGroup(orig, bufs, tabs, groups, home, k);
    hide Core, Resplits, Accountable, Accounted, Holds, Announced;
    NotBoth(orig, bufs, tabs, groups, home, k);
    if InTable(tabs.Get(true), k) {
      var t: Table := tabs.Get(true);
      var key, p :| key in t && 0 <= p < |t[key]| && t[key][p].bufsIndex == k;
      assert AccountedAt(bufs, bufs1, t[key][p], true);
      TableDelivers(orig, bufs, tabs, groups, home, true, key, p);
    } else if InTable(tabs.Get(false), k) {
      var u: Table := tabs.Get(false);
      var key, p :| key in u && 0 <= p < |u[key]| && u[key][p].bufsIndex == k;
      assert AccountedAt(bufs1, bufs2, u[key][p], false);
      TableDelivers(orig, bufs, tabs, groups, home, false, key, p);
    }
  }

  lemma CoreGroup(orig: seq<seq<byte>>, bufs: seq<Buf>, tabs: Tables, groups: Groups, home: seq<nat>, k: nat)
    requires Core(orig, bufs, tabs, groups, home) && k in groups
    ensures k < |bufs| && |groups[k]| > 0
    ensures SingleOk(orig, bufs, groups[k], k)
    ensures |groups[k]| > 1 ==> InTable(tabs.Get(true), k) || InTable(tabs.Get(false), k)
  {
    hide TableOk, SingleOk, InTable;
    assert GroupOk(groups[k], home, k);
    if |groups[k]| > 1 {
      var b: bool :| InTable(tabs.Get(b), k);
    }
  }

  lemma OrderOfItem(groups: Groups, items: seq<Item>, p: nat)
    requires InOrder(groups, items) && p < |items|
    ensures items[p].bufsIndex in groups && Increasing(groups[items[p].bufsIndex])
  {
    hide Increasing, AllBefore;
  }

  lemma TableDelivers(orig: seq<seq<byte>>, bufs: seq<Buf>, tabs: Tables, groups: Groups, home: seq<nat>, tcp: bool,
                      key: FlowKey, p: nat)
    requires Core(orig, bufs, tabs, groups, home)
    requires key in tabs.Get(tcp) && p < |tabs.Get(tcp)[key]|
    ensures var item := tabs.Get(tcp)[key][p];
      && item.bufsIndex in groups && item.bufsIndex < |bufs|
      && (item.numMerged > 0 ==> Accountable(bufs[item.bufsIndex].pkt, item, tcp))
      && Delivered(orig, Accounted(bufs[item.bufsIndex], item, tcp), groups[item.bufsIndex], item.bufsIndex)
  {
    var item := tabs.Get(tcp)[key][p];
    assert ItemOk(orig, bufs, groups, item, key, tcp) by {
      hide ItemOk, Partition, SingleOk, Tracked, BufsOk;
      assert FlowOk(orig, bufs, groups, tabs.Get(tcp)[key], key, tcp);
    }
    hide TableOk, Partition, Tracked, Holds, Accountable, AccountedPkt, Resplits, InOrder, Increasing, Announced;
    var k := item.bufsIndex;
    FirstOfGroup(orig, bufs[k].pkt, groups[k], item, tcp);
    if !tcp {
      OrderOfItem(groups, tabs.Get(false)[key], p);
    }
    if item.numMerged > 0 {
      MergedDelivered(orig, bufs[k], groups[k], item, tcp, k);
    } else {
      assert SingleOk(orig, bufs, groups[k], k);
    }
  }
}

/** What a buffer that absorbed several packets holds, and how appending and prepending keep it so. */
module GroGroups {
  import opened Bytes
  import opened Gso
  import opened GroPackets

  /** k * n, by repeated addition. */
  function Mul(k: nat, n: nat): nat {
    if k == 0 then 0 else Mul(k - 1, n) + n
  }

  lemma MulNext(k: nat, n: nat)
    ensures Mul(k + 1, n) == Mul(k, n) + n
  {
  }

  lemma {:induction false} MulIsProduct(k: nat, n: nat)
    ensures Mul(k, n) == k * n
  {
    if k > 0 {
      MulIsProduct(k - 1, n);
      assert k * n == (k - 1) * n + n;
    }
  }

  function SeqOf(pkt: seq<byte>, iphLen: nat): u32
    requires iphLen + 8 <= |pkt|
  {
    Get32(pkt, iphLen + 4)
  }

  function TransportProtocol(tcp: bool): byte { if tcp then IPPROTO_TCP else IPPROTO_UDP }

  /** Original packet j was a mergeable packet of the item's flow and header shape. */
  ghost predicate Member(orig: seq<seq<byte>>, j: nat, item: Item, tcp: bool)
    ensures Member(orig, j, item, tcp) ==> j < |orig| && item.iphLen + 8 <= item.hdrLen < |orig[j]|
  {
    && j < |orig| && Parsable(orig[j], item.key.isV6, tcp)
    && var r := Parse(orig[j], item.key.isV6, tcp);
      r.Some? && r.value.key == item.key && r.value.hdrLen == item.hdrLen && r.value.iphLen == item.iphLen
  }

  ghost predicate Members(orig: seq<seq<byte>>, g: seq<nat>, item: Item, tcp: bool) {
    forall j :: 0 <= j < |g| ==> Member(orig, g[j], item, tcp)
  }

  /** Payloads of the packets of a group, in group order. */
  ghost function Payloads(orig: seq<seq<byte>>, g: seq<nat>, h: nat): (ps: seq<seq<byte>>)
    requires forall j :: 0 <= j < |g| ==> g[j] < |orig| && h <= |orig[g[j]]|
    ensures |ps| == |g|
    ensures forall j :: 0 <= j < |g| ==> ps[j] == orig[g[j]][h..]
  {
    seq(|g|, j requires 0 <= j < |g| => orig[g[j]][h..])
  }

  /** Every payload has the segment size, except that the last may be shorter but not empty. */
  ghost predicate Regular(ps: seq<seq<byte>>, size: nat) {
    && |ps| > 0
    && (forall j :: 0 <= j < |ps| - 1 ==> |ps[j]| == size)
    && 0 < |ps[|ps| - 1]| <= size
  }

  /** Sequence numbers run on from the first by one segment size per packet. */
  ghost predicate Sequenced(orig: seq<seq<byte>>, g: seq<nat>, item: Item)
    requires forall j :: 0 <= j < |g| ==> g[j] < |orig| && item.iphLen + 8 <= |orig[g[j]]|
  {
    forall j :: 0 <= j < |g| ==>
      SeqOf(orig[g[j]], item.iphLen) == (item.sentSeq + Mul(j, item.gsoSize)) % 0x1_0000_0000
  }

  /** pkt starts with the headers of first; the TCP flags byte may differ. */
  ghost predicate HeadersKept(pkt: seq<byte>, first: seq<byte>, item: Item, tcp: bool)
    requires item.hdrLen <= |pkt| && item.hdrLen <= |first|
  {
    forall k :: 0 <= k < item.hdrLen && !(tcp && k == item.iphLen + 13) ==> pkt[k] == first[k]
  }

  /** The fields compared before merging: version, traffic class, DF, hop limit, TCP options. */
  predicate Alike(a: seq<byte>, b: seq<byte>, item: Item, tcp: bool) {
    && item.hdrLen <= |a| && item.hdrLen <= |b|
    && IpHeadersCanCoalesce(a, b) && a[0] == b[0]
    && (tcp ==> item.iphLen + 20 <= item.hdrLen && a[item.iphLen + 20..item.hdrLen] == b[item.iphLen + 20..item.hdrLen])
  }

  ghost predicate AllAlike(orig: seq<seq<byte>>, pkt: seq<byte>, g: seq<nat>, item: Item, tcp: bool)
    requires Members(orig, g, item, tcp)
  {
    forall j :: 0 <= j < |g| ==> Alike(orig[g[j]], pkt, item, tcp)
  }

  predicate HasPsh(pkt: seq<byte>, iphLen: nat) {
    iphLen + 13 < |pkt| && pkt[iphLen + 13] == 0x18
  }

  /** The last packet of the group arrived after all the others. */
  ghost predicate LastNewest(g: seq<nat>) {
    forall p :: 0 <= p < |g| - 1 ==> g[p] < g[|g| - 1]
  }

  /** Only the last packet may carry PSH; the head of the buffer shows it if that packet came in last. */
  ghost predicate Flagged(orig: seq<seq<byte>>, pkt: seq<byte>, g: seq<nat>, item: Item)
    requires |g| > 0 && forall j :: 0 <= j < |g| ==> g[j] < |orig|
  {
    && (forall j :: 0 <= j < |g| - 1 ==> !HasPsh(orig[g[j]], item.iphLen))
    && (item.pshSet <==> HasPsh(orig[g[|g| - 1]], item.iphLen))
    && item.iphLen + 13 < |pkt|
    && pkt[item.iphLen + 13] == (if item.pshSet && LastNewest(g) then 0x18 else 0x10)
  }

  /** Every packet of a merged group had a valid transport checksum. */
  ghost predicate AllVerified(orig: seq<seq<byte>>, g: seq<nat>, item: Item, tcp: bool)
    requires Members(orig, g, item, tcp)
  {
    forall j :: 0 <= j < |g| ==> Verified(orig[g[j]], item, tcp)
  }

  predicate Verified(pkt: seq<byte>, item: Item, tcp: bool) {
    && item.iphLen <= |pkt| && AddrAt(item.key.isV6) + 2 * AddrLen(item.key.isV6) <= |pkt|
    && ChecksumValid(pkt, item.iphLen, TransportProtocol(tcp), item.key.isV6)
  }

  /** pkt is the merge of the group g of original packets, as described by item. */
  ghost predicate Holds(orig: seq<seq<byte>>, pkt: seq<byte>, g: seq<nat>, item: Item, tcp: bool) {
    && |g| == item.numMerged + 1
    && Members(orig, g, item, tcp)
    && item.hdrLen < |pkt|
    && pkt[item.hdrLen..] == Flatten(Payloads(orig, g, item.hdrLen))
    && Regular(Payloads(orig, g, item.hdrLen), item.gsoSize)
    && (tcp ==> Sequenced(orig, g, item))
    && HeadersKept(pkt, orig[g[0]], item, tcp)
    && AllAlike(orig, pkt, g, item, tcp)
    && (tcp ==> Flagged(orig, pkt, g, item))
    && (|g| == 1 ==> pkt == orig[g[0]])
    && (|g| > 1 ==> AllVerified(orig, g, item, tcp))
  }

  // ---------------------------------------------------------------------------------------------
  // Lengths.

  lemma {:induction false} RegularLength(ps: seq<seq<byte>>, size: nat)
    requires Regular(ps, size)
    ensures |Flatten(ps)| == Mul(|ps| - 1, size) + |ps[|ps| - 1]|
  {
    var n := |ps|;
    AllEqualLength(ps[..n - 1], size);
  }

  lemma {:induction false} AllEqualLength(ps: seq<seq<byte>>, size: nat)
    requires forall j :: 0 <= j < |ps| ==> |ps[j]| == size
    ensures |Flatten(ps)| == Mul(|ps|, size)
  {
    if |ps| > 0 {
      AllEqualLength(ps[..|ps| - 1], size);
    }
  }

  lemma MultipleAtLeast(d: nat, e: int)
    ensures e >= 1 ==> d * e >= d
  {
  }

  /** If the payload is a whole number of segments, the last one is full and the 16-bit length is exact. */
  lemma WholeIsFull(orig: seq<seq<byte>>, pkt: seq<byte>, g: seq<nat>, item: Item, tcp: bool)
    requires Holds(orig, pkt, g, item, tcp) && |pkt| <= 0xffff
    requires WholeSegments(pkt, item)
    ensures |orig[g[|g| - 1]]| - item.hdrLen == item.gsoSize
    ensures ItemLen(item) == Mul(|g|, item.gsoSize)
  {
    hide Member, Sequenced, HeadersKept, AllVerified, Flatten, Mul;
    var ps := Payloads(orig, g, item.hdrLen);
    RegularLength(ps, item.gsoSize);
    FullNumbers(item.numMerged, item.gsoSize, |ps[|g| - 1]|, |pkt| - item.hdrLen);
  }

  lemma FullNumbers(merged: nat, size: nat, last: nat, len: nat)
    requires 0 < last <= size && len == Mul(merged, size) + last <= 0xffff
    requires len % size == 0
    ensures last == size
    ensures (size + merged * size) % 0x1_0000 == Mul(merged + 1, size)
  {
    MulIsProduct(merged, size);
    LastFull(merged, size, last);
    assert Mul(merged + 1, size) == Mul(merged, size) + size;
    SmallMod(size + merged * size);
  }

  lemma LastFull(k: nat, size: nat, last: nat)
    requires 0 < last <= size
    requires (k * size + last) % size == 0
    ensures last == size
    ensures k * size + last == (k + 1) * size == size + k * size
  {
    var q := (k * size + last) / size;
    assert k * size + last == size * q;
    assert size * (q - k) == size * q - size * k;
    assert size * (q - k) == last;
    assert q - k == 1 by {
      MultipleAtLeast(size, 1 - (q - k));
      MultipleAtLeast(size, q - k - 1);
    }
  }

  // ---------------------------------------------------------------------------------------------
  // Appending and prepending.

  /** Same flow and header shape; only the merge bookkeeping may differ. */
  predicate SameShape(a: Item, b: Item) {
    a.key == b.key && a.iphLen == b.iphLen && a.hdrLen == b.hdrLen
  }

  lemma MemberSame(orig: seq<seq<byte>>, j: nat, a: Item, b: Item, tcp: bool)
    requires SameShape(a, b)
    ensures Member(orig, j, a, tcp) == Member(orig, j, b, tcp)
  {
    hide Parsable, Parse;
  }

  lemma MembersSame(orig: seq<seq<byte>>, g: seq<nat>, a: Item, b: Item, tcp: bool)
    requires SameShape(a, b) && Members(orig, g, a, tcp)
    ensures Members(orig, g, b, tcp)
    ensures AllVerified(orig, g, a, tcp) ==> AllVerified(orig, g, b, tcp)
  {
    hide Member, ChecksumValid;
    forall j | 0 <= j < |g|
      ensures Member(orig, g[j], b, tcp)
    {
      MemberSame(orig, g[j], a, b, tcp);
    }
  }

  lemma PayloadsConcat(orig: seq<seq<byte>>, f: seq<nat>, g: seq<nat>, h: nat)
    requires forall j :: 0 <= j < |f| ==> f[j] < |orig| && h <= |orig[f[j]]|
    requires forall j :: 0 <= j < |g| ==> g[j] < |orig| && h <= |orig[g[j]]|
    ensures forall j :: 0 <= j < |f + g| ==> (f + g)[j] < |orig| && h <= |orig[(f + g)[j]]|
    ensures Payloads(orig, f + g, h) == Payloads(orig, f, h) + Payloads(orig, g, h)
  {
  }

  lemma MembersConcat(orig: seq<seq<byte>>, f: seq<nat>, g: seq<nat>, item: Item, tcp: bool)
    requires Members(orig, f, item, tcp) && Members(orig, g, item, tcp)
    ensures Members(orig, f + g, item, tcp)
    ensures AllVerified(orig, f, item, tcp) && AllVerified(orig, g, item, tcp) ==> AllVerified(orig, f + g, item, tcp)
  {
    hide Member, Verified;
  }

  lemma SequencedAppend(orig: seq<seq<byte>>, g: seq<nat>, item: Item, item': Item, i: nat)
    requires forall j :: 0 <= j < |g| ==> g[j] < |orig| && item.iphLen + 8 <= |orig[g[j]]|
    requires i < |orig| && item.iphLen + 8 <= |orig[i]|
    requires Sequenced(orig, g, item)
    requires item'.sentSeq == item.sentSeq && item'.gsoSize == item.gsoSize && item'.iphLen == item.iphLen
    requires SeqOf(orig[i], item.iphLen) == (item.sentSeq + Mul(|g|, item.gsoSize)) % 0x1_0000_0000
    ensures forall j :: 0 <= j < |g + [i]| ==> (g + [i])[j] < |orig| && item.iphLen + 8 <= |orig[(g + [i])[j]]|
    ensures Sequenced(orig, g + [i], item')
  {
    hide SeqOf, Mul;
  }

  /** Shifting every position by one adds one segment size. */
  lemma SequencedPrepend(orig: seq<seq<byte>>, g: seq<nat>, item: Item, item': Item, i: nat)
    requires forall j :: 0 <= j < |g| ==> g[j] < |orig| && item.iphLen + 8 <= |orig[g[j]]|
    requires i < |orig| && item.iphLen + 8 <= |orig[i]|
    requires Sequenced(orig, g, item)
    requires item'.iphLen == item.iphLen
    requires SeqOf(orig[i], item.iphLen) == item'.sentSeq
    requires (item'.sentSeq + item'.gsoSize) % 0x1_0000_0000 == item.sentSeq
    requires item'.gsoSize == item.gsoSize || |g| == 1
    ensures forall j :: 0 <= j < |[i] + g| ==> ([i] + g)[j] < |orig| && item.iphLen + 8 <= |orig[([i] + g)[j]]|
    ensures Sequenced(orig, [i] + g, item')
  {
    hide SeqOf, Mul;
    var f := [i] + g;
    forall j | 0 <= j < |f|
      ensures SeqOf(orig[f[j]], item.iphLen) == (item'.sentSeq + Mul(j, item'.gsoSize)) % 0x1_0000_0000
    {
      if j == 0 {
        AtFirst(item'.sentSeq, item'.gsoSize);
      } else {
        assert f[j] == g[j - 1];
        ShiftOne(item'.sentSeq, item.sentSeq, item'.gsoSize, item.gsoSize, j);
      }
    }
  }

  lemma AtFirst(first: u32, size: nat)
    ensures (first + Mul(0, size)) % 0x1_0000_0000 == first
  {
  }

  lemma ShiftOne(first: u32, next: u32, size': nat, size: nat, j: nat)
    requires j > 0 && (size' == size || j == 1)
    requires (first + size') % 0x1_0000_0000 == next
    ensures (next + Mul(j - 1, size)) % 0x1_0000_0000 == (first + Mul(j, size')) % 0x1_0000_0000
  {
    SequenceShift(first, next, size', Mul(j - 1, size'));
  }

  lemma SequenceShift(first: u32, next: u32, size: nat, d: nat)
    requires (first + size) % 0x1_0000_0000 == next
    ensures (next + d) % 0x1_0000_0000 == (first + (d + size)) % 0x1_0000_0000
  {
    var q := (first + size) / 0x1_0000_0000;
    assert first + size == q * 0x1_0000_0000 + next;
    assert first + (d + size) == q * 0x1_0000_0000 + (next + d);
  }

  lemma MemberBytes(orig: seq<seq<byte>>, j: nat, item: Item, tcp: bool)
    requires Member(orig, j, item, tcp)
    ensures |orig[j]| >= 28 && item.iphLen == IpLen(item.key.isV6)
    ensures item.key.isV6 <==> orig[j][0] / 16 == 6
    ensures !item.key.isV6 ==> orig[j][0] == 0x45
    ensures tcp ==> item.iphLen + 20 <= item.hdrLen && orig[j][item.iphLen + 13] in {0x10, 0x18}
  {
  }

  /** A packet that passed the header comparison with the buffer is like it. */
  lemma MemberAlike(orig: seq<seq<byte>>, pkt: seq<byte>, first: nat, item: Item, tcp: bool, i: nat)
    requires Member(orig, i, item, tcp) && Member(orig, first, item, tcp)
    requires item.hdrLen <= |pkt| && HeadersKept(pkt, orig[first], item, tcp)
    requires IpHeadersCanCoalesce(orig[i], pkt)
    requires tcp ==> item.iphLen + 20 <= item.hdrLen
    requires tcp ==> orig[i][item.iphLen + 20..item.hdrLen] == pkt[item.iphLen + 20..item.hdrLen]
    ensures Alike(orig[i], pkt, item, tcp)
  {
    hide Member;
    MemberBytes(orig, i, item, tcp);
    MemberBytes(orig, first, item, tcp);
    assert pkt[0] == orig[first][0];
  }

  /** The head of the buffer may change its flags byte and grow at the end. */
  lemma AlikeAppend(a: seq<byte>, pkt: seq<byte>, base: seq<byte>, p: seq<byte>, item: Item, tcp: bool)
    requires Alike(a, pkt, item, tcp) && 20 <= item.iphLen < item.hdrLen <= |pkt| == |base|
    requires HeadersKept(base, pkt, item, tcp)
    ensures Alike(a, base + p, item, tcp)
  {
    if tcp {
      assert (base + p)[item.iphLen + 20..item.hdrLen] == pkt[item.iphLen + 20..item.hdrLen];
    }
  }

  lemma AlikeHead(a: seq<byte>, pkt: seq<byte>, head: seq<byte>, p: seq<byte>, item: Item, tcp: bool)
    requires Alike(a, pkt, item, tcp) && Alike(head, pkt, item, tcp)
    ensures Alike(a, head + p, item, tcp)
  {
    if tcp {
      assert (head + p)[item.iphLen + 20..item.hdrLen] == head[item.iphLen + 20..item.hdrLen];
    }
  }

  lemma AllAlikeAppend(orig: seq<seq<byte>>, pkt: seq<byte>, base: seq<byte>, p: seq<byte>, g: seq<nat>, item: Item,
                       item': Item, tcp: bool, i: nat)
    requires Members(orig, g, item, tcp) && |g| > 0 && AllAlike(orig, pkt, g, item, tcp)
    requires Member(orig, i, item, tcp) && Members(orig, g + [i], item', tcp) && SameShape(item, item')
    requires item.hdrLen <= |pkt| == |base| && HeadersKept(base, pkt, item, tcp) && Alike(orig[i], pkt, item, tcp)
    ensures AllAlike(orig, base + p, g + [i], item', tcp)
  {
    hide Member, Alike, HeadersKept;
    forall j | 0 <= j < |g + [i]| ensures Alike(orig[(g + [i])[j]], base + p, item', tcp) {
      var x := (g + [i])[j];
      assert Member(orig, x, item, tcp) && Alike(orig[x], pkt, item, tcp);
      MemberBytes(orig, x, item, tcp);
      AlikeAppend(orig[x], pkt, base, p, item, tcp);
      AlikeSame(orig[x], base + p, item, item', tcp);
    }
  }

  lemma AlikeSame(a: seq<byte>, b: seq<byte>, item: Item, item': Item, tcp: bool)
    requires SameShape(item, item') && Alike(a, b, item, tcp)
    ensures Alike(a, b, item', tcp)
  {
  }

  lemma AllAlikePrepend(orig: seq<seq<byte>>, pkt: seq<byte>, p: seq<byte>, g: seq<nat>, item: Item, item': Item,
                        tcp: bool, i: nat)
    requires Members(orig, g, item, tcp) && AllAlike(orig, pkt, g, item, tcp)
    requires Member(orig, i, item, tcp) && Members(orig, [i] + g, item', tcp) && SameShape(item, item')
    requires Alike(orig[i], pkt, item, tcp)
    ensures AllAlike(orig, orig[i] + p, [i] + g, item', tcp)
  {
    hide Member, Alike;
    forall j | 0 <= j < |[i] + g| ensures Alike(orig[([i] + g)[j]], orig[i] + p, item', tcp) {
      var x := ([i] + g)[j];
      assert Alike(orig[x], pkt, item, tcp);
      AlikeHead(orig[x], pkt, orig[i], p, item, tcp);
      AlikeSame(orig[x], orig[i] + p, item, item', tcp);
    }
  }

  /** Appending to an item without PSH: the new last packet is the newest, and its PSH shows in the head. */
  lemma FlaggedAppend(orig: seq<seq<byte>>, pkt: seq<byte>, base: seq<byte>, p: seq<byte>, g: seq<nat>, item: Item,
                      item': Item, i: nat)
    requires |g| > 0 && i < |orig| && (forall j :: 0 <= j < |g| ==> g[j] < |orig| && g[j] < i)
    requires Flagged(orig, pkt, g, item) && !item.pshSet && |base| == |pkt|
    requires item'.iphLen == item.iphLen && (item'.pshSet <==> HasPsh(orig[i], item.iphLen))
    requires base[item.iphLen + 13] == if item'.pshSet then 0x18 else pkt[item.iphLen + 13]
    ensures Flagged(orig, base + p, g + [i], item')
  {
  }

  /** Prepending a packet without PSH: the head shows none, whatever the last packet carries. */
  lemma FlaggedPrepend(orig: seq<seq<byte>>, pkt: seq<byte>, p: seq<byte>, g: seq<nat>, item: Item, item': Item, i: nat)
    requires |g| > 0 && i < |orig| && (forall j :: 0 <= j < |g| ==> g[j] < |orig| && g[j] < i)
    requires Flagged(orig, pkt, g, item) && item'.iphLen == item.iphLen && item'.pshSet == item.pshSet
    requires item.iphLen + 13 < |orig[i]| && orig[i][item.iphLen + 13] == 0x10
    ensures Flagged(orig, orig[i] + p, [i] + g, item')
  {
    var f := [i] + g;
    assert f[0] == i && f[|f| - 1] == g[|g| - 1] < i;
  }

  /** Appending a packet that continues the flow keeps the description exact. */
  lemma AppendHolds(orig: seq<seq<byte>>, pkt: seq<byte>, base: seq<byte>, g: seq<nat>, item: Item, item': Item,
                    tcp: bool, i: nat)
    requires Holds(orig, pkt, g, item, tcp) && |pkt| <= 0xffff
    requires Member(orig, i, item, tcp)
    requires WholeSegments(pkt, item) && |orig[i]| - item.hdrLen <= item.gsoSize
    requires tcp ==> SeqOf(orig[i], item.iphLen) == (item.sentSeq + ItemLen(item)) % 0x1_0000_0000
    requires |g| == 1 ==> Verified(orig[g[0]], item, tcp)
    requires Verified(orig[i], item, tcp)
    requires |base| == |pkt| && base[item.hdrLen..] == pkt[item.hdrLen..] && HeadersKept(base, pkt, item, tcp)
    requires SameShape(item, item') && item'.sentSeq == item.sentSeq && item'.gsoSize == item.gsoSize
    requires item'.numMerged == item.numMerged + 1
    requires IpHeadersCanCoalesce(orig[i], pkt) && forall j :: 0 <= j < |g| ==> g[j] < i
    requires tcp ==>
      && item.iphLen + 20 <= item.hdrLen && !item.pshSet && (item'.pshSet <==> HasPsh(orig[i], item.iphLen))
      && orig[i][item.iphLen + 20..item.hdrLen] == pkt[item.iphLen + 20..item.hdrLen]
      && base[item.iphLen + 13] == if item'.pshSet then 0x18 else pkt[item.iphLen + 13]
    ensures Holds(orig, base + orig[i][item.hdrLen..], g + [i], item', tcp)
  {
    hide Member, Verified, Flatten, Mul, SeqOf, ItemLen, WholeSegments, Alike, Flagged, IpHeadersCanCoalesce;
    MemberAlike(orig, pkt, g[0], item, tcp, i);
    var h := item.hdrLen;
    var p := orig[i][h..];
    var ps := Payloads(orig, g, h);
    WholeIsFull(orig, pkt, g, item, tcp);
    assert Members(orig, [i], item, tcp);
    MembersConcat(orig, g, [i], item, tcp);
    MembersSame(orig, g + [i], item, item', tcp);
    AllAlikeAppend(orig, pkt, base, p, g, item, item', tcp, i);
    PayloadsConcat(orig, g, [i], h);
    assert Payloads(orig, [i], h) == [p];
    FlattenSnoc(ps, p);
    JoinAt(base, p, h);
    RegularAppend(ps, p, item.gsoSize);
    if tcp {
      SequencedAppend(orig, g, item, item', i);
      FlaggedAppend(orig, pkt, base, p, g, item, item', i);
    }
    hide Members, Payloads, Regular, Sequenced, AllAlike;
  }

  lemma JoinAt(base: seq<byte>, p: seq<byte>, h: nat)
    requires h <= |base|
    ensures (base + p)[h..] == base[h..] + p
  {
  }

  lemma RegularAppend(ps: seq<seq<byte>>, p: seq<byte>, size: nat)
    requires Regular(ps, size) && |ps[|ps| - 1]| == size
    requires 0 < |p| <= size
    ensures Regular(ps + [p], size)
  {
  }

  lemma RegularPrepend(ps: seq<seq<byte>>, p: seq<byte>, size: nat, size': nat)
    requires Regular(ps, size)
    requires |p| == size' >= size && (size' == size || |ps| == 1)
    ensures Regular([p] + ps, size')
  {
  }

  lemma GroupVerified(orig: seq<seq<byte>>, g: seq<nat>, item: Item, tcp: bool)
    requires Members(orig, g, item, tcp) && |g| > 0
    requires if |g| > 1 then AllVerified(orig, g, item, tcp) else Verified(orig[g[0]], item, tcp)
    ensures AllVerified(orig, g, item, tcp)
  {
    hide Verified;
  }

  lemma HeadSelf(a: seq<byte>, p: seq<byte>, item: Item, tcp: bool)
    requires item.hdrLen <= |a|
    ensures HeadersKept(a + p, a, item, tcp)
  {
  }

  /** Prepending a packet that leads up to the item keeps the description exact. */
  lemma PrependHolds(orig: seq<seq<byte>>, pkt: seq<byte>, g: seq<nat>, item: Item, item': Item, i: nat)
    requires Holds(orig, pkt, g, item, true)
    requires Member(orig, i, item, true)
    requires item'.gsoSize == |orig[i]| - item.hdrLen >= item.gsoSize
    requires item'.gsoSize == item.gsoSize || |g| == 1
    requires (SeqOf(orig[i], item.iphLen) + item'.gsoSize) % 0x1_0000_0000 == item.sentSeq
    requires item'.sentSeq == SeqOf(orig[i], item.iphLen)
    requires |g| == 1 ==> Verified(orig[g[0]], item, true)
    requires Verified(orig[i], item, true)
    requires SameShape(item, item') && item'.numMerged == item.numMerged + 1
    requires IpHeadersCanCoalesce(orig[i], pkt) && forall j :: 0 <= j < |g| ==> g[j] < i
    requires item.iphLen + 20 <= item.hdrLen && item'.pshSet == item.pshSet && !HasPsh(orig[i], item.iphLen)
    requires orig[i][item.iphLen + 20..item.hdrLen] == pkt[item.iphLen + 20..item.hdrLen]
    ensures Holds(orig, orig[i] + pkt[item.hdrLen..], [i] + g, item', true)
  {
    hide Member, Verified, Flatten, Mul, SeqOf, Alike, Flagged, IpHeadersCanCoalesce, HeadersKept, Regular, Sequenced,
      HasPsh;
    MemberAlike(orig, pkt, g[0], item, true, i);
    MemberBytes(orig, i, item, true);
    GroupVerified(orig, g, item, true);
    var h := item.hdrLen;
    var p := orig[i][h..];
    var ps := Payloads(orig, g, h);
    assert Members(orig, [i], item, true) && AllVerified(orig, [i], item, true);
    MembersConcat(orig, [i], g, item, true);
    MembersSame(orig, [i] + g, item, item', true);
    AllAlikePrepend(orig, pkt, pkt[h..], g, item, item', true, i);
    NotPsh(orig[i], item.iphLen);
    FlaggedPrepend(orig, pkt, pkt[h..], g, item, item', i);
    PayloadsConcat(orig, [i], g, h);
    assert Payloads(orig, [i], h) == [p];
    FlattenCons(p, ps);
    JoinAt(orig[i], pkt[h..], h);
    HeadSelf(orig[i], pkt[h..], item', true);
    RegularPrepend(ps, p, item.gsoSize, item'.gsoSize);
    SequencedPrepend(orig, g, item, item', i);
    hide Members, Payloads, AllAlike, AllVerified;
  }

  lemma NotPsh(pkt: seq<byte>, iphLen: nat)
    requires iphLen + 13 < |pkt| && pkt[iphLen + 13] in {0x10, 0x18} && !HasPsh(pkt, iphLen)
    ensures pkt[iphLen + 13] == 0x10
  {
  }
}

/** Addresses as the bytes the trie works on: the byte and word arithmetic reads and writes single bits. */
module IpBytes {
  import opened Bytes
  import Checksum
  import opened Words
  import opened TrieModel

  /** The bits of an address, most significant first. */
  function BitsOf(b: seq<byte>): (r: Bits)
    ensures |r| == 8 * |b|
  {
    seq(8 * |b|, i requires 0 <= i < 8 * |b| => HasBit(b[i / 8], 7 - i % 8))
  }

  /** The w low bits of a word, most significant first. */
  function WordBits(n: nat, w: nat): (r: Bits)
    ensures |r| == w
  {
    seq(w, i requires 0 <= i < w => HasBit(n, w - 1 - i))
  }

  /** choose: the byte cidr / 8, shifted by 7 - cidr % 8. */
  function Choose(ip: seq<byte>, cidr: nat): nat
    requires cidr / 8 < |ip|
  {
    ip[cidr / 8] / Pow2(7 - cidr % 8) % 2
  }

  /** It is the bit after the prefix. */
  lemma ChooseIsBit(ip: seq<byte>, cidr: nat)
    requires cidr < 8 * |ip|
    ensures cidr / 8 < |ip| && (Choose(ip, cidr) == 1 <==> BitsOf(ip)[cidr])
  {
    ShiftReads(ip[cidr / 8], 7 - cidr % 8);
  }

  /** bits.LeadingZeros for a word of width w. */
  function LeadingZeros(x: nat, w: nat): (z: nat)
    ensures z <= w && (z < w ==> HasBit(x, w - 1 - z))
    ensures forall j: nat :: w - z <= j < w ==> !HasBit(x, j)
  {
    if w == 0 || HasBit(x, w - 1) then 0 else LeadingZeros(x, w - 1) + 1
  }

  lemma {:induction false} CommonIs(a: Bits, b: Bits, c: nat)
    requires |a| == |b| && c <= |a|
    requires forall i :: 0 <= i < c ==> a[i] == b[i]
    requires c < |a| ==> a[c] != b[c]
    ensures CommonBits(a, b) == c
    decreases c
  {
    if c > 0 {
      assert a[0] == b[0];
      CommonIs(a[1..], b[1..], c - 1);
    }
  }

  /** The leading zeros of the exclusive or are the common bits. */
  lemma WordCommon(a: nat, b: nat, w: nat)
    ensures LeadingZeros(BitXor(a, b), w) == CommonBits(WordBits(a, w), WordBits(b, w))
  {
    hide LeadingZeros, BitXor, HasBit;
    var z := LeadingZeros(BitXor(a, b), w);
    forall i | 0 <= i < z ensures WordBits(a, w)[i] == WordBits(b, w)[i] { XorBit(a, b, w - 1 - i); }
    if z < w { XorBit(a, b, w - 1 - z); }
    CommonIs(WordBits(a, w), WordBits(b, w), z);
  }

  /** The bytes and the big-endian word have the same bits. */
  lemma {:induction false} BytesAreWord(b: seq<byte>)
    ensures BitsOf(b) == WordBits(BigEndian(b), 8 * |b|)
    decreases |b|
  {
    if |b| > 0 {
      var front, last := b[..|b| - 1], b[|b| - 1];
      BytesAreWord(front);
      PowByte();
      forall i | 0 <= i < 8 * |b| ensures BitsOf(b)[i] == WordBits(BigEndian(b), 8 * |b|)[i] {
        JoinedBit(BigEndian(front), last, 8, 8 * |b| - 1 - i);
        if i < 8 * |front| {
          assert BitsOf(front)[i] == WordBits(BigEndian(front), 8 * |front|)[i];
          assert front[i / 8] == b[i / 8];
        }
      }
    }
  }

  lemma BitsSplit(b: seq<byte>, k: nat)
    requires k <= |b|
    ensures BitsOf(b) == BitsOf(b[..k]) + BitsOf(b[k..])
  {
    forall i | 0 <= i < 8 * |b| ensures BitsOf(b)[i] == (BitsOf(b[..k]) + BitsOf(b[k..]))[i] {
      hide HasBit;
      if i >= 8 * k { ShiftedIndex(i, k); }
    }
  }

  lemma ShiftedIndex(i: nat, k: nat)
    requires i >= 8 * k
    ensures (i - 8 * k) / 8 == i / 8 - k && (i - 8 * k) % 8 == i % 8
  {
  }

  lemma {:induction false} CommonOfParts(a: Bits, b: Bits, c: Bits, d: Bits)
    requires |a| == |b| && |c| == |d|
    ensures CommonBits(a + c, b + d) == if CommonBits(a, b) < |a| then CommonBits(a, b) else |a| + CommonBits(c, d)
    decreases |a|
  {
    if |a| == 0 {
      assert a + c == c && b + d == d;
    } else {
      assert (a + c)[1..] == a[1..] + c && (b + d)[1..] == b[1..] + d;
      CommonOfParts(a[1..], b[1..], c, d);
    }
  }

  /** commonBits: one 32-bit word, or two 64-bit words. */
  function CommonBytes(ip1: seq<byte>, ip2: seq<byte>): nat
    requires |ip1| == |ip2| && (|ip1| == 4 || |ip1| == 16)
  {
    if |ip1| == 4 then LeadingZeros(BitXor(BigEndian(ip1), BigEndian(ip2)), 32)
    else
      var x := BitXor(BigEndian(ip1[..8]), BigEndian(ip2[..8]));
      if x != 0 then LeadingZeros(x, 64)
      else 64 + LeadingZeros(BitXor(BigEndian(ip1[8..]), BigEndian(ip2[8..])), 64)
  }

  lemma CommonBytesIsCommonBits(ip1: seq<byte>, ip2: seq<byte>)
    requires |ip1| == |ip2| && (|ip1| == 4 || |ip1| == 16)
    ensures CommonBytes(ip1, ip2) == CommonBits(BitsOf(ip1), BitsOf(ip2)) <= 128
  {
    hide BitsOf, LeadingZeros, BitXor, CommonBits, WordBits, BigEndian;
    if |ip1| == 4 {
      HalfCommon(ip1, ip2);
    } else {
      HalfCommon(ip1[..8], ip2[..8]);
      HalfCommon(ip1[8..], ip2[8..]);
      BitsSplit(ip1, 8);
      BitsSplit(ip2, 8);
      CommonOfParts(BitsOf(ip1[..8]), BitsOf(ip2[..8]), BitsOf(ip1[8..]), BitsOf(ip2[8..]));
      ZeroWord(ip1[..8], ip2[..8]);
    }
  }

  lemma HalfCommon(a: seq<byte>, b: seq<byte>)
    requires |a| == |b|
    ensures LeadingZeros(BitXor(BigEndian(a), BigEndian(b)), 8 * |a|) == CommonBits(BitsOf(a), BitsOf(b))
  {
    hide BitsOf, LeadingZeros, BitXor, CommonBits, WordBits, BigEndian;
    BytesAreWord(a);
    BytesAreWord(b);
    WordCommon(BigEndian(a), BigEndian(b), 8 * |a|);
  }

  /** The exclusive or is zero exactly when every bit is common. */
  lemma ZeroWord(a: seq<byte>, b: seq<byte>)
    requires |a| == |b| == 8
    ensures BitXor(BigEndian(a), BigEndian(b)) == 0 <==> CommonBits(BitsOf(a), BitsOf(b)) == 64
  {
    var m, n := BigEndian(a), BigEndian(b);
    var x := BitXor(m, n);
    hide BigEndian, BitXor, BitsOf, CommonBits, LeadingZeros;
    HalfCommon(a, b);
    if x == 0 {
      forall i: nat ensures !HasBit(0, i) { ZeroHasNoBit(i); }
      assert LeadingZeros(0, 64) == 64;
    } else if LeadingZeros(x, 64) == 64 {
      WordSize(a);
      WordSize(b);
      PowValues();
      XorFits(m, n, 64);
      forall i: nat ensures HasBit(x, i) <==> HasBit(0, i) {
        ZeroHasNoBit(i);
        if i >= 64 { SmallHasNoBit(x, 64, i); }
      }
      SameBits(x, 0);
    }
  }

  lemma WordSize(b: seq<byte>)
    requires |b| == 8
    ensures BigEndian(b) < 0x1_0000_0000_0000_0000
  {
    Checksum.BigEndianBound(b);
    Checksum.Pow256Of8();
  }

  /** Byte i of net.CIDRMask. */
  function MaskByte(cidr: nat, i: nat): byte {
    if cidr >= 8 * (i + 1) then 255
    else if cidr <= 8 * i then 0
    else
      PowByte();
      PowGrows(8 * (i + 1) - cidr, 8);
      256 - Pow2(8 * (i + 1) - cidr)
  }

  lemma MaskByteBits(cidr: nat, i: nat, j: nat)
    requires j < 8
    ensures HasBit(MaskByte(cidr, i), j) <==> 8 * i + (7 - j) < cidr
  {
    var n: nat := if cidr >= 8 * (i + 1) then 0 else if cidr <= 8 * i then 8 else 8 * (i + 1) - cidr;
    PowByte();
    assert MaskByte(cidr, i) == 256 - Pow2(n);
    HighOnes(n, 8, j);
  }

  /** 2^k - 2^n has exactly the bits from n up to k. */
  lemma {:induction false} HighOnes(n: nat, k: nat, j: nat)
    requires n <= k && j < k
    ensures Pow2(k) >= Pow2(n)
    ensures HasBit(Pow2(k) - Pow2(n), j) <==> n <= j
    decreases k
  {
    if n < k { PowGrows(n, k); }
    if n == 0 {
      if j > 0 {
        assert (Pow2(k) - 1) / 2 == Pow2(k - 1) - 1;
        HighOnes(0, k - 1, j - 1);
      }
    } else if j > 0 {
      assert (Pow2(k) - Pow2(n)) / 2 == Pow2(k - 1) - Pow2(n - 1);
      HighOnes(n - 1, k - 1, j - 1);
    }
  }

  lemma AndByteFits(a: byte, b: byte)
    ensures BitAnd(a, b) < 256
  {
    PowByte();
    AndFits(a, b, 8);
  }

  lemma {:induction false} AndFits(a: nat, b: nat, k: nat)
    requires a < Pow2(k)
    ensures BitAnd(a, b) < Pow2(k)
    decreases k
  {
    if k > 0 && a > 0 { AndFits(a / 2, b / 2, k - 1); }
  }

  /** maskSelf: clears every bit past the prefix. */
  method MaskSelf(bits: array<byte>, cidr: nat)
    requires cidr <= 8 * bits.Length
    modifies bits
    ensures BitsOf(bits[..]) == Mask(BitsOf(old(bits[..])), cidr)
  {
    hide HasBit, BitAnd, MaskByte;
    ghost var was := bits[..];
    var i := 0;
    while i < bits.Length
      invariant 0 <= i <= bits.Length
      invariant forall k :: 0 <= k < i ==> bits[k] == BitAnd(was[k], MaskByte(cidr, k))
      invariant forall k :: i <= k < bits.Length ==> bits[k] == was[k]
    {
      AndByteFits(bits[i], MaskByte(cidr, i));
      bits[i] := BitAnd(bits[i], MaskByte(cidr, i));
      i := i + 1;
    }
    forall k | 0 <= k < 8 * |was| ensures BitsOf(bits[..])[k] == Mask(BitsOf(was), cidr)[k] {
      AndBit(was[k / 8], MaskByte(cidr, k / 8), 7 - k % 8);
      MaskByteBits(cidr, k / 8, 7 - k % 8);
      assert BitsOf(was)[..cidr] == Mask(BitsOf(was), cidr)[..cidr];
      assert k < cidr ==> Mask(BitsOf(was), cidr)[k] == BitsOf(was)[k];
    }
  }
}

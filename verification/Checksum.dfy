/** The Internet checksum of tun/checksum.go: 64-bit words, end-around carry, four folds. */
module Checksum {
  import opened Bytes

  // ---------------------------------------------------------------------------------------------
  // Reference definition: section 2 of RFC 1071.

  /** Sum of the big-endian 16-bit words of b; an odd last byte is padded with a zero byte. */
  function WordSum(b: seq<byte>): nat {
    if |b| == 0 then 0
    else if |b| == 1 then b[0] * 256
    else Get16(b, 0) + WordSum(b[2..])
  }

  /** The one's complement 16-bit representative of a sum: zero only for zero. */
  function Fold(n: nat): (r: u16)
    ensures Represents(r, n)
  {
    if n == 0 then 0 else (n - 1) % 0xffff + 1
  }

  /** Two sums the checksum cannot tell apart: equal modulo 65535, and zero together. */
  predicate Represents(r: nat, n: nat) {
    (r - n) % 0xffff == 0 && (r == 0 <==> n == 0)
  }

  /** Being indistinguishable is exactly having the same 16-bit checksum. */
  lemma RepresentsIsEqualFold(a: nat, b: nat)
    ensures Represents(a, b) <==> Fold(a) == Fold(b)
  {
    if a > 0 && b > 0 { SameRemainder(a - 1, b - 1); }
  }

  lemma SameRemainder(x: nat, y: nat)
    ensures x % 0xffff == y % 0xffff <==> (x - y) % 0xffff == 0
  {
    var q := x / 0xffff - y / 0xffff;
    assert x - y == 0xffff * q + (x % 0xffff - y % 0xffff);
  }

  // ---------------------------------------------------------------------------------------------
  // Representation is a congruence.

  lemma RepresentsTransitive(a: nat, b: nat, c: nat)
    requires Represents(a, b) && Represents(b, c)
    ensures Represents(a, c)
  {
  }

  lemma RepresentsSum(a: nat, b: nat, c: nat, d: nat)
    requires Represents(a, b) && Represents(c, d)
    ensures Represents(a + c, b + d)
  {
  }

  lemma RepresentsMultiple(a: nat, b: nat, k: int)
    requires a - b == 0xffff * k
    requires a == 0 <==> b == 0
    ensures Represents(a, b)
  {
  }

  /** Multiplying by 256 swaps the bytes of a word; doing it twice changes nothing. */
  lemma RepresentsSwap(a: nat, b: nat)
    requires Represents(a, 256 * b)
    ensures Represents(256 * a, b)
  {
    var k := (a - 256 * b) / 0xffff;
    RepresentsMultiple(256 * a, b, 256 * k + b);
  }

  /** Even-length chunks can be summed separately. */
  lemma {:induction false} WordSumConcat(a: seq<byte>, b: seq<byte>)
    requires |a| % 2 == 0
    ensures WordSum(a + b) == WordSum(a) + WordSum(b)
  {
    if |a| == 0 {
      assert a + b == b;
    } else {
      assert (a + b)[2..] == a[2..] + b;
      WordSumConcat(a[2..], b);
    }
  }

  lemma WordSumPair(hi: byte, lo: byte)
    ensures WordSum([hi, lo]) == hi as int * 256 + lo as int
    ensures WordSum([hi]) == hi as int * 256
  {
    assert [hi, lo][2..] == [];
  }

  // ---------------------------------------------------------------------------------------------
  // Byte order.

  lemma {:induction false} BigEndianIsWordSum(b: seq<byte>)
    requires |b| % 2 == 0
    ensures Represents(BigEndian(b), WordSum(b))
  {
    if |b| > 0 {
      var n := |b|;
      var c, hi, lo := b[..n - 2], b[n - 2], b[n - 1];
      assert b[..n - 1][..n - 2] == c;
      assert BigEndian(b) == (BigEndian(c) * 256 + hi) * 256 + lo;
      assert b == c + [hi, lo];
      WordSumConcat(c, [hi, lo]);
      WordSumPair(hi, lo);
      BigEndianIsWordSum(c);
      ShiftWord(BigEndian(c), WordSum(c), hi, lo);
    }
  }

  lemma ShiftWord(v: nat, s: nat, hi: byte, lo: byte)
    requires Represents(v, s)
    ensures Represents((v * 256 + hi) * 256 + lo, s + (hi as int * 256 + lo as int))
  {
    var k := (v - s) / 0xffff;
    RepresentsMultiple((v * 256 + hi) * 256 + lo, s + (hi as int * 256 + lo as int), v + k);
  }

  lemma {:induction false} LittleEndianIsWordSum(b: seq<byte>)
    requires |b| % 2 == 0
    ensures Represents(LittleEndian(b), 256 * WordSum(b))
  {
    if |b| > 0 {
      assert b[1..][1..] == b[2..];
      LittleEndianIsWordSum(b[2..]);
      ShiftSwappedWord(LittleEndian(b[2..]), WordSum(b[2..]), b[0], b[1]);
    }
  }

  lemma ShiftSwappedWord(v: nat, s: nat, hi: byte, lo: byte)
    requires Represents(v, 256 * s)
    ensures Represents(hi + 256 * (lo + 256 * v), 256 * (hi as int * 256 + lo as int + s))
  {
    var k := (v - 256 * s) / 0xffff;
    RepresentsMultiple(hi + 256 * (lo + 256 * v), 256 * (hi as int * 256 + lo as int + s), v + k - hi);
  }

  /** The byte order that binary.NativeEndian stands for. */
  datatype Host = LittleHost | BigHost

  function NativeRead(host: Host, b: seq<byte>): nat {
    if host.BigHost? then BigEndian(b) else LittleEndian(b)
  }

  /** Storing v in native order and reading it back big-endian. */
  function Reorder(host: Host, v: u64): nat {
    if host.BigHost? then v else BigEndian(LittleBytes(v, 8))
  }

  /** What a sum of big-endian words weighs, modulo 65535, once read in native order. */
  function Weight(host: Host, sum: nat): nat {
    if host.BigHost? then sum else 256 * sum
  }

  lemma WeightSum(host: Host, a: nat, b: nat)
    ensures Weight(host, a + b) == Weight(host, a) + Weight(host, b)
  {
  }

  function Pow256(n: nat): nat {
    if n == 0 then 1 else 256 * Pow256(n - 1)
  }

  lemma Pow256Of8()
    ensures Pow256(8) == 0x1_0000_0000_0000_0000
  {
    assert Pow256(4) == 0x1_0000_0000;
    assert Pow256(8) == 256 * (256 * (256 * (256 * Pow256(4))));
  }

  lemma {:induction false} Pow256Monotone(m: nat, n: nat)
    requires m <= n
    ensures Pow256(m) <= Pow256(n)
  {
    if m < n {
      Pow256Monotone(m, n - 1);
    }
  }

  lemma {:induction false} LittleBytesValue(v: nat, n: nat)
    requires v < Pow256(n)
    ensures LittleEndian(LittleBytes(v, n)) == v
  {
    if n > 0 {
      LittleBytesValue(v / 256, n - 1);
      assert LittleBytes(v, n)[1..] == LittleBytes(v / 256, n - 1);
    }
  }

  lemma {:induction false} BigEndianBound(b: seq<byte>)
    ensures BigEndian(b) < Pow256(|b|)
  {
    if |b| > 0 {
      BigEndianBound(b[..|b| - 1]);
    }
  }

  lemma {:induction false} LittleEndianBound(b: seq<byte>)
    ensures LittleEndian(b) < Pow256(|b|)
  {
    if |b| > 0 {
      LittleEndianBound(b[1..]);
    }
  }

  lemma ReorderWeight(host: Host, v: u64)
    ensures Reorder(host, v) < 0x1_0000_0000_0000_0000
    ensures Represents(Reorder(host, v), Weight(host, v))
  {
    if host.LittleHost? {
      var b := LittleBytes(v, 8);
      LittleReorder(v, b);
    }
  }

  lemma LittleReorder(v: u64, b: seq<byte>)
    requires b == LittleBytes(v, 8)
    ensures BigEndian(b) < 0x1_0000_0000_0000_0000
    ensures Represents(BigEndian(b), 256 * v)
  {
    hide *;
    Pow256Of8();
    LittleBytesValue(v, 8);
    BigEndianBound(b);
    LittleEndianIsWordSum(b);
    BigEndianIsWordSum(b);
    RepresentsSwap(v, WordSum(b));
    RepresentsSymmetric(256 * v, WordSum(b));
    RepresentsTransitive(BigEndian(b), WordSum(b), 256 * v);
  }

  lemma RepresentsSymmetric(a: nat, b: nat)
    requires Represents(a, b)
    ensures Represents(b, a)
  {
  }

  /** A word read in native order weighs what its big-endian words weigh. */
  lemma NativeReadWeight(host: Host, b: seq<byte>)
    requires |b| % 2 == 0 && |b| <= 8
    ensures NativeRead(host, b) < 0x1_0000_0000_0000_0000
    ensures Represents(NativeRead(host, b), Weight(host, WordSum(b)))
  {
    BigEndianBound(b);
    LittleEndianBound(b);
    Pow256Of8();
    Pow256Monotone(|b|, 8);
    BigEndianIsWordSum(b);
    LittleEndianIsWordSum(b);
  }

  // ---------------------------------------------------------------------------------------------
  // The implementation.

  /** bits.Add64. */
  method Add64(x: u64, y: u64, carry: nat) returns (sum: u64, carryOut: nat)
    requires carry <= 1
    ensures carryOut <= 1
    ensures sum + carryOut * 0x1_0000_0000_0000_0000 == x + y + carry
  {
    var t := x + y + carry;
    if t < 0x1_0000_0000_0000_0000 {
      sum, carryOut := t, 0;
    } else {
      sum, carryOut := t - 0x1_0000_0000_0000_0000, 1;
    }
  }

  lemma EndAround(before: nat, w: nat, ac: nat, carry: nat)
    requires carry <= 1
    requires ac + carry * 0x1_0000_0000_0000_0000 == before + w
    ensures Represents(ac + carry, before + w)
  {
    assert 0x1_0000_0000_0000_0000 - 1 == 0xffff * 0x1_0001_0001_0001;
    RepresentsMultiple(ac + carry, before + w, -(carry as int) * 0x1_0001_0001_0001);
  }

  /** ac holds start plus the words of the first n bytes of b. */
  ghost predicate Summed(host: Host, ac: nat, start: nat, b: seq<byte>, n: nat)
    requires n <= |b|
  {
    Represents(ac, start + Weight(host, WordSum(b[..n])))
  }

  lemma SummedNothing(host: Host, start: nat, b: seq<byte>)
    ensures Summed(host, start, start, b, 0)
  {
  }

  lemma SummedAll(host: Host, ac: nat, start: nat, b: seq<byte>)
    requires Summed(host, ac, start, b, |b|)
    ensures Represents(ac, start + Weight(host, WordSum(b)))
  {
    assert b[..|b|] == b;
  }

  lemma SummedStep(host: Host, ac: nat, ac': nat, start: nat, b: seq<byte>, n: nat, m: nat)
    requires n <= m <= |b| && n % 2 == 0
    requires Summed(host, ac, start, b, n)
    requires Represents(ac', ac + Weight(host, WordSum(b[n..m])))
    ensures Summed(host, ac', start, b, m)
  {
    hide Represents, Weight, WordSum;
    assert b[..m] == b[..n] + b[n..m];
    WordSumConcat(b[..n], b[n..m]);
    var s, t := WordSum(b[..n]), WordSum(b[n..m]);
    WeightSum(host, s, t);
    RepresentsReflexive(Weight(host, t));
    RepresentsSum(ac, start + Weight(host, s), Weight(host, t), Weight(host, t));
    RepresentsTransitive(ac', ac + Weight(host, t), start + Weight(host, s) + Weight(host, t));
  }

  lemma RepresentsReflexive(a: nat)
    ensures Represents(a, a)
  {
  }

  lemma SummedWord(host: Host, before: nat, after: nat, w: nat, start: nat, b: seq<byte>, n: nat, m: nat)
    requires n <= m <= |b| && n % 2 == 0
    requires Summed(host, before, start, b, n)
    requires Represents(w, Weight(host, WordSum(b[n..m])))
    requires Represents(after, before + w)
    ensures Summed(host, after, start, b, m)
  {
    hide *;
    var t := Weight(host, WordSum(b[n..m]));
    RepresentsReflexive(before);
    RepresentsSum(before, before, w, t);
    RepresentsTransitive(after, before + w, before + t);
    SummedStep(host, before, after, start, b, n, m);
  }

  /** One run of chained additions followed by `ac += carry`: the carry is never lost. */
  method AddBlock(host: Host, ac0: u64, b: seq<byte>) returns (ac: u64)
    requires |b| % 8 == 0 && |b| > 0
    ensures Represents(ac, ac0 + Weight(host, WordSum(b)))
  {
    hide *;
    var carry := 0;
    ac := ac0;
    SummedNothing(host, ac0, b);
    for j := 0 to |b| / 8
      invariant carry <= 1
      invariant j == 0 ==> carry == 0
      invariant carry == 1 ==> ac <= 0x1_0000_0000_0000_0000 - 2
      invariant Summed(host, ac + carry, ac0, b, 8 * j)
    {
      ghost var before := ac + carry;
      var word := b[8 * j..8 * j + 8];
      var w := NativeRead(host, word);
      NativeReadWeight(host, word);
      ac, carry := Add64(ac, w, carry);
      EndAround(before, w, ac, carry);
      SummedWord(host, before, ac + carry, w, ac0, b, 8 * j, 8 * j + 8);
    }
    ac := ac + carry;
    SummedAll(host, ac, ac0, b);
  }

  /** A lone addition followed by `ac += carry`, for the 4-, 2- and 1-byte tails. */
  method AddTail(host: Host, ac0: u64, b: seq<byte>) returns (ac: u64)
    requires |b| % 2 == 0 && |b| <= 4
    ensures Represents(ac, ac0 + Weight(host, WordSum(b)))
  {
    hide *;
    NativeReadWeight(host, b);
    var w := NativeRead(host, b);
    var carry;
    ac, carry := Add64(ac0, w, 0);
    EndAround(ac0, w, ac, carry);
    ac := ac + carry;
    RepresentsReflexive(ac0);
    RepresentsSum(ac0, ac0, w, Weight(host, WordSum(b)));
    RepresentsTransitive(ac, ac0 + w, ac0 + Weight(host, WordSum(b)));
  }

  /** `if len(b) >= size`: sum one block of `size` bytes, a whole number of 64-bit words or a tail. */
  method TakeBlock(host: Host, ac0: u64, ghost start: nat, b: seq<byte>, n0: nat, size: nat)
    returns (ac: u64, n: nat)
    requires n0 <= |b| && n0 % 2 == 0
    requires size in {2, 4, 8, 16, 32, 64, 128}
    requires Summed(host, ac0, start, b, n0)
    ensures n0 <= n <= |b| && n % 2 == 0
    ensures n == if |b| - n0 >= size then n0 + size else n0
    ensures Summed(host, ac, start, b, n)
  {
    hide *;
    ac, n := ac0, n0;
    if |b| - n >= size {
      if size >= 8 {
        ac := AddBlock(host, ac, b[n..n + size]);
      } else {
        ac := AddTail(host, ac, b[n..n + size]);
      }
      SummedStep(host, ac0, ac, start, b, n, n + size);
      n := n + size;
    }
  }

  /** The last byte of an odd-length string counts as the high half of a word. */
  method AddOddByte(host: Host, ac0: u64, ghost start: nat, b: seq<byte>) returns (ac: u64)
    requires |b| % 2 == 1
    requires Summed(host, ac0, start, b, |b| - 1)
    ensures Summed(host, ac, start, b, |b|)
  {
    hide *;
    var n := |b| - 1;
    ac := AddTail(host, ac0, [b[n], 0]);
    assert b[n..|b|] == [b[n]];
    WordSumPair(b[n], 0);
    SummedStep(host, ac0, ac, start, b, n, |b|);
  }

  /** The last seven bytes at most: a 4-byte tail, a 2-byte tail and an odd byte. */
  method AddTails(host: Host, ac0: u64, ghost start: nat, b: seq<byte>, n0: nat) returns (ac: u64)
    requires n0 <= |b| < n0 + 8 && n0 % 2 == 0
    requires Summed(host, ac0, start, b, n0)
    ensures Summed(host, ac, start, b, |b|)
  {
    hide *;
    var n;
    ac, n := TakeBlock(host, ac0, start, b, n0, 4);
    ac, n := TakeBlock(host, ac, start, b, n, 2);
    if |b| - n == 1 {
      ac := AddOddByte(host, ac, start, b);
    }
  }

  /** checksumNoFold: blocks of 128 bytes, then at most one block each of 64 down to 2, then an odd byte. */
  method ChecksumNoFold(host: Host, b: seq<byte>, initial: u64) returns (r: u64)
    ensures Represents(r, initial + WordSum(b))
  {
    hide *;
    ReorderWeight(host, initial);
    var ac: u64 := Reorder(host, initial);
    ghost var start: nat := ac;
    var n := 0;
    SummedNothing(host, start, b);
    while |b| - n >= 128
      invariant 0 <= n <= |b| && n % 2 == 0
      invariant Summed(host, ac, start, b, n)
    {
      ac, n := TakeBlock(host, ac, start, b, n, 128);
    }
    ac, n := TakeBlock(host, ac, start, b, n, 64);
    ac, n := TakeBlock(host, ac, start, b, n, 32);
    ac, n := TakeBlock(host, ac, start, b, n, 16);
    ac, n := TakeBlock(host, ac, start, b, n, 8);
    ac := AddTails(host, ac, start, b, n);
    SummedAll(host, ac, start, b);
    ReorderWeight(host, ac);
    r := Reorder(host, ac);
    Unweigh(host, initial, start, WordSum(b), ac, r);
  }

  /** The second reordering undoes the first as far as the checksum can see. */
  lemma Unweigh(host: Host, initial: nat, start: nat, s: nat, ac: nat, r: nat)
    requires Represents(start, Weight(host, initial))
    requires Represents(ac, start + Weight(host, s))
    requires Represents(r, Weight(host, ac))
    ensures Represents(r, initial + s)
  {
    hide Represents;
    RepresentsReflexive(Weight(host, s));
    RepresentsSum(start, Weight(host, initial), Weight(host, s), Weight(host, s));
    RepresentsTransitive(ac, start + Weight(host, s), Weight(host, initial + s));
    if host.LittleHost? {
      RepresentsSwap(ac, initial + s);
    }
    RepresentsTransitive(r, Weight(host, ac), initial + s);
  }

  /** checksum: the exact section 2 of RFC 1071 value; the four folds always fit 16 bits. */
  method Checksum16(host: Host, b: seq<byte>, initial: u64) returns (r: u16)
    ensures r == Fold(initial + WordSum(b))
  {
    hide Represents, WordSum, Fold;
    var sum := ChecksumNoFold(host, b, initial);
    var ac: nat := sum;
    ghost var total := initial + WordSum(b);
    for i := 0 to 4
      invariant Represents(ac, total)
      invariant ac <= (if i == 0 then 0x1_0000_0000_0000_0000 - 1 else if i == 1 then 0x1_0000_0000_fffe
                       else if i == 2 then 0x1_0000_fffe else if i == 3 then 0x1_fffe else 0xffff)
    {
      FoldStep(ac, total);
      ac := ac / 0x1_0000 + ac % 0x1_0000;
    }
    FoldOfSmall(ac);
    RepresentsIsEqualFold(ac, total);
    r := ac;
  }

  lemma FoldStep(ac: nat, total: nat)
    requires Represents(ac, total)
    ensures Represents(ac / 0x1_0000 + ac % 0x1_0000, total)
  {
    assert ac == ac / 0x1_0000 * 0x1_0000 + ac % 0x1_0000;
    RepresentsMultiple(ac / 0x1_0000 + ac % 0x1_0000, ac, -(ac / 0x1_0000));
    RepresentsTransitive(ac / 0x1_0000 + ac % 0x1_0000, ac, total);
  }

  lemma FoldOfSmall(n: nat)
    requires n <= 0xffff
    ensures Fold(n) == n
  {
  }

  /** Sum of the pseudo-header: source, destination, zero-padded protocol and length. */
  function PseudoSum(protocol: byte, src: seq<byte>, dst: seq<byte>, totalLen: u16): nat {
    WordSum(src) + WordSum(dst) + protocol as int + totalLen
  }

  /** pseudoHeaderChecksumNoFold: chaining partial sums through `initial` loses nothing a fold can see. */
  method PseudoHeaderChecksumNoFold(host: Host, protocol: byte, src: seq<byte>, dst: seq<byte>, totalLen: u16)
    returns (r: u64)
    ensures Represents(r, PseudoSum(protocol, src, dst, totalLen))
  {
    hide Represents, WordSum;
    var s := ChecksumNoFold(host, src, 0);
    var t := ChecksumNoFold(host, dst, s);
    Chain(s, WordSum(src), WordSum(dst), t);
    var u := ChecksumNoFold(host, [0, protocol], t);
    WordSumPair(0, protocol);
    Chain(t, WordSum(src) + WordSum(dst), protocol, u);
    r := ChecksumNoFold(host, [totalLen / 256, totalLen % 256], u);
    WordSumPair(totalLen / 256, totalLen % 256);
    Chain(u, WordSum(src) + WordSum(dst) + protocol as int, totalLen, r);
  }

  lemma Chain(a: nat, n: nat, m: nat, b: nat)
    requires Represents(a, n)
    requires Represents(b, a + m)
    ensures Represents(b, n + m)
  {
    hide *;
    RepresentsReflexive(m);
    RepresentsSum(a, n, m, m);
    RepresentsTransitive(b, a + m, n + m);
  }

  // ---------------------------------------------------------------------------------------------
  // Storing a checksum makes the covered bytes verify.

  lemma {:induction false} WordSumPut16(b: seq<byte>, at: nat, v: u16)
    requires at % 2 == 0 && at + 2 <= |b|
    ensures WordSum(Put16(b, at, v)) == WordSum(b) - Get16(b, at) + v
  {
    var r := Put16(b, at, v);
    if at == 0 {
      assert r[2..] == b[2..];
    } else {
      assert r[2..] == Put16(b[2..], at - 2, v);
      WordSumPut16(b[2..], at - 2, v);
    }
  }

  /** Storing the complement of the folded sum in a zeroed even field makes the total fold to all ones. */
  lemma StoredChecksumVerifies(b: seq<byte>, at: nat, pseudo: nat)
    requires at % 2 == 0 && at + 2 <= |b|
    requires Get16(b, at) == 0
    ensures Fold(pseudo + WordSum(Put16(b, at, 0xffff - Fold(pseudo + WordSum(b))))) == 0xffff
  {
    WordSumPut16(b, at, 0xffff - Fold(pseudo + WordSum(b)));
  }

  /**
   The same for a field that was not clear: the total verifies exactly when the overwritten word counted for nothing.
   */
  lemma StoredVerifiesExactly(b: seq<byte>, at: nat, pseudo: nat)
    requires at % 2 == 0 && at + 2 <= |b| && pseudo > 0
    ensures Fold(pseudo + WordSum(Put16(b, at, 0xffff - Fold(pseudo + WordSum(b))))) == 0xffff <==>
      Get16(b, at) % 0xffff == 0
  {
    hide WordSum;
    var x, k := pseudo + WordSum(b), Get16(b, at);
    WordSumPut16(b, at, 0xffff - Fold(x));
    WordInSum(b, at);
    OverwrittenFold(x, k);
  }

  /** A word of b is part of its sum. */
  lemma WordInSum(b: seq<byte>, at: nat)
    requires at % 2 == 0 && at + 2 <= |b|
    ensures Get16(b, at) <= WordSum(b)
  {
    WordSumPut16(b, at, 0);
  }

  lemma OverwrittenFold(x: nat, k: u16)
    requires x > k
    ensures Fold(x - k + (0xffff - Fold(x))) == 0xffff <==> k % 0xffff == 0
  {
    var q := (x - 1) / 0xffff;
    assert Fold(x) == x - 0xffff * q;
    assert x - k + (0xffff - Fold(x)) == 0xffff * (q + 1) - k;
    FoldOfMultiple(q + 1, k);
  }

  lemma FoldOfMultiple(m: nat, k: u16)
    requires 0xffff * m > k
    ensures Fold(0xffff * m - k) == 0xffff <==> k % 0xffff == 0
  {
  }

  /** What one byte counts for, by its position. */
  function ByteWeight(at: nat): nat { if at % 2 == 0 then 256 else 1 }

  lemma {:induction false} WordSumSetByte(b: seq<byte>, at: nat, x: byte)
    requires at < |b|
    ensures WordSum(b[at := x]) == WordSum(b) + ByteWeight(at) * (x - b[at])
    decreases |b|
  {
    if at >= 2 {
      assert b[at := x][2..] == b[2..][at - 2 := x];
      WordSumSetByte(b[2..], at - 2, x);
    } else if |b| >= 2 {
      assert b[at := x][2..] == b[2..];
    }
  }

  /** A value stored at an odd position counts with its bytes exchanged. */
  function Exchanged(v: u16): nat { v / 256 + 256 * (v % 256) }

  lemma WordSumPutOdd(b: seq<byte>, at: nat, v: u16)
    requires at % 2 == 1 && at + 2 <= |b|
    ensures WordSum(Put16(b, at, v)) == WordSum(b) - Exchanged(Get16(b, at)) + Exchanged(v)
  {
    hide WordSum;
    WordSumSetByte(b, at, v / 256);
    WordSumSetByte(b[at := v / 256], at + 1, v % 256);
  }

  /**
   The complement stored at an odd position: of two byte strings that differ by one in one other byte, at most one
   verifies.
   */
  lemma OddStoredFails(b: seq<byte>, at: nat, pseudo: nat, p: nat, x: byte)
    requires at % 2 == 1 && at + 2 <= |b| && pseudo > 0
    requires p < |b| && (p < at || at + 2 <= p) && (x as int == b[p] as int + 1 || b[p] as int == x as int + 1)
    ensures var b' := b[p := x];
      !(Fold(pseudo + WordSum(Put16(b, at, 0xffff - Fold(pseudo + WordSum(b))))) == 0xffff
        && Fold(pseudo + WordSum(Put16(b', at, 0xffff - Fold(pseudo + WordSum(b'))))) == 0xffff)
  {
    hide WordSum;
    var b' := b[p := x];
    var y, y' := pseudo + WordSum(b), pseudo + WordSum(b');
    WordSumSetByte(b, p, x);
    WordSumPutOdd(b, at, 0xffff - Fold(y));
    WordSumPutOdd(b', at, 0xffff - Fold(y'));
    OddTotals(y, y', Exchanged(Get16(b, at)));
  }

  lemma OddTotals(y: nat, y': nat, k: nat)
    requires y > 0 && y' > 0 && (y' - y in {1, -1, 256, -256})
    requires y - k + Exchanged(0xffff - Fold(y)) >= 0 && y' - k + Exchanged(0xffff - Fold(y')) >= 0
    ensures !(&& Fold(y - k + Exchanged(0xffff - Fold(y))) == 0xffff
              && Fold(y' - k + Exchanged(0xffff - Fold(y'))) == 0xffff)
  {
    hide Fold, Exchanged;
    var m := OddTotal(y, k);
    var m' := OddTotal(y', k);
    var q := FoldFull(y - k + Exchanged(0xffff - Fold(y)));
    var q' := FoldFull(y' - k + Exchanged(0xffff - Fold(y')));
    NoMultiple(y' - y, m' - m - q' + q);
  }

  lemma NoMultiple(d: int, e: int)
    requires d in {1, -1, 256, -256}
    ensures 255 * d != 0xffff * e
  {
  }

  /** Modulo 65535 the total is -255 y - k. */
  lemma OddTotal(y: nat, k: nat) returns (m: int)
    requires y > 0
    ensures y - k + Exchanged(0xffff - Fold(y)) == 0xffff * m - 255 * y - k
  {
    var v := 0xffff - Fold(y);
    var q := (y - 1) / 0xffff;
    assert Fold(y) == y - 0xffff * q;
    assert Exchanged(v) == 256 * v - 0xffff * (v / 256);
    m := 256 * (q + 1) - v / 256;
  }

  lemma FoldFull(n: nat) returns (q: int)
    ensures Fold(n) == 0xffff ==> n == 0xffff * q
  {
    q := n / 0xffff;
  }
}

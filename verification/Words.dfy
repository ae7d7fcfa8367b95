/** The bitwise operators of the machine words the sources compute with, on natural numbers. */
module Words {

  function Pow2(k: nat): (r: nat)
    ensures r >= 1
  {
    if k == 0 then 1 else 2 * Pow2(k - 1)
  }

  predicate HasBit(n: nat, i: nat) {
    if i == 0 then n % 2 == 1 else HasBit(n / 2, i - 1)
  }

  function BitOr(a: nat, b: nat): nat {
    if a == 0 then b
    else 2 * BitOr(a / 2, b / 2) + (if a % 2 == 1 || b % 2 == 1 then 1 else 0)
  }

  function BitAnd(a: nat, b: nat): nat {
    if a == 0 then 0
    else 2 * BitAnd(a / 2, b / 2) + (if a % 2 == 1 && b % 2 == 1 then 1 else 0)
  }

  lemma {:induction false} ZeroHasNoBit(i: nat)
    ensures !HasBit(0, i)
  {
    if i > 0 { ZeroHasNoBit(i - 1); }
  }

  lemma {:induction false} OrBit(a: nat, b: nat, i: nat)
    ensures HasBit(BitOr(a, b), i) <==> HasBit(a, i) || HasBit(b, i)
    decreases i
  {
    if a == 0 {
      ZeroHasNoBit(i);
    } else if i > 0 {
      OrBit(a / 2, b / 2, i - 1);
    }
  }

  lemma {:induction false} AndBit(a: nat, b: nat, i: nat)
    ensures HasBit(BitAnd(a, b), i) <==> HasBit(a, i) && HasBit(b, i)
    decreases i
  {
    if a == 0 {
      ZeroHasNoBit(i);
    } else if i > 0 {
      AndBit(a / 2, b / 2, i - 1);
    }
  }

  lemma {:induction false} PowBit(k: nat, i: nat)
    ensures HasBit(Pow2(k), i) <==> i == k
  {
    if k == 0 {
      if i > 0 { ZeroHasNoBit(i - 1); }
    } else if i > 0 {
      PowBit(k - 1, i - 1);
    }
  }

  /** Two words with the same bits are the same word. */
  lemma {:induction false} SameBits(a: nat, b: nat)
    requires forall i: nat :: HasBit(a, i) <==> HasBit(b, i)
    ensures a == b
    decreases a + b
  {
    if a != 0 || b != 0 {
      forall i: nat ensures HasBit(a / 2, i) <==> HasBit(b / 2, i) {
        assert HasBit(a, i + 1) <==> HasBit(b, i + 1);
      }
      SameBits(a / 2, b / 2);
      assert HasBit(a, 0) <==> HasBit(b, 0);
    }
  }

  /** Setting a bit changes the word exactly when the bit was clear. */
  lemma SettingChanges(n: nat, k: nat)
    ensures BitOr(n, Pow2(k)) == n <==> HasBit(n, k)
  {
    OrBit(n, Pow2(k), k);
    PowBit(k, k);
    if HasBit(n, k) {
      forall i: nat ensures HasBit(BitOr(n, Pow2(k)), i) <==> HasBit(n, i) {
        OrBit(n, Pow2(k), i);
        PowBit(k, i);
      }
      SameBits(BitOr(n, Pow2(k)), n);
    }
  }

  lemma {:induction false} OrFits(a: nat, b: nat, k: nat)
    requires a < Pow2(k) && b < Pow2(k)
    ensures BitOr(a, b) < Pow2(k)
    decreases k
  {
    if k > 0 && a > 0 {
      OrFits(a / 2, b / 2, k - 1);
    }
  }

  lemma {:induction false} PowGrows(i: nat, k: nat)
    requires i < k
    ensures Pow2(i) < Pow2(k)
    decreases k
  {
    if i < k - 1 { PowGrows(i, k - 1); }
  }

  /** Masking with 2^k - 1 is the remainder by 2^k. */
  lemma {:induction false} LowMask(n: nat, k: nat)
    ensures BitAnd(n, Pow2(k) - 1) == Rem(n, Pow2(k))
    decreases k
  {
    hide Rem;
    if n == 0 {
      RemOfSmall(0, Pow2(k));
    } else if k == 0 {
      AndZero(n);
      RemByOne(n);
    } else {
      var p := Pow2(k - 1);
      LowMask(n / 2, k - 1);
      assert (2 * p - 1) / 2 == p - 1 && (2 * p - 1) % 2 == 1;
      RemOfDouble(n, p);
    }
  }

  function Rem(n: nat, d: nat): (r: nat)
    requires d > 0
    ensures r < d
  {
    n % d
  }

  lemma RemByOne(n: nat)
    ensures Rem(n, 1) == 0
  {
  }

  lemma RemOfSmall(n: nat, d: nat)
    requires n < d
    ensures Rem(n, d) == n
  {
  }

  lemma {:induction false} AndZero(n: nat)
    ensures BitAnd(n, 0) == 0
  {
    if n > 0 { AndZero(n / 2); }
  }

  lemma RemOfDouble(n: nat, p: nat)
    requires p > 0
    ensures Rem(n, 2 * p) == 2 * Rem(n / 2, p) + n % 2
  {
    var q, r := (n / 2) / p, (n / 2) % p;
    assert n == 2 * (q * p + r) + n % 2;
    assert n == q * (2 * p) + (2 * r + n % 2);
    RemUnique(n, 2 * p, q, 2 * r + n % 2);
  }

  lemma RemUnique(n: nat, d: nat, q: nat, r: nat)
    requires d > 0 && n == q * d + r && r < d
    ensures Rem(n, d) == r
  {
    var q', r' := n / d, n % d;
    assert (q - q') * d == r' - r;
    assert q - q' >= 1 ==> (q - q') * d >= d;
    assert q' - q >= 1 ==> (q' - q) * d >= d;
  }

  lemma {:induction false} PowSum(a: nat, b: nat)
    ensures Pow2(a + b) == Pow2(a) * Pow2(b)
    decreases a
  {
    if a > 0 {
      PowSum(a - 1, b);
      assert Pow2(a + b) == 2 * Pow2(a - 1 + b);
    }
  }

  lemma {:induction false} AndOfOr(a: nat, b: nat, h: nat)
    ensures BitAnd(BitOr(a, b), h) == BitOr(BitAnd(a, h), BitAnd(b, h))
    decreases a + b
  {
    if a == 0 {
    } else {
      AndOfOr(a / 2, b / 2, h / 2);
      if b == 0 { OrZero(a); OrZero(BitAnd(a, h)); }
    }
  }

  lemma {:induction false} OrZero(a: nat)
    ensures BitOr(a, 0) == a
  {
    if a > 0 { OrZero(a / 2); }
  }

  lemma ZeroOr(b: nat)
    ensures BitOr(0, b) == b
  {
  }

  lemma PowByte()
    ensures Pow2(8) == 256
  {
  }

  lemma PowValues()
    ensures Pow2(16) == 0x1_0000 && Pow2(32) == 0x1_0000_0000 && Pow2(64) == 0x1_0000_0000_0000_0000
  {
    hide Pow2;
    PowByte();
    PowSum(8, 8);
    PowSum(16, 16);
    PowSum(32, 32);
  }

  function BitXor(a: nat, b: nat): nat {
    if a == 0 then b
    else 2 * BitXor(a / 2, b / 2) + (if a % 2 != b % 2 then 1 else 0)
  }

  lemma {:induction false} XorZero(a: nat)
    ensures BitXor(a, 0) == a
  {
    if a > 0 { XorZero(a / 2); }
  }

  /** Applying the same mask twice gives the word back. */
  lemma {:induction false} XorTwice(a: nat, b: nat)
    ensures BitXor(BitXor(a, b), b) == a
    decreases a + b
  {
    if a == 0 {
      XorSelf(b);
    } else {
      XorTwice(a / 2, b / 2);
      if BitXor(a, b) == 0 { XorIsZero(a, b); }
    }
  }

  lemma {:induction false} XorSelf(b: nat)
    ensures BitXor(b, b) == 0
  {
    if b > 0 { XorSelf(b / 2); }
  }

  lemma {:induction false} XorIsZero(a: nat, b: nat)
    requires BitXor(a, b) == 0
    ensures a == b
    decreases a
  {
    if a > 0 { XorIsZero(a / 2, b / 2); }
  }

  lemma {:induction false} XorFits(a: nat, b: nat, k: nat)
    requires a < Pow2(k) && b < Pow2(k)
    ensures BitXor(a, b) < Pow2(k)
    decreases k
  {
    if k > 0 && a > 0 {
      XorFits(a / 2, b / 2, k - 1);
    }
  }

  lemma {:induction false} XorBit(a: nat, b: nat, i: nat)
    ensures HasBit(BitXor(a, b), i) <==> HasBit(a, i) != HasBit(b, i)
    decreases i
  {
    if a == 0 {
      ZeroHasNoBit(i);
    } else if i > 0 {
      XorBit(a / 2, b / 2, i - 1);
    }
  }

  /** Shifting right by k and keeping the last bit reads bit k. */
  lemma {:induction false} ShiftReads(n: nat, k: nat)
    ensures n / Pow2(k) % 2 == 1 <==> HasBit(n, k)
    decreases k
  {
    if k > 0 {
      ShiftReads(n / 2, k - 1);
      HalvesDivide(n, Pow2(k - 1));
    }
  }

  lemma HalvesDivide(n: nat, p: nat)
    requires p > 0
    ensures n / (2 * p) == n / 2 / p
  {
    var q, r := n / 2 / p, n / 2 % p;
    assert n / 2 == q * p + r;
    assert q * (2 * p) == 2 * (q * p);
    QuotientUnique(n, 2 * p, q, 2 * r + n % 2);
  }

  lemma QuotientUnique(x: nat, g: nat, q: nat, r: nat)
    requires g > 0 && x == q * g + r && r < g
    ensures x / g == q
  {
    var q', r' := x / g, x % g;
    assert (q - q') * g == r' - r;
    assert q - q' >= 1 ==> (q - q') * g >= g;
    assert q' - q >= 1 ==> (q' - q) * g >= g;
  }

  /** The bits of a high part followed by k low bits. */
  lemma {:induction false} JoinedBit(m: nat, l: nat, k: nat, i: nat)
    requires l < Pow2(k)
    ensures HasBit(m * Pow2(k) + l, i) <==> if i < k then HasBit(l, i) else HasBit(m, i - k)
    decreases k
  {
    if k > 0 {
      var n, p := m * Pow2(k) + l, Pow2(k - 1);
      assert n == 2 * (m * p + l / 2) + l % 2;
      assert n / 2 == m * p + l / 2 && n % 2 == l % 2;
      if i > 0 { JoinedBit(m, l / 2, k - 1, i - 1); }
    }
  }

  /** No bit beyond the width. */
  lemma {:induction false} SmallHasNoBit(n: nat, k: nat, i: nat)
    requires n < Pow2(k) && k <= i
    ensures !HasBit(n, i)
    decreases k
  {
    if k == 0 {
      ZeroHasNoBit(i);
    } else {
      SmallHasNoBit(n / 2, k - 1, i - 1);
    }
  }
}

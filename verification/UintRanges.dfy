/** The header ranges: two 32-bit bounds packed into one word, and their text form. */
module UintRanges {
  import opened Bytes
  import opened Options

  type UintRange = u64

  function Lo(r: UintRange): u32 { r % 0x1_0000_0000 }

  function Hi(r: UintRange): u32 { r / 0x1_0000_0000 }

  function FromUint32(lo: u32, hi: u32): UintRange { hi * 0x1_0000_0000 + lo }

  lemma Bounds(lo: u32, hi: u32)
    ensures Lo(FromUint32(lo, hi)) == lo && Hi(FromUint32(lo, hi)) == hi
  {
  }

  lemma Repacks(r: UintRange)
    ensures FromUint32(Lo(r), Hi(r)) == r
  {
  }

  predicate Proper(r: UintRange) { Lo(r) <= Hi(r) }

  predicate Contains(r: UintRange, n: u32) { Lo(r) <= n <= Hi(r) }

  predicate Overlap(r: UintRange, q: UintRange) { Lo(r) <= Hi(q) && Lo(q) <= Hi(r) }

  /** Two proper ranges overlap exactly when some number is in both. */
  lemma OverlapMeans(r: UintRange, q: UintRange)
    requires Proper(r) && Proper(q)
    ensures Overlap(r, q) <==> exists n: u32 :: Contains(r, n) && Contains(q, n)
  {
    var n: u32 := if Lo(r) <= Lo(q) then Lo(q) else Lo(r);
    if Overlap(r, q) { assert Contains(r, n) && Contains(q, n); }
  }

  /** runtime.fastrandn: the high word of a 32-bit random number times n. */
  function FastRandN(random: u32, n: u32): (r: u32)
    ensures n > 0 ==> r < n
    ensures n == 0 ==> r == 0
  {
    HighWord(random, n);
    random * n / 0x1_0000_0000
  }

  lemma HighWord(random: u32, n: u32)
    ensures 0 <= random * n / 0x1_0000_0000 <= n
    ensures n > 0 ==> random * n / 0x1_0000_0000 < n
    ensures n == 0 ==> random * n / 0x1_0000_0000 == 0
  {
    assert random * n <= (0x1_0000_0000 - 1) * n;
  }

  function PickOne(r: UintRange, random: u32): u32 {
    (Lo(r) + FastRandN(random, (Hi(r) - Lo(r) + 1) % 0x1_0000_0000)) % 0x1_0000_0000
  }

  /** The picked number is in the range, also for the full range, where the span wraps to zero. */
  lemma PickedIsContained(r: UintRange, random: u32)
    requires Proper(r)
    ensures Contains(r, PickOne(r, random))
  {
    hide FastRandN;
    var n: u32 := (Hi(r) - Lo(r) + 1) % 0x1_0000_0000;
    var k := FastRandN(random, n);
    assert k <= Hi(r) - Lo(r);
  }

  /* Text. */

  function Digit(d: nat): char
    requires d < 10
  {
    '0' + d as char
  }

  /** %d */
  function Decimal(n: nat): (s: string)
    ensures |s| > 0 && forall i :: 0 <= i < |s| ==> '0' <= s[i] <= '9'
  {
    if n < 10 then [Digit(n)] else Decimal(n / 10) + [Digit(n % 10)]
  }

  function Digits(s: string): Option<nat> {
    if s == [] then None
    else
      var c := s[|s| - 1];
      if !('0' <= c <= '9') then None
      else if |s| == 1 then Some((c - '0') as nat)
      else
        var front := Digits(s[..|s| - 1]);
        if front.None? then None else Some(10 * front.value + (c - '0') as nat)
  }

  /** strconv.ParseUint(s, 10, 32) */
  function ParseUint32(s: string): Option<u32> {
    var v := Digits(s);
    if v.Some? && v.value < 0x1_0000_0000 then Some(v.value) else None
  }

  /** strings.Split(s, "-") */
  function Split(s: string): (r: seq<string>)
    ensures |r| > 0
  {
    if s == [] then [[]]
    else
      var rest := Split(s[1..]);
      if s[0] == '-' then [[]] + rest else [[s[0]] + rest[0]] + rest[1..]
  }

  function FromString(s: string): (r: Option<UintRange>)
    ensures r.Some? ==> Proper(r.value)
  {
    var parts := Split(s);
    if |parts| > 2 then None
    else
      var lo := ParseUint32(parts[0]);
      if lo.None? then None
      else
        var hi := if |parts| > 1 then ParseUint32(parts[1]) else lo;
        if hi.None? || hi.value < lo.value then None
        else
          Bounds(lo.value, hi.value);
          Some(FromUint32(lo.value, hi.value))
  }

  function ToString(r: UintRange): string {
    if Lo(r) == Hi(r) then Decimal(Lo(r)) else Decimal(Lo(r)) + "-" + Decimal(Hi(r))
  }

  lemma {:induction false} DecimalParses(n: nat)
    ensures Digits(Decimal(n)) == Some(n)
  {
    if n >= 10 {
      DecimalParses(n / 10);
      assert Decimal(n)[..|Decimal(n)| - 1] == Decimal(n / 10);
    }
  }

  lemma {:induction false} SplitPlain(s: string)
    requires forall i :: 0 <= i < |s| ==> s[i] != '-'
    ensures Split(s) == [s]
  {
    if s != [] {
      SplitPlain(s[1..]);
      assert [s[0]] + s[1..] == s;
      assert Split(s[1..])[1..] == [];
    }
  }

  lemma {:induction false} SplitOnce(a: string, b: string)
    requires forall i :: 0 <= i < |a| ==> a[i] != '-'
    requires forall i :: 0 <= i < |b| ==> b[i] != '-'
    ensures Split(a + "-" + b) == [a, b]
    decreases |a|
  {
    var s := a + "-" + b;
    if a == [] {
      assert s[0] == '-' && s[1..] == b;
      SplitPlain(b);
    } else {
      assert s[0] == a[0] && s[1..] == a[1..] + "-" + b;
      SplitOnce(a[1..], b);
      assert [a[0]] + a[1..] == a;
      assert Split(s[1..])[1..] == [b];
    }
  }

  /** What is printed is read back, for every range a set operation can store. */
  lemma TextRoundTrip(r: UintRange)
    requires Proper(r)
    ensures FromString(ToString(r)) == Some(r)
  {
    hide Decimal, Split, Digits, Lo, Hi, FromUint32;
    var a, b := Decimal(Lo(r)), Decimal(Hi(r));
    Repacks(r);
    DecimalParses(Lo(r));
    DecimalParses(Hi(r));
    if Lo(r) == Hi(r) { SplitPlain(a); } else { SplitOnce(a, b); }
  }
}

/** Byte strings and the fixed-width integers the packet code reads from and writes into them. */
module Bytes {

  type byte = x: int | 0 <= x < 256

  type u16 = x: int | 0 <= x < 0x1_0000

  type u32 = x: int | 0 <= x < 0x1_0000_0000

  type u64 = x: int | 0 <= x < 0x1_0000_0000_0000_0000

  predicate IsZero(b: seq<byte>) {
    forall i :: 0 <= i < |b| ==> b[i] == 0
  }

  /** Value of a byte string, most significant byte first. */
  function BigEndian(b: seq<byte>): nat {
    if |b| == 0 then 0 else BigEndian(b[..|b| - 1]) * 256 + b[|b| - 1]
  }

  /** Value of a byte string, least significant byte first. */
  function LittleEndian(b: seq<byte>): nat {
    if |b| == 0 then 0 else b[0] + 256 * LittleEndian(b[1..])
  }

  /** The n low-order bytes of v, least significant first. */
  function LittleBytes(v: nat, n: nat): (b: seq<byte>)
    ensures |b| == n
  {
    if n == 0 then [] else [v % 256] + LittleBytes(v / 256, n - 1)
  }

  function Get16(b: seq<byte>, at: nat): (v: u16)
    requires at + 2 <= |b|
  {
    b[at] as int * 256 + b[at + 1] as int
  }

  function Put16(b: seq<byte>, at: nat, v: u16): (r: seq<byte>)
    requires at + 2 <= |b|
    ensures |r| == |b|
  {
    b[at := v / 256][at + 1 := v % 256]
  }

  function Get32(b: seq<byte>, at: nat): (v: u32)
    requires at + 4 <= |b|
  {
    Get16(b, at) * 0x1_0000 + Get16(b, at + 2)
  }

  function Put32(b: seq<byte>, at: nat, v: u32): (r: seq<byte>)
    requires at + 4 <= |b|
    ensures |r| == |b|
  {
    Put16(Put16(b, at, v / 0x1_0000), at + 2, v % 0x1_0000)
  }

  /** Reading back what was stored, and what a store leaves alone. */
  lemma Put32Get(b: seq<byte>, at: nat, v: u32)
    requires at + 4 <= |b|
    ensures Get32(Put32(b, at, v), at) == v
    ensures Put32(b, at, v)[..at] == b[..at] && Put32(b, at, v)[at + 4..] == b[at + 4..]
  {
  }

  /** Concatenation of a list of byte strings. */
  function Flatten(parts: seq<seq<byte>>): seq<byte> {
    if |parts| == 0 then [] else Flatten(parts[..|parts| - 1]) + parts[|parts| - 1]
  }

  lemma FlattenSnoc(parts: seq<seq<byte>>, last: seq<byte>)
    ensures Flatten(parts + [last]) == Flatten(parts) + last
  {
    assert (parts + [last])[..|parts|] == parts;
  }

  lemma FlattenOne(p: seq<byte>)
    ensures Flatten([p]) == p
  {
    assert [p][..0] == [];
  }

  lemma {:induction false} FlattenCons(p: seq<byte>, rest: seq<seq<byte>>)
    ensures Flatten([p] + rest) == p + Flatten(rest)
    decreases |rest|
  {
    if rest == [] {
      FlattenOne(p);
      assert [p] + rest == [p];
    } else {
      var front, last := rest[..|rest| - 1], rest[|rest| - 1];
      FlattenCons(p, front);
      assert [p] + rest == ([p] + front) + [last];
      FlattenSnoc([p] + front, last);
    }
  }
}

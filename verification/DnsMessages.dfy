/** The parts of a DNS message the resolver reads and writes. */
module DnsMessages {
  import opened Bytes
  import opened Options
  import opened Words
  import opened Lru

  const HeaderSize := 12

  /** Where the zero that ends a name is, if it and every label length lie inside the message. */
  function Terminator(q: seq<byte>, off: nat): (t: Option<nat>)
    ensures t.Some? ==> off <= t.value < |q| && q[t.value] == 0
    decreases |q| - off
  {
    if off >= |q| then None
    else if q[off] == 0 then Some(off)
    else Terminator(q, off + 1 + q[off])
  }

  /** The labels of a name, each after a dot. */
  function Dotted(q: seq<byte>, off: nat): (s: seq<byte>)
    requires Terminator(q, off).Some?
    ensures |s| == Terminator(q, off).value - off
    decreases |q| - off
  {
    if q[off] == 0 then []
    else
      var next := off + 1 + q[off];
      assert Terminator(q, off) == Terminator(q, next);
      [46] + q[off + 1..next] + Dotted(q, next)
  }

  function Labels(q: seq<byte>, off: nat): seq<seq<byte>>
    requires Terminator(q, off).Some?
    decreases |q| - off
  {
    if q[off] == 0 then []
    else
      var next := off + 1 + q[off];
      assert Terminator(q, off) == Terminator(q, next);
      [q[off + 1..next]] + Labels(q, next)
  }

  /** Labels written with dots between them. */
  function Join(labels: seq<seq<byte>>): seq<byte> {
    if labels == [] then []
    else if |labels| == 1 then labels[0]
    else labels[0] + [46] + Join(labels[1..])
  }

  /** What C reads as a string: the bytes before the first zero. */
  function CString(s: seq<byte>): seq<byte> {
    if s == [] || s[0] == 0 then [] else [s[0]] + CString(s[1..])
  }

  /** The name a question asks for, in dotted form. */
  function NameOf(q: seq<byte>, off: nat): Name
    requires Terminator(q, off).Some?
  {
    CString(Join(Labels(q, off)))
  }

  lemma {:induction false} DottedIsJoin(q: seq<byte>, off: nat)
    requires Terminator(q, off).Some? && q[off] != 0
    ensures Dotted(q, off) == [46] + Join(Labels(q, off))
    decreases |q| - off
  {
    var next := off + 1 + q[off];
    assert Terminator(q, off) == Terminator(q, next);
    if q[next] == 0 {
      assert Labels(q, off) == [q[off + 1..next]];
      assert Dotted(q, off) == [46] + q[off + 1..next] + [];
    } else {
      DottedIsJoin(q, next);
      assert Labels(q, off)[1..] == Labels(q, next);
      assert |Labels(q, next)| > 0;
    }
  }

  lemma {:induction false} CStringStops(a: seq<byte>, b: seq<byte>)
    ensures CString(a + [0] + b) == CString(a)
  {
    if a == [] {
      assert (a + [0] + b)[0] == 0;
    } else {
      assert (a + [0] + b)[1..] == a[1..] + [0] + b;
      if a[0] != 0 { CStringStops(a[1..], b); }
    }
  }

  /** The string a pointer just past the first length byte denotes, once that question's lengths are dots. */
  lemma NameRead(q: seq<byte>, off: nat, rb: seq<byte>)
    requires Terminator(q, off).Some? && |rb| == |q|
    requires var t := Terminator(q, off).value;
      && rb[off..t] == Dotted(q, off) && rb[t] == 0
      && (t == off ==> off + 1 < |rb| && rb[off + 1] == 0)
    ensures off + 1 <= |rb| && CString(rb[off + 1..]) == NameOf(q, off)
  {
    var t := Terminator(q, off).value;
    if t == off {
      assert rb[off + 1..][0] == 0;
    } else {
      DottedIsJoin(q, off);
      var j := Join(Labels(q, off));
      assert rb[off + 1..t] == j by { assert rb[off + 1..t] == rb[off..t][1..]; assert ([46] + j)[1..] == j; }
      assert rb[off + 1..] == j + [0] + rb[t + 1..];
      CStringStops(j, rb[t + 1..]);
    }
  }

  /** Where the next question starts: past the name, its type and its class. */
  function NextQuestion(q: seq<byte>, off: nat): (r: Option<nat>)
    ensures r.Some? ==> Terminator(q, off).Some? && r.value == Terminator(q, off).value + 5 <= |q|
  {
    var t := Terminator(q, off);
    if t.None? || t.value + 4 >= |q| then None else Some(t.value + 5)
  }

  /** Where question i starts, if all before it are inside the message. */
  function QuestionAt(q: seq<byte>, i: nat): Option<nat> {
    if i == 0 then Some(HeaderSize)
    else var before := QuestionAt(q, i - 1);
      if before.None? then None else NextQuestion(q, before.value)
  }

  /** An address question of the Internet class. */
  predicate AsksAddress(q: seq<byte>, off: nat)
    requires NextQuestion(q, off).Some?
  {
    var t := Terminator(q, off).value;
    Get16(q, t + 1) == 1 && Get16(q, t + 3) == 1
  }

  /** Where the address questions among the first n start. */
  function AddressQuestions(q: seq<byte>, n: nat): (r: seq<nat>)
    requires QuestionAt(q, n).Some?
    ensures |r| <= n
    ensures forall j :: 0 <= j < |r| ==> Terminator(q, r[j]).Some?
  {
    if n == 0 then []
    else
      var off := QuestionAt(q, n - 1).value;
      AddressQuestions(q, n - 1) + if AsksAddress(q, off) then [off] else []
  }

  function Names(q: seq<byte>, at: seq<nat>): (r: seq<Name>)
    requires forall j :: 0 <= j < |at| ==> Terminator(q, at[j]).Some?
    ensures |r| == |at|
  {
    seq(|at|, j requires 0 <= j < |at| => NameOf(q, at[j]))
  }

  /* The reply. */

  function Big16(v: nat): (r: seq<byte>)
    ensures |r| == 2
  {
    [v / 256 % 256, v % 256]
  }

  function Big32(v: nat): (r: seq<byte>)
    ensures |r| == 4
  {
    [v / 0x100_0000 % 256, v / 0x1_0000 % 256, v / 256 % 256, v % 256]
  }

  /** One answer: a pointer to the name, type A, class IN, one second, and the address. */
  function Answer(at: nat, ip: nat): (r: seq<byte>)
    ensures |r| == 16
  {
    Big16(BitOr(0xc000, at)) + [0, 1, 0, 1, 0, 0, 0, 1, 0, 4] + Big32(ip)
  }

  function Answers(at: seq<nat>, ips: seq<nat>): (r: seq<byte>)
    requires |at| == |ips|
    ensures |r| == 16 * |at|
  {
    if at == [] then [] else Answers(at[..|at| - 1], ips[..|ips| - 1]) + Answer(at[|at| - 1], ips[|ips| - 1])
  }

  /** A response, recursion available when it was desired. */
  function ReplyFlags(fl: u16): nat {
    BitOr(BitOr(fl, 0x8000), BitAnd(fl, 0x100) / 2)
  }

  function Reply(q: seq<byte>, end: nat, at: seq<nat>, ips: seq<nat>): (r: seq<byte>)
    requires HeaderSize <= end <= |q| && |at| == |ips|
    ensures |r| == end + 16 * |at|
  {
    q[..2] + Big16(ReplyFlags(Get16(q, 2))) + q[4..6] + Big16(|at|) + [0, 0, 0, 0] + q[12..end] + Answers(at, ips)
  }

  /** The pointer leads to the question's own name exactly when its offset fits 14 bits. */
  lemma PointerIsOwn(at: nat, ip: nat)
    ensures BitAnd(Get16(Answer(at, ip), 0), 0x3fff) == at <==> at < 0x4000
  {
    hide BitOr, BitAnd, Answer, Get16, Pow2;
    PowPointer();
    if at < 0x4000 {
      PointerValue(at, ip);
      AndOfOr(0xc000, at, 0x3fff);
      LowMask(at, 14);
      LowMask(0xc000, 14);
      ZeroOr(BitAnd(at, 0x3fff));
    } else {
      LowMask(Get16(Answer(at, ip), 0), 14);
    }
  }

  lemma PowPointer()
    ensures Pow2(14) == 0x4000
  {
    PowByte();
    assert Pow2(6) == 64;
    PowSum(8, 6);
  }

  lemma PointerValue(at: nat, ip: nat)
    requires at < 0x1_0000
    ensures Get16(Answer(at, ip), 0) == BitOr(0xc000, at)
  {
    PowValues();
    OrFits(0xc000, at, 16);
    var v := BitOr(0xc000, at);
    hide BitOr;
    assert Answer(at, ip)[0] == v / 256 % 256 && Answer(at, ip)[1] == v % 256;
  }
}

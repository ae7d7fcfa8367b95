/** Answering a DNS query from the table: the request is scanned and dotted in place, the reply built beside it. */
module DnsHandler {
  import opened Bytes
  import opened Options
  import opened Words
  import opened Lru
  import opened DnsMessages
  import opened MappedDnsTables

  /** The lengths between at and off have become dots; the rest is as it was. */
  ghost predicate Scanned(q: seq<byte>, rb: seq<byte>, at: nat, off: nat) {
    && |rb| == |q| && at <= off < |q|
    && rb[..at] == q[..at] && rb[off..] == q[off..]
    && Terminator(q, at) == Terminator(q, off)
    && (Terminator(q, at).Some? ==> rb[at..off] + Dotted(q, off) == Dotted(q, at))
  }

  lemma ScanStep(q: seq<byte>, rb: seq<byte>, at: nat, off: nat)
    requires Scanned(q, rb, at, off) && q[off] != 0
    ensures rb[off] == q[off]
    ensures off + 1 + q[off] >= |q| ==> Terminator(q, at).None?
    ensures off + 1 + q[off] < |q| ==> Scanned(q, rb[off := 46], at, off + 1 + q[off])
  {
    hide Dotted, Terminator;
    assert rb[off..][0] == q[off..][0];
    DottedStep(q, off);
    var next := off + 1 + q[off];
    DottedStep(q, next);
    if next < |q| {
      var rb' := rb[off := 46];
      SuffixShrinks(rb, q, off, next);
      assert rb'[next..] == rb[next..];
      SuffixSlice(rb, q, off, off + 1, next);
      assert rb'[off + 1..next] == rb[off + 1..next];
      assert rb'[at..next] == rb[at..off] + ([46] + q[off + 1..next]);
      if Terminator(q, at).Some? {
        var d := Dotted(q, next);
        assert rb[at..off] + ([46] + q[off + 1..next] + d) == rb'[at..next] + d;
      }
    }
  }

  lemma ScanEnds(q: seq<byte>, rb: seq<byte>, at: nat, off: nat)
    requires Scanned(q, rb, at, off) && rb[off] == 0
    ensures Terminator(q, at) == Some(off) && rb[at..off] == Dotted(q, at)
  {
    assert rb[off..][0] == q[off..][0];
    assert rb[at..off] + [] == rb[at..off];
  }

  /** Finds the end of a name, turning each length byte before it into a dot. */
  method ScanName(rb: array<byte>, at: nat) returns (ok: bool, off: nat)
    requires at < rb.Length
    modifies rb
    ensures ok <==> Terminator(old(rb[..]), at).Some?
    ensures ok ==> off == Terminator(old(rb[..]), at).value && Scanned(old(rb[..]), rb[..], at, off)
    ensures ok ==> rb[at..off] == Dotted(old(rb[..]), at)
  {
    ghost var q := rb[..];
    ScanStarts(q, at);
    hide Scanned, Dotted, Terminator;
    off := at;
    while rb[off] != 0
      invariant at <= off < rb.Length && Scanned(q, rb[..], at, off)
      decreases rb.Length - off
    {
      ScannedAt(q, rb[..], at, off);
      ScanStep(q, rb[..], at, off);
      var poff := off;
      off := off + 1 + rb[off];
      if off >= rb.Length { return false, off; }
      ghost var before := rb[..];
      rb[poff] := 46;
      assert rb[..] == before[poff := 46];
    }
    ScanEnds(q, rb[..], at, off);
    assert rb[..][at..off] == rb[at..off];
    ok := true;
  }

  lemma ScanStarts(q: seq<byte>, at: nat)
    requires at < |q|
    ensures Scanned(q, q, at, at)
  {
    if Terminator(q, at).Some? { assert q[at..at] + Dotted(q, at) == Dotted(q, at); }
  }

  lemma ScannedAt(q: seq<byte>, rb: seq<byte>, at: nat, off: nat)
    requires Scanned(q, rb, at, off)
    ensures |rb| == |q| && rb[off] == q[off]
  {
    assert rb[off..][0] == q[off..][0];
  }

  lemma DottedStep(q: seq<byte>, off: nat)
    ensures Terminator(q, off) == if off >= |q| then None else if q[off] == 0 then Some(off)
      else Terminator(q, off + 1 + q[off])
    ensures off < |q| && q[off] == 0 ==> Dotted(q, off) == []
    ensures off < |q| && q[off] != 0 && Terminator(q, off).Some? ==>
      off + 1 + q[off] < |q| && Dotted(q, off) == [46] + q[off + 1..off + 1 + q[off]] + Dotted(q, off + 1 + q[off])
  {
  }

  /** What lies before a name does not matter to it. */
  lemma {:induction false} SuffixDecides(a: seq<byte>, b: seq<byte>, off: nat)
    requires |a| == |b| && off <= |a| && a[off..] == b[off..]
    ensures Terminator(a, off) == Terminator(b, off)
    ensures Terminator(a, off).Some? ==> Dotted(a, off) == Dotted(b, off)
    decreases |a| - off
  {
    DottedStep(a, off);
    DottedStep(b, off);
    if off < |a| {
      SuffixAt(a, b, off, off);
      var next := off + 1 + a[off];
      if a[off] != 0 && next <= |a| {
        SuffixShrinks(a, b, off, next);
        SuffixSlice(a, b, off, off + 1, next);
        SuffixDecides(a, b, next);
      }
    }
  }

  lemma SuffixAt(a: seq<byte>, b: seq<byte>, off: nat, k: nat)
    requires |a| == |b| && off <= k < |a| && a[off..] == b[off..]
    ensures a[k] == b[k]
  {
    assert a[off..][k - off] == b[off..][k - off];
  }

  lemma SuffixSlice(a: seq<byte>, b: seq<byte>, off: nat, i: nat, j: nat)
    requires |a| == |b| && off <= i <= j <= |a| && a[off..] == b[off..]
    ensures a[i..j] == b[i..j]
  {
    forall k | i <= k < j ensures a[k] == b[k] { SuffixAt(a, b, off, k); }
  }

  lemma SuffixShrinks(a: seq<byte>, b: seq<byte>, off: nat, k: nat)
    requires |a| == |b| && off <= k <= |a| && a[off..] == b[off..]
    ensures a[k..] == b[k..]
  {
    assert a[k..] == a[off..][k - off..] && b[k..] == b[off..][k - off..];
  }

  /** One question: its name is found in the table if it asks for an address. */
  method ReadQuestion(dns: MappedDns, rb: array<byte>, at: nat, ghost q: seq<byte>) returns (ok: bool, next: nat,
      found: Option<nat>)
    requires dns.Valid() && rb.Length == |q| && at <= |q| && rb[at..] == q[at..]
    modifies rb, dns, dns.records
    ensures dns.Valid()
    ensures ok <==> NextQuestion(q, at).Some?
    ensures ok ==> next == NextQuestion(q, at).value && rb[next..] == q[next..] && (found.Some? <==> AsksAddress(q, at))
    ensures found.Some? ==>
      && ok && dns.list == Touch(old(dns.list), dns.max, NameOf(q, at))
      && dns.list[|dns.list| - 1] == Node(NameOf(q, at), found.value)
    ensures found.Some? ==> found.value < dns.max
    ensures found.None? ==> dns.list == old(dns.list)
  {
    hide Good, Agree, Dotted, Terminator, NameOf, CString, Touch;
    found, next := None, at;
    DottedStep(q, at);
    if at >= rb.Length { return false, next, None; }
    ghost var rb0 := rb[..];
    SuffixDecides(rb0, q, at);
    var off;
    ok, off := ScanName(rb, at);
    if !ok { return; }
    ScannedSuffix(rb0, rb[..], q, at, off);
    off := off + 1;
    if off + 3 >= rb.Length { return false, next, None; }
    AfterName(rb[..], q, at, off - 1);
    if Get16(rb[..], off) == 1 && Get16(rb[..], off + 2) == 1 {
      var name := CString(rb[at + 1..]);
      assert rb[..][at + 1..] == rb[at + 1..];
      var idx := dns.Find(name);
      found := Some(idx);
    }
    next := off + 4;
    SuffixShrinks(rb[..], q, off, next);
  }

  lemma ScannedSuffix(rb0: seq<byte>, rb: seq<byte>, q: seq<byte>, at: nat, off: nat)
    requires |rb0| == |q| && at <= |q| && rb0[at..] == q[at..] && Scanned(rb0, rb, at, off)
    ensures |rb| == |q| && rb[off..] == q[off..]
  {
    SuffixShrinks(rb0, q, at, off);
  }

  lemma AfterName(rb: seq<byte>, q: seq<byte>, at: nat, t: nat)
    requires |rb| == |q| && at <= t && t + 4 < |q| && rb[t..] == q[t..]
    requires Terminator(q, at) == Some(t) && rb[at..t] == Dotted(q, at)
    ensures Get16(rb, t + 1) == Get16(q, t + 1) && Get16(rb, t + 3) == Get16(q, t + 3)
    ensures rb[t + 1..] == q[t + 1..]
    ensures Get16(q, t + 1) == 1 ==> at + 1 <= |rb| && CString(rb[at + 1..]) == NameOf(q, at)
  {
    SuffixAt(rb, q, t, t);
    SuffixAt(rb, q, t, t + 1);
    SuffixAt(rb, q, t, t + 2);
    SuffixAt(rb, q, t, t + 3);
    SuffixAt(rb, q, t, t + 4);
    SuffixShrinks(rb, q, t, t + 1);
    if Get16(q, t + 1) == 1 { NameRead(q, at, rb); }
  }

  /** The indices found for a run of names: each is the one its name had when it was asked for. */
  ghost predicate Found(l: seq<Node>, max: nat, names: seq<Name>, idxs: seq<nat>) {
    && max > 0 && |names| == |idxs|
    && forall j :: 0 <= j < |names| ==> FoundAt(l, max, names, j, idxs[j])
  }

  ghost predicate FoundAt(l: seq<Node>, max: nat, names: seq<Name>, j: nat, idx: nat)
    requires j < |names| && max > 0
  {
    var t := Touched(l, max, names[..j + 1]);
    |t| > 0 && t[|t| - 1] == Node(names[j], idx) && idx < max
  }

  lemma FoundSnoc(l: seq<Node>, max: nat, names: seq<Name>, idxs: seq<nat>, name: Name, idx: nat)
    requires Found(l, max, names, idxs) && idx < max
    requires var t := Touch(Touched(l, max, names), max, name); t[|t| - 1] == Node(name, idx)
    ensures Found(l, max, names + [name], idxs + [idx])
  {
    hide Touched, Touch;
    var ns := names + [name];
    forall j | 0 <= j < |ns| ensures FoundAt(l, max, ns, j, (idxs + [idx])[j]) {
      if j < |names| {
        assert ns[..j + 1] == names[..j + 1];
        assert FoundAt(l, max, names, j, idxs[j]);
      } else {
        assert ns[..j + 1] == ns;
        TouchedSnoc(l, max, names, name);
      }
    }
  }

  lemma {:induction false} TouchedConcat(l: seq<Node>, max: nat, a: seq<Name>, b: seq<Name>)
    requires max > 0
    ensures Touched(l, max, a + b) == Touched(Touched(l, max, a), max, b)
    decreases |b|
  {
    if b == [] {
      assert a + b == a;
    } else {
      var front := b[..|b| - 1];
      assert (a + b)[..|a + b| - 1] == a + front;
      TouchedConcat(l, max, a, front);
    }
  }

  lemma OthersCount(names: seq<Name>, j: nat, max: nat)
    requires j < |names| && |set n | n in names| <= max
    ensures |Others(names[j + 1..], names[j])| < max
  {
    var all := set n | n in names;
    var others := Others(names[j + 1..], names[j]);
    assert names[j] in all;
    assert others <= all - {names[j]};
    SubsetSize(others, all - {names[j]});
  }

  /** With no more distinct names than indices, every name still has the index it was given. */
  lemma AllRetained(l: seq<Node>, max: nat, names: seq<Name>, idxs: seq<nat>, j: nat)
    requires Good(l, max) && Found(l, max, names, idxs) && j < |names|
    requires |set n | n in names| <= max
    ensures Node(names[j], idxs[j]) in Touched(l, max, names)
  {
    hide Touched, Good, Others;
    var front, rest := names[..j + 1], names[j + 1..];
    assert FoundAt(l, max, names, j, idxs[j]);
    TouchedKeeps(l, max, front);
    assert names == front + rest;
    TouchedConcat(l, max, front, rest);
    OthersCount(names, j, max);
    Retained(Touched(l, max, front), max, rest);
  }

  /** The state of the question loop after i questions. */
  ghost predicate Collected(q: seq<byte>, i: nat, off: nat, at: seq<nat>, l: seq<Node>, now: seq<Node>, max: nat,
                            net: u32, ips: seq<nat>, idxs: seq<nat>) {
    && QuestionAt(q, i) == Some(off) && at == AddressQuestions(q, i) && off <= |q|
    && Found(l, max, Names(q, at), idxs) && now == Touched(l, max, Names(q, at))
    && |ips| == |at| == |idxs|
    && forall j :: 0 <= j < |at| ==> ips[j] == BitOr(net, idxs[j])
  }

  lemma CollectedStarts(q: seq<byte>, l: seq<Node>, max: nat, net: u32)
    requires max > 0 && |q| >= HeaderSize
    ensures Collected(q, 0, HeaderSize, [], l, l, max, net, [], [])
  {
  }

  lemma CollectedSkips(q: seq<byte>, i: nat, off: nat, at: seq<nat>, l: seq<Node>, now: seq<Node>, max: nat,
      net: u32, ips: seq<nat>, idxs: seq<nat>)
    requires Collected(q, i, off, at, l, now, max, net, ips, idxs)
    requires NextQuestion(q, off).Some? && !AsksAddress(q, off)
    ensures Collected(q, i + 1, NextQuestion(q, off).value, at, l, now, max, net, ips, idxs)
  {
    hide Found, Touched;
    assert at + [] == at;
  }

  lemma CollectedAdds(q: seq<byte>, i: nat, off: nat, at: seq<nat>, l: seq<Node>, now: seq<Node>, max: nat,
      net: u32, ips: seq<nat>, idxs: seq<nat>, idx: nat)
    requires Collected(q, i, off, at, l, now, max, net, ips, idxs)
    requires NextQuestion(q, off).Some? && AsksAddress(q, off) && idx < max
    requires max > 0 && var t := Touch(now, max, NameOf(q, off)); t[|t| - 1] == Node(NameOf(q, off), idx)
    ensures Collected(q, i + 1, NextQuestion(q, off).value, at + [off], l, Touch(now, max, NameOf(q, off)), max, net,
                      ips + [BitOr(net, idx)], idxs + [idx])
  {
    hide Found, Touched, Touch, NameOf, BitOr, Terminator;
    FoundSnoc(l, max, Names(q, at), idxs, NameOf(q, off), idx);
    TouchedSnoc(l, max, Names(q, at), NameOf(q, off));
    assert Names(q, at + [off]) == Names(q, at) + [NameOf(q, off)];
  }

  lemma {:induction false} NoQuestionAfter(q: seq<byte>, i: nat, n: nat)
    requires i <= n && QuestionAt(q, i).None?
    ensures QuestionAt(q, n).None?
    decreases n
  {
    if i < n { NoQuestionAfter(q, i, n - 1); }
  }

  /** The question loop. */
  method ReadQuestions(dns: MappedDns, rb: array<byte>, qd: nat)
    returns (ok: bool, off: nat, ipn: nat, ips: array<nat>, ipo: array<nat>, ghost idxs: seq<nat>)
    requires dns.Valid() && HeaderSize <= rb.Length && qd <= 32
    modifies rb, dns, dns.records
    ensures dns.Valid() && fresh(ips) && fresh(ipo) && ipn <= ips.Length == ipo.Length == 32
    ensures ok <==> QuestionAt(old(rb[..]), qd).Some?
    ensures ok ==>
      Collected(old(rb[..]), qd, off, ipo[..ipn], old(dns.list), dns.list, dns.max, dns.net, ips[..ipn], idxs)
  {
    hide Collected, Good, Agree, Touch, AsksAddress, NextQuestion, NameOf;
    ips, ipo := new nat[32], new nat[32];
    ghost var q := rb[..];
    off, ipn, idxs := HeaderSize, 0, [];
    CollectedStarts(q, dns.list, dns.max, dns.net);
    assert ipo[..0] == [] && ips[..0] == [];
    var i := 0;
    while i < qd
      invariant 0 <= i <= qd && ipn <= i && dns.Valid() && off <= |q|
      invariant rb[off..] == q[off..]
      invariant Collected(q, i, off, ipo[..ipn], old(dns.list), dns.list, dns.max, dns.net, ips[..ipn], idxs)
    {
      ghost var before := dns.list;
      ipo[ipn] := off;
      CollectedAt(q, i, off, ipo[..ipn], old(dns.list), dns.list, dns.max, dns.net, ips[..ipn], idxs);
      var next, found;
      ok, next, found := ReadQuestion(dns, rb, off, q);
      if !ok {
        NoQuestionAfter(q, i + 1, qd);
        return;
      }
      if found.Some? {
        CollectedAdds(q, i, off, ipo[..ipn], old(dns.list), before, dns.max, dns.net, ips[..ipn], idxs, found.value);
        ips[ipn] := BitOr(dns.net, found.value);
        assert ipo[..ipn + 1] == ipo[..ipn] + [off] && ips[..ipn + 1] == ips[..ipn] + [ips[ipn]];
        idxs := idxs + [found.value];
        ipn := ipn + 1;
      } else {
        CollectedSkips(q, i, off, ipo[..ipn], old(dns.list), before, dns.max, dns.net, ips[..ipn], idxs);
      }
      off := next;
      i := i + 1;
    }
    CollectedAt(q, i, off, ipo[..ipn], old(dns.list), dns.list, dns.max, dns.net, ips[..ipn], idxs);
    ok := true;
  }

  lemma CollectedAt(q: seq<byte>, i: nat, off: nat, at: seq<nat>, l: seq<Node>, now: seq<Node>, max: nat, net: u32,
      ips: seq<nat>, idxs: seq<nat>)
    requires Collected(q, i, off, at, l, now, max, net, ips, idxs)
    ensures QuestionAt(q, i) == Some(off) && off <= |q|
    ensures QuestionAt(q, i + 1) == NextQuestion(q, off)
  {
  }

  /* Writing the reply. */

  method WriteU16(b: array<byte>, off: nat, v: nat)
    requires off + 2 <= b.Length
    modifies b
    ensures b[..off + 2] == old(b[..off]) + Big16(v) && b[off + 2..] == old(b[off + 2..])
  {
    b[off] := v / 256 % 256;
    b[off + 1] := v % 256;
  }

  method WriteU32(b: array<byte>, off: nat, v: nat)
    requires off + 4 <= b.Length
    modifies b
    ensures b[..off + 4] == old(b[..off]) + Big32(v) && b[off + 4..] == old(b[off + 4..])
  {
    b[off] := v / 0x100_0000 % 256;
    b[off + 1] := v / 0x1_0000 % 256;
    b[off + 2] := v / 256 % 256;
    b[off + 3] := v % 256;
  }

  method WriteAnswer(sb: array<byte>, off: nat, at: nat, ip: nat)
    requires off + 16 <= sb.Length
    modifies sb
    ensures sb[..off + 16] == old(sb[..off]) + Answer(at, ip)
  {
    hide Big16, Big32, BitOr;
    WriteU16(sb, off, BitOr(0xc000, at));
    WriteU16(sb, off + 2, 1);
    WriteU16(sb, off + 4, 1);
    WriteU32(sb, off + 6, 1);
    WriteU16(sb, off + 10, 4);
    WriteU32(sb, off + 12, ip);
    AnswerPieces(at, ip);
  }

  lemma AnswerPieces(at: nat, ip: nat)
    ensures Answer(at, ip) == Big16(BitOr(0xc000, at)) + Big16(1) + Big16(1) + Big32(1) + Big16(4) + Big32(ip)
  {
    assert Big16(1) + Big16(1) + Big32(1) + Big16(4) == [0, 1, 0, 1, 0, 0, 0, 1, 0, 4];
  }

  lemma AnswersSnoc(at: seq<nat>, ips: seq<nat>, i: nat)
    requires |at| == |ips| && i < |at|
    ensures Answers(at[..i + 1], ips[..i + 1]) == Answers(at[..i], ips[..i]) + Answer(at[i], ips[i])
  {
    assert at[..i + 1][..i] == at[..i] && ips[..i + 1][..i] == ips[..i];
  }

  /** The answer loop: it fails exactly when the answers do not fit. */
  method WriteAnswers(sb: array<byte>, off0: nat, ipn: nat, ips: array<nat>, ipo: array<nat>)
    returns (ok: bool, off: nat)
    requires off0 <= sb.Length && ipn <= ips.Length && ipn <= ipo.Length
    modifies sb
    ensures ok <==> off0 + 16 * ipn <= sb.Length
    ensures ok ==> off == off0 + 16 * ipn && sb[..off] == old(sb[..off0]) + Answers(ipo[..ipn], ips[..ipn])
  {
    hide Answer, Answers;
    off := off0;
    ghost var at, addrs := ipo[..ipn], ips[..ipn];
    AnswersNone(at, addrs);
    var i := 0;
    while i < ipn
      invariant 0 <= i <= ipn && off == off0 + 16 * i <= sb.Length
      invariant at == ipo[..ipn] && addrs == ips[..ipn]
      invariant sb[..off] == old(sb[..off0]) + Answers(at[..i], addrs[..i])
    {
      if off + 15 >= sb.Length { return false, off; }
      AnswersSnoc(at, addrs, i);
      WriteAnswer(sb, off, ipo[i], ips[i]);
      off := off + 16;
      i := i + 1;
    }
    assert at[..i] == at && addrs[..i] == addrs;
    ok := true;
  }

  lemma AnswersNone(at: seq<nat>, ips: seq<nat>)
    requires |at| == |ips|
    ensures Answers(at[..0], ips[..0]) == []
  {
  }

  lemma JoinAt(s: seq<byte>, i: nat, j: nat)
    requires i <= j <= |s|
    ensures s[..j] == s[..i] + s[i..j]
  {
  }

  /** A header and body with the right parts is the reply. */
  lemma ReplyParts(q: seq<byte>, end: nat, at: seq<nat>, ips: seq<nat>, s: seq<byte>)
    requires HeaderSize <= end <= |q| && |at| == |ips| && |s| == end + 16 * |at|
    requires s[..2] == q[..2] && s[2..4] == Big16(ReplyFlags(Get16(q, 2))) && s[4..6] == q[4..6]
    requires s[6..8] == Big16(|at|) && s[8..12] == [0, 0, 0, 0]
    requires s[12..] == q[12..end] + Answers(at, ips)
    ensures s == Reply(q, end, at, ips)
  {
    hide Answers, ReplyFlags, Big16;
    JoinAt(s, 2, 4);
    JoinAt(s, 4, 6);
    JoinAt(s, 6, 8);
    JoinAt(s, 8, 12);
    assert s == s[..12] + s[12..];
    assert s[..12] + (q[12..end] + Answers(at, ips)) == s[..12] + q[12..end] + Answers(at, ips);
  }

  /** The header fields written last. */
  method WriteHeader(sb: array<byte>, fl: u16, ipn: nat)
    requires sb.Length >= HeaderSize
    modifies sb
    ensures sb[..2] == old(sb[..2]) && sb[2..4] == Big16(ReplyFlags(fl)) && sb[4..6] == old(sb[4..6])
    ensures sb[6..8] == Big16(ipn) && sb[8..12] == old(sb[8..12]) && sb[12..] == old(sb[12..])
  {
    hide ReplyFlags;
    var v := ReplyFlags(fl);
    sb[2], sb[3] := v / 256 % 256, v % 256;
    sb[6], sb[7] := ipn / 256 % 256, ipn % 256;
  }

  /** The copy of the request, with no answer, authority or additional records yet. */
  method CopyRequest(rb: array<byte>, sb: array<byte>)
    requires rb != sb && HeaderSize <= rb.Length <= sb.Length
    modifies sb
    ensures sb[..6] == rb[..6] && sb[6..12] == [0, 0, 0, 0, 0, 0] && sb[12..rb.Length] == rb[12..]
  {
    forall k | 0 <= k < rb.Length { sb[k] := rb[k]; }
    sb[8], sb[9] := 0, 0;
    sb[6], sb[7] := 0, 0;
    sb[10], sb[11] := 0, 0;
    assert forall k :: 12 <= k < rb.Length ==> sb[k] == rb[k];
    assert sb[12..rb.Length] == rb[12..];
    assert sb[..6] == rb[..6];
  }

  /** The query is short enough, has at most 32 questions, all inside it, and the answers fit. */
  ghost predicate Answerable(q: seq<byte>, slen: nat) {
    && HeaderSize <= |q| <= slen && Get16(q, 4) <= 32
    && QuestionAt(q, Get16(q, 4)).Some?
    && QuestionAt(q, Get16(q, 4)).value + 16 * |AddressQuestions(q, Get16(q, 4))| <= slen
  }

  /** Where the address questions of an answerable query are. */
  ghost function Asked(q: seq<byte>, slen: nat): (at: seq<nat>)
    requires Answerable(q, slen)
    ensures forall j :: 0 <= j < |at| ==> Terminator(q, at[j]).Some?
  {
    AddressQuestions(q, Get16(q, 4))
  }

  /**
   * Fails exactly when the query is not answerable. Otherwise the reply is the query's header and
   * questions followed by one answer for each address question, and each address is that of the
   * index its name was found at.
   */
  method Handle(dns: MappedDns, req: array<byte>, res: array<byte>)
    returns (r: int, ghost ips: seq<nat>, ghost idxs: seq<nat>)
    requires dns.Valid() && req != res
    modifies req, res, dns, dns.records
    ensures dns.Valid()
    ensures r == -1 || 0 <= r <= res.Length
    ensures r >= 0 <==> Answerable(old(req[..]), res.Length)
    ensures r >= 0 ==>
      var q := old(req[..]);
      var at, end := Asked(q, res.Length), QuestionAt(q, Get16(q, 4)).value;
      && HeaderSize <= end <= |q| && |ips| == |at| && res[..r] == Reply(q, end, at, ips)
      && Found(old(dns.list), dns.max, Names(q, at), idxs)
      && dns.list == Touched(old(dns.list), dns.max, Names(q, at))
      && (forall j :: 0 <= j < |ips| ==> ips[j] == BitOr(dns.net, idxs[j]))
      && PointsBack(res[..r], end, at)
  {
    hide Good, Agree, Found, Touched, Names, Answers, Reply, ReplyFlags, BitOr, PointsBack;
    ghost var q := req[..];
    ips, idxs := [], [];
    if res.Length < req.Length { return -1, ips, idxs; }
    if req.Length < HeaderSize { return -1, ips, idxs; }
    CopyRequest(req, res);
    var qd, fl := Get16(req[..], 4), Get16(req[..], 2);
    if qd > 32 { return -1, ips, idxs; }
    var ok, off, ipn, ipsA, ipoA;
    ok, off, ipn, ipsA, ipoA, idxs := ReadQuestions(dns, req, qd);
    if !ok { return -1, ips, idxs; }
    ghost var end, at := off, ipoA[..ipn];
    ips := ipsA[..ipn];
    CollectedEnds(q, qd, end, at);
    ghost var sb := res[..];
    ok, off := WriteAnswers(res, off, ipn, ipsA, ipoA);
    if !ok { return -1, ips, idxs; }
    ghost var sb2 := res[..];
    WriteHeader(res, fl, ipn);
    r := off;
    ReplyBody(q, end, at, ips, sb, sb2, res[..], r);
    ReplyPoints(q, end, at, ips);
  }

  /** The pointer in each answer leads to the name of its own question exactly when that name starts below 0x4000. */
  ghost predicate PointsBack(reply: seq<byte>, end: nat, at: seq<nat>) {
    forall j :: 0 <= j < |at| ==> PointsTo(reply, end + 16 * j, at[j])
  }

  ghost predicate PointsTo(reply: seq<byte>, k: nat, at: nat) {
    k + 2 <= |reply| && (BitAnd(Get16(reply, k), 0x3fff) == at <==> at < 0x4000)
  }

  lemma ReplyPoints(q: seq<byte>, end: nat, at: seq<nat>, ips: seq<nat>)
    requires HeaderSize <= end <= |q| && |at| == |ips|
    ensures PointsBack(Reply(q, end, at, ips), end, at)
  {
    hide Reply, PointsTo;
    forall j | 0 <= j < |at| ensures PointsTo(Reply(q, end, at, ips), end + 16 * j, at[j]) {
      ReplyPointer(q, end, at, ips, j);
    }
  }

  lemma ReplyPointer(q: seq<byte>, end: nat, at: seq<nat>, ips: seq<nat>, j: nat)
    requires HeaderSize <= end <= |q| && |at| == |ips| && j < |at|
    ensures PointsTo(Reply(q, end, at, ips), end + 16 * j, at[j])
  {
    hide Answers, ReplyFlags, Big16, BitAnd;
    AnswerPointer(at, ips, j);
    var head := q[..2] + Big16(ReplyFlags(Get16(q, 2))) + q[4..6] + Big16(|at|) + [0, 0, 0, 0] + q[12..end];
    assert Reply(q, end, at, ips) == head + Answers(at, ips);
    assert Get16(head + Answers(at, ips), |head| + 16 * j) == Get16(Answers(at, ips), 16 * j);
    PointerIsOwn(at[j], ips[j]);
  }

  lemma AnswerPointer(at: seq<nat>, ips: seq<nat>, j: nat)
    requires |at| == |ips| && j < |at|
    ensures 16 * j + 16 <= 16 * |at|
    ensures Get16(Answers(at, ips), 16 * j) == Get16(Answer(at[j], ips[j]), 0)
    decreases |at|
  {
    hide Answer;
    var n := |at| - 1;
    if j < n {
      AnswerPointer(at[..n], ips[..n], j);
    }
  }

  lemma CollectedEnds(q: seq<byte>, n: nat, end: nat, at: seq<nat>)
    requires |q| >= HeaderSize && QuestionAt(q, n) == Some(end)
    ensures HeaderSize <= end && (end <= |q|)
  {
    if n > 0 { CollectedEnds(q, n - 1, QuestionAt(q, n - 1).value, at); }
  }

  lemma ReplyBody(q: seq<byte>, end: nat, at: seq<nat>, ips: seq<nat>, sb: seq<byte>, sb2: seq<byte>, s: seq<byte>,
                  r: nat)
    requires HeaderSize <= end <= |q| <= |sb| == |sb2| == |s| && |at| == |ips| && r == end + 16 * |at| <= |s|
    requires sb[..6] == q[..6] && sb[6..12] == [0, 0, 0, 0, 0, 0] && sb[12..|q|] == q[12..]
    requires sb2[..r] == sb[..end] + Answers(at, ips)
    requires s[..2] == sb2[..2] && s[2..4] == Big16(ReplyFlags(Get16(q, 2))) && s[4..6] == sb2[4..6]
    requires s[6..8] == Big16(|at|) && s[8..12] == sb2[8..12] && s[12..] == sb2[12..]
    ensures s[..r] == Reply(q, end, at, ips)
  {
    hide Answers, ReplyFlags, Big16, Reply, Get16;
    HeadOf(q, end, Answers(at, ips), sb, sb2, r);
    BodyOf(q, end, Answers(at, ips), sb, sb2, r);
    TakeSlices(s, r);
    TakeTail(s, sb2, r);
    ReplyParts(q, end, at, ips, s[..r]);
  }

  lemma TakeSlices(s: seq<byte>, r: nat)
    requires HeaderSize <= r <= |s|
    ensures s[..r][..2] == s[..2] && s[..r][2..4] == s[2..4] && s[..r][4..6] == s[4..6]
    ensures s[..r][6..8] == s[6..8] && s[..r][8..12] == s[8..12]
  {
  }

  lemma TakeTail(s: seq<byte>, sb2: seq<byte>, r: nat)
    requires HeaderSize <= r <= |s| == |sb2| && s[12..] == sb2[12..]
    ensures s[..r][12..] == sb2[12..r]
  {
    assert s[..r][12..] == s[12..][..r - 12];
    assert sb2[12..r] == sb2[12..][..r - 12];
  }

  lemma HeadOf(q: seq<byte>, end: nat, answers: seq<byte>, sb: seq<byte>, sb2: seq<byte>, r: nat)
    requires HeaderSize <= end <= |q| <= |sb| && end <= r <= |sb2|
    requires sb[..6] == q[..6] && sb[6..12] == [0, 0, 0, 0, 0, 0]
    requires sb2[..r] == sb[..end] + answers
    ensures sb2[..2] == q[..2] && sb2[4..6] == q[4..6] && sb2[8..12] == [0, 0, 0, 0]
  {
    assert sb2[..12] == sb[..12] by {
      assert sb2[..12] == sb2[..r][..12];
      assert sb[..12] == (sb[..end] + answers)[..12];
    }
    assert sb2[..6] == q[..6] by { assert sb2[..6] == sb2[..12][..6]; assert sb[..6] == sb[..12][..6]; }
    assert sb2[6..12] == [0, 0, 0, 0, 0, 0] by {
      assert sb2[6..12] == sb2[..12][6..];
      assert sb[6..12] == sb[..12][6..];
    }
    assert sb2[..2] == sb2[..6][..2] && q[..2] == q[..6][..2];
    assert sb2[4..6] == sb2[..6][4..] && q[4..6] == q[..6][4..];
    assert sb2[8..12] == sb2[6..12][2..];
  }

  lemma BodyOf(q: seq<byte>, end: nat, answers: seq<byte>, sb: seq<byte>, sb2: seq<byte>, r: nat)
    requires HeaderSize <= end <= |q| <= |sb| && end <= r <= |sb2|
    requires sb[12..|q|] == q[12..] && sb2[..r] == sb[..end] + answers
    ensures sb2[12..r] == q[12..end] + answers
  {
    forall k | 12 <= k < end ensures sb[k] == q[k] {
      assert sb[12..|q|][k - 12] == q[12..][k - 12];
    }
    assert sb[12..end] == q[12..end];
    assert sb2[12..r] == sb2[..r][12..];
    assert (sb[..end] + answers)[12..] == sb[12..end] + answers;
  }

  /** The address inside answer j of a reply. */
  lemma AnswerAddress(at: seq<nat>, ips: seq<nat>, j: nat)
    requires |at| == |ips| && j < |at| && ips[j] < 0x1_0000_0000
    ensures 16 * j + 16 <= 16 * |at|
    ensures Get32(Answers(at, ips), 16 * j + 12) == ips[j]
    decreases |at|
  {
    var n := |at| - 1;
    var front := Answers(at[..n], ips[..n]);
    var last := Answer(at[n], ips[n]);
    if j < n {
      AnswerAddress(at[..n], ips[..n], j);
      GetFront(front, last, 16 * j + 12);
    } else {
      GetBack(front, last);
      AnswerTail(at[n], ips[n]);
    }
  }

  lemma GetFront(a: seq<byte>, b: seq<byte>, k: nat)
    requires k + 4 <= |a|
    ensures Get32(a + b, k) == Get32(a, k)
  {
  }

  lemma GetBack(a: seq<byte>, b: seq<byte>)
    requires |b| == 16
    ensures Get32(a + b, |a| + 12) == Get32(b, 12)
  {
  }

  lemma AnswerTail(at: nat, ip: u32)
    ensures Get32(Answer(at, ip), 12) == ip
  {
    hide Big16, Big32, BitOr;
    var a := Answer(at, ip);
    assert a == a[..12] + Big32(ip);
    GetAfter(a[..12], Big32(ip), 0);
    Big32Reads(ip);
  }

  lemma Big32Reads(ip: u32)
    ensures Get32(Big32(ip), 0) == ip
  {
    var x := ip / 256;
    var y := x / 256;
    assert ip / 0x1_0000 == y && ip / 0x100_0000 == y / 256;
    assert ip == ip % 256 + 256 * (x % 256 + 256 * (y % 256 + 256 * (y / 256)));
    assert y / 256 % 256 == y / 256;
  }

  /** A reply's answer j, read back from its bytes. */
  lemma ReplyAddress(q: seq<byte>, end: nat, at: seq<nat>, ips: seq<nat>, j: nat)
    requires HeaderSize <= end <= |q| && |at| == |ips| && j < |at| && ips[j] < 0x1_0000_0000
    ensures end + 16 * j + 16 <= |Reply(q, end, at, ips)|
    ensures Get32(Reply(q, end, at, ips), end + 16 * j + 12) == ips[j]
  {
    hide Answers, ReplyFlags, Big16;
    AnswerAddress(at, ips, j);
    var head := q[..2] + Big16(ReplyFlags(Get16(q, 2))) + q[4..6] + Big16(|at|) + [0, 0, 0, 0] + q[12..end];
    assert Reply(q, end, at, ips) == head + Answers(at, ips);
    GetAfter(head, Answers(at, ips), 16 * j + 12);
  }

  lemma GetAfter(a: seq<byte>, b: seq<byte>, k: nat)
    requires k + 4 <= |b|
    ensures Get32(a + b, |a| + k) == Get32(b, k)
  {
  }

  lemma ReplyCount(q: seq<byte>, end: nat, at: seq<nat>, ips: seq<nat>)
    requires HeaderSize <= end <= |q| && |at| == |ips| < 0x1_0000
    ensures |Reply(q, end, at, ips)| >= 8 && Get16(Reply(q, end, at, ips), 6) == |at|
  {
    hide Answers, ReplyFlags;
    var r := Reply(q, end, at, ips);
    assert r[6] == |at| / 256 % 256 && r[7] == |at| % 256;
  }

  lemma AnswerableMeans(q: seq<byte>, slen: nat)
    requires Answerable(q, slen)
    ensures |q| >= HeaderSize && QuestionAt(q, Get16(q, 4)).Some?
    ensures Asked(q, slen) == AddressQuestions(q, Get16(q, 4)) && |Asked(q, slen)| <= 32
  {
  }

  lemma FoundIndex(l: seq<Node>, max: nat, names: seq<Name>, idxs: seq<nat>, j: nat)
    requires Found(l, max, names, idxs) && j < |names|
    ensures |idxs| == |names| && idxs[j] < max
  {
    assert FoundAt(l, max, names, j, idxs[j]);
  }

  /**
   * The whole way round: a query with at most max distinct address names is answered, and the
   * address in answer j, looked up, gives the name of address question j.
   */
  method HandleThenLookup(dns: MappedDns, req: array<byte>, res: array<byte>, j: nat) returns (name: Option<Name>)
    requires dns.Valid() && req != res && dns.max <= 0x1_0000_0000
    requires BitAnd(dns.net, HostMask(dns.mask)) == 0 && Inside(dns.mask, dns.max)
    requires Answerable(req[..], res.Length) && j < |Asked(req[..], res.Length)|
    requires |set n | n in Names(req[..], Asked(req[..], res.Length))| <= dns.max
    modifies req, res, dns, dns.records
    ensures dns.Valid()
    ensures name == Some(NameOf(old(req[..]), Asked(old(req[..]), res.Length)[j]))
  {
    hide Good, Agree, Found, Touched, Touch, Answers, Reply, ReplyFlags, BitOr, BitAnd, Inside, NameOf, Answerable,
      Asked;
    ghost var q, l := req[..], dns.list;
    ghost var at := Asked(q, res.Length);
    var r; ghost var ips, idxs;
    r, ips, idxs := Handle(dns, req, res);
    AnswerableMeans(q, res.Length);
    ghost var end := QuestionAt(q, Get16(q, 4)).value;
    FoundIndex(l, dns.max, Names(q, at), idxs, j);
    AddressFits(dns.net, idxs[j]);
    ReplyAddress(q, end, at, ips, j);
    ReplyCount(q, end, at, ips);
    AllRetained(l, dns.max, Names(q, at), idxs, j);
    AddressRoundTrip(dns.net, dns.mask, dns.max);
    ghost var now := dns.list;
    var reply := res[..r];
    var off := |reply| - 16 * Get16(reply, 6);
    var ip := Get32(reply, off + 16 * j + 12);
    name := dns.Lookup(ip);
    SameIndex(now, dns.max, Node(NameOf(q, at[j]), idxs[j]), name);
  }
}

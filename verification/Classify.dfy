/** Building messages with padding, masking and trailers, and telling them apart on arrival. */
module Classify {
  import opened Bytes
  import opened Options
  import opened Words
  import opened UintRanges
  import opened HeaderConfig

  /** Byte i of the keystream for a key and a nonce. */
  type Cipher = (seq<byte>, seq<byte>, nat) -> byte

  const MinMessageSize := 32
  const TransportHeaderSize := 16

  function Size(k: Kind): nat {
    match k
    case Initiation => 148
    case Response => 92
    case Cookie => 64
    case Transport => 32
  }

  /** How much of a message is masked. */
  function MaskedSize(k: Kind): nat { if k == Transport then TransportHeaderSize else Size(k) }

  function XorByte(a: byte, b: byte): byte {
    PowByte();
    XorFits(a, b, 8);
    BitXor(a, b)
  }

  lemma XorByteTwice(a: byte, b: byte)
    ensures XorByte(XorByte(a, b), b) == a
  {
    XorTwice(a, b);
  }

  /** The keystream a packet is masked with: its first bytes are the nonce; without a key there is no masking. */
  function KeyStream(c: Cipher, key: seq<byte>, packet: seq<byte>, i: nat): byte {
    if IsZero(key) || |packet| < HeaderCipherNonceSize then 0 else c(key, packet[..HeaderCipherNonceSize], i)
  }

  function Masked(c: Cipher, key: seq<byte>, packet: seq<byte>, s: seq<byte>, from: nat): (r: seq<byte>)
    ensures |r| == |s|
  {
    seq(|s|, i requires 0 <= i < |s| => XorByte(s[i], KeyStream(c, key, packet, from + i)))
  }

  lemma MaskedTwice(c: Cipher, key: seq<byte>, packet: seq<byte>, s: seq<byte>, from: nat)
    ensures Masked(c, key, packet, Masked(c, key, packet, s, from), from) == s
  {
    hide XorByte, KeyStream;
    var m := Masked(c, key, packet, s, from);
    forall i | 0 <= i < |s| ensures Masked(c, key, packet, m, from)[i] == s[i] {
      XorByteTwice(s[i], KeyStream(c, key, packet, from + i));
    }
  }

  /** Masking depends on the packet only through its nonce. */
  lemma SameNonce(c: Cipher, key: seq<byte>, p: seq<byte>, q: seq<byte>, s: seq<byte>, from: nat)
    requires IsZero(key)
      || (|p| >= HeaderCipherNonceSize && |q| >= HeaderCipherNonceSize
        && p[..HeaderCipherNonceSize] == q[..HeaderCipherNonceSize])
    ensures Masked(c, key, p, s, from) == Masked(c, key, q, s, from)
  {
    hide XorByte;
    forall i | 0 <= i < |s| ensures Masked(c, key, p, s, from)[i] == Masked(c, key, q, s, from)[i] { }
  }

  lemma MaskedPrefix(c: Cipher, key: seq<byte>, packet: seq<byte>, s: seq<byte>, n: nat)
    requires n <= |s|
    ensures Masked(c, key, packet, s, 0)[..n] == Masked(c, key, packet, s[..n], 0)
  {
    hide XorByte, KeyStream;
  }

  /** What is sent: random padding, the message with its head masked, and a trailer. */
  function Wire(cfg: Settings, c: Cipher, k: Kind, crypt: seq<byte>, msg: seq<byte>, trailer: seq<byte>): seq<byte>
    requires MaskedSize(k) <= |msg|
  {
    crypt + Masked(c, cfg.key, crypt, msg[..MaskedSize(k)], 0) + msg[MaskedSize(k)..] + trailer
  }

  /** The length test of a kind: exact, or at least that long when a trailer may follow. */
  predicate SizeFits(cfg: Settings, trailers: bool, size: nat, k: Kind)
    requires k in cfg.paddings
  {
    var expected := cfg.paddings[k] + Size(k);
    size == expected || ((trailers || k == Transport) && size > expected)
  }

  predicate Matches(cfg: Settings, trailers: bool, c: Cipher, packet: seq<byte>, k: Kind)
    requires k in cfg.paddings && k in cfg.headers
  {
    && SizeFits(cfg, trailers, |packet|, k)
    && var pad := cfg.paddings[k];
      Contains(cfg.headers[k], Header(Masked(c, cfg.key, packet, packet[pad..pad + 4], 0)))
  }

  /** The message type field, little-endian. */
  function Header(b: seq<byte>): (h: u32)
    requires |b| == 4
  {
    b[0] as int + 256 * (b[1] as int + 256 * (b[2] as int + 256 * b[3] as int))
  }

  /** DeterminePacketTypeAndPadding: the first kind that matches. */
  function Determine(cfg: Settings, trailers: bool, c: Cipher, packet: seq<byte>): Option<Kind>
    requires forall k: Kind :: k in cfg.paddings && k in cfg.headers
  {
    if Matches(cfg, trailers, c, packet, Initiation) then Some(Initiation)
    else if Matches(cfg, trailers, c, packet, Response) then Some(Response)
    else if Matches(cfg, trailers, c, packet, Cookie) then Some(Cookie)
    else if Matches(cfg, trailers, c, packet, Transport) then Some(Transport)
    else None
  }

  /** The kind and the unmasked message of a received packet. */
  function Received(cfg: Settings, trailers: bool, c: Cipher, packet: seq<byte>): Option<(Kind, seq<byte>)>
    requires forall k: Kind :: k in cfg.paddings && k in cfg.headers
  {
    if |packet| < MinMessageSize then None
    else
      var k := Determine(cfg, trailers, c, packet);
      if k.None? then None
      else
        var body := packet[cfg.paddings[k.value]..];
        var msg := if k.value == Transport then body else body[..Size(k.value)];
        var n := MaskedSize(k.value);
        Some((k.value, Masked(c, cfg.key, packet, msg[..n], 0) + msg[n..]))
  }

  /* Correctness. */

  predicate Earlier(j: Kind, k: Kind) { TypeOf(j) < TypeOf(k) }

  /** No kind that is looked at before k can take a packet of this size for its own by reading at another offset. */
  ghost predicate Unambiguous(cfg: Settings, trailers: bool, size: nat, k: Kind)
    requires forall j: Kind :: j in cfg.paddings
  {
    forall j: Kind :: Earlier(j, k) ==> cfg.paddings[j] == cfg.paddings[k] || !SizeFits(cfg, trailers, size, j)
  }

  /** A message the send path can build for kind k. */
  ghost predicate Sendable(cfg: Settings, trailers: bool, k: Kind, crypt: seq<byte>, msg: seq<byte>, trailer: seq<byte>)
    requires k in cfg.paddings && k in cfg.headers
  {
    && |crypt| == cfg.paddings[k]
    && (if k == Transport then |msg| >= Size(k) && trailer == [] else |msg| == Size(k))
    && (trailer != [] ==> trailers)
    && Contains(cfg.headers[k], Header(msg[..4]))
  }

  lemma WireNonce(cfg: Settings, c: Cipher, k: Kind, crypt: seq<byte>, msg: seq<byte>, trailer: seq<byte>, s: seq<byte>)
    requires MaskedSize(k) <= |msg|
    requires !IsZero(cfg.key) ==> |crypt| >= HeaderCipherNonceSize
    ensures Masked(c, cfg.key, Wire(cfg, c, k, crypt, msg, trailer), s, 0) == Masked(c, cfg.key, crypt, s, 0)
  {
    hide Masked, IsZero;
    var w := Wire(cfg, c, k, crypt, msg, trailer);
    if |crypt| >= HeaderCipherNonceSize { assert w[..HeaderCipherNonceSize] == crypt[..HeaderCipherNonceSize]; }
    SameNonce(c, cfg.key, w, crypt, s, 0);
  }

  /** At its own offset the packet reads as the message's type. */
  lemma WireHeader(cfg: Settings, c: Cipher, k: Kind, crypt: seq<byte>, msg: seq<byte>, trailer: seq<byte>)
    requires MaskedSize(k) <= |msg|
    requires !IsZero(cfg.key) ==> |crypt| >= HeaderCipherNonceSize
    ensures |Wire(cfg, c, k, crypt, msg, trailer)| == |crypt| + |msg| + |trailer|
    ensures var w, pad := Wire(cfg, c, k, crypt, msg, trailer), |crypt|;
      Masked(c, cfg.key, w, w[pad..pad + 4], 0) == msg[..4]
  {
    var w, n, pad := Wire(cfg, c, k, crypt, msg, trailer), MaskedSize(k), |crypt|;
    hide Masked, IsZero;
    var m := Masked(c, cfg.key, crypt, msg[..n], 0);
    assert w[pad..pad + 4] == m[..4];
    MaskedPrefix(c, cfg.key, crypt, msg[..n], 4);
    assert msg[..n][..4] == msg[..4];
    WireNonce(cfg, c, k, crypt, msg, trailer, m[..4]);
    MaskedTwice(c, cfg.key, crypt, msg[..4], 0);
  }

  lemma WireBody(cfg: Settings, c: Cipher, k: Kind, crypt: seq<byte>, msg: seq<byte>, trailer: seq<byte>)
    requires MaskedSize(k) <= |msg|
    requires !IsZero(cfg.key) ==> |crypt| >= HeaderCipherNonceSize
    ensures var w, n := Wire(cfg, c, k, crypt, msg, trailer), MaskedSize(k);
      var body := w[|crypt|..|crypt| + |msg|];
      Masked(c, cfg.key, w, body[..n], 0) + body[n..] == msg
  {
    var w, n := Wire(cfg, c, k, crypt, msg, trailer), MaskedSize(k);
    hide Masked, IsZero;
    var m := Masked(c, cfg.key, crypt, msg[..n], 0);
    var body := w[|crypt|..|crypt| + |msg|];
    assert body == m + msg[n..];
    assert body[..n] == m && body[n..] == msg[n..];
    WireNonce(cfg, c, k, crypt, msg, trailer, m);
    MaskedTwice(c, cfg.key, crypt, msg[..n], 0);
  }

  /** A kind other than the message's own does not match a packet that is unambiguous. */
  lemma OthersDoNotMatch(cfg: Settings, trailers: bool, c: Cipher, k: Kind, j: Kind, w: seq<byte>, msg: seq<byte>)
    requires Sound(cfg) && j != k
    requires |msg| >= 4 && Contains(cfg.headers[k], Header(msg[..4]))
    requires cfg.paddings[k] + 4 <= |w| && Masked(c, cfg.key, w, w[cfg.paddings[k]..cfg.paddings[k] + 4], 0) == msg[..4]
    requires cfg.paddings[j] == cfg.paddings[k] || !SizeFits(cfg, trailers, |w|, j)
    ensures !Matches(cfg, trailers, c, w, j)
  {
    hide Masked, Header, Contains;
  }

  /**
   * Every message the send path builds, with or without a trailer, is taken for its own kind and
   * unmasked to its original bytes, whenever no earlier kind is ambiguous with it.
   */
  lemma OwnKind(cfg: Settings, trailers: bool, c: Cipher, k: Kind, crypt: seq<byte>, msg: seq<byte>, trailer: seq<byte>)
    requires Sound(cfg) && Sendable(cfg, trailers, k, crypt, msg, trailer)
    requires Unambiguous(cfg, trailers, |crypt| + |msg| + |trailer|, k)
    ensures Received(cfg, trailers, c, Wire(cfg, c, k, crypt, msg, trailer)) == Some((k, msg))
  {
    hide Masked, Header, Contains, Wire, IsZero, Disjoint, Matches;
    var w, pad := Wire(cfg, c, k, crypt, msg, trailer), cfg.paddings[k];
    WireHeader(cfg, c, k, crypt, msg, trailer);
    WireBody(cfg, c, k, crypt, msg, trailer);
    forall j: Kind | Earlier(j, k) ensures !Matches(cfg, trailers, c, w, j) {
      OthersDoNotMatch(cfg, trailers, c, k, j, w, msg);
    }
    OwnMatches(cfg, trailers, c, k, w, msg);
    FirstMatch(cfg, trailers, c, w, k);
    var body := w[pad..];
    assert k != Transport ==> body[..Size(k)] == w[pad..pad + |msg|];
    assert k == Transport ==> body == w[pad..pad + |msg|];
  }

  lemma OwnMatches(cfg: Settings, trailers: bool, c: Cipher, k: Kind, w: seq<byte>, msg: seq<byte>)
    requires k in cfg.paddings && k in cfg.headers && |msg| >= 4 && SizeFits(cfg, trailers, |w|, k)
    requires Masked(c, cfg.key, w, w[cfg.paddings[k]..cfg.paddings[k] + 4], 0) == msg[..4]
    requires Contains(cfg.headers[k], Header(msg[..4]))
    ensures Matches(cfg, trailers, c, w, k)
  {
    hide Masked, Header, Contains;
  }

  lemma FirstMatch(cfg: Settings, trailers: bool, c: Cipher, w: seq<byte>, k: Kind)
    requires forall j: Kind :: j in cfg.paddings && j in cfg.headers
    requires Matches(cfg, trailers, c, w, k)
    requires forall j: Kind :: Earlier(j, k) ==> !Matches(cfg, trailers, c, w, j)
    ensures Determine(cfg, trailers, c, w) == Some(k)
  {
    hide Matches;
    match k
    case Initiation =>
    case Response => assert Earlier(Initiation, k);
    case Cookie => assert Earlier(Initiation, k) && Earlier(Response, k);
    case Transport => assert Earlier(Initiation, k) && Earlier(Response, k) && Earlier(Cookie, k);
  }

  /** With S1 = S2 = S3 = S4 nothing is ambiguous. */
  lemma EqualPaddings(cfg: Settings, trailers: bool, c: Cipher, k: Kind, crypt: seq<byte>, msg: seq<byte>,
                      trailer: seq<byte>)
    requires Sound(cfg) && Sendable(cfg, trailers, k, crypt, msg, trailer)
    requires forall i: Kind, j: Kind :: cfg.paddings[i] == cfg.paddings[j]
    ensures Received(cfg, trailers, c, Wire(cfg, c, k, crypt, msg, trailer)) == Some((k, msg))
  {
    OwnKind(cfg, trailers, c, k, crypt, msg, trailer);
  }

  /* Why ambiguity matters. */

  function HeaderBytes(h: u32): (b: seq<byte>)
    ensures |b| == 4
  {
    [h % 256, h / 256 % 256, h / 0x1_0000 % 256, h / 0x100_0000]
  }

  lemma HeaderReads(h: u32)
    ensures Header(HeaderBytes(h)) == h
  {
    var x := h / 256;
    var y := x / 256;
    assert h / 0x1_0000 == y && h / 0x100_0000 == y / 256;
    assert h == h % 256 + 256 * (x % 256 + 256 * (y % 256 + 256 * (y / 256)));
  }

  /** A packet of the given size with four bytes each at two places, otherwise zero. */
  function Forged(size: nat, pk: nat, bk: seq<byte>, pj: nat, bj: seq<byte>): (w: seq<byte>)
    requires |bk| == 4 && |bj| == 4
    ensures |w| == size
  {
    seq(size, i requires 0 <= i < size =>
      if pk <= i < pk + 4 then bk[i - pk] else if pj <= i < pj + 4 then bj[i - pj] else 0)
  }

  lemma ForgedReads(size: nat, pk: nat, bk: seq<byte>, pj: nat, bj: seq<byte>)
    requires |bk| == 4 && |bj| == 4 && pk + 4 <= size && pj + 4 <= size && (pj + 4 <= pk || pk + 4 <= pj)
    ensures var w := Forged(size, pk, bk, pj, bj);
      && w[pk..pk + 4] == bk && w[pj..pj + 4] == bj
      && (pk >= HeaderCipherNonceSize && pj >= HeaderCipherNonceSize ==>
          w[..HeaderCipherNonceSize] == seq(HeaderCipherNonceSize, _ => 0))
  {
  }

  /** Every packet that is long enough is the wire form of some message. */
  lemma WireOf(cfg: Settings, c: Cipher, k: Kind, w: seq<byte>, n: nat)
    returns (crypt: seq<byte>, msg: seq<byte>, trailer: seq<byte>)
    requires k in cfg.paddings && MaskedSize(k) <= n && cfg.paddings[k] + n <= |w|
    requires !IsZero(cfg.key) ==> cfg.paddings[k] >= HeaderCipherNonceSize
    ensures |crypt| == cfg.paddings[k] && |msg| == n && |trailer| == |w| - cfg.paddings[k] - n
    ensures Wire(cfg, c, k, crypt, msg, trailer) == w
    ensures msg[..4] == Masked(c, cfg.key, w, w[cfg.paddings[k]..cfg.paddings[k] + 4], 0)
  {
    hide Masked, IsZero;
    var pad, m := cfg.paddings[k], MaskedSize(k);
    var body := w[pad..pad + n];
    crypt, trailer := w[..pad], w[pad + n..];
    var head := Masked(c, cfg.key, crypt, body[..m], 0);
    msg := head + body[m..];
    Split(head, body[m..]);
    MaskedTwice(c, cfg.key, crypt, body[..m], 0);
    Rejoin(w, pad, m, n);
    MaskedPrefix(c, cfg.key, crypt, body[..m], 4);
    assert body[..m][..4] == w[pad..pad + 4];
    assert msg[..4] == head[..4];
    if |crypt| >= HeaderCipherNonceSize { assert crypt[..HeaderCipherNonceSize] == w[..HeaderCipherNonceSize]; }
    SameNonce(c, cfg.key, w, crypt, w[pad..pad + 4], 0);
  }

  lemma Split(a: seq<byte>, b: seq<byte>)
    ensures (a + b)[..|a|] == a && (a + b)[|a|..] == b
  {
  }

  lemma Rejoin(w: seq<byte>, pad: nat, m: nat, n: nat)
    requires m <= n && pad + n <= |w|
    ensures w[..pad] + w[pad..pad + n][..m] + w[pad..pad + n][m..] + w[pad + n..] == w
  {
  }

  /** Lengths the send path produces for kind k. */
  predicate SendableLengths(trailers: bool, k: Kind, n: nat, t: nat) {
    (if k == Transport then n >= Size(k) && t == 0 else n == Size(k)) && (t > 0 ==> trailers)
  }

  /** What is stored so that it unmasks to header h, under a nonce of zeroes. */
  function Disguised(cfg: Settings, c: Cipher, h: u32): (b: seq<byte>)
    ensures |b| == 4
  {
    Masked(c, cfg.key, seq(HeaderCipherNonceSize, _ => 0), HeaderBytes(h), 0)
  }

  /** In a packet with a nonce of zeroes a disguised header is read. */
  lemma DisguiseReads(cfg: Settings, c: Cipher, w: seq<byte>, at: nat, h: u32)
    requires at + 4 <= |w| && w[at..at + 4] == Disguised(cfg, c, h)
    requires IsZero(cfg.key)
      || (|w| >= HeaderCipherNonceSize && w[..HeaderCipherNonceSize] == seq(HeaderCipherNonceSize, _ => 0))
    ensures Header(Masked(c, cfg.key, w, w[at..at + 4], 0)) == h
  {
    hide Masked, IsZero, HeaderBytes, Header;
    var nonce := seq(HeaderCipherNonceSize, _ => 0);
    assert nonce[..HeaderCipherNonceSize] == nonce;
    SameNonce(c, cfg.key, w, nonce, w[at..at + 4], 0);
    MaskedTwice(c, cfg.key, nonce, HeaderBytes(h), 0);
    HeaderReads(h);
  }

  /**
   An earlier kind of another padding that fits the size, with or without a header key: if the two type fields do not
   overlap, some message of these lengths is taken for another kind.
   */
  lemma AmbiguousIsMistaken(cfg: Settings, trailers: bool, c: Cipher, k: Kind, j: Kind, n: nat, t: nat)
    returns (crypt: seq<byte>, msg: seq<byte>, trailer: seq<byte>)
    requires Sound(cfg) && Earlier(j, k) && SendableLengths(trailers, k, n, t)
    requires cfg.paddings[j] + 4 <= cfg.paddings[k] || cfg.paddings[k] + 4 <= cfg.paddings[j]
    requires SizeFits(cfg, trailers, cfg.paddings[k] + n + t, j)
    ensures |msg| == n && |trailer| == t && Sendable(cfg, trailers, k, crypt, msg, trailer)
    ensures Determine(cfg, trailers, c, Wire(cfg, c, k, crypt, msg, trailer)) != Some(k)
  {
    hide Wire, Masked, IsZero, HeaderBytes, Header, Disguised, Forged, Disjoint, Padded;
    var pk, pj, hk, hj := cfg.paddings[k], cfg.paddings[j], Lo(cfg.headers[k]), Lo(cfg.headers[j]);
    var w := Forged(pk + n + t, pk, Disguised(cfg, c, hk), pj, Disguised(cfg, c, hj));
    ForgedReads(pk + n + t, pk, Disguised(cfg, c, hk), pj, Disguised(cfg, c, hj));
    KeyedPaddings(cfg, k);
    KeyedPaddings(cfg, j);
    DisguiseReads(cfg, c, w, pk, hk);
    DisguiseReads(cfg, c, w, pj, hj);
    crypt, msg, trailer := WireOf(cfg, c, k, w, n);
    LowContained(cfg, k);
    LowContained(cfg, j);
    assert Matches(cfg, trailers, c, w, j);
    hide Matches;
    NotThisKind(cfg, trailers, c, w, j, k);
  }

  lemma KeyedPaddings(cfg: Settings, k: Kind)
    requires Sound(cfg)
    ensures !IsZero(cfg.key) ==> cfg.paddings[k] >= HeaderCipherNonceSize
  {
    hide IsZero, Disjoint;
  }

  lemma LowContained(cfg: Settings, k: Kind)
    requires Sound(cfg)
    ensures Contains(cfg.headers[k], Lo(cfg.headers[k]))
  {
    assert Proper(cfg.headers[k]);
  }

  lemma NotThisKind(cfg: Settings, trailers: bool, c: Cipher, w: seq<byte>, j: Kind, k: Kind)
    requires forall i: Kind :: i in cfg.paddings && i in cfg.headers
    requires Matches(cfg, trailers, c, w, j) && Earlier(j, k)
    ensures Determine(cfg, trailers, c, w) != Some(k)
  {
    hide Matches;
    match k
    case Initiation =>
    case Response =>
    case Cookie =>
    case Transport =>
  }

  /** The type fields of k and of any earlier kind that fits the size are at the same place or do not overlap. */
  ghost predicate Spaced(cfg: Settings, trailers: bool, size: nat, k: Kind)
    requires forall j: Kind :: j in cfg.paddings
  {
    forall j: Kind :: Earlier(j, k) && SizeFits(cfg, trailers, size, j) ==>
      || cfg.paddings[j] == cfg.paddings[k]
      || cfg.paddings[j] + 4 <= cfg.paddings[k] || cfg.paddings[k] + 4 <= cfg.paddings[j]
  }

  /** Every message of kind k with these lengths arrives as itself. */
  ghost predicate AlwaysOwnKind(cfg: Settings, trailers: bool, c: Cipher, k: Kind, n: nat, t: nat)
    requires forall j: Kind :: j in cfg.paddings && j in cfg.headers
  {
    forall crypt: seq<byte>, msg: seq<byte>, trailer: seq<byte> ::
      |msg| == n && |trailer| == t && MaskedSize(k) <= n && Sendable(cfg, trailers, k, crypt, msg, trailer) ==>
        Received(cfg, trailers, c, Wire(cfg, c, k, crypt, msg, trailer)) == Some((k, msg))
  }

  /** Exactly when no earlier kind is ambiguous with them, for type fields that do not overlap. */
  lemma OwnKindExactly(cfg: Settings, trailers: bool, c: Cipher, k: Kind, n: nat, t: nat)
    requires Sound(cfg) && SendableLengths(trailers, k, n, t)
    requires Spaced(cfg, trailers, cfg.paddings[k] + n + t, k)
    ensures AlwaysOwnKind(cfg, trailers, c, k, n, t) <==> Unambiguous(cfg, trailers, cfg.paddings[k] + n + t, k)
  {
    hide Wire, Determine, Sound, SizeFits;
    KindsKnown(cfg);
    var size := cfg.paddings[k] + n + t;
    if Unambiguous(cfg, trailers, size, k) {
      forall crypt: seq<byte>, msg: seq<byte>, trailer: seq<byte>
        | |msg| == n && |trailer| == t && Sendable(cfg, trailers, k, crypt, msg, trailer)
        ensures Received(cfg, trailers, c, Wire(cfg, c, k, crypt, msg, trailer)) == Some((k, msg))
      {
        OwnKind(cfg, trailers, c, k, crypt, msg, trailer);
      }
    } else {
      var j: Kind :| Earlier(j, k) && cfg.paddings[j] != cfg.paddings[k] && SizeFits(cfg, trailers, size, j);
      var crypt, msg, trailer := AmbiguousIsMistaken(cfg, trailers, c, k, j, n, t);
      assert Received(cfg, trailers, c, Wire(cfg, c, k, crypt, msg, trailer)) != Some((k, msg));
    }
  }

  lemma KindsKnown(cfg: Settings)
    requires Sound(cfg)
    ensures forall k: Kind :: k in cfg.paddings && k in cfg.headers
  {
    hide IsZero, Disjoint;
  }

  /* In place. */

  /** XORKeyStream over part of a buffer, from position pos of the keystream. */
  method XorKeyStream(c: Cipher, key: seq<byte>, nonce: seq<byte>, a: array<byte>, from: nat, to: nat, pos: nat)
    requires from <= to <= a.Length
    modifies a
    ensures a[..from] == old(a[..from]) && a[to..] == old(a[to..])
    ensures a[from..to] == Masked(c, key, nonce, old(a[from..to]), pos)
  {
    hide XorByte, KeyStream;
    var i := from;
    ghost var was := a[..];
    while i < to
      invariant from <= i <= to
      invariant forall k :: 0 <= k < a.Length && (k < from || k >= i) ==> a[k] == was[k]
      invariant forall k :: from <= k < i ==> a[k] == XorByte(was[k], KeyStream(c, key, nonce, pos + (k - from)))
    {
      a[i] := XorByte(a[i], KeyStream(c, key, nonce, pos + (i - from)));
      i := i + 1;
    }
    assert was[from..to] == old(a[from..to]);
    assert a[from..to] == Masked(c, key, nonce, was[from..to], pos);
  }

  /** The buffer a message is sent in: padding, message and trailer are written, then the head is masked. */
  method Build(cfg: Settings, c: Cipher, k: Kind, crypt: seq<byte>, msg: seq<byte>, trailer: seq<byte>)
    returns (buf: array<byte>)
    requires MaskedSize(k) <= |msg| && Sound(cfg) && |crypt| == cfg.paddings[k]
    ensures fresh(buf) && buf[..] == Wire(cfg, c, k, crypt, msg, trailer)
  {
    hide Masked, Sound, IsZero;
    var all, pad, n := crypt + msg + trailer, |crypt|, MaskedSize(k);
    buf := new byte[|all|](i requires 0 <= i < |all| => all[i]);
    assert buf[..] == all;
    XorKeyStream(c, cfg.key, crypt, buf, pad, pad + n, 0);
    PartsOf(crypt, msg, trailer, n);
    ThreeParts(buf[..], pad, pad + n, all);
  }

  lemma PartsOf(crypt: seq<byte>, msg: seq<byte>, trailer: seq<byte>, n: nat)
    requires n <= |msg|
    ensures var all, pad := crypt + msg + trailer, |crypt|;
      all[..pad] == crypt && all[pad..pad + n] == msg[..n] && all[pad + n..] == msg[n..] + trailer
  {
  }

  lemma ThreeParts(b: seq<byte>, i: nat, j: nat, all: seq<byte>)
    requires i <= j <= |b| == |all| && b[..i] == all[..i] && b[j..] == all[j..]
    ensures b == all[..i] + b[i..j] + all[j..]
  {
    assert b == b[..i] + b[i..j] + b[j..];
  }

  /** The head of a received packet is unmasked in place, in two goes: the type first, then the rest. */
  method Receive(cfg: Settings, trailers: bool, c: Cipher, packet: array<byte>)
    returns (kind: Option<Kind>, start: nat, end: nat)
    requires forall k: Kind :: k in cfg.paddings && k in cfg.headers
    modifies packet
    ensures kind.Some? <==> Received(cfg, trailers, c, old(packet[..])).Some?
    ensures kind.Some? ==>
      && start <= end <= packet.Length
      && Received(cfg, trailers, c, old(packet[..])) == Some((kind.value, packet[start..end]))
  {
    start, end := 0, 0;
    if packet.Length < MinMessageSize { return None, 0, 0; }
    ghost var p := packet[..];
    var nonce := packet[..HeaderCipherNonceSize];
    kind := Determine(cfg, trailers, c, packet[..]);
    if kind.None? { return; }
    var k := kind.value;
    DeterminedFits(cfg, trailers, c, p);
    start := cfg.paddings[k];
    end := if k == Transport then packet.Length else start + Size(k);
    var n := MaskedSize(k);
    hide Masked, Determine;
    XorKeyStream(c, cfg.key, nonce, packet, start, start + 4, 0);
    ghost var q := packet[..];
    XorKeyStream(c, cfg.key, nonce, packet, start + 4, start + n, 4);
    Unmasking(c, cfg.key, p, q, packet[..], start, n, end);
    assert packet[..][start..end] == packet[start..end];
    var body := p[start..];
    assert (if k == Transport then body else body[..Size(k)]) == p[start..end];
  }

  lemma DeterminedFits(cfg: Settings, trailers: bool, c: Cipher, p: seq<byte>)
    requires forall k: Kind :: k in cfg.paddings && k in cfg.headers
    ensures var k := Determine(cfg, trailers, c, p); k.Some? ==> cfg.paddings[k.value] + Size(k.value) <= |p|
  {
  }

  lemma Unmasking(c: Cipher, key: seq<byte>, p: seq<byte>, q: seq<byte>, r: seq<byte>, start: nat, n: nat, end: nat)
    requires HeaderCipherNonceSize <= |p| == |q| == |r| && 4 <= n && start + n <= end <= |p|
    requires q[..start] == p[..start] && q[start + 4..] == p[start + 4..]
    requires q[start..start + 4] == Masked(c, key, p[..HeaderCipherNonceSize], p[start..start + 4], 0)
    requires r[..start + 4] == q[..start + 4] && r[start + n..] == q[start + n..]
    requires r[start + 4..start + n] == Masked(c, key, p[..HeaderCipherNonceSize], q[start + 4..start + n], 4)
    ensures var msg := p[start..end];
      r[start..end] == Masked(c, key, p, msg[..n], 0) + msg[n..]
  {
    hide Masked, IsZero;
    var msg, nonce := p[start..end], p[..HeaderCipherNonceSize];
    var a, b := p[start..start + 4], p[start + 4..start + n];
    assert nonce[..HeaderCipherNonceSize] == p[..HeaderCipherNonceSize];
    SameNonce(c, key, nonce, p, a, 0);
    SameNonce(c, key, nonce, p, b, 4);
    assert q[start + 4..start + n] == b by { SuffixPart(q, p, start + 4, start + 4, start + n); }
    MaskedConcat(c, key, p, a, b);
    assert msg[..n] == a + b;
    assert r[start..start + 4] == q[start..start + 4] by {
      assert r[start..start + 4] == r[..start + 4][start..] && q[start..start + 4] == q[..start + 4][start..];
    }
    assert r[start + n..end] == msg[n..] by {
      SuffixPart(r, q, start + n, start + n, end);
      SuffixPart(q, p, start + 4, start + n, end);
    }
    assert r[start..end] == r[start..start + 4] + r[start + 4..start + n] + r[start + n..end];
  }

  lemma SuffixPart(x: seq<byte>, y: seq<byte>, off: nat, i: nat, j: nat)
    requires |x| == |y| && off <= i <= j <= |x| && x[off..] == y[off..]
    ensures x[i..j] == y[i..j]
  {
    forall k | i <= k < j ensures x[k] == y[k] {
      assert x[off..][k - off] == y[off..][k - off];
    }
  }

  lemma MaskedConcat(c: Cipher, key: seq<byte>, packet: seq<byte>, a: seq<byte>, b: seq<byte>)
    ensures Masked(c, key, packet, a + b, 0) == Masked(c, key, packet, a, 0) + Masked(c, key, packet, b, |a|)
  {
    hide XorByte, KeyStream;
  }
}

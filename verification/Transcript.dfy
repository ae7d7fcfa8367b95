/**
 * The key schedule of the Noise IKpsk2 handshake, over abstract primitives. Each formula is stated
 * once, in terms of the shared secrets, so that it is the same for both ends.
 */
module Transcript {
  import opened Bytes
  import opened Options

  type Octets = seq<byte>

  /** The primitives, as function values. */
  datatype Crypto = Crypto(
    sum: Octets -> Octets,                        // unkeyed hash
    hmac: (Octets, Octets) -> Octets,             // key, data
    dh: (Octets, Octets) -> Octets,               // private, public
    public: Octets -> Octets,                     // private
    seal: (Octets, u64, Octets, Octets) -> Octets,     // key, nonce, plaintext, additional data
    open: (Octets, u64, Octets, Octets) -> Option<Octets>)

  /** What the exchange needs of the primitives. */
  ghost predicate Laws(c: Crypto) {
    && (forall a, b :: c.dh(a, c.public(b)) == c.dh(b, c.public(a)))
    && (forall a, b :: !IsZero(c.dh(a, c.public(b))))
    && (forall k, n, p, ad :: c.open(k, n, c.seal(k, n, p, ad), ad) == Some(p))
  }

  function Ascii(s: string): Octets {
    seq(|s|, i requires 0 <= i < |s| => s[i] as int % 256)
  }

  const NoiseConstruction := "Noise_IKpsk2_25519_ChaChaPoly_BLAKE2s"
  const WGIdentifier := "WireGuard v1 zx2c4 Jason@zx2c4.com"

  function MixHash(c: Crypto, h: Octets, data: Octets): Octets { c.sum(h + data) }

  function InitialChainKey(c: Crypto): Octets { c.sum(Ascii(NoiseConstruction)) }

  function InitialHash(c: Crypto): Octets { MixHash(c, InitialChainKey(c), Ascii(WGIdentifier)) }

  function Kdf1(c: Crypto, key: Octets, input: Octets): Octets {
    c.hmac(c.hmac(key, input), [1])
  }

  function Kdf2(c: Crypto, key: Octets, input: Octets): (Octets, Octets) {
    var prk := c.hmac(key, input);
    var t0 := c.hmac(prk, [1]);
    (t0, c.hmac(prk, t0 + [2]))
  }

  function Kdf3(c: Crypto, key: Octets, input: Octets): (Octets, Octets, Octets) {
    var prk := c.hmac(key, input);
    var t0 := c.hmac(prk, [1]);
    var t1 := c.hmac(prk, t0 + [2]);
    (t0, t1, c.hmac(prk, t1 + [3]))
  }

  /** sharedSecret: an all-zero result is an error. */
  function SharedSecret(c: Crypto, priv: Octets, pub: Octets): Option<Octets> {
    var ss := c.dh(priv, pub);
    if IsZero(ss) then None else Some(ss)
  }

  /* The first message: e, es, s, ss, then the timestamp. */

  function Hash1(c: Crypto, responder: Octets, eph: Octets): Octets {
    MixHash(c, MixHash(c, InitialHash(c), responder), eph)
  }

  function Chain1(c: Crypto, eph: Octets): Octets { Kdf1(c, InitialChainKey(c), eph) }

  /** The chain key and the sealing key of the static field. */
  function Static(c: Crypto, eph: Octets, es: Octets): (Octets, Octets) { Kdf2(c, Chain1(c, eph), es) }

  /** The chain key and the sealing key of the timestamp field. */
  function Time(c: Crypto, eph: Octets, es: Octets, ss: Octets): (Octets, Octets) { Kdf2(c, Static(c, eph, es).0, ss) }

  function SealedStatic(c: Crypto, responder: Octets, eph: Octets, es: Octets, initiator: Octets): Octets {
    c.seal(Static(c, eph, es).1, 0, initiator, Hash1(c, responder, eph))
  }

  function SealedTime(c: Crypto, responder: Octets, eph: Octets, es: Octets, ss: Octets, sealedStatic: Octets,
      time: Octets): Octets {
    c.seal(Time(c, eph, es, ss).1, 0, time, MixHash(c, Hash1(c, responder, eph), sealedStatic))
  }

  function HashAfterFirst(c: Crypto, responder: Octets, eph: Octets, sealedStatic: Octets, sealedTime: Octets): Octets {
    MixHash(c, MixHash(c, Hash1(c, responder, eph), sealedStatic), sealedTime)
  }

  /** Who the first message says it is from, as the holder of the responder's key reads it. */
  function ReadStatic(c: Crypto, responder: Octets, eph: Octets, es: Octets, sealedStatic: Octets): Option<Octets> {
    c.open(Static(c, eph, es).1, 0, sealedStatic, Hash1(c, responder, eph))
  }

  function ReadTime(c: Crypto, responder: Octets, eph: Octets, es: Octets, ss: Octets, sealedStatic: Octets,
      sealedTime: Octets): Option<Octets> {
    c.open(Time(c, eph, es, ss).1, 0, sealedTime, MixHash(c, Hash1(c, responder, eph), sealedStatic))
  }

  /* The second message: e, ee, se, psk. */

  function Chain2(c: Crypto, chain: Octets, eph: Octets, ee: Octets, se: Octets): Octets {
    Kdf1(c, Kdf1(c, Kdf1(c, chain, eph), ee), se)
  }

  /** The new chain key, the value mixed into the hash, and the sealing key. */
  function Psk(c: Crypto, chain: Octets, eph: Octets, ee: Octets, se: Octets, psk: Octets): (Octets, Octets, Octets) {
    Kdf3(c, Chain2(c, chain, eph, ee, se), psk)
  }

  function HashBeforeEmpty(c: Crypto, hash: Octets, chain: Octets, eph: Octets, ee: Octets, se: Octets,
                           psk: Octets): Octets {
    MixHash(c, MixHash(c, hash, eph), Psk(c, chain, eph, ee, se, psk).1)
  }

  function SealedEmpty(c: Crypto, hash: Octets, chain: Octets, eph: Octets, ee: Octets, se: Octets,
                       psk: Octets): Octets {
    c.seal(Psk(c, chain, eph, ee, se, psk).2, 0, [], HashBeforeEmpty(c, hash, chain, eph, ee, se, psk))
  }

  function HashAfterSecond(c: Crypto, hash: Octets, chain: Octets, eph: Octets, ee: Octets, se: Octets,
      psk: Octets, empty: Octets): Octets {
    MixHash(c, HashBeforeEmpty(c, hash, chain, eph, ee, se, psk), empty)
  }

  function ReadEmpty(c: Crypto, hash: Octets, chain: Octets, eph: Octets, ee: Octets, se: Octets, psk: Octets,
      empty: Octets): Option<Octets> {
    c.open(Psk(c, chain, eph, ee, se, psk).2, 0, empty, HashBeforeEmpty(c, hash, chain, eph, ee, se, psk))
  }

  /** Timestamps are compared byte by byte from the left. */
  predicate After(a: Octets, b: Octets) {
    if a == [] then false
    else if b == [] then true
    else a[0] > b[0] || (a[0] == b[0] && After(a[1..], b[1..]))
  }

  /* Agreement of the two ends. */

  /** The responder reads from the first message what the initiator put into it. */
  lemma FirstMessageIsRead(c: Crypto, i: Octets, r: Octets, e: Octets, time: Octets)
    requires Laws(c)
    ensures var es, es' := c.dh(e, c.public(r)), c.dh(r, c.public(e));
      var ss, ss' := c.dh(i, c.public(r)), c.dh(r, c.public(i));
      var st := SealedStatic(c, c.public(r), c.public(e), es, c.public(i));
      && es == es' && ss == ss' && !IsZero(es) && !IsZero(ss)
      && ReadStatic(c, c.public(r), c.public(e), es', st) == Some(c.public(i))
      && ReadTime(c, c.public(r), c.public(e), es', ss', st,
                  SealedTime(c, c.public(r), c.public(e), es, ss, st, time)) == Some(time)
  {
    hide Static, Time, Hash1, MixHash, IsZero;
  }

  /** From the same hash and chain key, the initiator accepts the responder's second message. */
  lemma SecondMessageIsRead(c: Crypto, i: Octets, e: Octets, e2: Octets, hash: Octets, chain: Octets, psk: Octets)
    requires Laws(c)
    ensures var eph := c.public(e2);
      var ee, ee' := c.dh(e2, c.public(e)), c.dh(e, eph);
      var se, se' := c.dh(e2, c.public(i)), c.dh(i, eph);
      && ee == ee' && se == se' && !IsZero(ee) && !IsZero(se)
      && ReadEmpty(c, hash, chain, eph, ee', se', psk, SealedEmpty(c, hash, chain, eph, ee, se, psk)) == Some([])
  {
    hide Psk, HashBeforeEmpty, IsZero;
  }
}

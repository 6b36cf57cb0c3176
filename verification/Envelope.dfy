/** The NAS security envelope of srscnw/src/nas_mm.cc: `cipher_encrypt`,
    `integrity_generate`, `integrity_check` and `cipher_decrypt`, over the
    outer header written by lib/src/asn1/nas_5g_msg.cc.  The algorithms are
    parameters: any keystream and any MAC. */
module Envelope {
  import opened Bytes
  import opened Options

  const SEQ_5G_OFFSET: nat := 6
  const MAC_5G_OFFSET: nat := 2
  const NAS_5G_BEARER: nat := 1
  const LONGEST_HEADER: nat := 11

  datatype Direction = Uplink | Downlink
  datatype CipherAlgo = EEA0 | EEA1 | EEA2 | EEA3 | UnknownCipher
  datatype IntegAlgo = EIA0 | EIA1 | EIA2 | EIA3 | UnknownInteg

  /** Keystream byte by position, and a four-byte MAC. */
  datatype Crypto = Crypto(
    keystream: (CipherAlgo, seq<byte>, nat, nat, Direction, nat) -> byte,
    mac: (IntegAlgo, seq<byte>, nat, nat, Direction, seq<byte>) -> (byte, byte, byte, byte))

  /** `wide` is the 1.2 header with eight MAC bytes, of which the first four
      stay zero. */
  datatype SecCtx = SecCtx(wide: bool, cipher: CipherAlgo, integ: IntegAlgo, kEnc: seq<byte>, kInt: seq<byte>) {
    predicate Ciphers() { cipher.EEA1? || cipher.EEA2? || cipher.EEA3? }
    predicate Protects() { integ.EIA1? || integ.EIA2? || integ.EIA3? }
    function SeqAt(): nat { if wide then SEQ_5G_OFFSET + 4 else SEQ_5G_OFFSET }
    function MacAt(): nat { if wide then MAC_5G_OFFSET + 4 else MAC_5G_OFFSET }
  }

  // ------------------------------------------------- on values

  function KeyByte(c: Crypto, x: SecCtx, count: nat, dir: Direction, i: nat): byte {
    c.keystream(x.cipher, x.kEnc, count, NAS_5G_BEARER, dir, i)
  }

  function Ciphered(c: Crypto, x: SecCtx, count: nat, dir: Direction, pdu: seq<byte>): (r: seq<byte>)
    ensures |r| == |pdu|
  {
    var at := x.SeqAt() + 1;
    seq(|pdu|, i requires 0 <= i < |pdu| =>
      if i < at || !x.Ciphers() then pdu[i] else pdu[i] ^ KeyByte(c, x, count, dir, i - at))
  }

  lemma CipheredAt(c: Crypto, x: SecCtx, count: nat, dir: Direction, pdu: seq<byte>, i: nat)
    requires i < |pdu|
    ensures Ciphered(c, x, count, dir, pdu)[i] ==
            if i <= x.SeqAt() || !x.Ciphers() then pdu[i] else pdu[i] ^ KeyByte(c, x, count, dir, i - x.SeqAt() - 1)
  {
  }

  /** Only the bytes after the sequence number are ciphered. */
  lemma CipheredPrefix(c: Crypto, x: SecCtx, count: nat, dir: Direction, pdu: seq<byte>, n: nat)
    requires n <= |pdu| && (n <= x.SeqAt() + 1 || !x.Ciphers())
    ensures Ciphered(c, x, count, dir, pdu)[..n] == pdu[..n]
  {
    forall i | 0 <= i < n ensures Ciphered(c, x, count, dir, pdu)[i] == pdu[i] {
      CipheredAt(c, x, count, dir, pdu, i);
    }
  }

  /** Ciphering a message twice under one count restores it. */
  lemma CipheredTwice(c: Crypto, x: SecCtx, count: nat, dir: Direction, pdu: seq<byte>)
    ensures Ciphered(c, x, count, dir, Ciphered(c, x, count, dir, pdu)) == pdu
  {
    var e := Ciphered(c, x, count, dir, pdu);
    forall i | 0 <= i < |pdu| ensures Ciphered(c, x, count, dir, e)[i] == pdu[i] {
      CipheredAt(c, x, count, dir, pdu, i);
      CipheredAt(c, x, count, dir, e, i);
      if i > x.SeqAt() { XorTwice(pdu[i], KeyByte(c, x, count, dir, i - x.SeqAt() - 1)); }
    }
    assert Ciphered(c, x, count, dir, e) == pdu;
  }

  /** Ciphering depends only on the bytes ciphered. */
  lemma CipheredSuffix(c: Crypto, x: SecCtx, count: nat, dir: Direction, p: seq<byte>, q: seq<byte>, n: nat)
    requires n <= |p| == |q| && p[n..] == q[n..]
    ensures Ciphered(c, x, count, dir, p)[n..] == Ciphered(c, x, count, dir, q)[n..]
  {
    var a, b := Ciphered(c, x, count, dir, p), Ciphered(c, x, count, dir, q);
    forall i | n <= i < |p| ensures a[i] == b[i] {
      assert p[i] == p[n..][i - n] == q[i];
      CipheredAt(c, x, count, dir, p, i);
      CipheredAt(c, x, count, dir, q, i);
    }
    assert a[n..] == b[n..];
  }

  /** The MAC over the sequence number and what follows it. */
  function MacOf(c: Crypto, x: SecCtx, count: nat, dir: Direction, pdu: seq<byte>): (r: seq<byte>)
    ensures |r| == 4
  {
    if !x.Protects() || |pdu| < x.SeqAt() then [0, 0, 0, 0]
    else
      var m := c.mac(x.integ, x.kInt, count, NAS_5G_BEARER, dir, pdu[x.SeqAt()..]);
      [m.0, m.1, m.2, m.3]
  }

  function Maced(c: Crypto, x: SecCtx, count: nat, dir: Direction, pdu: seq<byte>): (r: seq<byte>)
    ensures |r| == |pdu|
  {
    if !x.Protects() || |pdu| < x.SeqAt() then pdu
    else pdu[..x.MacAt()] + MacOf(c, x, count, dir, pdu) + pdu[x.SeqAt()..]
  }

  lemma MacedShape(c: Crypto, x: SecCtx, count: nat, dir: Direction, pdu: seq<byte>)
    requires x.SeqAt() <= |pdu|
    ensures var r := Maced(c, x, count, dir, pdu);
            && r[..x.MacAt()] == pdu[..x.MacAt()]
            && r[x.SeqAt()..] == pdu[x.SeqAt()..]
            && (x.Protects() ==> r[x.MacAt()..x.SeqAt()] == MacOf(c, x, count, dir, pdu))
  {
    var r := Maced(c, x, count, dir, pdu);
    assert r[..x.MacAt()] == pdu[..x.MacAt()];
    assert r[x.SeqAt()..] == pdu[x.SeqAt()..];
  }

  function EstimatedCount(ul: nat, sn: byte): nat { ul / 256 % 0x1_0000 * 256 + sn as nat }

  /** The check on the first `n` bytes of a buffer; what it reads beyond them
      is whatever the buffer holds. */
  predicate AcceptsIn(c: Crypto, x: SecCtx, ul: nat, dir: Direction, msg: seq<byte>, n: nat)
    requires x.SeqAt() < |msg| && n <= |msg|
  {
    msg[MAC_5G_OFFSET..x.SeqAt()] ==
    Zeros(x.MacAt() - MAC_5G_OFFSET) + MacOf(c, x, EstimatedCount(ul, msg[x.SeqAt()]), dir, msg[..n])
  }

  predicate Accepts(c: Crypto, x: SecCtx, ul: nat, dir: Direction, pdu: seq<byte>)
    requires x.SeqAt() < |pdu|
  {
    pdu[MAC_5G_OFFSET..x.SeqAt()] ==
    Zeros(x.MacAt() - MAC_5G_OFFSET) + MacOf(c, x, EstimatedCount(ul, pdu[x.SeqAt()]), dir, pdu)
  }

  function Deciphered(c: Crypto, x: SecCtx, dir: Direction, pdu: seq<byte>): (r: seq<byte>)
    requires x.SeqAt() < |pdu|
    ensures |r| == |pdu|
  { Ciphered(c, x, pdu[x.SeqAt()] as nat, dir, pdu) }

  /** A message as the packer leaves it: MAC field zero, and the low byte of
      the count as sequence number. */
  predicate Packed(x: SecCtx, count: nat, pdu: seq<byte>) {
    && x.SeqAt() < |pdu|
    && pdu[MAC_5G_OFFSET..x.SeqAt()] == Zeros(x.SeqAt() - MAC_5G_OFFSET)
    && pdu[x.SeqAt()] as nat == count % 256
  }

  function Sealed(c: Crypto, x: SecCtx, count: nat, dir: Direction, pdu: seq<byte>): (r: seq<byte>)
    ensures |r| == |pdu|
  { Maced(c, x, count, dir, Ciphered(c, x, count, dir, pdu)) }

  /** The receiver, whose stored count is still 0, accepts the sealed message
      and recovers every byte outside the MAC field. */
  predicate RoundTrips(c: Crypto, x: SecCtx, count: nat, dir: Direction, pdu: seq<byte>)
    requires x.SeqAt() < |pdu|
  {
    var wire := Sealed(c, x, count, dir, pdu);
    && Accepts(c, x, 0, dir, wire)
    && var open := Deciphered(c, x, dir, wire);
       open[..x.MacAt()] == pdu[..x.MacAt()] && open[x.SeqAt()..] == pdu[x.SeqAt()..]
  }

  // ------------------------------------------------- the round trip

  lemma SealedHead(c: Crypto, x: SecCtx, count: nat, dir: Direction, pdu: seq<byte>)
    requires x.SeqAt() < |pdu|
    ensures var wire := Sealed(c, x, count, dir, pdu);
            && wire[..x.MacAt()] == pdu[..x.MacAt()]
            && wire[x.SeqAt()] == pdu[x.SeqAt()]
            && wire[x.SeqAt()..] == Ciphered(c, x, count, dir, pdu)[x.SeqAt()..]
  {
    var e := Ciphered(c, x, count, dir, pdu);
    var wire := Sealed(c, x, count, dir, pdu);
    var m, s := x.MacAt(), x.SeqAt();
    MacedShape(c, x, count, dir, e);
    CipheredPrefix(c, x, count, dir, pdu, m);
    CipheredAt(c, x, count, dir, pdu, s);
    assert wire[s] == wire[s..][0] == e[s..][0];
  }

  lemma SealedMac(c: Crypto, x: SecCtx, count: nat, dir: Direction, pdu: seq<byte>)
    requires Packed(x, count, pdu)
    ensures var wire := Sealed(c, x, count, dir, pdu);
            wire[x.MacAt()..x.SeqAt()] == MacOf(c, x, count, dir, wire)
  {
    var e := Ciphered(c, x, count, dir, pdu);
    var m, s := x.MacAt(), x.SeqAt();
    MacedShape(c, x, count, dir, e);
    if !x.Protects() {
      forall i | m <= i < s ensures e[i] == 0 {
        CipheredAt(c, x, count, dir, pdu, i);
        assert pdu[i] == pdu[2..s][i - 2];
      }
      assert e[m..s] == [0, 0, 0, 0];
    }
  }

  /** Sealing changes the MAC bytes and the bytes after the sequence number
      only, and the MAC covers what is sent. */
  lemma SealedShape(c: Crypto, x: SecCtx, count: nat, dir: Direction, pdu: seq<byte>)
    requires Packed(x, count, pdu)
    ensures var wire := Sealed(c, x, count, dir, pdu);
            && wire[..x.MacAt()] == pdu[..x.MacAt()]
            && wire[x.SeqAt()] == pdu[x.SeqAt()]
            && wire[x.SeqAt()..] == Ciphered(c, x, count, dir, pdu)[x.SeqAt()..]
            && wire[x.MacAt()..x.SeqAt()] == MacOf(c, x, count, dir, wire)
            && wire[MAC_5G_OFFSET..x.SeqAt()] == Zeros(x.MacAt() - MAC_5G_OFFSET) + MacOf(c, x, count, dir, wire)
  {
    var wire := Sealed(c, x, count, dir, pdu);
    var m, s := x.MacAt(), x.SeqAt();
    SealedHead(c, x, count, dir, pdu);
    SealedMac(c, x, count, dir, pdu);
    forall i | 2 <= i < m ensures wire[i] == 0 {
      assert wire[i] == wire[..m][i] == pdu[..m][i] == pdu[2..s][i - 2];
    }
    assert wire[2..m] == Zeros(m - 2);
    assert wire[2..s] == wire[2..m] + wire[m..s];
  }

  lemma DecipheredAt(c: Crypto, x: SecCtx, count: nat, dir: Direction, pdu: seq<byte>, wire: seq<byte>)
    requires x.SeqAt() < |pdu| == |wire| && wire[x.SeqAt()] as nat == count
    requires wire[x.SeqAt()..] == Ciphered(c, x, count, dir, pdu)[x.SeqAt()..]
    ensures Deciphered(c, x, dir, wire)[x.SeqAt()..] == pdu[x.SeqAt()..]
  {
    CipheredSuffix(c, x, count, dir, wire, Ciphered(c, x, count, dir, pdu), x.SeqAt());
    CipheredTwice(c, x, count, dir, pdu);
  }

  /** Encrypt-then-MAC then check-then-decrypt is the identity on the payload
      for both header formats and any algorithms, while the count fits the
      sequence number. */
  lemma EnvelopeRoundTrip(c: Crypto, x: SecCtx, count: nat, dir: Direction, pdu: seq<byte>)
    requires Packed(x, count, pdu) && count < 256
    ensures RoundTrips(c, x, count, dir, pdu)
  {
    var wire := Sealed(c, x, count, dir, pdu);
    SealedShape(c, x, count, dir, pdu);
    assert EstimatedCount(0, wire[x.SeqAt()]) == count;
    DecipheredAt(c, x, count, dir, pdu, wire);
    CipheredPrefix(c, x, count, dir, wire, x.MacAt());
  }

  /** With neither a MAC nor any ciphered byte the count does not matter. */
  lemma BareRoundTrip(c: Crypto, x: SecCtx, count: nat, dir: Direction, pdu: seq<byte>)
    requires Packed(x, count, pdu) && !x.Protects() && (!x.Ciphers() || |pdu| == x.SeqAt() + 1)
    ensures RoundTrips(c, x, count, dir, pdu)
  {
    var wire := Sealed(c, x, count, dir, pdu);
    SealedShape(c, x, count, dir, pdu);
    CipheredPrefix(c, x, count, dir, pdu, |pdu|);
    assert wire == wire[..|pdu|] == pdu[..|pdu|] == pdu;
    CipheredPrefix(c, x, pdu[x.SeqAt()] as nat, dir, wire, |pdu|);
    var open := Deciphered(c, x, dir, wire);
    assert open == open[..|pdu|] == pdu;
  }

  /** Algorithms that tell one count from every other. */
  function Telling(count: nat): Crypto {
    Crypto((a, k, n, b, d, i) => if n == count then 1 else 0,
           (a, k, n, b, d, m) => if n == count then (1, 1, 1, 1) else (0, 0, 0, 0))
  }

  lemma TellingRejects(x: SecCtx, count: nat, dir: Direction, pdu: seq<byte>)
    requires Packed(x, count, pdu) && count >= 256 && x.Protects()
    ensures !RoundTrips(Telling(count), x, count, dir, pdu)
  {
    var c := Telling(count);
    var wire := Sealed(c, x, count, dir, pdu);
    SealedShape(c, x, count, dir, pdu);
    var m, s := x.MacAt(), x.SeqAt();
    assert EstimatedCount(0, wire[s]) != count;
    assert wire[2..s][m - 2] == wire[m] == wire[m..s][0] == 1;
    assert (Zeros(m - 2) + MacOf(c, x, EstimatedCount(0, wire[s]), dir, wire))[m - 2] == 0;
  }

  /** Under another count the telling keystream changes nothing. */
  lemma TellingOtherwise(x: SecCtx, count: nat, other: nat, dir: Direction, pdu: seq<byte>, i: nat)
    requires other != count && i < |pdu|
    ensures Ciphered(Telling(count), x, other, dir, pdu)[i] == pdu[i]
  {
    CipheredAt(Telling(count), x, other, dir, pdu, i);
    XorTwice(pdu[i], 0);
  }

  lemma TellingFlips(x: SecCtx, count: nat, dir: Direction, pdu: seq<byte>, i: nat)
    requires x.Ciphers() && x.SeqAt() < i < |pdu|
    ensures Ciphered(Telling(count), x, count, dir, pdu)[i] != pdu[i]
  {
    CipheredAt(Telling(count), x, count, dir, pdu, i);
    Flips(pdu[i]);
  }

  lemma Flips(a: byte)
    ensures a ^ 1 != a
  {
  }

  lemma TellingGarbles(x: SecCtx, count: nat, dir: Direction, pdu: seq<byte>)
    requires Packed(x, count, pdu) && count >= 256 && !x.Protects() && x.Ciphers() && |pdu| > x.SeqAt() + 1
    ensures !RoundTrips(Telling(count), x, count, dir, pdu)
  {
    var c, s := Telling(count), x.SeqAt();
    var wire := Ciphered(c, x, count, dir, pdu);
    assert wire == Sealed(c, x, count, dir, pdu);
    TellingFlips(x, count, dir, pdu, s + 1);
    TellingOtherwise(x, count, wire[s] as nat, dir, wire, s + 1);
    var open := Deciphered(c, x, dir, wire);
    assert open[s..][1] == open[s + 1] != pdu[s + 1] == pdu[s..][1];
  }

  /** The round trip holds for every choice of algorithms exactly when the
      count fits the sequence number or nothing depends on the count. */
  lemma RoundTripExactly(x: SecCtx, count: nat, dir: Direction, pdu: seq<byte>)
    requires Packed(x, count, pdu)
    ensures (forall c :: RoundTrips(c, x, count, dir, pdu))
            <==> count < 256 || (!x.Protects() && (!x.Ciphers() || |pdu| == x.SeqAt() + 1))
  {
    if count < 256 {
      forall c ensures RoundTrips(c, x, count, dir, pdu) { EnvelopeRoundTrip(c, x, count, dir, pdu); }
    } else if !x.Protects() && (!x.Ciphers() || |pdu| == x.SeqAt() + 1) {
      forall c ensures RoundTrips(c, x, count, dir, pdu) { BareRoundTrip(c, x, count, dir, pdu); }
    } else if x.Protects() {
      TellingRejects(x, count, dir, pdu);
    } else {
      TellingGarbles(x, count, dir, pdu);
    }
  }

  /** The check and the decryption of one uplink message use the same count
      exactly when bits 8 to 23 of the stored count are zero. */
  lemma CountsAgree(ul: nat, sn: byte)
    ensures EstimatedCount(ul, sn) == sn as nat <==> ul / 256 % 0x1_0000 == 0
  {
  }

  // ------------------------------------------------- in terms of the algorithms alone

  /** Byte by byte: everything behind the sequence number is combined with the
      keystream of the ciphering key, bearer 1, from position 0 on. */
  predicate KeystreamApplied(c: Crypto, x: SecCtx, count: nat, dir: Direction, was: seq<byte>, now: seq<byte>) {
    var at := if x.wide then 11 else 7;
    && |now| == |was|
    && (forall i :: 0 <= i < |was| ==>
          now[i] == if i < at || x.cipher.EEA0? || x.cipher.UnknownCipher? then was[i]
                    else was[i] ^ c.keystream(x.cipher, x.kEnc, count, 1, dir, i - at))
  }

  /** Only the four bytes before the sequence number change, to the MAC under
      the integrity key, bearer 1, of the sequence number and what follows it. */
  predicate MacWritten(c: Crypto, x: SecCtx, count: nat, dir: Direction, was: seq<byte>, now: seq<byte>) {
    var at := if x.wide then 10 else 6;
    if x.integ.EIA0? || x.integ.UnknownInteg? then now == was
    else
      && at <= |was|
      && var m := c.mac(x.integ, x.kInt, count, 1, dir, was[at..]);
         now == was[..at - 4] + [m.0, m.1, m.2, m.3] + was[at..]
  }

  /** The field before the sequence number holds, after four zeros in the long
      header, the MAC a receiver expects: under the count it puts together of bits
      8 to 23 of the stored one and the sequence number. */
  predicate MacExpected(c: Crypto, x: SecCtx, ul: nat, dir: Direction, msg: seq<byte>, n: nat)
    requires n <= |msg| && LONGEST_HEADER < |msg|
    requires !x.integ.EIA0? && !x.integ.UnknownInteg? ==> n >= if x.wide then 10 else 6
  {
    var at := if x.wide then 10 else 6;
    && (x.wide ==> msg[2..6] == [0, 0, 0, 0])
    && msg[at - 4..at] ==
         if x.integ.EIA0? || x.integ.UnknownInteg? then [0, 0, 0, 0]
         else
           var m := c.mac(x.integ, x.kInt, ul / 256 % 0x1_0000 * 256 + msg[at] as nat, 1, dir, msg[at..n]);
           [m.0, m.1, m.2, m.3]
  }

  lemma CipheredBytes(c: Crypto, x: SecCtx, count: nat, dir: Direction, pdu: seq<byte>)
    ensures KeystreamApplied(c, x, count, dir, pdu, Ciphered(c, x, count, dir, pdu))
  {
    forall i | 0 <= i < |pdu|
      ensures Ciphered(c, x, count, dir, pdu)[i] ==
              if i < (if x.wide then 11 else 7) || x.cipher.EEA0? || x.cipher.UnknownCipher? then pdu[i]
              else pdu[i] ^ c.keystream(x.cipher, x.kEnc, count, 1, dir, i - if x.wide then 11 else 7)
    {
      CipheredAt(c, x, count, dir, pdu, i);
    }
  }

  /** The bytes decide what was ciphered. */
  lemma KeystreamDecides(c: Crypto, x: SecCtx, count: nat, dir: Direction, was: seq<byte>, now: seq<byte>)
    ensures KeystreamApplied(c, x, count, dir, was, now) <==> now == Ciphered(c, x, count, dir, was)
  {
    CipheredBytes(c, x, count, dir, was);
    if KeystreamApplied(c, x, count, dir, was, now) {
      assert forall i :: 0 <= i < |was| ==> now[i] == Ciphered(c, x, count, dir, was)[i];
    }
  }

  lemma MacedBytes(c: Crypto, x: SecCtx, count: nat, dir: Direction, pdu: seq<byte>)
    requires x.Protects() ==> x.SeqAt() <= |pdu|
    ensures MacWritten(c, x, count, dir, pdu, Maced(c, x, count, dir, pdu))
  {
  }

  /** The check on a received buffer, by its bytes: it runs over the end exactly
      when there is a MAC to compute and no sequence number, and accepts exactly
      the MAC expected. */
  lemma CheckedBytes(c: Crypto, x: SecCtx, ul: nat, dir: Direction, msg: seq<byte>, n: nat)
    requires LONGEST_HEADER < |msg| && n <= |msg| && n < 0x1_0000_0000
    ensures VerdictOn(c, x, ul, dir, msg, n) ==
            if !x.integ.EIA0? && !x.integ.UnknownInteg? && n < (if x.wide then 10 else 6) then OutOfBounds
            else if MacExpected(c, x, ul, dir, msg, n) then Accepted else Refused
  {
    LengthWraps(n, x.SeqAt());
    if !(x.Protects() && n < x.SeqAt()) {
      var at := x.SeqAt();
      var m := MacOf(c, x, EstimatedCount(ul, msg[at]), dir, msg[..n]);
      if x.Protects() { assert msg[..n][at..] == msg[at..n]; }
      assert Zeros(4) == [0, 0, 0, 0];
      if x.wide {
        assert msg[2..at] == msg[2..6] + msg[6..10];
        SplitField(msg[2..6], msg[6..10], Zeros(4), m);
      } else {
        assert Zeros(0) + m == m;
      }
    }
  }

  lemma SplitField(a: seq<byte>, b: seq<byte>, u: seq<byte>, v: seq<byte>)
    requires |a| == |u|
    ensures a + b == u + v <==> a == u && b == v
  {
    assert (a + b)[..|a|] == a && (a + b)[|a|..] == b;
    assert (u + v)[..|u|] == u && (u + v)[|u|..] == v;
  }

  /** Ciphering does not depend on the integrity key or algorithm, nor the MAC
      on the ciphering key or algorithm. */
  lemma KeysApart(c: Crypto, x: SecCtx, y: SecCtx, count: nat, dir: Direction, pdu: seq<byte>)
    requires x.wide == y.wide
    ensures x.cipher == y.cipher && x.kEnc == y.kEnc ==>
              Ciphered(c, x, count, dir, pdu) == Ciphered(c, y, count, dir, pdu)
    ensures x.integ == y.integ && x.kInt == y.kInt ==>
              Maced(c, x, count, dir, pdu) == Maced(c, y, count, dir, pdu)
  {
    if x.cipher == y.cipher && x.kEnc == y.kEnc {
      forall i | 0 <= i < |pdu| ensures Ciphered(c, x, count, dir, pdu)[i] == Ciphered(c, y, count, dir, pdu)[i] {
        CipheredAt(c, x, count, dir, pdu, i);
        CipheredAt(c, y, count, dir, pdu, i);
      }
    }
  }

  // ------------------------------------------------- in place

  /** What a routine leaves: the bytes, or a copy whose unsigned length wrapped
      and so runs over the end of the buffer. */
  datatype Outcome = Done(pdu: seq<byte>) | Wrapped

  function Encrypted(c: Crypto, x: SecCtx, count: nat, dir: Direction, pdu: seq<byte>): Outcome {
    if x.Ciphers() && !InBounds(|pdu|, x.SeqAt() + 1) then Wrapped else Done(Ciphered(c, x, count, dir, pdu))
  }

  function MacAdded(c: Crypto, x: SecCtx, count: nat, dir: Direction, pdu: seq<byte>): Outcome {
    if x.Protects() && !InBounds(|pdu|, x.SeqAt()) then Wrapped else Done(Maced(c, x, count, dir, pdu))
  }

  /** A byte buffer whose first `n` bytes are the message; `uint32_t N_bytes`
      counts them, and any header fits the buffer. */
  predicate Holds(msg: array<byte>, n: nat) {
    n <= msg.Length < 0x1_0000_0000 && LONGEST_HEADER < msg.Length
  }

  /** `cipher_encrypt` and `cipher_decrypt` past the choice of the count; when
      the length wraps nothing can be said of the memory. */
  method CipherInPlace(msg: array<byte>, n: nat, c: Crypto, x: SecCtx, count: nat, dir: Direction) returns (ok: bool)
    requires Holds(msg, n)
    modifies msg
    ensures ok <==> Encrypted(c, x, count, dir, old(msg[..n])).Done?
    ensures ok ==> msg[..n] == Encrypted(c, x, count, dir, old(msg[..n])).pdu
    ensures ok ==> KeystreamApplied(c, x, count, dir, old(msg[..n]), msg[..n])
    ensures msg[n..] == old(msg[n..])
  {
    CipheredBytes(c, x, count, dir, msg[..n]);
    var at := x.SeqAt() + 1;
    ghost var was := msg[..n];
    LengthWraps(n, at);
    if !x.Ciphers() {
      CipheredPrefix(c, x, count, dir, was, n);
      assert Ciphered(c, x, count, dir, was) == was;
      return true;
    }
    if n < at { return false; }
    XorRange(msg, at, n, c, x, count, dir);
    assert msg[..n] == Ciphered(c, x, count, dir, was);
    return true;
  }

  method XorRange(msg: array<byte>, at: nat, n: nat, c: Crypto, x: SecCtx, count: nat, dir: Direction)
    requires at == x.SeqAt() + 1 <= n <= msg.Length && x.Ciphers()
    modifies msg
    ensures forall i :: 0 <= i < n ==> msg[i] == Ciphered(c, x, count, dir, old(msg[..n]))[i]
    ensures msg[n..] == old(msg[n..])
  {
    ghost var was := msg[..n];
    ghost var want := Ciphered(c, x, count, dir, was);
    forall i | 0 <= i < n ensures want[i] == if i < at then was[i]
                                               else was[i] ^ KeyByte(c, x, count, dir, i - at)
    {
      CipheredAt(c, x, count, dir, was, i);
    }
    for i := at to n
      invariant forall j :: 0 <= j < i ==> msg[j] == want[j]
      invariant forall j :: i <= j < n ==> msg[j] == was[j]
      invariant msg[n..] == old(msg[n..])
    {
      msg[i] := msg[i] ^ KeyByte(c, x, count, dir, i - at);
    }
  }

  method IntegrityGenerate(msg: array<byte>, n: nat, c: Crypto, x: SecCtx, count: nat, dir: Direction) returns (ok: bool)
    requires Holds(msg, n)
    modifies msg
    ensures ok <==> MacAdded(c, x, count, dir, old(msg[..n])).Done?
    ensures ok ==> msg[..n] == MacAdded(c, x, count, dir, old(msg[..n])).pdu
    ensures ok ==> MacWritten(c, x, count, dir, old(msg[..n]), msg[..n])
    ensures msg[n..] == old(msg[n..])
  {
    LengthWraps(n, x.SeqAt());
    if !x.Protects() { return true; }
    if n < x.SeqAt() { return false; }
    var m := c.mac(x.integ, x.kInt, count, NAS_5G_BEARER, dir, msg[x.SeqAt()..n]);
    assert msg[x.SeqAt()..n] == msg[..n][x.SeqAt()..];
    WriteMac(msg, n, x.MacAt(), m);
    return true;
  }

  method WriteMac(msg: array<byte>, n: nat, at: nat, m: (byte, byte, byte, byte))
    requires at + 4 <= n <= msg.Length
    modifies msg
    ensures msg[..n] == old(msg[..n])[..at] + [m.0, m.1, m.2, m.3] + old(msg[..n])[at + 4..]
    ensures msg[n..] == old(msg[n..])
  {
    msg[at], msg[at + 1], msg[at + 2], msg[at + 3] := m.0, m.1, m.2, m.3;
  }

  datatype Verdict = Accepted | Refused | OutOfBounds

  function VerdictOn(c: Crypto, x: SecCtx, ul: nat, dir: Direction, msg: seq<byte>, n: nat): Verdict
    requires x.SeqAt() < |msg| && n <= |msg|
  {
    if x.Protects() && !InBounds(n, x.SeqAt()) then OutOfBounds
    else if AcceptsIn(c, x, ul, dir, msg, n) then Accepted else Refused
  }

  /** `integrity_check`, which works on its own copy of the stored count: the
      copy takes the estimated count over and is dropped. */
  method IntegrityCheck(msg: array<byte>, n: nat, c: Crypto, x: SecCtx, ul: nat, dir: Direction)
    returns (v: Verdict, copy: nat)
    requires Holds(msg, n)
    ensures v == VerdictOn(c, x, ul, dir, msg[..], n)
    ensures !v.OutOfBounds? <==> x.integ.EIA0? || x.integ.UnknownInteg? || n >= if x.wide then 10 else 6
    ensures !v.OutOfBounds? ==> (v.Accepted? <==> MacExpected(c, x, ul, dir, msg[..], n))
    ensures copy == if v.Accepted? then EstimatedCount(ul, msg[x.SeqAt()]) else ul
  {
    copy := ul;
    CheckedBytes(c, x, ul, dir, msg[..], n);
    LengthWraps(n, x.SeqAt());
    if x.Protects() && n < x.SeqAt() { return OutOfBounds, copy; }
    var estimated := EstimatedCount(ul, msg[x.SeqAt()]);
    var expected := Zeros(x.MacAt() - MAC_5G_OFFSET) + MacOf(c, x, estimated, dir, msg[..n]);
    assert msg[..][..n] == msg[..n];
    assert msg[MAC_5G_OFFSET..x.SeqAt()] == msg[..][MAC_5G_OFFSET..x.SeqAt()];
    var same := FieldIs(msg, MAC_5G_OFFSET, expected);
    if !same { return Refused, copy; }
    copy := estimated;
    return Accepted, copy;
  }

  /** The byte-by-byte comparison of the MAC field. */
  method FieldIs(msg: array<byte>, at: nat, expected: seq<byte>) returns (same: bool)
    requires at + |expected| <= msg.Length
    ensures same <==> msg[at..at + |expected|] == expected
  {
    ghost var field := msg[at..at + |expected|];
    for i := 0 to |expected|
      invariant forall j :: 0 <= j < i ==> field[j] == expected[j]
    {
      if expected[i] != msg[at + i] {
        assert field[i] != expected[i];
        return false;
      }
    }
    assert field == expected;
    return true;
  }

  /** On a whole message the check is the one of the round trip. */
  lemma CheckedWhole(c: Crypto, x: SecCtx, ul: nat, dir: Direction, pdu: seq<byte>)
    requires x.SeqAt() < |pdu| < 0x1_0000_0000
    ensures VerdictOn(c, x, ul, dir, pdu, |pdu|) == if Accepts(c, x, ul, dir, pdu) then Accepted else Refused
  {
    LengthWraps(|pdu|, x.SeqAt());
    assert pdu[..|pdu|] == pdu;
  }

  /** `cipher_decrypt` takes the count from the sequence number alone. */
  method CipherDecrypt(msg: array<byte>, n: nat, c: Crypto, x: SecCtx, dir: Direction) returns (ok: bool)
    requires Holds(msg, n)
    modifies msg
    ensures ok <==> Encrypted(c, x, old(msg[x.SeqAt()]) as nat, dir, old(msg[..n])).Done?
    ensures ok ==> msg[..n] == Encrypted(c, x, old(msg[x.SeqAt()]) as nat, dir, old(msg[..n])).pdu
    ensures ok ==> KeystreamApplied(c, x, old(msg[x.SeqAt()]) as nat, dir, old(msg[..n]), msg[..n])
    ensures msg[n..] == old(msg[n..])
  {
    ok := CipherInPlace(msg, n, c, x, msg[x.SeqAt()] as nat, dir);
  }

  // ------------------------------------------------- a message from its parts

  const CIPHERED_HEADER: byte := 2       // integrity protected and ciphered
  const NEW_CONTEXT_HEADER: byte := 3    // integrity protected with new 5G NAS context

  /** `pack_outer` for a protected mobility-management message. */
  function PackOuter(wide: bool, headerType: byte, sn: byte, body: seq<byte>): seq<byte> {
    [0x7e, (if wide then 0x80 else 0) | headerType] + Zeros(if wide then 8 else 4) + [sn] + body
  }

  lemma PackOuterIsPacked(x: SecCtx, headerType: byte, count: nat, sn: byte, body: seq<byte>)
    requires sn as nat == count % 256
    ensures Packed(x, count, PackOuter(x.wide, headerType, sn, body))
    ensures PackOuter(x.wide, headerType, sn, body)[x.SeqAt() + 1..] == body
  {
    var pdu := PackOuter(x.wide, headerType, sn, body);
    assert pdu[MAC_5G_OFFSET..x.SeqAt()] == Zeros(if x.wide then 8 else 4);
  }

  /** A downlink message put together: packed with one sequence number, ciphered
      under one count if at all, given a MAC under another. */
  datatype Parts = Parts(
    wideHeader: bool, headerType: byte, sn: byte, cipherCount: Option<nat>, macCount: nat, body: seq<byte>)

  function Assembled(c: Crypto, x: SecCtx, p: Parts): Outcome {
    var pdu := PackOuter(p.wideHeader, p.headerType, p.sn, p.body);
    var e := if p.cipherCount.Some? then Encrypted(c, x, p.cipherCount.value, Downlink, pdu) else Done(pdu);
    if e.Wrapped? then Wrapped else MacAdded(c, x, p.macCount, Downlink, e.pdu)
  }

  lemma AssembledSteps(c: Crypto, x: SecCtx, p: Parts, packed: seq<byte>, enc: seq<byte>)
    requires packed == PackOuter(p.wideHeader, p.headerType, p.sn, p.body)
    requires if p.cipherCount.Some? then Encrypted(c, x, p.cipherCount.value, Downlink, packed) == Done(enc)
             else packed == enc
    ensures Assembled(c, x, p) == MacAdded(c, x, p.macCount, Downlink, enc)
  {
  }

  /** The same on a buffer, by the routines above. */
  method Assemble(msg: array<byte>, c: Crypto, x: SecCtx, p: Parts) returns (n: nat, ok: bool)
    requires |p.body| + LONGEST_HEADER < msg.Length < 0x1_0000_0000
    modifies msg
    ensures n == |PackOuter(p.wideHeader, p.headerType, p.sn, p.body)| <= msg.Length
    ensures ok <==> Assembled(c, x, p).Done?
    ensures ok ==> msg[..n] == Assembled(c, x, p).pdu
  {
    var pdu := PackOuter(p.wideHeader, p.headerType, p.sn, p.body);
    n := |pdu|;
    forall i | 0 <= i < n { msg[i] := pdu[i]; }
    assert msg[..n] == pdu;
    ok := true;
    if p.cipherCount.Some? { ok := CipherInPlace(msg, n, c, x, p.cipherCount.value, Downlink); }
    if ok { ok := IntegrityGenerate(msg, n, c, x, p.macCount, Downlink); }
  }

  /** Where a receiver finds the sequence number: the version bit of the header
      says which format it is. */
  function HeaderSn(wire: seq<byte>): Option<byte> {
    var at := if |wire| > 1 && wire[1] & 0x80 != 0 then SEQ_5G_OFFSET + 4 else SEQ_5G_OFFSET;
    if at < |wire| then Some(wire[at]) else None
  }

  /** What is sent still says its sequence number, and whoever knows the key and
      the cipher's count gets the body back. */
  predicate Readable(c: Crypto, x: SecCtx, p: Parts) {
    var o := Assembled(c, x, p);
    var y := x.(wide := p.wideHeader);
    && o.Done? && HeaderSn(o.pdu) == Some(p.sn)
    && y.SeqAt() < |o.pdu|
    && p.body == if p.cipherCount.Some? then Ciphered(c, y, p.cipherCount.value, Downlink, o.pdu)[y.SeqAt() + 1..]
                 else o.pdu[y.SeqAt() + 1..]
  }

  lemma VersionBit(h: byte)
    requires h == CIPHERED_HEADER || h == NEW_CONTEXT_HEADER
    ensures (0x80 | h) & 0x80 != 0 && (0 | h) & 0x80 == 0
  {
  }

  function BeforeMac(c: Crypto, x: SecCtx, p: Parts): seq<byte> {
    var pdu := PackOuter(p.wideHeader, p.headerType, p.sn, p.body);
    if p.cipherCount.Some? then Ciphered(c, x, p.cipherCount.value, Downlink, pdu) else pdu
  }

  lemma MatchingHeaderAssembles(c: Crypto, x: SecCtx, p: Parts)
    requires p.wideHeader == x.wide && |p.body| < 0x8000_0000
    ensures Assembled(c, x, p) == Done(Maced(c, x, p.macCount, Downlink, BeforeMac(c, x, p)))
  {
    var n := |PackOuter(p.wideHeader, p.headerType, p.sn, p.body)|;
    LengthWraps(n, x.SeqAt() + 1);
    LengthWraps(n, x.SeqAt());
  }

  /** With the header of the context, any algorithms will do. */
  lemma MatchingHeaderReadable(c: Crypto, x: SecCtx, p: Parts)
    requires p.wideHeader == x.wide && (p.headerType == CIPHERED_HEADER || p.headerType == NEW_CONTEXT_HEADER)
    requires |p.body| < 0x8000_0000
    ensures Readable(c, x, p)
  {
    var pdu := PackOuter(p.wideHeader, p.headerType, p.sn, p.body);
    var wire := Maced(c, x, p.macCount, Downlink, BeforeMac(c, x, p));
    assert pdu[x.SeqAt()] == p.sn;
    MatchingHeaderAssembles(c, x, p);
    MatchingHeaderShape(c, x, p.macCount, BeforeMac(c, x, p), pdu, p);
    HeaderSnOf(p, pdu, wire);
    MatchingHeaderBody(c, x, p, pdu, wire);
    assert x.(wide := p.wideHeader) == x;
  }

  /** The bytes of a message whose header has the format of its context. */
  predicate WireBytes(c: Crypto, x: SecCtx, p: Parts, wire: seq<byte>) {
    var at := if x.wide then 10 else 6;
    && |wire| == at + 1 + |p.body|
    && wire[0] == 0x7e && wire[1] == (if x.wide then 0x80 else 0) | p.headerType
    && (x.wide ==> wire[2..6] == [0, 0, 0, 0])
    && wire[at - 4..at] == (if x.integ.EIA0? || x.integ.UnknownInteg? then [0, 0, 0, 0]
                            else
                              var m := c.mac(x.integ, x.kInt, p.macCount, 1, Downlink, wire[at..]);
                              [m.0, m.1, m.2, m.3])
    && wire[at] == p.sn
    && BodyBytes(c, x, p.cipherCount, p.body, wire[at + 1..])
  }

  predicate BodyBytes(c: Crypto, x: SecCtx, cipherCount: Option<nat>, body: seq<byte>, sent: seq<byte>) {
    && |sent| == |body|
    && (forall i :: 0 <= i < |body| ==>
          sent[i] == if cipherCount.None? || x.cipher.EEA0? || x.cipher.UnknownCipher? then body[i]
                     else body[i] ^ c.keystream(x.cipher, x.kEnc, cipherCount.value, 1, Downlink, i))
  }

  predicate Headed(wide: bool, headerType: byte, sn: byte, body: seq<byte>, pdu: seq<byte>) {
    var at := if wide then 10 else 6;
    && |pdu| == at + 1 + |body| && pdu[0] == 0x7e && pdu[1] == (if wide then 0x80 else 0) | headerType
    && (forall i :: 2 <= i < at ==> pdu[i] == 0) && pdu[at] == sn && pdu[at + 1..] == body
  }

  lemma PackedBytes(wide: bool, headerType: byte, sn: byte, body: seq<byte>)
    ensures Headed(wide, headerType, sn, body, PackOuter(wide, headerType, sn, body))
  {
    var pdu, at := PackOuter(wide, headerType, sn, body), if wide then 10 else 6;
    assert pdu == ([0x7e, (if wide then 0x80 else 0) | headerType] + Zeros(if wide then 8 else 4) + [sn]) + body;
  }

  /** Up to the sequence number nothing changes; behind it, the body does. */
  lemma CipheredBody(c: Crypto, x: SecCtx, count: nat, pdu: seq<byte>, body: seq<byte>)
    requires x.SeqAt() < |pdu| && pdu[x.SeqAt() + 1..] == body
    ensures var e, at := Ciphered(c, x, count, Downlink, pdu), x.SeqAt();
            e[..at + 1] == pdu[..at + 1] && BodyBytes(c, x, Some(count), body, e[at + 1..])
  {
    var e, at := Ciphered(c, x, count, Downlink, pdu), x.SeqAt();
    CipheredPrefix(c, x, count, Downlink, pdu, at + 1);
    forall i | 0 <= i < |body|
      ensures e[at + 1..][i] == if !x.Ciphers() then body[i]
                                else body[i] ^ c.keystream(x.cipher, x.kEnc, count, 1, Downlink, i)
    {
      assert pdu[at + 1 + i] == body[i];
      CipheredAt(c, x, count, Downlink, pdu, at + 1 + i);
    }
  }

  lemma MacedWire(c: Crypto, x: SecCtx, count: nat, pdu: seq<byte>, e: seq<byte>)
    requires x.SeqAt() < |pdu| == |e| && forall i :: 2 <= i < x.SeqAt() ==> pdu[i] == 0
    requires e[..x.SeqAt() + 1] == pdu[..x.SeqAt() + 1]
    ensures var wire, at := Maced(c, x, count, Downlink, e), x.SeqAt();
            && wire[..2] == pdu[..2] && wire[at] == pdu[at] && wire[at..] == e[at..]
            && (x.wide ==> wire[2..6] == Zeros(4))
            && wire[at - 4..at] == MacOf(c, x, count, Downlink, e)
  {
    var wire, at := Maced(c, x, count, Downlink, e), x.SeqAt();
    MacedShape(c, x, count, Downlink, e);
    forall i | 0 <= i < at - 4 ensures wire[i] == pdu[i] {
      assert wire[i] == wire[..at - 4][i] == e[..at - 4][i];
      assert e[i] == e[..at + 1][i] == pdu[..at + 1][i];
    }
    assert wire[at] == wire[at..][0] == e[at] == e[..at + 1][at] == pdu[..at + 1][at];
    if !x.Protects() {
      forall i | at - 4 <= i < at ensures wire[i] == 0 { assert e[i] == e[..at + 1][i] == pdu[..at + 1][i]; }
    }
  }

  lemma BeforeMacBody(c: Crypto, x: SecCtx, p: Parts, pdu: seq<byte>, e: seq<byte>)
    requires x.SeqAt() < |pdu| && pdu[x.SeqAt() + 1..] == p.body
    requires e == if p.cipherCount.Some? then Ciphered(c, x, p.cipherCount.value, Downlink, pdu) else pdu
    ensures |e| == |pdu| && e[..x.SeqAt() + 1] == pdu[..x.SeqAt() + 1]
    ensures BodyBytes(c, x, p.cipherCount, p.body, e[x.SeqAt() + 1..])
  {
    if p.cipherCount.Some? { CipheredBody(c, x, p.cipherCount.value, pdu, p.body); }
  }

  /** Every byte of what is sent, from the parts and the algorithms. */
  lemma AssembledBytes(c: Crypto, x: SecCtx, p: Parts)
    requires p.wideHeader == x.wide && |p.body| < 0x8000_0000
    ensures Assembled(c, x, p).Done? && WireBytes(c, x, p, Assembled(c, x, p).pdu)
  {
    MatchingHeaderAssembles(c, x, p);
    MacedBytesSent(c, x, p, BeforeMac(c, x, p));
  }

  lemma MacedBytesSent(c: Crypto, x: SecCtx, p: Parts, e: seq<byte>)
    requires p.wideHeader == x.wide && e == BeforeMac(c, x, p)
    ensures WireBytes(c, x, p, Maced(c, x, p.macCount, Downlink, e))
  {
    var pdu := PackOuter(x.wide, p.headerType, p.sn, p.body);
    PackedBytes(x.wide, p.headerType, p.sn, p.body);
    BeforeMacBody(c, x, p, pdu, e);
    MacedHeaded(c, x, p, pdu, e);
  }

  lemma MacedHeaded(c: Crypto, x: SecCtx, p: Parts, pdu: seq<byte>, e: seq<byte>)
    requires Headed(x.wide, p.headerType, p.sn, p.body, pdu)
    requires |e| == |pdu| && e[..x.SeqAt() + 1] == pdu[..x.SeqAt() + 1]
    requires BodyBytes(c, x, p.cipherCount, p.body, e[x.SeqAt() + 1..])
    ensures WireBytes(c, x, p, Maced(c, x, p.macCount, Downlink, e))
  {
    MacedWire(c, x, p.macCount, pdu, e);
    WireFromParts(c, x, p, pdu, e, Maced(c, x, p.macCount, Downlink, e));
  }

  lemma WireFromParts(c: Crypto, x: SecCtx, p: Parts, pdu: seq<byte>, e: seq<byte>, wire: seq<byte>)
    requires |wire| == |e| == |pdu| == x.SeqAt() + 1 + |p.body|
    requires pdu[0] == 0x7e && pdu[1] == (if x.wide then 0x80 else 0) | p.headerType && pdu[x.SeqAt()] == p.sn
    requires wire[..2] == pdu[..2] && wire[x.SeqAt()] == pdu[x.SeqAt()]
    requires wire[x.SeqAt()..] == e[x.SeqAt()..] && (x.wide ==> wire[2..6] == Zeros(4))
    requires wire[x.SeqAt() - 4..x.SeqAt()] == MacOf(c, x, p.macCount, Downlink, e)
    requires BodyBytes(c, x, p.cipherCount, p.body, e[x.SeqAt() + 1..])
    ensures WireBytes(c, x, p, wire)
  {
    var at := x.SeqAt();
    assert Zeros(4) == [0, 0, 0, 0];
    assert wire[0] == wire[..2][0] == pdu[..2][0] && wire[1] == wire[..2][1] == pdu[..2][1];
    assert wire[at + 1..] == wire[at..][1..] == e[at..][1..] == e[at + 1..];
  }

  lemma HeaderSnOf(p: Parts, pdu: seq<byte>, wire: seq<byte>)
    requires p.headerType == CIPHERED_HEADER || p.headerType == NEW_CONTEXT_HEADER
    requires pdu == PackOuter(p.wideHeader, p.headerType, p.sn, p.body) && |wire| == |pdu|
    requires wire[1] == pdu[1] && wire[if p.wideHeader then 10 else 6] == p.sn
    ensures HeaderSn(wire) == Some(p.sn)
  {
    VersionBit(p.headerType);
  }

  lemma MatchingHeaderBody(c: Crypto, x: SecCtx, p: Parts, pdu: seq<byte>, wire: seq<byte>)
    requires p.wideHeader == x.wide && pdu == PackOuter(p.wideHeader, p.headerType, p.sn, p.body)
    requires |wire| == |pdu| && wire[x.SeqAt() + 1..] == BeforeMac(c, x, p)[x.SeqAt() + 1..]
    ensures p.body == if p.cipherCount.Some? then Ciphered(c, x, p.cipherCount.value, Downlink, wire)[x.SeqAt() + 1..]
                      else wire[x.SeqAt() + 1..]
  {
    assert pdu[x.SeqAt() + 1..] == p.body;
    if p.cipherCount.Some? {
      CipheredSuffix(c, x, p.cipherCount.value, Downlink, wire, BeforeMac(c, x, p), x.SeqAt() + 1);
      CipheredTwice(c, x, p.cipherCount.value, Downlink, pdu);
    }
  }

  lemma MatchingHeaderShape(c: Crypto, x: SecCtx, count: nat, e: seq<byte>, pdu: seq<byte>, p: Parts)
    requires x.SeqAt() < |pdu| == |e|
    requires e == if p.cipherCount.Some? then Ciphered(c, x, p.cipherCount.value, Downlink, pdu) else pdu
    ensures var wire := Maced(c, x, count, Downlink, e);
            && wire[1] == pdu[1] && wire[x.SeqAt()] == pdu[x.SeqAt()]
            && wire[x.SeqAt() + 1..] == e[x.SeqAt() + 1..]
  {
    var s := x.SeqAt();
    var wire := Maced(c, x, count, Downlink, e);
    MacedShape(c, x, count, Downlink, e);
    if p.cipherCount.Some? {
      CipheredAt(c, x, p.cipherCount.value, Downlink, pdu, 1);
      CipheredAt(c, x, p.cipherCount.value, Downlink, pdu, s);
    }
    assert wire[1] == wire[..x.MacAt()][1] == e[..x.MacAt()][1];
    assert wire[s] == wire[s..][0] == e[s..][0];
    assert wire[s + 1..] == wire[s..][1..] == e[s..][1..] == e[s + 1..];
  }

  // ------------------------------------------------- the Deregistration Accept

  /** It is packed with the short header whatever the context uses, and its body
      is the three bytes of the inner header. */
  function DeregistrationAccept(sn: byte, count: nat, body: seq<byte>): Parts {
    Parts(false, CIPHERED_HEADER, sn, Some(count), count, body)
  }

  /** In a long-header context that only protects, the MAC is taken over nothing
      and replaces the sequence number and the whole body. */
  lemma NarrowHeaderOverwritten(c: Crypto, x: SecCtx, sn: byte, count: nat, body: seq<byte>)
    requires x.wide && x.Protects() && !x.Ciphers() && |body| == 3
    ensures var pdu := PackOuter(false, CIPHERED_HEADER, sn, body);
            var m := c.mac(x.integ, x.kInt, count, NAS_5G_BEARER, Downlink, []);
            && |pdu| == x.SeqAt()
            && Assembled(c, x, DeregistrationAccept(sn, count, body)) == Done(pdu[..6] + [m.0, m.1, m.2, m.3])
  {
    var pdu := PackOuter(false, CIPHERED_HEADER, sn, body);
    LengthWraps(|pdu|, x.SeqAt());
    CipheredPrefix(c, x, count, Downlink, pdu, |pdu|);
    assert Ciphered(c, x, count, Downlink, pdu) == pdu;
    assert pdu[x.SeqAt()..] == [];
  }

  /** In one that ciphers, the length wraps to 2^32 - 1. */
  lemma NarrowHeaderOverruns(c: Crypto, x: SecCtx, sn: byte, count: nat, body: seq<byte>)
    requires x.wide && x.Ciphers() && |body| == 3
    ensures var pdu := PackOuter(false, CIPHERED_HEADER, sn, body);
            && UnsignedLength(|pdu|, x.SeqAt() + 1) == 0xffff_ffff
            && Assembled(c, x, DeregistrationAccept(sn, count, body)) == Wrapped
  {
    LengthWraps(10, 11);
  }

  function Marking(b: byte): Crypto {
    Crypto((a, k, n, r, d, i) => 0, (a, k, n, r, d, m) => (b, b, b, b))
  }

  /** The Deregistration Accept stays readable, whatever the algorithms do,
      exactly in a short-header context or one without any algorithm. */
  lemma DeregistrationAcceptExactly(x: SecCtx, sn: byte, count: nat, body: seq<byte>)
    requires |body| == 3
    ensures (forall c :: Readable(c, x, DeregistrationAccept(sn, count, body)))
            <==> !x.wide || (!x.Protects() && !x.Ciphers())
  {
    var p := DeregistrationAccept(sn, count, body);
    if !x.wide {
      forall c ensures Readable(c, x, p) { MatchingHeaderReadable(c, x, p); }
    } else if x.Ciphers() {
      NarrowHeaderOverruns(Marking(0), x, sn, count, body);
      assert !Readable(Marking(0), x, p);
    } else if x.Protects() {
      var c := Marking(sn ^ 1);
      Flips(sn);
      NarrowHeaderOverwritten(c, x, sn, count, body);
      VersionBit(CIPHERED_HEADER);
      assert !Readable(c, x, p);
    } else {
      forall c ensures Readable(c, x, p) { BareNarrowReadable(c, x, sn, count, body); }
    }
  }

  lemma BareNarrowReadable(c: Crypto, x: SecCtx, sn: byte, count: nat, body: seq<byte>)
    requires !x.Protects() && !x.Ciphers() && |body| == 3
    ensures Readable(c, x, DeregistrationAccept(sn, count, body))
  {
    var pdu := PackOuter(false, CIPHERED_HEADER, sn, body);
    var y := x.(wide := false);
    CipheredPrefix(c, x, count, Downlink, pdu, |pdu|);
    assert Ciphered(c, x, count, Downlink, pdu) == pdu;
    CipheredPrefix(c, y, count, Downlink, pdu, |pdu|);
    assert Ciphered(c, y, count, Downlink, pdu) == pdu;
    VersionBit(CIPHERED_HEADER);
    assert pdu[7..] == body;
  }

  // ------------------------------------------------- what the receiver makes of it

  /** A receiver that holds the keys, goes by the format the header shows and has
      a stored count of 0 finds the sequence number, accepts the message and
      opens it to its body. */
  predicate Delivered(c: Crypto, x: SecCtx, p: Parts) {
    var o := Assembled(c, x, p);
    var y := x.(wide := p.wideHeader);
    && o.Done? && HeaderSn(o.pdu) == Some(p.sn)
    && y.SeqAt() < |o.pdu| && Accepts(c, y, 0, Downlink, o.pdu)
    && p.body == if p.cipherCount.Some? then Deciphered(c, y, Downlink, o.pdu)[y.SeqAt() + 1..]
                 else o.pdu[y.SeqAt() + 1..]
  }

  predicate KnownHeader(p: Parts) {
    (p.headerType == CIPHERED_HEADER || p.headerType == NEW_CONTEXT_HEADER) && |p.body| < 0x8000_0000
  }

  /** A message ciphered and protected under one count, with its low byte as
      sequence number and the header of its context, is delivered exactly when
      it makes the round trip. */
  lemma OneCountDelivered(c: Crypto, x: SecCtx, p: Parts, count: nat)
    requires KnownHeader(p) && p.wideHeader == x.wide
    requires p.cipherCount == Some(count) && p.macCount == count && p.sn as nat == count % 256
    ensures var pdu := PackOuter(p.wideHeader, p.headerType, p.sn, p.body);
            && Packed(x, count, pdu)
            && (Delivered(c, x, p) <==> RoundTrips(c, x, count, Downlink, pdu))
  {
    var pdu := PackOuter(p.wideHeader, p.headerType, p.sn, p.body);
    PackOuterIsPacked(x, p.headerType, count, p.sn, p.body);
    MatchingHeaderReadable(c, x, p);
    MatchingHeaderAssembles(c, x, p);
    assert x.(wide := p.wideHeader) == x;
    OpenedParts(c, x, count, pdu);
  }

  lemma OneCountDeliveredExactly(x: SecCtx, p: Parts, count: nat)
    requires KnownHeader(p) && p.wideHeader == x.wide
    requires p.cipherCount == Some(count) && p.macCount == count && p.sn as nat == count % 256
    ensures (forall c :: Delivered(c, x, p))
            <==> count < 256 || (!x.Protects() && (!x.Ciphers() || p.body == []))
  {
    var pdu := PackOuter(p.wideHeader, p.headerType, p.sn, p.body);
    PackOuterIsPacked(x, p.headerType, count, p.sn, p.body);
    assert |pdu| == x.SeqAt() + 1 + |p.body|;
    RoundTripExactly(x, count, Downlink, pdu);
    if count < 256 || (!x.Protects() && (!x.Ciphers() || p.body == [])) {
      forall c ensures Delivered(c, x, p) { OneCountDelivered(c, x, p, count); }
    } else {
      var c :| !RoundTrips(c, x, count, Downlink, pdu);
      OneCountDelivered(c, x, p, count);
    }
  }

  /** The round trip concerns the body: the rest always comes back. */
  lemma OpenedParts(c: Crypto, x: SecCtx, count: nat, pdu: seq<byte>)
    requires Packed(x, count, pdu)
    ensures var wire := Sealed(c, x, count, Downlink, pdu);
            var open := Deciphered(c, x, Downlink, wire);
            && open[..x.MacAt()] == pdu[..x.MacAt()]
            && (open[x.SeqAt()..] == pdu[x.SeqAt()..] <==> open[x.SeqAt() + 1..] == pdu[x.SeqAt() + 1..])
  {
    var wire := Sealed(c, x, count, Downlink, pdu);
    var open := Deciphered(c, x, Downlink, wire);
    var s := x.SeqAt();
    SealedHead(c, x, count, Downlink, pdu);
    CipheredPrefix(c, x, wire[s] as nat, Downlink, wire, x.MacAt());
    CipheredAt(c, x, wire[s] as nat, Downlink, wire, s);
    assert open[s..] == [open[s]] + open[s + 1..] && pdu[s..] == [pdu[s]] + pdu[s + 1..];
    if open[s..] == pdu[s..] { assert open[s..][1..] == pdu[s..][1..]; }
  }

  /** One that is protected but not ciphered, under a header that always says 0. */
  lemma CommandDelivered(c: Crypto, x: SecCtx, p: Parts)
    requires KnownHeader(p) && p.wideHeader == x.wide && p.cipherCount.None? && p.sn == 0
    requires p.macCount == 0 || !x.Protects()
    ensures Delivered(c, x, p)
  {
    var pdu := PackOuter(p.wideHeader, p.headerType, p.sn, p.body);
    PackOuterIsPacked(x, p.headerType, 0, p.sn, p.body);
    MatchingHeaderReadable(c, x, p);
    MatchingHeaderAssembles(c, x, p);
    assert x.(wide := p.wideHeader) == x;
    CommandMac(c, x, p.macCount, pdu);
  }

  lemma CommandMac(c: Crypto, x: SecCtx, count: nat, pdu: seq<byte>)
    requires Packed(x, 0, pdu) && (count == 0 || !x.Protects())
    ensures Accepts(c, x, 0, Downlink, Maced(c, x, count, Downlink, pdu))
  {
    if x.Protects() { ZeroCountAccepted(c, x, pdu); } else { ZeroMacAccepted(c, x, pdu); }
  }

  lemma ZeroMacAccepted(c: Crypto, x: SecCtx, pdu: seq<byte>)
    requires Packed(x, 0, pdu) && !x.Protects()
    ensures Accepts(c, x, 0, Downlink, pdu)
  {
    var m, s := x.MacAt(), x.SeqAt();
    assert Zeros(s - 2) == Zeros(m - 2) + [0, 0, 0, 0];
  }

  lemma ZeroCountAccepted(c: Crypto, x: SecCtx, pdu: seq<byte>)
    requires Packed(x, 0, pdu) && x.Protects()
    ensures Accepts(c, x, 0, Downlink, Maced(c, x, 0, Downlink, pdu))
  {
    var wire := Maced(c, x, 0, Downlink, pdu);
    var m, s := x.MacAt(), x.SeqAt();
    MacedShape(c, x, 0, Downlink, pdu);
    ZeroHead(x, pdu, wire);
    assert wire[s] == wire[s..][0] == pdu[s..][0];
    assert MacOf(c, x, 0, Downlink, wire) == MacOf(c, x, 0, Downlink, pdu);
    FieldAccepted(c, x, wire);
  }

  lemma FieldAccepted(c: Crypto, x: SecCtx, wire: seq<byte>)
    requires x.SeqAt() < |wire| && wire[x.SeqAt()] == 0 && wire[2..x.MacAt()] == Zeros(x.MacAt() - 2)
    requires wire[x.MacAt()..x.SeqAt()] == MacOf(c, x, 0, Downlink, wire)
    ensures Accepts(c, x, 0, Downlink, wire)
  {
    var m, s := x.MacAt(), x.SeqAt();
    assert wire[2..s] == wire[2..m] + wire[m..s];
  }

  lemma ZeroHead(x: SecCtx, pdu: seq<byte>, wire: seq<byte>)
    requires Packed(x, 0, pdu) && |wire| == |pdu| && wire[..x.MacAt()] == pdu[..x.MacAt()]
    ensures wire[2..x.MacAt()] == Zeros(x.MacAt() - 2)
  {
    var m, s := x.MacAt(), x.SeqAt();
    forall i | 2 <= i < m ensures wire[i] == 0 {
      assert wire[i] == wire[..m][i] == pdu[..m][i] == pdu[2..s][i - 2];
    }
  }

  /** A MAC that tells counts apart gives another count away. */
  lemma OtherCountRefused(x: SecCtx, count: nat, pdu: seq<byte>)
    requires x.SeqAt() < |pdu| && pdu[x.SeqAt()] == 0 && count != 0 && x.Protects()
    ensures !Accepts(Telling(count), x, 0, Downlink, Maced(Telling(count), x, count, Downlink, pdu))
  {
    var c := Telling(count);
    var wire := Maced(c, x, count, Downlink, pdu);
    var m, s := x.MacAt(), x.SeqAt();
    MacedShape(c, x, count, Downlink, pdu);
    assert wire[s] == wire[s..][0] == pdu[s..][0];
    assert wire[2..s][m - 2] == wire[m] == wire[m..s][0] == 1;
    assert (Zeros(m - 2) + MacOf(c, x, 0, Downlink, wire))[m - 2] == 0;
  }

  /** At another count it is refused by algorithms that tell counts apart. */
  lemma CommandRefused(x: SecCtx, p: Parts)
    requires KnownHeader(p) && p.wideHeader == x.wide && p.cipherCount.None? && p.sn == 0
    requires p.macCount != 0 && x.Protects()
    ensures !Delivered(Telling(p.macCount), x, p)
  {
    MatchingHeaderAssembles(Telling(p.macCount), x, p);
    assert x.(wide := p.wideHeader) == x;
    OtherCountRefused(x, p.macCount, PackOuter(p.wideHeader, p.headerType, p.sn, p.body));
  }

  /** The Deregistration Accept of a long-header context. */
  lemma NarrowHeaderDelivered(x: SecCtx, sn: byte, count: nat, body: seq<byte>)
    requires x.wide && |body| == 3
    ensures (forall c :: Delivered(c, x, DeregistrationAccept(sn, count, body))) <==> !x.Protects() && !x.Ciphers()
  {
    var p := DeregistrationAccept(sn, count, body);
    if x.Ciphers() {
      NarrowHeaderOverruns(Marking(0), x, sn, count, body);
      assert !Delivered(Marking(0), x, p);
    } else if x.Protects() {
      var c := Marking(sn ^ 1);
      Flips(sn);
      NarrowHeaderOverwritten(c, x, sn, count, body);
      VersionBit(CIPHERED_HEADER);
      assert !Delivered(c, x, p);
    } else {
      forall c ensures Delivered(c, x, p) { BareNarrowDelivered(c, x, sn, count, body); }
    }
  }

  lemma BareNarrowDelivered(c: Crypto, x: SecCtx, sn: byte, count: nat, body: seq<byte>)
    requires !x.Protects() && !x.Ciphers() && |body| == 3
    ensures Delivered(c, x, DeregistrationAccept(sn, count, body))
  {
    var p := DeregistrationAccept(sn, count, body);
    var pdu := PackOuter(false, CIPHERED_HEADER, sn, body);
    var y := x.(wide := false);
    CipheredPrefix(c, x, count, Downlink, pdu, |pdu|);
    assert Ciphered(c, x, count, Downlink, pdu) == pdu;
    assert Assembled(c, x, p) == Done(pdu);
    VersionBit(CIPHERED_HEADER);
    assert HeaderSn(pdu) == Some(sn);
    CipheredPrefix(c, y, sn as nat, Downlink, pdu, |pdu|);
    assert Deciphered(c, y, Downlink, pdu) == pdu;
    assert pdu[MAC_5G_OFFSET..y.SeqAt()] == Zeros(4) == Zeros(0) + [0, 0, 0, 0];
    assert pdu[7..] == body;
  }
}

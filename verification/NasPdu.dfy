/** What the bytes of an uplink message amount to (the first half of
    `handle_enb_rx_pdu`, srscnw/src/cnw.cc): which security headers are checked,
    which are decrypted, and what is dispatched. */
module NasPdu {
  import opened Options
  import opened Bytes
  import opened NasEngine
  import Envelope

  /** The ASN.1 code: the security header of a message, its decoded body, and
      the encoded body of a message to send. */
  datatype Codec = Codec(
    outer: seq<byte> -> Option<SecurityHeader>,
    inner: seq<byte> -> Option<UplinkMessage>,
    encode: Kind -> seq<byte>)

  /** What the buffer opens to under the context `x`: checked, and decrypted if
      the header says so. */
  function OpenedAs(x: NasContext, h: SecurityHeader, msg: seq<byte>, n: nat, codec: Codec, crypto: Envelope.Crypto)
    : (Opening, Option<UplinkMessage>)
    requires x.sec.SeqAt() < |msg| && n <= |msg|
  {
    match Envelope.VerdictOn(crypto, x.sec, x.ul, Envelope.Uplink, msg, n)
    case OutOfBounds => (Overran, None)
    case Refused => (Rejected, None)
    case Accepted =>
      if h.IntegrityProtected? then (Opened, codec.inner(msg[..n]))
      else
        match Envelope.Encrypted(crypto, x.sec, msg[x.sec.SeqAt()] as nat, Envelope.Uplink, msg[..n])
        case Wrapped => (Overran, None)
        case Done(pdu) => (Opened, codec.inner(pdu))
  }

  /** The event the bytes amount to in a state. */
  function EventOf(s: State, rnti: nat, initial: bool, msg: seq<byte>, n: nat, codec: Codec, crypto: Envelope.Crypto)
    : (e: Event)
    requires Envelope.LONGEST_HEADER < |msg| && n <= |msg|
    ensures e.Uplink? && e.rnti == rnti && e.initial == initial
  {
    match codec.outer(msg[..n])
    case None => Uplink(rnti, initial, UnknownHeader, Opened, None)
    case Some(h) =>
      var f := Find(s, s.rntiIndex, rnti);
      if initial || !NeedsCheck(h) || !f.Live? then Uplink(rnti, initial, h, Opened, codec.inner(msg[..n]))
      else
        var o := OpenedAs(s.ctxs[f.id], h, msg, n, codec, crypto);
        Uplink(rnti, initial, h, o.0, o.1)
  }

  // ------------------------------------------------- by header and by bytes

  /** A message of `n` bytes in a buffer, with this security header. */
  predicate Buffered(msg: seq<byte>, n: nat, codec: Codec, h: SecurityHeader) {
    Envelope.LONGEST_HEADER < |msg| && n <= |msg| && n < 0x1_0000_0000 && codec.outer(msg[..n]) == Some(h)
  }

  predicate Known(s: State, rnti: nat) {
    s.fault.NoFault? && rnti in s.rntiIndex && s.rntiIndex[rnti] in s.ctxs
  }

  function ContextAt(s: State, rnti: nat): NasContext
    requires Known(s, rnti)
  { s.ctxs[s.rntiIndex[rnti]] }

  function AfterPdu(s: State, rnti: nat, initial: bool, msg: seq<byte>, n: nat, codec: Codec, crypto: Envelope.Crypto): State
    requires Envelope.LONGEST_HEADER < |msg| && n <= |msg|
  { Step(s, EventOf(s, rnti, initial, msg, n, codec, crypto)) }

  /** What decodes is dispatched; what does not is dropped. */
  function Delivered(s: State, rnti: nat, body: Option<UplinkMessage>): State {
    if body.None? then s else Dispatch(s, rnti, body.value)
  }

  /** There is a MAC to compute, and the message ends before the sequence number. */
  predicate EndsBeforeMac(x: Envelope.SecCtx, n: nat) {
    !x.integ.EIA0? && !x.integ.UnknownInteg? && n < if x.wide then 10 else 6
  }

  predicate EndsBeforeCipher(x: Envelope.SecCtx, n: nat) {
    !x.cipher.EEA0? && !x.cipher.UnknownCipher? && n < if x.wide then 11 else 7
  }

  /** One of the three headers that announce a MAC, and not the MAC expected. */
  predicate Forged(s: State, rnti: nat, msg: seq<byte>, n: nat, codec: Codec, crypto: Envelope.Crypto)
    requires Envelope.LONGEST_HEADER < |msg| && n <= |msg|
  {
    && Known(s, rnti)
    && codec.outer(msg[..n]) in {Some(IntegrityProtected), Some(Ciphered), Some(CipheredNewContext)}
    && var x := ContextAt(s, rnti);
       !EndsBeforeMac(x.sec, n) && !Envelope.MacExpected(crypto, x.sec, x.ul, Envelope.Uplink, msg, n)
  }

  /** Such a message of a known context changes nothing at all. */
  lemma ForgedDropped(s: State, rnti: nat, msg: seq<byte>, n: nat, codec: Codec, crypto: Envelope.Crypto)
    requires Envelope.LONGEST_HEADER < |msg| && n <= |msg| && n < 0x1_0000_0000
    requires Forged(s, rnti, msg, n, codec, crypto)
    ensures AfterPdu(s, rnti, false, msg, n, codec, crypto) == s
  {
    var x := ContextAt(s, rnti);
    Envelope.CheckedBytes(crypto, x.sec, x.ul, Envelope.Uplink, msg, n);
  }

  /** One that does carry it is dispatched as it is under the header that only
      protects ... */
  lemma ProtectedDelivered(s: State, rnti: nat, msg: seq<byte>, n: nat, codec: Codec, crypto: Envelope.Crypto)
    requires Known(s, rnti) && Buffered(msg, n, codec, IntegrityProtected)
    requires var x := ContextAt(s, rnti);
             !EndsBeforeMac(x.sec, n) && Envelope.MacExpected(crypto, x.sec, x.ul, Envelope.Uplink, msg, n)
    ensures AfterPdu(s, rnti, false, msg, n, codec, crypto) == Delivered(s, rnti, codec.inner(msg[..n]))
  {
    var x := ContextAt(s, rnti);
    Envelope.CheckedBytes(crypto, x.sec, x.ul, Envelope.Uplink, msg, n);
  }

  /** The check accepts and the decryption stays within the message. */
  predicate Opens(x: NasContext, msg: seq<byte>, n: nat, crypto: Envelope.Crypto)
    requires Envelope.LONGEST_HEADER < |msg| && n <= |msg|
  {
    && !EndsBeforeMac(x.sec, n) && Envelope.MacExpected(crypto, x.sec, x.ul, Envelope.Uplink, msg, n)
    && !EndsBeforeCipher(x.sec, n)
  }

  /** `now` is what the ciphering key makes of `was` under the count the sequence
      number gives. */
  predicate Deciphers(x: NasContext, sn: byte, crypto: Envelope.Crypto, was: seq<byte>, now: seq<byte>) {
    Envelope.KeystreamApplied(crypto, x.sec, sn as nat, Envelope.Uplink, was, now)
  }

  lemma CipheredOpens(x: NasContext, msg: seq<byte>, n: nat, codec: Codec, crypto: Envelope.Crypto, h: SecurityHeader, pdu: seq<byte>)
    requires Envelope.LONGEST_HEADER < |msg| && n <= |msg| && n < 0x1_0000_0000 && h != IntegrityProtected
    requires Opens(x, msg, n, crypto)
    requires Deciphers(x, msg[if x.sec.wide then 10 else 6], crypto, msg[..n], pdu)
    ensures OpenedAs(x, h, msg, n, codec, crypto) == (Opened, codec.inner(pdu))
  {
    AcceptedWhenExpected(x, msg, n, crypto);
    DecipheredWhole(x, msg[x.sec.SeqAt()], crypto, msg[..n], pdu);
  }

  lemma AcceptedWhenExpected(x: NasContext, msg: seq<byte>, n: nat, crypto: Envelope.Crypto)
    requires Envelope.LONGEST_HEADER < |msg| && n <= |msg| && n < 0x1_0000_0000 && Opens(x, msg, n, crypto)
    ensures Envelope.VerdictOn(crypto, x.sec, x.ul, Envelope.Uplink, msg, n).Accepted?
  {
    Envelope.CheckedBytes(crypto, x.sec, x.ul, Envelope.Uplink, msg, n);
  }

  lemma DecipheredWhole(x: NasContext, sn: byte, crypto: Envelope.Crypto, was: seq<byte>, now: seq<byte>)
    requires |was| < 0x1_0000_0000 && !EndsBeforeCipher(x.sec, |was|) && Deciphers(x, sn, crypto, was, now)
    ensures Envelope.Encrypted(crypto, x.sec, sn as nat, Envelope.Uplink, was) == Envelope.Done(now)
  {
    LengthWraps(|was|, x.sec.SeqAt() + 1);
    Envelope.KeystreamDecides(crypto, x.sec, sn as nat, Envelope.Uplink, was, now);
  }

  /** ... and as it deciphers, byte by byte under the ciphering key and the
      sequence number, under the two that announce a cipher. */
  lemma CipheredDelivered(s: State, rnti: nat, msg: seq<byte>, n: nat, codec: Codec, crypto: Envelope.Crypto,
                          h: SecurityHeader, pdu: seq<byte>)
    requires Known(s, rnti) && Buffered(msg, n, codec, h) && (h == Ciphered || h == CipheredNewContext)
    requires Opens(ContextAt(s, rnti), msg, n, crypto)
    requires Deciphers(ContextAt(s, rnti), msg[if ContextAt(s, rnti).sec.wide then 10 else 6], crypto, msg[..n], pdu)
    ensures AfterPdu(s, rnti, false, msg, n, codec, crypto) == Delivered(s, rnti, codec.inner(pdu))
  {
    CipheredOpens(ContextAt(s, rnti), msg, n, codec, crypto, h, pdu);
  }

  /** A message that ends too early for the check or the decryption makes the
      length wrap. */
  lemma ShortOverruns(s: State, rnti: nat, msg: seq<byte>, n: nat, codec: Codec, crypto: Envelope.Crypto, h: SecurityHeader)
    requires Known(s, rnti) && Buffered(msg, n, codec, h)
    requires h == IntegrityProtected || h == Ciphered || h == CipheredNewContext
    requires var x := ContextAt(s, rnti);
             || EndsBeforeMac(x.sec, n)
             || (h != IntegrityProtected && EndsBeforeCipher(x.sec, n)
                 && Envelope.MacExpected(crypto, x.sec, x.ul, Envelope.Uplink, msg, n))
    ensures AfterPdu(s, rnti, false, msg, n, codec, crypto) == s.(fault := Overrun)
  {
    var x := ContextAt(s, rnti);
    Envelope.CheckedBytes(crypto, x.sec, x.ul, Envelope.Uplink, msg, n);
    LengthWraps(n, x.sec.SeqAt() + 1);
  }

  /** Nothing is checked under the plain header and under an unknown one, nor in
      an initial message under any; integrity with a new context is not accepted,
      and on an unknown RNTI only an initial message is. */
  lemma UncheckedDelivered(s: State, rnti: nat, initial: bool, msg: seq<byte>, n: nat, codec: Codec, crypto: Envelope.Crypto,
                           h: SecurityHeader)
    requires s.fault.NoFault? && Buffered(msg, n, codec, h)
    ensures var s' := AfterPdu(s, rnti, initial, msg, n, codec, crypto);
            && (initial ==> s' == Delivered(s, rnti, codec.inner(msg[..n])))
            && (!initial && rnti in s.rntiIndex && (h == PlainNas || h == UnknownHeader) ==>
                  s' == Delivered(s, rnti, codec.inner(msg[..n])))
            && (!initial && (rnti !in s.rntiIndex || h == IntegrityNewContext) ==> s' == s)
  {
  }
}

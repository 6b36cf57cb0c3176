/** The session engine of the core network: contexts held by two indexes, the
    mobility-management handlers of srscnw/src/nas_mm.cc, the session handlers
    of srscnw/src/nas_sm.cc and the entry points of srscnw/src/cnw.cc, with
    every test-controller flag off.

    A context is a heap object named by a number; a pointer to a deleted one
    is a number outside `ctxs`.  `log` records what was handled and sent. */
module NasEngine {
  import opened Options
  import opened Bytes
  import Envelope

  const TMSI: nat := 0xc234_5678           // the one 5G-TMSI the network hands out
  const COUNT_SIZE: nat := 0x1_0000_0000   // NAS COUNTs are 32 bits wide

  datatype MmState = Deregistered | Registered
  datatype CmState = Idle | Connected

  /** `nrsm_ctx_t`: two session slots, 0 for data and 1 for voice. */
  datatype SmCtx = SmCtx(isIms: bool, isAccept: bool, pti0: nat, pti1: nat, sid0: nat, sid1: nat) {
    function Pti(voice: bool): nat { if voice then pti1 else pti0 }
    function Sid(voice: bool): nat { if voice then sid1 else sid0 }
  }

  datatype NasContext = NasContext(
    rnti: nat, tmsi: nat, mm: MmState, cm: CmState,
    ul: nat, dl: nat, sec: Envelope.SecCtx,
    regPending: bool, svcPending: bool, sm: SmCtx)

  /** A value-initialised `sec_ctx_t`: no algorithm, zero keys, long header. */
  function FreshSec(): Envelope.SecCtx {
    Envelope.SecCtx(true, Envelope.EEA0, Envelope.EIA0, Zeros(16), Zeros(16))
  }

  function NewContext(rnti: nat, sec: Envelope.SecCtx): NasContext {
    NasContext(rnti, 0, Deregistered, Connected, 0, 0, sec, false, false,
               SmCtx(false, true, 0, 0, 0, 0))
  }

  datatype Kind =
    | AuthRequest | AuthReject | SecurityModeCommand
    | RegistrationAccept | ServiceAccept | DeregistrationAccept
    | ConfigurationUpdate | VoiceModification
    | SessionAccept(sid: nat, pti: nat) | SessionAuthResult

  /** A protected message by what went into it: the security context, the
      format of the header and its sequence number, the count given to the
      cipher if it is ciphered, and the count given to the MAC. */
  datatype Message =
    | Plain(kind: Kind)
    | Protected(kind: Kind, sec: Envelope.SecCtx, wideHeader: bool, sn: nat, cipherCount: Option<nat>, macCount: nat)

  datatype SmKind = EstablishmentRequest | AuthenticationComplete | ModificationComplete | OtherSm | Undecodable

  datatype Entry =
    | Created(c: nat) | Deleted(c: nat) | Reset(c: nat)
    | SmcHandled(c: nat) | SvcHandled(c: nat)
    | SmReceived(c: nat, sid: nat, kind: SmKind, pti: nat)
    | Sent(c: nat, msg: Message)

  /** What the original program does next is undefined after a fault: a null or
      dangling pointer, a second delete, a copy whose length wrapped. */
  datatype Fault = NoFault | NullContext | Dangling | DoubleFree | Overrun

  datatype State = State(
    ctxs: map<nat, NasContext>, rntiIndex: map<nat, nat>, tmsiIndex: map<nat, nat>, gutiIndex: map<nat, nat>,
    next: nat, fault: Fault, log: seq<Entry>)

  const INITIAL: State := State(map[], map[], map[], map[], 0, NoFault, [])

  // ------------------------------------------------- events

  /** Whether the subscriber is in the database, and the algorithms the network
      is configured with, are inputs. */
  datatype Identity =
    | Suci(subscriberKnown: bool, cipher: Envelope.CipherAlgo, integ: Envelope.IntegAlgo)
    | Guti(guti: nat, subscriberKnown: bool)
    | OtherIdentity

  datatype SmPdu = SmPdu(sid: nat, pti: nat, kind: SmKind)

  datatype UplinkMessage =
    | RegistrationRequest(id: Identity)
    | RegistrationComplete
    | DeregistrationRequest(guti: Option<nat>, switchOff: bool)
    | DeregistrationAcceptFromUe
    | ServiceRequest(tmsi: nat)
    | AuthenticationResponse(resMatches: bool, wide: bool, kEnc: seq<byte>, kInt: seq<byte>)
    | AuthenticationFailure
    | IdentityResponse(id: Identity)
    | SecurityModeComplete
    | UlNasTransport(sm: Option<SmPdu>)
    | OtherMessage

  datatype SecurityHeader =
    | PlainNas | IntegrityProtected | Ciphered | IntegrityNewContext | CipheredNewContext | UnknownHeader

  /** What became of the check and the decryption of an uplink message. */
  datatype Opening = Opened | Rejected | Overran

  /** What the bytes of a message open to and decode to is an input here; `Cnw`
      computes it from the bytes. */
  datatype Event =
    | Uplink(rnti: nat, initial: bool, header: SecurityHeader, opening: Opening, body: Option<UplinkMessage>)
    | AcceptTrigger(rnti: nat)
    | RrcRelease(rnti: nat)
    | UserRelease(rnti: nat)
    | ConfigUpdate(rnti: nat)
    | VoiceModify(rnti: nat, flag: nat)

  // ------------------------------------------------- building blocks

  datatype Found = Absent | Dead | Live(id: nat)

  function Find(s: State, index: map<nat, nat>, key: nat): (f: Found)
    ensures f.Live? ==> f.id in s.ctxs && key in index && index[key] == f.id
  {
    if key !in index then Absent
    else if index[key] in s.ctxs then Live(index[key]) else Dead
  }

  function Fail(s: State, f: Fault): State { s.(fault := f) }
  function Put(s: State, c: nat, x: NasContext): State { s.(ctxs := s.ctxs[c := x]) }
  function Note(s: State, e: Entry): State { s.(log := s.log + [e]) }

  /** `add_nas_ctx_to_*_map`: an index entry is never overwritten. */
  function AddIfAbsent(index: map<nat, nat>, key: nat, c: nat): map<nat, nat> {
    if key in index then index else index[key := c]
  }

  function Bump(x: NasContext): NasContext { x.(dl := (x.dl + 1) % COUNT_SIZE) }

  /** A message on its way: packed, and perhaps ciphered. */
  datatype Draft = Draft(kind: Kind, wideHeader: bool, sn: nat, cipherCount: Option<nat>)

  /** The packer reads the count for the header. */
  function PackedDraft(s: State, c: nat, k: Kind, wideHeader: bool): Draft
    requires c in s.ctxs
  { Draft(k, wideHeader, s.ctxs[c].dl % 256, None) }

  /** `cipher_encrypt` reads it from a copy of the context it makes itself. */
  function EncryptedDraft(s: State, c: nat, d: Draft): Draft
    requires c in s.ctxs
  {
    var copy := s.ctxs[c];
    d.(cipherCount := Some(copy.dl))
  }

  /** `integrity_generate` is handed it once more. */
  function WithMac(s: State, c: nat, d: Draft): Message
    requires c in s.ctxs
  { Protected(d.kind, s.ctxs[c].sec, d.wideHeader, d.sn, d.cipherCount, s.ctxs[c].dl) }

  function CipheredMessage(s: State, c: nat, k: Kind, wideHeader: bool): Message
    requires c in s.ctxs
  { WithMac(s, c, EncryptedDraft(s, c, PackedDraft(s, c, k, wideHeader))) }

  /** The parts its bytes are put together from, with the given body. */
  function PartsOf(m: Message, body: seq<byte>): Envelope.Parts
    requires m.Protected? && m.sn < 256
  {
    Envelope.Parts(m.wideHeader, HeaderOf(m.kind), m.sn as byte, m.cipherCount, m.macCount, body)
  }

  function HeaderOf(k: Kind): byte {
    if k.SecurityModeCommand? then Envelope.NEW_CONTEXT_HEADER else Envelope.CIPHERED_HEADER
  }

  /** A ciphered downlink message, and the count moved on after it. */
  function SendCiphered(s: State, c: nat, k: Kind): State
    requires c in s.ctxs
  {
    var m := CipheredMessage(s, c, k, s.ctxs[c].sec.wide);
    Put(Note(s, Sent(c, m)), c, Bump(s.ctxs[c]))
  }

  // ------------------------------------------------- mobility management

  function Born(s: State, rnti: nat, sec: Envelope.SecCtx): State {
    Note(Put(s.(next := s.next + 1), s.next, NewContext(rnti, sec)), Created(s.next))
  }

  function Indexed(s: State, rnti: nat, c: nat): State {
    s.(rntiIndex := AddIfAbsent(s.rntiIndex, rnti, c))
  }

  function BornIndexed(s: State, rnti: nat, sec: Envelope.SecCtx): State { Indexed(Born(s, rnti, sec), rnti, s.next) }

  /** A registration by SUCI allocates a context; it is lost when its subscriber
      is unknown or its RNTI is already indexed. */
  function RegisterSuci(s: State, rnti: nat, known: bool, sec: Envelope.SecCtx): State {
    if !known then Born(s, rnti, sec)
    else Note(BornIndexed(s, rnti, sec), Sent(s.next, Plain(AuthRequest)))
  }

  function Taken(x: NasContext, rnti: nat): NasContext { x.(rnti := rnti, ul := (x.ul + 1) % COUNT_SIZE) }

  /** The context found by GUTI is adopted as it is, on its new RNTI. */
  function Adopted(s: State, rnti: nat, c: nat): State
    requires c in s.ctxs
  { Indexed(Put(s, c, Taken(s.ctxs[c], rnti)), rnti, c) }

  /** Or it starts over there. */
  function StartedOver(s: State, rnti: nat, c: nat): State
    requires c in s.ctxs
  { Indexed(Put(s, c, s.ctxs[c].(ul := 0, dl := 0, rnti := rnti, mm := Deregistered)), rnti, c) }

  function Challenged(s: State, c: nat, known: bool): State {
    if known then Note(s, Sent(c, Plain(AuthRequest))) else s
  }

  function WithoutRnti(s: State, rnti: nat): State {
    if rnti != 0 then s.(rntiIndex := s.rntiIndex - {rnti}) else s
  }

  /** `handle_guti_registration_request_known_ue`, where `msgValid` stands for
      the integrity check. */
  function RegisterKnown(s: State, rnti: nat, c: nat, msgValid: bool, known: bool): State
    requires c in s.ctxs
  {
    if msgValid && s.ctxs[c].mm.Deregistered? then Adopted(s, rnti, c)
    else Challenged(StartedOver(WithoutRnti(s, s.ctxs[c].rnti), rnti, c), c, known)
  }

  /** The check is commented out, so `msgValid` stays false; and no handler
      inserts into the GUTI index. */
  function RegisterGuti(s: State, rnti: nat, guti: nat, known: bool, sec: Envelope.SecCtx): State {
    match Find(s, s.gutiIndex, guti)
    case Absent => BornIndexed(s, rnti, sec)
    case Dead => Fail(s, Dangling)
    case Live(c) => RegisterKnown(s, rnti, c, false, known)
  }

  function Register(s: State, rnti: nat, id: Identity): State {
    match id
    case Suci(known, cipher, integ) => RegisterSuci(s, rnti, known, FreshSec().(cipher := cipher, integ := integ))
    case Guti(guti, known) => RegisterGuti(s, rnti, guti, known, FreshSec())
    case OtherIdentity => s
  }

  function CompleteRegistration(s: State, rnti: nat): State {
    match Find(s, s.rntiIndex, rnti)
    case Absent => s
    case Dead => Fail(s, Dangling)
    case Live(c) => Put(s, c, s.ctxs[c].(mm := Registered, cm := Connected))
  }

  /** The Security Mode Command is not ciphered and always has sequence number
      0; the keys are derived before its MAC. */
  function AnswerAuthentication(s: State, rnti: nat, ok: bool, wide: bool, kEnc: seq<byte>, kInt: seq<byte>): State {
    match Find(s, s.rntiIndex, rnti)
    case Absent => Fail(s, NullContext)
    case Dead => Fail(s, Dangling)
    case Live(c) =>
      var x := s.ctxs[c].(sec := s.ctxs[c].sec.(wide := wide));
      if ok then
        var y := x.(ul := 0, sec := x.sec.(kEnc := kEnc, kInt := kInt));
        var s1 := Put(s, c, y);
        var m := WithMac(s1, c, Draft(SecurityModeCommand, wide, 0, None));
        Put(Note(s1, Sent(c, m)), c, Bump(y))
      else
        Put(Note(s, Sent(c, Plain(AuthReject))), c, Bump(x))
  }

  /** The whole security context is replaced by a new one. */
  function FailAuthentication(s: State, rnti: nat): State {
    match Find(s, s.rntiIndex, rnti)
    case Absent => s
    case Dead => Fail(s, Dangling)
    case Live(c) => Put(Note(s, Reset(c)), c, s.ctxs[c].(ul := 0, dl := 0, sec := FreshSec()))
  }

  function CompleteSecurityMode(s: State, rnti: nat): State {
    match Find(s, s.rntiIndex, rnti)
    case Absent => s
    case Dead => Fail(s, Dangling)
    case Live(c) => Put(Note(s, SmcHandled(c)), c, s.ctxs[c].(regPending := true))
  }

  /** The context is moved to the RNTI the request came on and indexed there
      unless that RNTI is taken; the accept is due, and the count moves. */
  function Requested(s: State, rnti: nat, c: nat): State
    requires c in s.ctxs
  {
    var x := s.ctxs[c].(rnti := rnti, svcPending := true);
    Put(Note(s, SvcHandled(c)), c, Bump(x)).(rntiIndex := AddIfAbsent(s.rntiIndex, rnti, c))
  }

  /** The context is found by TMSI. */
  function RequestService(s: State, rnti: nat, tmsi: nat): State {
    match Find(s, s.tmsiIndex, tmsi)
    case Absent => s
    case Dead => Fail(s, Dangling)
    case Live(c) => Requested(s, rnti, c)
  }

  /** `delete_ue_nas_ctx`: the context goes, and its entries with it. */
  function Removed(s: State, c: nat, tmsi: nat): State
    requires c in s.ctxs
  {
    Note(s, Deleted(c)).(
      ctxs := s.ctxs - {c}, tmsiIndex := s.tmsiIndex - {tmsi}, rntiIndex := s.rntiIndex - {s.ctxs[c].rnti})
  }

  /** The length of a Deregistration Accept: the short header and three bytes. */
  const DEREGISTRATION_ACCEPT_SIZE: nat := 10

  /** Ciphering it runs over its end exactly in a long-header context. */
  lemma DeregistrationAcceptBounds(sec: Envelope.SecCtx)
    ensures InBounds(DEREGISTRATION_ACCEPT_SIZE, sec.SeqAt() + 1) <==> !sec.wide
  {
    LengthWraps(DEREGISTRATION_ACCEPT_SIZE, sec.SeqAt() + 1);
  }

  /** The Deregistration Accept is packed with the short header whatever the
      context uses, and ciphering it then may overrun; it uses the count without
      moving it on, and the context is deleted in the same step. */
  function Deregister(s: State, tmsi: Option<nat>, switchOff: bool): State {
    if tmsi.None? then s
    else
      match Find(s, s.tmsiIndex, tmsi.value)
      case Absent => s
      case Dead => Fail(s, Dangling)
      case Live(c) =>
        var x := s.ctxs[c];
        if !switchOff && x.sec.Ciphers() && !InBounds(DEREGISTRATION_ACCEPT_SIZE, x.sec.SeqAt() + 1) then Fail(s, Overrun)
        else
          var s1 := if switchOff then s
                    else Note(s, Sent(c, CipheredMessage(s, c, DeregistrationAccept, false)));
          Removed(s1, c, tmsi.value)
  }

  function SetIdle(s: State, rnti: nat): State {
    match Find(s, s.rntiIndex, rnti)
    case Absent => s
    case Dead => Fail(s, Dangling)
    case Live(c) => Put(s, c, s.ctxs[c].(cm := Idle))
  }

  /** The identity is stored in the context whether or not one was found. */
  function Identify(s: State, rnti: nat, id: Identity): State {
    if id.OtherIdentity? then s
    else
      match Find(s, s.rntiIndex, rnti)
      case Absent => Fail(s, NullContext)
      case Dead => Fail(s, Dangling)
      case Live(_) => s
  }

  // ------------------------------------------------- session management

  /** The header of a session message marks its slot; `isIms` is never cleared. */
  function MarkSession(m: SmCtx, sid: nat): SmCtx {
    if sid == 1 then m.(sid0 := 1) else if sid == 2 then m.(isIms := true, sid1 := 2) else m
  }

  function StorePti(m: SmCtx, sid: nat, pti: nat): SmCtx {
    if sid == 2 then m.(pti1 := pti) else m.(pti0 := pti)
  }

  /** `sm_write_dl_info` looks its context up again, by the RNTI stored in the
      one that asked. */
  function SendSession(s: State, c: nat): State
    requires c in s.ctxs
  {
    var m := s.ctxs[c].sm;
    var k := if m.isAccept then SessionAccept(m.Sid(m.isIms), m.Pti(m.isIms)) else SessionAuthResult;
    match Find(s, s.rntiIndex, s.ctxs[c].rnti)
    case Absent => Fail(s, NullContext)
    case Dead => Fail(s, Dangling)
    case Live(d) => SendCiphered(s, d, k)
  }

  /** The slots after one session message. */
  function AfterMessage(m: SmCtx, p: SmPdu): SmCtx {
    var marked := MarkSession(m, p.sid);
    if p.kind.EstablishmentRequest? then StorePti(marked, p.sid, p.pti).(isAccept := true) else marked
  }

  /** The message is noted and its slots are updated. */
  function Marked(s: State, c: nat, p: SmPdu): State
    requires c in s.ctxs
  {
    var x := s.ctxs[c];
    Put(Note(s, SmReceived(c, p.sid, p.kind, p.pti)), c, x.(sm := AfterMessage(x.sm, p)))
  }

  function HandleSession(s: State, rnti: nat, p: SmPdu): State {
    match Find(s, s.rntiIndex, rnti)
    case Absent =>
      if p.sid == 1 || p.sid == 2 || p.kind.EstablishmentRequest? || p.kind.AuthenticationComplete? || p.kind.ModificationComplete?
      then Fail(s, NullContext) else s
    case Dead => Fail(s, Dangling)
    case Live(c) =>
      if p.kind.EstablishmentRequest? || p.kind.AuthenticationComplete? then SendSession(Marked(s, c, p), c)
      else Marked(s, c, p)
  }

  // ------------------------------------------------- entry points

  function Dispatch(s: State, rnti: nat, m: UplinkMessage): State {
    match m
    case RegistrationRequest(id) => Register(s, rnti, id)
    case RegistrationComplete => CompleteRegistration(s, rnti)
    case DeregistrationRequest(t, off) => Deregister(s, t, off)
    case DeregistrationAcceptFromUe => SetIdle(s, rnti)
    case ServiceRequest(t) => RequestService(s, rnti, t)
    case AuthenticationResponse(ok, wide, kEnc, kInt) => AnswerAuthentication(s, rnti, ok, wide, kEnc, kInt)
    case AuthenticationFailure => FailAuthentication(s, rnti)
    case IdentityResponse(id) => Identify(s, rnti, id)
    case SecurityModeComplete => CompleteSecurityMode(s, rnti)
    case UlNasTransport(sm) => if sm.Some? then HandleSession(s, rnti, sm.value) else s
    case OtherMessage => s
  }

  predicate NeedsCheck(h: SecurityHeader) { h.IntegrityProtected? || h.Ciphered? || h.CipheredNewContext? }

  /** The message gets past the security header and decodes. */
  predicate Dispatched(s: State, e: Event)
    requires e.Uplink?
  {
    && s.fault.NoFault? && (e.initial || !Find(s, s.rntiIndex, e.rnti).Absent?)
    && (!e.initial ==>
          && !e.header.IntegrityNewContext?
          && (NeedsCheck(e.header) ==> Find(s, s.rntiIndex, e.rnti).Live? && e.opening.Opened?))
    && e.body.Some?
  }

  /** The end of `handle_enb_rx_pdu`, by the local pointer `sec`: after an
      Authentication Response both counts are cleared, after anything else the
      uplink count moves on. */
  function MoveUplink(s: State, sec: Option<nat>, m: UplinkMessage): State {
    if sec.None? || !s.fault.NoFault? then s
    else if sec.value !in s.ctxs then Fail(s, Dangling)
    else
      var x := s.ctxs[sec.value];
      Put(s, sec.value,
          if m.AuthenticationResponse? then x.(ul := 0, dl := 0) else x.(ul := (x.ul + 1) % COUNT_SIZE))
  }

  function HandleUplinkBy(s: State, e: Event, sec: Option<nat>): State
    requires e.Uplink?
  {
    var f := Find(s, s.rntiIndex, e.rnti);
    if f.Absent? && !e.initial then s
    else if !e.initial && e.header.IntegrityNewContext? then s
    else if !e.initial && NeedsCheck(e.header) && f.Dead? then Fail(s, Dangling)
    else if !e.initial && NeedsCheck(e.header) && e.opening.Overran? then Fail(s, Overrun)
    else if !e.initial && NeedsCheck(e.header) && e.opening.Rejected? then s
    else if e.body.None? then s
    else MoveUplink(Dispatch(s, e.rnti, e.body.value), sec, e.body.value)
  }

  /** `handle_enb_rx_pdu`.  The pointer it ends with is declared null at its
      head; the one that is set for a message on a known RNTI is another, declared
      anew in the inner block. */
  function HandleUplink(s: State, e: Event): State
    requires e.Uplink?
  {
    HandleUplinkBy(s, e, None)
  }

  /** The context takes the TMSI, which is indexed unless it is taken. */
  function GivenTmsi(s: State, c: nat): State
    requires c in s.ctxs
  {
    Put(s, c, s.ctxs[c].(tmsi := TMSI, regPending := false)).(tmsiIndex := AddIfAbsent(s.tmsiIndex, TMSI, c))
  }

  function ServiceCleared(s: State, c: nat): State
    requires c in s.ctxs
  { Put(s, c, s.ctxs[c].(svcPending := false)) }

  function RegistrationAccepted(s: State, c: nat): State
    requires c in s.ctxs
  { SendCiphered(GivenTmsi(s, c), c, RegistrationAccept) }

  function ServiceAccepted(s: State, c: nat): State
    requires c in s.ctxs
  { SendCiphered(ServiceCleared(s, c), c, ServiceAccept) }

  /** `send_reg_or_service_accept`: a pending Registration Accept goes first. */
  function SendAccept(s: State, rnti: nat): State {
    match Find(s, s.rntiIndex, rnti)
    case Absent => s
    case Dead => Fail(s, Dangling)
    case Live(c) =>
      if s.ctxs[c].regPending then RegistrationAccepted(s, c)
      else if s.ctxs[c].svcPending then ServiceAccepted(s, c)
      else s
  }

  /** `release_nas_ctx` clears both indexes and deletes the one context. */
  function Release(s: State, rnti: nat): State {
    match Find(s, s.rntiIndex, rnti)
    case Absent => s
    case Dead => Fail(s, DoubleFree)
    case Live(c) => Note(s, Deleted(c)).(ctxs := s.ctxs - {c}, rntiIndex := map[], tmsiIndex := map[])
  }

  function UpdateConfiguration(s: State, rnti: nat): State {
    match Find(s, s.rntiIndex, rnti)
    case Absent => s
    case Dead => Fail(s, Dangling)
    case Live(c) => SendCiphered(s, c, ConfigurationUpdate)
  }

  /** `pcs_sm_modification` protects a message and does not move the count on. */
  function ModifyVoice(s: State, rnti: nat, flag: nat): State {
    match Find(s, s.rntiIndex, rnti)
    case Absent => Fail(s, NullContext)
    case Dead => Fail(s, Dangling)
    case Live(c) =>
      if flag == 2 || flag == 3
      then Note(s, Sent(c, CipheredMessage(s, c, VoiceModification, s.ctxs[c].sec.wide)))
      else s
  }

  function Step(s: State, e: Event): State {
    if !s.fault.NoFault? then s
    else
      match e
      case Uplink(_, _, _, _, _) => HandleUplink(s, e)
      case AcceptTrigger(r) => SendAccept(s, r)
      case RrcRelease(r) => Release(s, r)
      case UserRelease(r) => SetIdle(s, r)
      case ConfigUpdate(r) => UpdateConfiguration(s, r)
      case VoiceModify(r, flag) => ModifyVoice(s, r, flag)
  }

  function Run(s: State, es: seq<Event>): State
    decreases |es|
  {
    if es == [] then s else Step(Run(s, es[..|es| - 1]), es[|es| - 1])
  }

  lemma RunSnoc(s: State, es: seq<Event>, e: Event)
    ensures Run(s, es + [e]) == Step(Run(s, es), e)
  {
    assert (es + [e])[..|es|] == es;
  }
}

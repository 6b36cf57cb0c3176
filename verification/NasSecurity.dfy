/** The security context of a UE over whole runs: which registration chose its
    algorithms, which Authentication Response brought its keys, and that every
    protected message is protected under it (srscnw/src/nas_mm.cc). */
module NasSecurity {
  import opened Options
  import opened Bytes
  import opened NasEngine
  import Envelope

  /** The RNTI leads to the context `c`. */
  predicate LeadsTo(s: State, rnti: nat, c: nat) { rnti in s.rntiIndex && s.rntiIndex[rnti] == c }

  /** Nothing decided yet: long header, no algorithm, zero keys. */
  function Unsecured(): Envelope.SecCtx {
    Envelope.SecCtx(true, Envelope.EEA0, Envelope.EIA0, Zeros(16), Zeros(16))
  }

  // ------------------------------------------------- one authentication response

  /** A response of a known context is answered with one message: with the
      Security Mode Command exactly when RES is the one expected, and with the
      Authentication Reject otherwise.  The keys become those of the response in
      the first case only, each in its own place; the header format in both. */
  lemma AnswerDecided(s: State, rnti: nat, resMatches: bool, wide: bool, kEnc: seq<byte>, kInt: seq<byte>)
    requires rnti in s.rntiIndex && s.rntiIndex[rnti] in s.ctxs
    ensures var c := s.rntiIndex[rnti];
            var was, t := s.ctxs[c], Dispatch(s, rnti, AuthenticationResponse(resMatches, wide, kEnc, kInt));
            && t.log == s.log + [Sent(c, if resMatches then Command(was.sec, wide, kEnc, kInt, was.dl) else Plain(AuthReject))]
            && c in t.ctxs && t == s.(log := t.log, ctxs := s.ctxs[c := t.ctxs[c]])
            && t.ctxs[c].sec.kEnc == (if resMatches then kEnc else was.sec.kEnc)
            && t.ctxs[c].sec.kInt == (if resMatches then kInt else was.sec.kInt)
            && t.ctxs[c].sec.wide == wide
            && t.ctxs[c].sec.cipher == was.sec.cipher && t.ctxs[c].sec.integ == was.sec.integ
            && t.ctxs[c].ul == (if resMatches then 0 else was.ul) && t.ctxs[c].dl == (was.dl + 1) % 0x1_0000_0000
  {
    var c := s.rntiIndex[rnti];
    var x := s.ctxs[c].(sec := s.ctxs[c].sec.(wide := wide));
    if resMatches {
      var y := x.(ul := 0, sec := x.sec.(kEnc := kEnc, kInt := kInt));
      assert s.ctxs[c := y][c := Bump(y)] == s.ctxs[c := Bump(y)];
    }
  }

  /** It is protected under the new keys, says 0, and is not ciphered. */
  function Command(was: Envelope.SecCtx, wide: bool, kEnc: seq<byte>, kInt: seq<byte>, count: nat): Message {
    Protected(SecurityModeCommand, Envelope.SecCtx(wide, was.cipher, was.integ, kEnc, kInt), wide, 0, None, count)
  }

  /** A registration by SUCI starts with the algorithms the network is configured
      with, and no keys; it is challenged and found on its RNTI exactly when the
      subscriber is known, and found only if that RNTI was free. */
  lemma RegistrationStarts(s: State, rnti: nat, known: bool, cipher: Envelope.CipherAlgo, integ: Envelope.IntegAlgo)
    ensures var c, t := s.next, Dispatch(s, rnti, RegistrationRequest(Suci(known, cipher, integ)));
            && c in t.ctxs && t.next == c + 1 && t.ctxs == s.ctxs[c := t.ctxs[c]]
            && t.ctxs[c].sec.cipher == cipher && t.ctxs[c].sec.integ == integ && t.ctxs[c].sec.wide
            && t.ctxs[c].sec.kEnc == Zeros(16) && t.ctxs[c].sec.kInt == Zeros(16)
            && t.ctxs[c].rnti == rnti && t.ctxs[c].ul == 0 && t.ctxs[c].dl == 0
            && t.rntiIndex == (if known && rnti !in s.rntiIndex then s.rntiIndex[rnti := c] else s.rntiIndex)
            && t.log == s.log + [Created(c)] + (if known then [Sent(c, Plain(AuthRequest))] else [])
  {
  }

  // ------------------------------------------------- the context by its history

  /** What the event, handled in the state, makes of the security context of `c`:
      only its registration, a response and a failure change it. */
  function SecurityAfter(was: Envelope.SecCtx, s: State, e: Event, c: nat): Envelope.SecCtx {
    if !e.Uplink? || !Dispatched(s, e) then was
    else
      match e.body.value
      case RegistrationRequest(id) =>
        if c != s.next then was
        else if id.Suci? then Unsecured().(cipher := id.cipher, integ := id.integ)
        else Unsecured()
      case AuthenticationResponse(ok, wide, kEnc, kInt) =>
        if !LeadsTo(s, e.rnti, c) then was
        else if ok then Envelope.SecCtx(wide, was.cipher, was.integ, kEnc, kInt)
        else was.(wide := wide)
      case AuthenticationFailure => if LeadsTo(s, e.rnti, c) then Unsecured() else was
      case _ => was
  }

  function SecurityOf(es: seq<Event>, c: nat): Envelope.SecCtx
    decreases |es|
  {
    if es == [] then Unsecured()
    else
      var front := es[..|es| - 1];
      SecurityAfter(SecurityOf(front, c), Run(INITIAL, front), es[|es| - 1], c)
  }

  /** What a step leaves and sends is under the security context it makes. */
  ghost predicate Secures(s: State, s': State, after: nat -> Envelope.SecCtx) {
    && s'.next >= s.next && s'.gutiIndex == s.gutiIndex && s.log <= s'.log
    && (forall c :: c in s'.ctxs ==> (c in s.ctxs || s.next <= c < s'.next) && s'.ctxs[c].sec == after(c))
    && (forall j :: |s.log| <= j < |s'.log| && s'.log[j].Sent? && s'.log[j].msg.Protected? ==>
          s'.log[j].c in s.ctxs && s'.log[j].msg.sec == after(s'.log[j].c))
  }

  /** Nothing is done to any security context. */
  ghost predicate Kept(s: State, s': State) {
    && s'.next == s.next && s'.gutiIndex == s.gutiIndex && s.log <= s'.log
    && (forall c :: c in s'.ctxs ==> c in s.ctxs && s'.ctxs[c].sec == s.ctxs[c].sec)
    && (forall j :: |s.log| <= j < |s'.log| ==> SentAsWas(s, s'.log[j]))
  }

  /** If it is a message, it is no command, and protected as `s` has it. */
  predicate SentAsWas(s: State, e: Entry) {
    && !IsCommand(e)
    && (e.Sent? && e.msg.Protected? ==> e.c in s.ctxs && e.msg.sec == s.ctxs[e.c].sec)
  }

  lemma NoteKept(s: State, s1: State, e: Entry)
    requires Kept(s, s1) && SentAsWas(s, e)
    ensures Kept(s, Note(s1, e))
  {
  }

  lemma PutKept(s: State, s1: State, c: nat, x: NasContext)
    requires Kept(s, s1) && c in s1.ctxs && x.sec == s1.ctxs[c].sec
    ensures Kept(s, Put(s1, c, x))
  {
  }

  lemma SendCipheredKept(s: State, s1: State, c: nat, k: Kind)
    requires Kept(s, s1) && c in s1.ctxs && !k.SecurityModeCommand?
    ensures Kept(s, SendCiphered(s1, c, k))
  {
    var e := Sent(c, CipheredMessage(s1, c, k, s1.ctxs[c].sec.wide));
    NoteKept(s, s1, e);
    PutKept(s, Note(s1, e), c, Bump(s1.ctxs[c]));
  }

  lemma SendSessionKept(s: State, s1: State, c: nat)
    requires Kept(s, s1) && c in s1.ctxs
    ensures Kept(s, SendSession(s1, c))
  {
    var m := s1.ctxs[c].sm;
    var k := if m.isAccept then SessionAccept(m.Sid(m.isIms), m.Pti(m.isIms)) else SessionAuthResult;
    var f := Find(s1, s1.rntiIndex, s1.ctxs[c].rnti);
    if f.Live? { SendCipheredKept(s, s1, f.id, k); }
  }

  lemma HandleSessionKept(s: State, rnti: nat, p: SmPdu)
    ensures Kept(s, HandleSession(s, rnti, p))
  {
    var f := Find(s, s.rntiIndex, rnti);
    if f.Live? {
      var x := s.ctxs[f.id];
      var e := SmReceived(f.id, p.sid, p.kind, p.pti);
      NoteKept(s, s, e);
      PutKept(s, Note(s, e), f.id, x.(sm := AfterMessage(x.sm, p)));
      SendSessionKept(s, Marked(s, f.id, p), f.id);
    }
  }

  lemma DeregisterKept(s: State, tmsi: Option<nat>, off: bool)
    ensures Kept(s, Deregister(s, tmsi, off))
  {
  }

  lemma RequestServiceKept(s: State, rnti: nat, tmsi: nat)
    ensures Kept(s, RequestService(s, rnti, tmsi))
  {
  }

  lemma InPlaceKept(s: State, rnti: nat)
    ensures Kept(s, CompleteRegistration(s, rnti)) && Kept(s, SetIdle(s, rnti)) && Kept(s, CompleteSecurityMode(s, rnti))
  {
    var f := Find(s, s.rntiIndex, rnti);
    if f.Live? {
      var c, x := f.id, s.ctxs[f.id];
      PutKept(s, s, c, x.(mm := Registered, cm := Connected));
      PutKept(s, s, c, x.(cm := Idle));
      NoteKept(s, s, SmcHandled(c));
      PutKept(s, Note(s, SmcHandled(c)), c, x.(regPending := true));
    }
  }

  lemma SendAcceptKept(s: State, rnti: nat)
    ensures Kept(s, SendAccept(s, rnti))
  {
    var f := Find(s, s.rntiIndex, rnti);
    if f.Live? {
      if s.ctxs[f.id].regPending {
        SendCipheredKept(s, GivenTmsi(s, f.id), f.id, RegistrationAccept);
      } else if s.ctxs[f.id].svcPending {
        SendCipheredKept(s, ServiceCleared(s, f.id), f.id, ServiceAccept);
      }
    }
  }

  lemma NetworkKept(s: State, rnti: nat, flag: nat)
    ensures Kept(s, UpdateConfiguration(s, rnti)) && Kept(s, ModifyVoice(s, rnti, flag)) && Kept(s, Release(s, rnti))
  {
    var f := Find(s, s.rntiIndex, rnti);
    if f.Live? {
      SendCipheredKept(s, s, f.id, ConfigurationUpdate);
      NoteKept(s, s, Sent(f.id, CipheredMessage(s, f.id, VoiceModification, s.ctxs[f.id].sec.wide)));
      NoteKept(s, s, Deleted(f.id));
    }
  }

  /** The three messages that change a security context. */
  predicate Touches(m: UplinkMessage) {
    m.RegistrationRequest? || m.AuthenticationResponse? || m.AuthenticationFailure?
  }

  lemma DispatchKept(s: State, rnti: nat, m: UplinkMessage)
    requires !Touches(m)
    ensures Kept(s, Dispatch(s, rnti, m))
  {
    match m
    case DeregistrationRequest(t, off) => DeregisterKept(s, t, off);
    case ServiceRequest(t) => RequestServiceKept(s, rnti, t);
    case UlNasTransport(sm) => if sm.Some? { HandleSessionKept(s, rnti, sm.value); }
    case IdentityResponse(id) =>
    case _ => InPlaceKept(s, rnti);
  }

  // ------------------------------------------------- steps

  lemma RegisterSecures(s: State, rnti: nat, id: Identity, after: nat -> Envelope.SecCtx)
    requires s.gutiIndex == map[] && s.next !in s.ctxs
    requires forall c :: c in s.ctxs ==> after(c) == s.ctxs[c].sec
    requires after(s.next) == if id.Suci? then Unsecured().(cipher := id.cipher, integ := id.integ) else Unsecured()
    ensures Secures(s, Register(s, rnti, id), after)
  {
  }

  lemma AnswerSecures(s: State, rnti: nat, ok: bool, wide: bool, kEnc: seq<byte>, kInt: seq<byte>, after: nat -> Envelope.SecCtx)
    requires forall c :: c in s.ctxs ==>
               after(c) == if !LeadsTo(s, rnti, c) then s.ctxs[c].sec
                           else if ok then Envelope.SecCtx(wide, s.ctxs[c].sec.cipher, s.ctxs[c].sec.integ, kEnc, kInt)
                           else s.ctxs[c].sec.(wide := wide)
    ensures Secures(s, AnswerAuthentication(s, rnti, ok, wide, kEnc, kInt), after)
  {
    if Find(s, s.rntiIndex, rnti).Live? { AnswerDecided(s, rnti, ok, wide, kEnc, kInt); }
  }

  lemma FailureSecures(s: State, rnti: nat, after: nat -> Envelope.SecCtx)
    requires forall c :: c in s.ctxs ==> after(c) == if LeadsTo(s, rnti, c) then Unsecured() else s.ctxs[c].sec
    ensures Secures(s, FailAuthentication(s, rnti), after)
  {
  }

  /** `was` are the security contexts before the step. */
  ghost predicate Before(s: State, was: nat -> Envelope.SecCtx) {
    s.gutiIndex == map[] && s.next !in s.ctxs && forall c :: c in s.ctxs ==> was(c) == s.ctxs[c].sec
  }

  function After(s: State, e: Event, was: nat -> Envelope.SecCtx): nat -> Envelope.SecCtx {
    (c: nat) => SecurityAfter(was(c), s, e, c)
  }

  lemma DispatchSecures(s: State, e: Event, was: nat -> Envelope.SecCtx)
    requires e.Uplink? && Dispatched(s, e) && Before(s, was)
    ensures Secures(s, Dispatch(s, e.rnti, e.body.value), After(s, e, was))
  {
    var m, after := e.body.value, After(s, e, was);
    assert after(s.next) == SecurityAfter(was(s.next), s, e, s.next);
    match m
    case RegistrationRequest(id) => RegisterSecures(s, e.rnti, id, after);
    case AuthenticationResponse(ok, wide, kEnc, kInt) => AnswerSecures(s, e.rnti, ok, wide, kEnc, kInt, after);
    case AuthenticationFailure => FailureSecures(s, e.rnti, after);
    case _ => DispatchKept(s, e.rnti, m);
  }

  lemma KeptSecures(s: State, s': State, e: Event, was: nat -> Envelope.SecCtx)
    requires Kept(s, s') && Before(s, was) && forall c: nat :: After(s, e, was)(c) == was(c)
    ensures Secures(s, s', After(s, e, was))
  {
  }

  lemma UplinkSecures(s: State, e: Event, was: nat -> Envelope.SecCtx)
    requires Before(s, was) && e.Uplink? && s.fault.NoFault?
    ensures Secures(s, HandleUplink(s, e), After(s, e, was))
  {
    if Dispatched(s, e) { DispatchSecures(s, e, was); } else { KeptSecures(s, HandleUplink(s, e), e, was); }
  }

  lemma StepSecures(s: State, e: Event, was: nat -> Envelope.SecCtx)
    requires Before(s, was)
    ensures Secures(s, Step(s, e), After(s, e, was))
  {
    if s.fault.NoFault? {
      match e
      case Uplink(_, _, _, _, _) => UplinkSecures(s, e, was);
      case AcceptTrigger(r) => SendAcceptKept(s, r); KeptSecures(s, SendAccept(s, r), e, was);
      case RrcRelease(r) => NetworkKept(s, r, r); KeptSecures(s, Release(s, r), e, was);
      case UserRelease(r) => InPlaceKept(s, r); KeptSecures(s, SetIdle(s, r), e, was);
      case ConfigUpdate(r) => NetworkKept(s, r, r); KeptSecures(s, UpdateConfiguration(s, r), e, was);
      case VoiceModify(r, flag) => NetworkKept(s, r, flag); KeptSecures(s, ModifyVoice(s, r, flag), e, was);
    }
  }

  // ------------------------------------------------- runs

  function History(es: seq<Event>): nat -> Envelope.SecCtx { (c: nat) => SecurityOf(es, c) }

  ghost predicate Secured(es: seq<Event>) {
    var s := Run(INITIAL, es);
    s.gutiIndex == map[] && forall c :: c in s.ctxs ==> c < s.next && s.ctxs[c].sec == SecurityOf(es, c)
  }

  lemma LastSecures(es: seq<Event>)
    requires es != [] && Secured(es[..|es| - 1])
    ensures Secures(Run(INITIAL, es[..|es| - 1]), Run(INITIAL, es), History(es))
  {
    var front, e := es[..|es| - 1], es[|es| - 1];
    var s := Run(INITIAL, front);
    StepSecures(s, e, History(front));
    assert forall c: nat :: After(s, e, History(front))(c) == History(es)(c);
  }

  /** On every run the security context of every UE is the one its history makes:
      the algorithms of its registration, the keys of the last response whose RES
      was right, unless a failure wiped them since. */
  lemma {:induction false} RunSecured(es: seq<Event>)
    ensures Secured(es)
  {
    if es != [] {
      var front := es[..|es| - 1];
      RunSecured(front);
      LastSecures(es);
    }
  }

  /** The event at `n` added entry `j` to the log. */
  ghost predicate AddedBy(es: seq<Event>, n: nat, j: nat)
    requires n < |es|
  { |Run(INITIAL, es[..n]).log| <= j < |Run(INITIAL, es[..n + 1]).log| }

  lemma {:induction false} LogGrows(es: seq<Event>)
    ensures es != [] ==> Run(INITIAL, es[..|es| - 1]).log <= Run(INITIAL, es).log
  {
    if es != [] {
      RunSecured(es[..|es| - 1]);
      LastSecures(es);
    }
  }

  lemma {:induction false} AddedSomewhere(es: seq<Event>, j: nat) returns (n: nat)
    requires j < |Run(INITIAL, es).log|
    ensures n < |es| && AddedBy(es, n, j) && Run(INITIAL, es).log[j] == Run(INITIAL, es[..n + 1]).log[j]
  {
    var front := es[..|es| - 1];
    LogGrows(es);
    if j < |Run(INITIAL, front).log| {
      n := AddedSomewhere(front, j);
      assert front[..n] == es[..n] && front[..n + 1] == es[..n + 1];
    } else {
      n := |es| - 1;
      assert es[..n + 1] == es;
    }
  }

  /** Every protected message of every run is protected under the algorithms and
      keys its context has by its history at that point. */
  lemma {:induction false} SentUnderSecurity(es: seq<Event>, j: nat)
    requires j < |Run(INITIAL, es).log|
    ensures var e := Run(INITIAL, es).log[j];
            e.Sent? && e.msg.Protected? ==>
              exists n :: 0 <= n < |es| && AddedBy(es, n, j) && e.msg.sec == SecurityOf(es[..n + 1], e.c)
  {
    var n := AddedSomewhere(es, j);
    var e := Run(INITIAL, es).log[j];
    if e.Sent? && e.msg.Protected? {
      RunSecured(es[..n]);
      assert es[..n + 1][..n] == es[..n];
      LastSecures(es[..n + 1]);
      assert e.msg.sec == SecurityOf(es[..n + 1], e.c);
    }
  }

  // ------------------------------------------------- commands

  /** The event is an Authentication Response with the RES expected, on an RNTI
      that leads to `c`, and brings these keys. */
  predicate Matching(s: State, e: Event, c: nat, kEnc: seq<byte>, kInt: seq<byte>) {
    && e.Uplink? && Dispatched(s, e) && LeadsTo(s, e.rnti, c)
    && e.body.value.AuthenticationResponse? && e.body.value.resMatches
    && e.body.value.kEnc == kEnc && e.body.value.kInt == kInt
  }

  predicate IsCommand(e: Entry) { e.Sent? && e.msg.kind.SecurityModeCommand? }

  ghost predicate EarnedAt(s: State, e: Event, log: seq<Entry>, j: nat)
    requires j < |log| && IsCommand(log[j])
  {
    j == |s.log| && log[j].msg.Protected? && Matching(s, e, log[j].c, log[j].msg.sec.kEnc, log[j].msg.sec.kInt)
  }

  ghost predicate NoCommand(s: State, s': State) {
    s.log <= s'.log && forall j :: |s.log| <= j < |s'.log| ==> !IsCommand(s'.log[j])
  }

  lemma OtherCommands(s: State, e: Event)
    requires e.Uplink? && Dispatched(s, e) && s.gutiIndex == map[] && !e.body.value.AuthenticationResponse?
    ensures NoCommand(s, Dispatch(s, e.rnti, e.body.value))
  {
    var m := e.body.value;
    if m.RegistrationRequest? { RegisterCommands(s, e.rnti, m.id); }
    else if m.AuthenticationFailure? { FailureCommands(s, e.rnti); }
    else { KeptCommands(s, e.rnti, m); }
  }

  lemma KeptCommands(s: State, rnti: nat, m: UplinkMessage)
    requires !Touches(m)
    ensures NoCommand(s, Dispatch(s, rnti, m))
  {
    DispatchKept(s, rnti, m);
  }

  lemma RegisterCommands(s: State, rnti: nat, id: Identity)
    requires s.gutiIndex == map[]
    ensures NoCommand(s, Register(s, rnti, id))
  {
  }

  lemma FailureCommands(s: State, rnti: nat)
    ensures NoCommand(s, FailAuthentication(s, rnti))
  {
  }

  lemma AnswerCommands(s: State, e: Event, j: nat)
    requires e.Uplink? && Dispatched(s, e) && e.body.value.AuthenticationResponse?
    requires var log := Dispatch(s, e.rnti, e.body.value).log; |s.log| <= j < |log| && IsCommand(log[j])
    ensures EarnedAt(s, e, Dispatch(s, e.rnti, e.body.value).log, j)
  {
    var m := e.body.value;
    if Find(s, s.rntiIndex, e.rnti).Live? { AnswerDecided(s, e.rnti, m.resMatches, m.wide, m.kEnc, m.kInt); }
  }

  lemma StepCommands(s: State, e: Event, j: nat)
    requires s.gutiIndex == map[] && |s.log| <= j < |Step(s, e).log| && IsCommand(Step(s, e).log[j])
    ensures EarnedAt(s, e, Step(s, e).log, j)
  {
    match e
    case Uplink(_, _, _, _, _) =>
      if e.body.value.AuthenticationResponse? { AnswerCommands(s, e, j); } else { OtherCommands(s, e); }
    case AcceptTrigger(r) => SendAcceptKept(s, r);
    case RrcRelease(r) => NetworkKept(s, r, r);
    case UserRelease(r) => InPlaceKept(s, r);
    case ConfigUpdate(r) => NetworkKept(s, r, r);
    case VoiceModify(r, flag) => NetworkKept(s, r, flag);
  }

  /** No Security Mode Command without the response that earned it: each one of
      every run is the one message of an Authentication Response whose RES was
      right, sent to the context that response came from, under its keys. */
  lemma {:induction false} CommandsEarned(es: seq<Event>, j: nat)
    requires j < |Run(INITIAL, es).log| && IsCommand(Run(INITIAL, es).log[j])
    ensures var e := Run(INITIAL, es).log[j];
            && e.msg.Protected?
            && exists n :: 0 <= n < |es| && |Run(INITIAL, es[..n]).log| == j
                           && Matching(Run(INITIAL, es[..n]), es[n], e.c, e.msg.sec.kEnc, e.msg.sec.kInt)
  {
    var n := AddedSomewhere(es, j);
    RunSecured(es[..n]);
    assert es[..n + 1][..n] == es[..n];
    StepCommands(Run(INITIAL, es[..n]), es[n], j);
  }
}

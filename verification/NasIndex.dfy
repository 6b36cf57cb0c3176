/** The RNTI and TMSI indexes: when they stay sound, and what goes wrong
    otherwise. */
module NasIndex {
  import opened Options
  import opened Bytes
  import opened NasEngine
  import Envelope

  /** Each RNTI entry names a live context that records that very RNTI; each
      TMSI entry names a live context the RNTI index also leads to. */
  ghost predicate IndexSound(s: State) {
    && (forall r :: r in s.rntiIndex ==> s.rntiIndex[r] in s.ctxs && s.ctxs[s.rntiIndex[r]].rnti == r)
    && (forall t :: t in s.tmsiIndex ==>
          && t == TMSI && s.tmsiIndex[t] in s.ctxs && s.ctxs[s.tmsiIndex[t]].tmsi == t
          && s.ctxs[s.tmsiIndex[t]].rnti in s.rntiIndex
          && s.rntiIndex[s.ctxs[s.tmsiIndex[t]].rnti] == s.tmsiIndex[t])
    && (forall c :: c in s.ctxs ==> c < s.next) && s.gutiIndex == map[]
  }

  /** A context is deleted at most once, and is gone afterwards. */
  ghost predicate DeletedOnce(s: State) {
    && (forall i :: 0 <= i < |s.log| && s.log[i].Deleted? ==> s.log[i].c < s.next && s.log[i].c !in s.ctxs)
    && (forall i, j :: 0 <= i < j < |s.log| && s.log[i].Deleted? && s.log[j].Deleted? ==> s.log[i].c != s.log[j].c)
  }

  ghost predicate Safe(s: State) {
    IndexSound(s) && DeletedOnce(s) && !s.fault.Dangling? && !s.fault.DoubleFree?
  }

  /** A Service Request that is dispatched and finds a context comes on the RNTI
      the context already records. */
  predicate Disciplined(s: State, e: Event) {
    e.Uplink? && Dispatched(s, e) && e.body.value.ServiceRequest? ==>
      var f := Find(s, s.tmsiIndex, e.body.value.tmsi);
      f.Live? ==> s.ctxs[f.id].rnti == e.rnti
  }

  ghost predicate DisciplinedRun(s: State, es: seq<Event>)
    decreases |es|
  {
    es != [] ==>
      DisciplinedRun(s, es[..|es| - 1]) && Disciplined(Run(s, es[..|es| - 1]), es[|es| - 1])
  }

  // ------------------------------------------------- building blocks

  lemma NeverDead(s: State, key: nat)
    requires Safe(s)
    ensures !Find(s, s.rntiIndex, key).Dead? && !Find(s, s.tmsiIndex, key).Dead?
  {
  }

  lemma PutSafe(s: State, c: nat, x: NasContext)
    requires Safe(s) && c in s.ctxs && x.rnti == s.ctxs[c].rnti && x.tmsi == s.ctxs[c].tmsi
    ensures Safe(Put(s, c, x))
  {
  }

  lemma NoteSafe(s: State, e: Entry)
    requires Safe(s) && !e.Deleted?
    ensures Safe(Note(s, e))
  {
  }

  /** What a handler may do to its own context: note something harmless and
      rewrite it in place. */
  lemma NotePutSafe(s: State, e: Entry, c: nat, x: NasContext)
    requires Safe(s) && !e.Deleted? && c in s.ctxs && x.rnti == s.ctxs[c].rnti && x.tmsi == s.ctxs[c].tmsi
    ensures Safe(Put(Note(s, e), c, x))
  {
    NoteSafe(s, e);
    PutSafe(Note(s, e), c, x);
  }

  lemma SendCipheredSafe(s: State, c: nat, k: Kind)
    requires Safe(s) && c in s.ctxs
    ensures Safe(SendCiphered(s, c, k))
  {
    NotePutSafe(s, Sent(c, CipheredMessage(s, c, k, s.ctxs[c].sec.wide)), c, Bump(s.ctxs[c]));
  }

  // ------------------------------------------------- handlers

  lemma BornSafe(s: State, rnti: nat, sec: Envelope.SecCtx)
    requires Safe(s)
    ensures Safe(Born(s, rnti, sec))
  {
    var s0 := Put(s.(next := s.next + 1), s.next, NewContext(rnti, sec));
    assert Safe(s0);
    NoteSafe(s0, Created(s.next));
  }

  lemma IndexedSafe(s: State, rnti: nat, c: nat)
    requires Safe(s) && c in s.ctxs && s.ctxs[c].rnti == rnti
    ensures Safe(Indexed(s, rnti, c))
  {
  }

  lemma RegisterSafe(s: State, rnti: nat, id: Identity)
    requires Safe(s)
    ensures Safe(Register(s, rnti, id))
  {
    if !id.OtherIdentity? {
      var sec := if id.Suci? then FreshSec().(cipher := id.cipher, integ := id.integ) else FreshSec();
      var s1, c := Born(s, rnti, sec), s.next;
      BornSafe(s, rnti, sec);
      IndexedSafe(s1, rnti, c);
      NoteSafe(Indexed(s1, rnti, c), Sent(c, Plain(AuthRequest)));
    }
  }

  lemma RequestServiceSafe(s: State, rnti: nat, tmsi: nat)
    requires Safe(s) && (Find(s, s.tmsiIndex, tmsi).Live? ==> s.ctxs[s.tmsiIndex[tmsi]].rnti == rnti)
    ensures Safe(RequestService(s, rnti, tmsi))
  {
  }

  lemma DeregisterSafe(s: State, tmsi: Option<nat>, off: bool)
    requires Safe(s)
    ensures Safe(Deregister(s, tmsi, off))
  {
  }

  lemma SendSessionSafe(s: State, c: nat)
    requires Safe(s) && c in s.ctxs
    ensures Safe(SendSession(s, c))
  {
    NeverDead(s, s.ctxs[c].rnti);
    var m := s.ctxs[c].sm;
    var k := if m.isAccept then SessionAccept(m.Sid(m.isIms), m.Pti(m.isIms)) else SessionAuthResult;
    var f := Find(s, s.rntiIndex, s.ctxs[c].rnti);
    if f.Live? { SendCipheredSafe(s, f.id, k); }
  }

  lemma HandleSessionSafe(s: State, rnti: nat, p: SmPdu)
    requires Safe(s)
    ensures Safe(HandleSession(s, rnti, p))
  {
    NeverDead(s, rnti);
    var f := Find(s, s.rntiIndex, rnti);
    if f.Live? {
      var x := s.ctxs[f.id];
      NotePutSafe(s, SmReceived(f.id, p.sid, p.kind, p.pti), f.id, x.(sm := AfterMessage(x.sm, p)));
      SendSessionSafe(Marked(s, f.id, p), f.id);
    }
  }

  lemma AnswerSafe(s: State, rnti: nat, ok: bool, wide: bool, kEnc: seq<byte>, kInt: seq<byte>)
    requires Safe(s)
    ensures Safe(AnswerAuthentication(s, rnti, ok, wide, kEnc, kInt))
  {
    NeverDead(s, rnti);
    var f := Find(s, s.rntiIndex, rnti);
    if f.Live? {
      var c := f.id;
      var x := s.ctxs[c].(sec := s.ctxs[c].sec.(wide := wide));
      if ok {
        var y := x.(ul := 0, sec := x.sec.(kEnc := kEnc, kInt := kInt));
        PutSafe(s, c, y);
        NotePutSafe(Put(s, c, y), Sent(c, WithMac(Put(s, c, y), c, Draft(SecurityModeCommand, wide, 0, None))), c, Bump(y));
      } else {
        NotePutSafe(s, Sent(c, Plain(AuthReject)), c, Bump(x));
      }
    }
  }

  lemma GivenTmsiSafe(s: State, c: nat, rnti: nat)
    requires Safe(s) && rnti in s.rntiIndex && s.rntiIndex[rnti] == c
    ensures Safe(GivenTmsi(s, c))
  {
  }

  lemma SendAcceptSafe(s: State, rnti: nat)
    requires Safe(s)
    ensures Safe(SendAccept(s, rnti))
  {
    NeverDead(s, rnti);
    var f := Find(s, s.rntiIndex, rnti);
    if f.Live? {
      GivenTmsiSafe(s, f.id, rnti);
      SendCipheredSafe(GivenTmsi(s, f.id), f.id, RegistrationAccept);
      PutSafe(s, f.id, s.ctxs[f.id].(svcPending := false));
      SendCipheredSafe(ServiceCleared(s, f.id), f.id, ServiceAccept);
    }
  }

  lemma ReleaseSafe(s: State, rnti: nat)
    requires Safe(s)
    ensures Safe(Release(s, rnti))
  {
  }

  lemma InPlaceSafe(s: State, rnti: nat)
    requires Safe(s)
    ensures Safe(CompleteRegistration(s, rnti)) && Safe(SetIdle(s, rnti))
    ensures Safe(CompleteSecurityMode(s, rnti)) && Safe(FailAuthentication(s, rnti))
  {
    NeverDead(s, rnti);
    var f := Find(s, s.rntiIndex, rnti);
    if f.Live? {
      var x := s.ctxs[f.id];
      PutSafe(s, f.id, x.(mm := Registered, cm := Connected));
      PutSafe(s, f.id, x.(cm := Idle));
      NotePutSafe(s, SmcHandled(f.id), f.id, x.(regPending := true));
      NotePutSafe(s, Reset(f.id), f.id, x.(ul := 0, dl := 0, sec := FreshSec()));
    }
  }

  lemma NetworkSafe(s: State, rnti: nat, flag: nat)
    requires Safe(s)
    ensures Safe(UpdateConfiguration(s, rnti)) && Safe(ModifyVoice(s, rnti, flag))
  {
    NeverDead(s, rnti);
    var f := Find(s, s.rntiIndex, rnti);
    if f.Live? {
      SendCipheredSafe(s, f.id, ConfigurationUpdate);
      NoteSafe(s, Sent(f.id, CipheredMessage(s, f.id, VoiceModification, s.ctxs[f.id].sec.wide)));
    }
  }

  lemma DispatchSafe(s: State, rnti: nat, m: UplinkMessage)
    requires Safe(s)
    requires m.ServiceRequest? && Find(s, s.tmsiIndex, m.tmsi).Live? ==> s.ctxs[s.tmsiIndex[m.tmsi]].rnti == rnti
    ensures Safe(Dispatch(s, rnti, m))
  {
    match m
    case RegistrationRequest(id) => RegisterSafe(s, rnti, id);
    case DeregistrationRequest(t, off) => DeregisterSafe(s, t, off);
    case ServiceRequest(t) => RequestServiceSafe(s, rnti, t);
    case AuthenticationResponse(ok, wide, kEnc, kInt) => AnswerSafe(s, rnti, ok, wide, kEnc, kInt);
    case UlNasTransport(sm) => if sm.Some? { HandleSessionSafe(s, rnti, sm.value); }
    case IdentityResponse(id) => NeverDead(s, rnti);
    case _ => InPlaceSafe(s, rnti);
  }

  lemma UplinkSafe(s: State, e: Event)
    requires e.Uplink? && Safe(s) && s.fault.NoFault? && Disciplined(s, e)
    ensures Safe(HandleUplink(s, e))
  {
    NeverDead(s, e.rnti);
    if Dispatched(s, e) { DispatchSafe(s, e.rnti, e.body.value); }
  }

  lemma StepSafe(s: State, e: Event)
    requires Safe(s) && Disciplined(s, e)
    ensures Safe(Step(s, e))
  {
    if s.fault.NoFault? {
      match e
      case Uplink(_, _, _, _, _) => UplinkSafe(s, e);
      case AcceptTrigger(r) => SendAcceptSafe(s, r);
      case RrcRelease(r) => ReleaseSafe(s, r);
      case UserRelease(r) => InPlaceSafe(s, r);
      case ConfigUpdate(r) => NetworkSafe(s, r, 0);
      case VoiceModify(r, flag) => NetworkSafe(s, r, flag);
    }
  }

  /** For any number of UEs and any disciplined run: the indexes are sound, no
      context is deleted twice, and no deleted context is ever used. */
  lemma {:induction false} RunSafe(es: seq<Event>)
    requires DisciplinedRun(INITIAL, es)
    ensures Safe(Run(INITIAL, es))
  {
    if es != [] {
      RunSafe(es[..|es| - 1]);
      StepSafe(Run(INITIAL, es[..|es| - 1]), es[|es| - 1]);
    }
  }

  /** The discipline is exactly what one Service Request needs. */
  lemma ServiceRequestExactly(s: State, rnti: nat, tmsi: nat)
    requires Safe(s) && s.fault.NoFault? && tmsi in s.tmsiIndex
    ensures IndexSound(RequestService(s, rnti, tmsi)) <==> rnti == s.ctxs[s.tmsiIndex[tmsi]].rnti
  {
    var c := s.tmsiIndex[tmsi];
    if rnti == s.ctxs[c].rnti {
      RequestServiceSafe(s, rnti, tmsi);
    } else {
      var s' := RequestService(s, rnti, tmsi);
      assert s.ctxs[c].rnti in s'.rntiIndex && s'.rntiIndex[s.ctxs[c].rnti] == c;
    }
  }

  /** One event, from a safe state. */
  lemma StepExactly(s: State, e: Event)
    requires Safe(s)
    ensures IndexSound(Step(s, e)) <==> Disciplined(s, e)
  {
    if Disciplined(s, e) {
      StepSafe(s, e);
    } else {
      var tmsi := e.body.value.tmsi;
      ServiceRequestExactly(s, e.rnti, tmsi);
    }
  }

  ghost predicate SoundThroughout(es: seq<Event>) {
    forall n :: 0 <= n <= |es| ==> IndexSound(Run(INITIAL, es[..n]))
  }

  /** The indexes are sound all along a run exactly when every Service Request
      it dispatches comes on the recorded RNTI. */
  lemma {:induction false} SoundThroughoutExactly(es: seq<Event>)
    ensures SoundThroughout(es) <==> DisciplinedRun(INITIAL, es)
    decreases |es|
  {
    if es != [] {
      var front, e := es[..|es| - 1], es[|es| - 1];
      SoundThroughoutExactly(front);
      assert es[..|es|] == es;
      assert forall n :: 0 <= n <= |front| ==> front[..n] == es[..n];
      if DisciplinedRun(INITIAL, front) {
        RunSafe(front);
        StepExactly(Run(INITIAL, front), e);
      }
    } else {
      assert es[..0] == [];
    }
  }

  function Initial(rnti: nat, m: UplinkMessage): Event { Uplink(rnti, true, PlainNas, Opened, Some(m)) }

  /** Registration on RNTI 1, Service Request on RNTI 2, deregistration, and
      release of RNTI 1. */
  const STRAY: seq<Event> :=
    [Initial(1, RegistrationRequest(Suci(true, Envelope.EEA0, Envelope.EIA0)))] + [Initial(1, SecurityModeComplete)] + [AcceptTrigger(1)]
    + [Initial(2, ServiceRequest(TMSI))] + [Initial(2, DeregistrationRequest(Some(TMSI), true))] + [RrcRelease(1)]

  lemma StrayRegisters()
    ensures var s := Run(INITIAL, STRAY[..3]);
            s.fault.NoFault? && s.tmsiIndex == map[TMSI := 0] && s.rntiIndex == map[1 := 0] && s.ctxs.Keys == {0}
  {
    RunSnoc(INITIAL, [], STRAY[0]);
    RunSnoc(INITIAL, [STRAY[0]], STRAY[1]);
    RunSnoc(INITIAL, [STRAY[0]] + [STRAY[1]], STRAY[2]);
    assert [] + [STRAY[0]] == [STRAY[0]] && STRAY[..3] == [STRAY[0]] + [STRAY[1]] + [STRAY[2]];
    var s1 := Step(INITIAL, STRAY[0]);
    assert s1.ctxs == map[0 := NewContext(1, FreshSec())] && s1.rntiIndex == map[1 := 0] && s1.tmsiIndex == map[];
    var s2 := Step(s1, STRAY[1]);
    assert s2.ctxs == map[0 := NewContext(1, FreshSec()).(regPending := true)] && s2.rntiIndex == map[1 := 0];
  }

  lemma StrayEnds(s: State)
    requires s.fault.NoFault? && s.tmsiIndex == map[TMSI := 0] && s.rntiIndex == map[1 := 0] && s.ctxs.Keys == {0}
    ensures Step(Step(Step(s, STRAY[3]), STRAY[4]), STRAY[5]).fault == DoubleFree
  {
    var s4 := Step(s, STRAY[3]);
    assert s4.rntiIndex == map[1 := 0, 2 := 0] && s4.ctxs.Keys == {0} && s4.ctxs[0].rnti == 2;
    var s5 := Step(s4, STRAY[4]);
    assert s5.rntiIndex == map[1 := 0] && s5.ctxs == map[];
  }

  /** Without the discipline one context is freed twice. */
  lemma StrayServiceRequest()
    ensures Run(INITIAL, STRAY).fault == DoubleFree
    ensures !DisciplinedRun(INITIAL, STRAY)
  {
    StrayRegisters();
    StrayEnds(Run(INITIAL, STRAY[..3]));
    RunSnoc(INITIAL, STRAY[..3], STRAY[3]);
    RunSnoc(INITIAL, STRAY[..4], STRAY[4]);
    RunSnoc(INITIAL, STRAY[..5], STRAY[5]);
    assert STRAY[..4] == STRAY[..3] + [STRAY[3]] && STRAY[..5] == STRAY[..4] + [STRAY[4]];
    assert STRAY == STRAY[..5] + [STRAY[5]];
    if DisciplinedRun(INITIAL, STRAY) { RunSafe(STRAY); }
  }
}

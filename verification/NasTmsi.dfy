/** The one 5G-TMSI the network hands out: which context it leads to, and what
    that means for a second UE (srscnw/src/nas_mm.cc:1063-1072). */
module NasTmsi {
  import opened Options
  import opened Bytes
  import opened NasEngine
  import opened NasIndex
  import Envelope

  predicate Gives(e: Entry) { e.Sent? && e.msg.kind.RegistrationAccept? }

  /** The context that got the first Registration Accept since a context was
      last deleted. */
  function Holder(log: seq<Entry>): Option<nat>
    decreases |log|
  {
    if log == [] then None
    else
      var e, front := log[|log| - 1], Holder(log[..|log| - 1]);
      if e.Deleted? then None
      else if Gives(e) && front.None? then Some(e.c)
      else front
  }

  function TmsiEntry(s: State): Option<nat> {
    if TMSI in s.tmsiIndex then Some(s.tmsiIndex[TMSI]) else None
  }

  ghost predicate Held(s: State) {
    s.gutiIndex == map[] && s.tmsiIndex.Keys <= {TMSI} && TmsiEntry(s) == Holder(s.log)
  }

  lemma HolderNote(log: seq<Entry>, e: Entry)
    ensures Holder(log + [e]) ==
            if e.Deleted? then None
            else if Gives(e) && Holder(log).None? then Some(e.c) else Holder(log)
  {
    assert (log + [e])[..|log|] == log;
  }

  // ------------------------------------------------- steps that leave it alone

  predicate Aside(e: Entry) { !e.Deleted? && !Gives(e) }

  ghost predicate Quiet(s: State, s': State) {
    && s'.gutiIndex == s.gutiIndex && s'.tmsiIndex == s.tmsiIndex && s.log <= s'.log
    && forall i :: |s.log| <= i < |s'.log| ==> Aside(s'.log[i])
  }

  lemma {:induction false} AsideHolder(log: seq<Entry>, log': seq<Entry>)
    requires log <= log' && forall i :: |log| <= i < |log'| ==> Aside(log'[i])
    ensures Holder(log') == Holder(log)
    decreases |log'|
  {
    if |log| < |log'| { AsideHolder(log, log'[..|log'| - 1]); } else { assert log == log'; }
  }

  lemma QuietHolds(s: State, s': State)
    requires Held(s) && Quiet(s, s')
    ensures Held(s')
  {
    AsideHolder(s.log, s'.log);
  }

  lemma SendSessionQuiet(s: State, c: nat)
    requires c in s.ctxs
    ensures Quiet(s, SendSession(s, c))
  {
  }

  lemma HandleSessionQuiet(s: State, rnti: nat, p: SmPdu)
    ensures Quiet(s, HandleSession(s, rnti, p))
  {
    var f := Find(s, s.rntiIndex, rnti);
    if f.Live? { SendSessionQuiet(Marked(s, f.id, p), f.id); }
  }

  lemma RegisterQuiet(s: State, rnti: nat, id: Identity)
    requires s.gutiIndex == map[]
    ensures Quiet(s, Register(s, rnti, id))
  {
  }

  lemma AnswerQuiet(s: State, rnti: nat, ok: bool, wide: bool, kEnc: seq<byte>, kInt: seq<byte>)
    ensures Quiet(s, AnswerAuthentication(s, rnti, ok, wide, kEnc, kInt))
  {
  }

  lemma InPlaceQuiet(s: State, rnti: nat)
    ensures Quiet(s, CompleteRegistration(s, rnti)) && Quiet(s, SetIdle(s, rnti))
    ensures Quiet(s, FailAuthentication(s, rnti)) && Quiet(s, CompleteSecurityMode(s, rnti))
  {
  }

  lemma RequestServiceQuiet(s: State, rnti: nat, tmsi: nat)
    ensures Quiet(s, RequestService(s, rnti, tmsi))
  {
  }

  lemma NetworkQuiet(s: State, rnti: nat, flag: nat)
    ensures Quiet(s, UpdateConfiguration(s, rnti)) && Quiet(s, ModifyVoice(s, rnti, flag))
  {
  }

  lemma DispatchQuiet(s: State, rnti: nat, m: UplinkMessage)
    requires s.gutiIndex == map[] && !m.DeregistrationRequest?
    ensures Quiet(s, Dispatch(s, rnti, m))
  {
    match m
    case RegistrationRequest(id) => RegisterQuiet(s, rnti, id);
    case ServiceRequest(t) => RequestServiceQuiet(s, rnti, t);
    case AuthenticationResponse(ok, wide, kEnc, kInt) => AnswerQuiet(s, rnti, ok, wide, kEnc, kInt);
    case UlNasTransport(sm) => if sm.Some? { HandleSessionQuiet(s, rnti, sm.value); }
    case IdentityResponse(id) =>
    case _ => InPlaceQuiet(s, rnti);
  }

  // ------------------------------------------------- steps that move it

  lemma SendAcceptHolds(s: State, rnti: nat)
    requires Held(s)
    ensures Held(SendAccept(s, rnti))
  {
    var s', f := SendAccept(s, rnti), Find(s, s.rntiIndex, rnti);
    if f.Live? && (s.ctxs[f.id].regPending || s.ctxs[f.id].svcPending) {
      HolderNote(s.log, s'.log[|s.log|]);
      assert s'.log == s.log + [s'.log[|s.log|]];
    }
  }

  lemma ReleaseHolds(s: State, rnti: nat)
    requires Held(s)
    ensures Held(Release(s, rnti))
  {
    var f := Find(s, s.rntiIndex, rnti);
    if f.Live? { HolderNote(s.log, Deleted(f.id)); }
  }

  lemma DeregisterHolds(s: State, tmsi: Option<nat>, off: bool)
    requires Held(s)
    ensures Held(Deregister(s, tmsi, off))
  {
    var s' := Deregister(s, tmsi, off);
    if |s'.log| > |s.log| {
      var c := s.tmsiIndex[tmsi.value];
      HolderNote(s'.log[..|s'.log| - 1], Deleted(c));
      assert s'.log == s'.log[..|s'.log| - 1] + [Deleted(c)];
    }
  }

  lemma StepHolds(s: State, e: Event)
    requires Held(s)
    ensures Held(Step(s, e))
  {
    if s.fault.NoFault? {
      match e
      case Uplink(_, _, _, _, _) => UplinkHolds(s, e);
      case AcceptTrigger(r) => SendAcceptHolds(s, r);
      case RrcRelease(r) => ReleaseHolds(s, r);
      case UserRelease(r) => InPlaceQuiet(s, r); QuietHolds(s, SetIdle(s, r));
      case ConfigUpdate(r) => NetworkQuiet(s, r, 0); QuietHolds(s, UpdateConfiguration(s, r));
      case VoiceModify(r, flag) => NetworkQuiet(s, r, flag); QuietHolds(s, ModifyVoice(s, r, flag));
    }
  }

  lemma UplinkHolds(s: State, e: Event)
    requires e.Uplink? && Held(s) && s.fault.NoFault?
    ensures Held(HandleUplink(s, e))
  {
    if Dispatched(s, e) {
      var m := e.body.value;
      if m.DeregistrationRequest? {
        DeregisterHolds(s, m.guti, m.switchOff);
      } else {
        DispatchQuiet(s, e.rnti, m);
        QuietHolds(s, Dispatch(s, e.rnti, m));
      }
    } else {
      QuietHolds(s, HandleUplink(s, e));
    }
  }

  lemma {:induction false} RunHolds(es: seq<Event>)
    ensures Held(Run(INITIAL, es))
  {
    if es != [] {
      RunHolds(es[..|es| - 1]);
      StepHolds(Run(INITIAL, es[..|es| - 1]), es[|es| - 1]);
    }
  }

  // ------------------------------------------------- what it means

  /** On every run a Service Request, whoever sends it, is handled for `c` exactly
      when it names the TMSI and `c` got the first Registration Accept since a
      context was last deleted. */
  lemma {:induction false} ServiceReachesExactly(es: seq<Event>, rnti: nat, tmsi: nat, c: nat)
    requires Run(INITIAL, es).fault.NoFault?
    ensures var s := Run(INITIAL, es);
            Step(s, Initial(rnti, ServiceRequest(tmsi))).log == s.log + [SvcHandled(c)]
            <==> tmsi == TMSI && Holder(s.log) == Some(c) && c in s.ctxs
  {
    RunHolds(es);
    var s := Run(INITIAL, es);
    var s' := Step(s, Initial(rnti, ServiceRequest(tmsi)));
    assert |s'.log| == |s.log| + 1 ==> s'.log[|s.log|] == SvcHandled(s.tmsiIndex[tmsi]);
  }

  function Registering(rnti: nat): Event {
    Initial(rnti, RegistrationRequest(Suci(true, Envelope.EEA0, Envelope.EIA0)))
  }

  /** Two UEs register, and both are given the TMSI. */
  const BOTH: seq<Event> :=
    [Registering(1)] + [Registering(2)]
    + [Initial(1, SecurityModeComplete)] + [Initial(2, SecurityModeComplete)]
    + [AcceptTrigger(1)] + [AcceptTrigger(2)]

  ghost predicate TwoUes(s: State, pending0: bool, pending1: bool) {
    && s.fault.NoFault? && s.rntiIndex == map[1 := 0, 2 := 1] && s.ctxs.Keys == {0, 1}
    && s.ctxs[0].rnti == 1 && s.ctxs[0].regPending == pending0
    && s.ctxs[1].rnti == 2 && s.ctxs[1].regPending == pending1
  }

  lemma BothRegister()
    ensures var s := Step(Step(INITIAL, Registering(1)), Registering(2));
            TwoUes(s, false, false) && s.tmsiIndex == map[]
  {
    var s1 := Step(INITIAL, Registering(1));
    assert s1.rntiIndex == map[1 := 0] && s1.ctxs.Keys == {0} && s1.next == 1 && s1.tmsiIndex == map[];
  }

  lemma BothComplete(s: State)
    requires TwoUes(s, false, false)
    ensures var s' := Step(Step(s, Initial(1, SecurityModeComplete)), Initial(2, SecurityModeComplete));
            TwoUes(s', true, true) && s'.tmsiIndex == s.tmsiIndex
  {
    var s1 := Step(s, Initial(1, SecurityModeComplete));
    assert TwoUes(s1, true, false);
  }

  lemma BothAccepted(s: State)
    requires TwoUes(s, true, true) && s.tmsiIndex == map[]
    ensures var s' := Step(Step(s, AcceptTrigger(1)), AcceptTrigger(2));
            TwoUes(s', false, false) && s'.tmsiIndex == map[TMSI := 0] && s'.ctxs[0].tmsi == s'.ctxs[1].tmsi == TMSI
  {
    var s1 := Step(s, AcceptTrigger(1));
    assert TwoUes(s1, false, true) && s1.tmsiIndex == map[TMSI := 0] && s1.ctxs[0].tmsi == TMSI;
  }

  lemma BothRun()
    ensures var s := Run(INITIAL, BOTH);
            TwoUes(s, false, false) && s.tmsiIndex == map[TMSI := 0] && s.ctxs[0].tmsi == s.ctxs[1].tmsi == TMSI
  {
    var e := BOTH;
    BothRegister();
    var s2 := Step(Step(INITIAL, Registering(1)), Registering(2));
    BothComplete(s2);
    BothAccepted(Step(Step(s2, e[2]), e[3]));
    assert [] + [e[0]] == [e[0]];
    RunSnoc(INITIAL, [], e[0]);
    RunSnoc(INITIAL, [e[0]], e[1]);
    RunSnoc(INITIAL, [e[0]] + [e[1]], e[2]);
    RunSnoc(INITIAL, [e[0]] + [e[1]] + [e[2]], e[3]);
    RunSnoc(INITIAL, [e[0]] + [e[1]] + [e[2]] + [e[3]], e[4]);
    RunSnoc(INITIAL, [e[0]] + [e[1]] + [e[2]] + [e[3]] + [e[4]], e[5]);
    assert e == [e[0]] + [e[1]] + [e[2]] + [e[3]] + [e[4]] + [e[5]];
  }

  /** The second UE asks for service on the RNTI its own context records, with the
      TMSI it was given: the first UE's context is moved to that RNTI, and the
      indexes are unsound. */
  lemma SharedTmsi()
    ensures var s := Run(INITIAL, BOTH);
            && 0 in s.ctxs && 1 in s.ctxs && s.ctxs[1].rnti == 2 && s.ctxs[1].tmsi == TMSI
            && var s' := Step(s, Initial(2, ServiceRequest(TMSI)));
               s'.log == s.log + [SvcHandled(0)] && 0 in s'.ctxs && s'.ctxs[0].rnti == 2 && !IndexSound(s')
  {
    BothRun();
    var s := Run(INITIAL, BOTH);
    var s' := Step(s, Initial(2, ServiceRequest(TMSI)));
    assert 1 in s'.rntiIndex && s'.rntiIndex[1] == 0;
  }
}

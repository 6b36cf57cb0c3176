/** Pending accepts: every Registration or Service Accept answers a message
    that asked for one, and a trigger sends at most one of them. */
module NasPending {
  import opened Options
  import opened Bytes
  import opened NasEngine

  datatype Tallied = SmcDone | SvcDone | RegistrationAccepts | ServiceAccepts

  predicate Counts(e: Entry, c: nat, w: Tallied) {
    && e.c == c
    && match w
       case SmcDone => e.SmcHandled?
       case SvcDone => e.SvcHandled?
       case RegistrationAccepts => e.Sent? && e.msg.kind.RegistrationAccept?
       case ServiceAccepts => e.Sent? && e.msg.kind.ServiceAccept?
  }

  function Tally(log: seq<Entry>, c: nat, w: Tallied): nat
    decreases |log|
  {
    if log == [] then 0
    else Tally(log[..|log| - 1], c, w) + if Counts(log[|log| - 1], c, w) then 1 else 0
  }

  function RegFlag(s: State, c: nat): nat { if c in s.ctxs && s.ctxs[c].regPending then 1 else 0 }
  function SvcFlag(s: State, c: nat): nat { if c in s.ctxs && s.ctxs[c].svcPending then 1 else 0 }

  predicate OwedTo(s: State, c: nat) {
    && Tally(s.log, c, SmcDone) >= Tally(s.log, c, RegistrationAccepts) + RegFlag(s, c)
    && Tally(s.log, c, SvcDone) >= Tally(s.log, c, ServiceAccepts) + SvcFlag(s, c)
  }

  ghost predicate Owed(s: State) { s.gutiIndex == map[] && forall c :: OwedTo(s, c) }

  predicate Silent(e: Entry) {
    && !e.SmcHandled? && !e.SvcHandled?
    && (e.Sent? ==> !e.msg.kind.RegistrationAccept? && !e.msg.kind.ServiceAccept?)
  }

  /** Only silent entries are added and no flag is raised. */
  ghost predicate Quiet(s: State, s': State) {
    && s.log <= s'.log && s'.gutiIndex == s.gutiIndex
    && (forall i :: |s.log| <= i < |s'.log| ==> Silent(s'.log[i]))
    && (forall c :: RegFlag(s', c) <= RegFlag(s, c) && SvcFlag(s', c) <= SvcFlag(s, c))
  }

  lemma {:induction false} SilentTally(log: seq<Entry>, log': seq<Entry>, c: nat, w: Tallied)
    requires log <= log' && forall i :: |log| <= i < |log'| ==> Silent(log'[i])
    ensures Tally(log', c, w) == Tally(log, c, w)
    decreases |log'|
  {
    if |log| < |log'| {
      SilentTally(log, log'[..|log'| - 1], c, w);
    } else {
      assert log == log';
    }
  }

  lemma QuietOwes(s: State, s': State)
    requires Owed(s) && Quiet(s, s')
    ensures Owed(s')
  {
    forall c ensures OwedTo(s', c) {
      assert OwedTo(s, c);
      forall w: Tallied ensures Tally(s'.log, c, w) == Tally(s.log, c, w) { SilentTally(s.log, s'.log, c, w); }
    }
  }

  lemma NoteTally(log: seq<Entry>, e: Entry, c: nat, w: Tallied)
    ensures Tally(log + [e], c, w) == Tally(log, c, w) + if Counts(e, c, w) then 1 else 0
  {
    assert (log + [e])[..|log|] == log;
  }

  // ------------------------------------------------- handlers

  /** A handler that notes `e` and sets the flags of the context it is about. */
  lemma NotePutOwes(s: State, s': State, e: Entry, c: nat, x: NasContext)
    requires Owed(s) && c in s.ctxs && e.c == c
    requires s'.gutiIndex == s.gutiIndex && s'.log == s.log + [e] && s'.ctxs == s.ctxs[c := x]
    requires x.regPending ==> s.ctxs[c].regPending || e.SmcHandled?
    requires x.svcPending ==> s.ctxs[c].svcPending || e.SvcHandled?
    requires Counts(e, c, RegistrationAccepts) ==> s.ctxs[c].regPending && !x.regPending
    requires Counts(e, c, ServiceAccepts) ==> s.ctxs[c].svcPending && !x.svcPending
    ensures Owed(s')
  {
    forall d ensures OwedTo(s', d) {
      assert OwedTo(s, d);
      NoteTally(s.log, e, d, SmcDone);
      NoteTally(s.log, e, d, SvcDone);
      NoteTally(s.log, e, d, RegistrationAccepts);
      NoteTally(s.log, e, d, ServiceAccepts);
    }
  }

  lemma CompleteSecurityModeOwes(s: State, rnti: nat)
    requires Owed(s)
    ensures Owed(CompleteSecurityMode(s, rnti))
  {
    var f := Find(s, s.rntiIndex, rnti);
    var s' := CompleteSecurityMode(s, rnti);
    if f.Live? {
      NotePutOwes(s, s', SmcHandled(f.id), f.id, s.ctxs[f.id].(regPending := true));
    } else {
      QuietOwes(s, s');
    }
  }

  lemma RequestServiceOwes(s: State, rnti: nat, tmsi: nat)
    requires Owed(s)
    ensures Owed(RequestService(s, rnti, tmsi))
  {
    var f := Find(s, s.tmsiIndex, tmsi);
    var s' := RequestService(s, rnti, tmsi);
    if f.Live? {
      NotePutOwes(s, s', SvcHandled(f.id), f.id, Bump(s.ctxs[f.id].(rnti := rnti, svcPending := true)));
    } else {
      QuietOwes(s, s');
    }
  }

  lemma SendAcceptOwes(s: State, rnti: nat)
    requires Owed(s)
    ensures Owed(SendAccept(s, rnti))
  {
    var f := Find(s, s.rntiIndex, rnti);
    var s' := SendAccept(s, rnti);
    if !f.Live? || (!s.ctxs[f.id].regPending && !s.ctxs[f.id].svcPending) {
      QuietOwes(s, s');
    } else {
      var c, x := f.id, s.ctxs[f.id];
      var y := if x.regPending then x.(tmsi := TMSI, regPending := false) else x.(svcPending := false);
      var k := if x.regPending then RegistrationAccept else ServiceAccept;
      var s1 := if x.regPending then GivenTmsi(s, c) else ServiceCleared(s, c);
      var e := Sent(c, CipheredMessage(s1, c, k, y.sec.wide));
      assert s'.ctxs == s.ctxs[c := y][c := Bump(y)] == s.ctxs[c := Bump(y)];
      NotePutOwes(s, s', e, c, Bump(y));
    }
  }

  lemma NoteQuiet(s: State, s1: State, e: Entry)
    requires Quiet(s, s1) && Silent(e)
    ensures Quiet(s, Note(s1, e))
  {
    assert forall c :: RegFlag(Note(s1, e), c) == RegFlag(s1, c) && SvcFlag(Note(s1, e), c) == SvcFlag(s1, c);
  }

  lemma PutQuiet(s: State, s1: State, c: nat, x: NasContext)
    requires Quiet(s, s1) && c in s1.ctxs
    requires x.regPending == s1.ctxs[c].regPending && x.svcPending == s1.ctxs[c].svcPending
    ensures Quiet(s, Put(s1, c, x))
  {
    assert forall d :: RegFlag(Put(s1, c, x), d) == RegFlag(s1, d) && SvcFlag(Put(s1, c, x), d) == SvcFlag(s1, d);
  }

  lemma SendCipheredQuiet(s: State, s1: State, c: nat, k: Kind)
    requires Quiet(s, s1) && c in s1.ctxs && !k.RegistrationAccept? && !k.ServiceAccept?
    ensures Quiet(s, SendCiphered(s1, c, k))
  {
    var e := Sent(c, CipheredMessage(s1, c, k, s1.ctxs[c].sec.wide));
    NoteQuiet(s, s1, e);
    PutQuiet(s, Note(s1, e), c, Bump(s1.ctxs[c]));
  }

  lemma SendSessionQuiet(s: State, s1: State, c: nat)
    requires Quiet(s, s1) && c in s1.ctxs
    ensures Quiet(s, SendSession(s1, c))
  {
    var m := s1.ctxs[c].sm;
    var k := if m.isAccept then SessionAccept(m.Sid(m.isIms), m.Pti(m.isIms)) else SessionAuthResult;
    var f := Find(s1, s1.rntiIndex, s1.ctxs[c].rnti);
    if f.Live? { SendCipheredQuiet(s, s1, f.id, k); }
  }

  lemma HandleSessionQuiet(s: State, rnti: nat, p: SmPdu)
    ensures Quiet(s, HandleSession(s, rnti, p))
  {
    var f := Find(s, s.rntiIndex, rnti);
    if f.Live? {
      var x := s.ctxs[f.id];
      var e := SmReceived(f.id, p.sid, p.kind, p.pti);
      NoteQuiet(s, s, e);
      PutQuiet(s, Note(s, e), f.id, x.(sm := AfterMessage(x.sm, p)));
      SendSessionQuiet(s, Marked(s, f.id, p), f.id);
    }
  }

  lemma RegisterQuiet(s: State, rnti: nat, id: Identity)
    requires s.gutiIndex == map[]
    ensures Quiet(s, Register(s, rnti, id))
  {
  }

  lemma DeregisterQuiet(s: State, tmsi: Option<nat>, off: bool)
    ensures Quiet(s, Deregister(s, tmsi, off))
  {
  }

  lemma AnswerQuiet(s: State, rnti: nat, ok: bool, wide: bool, kEnc: seq<byte>, kInt: seq<byte>)
    ensures Quiet(s, AnswerAuthentication(s, rnti, ok, wide, kEnc, kInt))
  {
    var f := Find(s, s.rntiIndex, rnti);
    if f.Live? {
      var c := f.id;
      var x := s.ctxs[c].(sec := s.ctxs[c].sec.(wide := wide));
      if ok {
        var y := x.(ul := 0, sec := x.sec.(kEnc := kEnc, kInt := kInt));
        var s1 := Put(s, c, y);
        var e := Sent(c, WithMac(s1, c, Draft(SecurityModeCommand, wide, 0, None)));
        PutQuiet(s, s, c, y);
        NoteQuiet(s, s1, e);
        PutQuiet(s, Note(s1, e), c, Bump(y));
      } else {
        NoteQuiet(s, s, Sent(c, Plain(AuthReject)));
        PutQuiet(s, Note(s, Sent(c, Plain(AuthReject))), c, Bump(x));
      }
    }
  }

  lemma InPlaceQuiet(s: State, rnti: nat)
    ensures Quiet(s, CompleteRegistration(s, rnti)) && Quiet(s, SetIdle(s, rnti)) && Quiet(s, FailAuthentication(s, rnti))
  {
    var f := Find(s, s.rntiIndex, rnti);
    if f.Live? {
      var x := s.ctxs[f.id];
      PutQuiet(s, s, f.id, x.(mm := Registered, cm := Connected));
      PutQuiet(s, s, f.id, x.(cm := Idle));
      NoteQuiet(s, s, Reset(f.id));
      PutQuiet(s, Note(s, Reset(f.id)), f.id, x.(ul := 0, dl := 0, sec := FreshSec()));
    }
  }

  lemma DispatchQuiet(s: State, rnti: nat, m: UplinkMessage)
    requires !m.ServiceRequest? && !m.SecurityModeComplete? && s.gutiIndex == map[]
    ensures Quiet(s, Dispatch(s, rnti, m))
  {
    match m
    case RegistrationRequest(id) => RegisterQuiet(s, rnti, id);
    case DeregistrationRequest(t, off) => DeregisterQuiet(s, t, off);
    case AuthenticationResponse(ok, wide, kEnc, kInt) => AnswerQuiet(s, rnti, ok, wide, kEnc, kInt);
    case UlNasTransport(sm) => if sm.Some? { HandleSessionQuiet(s, rnti, sm.value); }
    case IdentityResponse(id) =>
    case _ => InPlaceQuiet(s, rnti);
  }

  lemma DispatchOwes(s: State, rnti: nat, m: UplinkMessage)
    requires Owed(s)
    ensures Owed(Dispatch(s, rnti, m))
  {
    match m
    case ServiceRequest(t) => RequestServiceOwes(s, rnti, t);
    case SecurityModeComplete => CompleteSecurityModeOwes(s, rnti);
    case _ => DispatchQuiet(s, rnti, m); QuietOwes(s, Dispatch(s, rnti, m));
  }

  lemma NetworkStepQuiet(s: State, e: Event)
    requires !e.Uplink? && !e.AcceptTrigger?
    ensures Quiet(s, Step(s, e))
  {
    var f := Find(s, s.rntiIndex, e.rnti);
    match e
    case UserRelease(r) => InPlaceQuiet(s, r);
    case RrcRelease(_) =>
    case ConfigUpdate(_) => if f.Live? { SendCipheredQuiet(s, s, f.id, ConfigurationUpdate); }
    case VoiceModify(_, _) =>
      if f.Live? { NoteQuiet(s, s, Sent(f.id, CipheredMessage(s, f.id, VoiceModification, s.ctxs[f.id].sec.wide))); }
  }

  lemma UplinkOwes(s: State, e: Event)
    requires e.Uplink? && Owed(s) && s.fault.NoFault?
    ensures Owed(HandleUplink(s, e))
  {
    if Dispatched(s, e) {
      DispatchOwes(s, e.rnti, e.body.value);
    } else {
      QuietOwes(s, HandleUplink(s, e));
    }
  }

  lemma StepOwes(s: State, e: Event)
    requires Owed(s)
    ensures Owed(Step(s, e))
  {
    if s.fault.NoFault? {
      if e.Uplink? {
        UplinkOwes(s, e);
      } else if e.AcceptTrigger? {
        SendAcceptOwes(s, e.rnti);
      } else {
        NetworkStepQuiet(s, e);
        QuietOwes(s, Step(s, e));
      }
    }
  }

  /** On every run and for every context, live or gone: Security Mode
      Completes cover the Registration Accepts sent and still pending, and
      Service Requests the Service Accepts. */
  lemma {:induction false} RunOwes(es: seq<Event>)
    ensures Owed(Run(INITIAL, es))
  {
    if es != [] {
      RunOwes(es[..|es| - 1]);
      StepOwes(Run(INITIAL, es[..|es| - 1]), es[|es| - 1]);
    }
  }

  /** One trigger sends one message, to the context it names, exactly when an
      accept is pending there; a Registration Accept takes precedence. */
  lemma TriggerSendsOne(s: State, rnti: nat)
    requires s.fault.NoFault?
    ensures var s' := Step(s, AcceptTrigger(rnti));
            var f := Find(s, s.rntiIndex, rnti);
            if f.Live? && (s.ctxs[f.id].regPending || s.ctxs[f.id].svcPending)
            then && |s'.log| == |s.log| + 1 && s'.log[..|s.log|] == s.log
                 && Counts(s'.log[|s.log|], f.id,
                           if s.ctxs[f.id].regPending then RegistrationAccepts else ServiceAccepts)
                 && RegFlag(s', f.id) + SvcFlag(s', f.id) == RegFlag(s, f.id) + SvcFlag(s, f.id) - 1
            else s'.log == s.log
  {
  }
}

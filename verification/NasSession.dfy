/** PDU session establishment: which session identity and PTI an accept
    carries (srscnw/src/nas_sm.cc). */
module NasSession {
  import opened Options
  import opened Bytes
  import opened NasEngine
  import opened NasIndex
  import Envelope

  /** A session message of `c` with identity `sid` was received. */
  ghost predicate Seen(log: seq<Entry>, c: nat, sid: nat) {
    exists i :: 0 <= i < |log| && log[i].SmReceived? && log[i].c == c && log[i].sid == sid
  }

  /** The PTI of the latest establishment request of the session, or 0. */
  function LatestPti(log: seq<Entry>, c: nat, sid: nat): nat
    decreases |log|
  {
    if log == [] then 0
    else
      var e := log[|log| - 1];
      if e.SmReceived? && e.c == c && e.sid == sid && e.kind.EstablishmentRequest? then e.pti
      else LatestPti(log[..|log| - 1], c, sid)
  }

  /** The PTI of the latest establishment request that shares slot 0: of any
      session but 2, or 0. */
  function Slot0Pti(log: seq<Entry>, c: nat): nat
    decreases |log|
  {
    if log == [] then 0
    else
      var e := log[|log| - 1];
      if e.SmReceived? && e.c == c && e.sid != 2 && e.kind.EstablishmentRequest? then e.pti
      else Slot0Pti(log[..|log| - 1], c)
  }

  /** How the session slots of a context follow from its history. */
  ghost predicate SlotsKept(log: seq<Entry>, c: nat, m: SmCtx) {
    && m.isAccept
    && (m.isIms <==> Seen(log, c, 2))
    && m.sid0 == (if Seen(log, c, 1) then 1 else 0)
    && m.sid1 == (if Seen(log, c, 2) then 2 else 0)
    && m.pti0 == Slot0Pti(log, c)
    && m.pti1 == LatestPti(log, c, 2)
  }

  /** When an accept for `sid` names the right session and PTI: always for
      session 2; otherwise only before session 2 is ever named, for the one
      identity slot 0 can show, and if no other session overwrote its PTI. */
  ghost predicate Echoes(log: seq<Entry>, c: nat, sid: nat) {
    || sid == 2
    || (&& !Seen(log, c, 2)
        && (sid == 1 || (sid == 0 && !Seen(log, c, 1)))
        && Slot0Pti(log, c) == LatestPti(log, c, sid))
  }

  predicate Asks(e: Entry) { e.SmReceived? && (e.kind.EstablishmentRequest? || e.kind.AuthenticationComplete?) }

  predicate IsAccept(e: Entry) { e.Sent? && e.msg.kind.SessionAccept? }

  /** What follows the asking message at `j` is an accept, and it names the
      session and its latest PTI exactly when `Echoes` says so. */
  ghost predicate AnsweredAt(log: seq<Entry>, j: nat)
    requires j < |log| && Asks(log[j])
  {
    var c, sid := log[j].c, log[j].sid;
    var upTo := log[..j + 1];
    j + 1 < |log| ==>
      && IsAccept(log[j + 1])
      && (log[j + 1].msg.kind == SessionAccept(sid, LatestPti(upTo, c, sid)) <==> Echoes(upTo, c, sid))
  }

  /** Every accept follows right behind a message that asked for it. */
  ghost predicate Answered(log: seq<Entry>) {
    && (forall j :: 0 <= j < |log| && Asks(log[j]) ==> AnsweredAt(log, j))
    && (forall k :: 0 <= k < |log| && IsAccept(log[k]) ==> k > 0 && Asks(log[k - 1]))
  }

  predicate LastAsks(log: seq<Entry>) { log != [] && Asks(log[|log| - 1]) }

  /** A message is left without an answer only where the engine breaks down. */
  ghost predicate SessionsKept(s: State) {
    && Answered(s.log) && (s.fault.NoFault? ==> !LastAsks(s.log))
    && (forall c :: c in s.ctxs ==> c < s.next && SlotsKept(s.log, c, s.ctxs[c].sm))
    && (forall i :: 0 <= i < |s.log| && s.log[i].SmReceived? ==> s.log[i].c < s.next)
    && s.gutiIndex == map[]
  }

  // ------------------------------------------------- steps without session messages

  predicate Aside(e: Entry) { !e.SmReceived? && !IsAccept(e) }

  /** No session message or accept is noted, slots stay, and new contexts are
      fresh. */
  ghost predicate Quiet(s: State, s': State) {
    && s.log <= s'.log && s.next <= s'.next && s'.gutiIndex == s.gutiIndex
    && (forall i :: |s.log| <= i < |s'.log| ==> Aside(s'.log[i]))
    && (forall c :: c in s'.ctxs ==>
          if c in s.ctxs then s'.ctxs[c].sm == s.ctxs[c].sm
          else s.next <= c < s'.next && s'.ctxs[c].sm == SmCtx(false, true, 0, 0, 0, 0))
  }

  lemma {:induction false} QuietHistory(log: seq<Entry>, log': seq<Entry>, c: nat, sid: nat)
    requires log <= log' && forall i :: |log| <= i < |log'| ==> !log'[i].SmReceived?
    ensures LatestPti(log', c, sid) == LatestPti(log, c, sid)
    ensures Seen(log', c, sid) <==> Seen(log, c, sid)
    ensures Slot0Pti(log', c) == Slot0Pti(log, c)
    decreases |log'|
  {
    assert forall i :: 0 <= i < |log| ==> log[i] == log'[i];
    if |log| < |log'| {
      QuietHistory(log, log'[..|log'| - 1], c, sid);
    } else {
      assert log == log';
    }
  }

  lemma {:induction false} NoHistory(log: seq<Entry>, c: nat, sid: nat)
    requires forall i :: 0 <= i < |log| && log[i].SmReceived? ==> log[i].c != c
    ensures LatestPti(log, c, sid) == 0 && !Seen(log, c, sid) && Slot0Pti(log, c) == 0
  {
    if log != [] { NoHistory(log[..|log| - 1], c, sid); }
  }

  lemma QuietAnswered(log: seq<Entry>, log': seq<Entry>)
    requires Answered(log) && !LastAsks(log) && log <= log' && forall i :: |log| <= i < |log'| ==> Aside(log'[i])
    ensures Answered(log') && !LastAsks(log')
  {
    assert forall i :: 0 <= i < |log| ==> log[i] == log'[i];
    forall j | 0 <= j < |log'| && Asks(log'[j]) ensures AnsweredAt(log', j) {
      assert AnsweredAt(log, j);
      assert log'[..j + 1] == log[..j + 1];
    }
  }

  lemma QuietKeeps(s: State, s': State)
    requires SessionsKept(s) && s.fault.NoFault? && Quiet(s, s')
    ensures SessionsKept(s')
  {
    QuietAnswered(s.log, s'.log);
    forall c | c in s'.ctxs ensures SlotsKept(s'.log, c, s'.ctxs[c].sm) {
      QuietHistory(s.log, s'.log, c, 1);
      QuietHistory(s.log, s'.log, c, 2);
      if c !in s.ctxs {
        NoHistory(s.log, c, 1);
        NoHistory(s.log, c, 2);
      }
    }
  }

  // ------------------------------------------------- session messages

  lemma NoteHistory(log: seq<Entry>, e: Entry, c: nat, sid: nat)
    ensures LatestPti(log + [e], c, sid) ==
            if e.SmReceived? && e.c == c && e.sid == sid && e.kind.EstablishmentRequest? then e.pti
            else LatestPti(log, c, sid)
    ensures Seen(log + [e], c, sid) <==> Seen(log, c, sid) || (e.SmReceived? && e.c == c && e.sid == sid)
    ensures Slot0Pti(log + [e], c) ==
            if e.SmReceived? && e.c == c && e.sid != 2 && e.kind.EstablishmentRequest? then e.pti
            else Slot0Pti(log, c)
  {
    var log' := log + [e];
    assert log'[..|log|] == log;
    assert log'[|log|] == e;
    assert forall i :: 0 <= i < |log| ==> log'[i] == log[i];
  }

  lemma MessageSlots(log: seq<Entry>, c: nat, m: SmCtx, p: SmPdu)
    requires SlotsKept(log, c, m)
    ensures SlotsKept(log + [SmReceived(c, p.sid, p.kind, p.pti)], c, AfterMessage(m, p))
  {
    var e := SmReceived(c, p.sid, p.kind, p.pti);
    NoteHistory(log, e, c, 1);
    NoteHistory(log, e, c, 2);
  }

  lemma OtherSlots(log: seq<Entry>, e: Entry, c: nat, m: SmCtx)
    requires SlotsKept(log, c, m) && (e.SmReceived? ==> e.c != c)
    ensures SlotsKept(log + [e], c, m)
  {
    NoteHistory(log, e, c, 1);
    NoteHistory(log, e, c, 2);
  }

  /** The accept built from the slots echoes exactly as claimed. */
  lemma AcceptEchoes(log: seq<Entry>, c: nat, m: SmCtx, sid: nat)
    requires SlotsKept(log, c, m) && Seen(log, c, sid)
    ensures SessionAccept(m.Sid(m.isIms), m.Pti(m.isIms)) == SessionAccept(sid, LatestPti(log, c, sid))
            <==> Echoes(log, c, sid)
  {
  }

  /** A session message, before it is answered. */
  lemma MessageAnswered(log: seq<Entry>, e: Entry)
    requires Answered(log) && !LastAsks(log) && e.SmReceived?
    ensures Answered(log + [e])
  {
    var log' := log + [e];
    forall j | 0 <= j < |log'| && Asks(log'[j]) ensures AnsweredAt(log', j) {
      if j < |log| {
        assert AnsweredAt(log, j);
        assert log'[..j + 1] == log[..j + 1];
      }
    }
  }

  /** The accept right behind a message that asks for it. */
  lemma AcceptAnswered(log: seq<Entry>, e: Entry, a: Entry, m: SmCtx)
    requires Answered(log) && log != [] && e == log[|log| - 1] && Asks(e) && SlotsKept(log, e.c, m)
    requires IsAccept(a) && a.msg.kind == SessionAccept(m.Sid(m.isIms), m.Pti(m.isIms))
    ensures Answered(log + [a])
  {
    var log' := log + [a];
    forall j | 0 <= j < |log'| && Asks(log'[j]) ensures AnsweredAt(log', j) {
      assert AnsweredAt(log, j);
      assert log'[..j + 1] == log[..j + 1];
      if j == |log| - 1 {
        assert log[..j + 1] == log;
        AcceptEchoes(log, e.c, m, e.sid);
      }
    }
  }

  lemma MarkedSlots(s: State, c: nat, p: SmPdu, d: nat)
    requires SessionsKept(s) && c in s.ctxs && d in s.ctxs
    ensures SlotsKept(Marked(s, c, p).log, d, Marked(s, c, p).ctxs[d].sm)
  {
    if d == c {
      MessageSlots(s.log, c, s.ctxs[c].sm, p);
    } else {
      OtherSlots(s.log, SmReceived(c, p.sid, p.kind, p.pti), d, s.ctxs[d].sm);
    }
  }

  lemma MarkedKeeps(s: State, c: nat, p: SmPdu)
    requires SessionsKept(s) && s.fault.NoFault? && c in s.ctxs
    ensures var e, s' := SmReceived(c, p.sid, p.kind, p.pti), Marked(s, c, p);
            && SessionsKept(Fail(s', Dangling)) && s'.log == s.log + [e] && s'.ctxs.Keys == s.ctxs.Keys
            && (!Asks(e) ==> SessionsKept(s'))
  {
    var e, s' := SmReceived(c, p.sid, p.kind, p.pti), Marked(s, c, p);
    MessageAnswered(s.log, e);
    assert s'.log == s.log + [e] && s'.ctxs.Keys == s.ctxs.Keys;
    assert forall i :: 0 <= i < |s'.log| && s'.log[i].SmReceived? ==> s'.log[i].c < s'.next;
    forall d | d in s'.ctxs ensures d < s'.next && SlotsKept(s'.log, d, s'.ctxs[d].sm) { MarkedSlots(s, c, p, d); }
  }

  /** An accept is sent, possibly under the count of another context. */
  lemma AcceptKeeps(s: State, c: nat, d: nat)
    requires SessionsKept(Fail(s, Dangling)) && c in s.ctxs && d in s.ctxs && LastAsks(s.log) && s.log[|s.log| - 1].c == c
    ensures var m := s.ctxs[c].sm; SessionsKept(SendCiphered(s, d, SessionAccept(m.Sid(m.isIms), m.Pti(m.isIms))))
  {
    var m := s.ctxs[c].sm;
    var k := SessionAccept(m.Sid(m.isIms), m.Pti(m.isIms));
    var a := Sent(d, CipheredMessage(s, d, k, s.ctxs[d].sec.wide));
    AcceptAnswered(s.log, s.log[|s.log| - 1], a, m);
    forall b | b in s.ctxs ensures SlotsKept(s.log + [a], b, s.ctxs[b].sm) { OtherSlots(s.log, a, b, s.ctxs[b].sm); }
  }

  lemma SendSessionKeeps(s: State, c: nat)
    requires SessionsKept(Fail(s, Dangling)) && c in s.ctxs && LastAsks(s.log) && s.log[|s.log| - 1].c == c
    ensures SessionsKept(SendSession(s, c))
  {
    assert SlotsKept(s.log, c, s.ctxs[c].sm);
    var f := Find(s, s.rntiIndex, s.ctxs[c].rnti);
    if f.Live? { AcceptKeeps(s, c, f.id); }
  }

  lemma FoundSessionKeeps(s: State, c: nat, p: SmPdu)
    requires SessionsKept(s) && s.fault.NoFault? && c in s.ctxs
    ensures if Asks(SmReceived(c, p.sid, p.kind, p.pti)) then SessionsKept(SendSession(Marked(s, c, p), c))
            else SessionsKept(Marked(s, c, p))
  {
    MarkedKeeps(s, c, p);
    if Asks(SmReceived(c, p.sid, p.kind, p.pti)) { SendSessionKeeps(Marked(s, c, p), c); }
  }

  lemma HandleSessionKeeps(s: State, rnti: nat, p: SmPdu)
    requires SessionsKept(s) && s.fault.NoFault?
    ensures SessionsKept(HandleSession(s, rnti, p))
  {
    var f := Find(s, s.rntiIndex, rnti);
    if f.Live? { FoundSessionKeeps(s, f.id, p); }
  }

  // ------------------------------------------------- whole runs

  lemma NoteQuiet(s: State, s1: State, e: Entry)
    requires Quiet(s, s1) && Aside(e)
    ensures Quiet(s, Note(s1, e))
  {
  }

  lemma PutQuiet(s: State, s1: State, c: nat, x: NasContext)
    requires Quiet(s, s1) && c in s1.ctxs && x.sm == s1.ctxs[c].sm
    ensures Quiet(s, Put(s1, c, x))
  {
  }

  lemma NotePutQuiet(s: State, e: Entry, c: nat, x: NasContext)
    requires Aside(e) && c in s.ctxs && x.sm == s.ctxs[c].sm
    ensures Quiet(s, Put(Note(s, e), c, x))
  {
    NoteQuiet(s, s, e);
    PutQuiet(s, Note(s, e), c, x);
  }

  lemma SendCipheredQuiet(s: State, s1: State, c: nat, k: Kind)
    requires Quiet(s, s1) && c in s1.ctxs && !k.SessionAccept?
    ensures Quiet(s, SendCiphered(s1, c, k))
  {
    var e := Sent(c, CipheredMessage(s1, c, k, s1.ctxs[c].sec.wide));
    NoteQuiet(s, s1, e);
    PutQuiet(s, Note(s1, e), c, Bump(s1.ctxs[c]));
  }

  lemma RegisterQuiet(s: State, rnti: nat, id: Identity)
    requires s.next !in s.ctxs && s.gutiIndex == map[]
    ensures Quiet(s, Register(s, rnti, id))
  {
  }

  lemma RequestServiceQuiet(s: State, rnti: nat, t: nat)
    ensures Quiet(s, RequestService(s, rnti, t))
  {
    var f := Find(s, s.tmsiIndex, t);
    if f.Live? { NotePutQuiet(s, SvcHandled(f.id), f.id, Bump(s.ctxs[f.id].(rnti := rnti, svcPending := true))); }
  }

  lemma DeregisterQuiet(s: State, g: Option<nat>, off: bool)
    ensures Quiet(s, Deregister(s, g, off))
  {
  }

  lemma AnswerQuiet(s: State, rnti: nat, ok: bool, wide: bool, kEnc: seq<byte>, kInt: seq<byte>)
    ensures Quiet(s, AnswerAuthentication(s, rnti, ok, wide, kEnc, kInt))
  {
    var f := Find(s, s.rntiIndex, rnti);
    if f.Live? {
      var c := f.id;
      var x := s.ctxs[c].(sec := s.ctxs[c].sec.(wide := wide));
      if ok {
        var y := x.(ul := 0, sec := x.sec.(kEnc := kEnc, kInt := kInt));
        var s1 := Put(s, c, y);
        var e := Sent(c, WithMac(s1, c, Draft(SecurityModeCommand, wide, 0, None)));
        PutQuiet(s, s, c, y);
        NoteQuiet(s, s1, e);
        PutQuiet(s, Note(s1, e), c, Bump(y));
      } else {
        NotePutQuiet(s, Sent(c, Plain(AuthReject)), c, Bump(x));
      }
    }
  }

  lemma InPlaceQuiet(s: State, rnti: nat)
    ensures Quiet(s, CompleteRegistration(s, rnti)) && Quiet(s, SetIdle(s, rnti))
    ensures Quiet(s, CompleteSecurityMode(s, rnti)) && Quiet(s, FailAuthentication(s, rnti))
  {
    var f := Find(s, s.rntiIndex, rnti);
    if f.Live? {
      var x := s.ctxs[f.id];
      PutQuiet(s, s, f.id, x.(mm := Registered, cm := Connected));
      PutQuiet(s, s, f.id, x.(cm := Idle));
      NotePutQuiet(s, SmcHandled(f.id), f.id, x.(regPending := true));
      NotePutQuiet(s, Reset(f.id), f.id, x.(ul := 0, dl := 0, sec := FreshSec()));
    }
  }

  lemma SendAcceptQuiet(s: State, rnti: nat)
    ensures Quiet(s, SendAccept(s, rnti))
  {
    var f := Find(s, s.rntiIndex, rnti);
    if f.Live? {
      var c := f.id;
      PutQuiet(s, s, c, s.ctxs[c].(tmsi := TMSI, regPending := false));
      SendCipheredQuiet(s, GivenTmsi(s, c), c, RegistrationAccept);
      PutQuiet(s, s, c, s.ctxs[c].(svcPending := false));
      SendCipheredQuiet(s, ServiceCleared(s, c), c, ServiceAccept);
    }
  }

  lemma ReleaseQuiet(s: State, rnti: nat)
    ensures Quiet(s, Release(s, rnti))
  {
  }

  lemma NetworkQuiet(s: State, rnti: nat, flag: nat)
    ensures Quiet(s, UpdateConfiguration(s, rnti)) && Quiet(s, ModifyVoice(s, rnti, flag))
  {
    var f := Find(s, s.rntiIndex, rnti);
    if f.Live? {
      SendCipheredQuiet(s, s, f.id, ConfigurationUpdate);
      NoteQuiet(s, s, Sent(f.id, CipheredMessage(s, f.id, VoiceModification, s.ctxs[f.id].sec.wide)));
    }
  }

  lemma DispatchQuiet(s: State, rnti: nat, m: UplinkMessage)
    requires s.next !in s.ctxs && s.gutiIndex == map[] && !m.UlNasTransport?
    ensures Quiet(s, Dispatch(s, rnti, m))
  {
    match m
    case RegistrationRequest(id) => RegisterQuiet(s, rnti, id);
    case DeregistrationRequest(t, off) => DeregisterQuiet(s, t, off);
    case ServiceRequest(t) => RequestServiceQuiet(s, rnti, t);
    case AuthenticationResponse(ok, wide, kEnc, kInt) => AnswerQuiet(s, rnti, ok, wide, kEnc, kInt);
    case IdentityResponse(id) =>
    case _ => InPlaceQuiet(s, rnti);
  }

  lemma DispatchKeeps(s: State, rnti: nat, m: UplinkMessage)
    requires SessionsKept(s) && s.fault.NoFault?
    ensures SessionsKept(Dispatch(s, rnti, m))
  {
    if !m.UlNasTransport? {
      DispatchQuiet(s, rnti, m);
      QuietKeeps(s, Dispatch(s, rnti, m));
    } else if m.sm.Some? {
      HandleSessionKeeps(s, rnti, m.sm.value);
    }
  }

  lemma NetworkStepQuiet(s: State, e: Event)
    requires !e.Uplink?
    ensures Quiet(s, Step(s, e))
  {
    match e
    case UserRelease(r) => InPlaceQuiet(s, r);
    case AcceptTrigger(r) => SendAcceptQuiet(s, r);
    case RrcRelease(r) => ReleaseQuiet(s, r);
    case ConfigUpdate(r) => NetworkQuiet(s, r, 0);
    case VoiceModify(r, flag) => NetworkQuiet(s, r, flag);
  }

  lemma UplinkKeeps(s: State, e: Event)
    requires e.Uplink? && SessionsKept(s) && s.fault.NoFault?
    ensures SessionsKept(HandleUplink(s, e))
  {
    if Dispatched(s, e) { DispatchKeeps(s, e.rnti, e.body.value); } else { QuietKeeps(s, HandleUplink(s, e)); }
  }

  lemma StepKeepsSessions(s: State, e: Event)
    requires SessionsKept(s)
    ensures SessionsKept(Step(s, e))
  {
    if s.fault.NoFault? {
      if e.Uplink? {
        UplinkKeeps(s, e);
      } else {
        NetworkStepQuiet(s, e);
        QuietKeeps(s, Step(s, e));
      }
    }
  }

  /** On every run each accept answers the message right before it, and
      `AnsweredAt` says exactly when it names the right session and PTI. */
  lemma {:induction false} RunAnswers(es: seq<Event>)
    ensures SessionsKept(Run(INITIAL, es))
  {
    if es != [] {
      RunAnswers(es[..|es| - 1]);
      StepKeepsSessions(Run(INITIAL, es[..|es| - 1]), es[|es| - 1]);
    }
  }

  /** On every run each accept answers the message before it, and names its
      session and the PTI of that session's latest request exactly when the
      history says so. */
  lemma {:induction false} AcceptsEchoExactly(es: seq<Event>, k: nat)
    requires k < |Run(INITIAL, es).log| && IsAccept(Run(INITIAL, es).log[k])
    ensures var log := Run(INITIAL, es).log;
            && k > 0 && Asks(log[k - 1])
            && var c, sid := log[k - 1].c, log[k - 1].sid;
               (log[k].msg.kind == SessionAccept(sid, LatestPti(log[..k], c, sid)) <==> Echoes(log[..k], c, sid))
  {
    RunAnswers(es);
    assert AnsweredAt(Run(INITIAL, es).log, k - 1);
  }

  const REGISTERING: Event :=
    Uplink(1, true, PlainNas, Opened, Some(RegistrationRequest(Suci(true, Envelope.EEA0, Envelope.EIA0))))

  function SessionMessage(sid: nat, pti: nat, kind: SmKind): Event {
    Uplink(1, true, PlainNas, Opened, Some(UlNasTransport(Some(SmPdu(sid, pti, kind)))))
  }

  /** One context on RNTI 1, with the given slots, and the log `n` long. */
  ghost predicate Alone(s: State, m: SmCtx, n: nat) {
    && s.fault.NoFault? && s.rntiIndex == map[1 := 0] && 0 in s.ctxs && s.ctxs[0].rnti == 1
    && s.ctxs[0].sm == m && m.isAccept && |s.log| == n
  }

  lemma AfterRegistering()
    ensures Alone(Step(INITIAL, REGISTERING), SmCtx(false, true, 0, 0, 0, 0), 2)
  {
  }

  lemma Answers(s: State, m: SmCtx, n: nat, p: SmPdu)
    requires Alone(s, m, n) && (p.kind.EstablishmentRequest? || p.kind.AuthenticationComplete?)
    ensures var s', m' := Step(s, SessionMessage(p.sid, p.pti, p.kind)), AfterMessage(m, p);
            && Alone(s', m', n + 2) && IsAccept(s'.log[n + 1])
            && s'.log[n + 1].msg.kind == SessionAccept(m'.Sid(m'.isIms), m'.Pti(m'.isIms))
  {
    SendSessionOwn(Marked(s, 0, p), 0);
  }

  /** The order matters: after a request for session 2, a request for session 1
      with PTI 9 is answered as if it were the one for session 2 with PTI 7. */
  lemma StickyVoice()
    ensures var log := Run(INITIAL, [REGISTERING] + [SessionMessage(2, 7, EstablishmentRequest)]
                                    + [SessionMessage(1, 9, EstablishmentRequest)]).log;
            |log| == 6 && IsAccept(log[5]) && log[5].msg.kind == SessionAccept(2, 7)
  {
    var e1, e2 := SessionMessage(2, 7, EstablishmentRequest), SessionMessage(1, 9, EstablishmentRequest);
    var s1 := Step(INITIAL, REGISTERING);
    AfterRegistering();
    Answers(s1, s1.ctxs[0].sm, 2, SmPdu(2, 7, EstablishmentRequest));
    var s2 := Step(s1, e1);
    Answers(s2, s2.ctxs[0].sm, 4, SmPdu(1, 9, EstablishmentRequest));
    assert [] + [REGISTERING] == [REGISTERING];
    RunSnoc(INITIAL, [], REGISTERING);
    RunSnoc(INITIAL, [REGISTERING], e1);
    RunSnoc(INITIAL, [REGISTERING] + [e1], e2);
  }

  /** So does the identity: a request for session 3 is answered as session 0. */
  lemma StrayIdentity()
    ensures var log := Run(INITIAL, [REGISTERING] + [SessionMessage(3, 5, EstablishmentRequest)]).log;
            |log| == 4 && IsAccept(log[3]) && log[3].msg.kind == SessionAccept(0, 5)
  {
    var e := SessionMessage(3, 5, EstablishmentRequest);
    var s1 := Step(INITIAL, REGISTERING);
    AfterRegistering();
    Answers(s1, s1.ctxs[0].sm, 2, SmPdu(3, 5, EstablishmentRequest));
    assert [] + [REGISTERING] == [REGISTERING];
    RunSnoc(INITIAL, [], REGISTERING);
    RunSnoc(INITIAL, [REGISTERING], e);
  }

  /** And it overwrites the PTI that session 1 still needs: the accept after its
      authentication complete carries PTI 5 and not 9. */
  lemma StrayIdentityOverwrites()
    ensures var log := Run(INITIAL, [REGISTERING] + [SessionMessage(1, 9, EstablishmentRequest)]
                                    + [SessionMessage(3, 5, EstablishmentRequest)]
                                    + [SessionMessage(1, 0, AuthenticationComplete)]).log;
            |log| == 8 && IsAccept(log[7]) && log[7].msg.kind == SessionAccept(1, 5)
  {
    var e1, e2 := SessionMessage(1, 9, EstablishmentRequest), SessionMessage(3, 5, EstablishmentRequest);
    var e3 := SessionMessage(1, 0, AuthenticationComplete);
    var s1 := Step(INITIAL, REGISTERING);
    AfterRegistering();
    Answers(s1, s1.ctxs[0].sm, 2, SmPdu(1, 9, EstablishmentRequest));
    var s2 := Step(s1, e1);
    Answers(s2, s2.ctxs[0].sm, 4, SmPdu(3, 5, EstablishmentRequest));
    var s3 := Step(s2, e2);
    Answers(s3, s3.ctxs[0].sm, 6, SmPdu(1, 0, AuthenticationComplete));
    assert [] + [REGISTERING] == [REGISTERING];
    RunSnoc(INITIAL, [], REGISTERING);
    RunSnoc(INITIAL, [REGISTERING], e1);
    RunSnoc(INITIAL, [REGISTERING] + [e1], e2);
    RunSnoc(INITIAL, [REGISTERING] + [e1] + [e2], e3);
  }

  // ------------------------------------------------- each on its own context

  /** Every message that asks is answered, on the context it came from. */
  ghost predicate OwnAnswers(log: seq<Entry>) {
    forall j :: 0 <= j < |log| && Asks(log[j]) ==> j + 1 < |log| && IsAccept(log[j + 1]) && log[j + 1].c == log[j].c
  }

  lemma QuietOwn(s: State, s': State)
    requires OwnAnswers(s.log) && Quiet(s, s')
    ensures OwnAnswers(s'.log)
  {
    assert forall i :: 0 <= i < |s.log| ==> s.log[i] == s'.log[i];
  }

  lemma AnswerOwn(log: seq<Entry>, e: Entry, a: Entry)
    requires OwnAnswers(log) && e.SmReceived?
    ensures !Asks(e) ==> OwnAnswers(log + [e])
    ensures IsAccept(a) && a.c == e.c ==> OwnAnswers(log + [e] + [a])
  {
    assert forall i :: 0 <= i < |log| ==> (log + [e])[i] == log[i] == (log + [e] + [a])[i];
  }

  lemma SendSessionOwn(s: State, c: nat)
    requires c in s.ctxs && Find(s, s.rntiIndex, s.ctxs[c].rnti) == Live(c) && s.ctxs[c].sm.isAccept
    ensures var log := SendSession(s, c).log;
            |log| == |s.log| + 1 && log == s.log + [log[|s.log|]] && IsAccept(log[|s.log|]) && log[|s.log|].c == c
  {
  }

  lemma HandleSessionOwn(s: State, rnti: nat, p: SmPdu)
    requires OwnAnswers(s.log) && SessionsKept(s) && s.fault.NoFault? && Safe(s)
    ensures OwnAnswers(HandleSession(s, rnti, p).log)
  {
    NeverDead(s, rnti);
    var f := Find(s, s.rntiIndex, rnti);
    if f.Live? {
      var c := f.id;
      var s1 := Marked(s, c, p);
      MarkedKeeps(s, c, p);
      assert SlotsKept(s1.log, c, s1.ctxs[c].sm);
      assert s1.rntiIndex == s.rntiIndex && s1.ctxs[c].rnti == rnti;
      assert Find(s1, s1.rntiIndex, rnti) == Live(c);
      SendSessionOwn(s1, c);
      AnswerOwn(s.log, SmReceived(c, p.sid, p.kind, p.pti), SendSession(s1, c).log[|s1.log|]);
    }
  }

  lemma StepOwn(s: State, e: Event)
    requires OwnAnswers(s.log) && SessionsKept(s) && Safe(s)
    ensures OwnAnswers(Step(s, e).log)
  {
    if s.fault.NoFault? {
      if !e.Uplink? {
        NetworkStepQuiet(s, e);
        QuietOwn(s, Step(s, e));
      } else if Dispatched(s, e) {
        DispatchOwn(s, e.rnti, e.body.value);
      }
    }
  }

  lemma DispatchOwn(s: State, rnti: nat, m: UplinkMessage)
    requires OwnAnswers(s.log) && SessionsKept(s) && s.fault.NoFault? && Safe(s)
    ensures OwnAnswers(Dispatch(s, rnti, m).log)
  {
    if !m.UlNasTransport? {
      DispatchQuiet(s, rnti, m);
      QuietOwn(s, Dispatch(s, rnti, m));
    } else if m.sm.Some? {
      HandleSessionOwn(s, rnti, m.sm.value);
    }
  }

  /** On every disciplined run no request is left without its accept, and none
      is answered on another context. */
  lemma {:induction false} RunAnswersOwn(es: seq<Event>)
    requires DisciplinedRun(INITIAL, es)
    ensures OwnAnswers(Run(INITIAL, es).log)
  {
    if es != [] {
      var front := es[..|es| - 1];
      RunAnswersOwn(front);
      RunAnswers(front);
      RunSafe(front);
      StepOwn(Run(INITIAL, front), es[|es| - 1]);
    }
  }
}

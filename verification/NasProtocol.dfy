/** The engine as a protocol: for every event, in one flat table, which contexts
    start and end, what is sent to whom, and what becomes of the standing of a
    context and of the RNTI index; and what follows for whole runs
    (srscnw/src/nas_mm.cc, srscnw/src/cnw.cc). */
module NasProtocol {
  import opened Options
  import opened Bytes
  import opened NasEngine
  import Envelope

  /** What a step does that can be seen: contexts that start and end, and the
      messages to a context, by kind. */
  datatype Act = Starts(c: nat) | Ends(c: nat) | Says(c: nat, kind: Kind)

  /** Session answers count as one kind; what they carry is told elsewhere. */
  function Sort(k: Kind): Kind {
    if k.SessionAccept? || k.SessionAuthResult? then SessionAuthResult else k
  }

  function ActsOf(e: Entry): seq<Act> {
    match e
    case Created(c) => [Starts(c)]
    case Deleted(c) => [Ends(c)]
    case Sent(c, m) => [Says(c, Sort(m.kind))]
    case _ => []
  }

  function Acted(log: seq<Entry>): seq<Act>
    decreases |log|
  { if log == [] then [] else Acted(log[..|log| - 1]) + ActsOf(log[|log| - 1]) }

  lemma ActedNote(log: seq<Entry>, e: Entry)
    ensures Acted(log + [e]) == Acted(log) + ActsOf(e)
  {
    assert (log + [e])[..|log|] == log;
  }

  /** The fields of a context besides counts, keys and sessions. */
  datatype Standing = Standing(rnti: nat, tmsi: nat, mm: MmState, cm: CmState, regPending: bool, svcPending: bool)

  function StandingOf(x: NasContext): Standing {
    Standing(x.rnti, x.tmsi, x.mm, x.cm, x.regPending, x.svcPending)
  }

  // ------------------------------------------------- the table

  /** The live context an index leads to. */
  function At(s: State, index: map<nat, nat>, key: nat): Option<nat> {
    if key in index && index[key] in s.ctxs then Some(index[key]) else None
  }

  function AnswerActs(s: State, rnti: nat, ok: bool): seq<Act> {
    var here := At(s, s.rntiIndex, rnti);
    if here.None? then [] else [Says(here.value, if ok then SecurityModeCommand else AuthReject)]
  }

  /** The context a Deregistration Request removes: none where the accept overruns. */
  function Leaving(s: State, t: Option<nat>, off: bool): Option<nat> {
    if t.None? then None
    else
      var c := At(s, s.tmsiIndex, t.value);
      if c.None? || (!off && s.ctxs[c.value].sec.wide && s.ctxs[c.value].sec.Ciphers()) then None else c
  }

  function SessionActs(s: State, rnti: nat, p: SmPdu): seq<Act> {
    var here := At(s, s.rntiIndex, rnti);
    if here.None? || !(p.kind.EstablishmentRequest? || p.kind.AuthenticationComplete?) then []
    else SessionReply(s, here.value)
  }

  function PendingActs(s: State, rnti: nat): seq<Act> {
    var here := At(s, s.rntiIndex, rnti);
    if here.None? then []
    else if s.ctxs[here.value].regPending then [Says(here.value, RegistrationAccept)]
    else if s.ctxs[here.value].svcPending then [Says(here.value, ServiceAccept)] else []
  }

  /** The standing a new context starts with. */
  function Newborn(rnti: nat): Standing { Standing(rnti, 0, Deregistered, Connected, false, false) }

  function WithEntry(index: map<nat, nat>, key: nat, c: nat): map<nat, nat> {
    if key !in index then index[key := c] else index
  }

  function UplinkActs(s: State, rnti: nat, m: UplinkMessage): seq<Act> {
    match m
    case RegistrationRequest(id) =>
      if id.OtherIdentity? then []
      else [Starts(s.next)] + if id.Suci? && id.subscriberKnown then [Says(s.next, AuthRequest)] else []
    case AuthenticationResponse(ok, _, _, _) => AnswerActs(s, rnti, ok)
    case DeregistrationRequest(t, off) =>
      var c := Leaving(s, t, off);
      if c.None? then [] else (if off then [] else [Says(c.value, DeregistrationAccept)]) + [Ends(c.value)]
    case UlNasTransport(sm) => if sm.Some? then SessionActs(s, rnti, sm.value) else []
    case _ => []
  }

  function NetworkActs(s: State, e: Event): seq<Act>
    requires !e.Uplink?
  {
    var c := At(s, s.rntiIndex, e.rnti);
    match e
    case AcceptTrigger(r) => PendingActs(s, r)
    case RrcRelease(_) => if c.Some? then [Ends(c.value)] else []
    case ConfigUpdate(_) => if c.Some? then [Says(c.value, ConfigurationUpdate)] else []
    case VoiceModify(_, flag) => if c.Some? && (flag == 2 || flag == 3) then [Says(c.value, VoiceModification)] else []
    case UserRelease(_) => []
  }

  function ActsAt(s: State, e: Event): seq<Act> {
    if !s.fault.NoFault? then []
    else if !e.Uplink? then NetworkActs(s, e)
    else if Dispatched(s, e) then UplinkActs(s, e.rnti, e.body.value)
    else []
  }

  /** The standing of `c` after the event, from the one before. */
  function StandingAfter(was: Standing, s: State, e: Event, c: nat): Standing {
    if !s.fault.NoFault? || (e.Uplink? && !Dispatched(s, e)) then was
    else if e.Uplink? then AfterUplink(was, s, e.rnti, e.body.value, c)
    else if At(s, s.rntiIndex, e.rnti) != Some(c) then was
    else
      match e
      case AcceptTrigger(_) =>
        if was.regPending then was.(regPending := false, tmsi := TMSI) else was.(svcPending := false)
      case UserRelease(_) => was.(cm := Idle)
      case _ => was
  }

  function AfterUplink(was: Standing, s: State, rnti: nat, m: UplinkMessage, c: nat): Standing {
    var here := At(s, s.rntiIndex, rnti) == Some(c);
    match m
    case RegistrationRequest(_) => if c == s.next then Newborn(rnti) else was
    case RegistrationComplete => if here then was.(mm := Registered, cm := Connected) else was
    case DeregistrationAcceptFromUe => if here then was.(cm := Idle) else was
    case SecurityModeComplete => if here then was.(regPending := true) else was
    case ServiceRequest(t) => if At(s, s.tmsiIndex, t) == Some(c) then was.(rnti := rnti, svcPending := true) else was
    case _ => was
  }

  /** The RNTI index after the event: what is there is never overwritten. */
  function RntisAfter(s: State, e: Event): map<nat, nat> {
    if !s.fault.NoFault? || (e.Uplink? && !Dispatched(s, e)) then s.rntiIndex
    else if e.Uplink? then RntisAfterUplink(s, e.rnti, e.body.value)
    else if e.RrcRelease? && At(s, s.rntiIndex, e.rnti).Some? then map[]
    else s.rntiIndex
  }

  function RntisAfterUplink(s: State, rnti: nat, m: UplinkMessage): map<nat, nat> {
    match m
    case RegistrationRequest(id) =>
      if id.Guti? || (id.Suci? && id.subscriberKnown) then WithEntry(s.rntiIndex, rnti, s.next) else s.rntiIndex
    case ServiceRequest(t) =>
      var c := At(s, s.tmsiIndex, t);
      if c.Some? then WithEntry(s.rntiIndex, rnti, c.value) else s.rntiIndex
    case DeregistrationRequest(t, off) =>
      var c := Leaving(s, t, off);
      if c.Some? then s.rntiIndex - {s.ctxs[c.value].rnti} else s.rntiIndex
    case _ => s.rntiIndex
  }

  // ------------------------------------------------- what it means to follow the table

  ghost predicate Follows(s: State, s': State, acts: seq<Act>, after: nat -> Standing, rntis: map<nat, nat>) {
    && s'.gutiIndex == s.gutiIndex && s'.rntiIndex == rntis && s'.next == s.next + Births(acts)
    && Acted(s'.log) == Acted(s.log) + acts
    && (forall c :: c in s'.ctxs <==> (c in s.ctxs || Starts(c) in acts) && Ends(c) !in acts)
    && (forall c :: c in s'.ctxs ==> StandingOf(s'.ctxs[c]) == after(c))
  }

  function Births(acts: seq<Act>): nat { if acts != [] && acts[0].Starts? then 1 else 0 }

  /** The standings before. */
  ghost predicate Before(s: State, was: nat -> Standing) {
    s.gutiIndex == map[] && s.next !in s.ctxs && forall c :: c in s.ctxs ==> was(c) == StandingOf(s.ctxs[c])
  }

  function After(s: State, e: Event, was: nat -> Standing): nat -> Standing {
    (c: nat) => StandingAfter(was(c), s, e, c)
  }

  ghost predicate StepsBy(s: State, s': State, e: Event, was: nat -> Standing) {
    Follows(s, s', ActsAt(s, e), After(s, e, was), RntisAfter(s, e))
  }

  // ------------------------------------------------- handlers

  /** One entry, and one context rewritten. */
  lemma NotePutFollows(s: State, e: Entry, c: nat, x: NasContext, after: nat -> Standing)
    requires c in s.ctxs && !e.Created? && !e.Deleted?
    requires forall d :: d in s.ctxs ==> after(d) == StandingOf(if d == c then x else s.ctxs[d])
    ensures Follows(s, Put(Note(s, e), c, x), ActsOf(e), after, s.rntiIndex)
  {
    ActedNote(s.log, e);
  }

  lemma PutFollows(s: State, c: nat, x: NasContext, after: nat -> Standing)
    requires c in s.ctxs && forall d :: d in s.ctxs ==> after(d) == StandingOf(if d == c then x else s.ctxs[d])
    ensures Follows(s, Put(s, c, x), [], after, s.rntiIndex)
  {
  }

  /** Nothing happens. */
  lemma IdleFollows(s: State, s': State, after: nat -> Standing)
    requires s' == s.(fault := s'.fault) && forall d :: d in s.ctxs ==> after(d) == StandingOf(s.ctxs[d])
    ensures Follows(s, s', [], after, s.rntiIndex)
  {
  }

  /** First one, then the other, which acts no more than speaks. */
  lemma FollowsThen(s: State, s1: State, s2: State, acts: seq<Act>, more: seq<Act>, mid: nat -> Standing, after: nat -> Standing,
                    rntis: map<nat, nat>)
    requires Follows(s, s1, acts, mid, s1.rntiIndex) && Follows(s1, s2, more, after, rntis)
    requires forall a :: a in more ==> a.Says?
    ensures Follows(s, s2, acts + more, after, rntis)
  {
  }

  lemma SendFollows(s: State, c: nat, k: Kind, after: nat -> Standing)
    requires c in s.ctxs && forall d :: d in s.ctxs ==> after(d) == StandingOf(s.ctxs[d])
    ensures Follows(s, SendCiphered(s, c, k), [Says(c, Sort(k))], after, s.rntiIndex)
  {
    NotePutFollows(s, Sent(c, CipheredMessage(s, c, k, s.ctxs[c].sec.wide)), c, Bump(s.ctxs[c]), after);
  }

  lemma BornFollows(s: State, rnti: nat, sec: Envelope.SecCtx, after: nat -> Standing)
    requires s.next !in s.ctxs && after(s.next) == Newborn(rnti)
    requires forall d :: d in s.ctxs ==> after(d) == StandingOf(s.ctxs[d])
    ensures Follows(s, Born(s, rnti, sec), [Starts(s.next)], after, s.rntiIndex)
  {
    ActedNote(s.log, Created(s.next));
  }

  lemma BornIndexedFollows(s: State, rnti: nat, sec: Envelope.SecCtx, after: nat -> Standing)
    requires s.next !in s.ctxs && after(s.next) == Newborn(rnti)
    requires forall d :: d in s.ctxs ==> after(d) == StandingOf(s.ctxs[d])
    ensures Follows(s, BornIndexed(s, rnti, sec), [Starts(s.next)], after, WithEntry(s.rntiIndex, rnti, s.next))
  {
    BornFollows(s, rnti, sec, after);
  }

  lemma ChallengedFollows(s: State, rnti: nat, sec: Envelope.SecCtx, after: nat -> Standing)
    requires s.next !in s.ctxs && after(s.next) == Newborn(rnti) && Unmoved(s, after)
    ensures Follows(s, RegisterSuci(s, rnti, true, sec), [Starts(s.next)] + [Says(s.next, AuthRequest)], after,
                    WithEntry(s.rntiIndex, rnti, s.next))
  {
    BornIndexedFollows(s, rnti, sec, after);
    SpokenFollows(s, BornIndexed(s, rnti, sec), Sent(s.next, Plain(AuthRequest)), [Starts(s.next)], after,
                  WithEntry(s.rntiIndex, rnti, s.next));
  }

  lemma SpokenFollows(s: State, s1: State, e: Entry, acts: seq<Act>, after: nat -> Standing, rntis: map<nat, nat>)
    requires Follows(s, s1, acts, after, rntis) && e.Sent? && acts != []
    ensures Follows(s, Note(s1, e), acts + ActsOf(e), after, rntis)
  {
    ActedNote(s1.log, e);
  }

  /** What becomes of one context. */
  ghost predicate Only(s: State, c: nat, x: Standing, after: nat -> Standing) {
    forall d :: d in s.ctxs ==> after(d) == if d == c then x else StandingOf(s.ctxs[d])
  }

  ghost predicate Unmoved(s: State, after: nat -> Standing) {
    forall d :: d in s.ctxs ==> after(d) == StandingOf(s.ctxs[d])
  }

  ghost predicate Handles(s: State, e: Event, was: nat -> Standing) {
    e.Uplink? && Dispatched(s, e) && Before(s, was)
  }

  lemma SuciFollows(s: State, rnti: nat, id: Identity, after: nat -> Standing)
    requires s.next !in s.ctxs && after(s.next) == Newborn(rnti) && Unmoved(s, after) && id.Suci?
    ensures Follows(s, Register(s, rnti, id),
                    [Starts(s.next)] + (if id.subscriberKnown then [Says(s.next, AuthRequest)] else []), after,
                    if id.subscriberKnown then WithEntry(s.rntiIndex, rnti, s.next) else s.rntiIndex)
  {
    var sec := FreshSec().(cipher := id.cipher, integ := id.integ);
    if id.subscriberKnown {
      ChallengedFollows(s, rnti, sec, after);
    } else {
      BornFollows(s, rnti, sec, after);
      assert [Starts(s.next)] + [] == [Starts(s.next)];
    }
  }

  lemma GutiFollows(s: State, rnti: nat, id: Identity, after: nat -> Standing)
    requires s.gutiIndex == map[] && s.next !in s.ctxs && after(s.next) == Newborn(rnti) && Unmoved(s, after) && id.Guti?
    ensures Follows(s, Register(s, rnti, id), [Starts(s.next)] + [], after, WithEntry(s.rntiIndex, rnti, s.next))
  {
    BornIndexedFollows(s, rnti, FreshSec(), after);
    assert [Starts(s.next)] + [] == [Starts(s.next)];
  }

  lemma RegistrationSteps(s: State, e: Event, was: nat -> Standing)
    requires Handles(s, e, was) && e.body.value.RegistrationRequest?
    ensures StepsBy(s, Dispatch(s, e.rnti, e.body.value), e, was)
  {
    var id, after := e.body.value.id, After(s, e, was);
    assert after(s.next) == StandingAfter(was(s.next), s, e, s.next);
    if id.Suci? { SuciFollows(s, e.rnti, id, after); }
    else if id.Guti? { GutiFollows(s, e.rnti, id, after); }
    else { IdleFollows(s, s, after); }
  }

  lemma AnswerFollows(s: State, rnti: nat, ok: bool, wide: bool, kEnc: seq<byte>, kInt: seq<byte>, after: nat -> Standing)
    requires Unmoved(s, after)
    ensures Follows(s, AnswerAuthentication(s, rnti, ok, wide, kEnc, kInt), AnswerActs(s, rnti, ok), after, s.rntiIndex)
  {
    var f := Find(s, s.rntiIndex, rnti);
    if f.Live? {
      var c, x := f.id, s.ctxs[f.id].(sec := s.ctxs[f.id].sec.(wide := wide));
      if ok {
        CommandFollows(s, c, x.(ul := 0, sec := x.sec.(kEnc := kEnc, kInt := kInt)), wide, after);
      } else {
        NotePutFollows(s, Sent(c, Plain(AuthReject)), c, Bump(x), after);
      }
    } else {
      IdleFollows(s, AnswerAuthentication(s, rnti, ok, wide, kEnc, kInt), after);
    }
  }

  lemma CommandFollows(s: State, c: nat, y: NasContext, wide: bool, after: nat -> Standing)
    requires c in s.ctxs && StandingOf(y) == StandingOf(s.ctxs[c]) && Unmoved(s, after)
    ensures var s1 := Put(s, c, y);
            var m := WithMac(s1, c, Draft(SecurityModeCommand, wide, 0, None));
            Follows(s, Put(Note(s1, Sent(c, m)), c, Bump(y)), [Says(c, SecurityModeCommand)], after, s.rntiIndex)
  {
    var s1 := Put(s, c, y);
    PutFollows(s, c, y, after);
    NotePutFollows(s1, Sent(c, WithMac(s1, c, Draft(SecurityModeCommand, wide, 0, None))), c, Bump(y), after);
  }

  lemma DeregisterFollows(s: State, t: Option<nat>, off: bool, after: nat -> Standing)
    requires Unmoved(s, after)
    ensures var c, s' := Leaving(s, t, off), Deregister(s, t, off);
            if c.None? then Follows(s, s', [], after, s.rntiIndex)
            else Follows(s, s', (if off then [] else [Says(c.value, DeregistrationAccept)]) + [Ends(c.value)], after,
                         s.rntiIndex - {s.ctxs[c.value].rnti})
  {
    if t.Some? && At(s, s.tmsiIndex, t.value).Some? { DeregistrationAcceptBounds(s.ctxs[s.tmsiIndex[t.value]].sec); }
    var c := Leaving(s, t, off);
    if c.None? {
      IdleFollows(s, Deregister(s, t, off), after);
    } else if off {
      RemovedFollows(s, c.value, t.value, after);
    } else {
      FarewellFollows(s, c.value, t.value, after);
    }
  }

  lemma FarewellFollows(s: State, c: nat, tmsi: nat, after: nat -> Standing)
    requires c in s.ctxs && Unmoved(s, after)
    ensures var s1 := Note(s, Sent(c, CipheredMessage(s, c, DeregistrationAccept, false)));
            Follows(s, Removed(s1, c, tmsi), [Says(c, DeregistrationAccept)] + [Ends(c)], after, s.rntiIndex - {s.ctxs[c].rnti})
  {
    var e := Sent(c, CipheredMessage(s, c, DeregistrationAccept, false));
    ActedNote(s.log, e);
    ActedNote(s.log + [e], Deleted(c));
  }

  lemma RemovedFollows(s: State, c: nat, tmsi: nat, after: nat -> Standing)
    requires c in s.ctxs && Unmoved(s, after)
    ensures Follows(s, Removed(s, c, tmsi), [Ends(c)], after, s.rntiIndex - {s.ctxs[c].rnti})
  {
    ActedNote(s.log, Deleted(c));
  }

  lemma ServiceFollows(s: State, rnti: nat, t: nat, after: nat -> Standing)
    requires forall d :: d in s.ctxs ==>
               after(d) == if At(s, s.tmsiIndex, t) == Some(d) then StandingOf(s.ctxs[d]).(rnti := rnti, svcPending := true)
                           else StandingOf(s.ctxs[d])
    ensures var c := At(s, s.tmsiIndex, t);
            Follows(s, RequestService(s, rnti, t), [], after,
                    if c.Some? then WithEntry(s.rntiIndex, rnti, c.value) else s.rntiIndex)
  {
    var f := Find(s, s.tmsiIndex, t);
    if f.Live? {
      NotePutFollows(s, SvcHandled(f.id), f.id, Bump(s.ctxs[f.id].(rnti := rnti, svcPending := true)), after);
    } else {
      IdleFollows(s, RequestService(s, rnti, t), after);
    }
  }

  lemma SessionFollows(s: State, rnti: nat, p: SmPdu, after: nat -> Standing)
    requires Unmoved(s, after)
    ensures Follows(s, HandleSession(s, rnti, p), SessionActs(s, rnti, p), after, s.rntiIndex)
  {
    var f := Find(s, s.rntiIndex, rnti);
    if f.Live? {
      MarkedFollows(s, f.id, p, after);
      if p.kind.EstablishmentRequest? || p.kind.AuthenticationComplete? {
        SessionAnswerFollows(s, Marked(s, f.id, p), f.id, after);
      }
    } else {
      IdleFollows(s, HandleSession(s, rnti, p), after);
    }
  }

  lemma MarkedFollows(s: State, c: nat, p: SmPdu, after: nat -> Standing)
    requires c in s.ctxs && Unmoved(s, after)
    ensures Follows(s, Marked(s, c, p), [], after, s.rntiIndex)
  {
    var x := s.ctxs[c];
    NotePutFollows(s, SmReceived(c, p.sid, p.kind, p.pti), c, x.(sm := AfterMessage(x.sm, p)), after);
  }

  function SessionReply(s: State, c: nat): seq<Act>
    requires c in s.ctxs
  {
    var to := At(s, s.rntiIndex, s.ctxs[c].rnti);
    if to.None? then [] else [Says(to.value, SessionAuthResult)]
  }

  lemma SendSessionFollows(s: State, c: nat, after: nat -> Standing)
    requires c in s.ctxs && Unmoved(s, after)
    ensures Follows(s, SendSession(s, c), SessionReply(s, c), after, s.rntiIndex)
  {
    var m := s.ctxs[c].sm;
    var k := if m.isAccept then SessionAccept(m.Sid(m.isIms), m.Pti(m.isIms)) else SessionAuthResult;
    var to := At(s, s.rntiIndex, s.ctxs[c].rnti);
    if to.Some? { SendFollows(s, to.value, k, after); } else { IdleFollows(s, SendSession(s, c), after); }
  }

  lemma SessionAnswerFollows(s: State, s1: State, c: nat, after: nat -> Standing)
    requires Follows(s, s1, [], after, s.rntiIndex) && c in s.ctxs && Unmoved(s, after)
    ensures Follows(s, SendSession(s1, c), SessionReply(s, c), after, s.rntiIndex)
  {
    assert StandingOf(s1.ctxs[c]) == StandingOf(s.ctxs[c]);
    SendSessionFollows(s1, c, after);
    FollowsThen(s, s1, SendSession(s1, c), [], SessionReply(s, c), after, after, s.rntiIndex);
    assert [] + SessionReply(s, c) == SessionReply(s, c);
  }

  /** The context found by RNTI gets this standing. */
  ghost predicate Here(s: State, rnti: nat, f: Standing -> Standing, after: nat -> Standing) {
    forall d :: d in s.ctxs ==>
      after(d) == if At(s, s.rntiIndex, rnti) == Some(d) then f(StandingOf(s.ctxs[d])) else StandingOf(s.ctxs[d])
  }

  lemma CompleteFollows(s: State, rnti: nat, after: nat -> Standing)
    requires Here(s, rnti, (w: Standing) => w.(mm := Registered, cm := Connected), after)
    ensures Follows(s, CompleteRegistration(s, rnti), [], after, s.rntiIndex)
  {
    var f := Find(s, s.rntiIndex, rnti);
    if f.Live? { PutFollows(s, f.id, s.ctxs[f.id].(mm := Registered, cm := Connected), after); }
  }

  lemma IdlenessFollows(s: State, rnti: nat, after: nat -> Standing)
    requires Here(s, rnti, (w: Standing) => w.(cm := Idle), after)
    ensures Follows(s, SetIdle(s, rnti), [], after, s.rntiIndex)
  {
    var f := Find(s, s.rntiIndex, rnti);
    if f.Live? { PutFollows(s, f.id, s.ctxs[f.id].(cm := Idle), after); }
  }

  lemma SecurityModeFollows(s: State, rnti: nat, after: nat -> Standing)
    requires Here(s, rnti, (w: Standing) => w.(regPending := true), after)
    ensures Follows(s, CompleteSecurityMode(s, rnti), [], after, s.rntiIndex)
  {
    var f := Find(s, s.rntiIndex, rnti);
    if f.Live? { NotePutFollows(s, SmcHandled(f.id), f.id, s.ctxs[f.id].(regPending := true), after); }
  }

  lemma FailureFollows(s: State, rnti: nat, after: nat -> Standing)
    requires Unmoved(s, after)
    ensures Follows(s, FailAuthentication(s, rnti), [], after, s.rntiIndex)
  {
    var f := Find(s, s.rntiIndex, rnti);
    if f.Live? { NotePutFollows(s, Reset(f.id), f.id, s.ctxs[f.id].(ul := 0, dl := 0, sec := FreshSec()), after); }
  }

  predicate InPlace(m: UplinkMessage) {
    m.RegistrationComplete? || m.DeregistrationAcceptFromUe? || m.AuthenticationFailure? || m.SecurityModeComplete?
  }

  lemma InPlaceSteps(s: State, e: Event, was: nat -> Standing)
    requires Handles(s, e, was) && InPlace(e.body.value)
    ensures StepsBy(s, Dispatch(s, e.rnti, e.body.value), e, was)
  {
    var m, after := e.body.value, After(s, e, was);
    if m.RegistrationComplete? { CompleteFollows(s, e.rnti, after); }
    else if m.DeregistrationAcceptFromUe? { IdlenessFollows(s, e.rnti, after); }
    else if m.SecurityModeComplete? { SecurityModeFollows(s, e.rnti, after); }
    else { FailureFollows(s, e.rnti, after); }
  }

  lemma OtherSteps(s: State, e: Event, was: nat -> Standing)
    requires Handles(s, e, was) && !InPlace(e.body.value) && !e.body.value.RegistrationRequest?
    requires !e.body.value.ServiceRequest? && !e.body.value.UlNasTransport?
    ensures StepsBy(s, Dispatch(s, e.rnti, e.body.value), e, was)
  {
    var m, after := e.body.value, After(s, e, was);
    if m.AuthenticationResponse? { AnswerFollows(s, e.rnti, m.resMatches, m.wide, m.kEnc, m.kInt, after); }
    else if m.DeregistrationRequest? { DeregisterFollows(s, m.guti, m.switchOff, after); }
    else { IdleFollows(s, Dispatch(s, e.rnti, m), after); }
  }

  lemma ServiceSteps(s: State, e: Event, was: nat -> Standing)
    requires Handles(s, e, was) && e.body.value.ServiceRequest?
    ensures StepsBy(s, Dispatch(s, e.rnti, e.body.value), e, was)
  {
    ServiceFollows(s, e.rnti, e.body.value.tmsi, After(s, e, was));
  }

  lemma SessionSteps(s: State, e: Event, was: nat -> Standing)
    requires Handles(s, e, was) && e.body.value.UlNasTransport?
    ensures StepsBy(s, Dispatch(s, e.rnti, e.body.value), e, was)
  {
    var sm, after := e.body.value.sm, After(s, e, was);
    if sm.Some? { SessionFollows(s, e.rnti, sm.value, after); } else { IdleFollows(s, s, after); }
  }

  lemma UplinkSteps(s: State, e: Event, was: nat -> Standing)
    requires Handles(s, e, was)
    ensures StepsBy(s, Dispatch(s, e.rnti, e.body.value), e, was)
  {
    var m := e.body.value;
    if m.RegistrationRequest? { RegistrationSteps(s, e, was); }
    else if InPlace(m) { InPlaceSteps(s, e, was); }
    else if m.ServiceRequest? { ServiceSteps(s, e, was); }
    else if m.UlNasTransport? { SessionSteps(s, e, was); }
    else { OtherSteps(s, e, was); }
  }

  lemma TriggerFollows(s: State, rnti: nat, after: nat -> Standing)
    requires Here(s, rnti, (w: Standing) => if w.regPending then w.(regPending := false, tmsi := TMSI) else w.(svcPending := false), after)
    ensures Follows(s, SendAccept(s, rnti), PendingActs(s, rnti), after, s.rntiIndex)
  {
    var f := Find(s, s.rntiIndex, rnti);
    if f.Live? && s.ctxs[f.id].regPending {
      AcceptFollows(s, f.id, s.ctxs[f.id].(tmsi := TMSI, regPending := false), GivenTmsi(s, f.id), RegistrationAccept, after);
    } else if f.Live? && s.ctxs[f.id].svcPending {
      AcceptFollows(s, f.id, s.ctxs[f.id].(svcPending := false), ServiceCleared(s, f.id), ServiceAccept, after);
    } else {
      IdleFollows(s, SendAccept(s, rnti), after);
    }
  }

  lemma AcceptFollows(s: State, c: nat, x: NasContext, s1: State, k: Kind, after: nat -> Standing)
    requires c in s.ctxs && s1 == Put(s, c, x).(tmsiIndex := s1.tmsiIndex) && Only(s, c, StandingOf(x), after)
    ensures Follows(s, SendCiphered(s1, c, k), [Says(c, Sort(k))], after, s.rntiIndex)
  {
    SendFollows(s1, c, k, after);
  }

  lemma ReleaseFollows(s: State, rnti: nat, after: nat -> Standing)
    requires Unmoved(s, after)
    ensures var c := At(s, s.rntiIndex, rnti);
            Follows(s, Release(s, rnti), if c.Some? then [Ends(c.value)] else [], after, if c.Some? then map[] else s.rntiIndex)
  {
    var f := Find(s, s.rntiIndex, rnti);
    if f.Live? { ActedNote(s.log, Deleted(f.id)); }
  }

  lemma UpdateFollows(s: State, rnti: nat, after: nat -> Standing)
    requires Unmoved(s, after)
    ensures var c := At(s, s.rntiIndex, rnti);
            Follows(s, UpdateConfiguration(s, rnti), if c.Some? then [Says(c.value, ConfigurationUpdate)] else [], after, s.rntiIndex)
  {
    var f := Find(s, s.rntiIndex, rnti);
    if f.Live? { SendFollows(s, f.id, ConfigurationUpdate, after); }
  }

  lemma VoiceFollows(s: State, rnti: nat, flag: nat, after: nat -> Standing)
    requires Unmoved(s, after)
    ensures var c := At(s, s.rntiIndex, rnti);
            Follows(s, ModifyVoice(s, rnti, flag),
                    if c.Some? && (flag == 2 || flag == 3) then [Says(c.value, VoiceModification)] else [], after, s.rntiIndex)
  {
    var f := Find(s, s.rntiIndex, rnti);
    if f.Live? { ActedNote(s.log, Sent(f.id, CipheredMessage(s, f.id, VoiceModification, s.ctxs[f.id].sec.wide))); }
  }

  /** Every event, in every state, does what its line of the table says. */
  lemma StepFollowsTable(s: State, e: Event, was: nat -> Standing)
    requires Before(s, was)
    ensures StepsBy(s, Step(s, e), e, was)
  {
    if !s.fault.NoFault? || (e.Uplink? && !Dispatched(s, e)) {
      IdleFollows(s, Step(s, e), After(s, e, was));
    } else if e.Uplink? {
      UplinkSteps(s, e, was);
    } else {
      NetworkSteps(s, e, was);
    }
  }

  lemma NetworkSteps(s: State, e: Event, was: nat -> Standing)
    requires Before(s, was) && s.fault.NoFault? && !e.Uplink?
    ensures StepsBy(s, Step(s, e), e, was)
  {
    var after := After(s, e, was);
    match e
    case AcceptTrigger(r) => TriggerFollows(s, r, after);
    case RrcRelease(r) => ReleaseFollows(s, r, after);
    case UserRelease(r) => IdlenessFollows(s, r, after);
    case ConfigUpdate(r) => UpdateFollows(s, r, after);
    case VoiceModify(r, flag) => VoiceFollows(s, r, flag, after);
  }

  // ------------------------------------------------- whole runs

  function StandingIn(es: seq<Event>, c: nat): Standing
    decreases |es|
  {
    if es == [] then Newborn(0)
    else
      var front := es[..|es| - 1];
      StandingAfter(StandingIn(front, c), Run(INITIAL, front), es[|es| - 1], c)
  }

  function ActsIn(es: seq<Event>): seq<Act>
    decreases |es|
  {
    if es == [] then []
    else
      var front := es[..|es| - 1];
      ActsIn(front) + ActsAt(Run(INITIAL, front), es[|es| - 1])
  }

  /** What a run did, and the contexts it left, are what the lines of its events
      say; a context is there exactly when it was started and not ended. */
  ghost predicate AsTold(es: seq<Event>) {
    var s, acts := Run(INITIAL, es), ActsIn(es);
    && s.gutiIndex == map[] && Acted(s.log) == acts
    && (forall c :: c in s.ctxs <==> Starts(c) in acts && Ends(c) !in acts)
    && (forall c: nat :: Starts(c) in acts || Ends(c) in acts ==> c < s.next)
    && (forall c :: c in s.ctxs ==> StandingOf(s.ctxs[c]) == StandingIn(es, c))
  }

  /** Only the next context starts, and only a live one ends. */
  lemma ActsSane(s: State, e: Event)
    ensures forall c :: Starts(c) in ActsAt(s, e) ==> c == s.next && Births(ActsAt(s, e)) == 1
    ensures forall c :: Ends(c) in ActsAt(s, e) ==> c in s.ctxs
  {
  }

  function Told(es: seq<Event>): nat -> Standing { (c: nat) => StandingIn(es, c) }

  lemma {:induction false} RunAsTold(es: seq<Event>)
    ensures AsTold(es)
  {
    if es != [] {
      var front, e := es[..|es| - 1], es[|es| - 1];
      var s := Run(INITIAL, front);
      RunAsTold(front);
      ActsSane(s, e);
      StepFollowsTable(s, e, Told(front));
      assert forall c: nat :: After(s, e, Told(front))(c) == StandingIn(es, c);
      StillTold(s, Step(s, e), ActsIn(front), ActsAt(s, e));
    }
  }

  lemma StillTold(s: State, s': State, acts: seq<Act>, more: seq<Act>)
    requires forall c :: c in s.ctxs <==> Starts(c) in acts && Ends(c) !in acts
    requires forall c: nat :: Starts(c) in acts || Ends(c) in acts ==> c < s.next
    requires forall c :: c in s'.ctxs <==> (c in s.ctxs || Starts(c) in more) && Ends(c) !in more
    requires s'.next == s.next + Births(more)
    requires forall c :: Starts(c) in more ==> c == s.next && Births(more) == 1
    requires forall c :: Ends(c) in more ==> c in s.ctxs
    ensures forall c :: c in s'.ctxs <==> Starts(c) in acts + more && Ends(c) !in acts + more
    ensures forall c: nat :: Starts(c) in acts + more || Ends(c) in acts + more ==> c < s'.next
  {
  }

  // ------------------------------------------------- what it means

  /** The event is this message, dispatched on an RNTI that leads to `c`. */
  predicate Brings(s: State, e: Event, c: nat, m: UplinkMessage) {
    e.Uplink? && Dispatched(s, e) && e.body.value == m && At(s, s.rntiIndex, e.rnti) == Some(c)
  }

  /** It is a Service Request with the TMSI that leads to `c`. */
  predicate BringsService(s: State, e: Event, c: nat) {
    && e.Uplink? && Dispatched(s, e)
    && e.body.value.ServiceRequest? && At(s, s.tmsiIndex, e.body.value.tmsi) == Some(c)
  }

  /** At which events of the run this message came from `c`. */
  function Received(es: seq<Event>, c: nat, m: UplinkMessage): (r: seq<bool>)
    ensures |r| == |es|
  { seq(|es|, n requires 0 <= n < |es| => Brings(Run(INITIAL, es[..n]), es[n], c, m)) }

  function Requested(es: seq<Event>, c: nat): (r: seq<bool>)
    ensures |r| == |es|
  { seq(|es|, n requires 0 <= n < |es| => BringsService(Run(INITIAL, es[..n]), es[n], c)) }

  /** At which events this was said to `c`. */
  function Said(es: seq<Event>, c: nat, k: Kind): (r: seq<bool>)
    ensures |r| == |es|
  { seq(|es|, n requires 0 <= n < |es| => Says(c, k) in ActsAt(Run(INITIAL, es[..n]), es[n])) }

  /** Asked for at some point, and not answered since. */
  predicate Owed(asked: seq<bool>, answered: seq<bool>)
    requires |asked| == |answered|
  { exists n :: 0 <= n < |asked| && asked[n] && forall i :: n < i < |answered| ==> !answered[i] }

  lemma OwedOne(asked: seq<bool>, answered: seq<bool>, a: bool, b: bool)
    requires |asked| == |answered|
    ensures Owed(asked + [a], answered + [b]) <==> a || (Owed(asked, answered) && !b)
    ensures true in asked + [a] <==> true in asked || a
  {
    var xs, ys := asked + [a], answered + [b];
    if a { assert xs[|asked|]; }
    if Owed(asked, answered) && !b {
      var n :| 0 <= n < |asked| && asked[n] && forall i :: n < i < |answered| ==> !answered[i];
      assert xs[n];
    }
    if Owed(xs, ys) {
      var n :| 0 <= n < |xs| && xs[n] && forall i :: n < i < |ys| ==> !ys[i];
      if n < |asked| {
        assert asked[n] && !ys[|asked|];
        assert forall i :: n < i < |answered| ==> answered[i] == ys[i];
      }
    }
  }

  ghost predicate EverCompleted(es: seq<Event>, c: nat) { true in Received(es, c, RegistrationComplete) }

  ghost predicate RegistrationOwed(es: seq<Event>, c: nat) {
    Owed(Received(es, c, SecurityModeComplete), Said(es, c, RegistrationAccept))
  }

  ghost predicate ServiceOwed(es: seq<Event>, c: nat) { Owed(Requested(es, c), Said(es, c, ServiceAccept)) }

  lemma ReceivedSnoc(es: seq<Event>, e: Event, c: nat, m: UplinkMessage)
    ensures Received(es + [e], c, m) == Received(es, c, m) + [Brings(Run(INITIAL, es), e, c, m)]
  {
    assert (es + [e])[..|es|] == es;
    forall n | 0 <= n < |es| ensures (es + [e])[..n] == es[..n] { }
  }

  lemma RequestedSnoc(es: seq<Event>, e: Event, c: nat)
    ensures Requested(es + [e], c) == Requested(es, c) + [BringsService(Run(INITIAL, es), e, c)]
  {
    assert (es + [e])[..|es|] == es;
    forall n | 0 <= n < |es| ensures (es + [e])[..n] == es[..n] { }
  }

  lemma SaidSnoc(es: seq<Event>, e: Event, c: nat, k: Kind)
    ensures Said(es + [e], c, k) == Said(es, c, k) + [Says(c, k) in ActsAt(Run(INITIAL, es), e)]
  {
    assert (es + [e])[..|es|] == es;
    forall n | 0 <= n < |es| ensures (es + [e])[..n] == es[..n] { }
  }

  lemma CompletedSnoc(es: seq<Event>, e: Event, c: nat)
    ensures EverCompleted(es + [e], c) <==> EverCompleted(es, c) || Brings(Run(INITIAL, es), e, c, RegistrationComplete)
  {
    var last := Brings(Run(INITIAL, es), e, c, RegistrationComplete);
    ReceivedSnoc(es, e, c, RegistrationComplete);
    OwedOne(Received(es, c, RegistrationComplete), Received(es, c, RegistrationComplete), last, last);
  }

  lemma RegistrationSnoc(es: seq<Event>, e: Event, c: nat)
    ensures RegistrationOwed(es + [e], c) <==>
            || Brings(Run(INITIAL, es), e, c, SecurityModeComplete)
            || (RegistrationOwed(es, c) && Says(c, RegistrationAccept) !in ActsAt(Run(INITIAL, es), e))
  {
    ReceivedSnoc(es, e, c, SecurityModeComplete);
    SaidSnoc(es, e, c, RegistrationAccept);
    OwedOne(Received(es, c, SecurityModeComplete), Said(es, c, RegistrationAccept),
            Brings(Run(INITIAL, es), e, c, SecurityModeComplete), Says(c, RegistrationAccept) in ActsAt(Run(INITIAL, es), e));
  }

  lemma ServiceSnoc(es: seq<Event>, e: Event, c: nat)
    ensures ServiceOwed(es + [e], c) <==>
            || BringsService(Run(INITIAL, es), e, c)
            || (ServiceOwed(es, c) && Says(c, ServiceAccept) !in ActsAt(Run(INITIAL, es), e))
  {
    RequestedSnoc(es, e, c);
    SaidSnoc(es, e, c, ServiceAccept);
    OwedOne(Requested(es, c), Said(es, c, ServiceAccept),
            BringsService(Run(INITIAL, es), e, c), Says(c, ServiceAccept) in ActsAt(Run(INITIAL, es), e));
  }

  /** Whom anything was received from was there, so its number was in use. */
  lemma {:induction false} OwedInUse(es: seq<Event>, c: nat)
    ensures EverCompleted(es, c) || RegistrationOwed(es, c) || ServiceOwed(es, c) ==> c < Run(INITIAL, es).next
  {
    if es != [] {
      var front, e := es[..|es| - 1], es[|es| - 1];
      assert es == front + [e];
      OwedInUse(front, c);
      CompletedSnoc(front, e, c);
      RegistrationSnoc(front, e, c);
      ServiceSnoc(front, e, c);
      RunAsTold(front);
      BringerInUse(Run(INITIAL, front), e, c);
      NextGrows(Run(INITIAL, front), e);
    }
  }

  lemma BringerInUse(s: State, e: Event, c: nat)
    ensures Brings(s, e, c, RegistrationComplete) || Brings(s, e, c, SecurityModeComplete) || BringsService(s, e, c) ==> c in s.ctxs
  {
  }

  lemma NextGrows(s: State, e: Event)
    requires s.gutiIndex == map[] && s.next !in s.ctxs
    ensures Step(s, e).next >= s.next
  {
    StepFollowsTable(s, e, (c: nat) => if c in s.ctxs then StandingOf(s.ctxs[c]) else Newborn(0));
  }

  /** What an event makes of the three flags of a context. */
  predicate Flags(s: State, e: Event, c: nat, now: Standing) {
    && (now.mm.Registered? <==> Brings(s, e, c, RegistrationComplete) || (c in s.ctxs && s.ctxs[c].mm.Registered?))
    && (now.regPending <==>
          Brings(s, e, c, SecurityModeComplete)
          || (c in s.ctxs && s.ctxs[c].regPending && Says(c, RegistrationAccept) !in ActsAt(s, e)))
    && (now.svcPending <==>
          BringsService(s, e, c)
          || (c in s.ctxs && s.ctxs[c].svcPending && Says(c, ServiceAccept) !in ActsAt(s, e)))
  }

  lemma LastStanding(s: State, e: Event, c: nat, was: Standing)
    requires c in s.ctxs ==> was == StandingOf(s.ctxs[c])
    requires s.next !in s.ctxs && (c in s.ctxs || Starts(c) in ActsAt(s, e))
    ensures Flags(s, e, c, StandingAfter(was, s, e, c))
  {
  }

  function Now(s: State): nat -> Standing { (c: nat) => if c in s.ctxs then StandingOf(s.ctxs[c]) else Newborn(0) }

  lemma StepFlags(s: State, s': State, e: Event, c: nat)
    requires s.gutiIndex == map[] && s.next !in s.ctxs && s' == Step(s, e) && c in s'.ctxs
    ensures Flags(s, e, c, StandingOf(s'.ctxs[c]))
  {
    StepFollowsTable(s, e, Now(s));
    LastStanding(s, e, c, Now(s)(c));
  }

  /** On every run a context is registered exactly if a Registration Complete ever
      came from it, owes a Registration Accept exactly if a Security Mode Complete
      came from it since the last one, and a Service Accept exactly if a Service
      Request reached it since the last one. */
  lemma {:induction false} StandingExactly(es: seq<Event>, c: nat)
    requires c in Run(INITIAL, es).ctxs
    ensures var x := Run(INITIAL, es).ctxs[c];
            && (x.mm.Registered? <==> EverCompleted(es, c))
            && (x.regPending <==> RegistrationOwed(es, c))
            && (x.svcPending <==> ServiceOwed(es, c))
    decreases |es|
  {
    if es != [] {
      var front, e := es[..|es| - 1], es[|es| - 1];
      assert es == front + [e];
      RunAsTold(front);
      if c in Run(INITIAL, front).ctxs { StandingExactly(front, c); }
      OwedInUse(front, c);
      CompletedSnoc(front, e, c);
      RegistrationSnoc(front, e, c);
      ServiceSnoc(front, e, c);
      StepFlags(Run(INITIAL, front), Run(INITIAL, es), e, c);
      if c !in Run(INITIAL, front).ctxs { StartsFresh(Run(INITIAL, front), e, c); }
    }
  }

  lemma StartsFresh(s: State, e: Event, c: nat)
    requires s.gutiIndex == map[] && s.next !in s.ctxs && c !in s.ctxs && c in Step(s, e).ctxs
    ensures c == s.next
  {
    StepFollowsTable(s, e, Now(s));
    ActsSane(s, e);
  }

  /** A registration with a GUTI the network knows: a deregistered UE whose message
      checks is taken over as it is, on its new RNTI, and nothing is sent; any other
      starts over there with its keys and cleared counts, loses its old RNTI, and is
      challenged if its subscriber is known. */
  lemma KnownGutiDecided(s: State, rnti: nat, c: nat, msgValid: bool, known: bool)
    requires c in s.ctxs
    ensures var t, x := RegisterKnown(s, rnti, c, msgValid, known), s.ctxs[c];
            && c in t.ctxs && t.ctxs == s.ctxs[c := t.ctxs[c]] && t.tmsiIndex == s.tmsiIndex && t.fault == s.fault
            && t.ctxs[c].rnti == rnti && t.ctxs[c].sec == x.sec && t.ctxs[c].mm == Deregistered && t.ctxs[c].sm == x.sm
            && if msgValid && x.mm == Deregistered
               then t.log == s.log && t.ctxs[c].dl == x.dl && t.ctxs[c].ul == (x.ul + 1) % 0x1_0000_0000
                    && t.rntiIndex == WithEntry(s.rntiIndex, rnti, c)
               else t.log == s.log + (if known then [Sent(c, Plain(AuthRequest))] else [])
                    && t.ctxs[c].dl == 0 && t.ctxs[c].ul == 0
                    && t.rntiIndex == WithEntry(if x.rnti == 0 then s.rntiIndex else s.rntiIndex - {x.rnti}, rnti, c)
  {
  }

  // ------------------------------------------------- breakdowns

  /** An initial message or a network command for a UE without a context, or a
      session answer for a context that its own RNTI no longer leads to. */
  predicate FindsNone(s: State, e: Event) {
    if e.VoiceModify? then e.rnti !in s.rntiIndex
    else
      && e.Uplink? && Dispatched(s, e)
      && match e.body.value
         case AuthenticationResponse(_, _, _, _) => e.rnti !in s.rntiIndex
         case IdentityResponse(id) => !id.OtherIdentity? && e.rnti !in s.rntiIndex
         case UlNasTransport(Some(p)) =>
           if e.rnti !in s.rntiIndex
           then p.sid == 1 || p.sid == 2 || p.kind.EstablishmentRequest? || p.kind.AuthenticationComplete? || p.kind.ModificationComplete?
           else
             && s.rntiIndex[e.rnti] in s.ctxs && (p.kind.EstablishmentRequest? || p.kind.AuthenticationComplete?)
             && s.ctxs[s.rntiIndex[e.rnti]].rnti !in s.rntiIndex
         case _ => false
  }

  /** An uplink message too short for its header, or the short-header answer to a
      Deregistration Request in a long-header context that ciphers. */
  predicate RunsOver(s: State, e: Event) {
    && e.Uplink?
    && if Dispatched(s, e)
       then
         && e.body.value.DeregistrationRequest? && !e.body.value.switchOff && e.body.value.guti.Some?
         && var c := At(s, s.tmsiIndex, e.body.value.guti.value);
            c.Some? && s.ctxs[c.value].sec.wide && s.ctxs[c.value].sec.Ciphers()
       else
         && !e.initial && At(s, s.rntiIndex, e.rnti).Some? && e.opening.Overran?
         && (e.header == IntegrityProtected || e.header == Ciphered || e.header == CipheredNewContext)
  }

  /** Every entry leads to a live context. */
  ghost predicate AllLive(s: State) {
    && (forall r :: r in s.rntiIndex ==> s.rntiIndex[r] in s.ctxs)
    && (forall t :: t in s.tmsiIndex ==> s.tmsiIndex[t] in s.ctxs)
    && s.gutiIndex == map[]
  }

  /** A step breaks down on a null pointer exactly where no context is found, over
      the end of a buffer exactly where a message is too short, and on a deleted
      context only where an index still leads to one. */
  lemma BreaksExactly(s: State, e: Event)
    requires s.fault.NoFault?
    ensures Step(s, e).fault.NullContext? <==> FindsNone(s, e)
    ensures Step(s, e).fault.Overrun? <==> RunsOver(s, e)
    ensures AllLive(s) ==> !Step(s, e).fault.Dangling? && !Step(s, e).fault.DoubleFree?
  {
    if e.Uplink? && Dispatched(s, e) { DispatchBreaks(s, e); }
  }

  lemma DispatchBreaks(s: State, e: Event)
    requires s.fault.NoFault? && e.Uplink? && Dispatched(s, e)
    ensures var f := Dispatch(s, e.rnti, e.body.value).fault;
            (f.NullContext? <==> FindsNone(s, e)) && (f.Overrun? <==> RunsOver(s, e))
            && (AllLive(s) ==> !f.Dangling? && !f.DoubleFree?)
  {
    var m := e.body.value;
    if m.RegistrationRequest? { RegistrationBreaks(s, e.rnti, m.id); }
    if m.DeregistrationRequest? && m.guti.Some? && At(s, s.tmsiIndex, m.guti.value).Some? {
      DeregistrationAcceptBounds(s.ctxs[s.tmsiIndex[m.guti.value]].sec);
    }
    if m.UlNasTransport? && m.sm.Some? { SessionBreaks(s, e.rnti, m.sm.value); }
  }

  lemma RegistrationBreaks(s: State, rnti: nat, id: Identity)
    requires s.fault.NoFault?
    ensures var f := Register(s, rnti, id).fault; f.NoFault? || (f.Dangling? && s.gutiIndex != map[])
  {
  }

  lemma SessionBreaks(s: State, rnti: nat, p: SmPdu)
    requires s.fault.NoFault?
    ensures var f := HandleSession(s, rnti, p).fault;
            && (f.NullContext? <==>
                  if rnti !in s.rntiIndex
                  then p.sid == 1 || p.sid == 2 || p.kind.EstablishmentRequest? || p.kind.AuthenticationComplete? || p.kind.ModificationComplete?
                  else
                    && s.rntiIndex[rnti] in s.ctxs && (p.kind.EstablishmentRequest? || p.kind.AuthenticationComplete?)
                    && s.ctxs[s.rntiIndex[rnti]].rnti !in s.rntiIndex)
            && !f.Overrun? && (AllLive(s) ==> !f.Dangling? && !f.DoubleFree?)
  {
    var f := Find(s, s.rntiIndex, rnti);
    if f.Live? {
      var s1 := Marked(s, f.id, p);
      assert s1.ctxs[f.id].rnti == s.ctxs[f.id].rnti && s1.fault == s.fault && s1.ctxs.Keys == s.ctxs.Keys;
    }
  }
}

/** NAS COUNTs over whole runs (section 4.4.3.1 of 3GPP TS 24.501): the count
    each downlink message is protected with, exactly which messages of one
    security context share a count and which still show it on the wire, and
    that the stored uplink count never moves. */
module NasCounts {
  import opened Options
  import opened Bytes
  import opened NasEngine
  import Envelope

  /** The entries the downlink count of `c` moves on with: every protected
      message but the voice modification, the Authentication Reject and the
      Service Request. */
  predicate MovesCount(e: Entry, c: nat) {
    e == SvcHandled(c)
    || (e.Sent? && e.c == c && if e.msg.Protected? then !e.msg.kind.VoiceModification? else e.msg.kind.AuthReject?)
  }

  /** How often the count of `c` moved on since its security context was made. */
  function Moved(log: seq<Entry>, c: nat): nat
    decreases |log|
  {
    if log == [] then 0
    else
      var e := log[|log| - 1];
      if e == Reset(c) then 0
      else Moved(log[..|log| - 1], c) + if MovesCount(e, c) then 1 else 0
  }

  /** The three reads of the count gave one value: header, cipher and MAC agree,
      and the header has the format of the context.  The exceptions are the
      Security Mode Command, which is not ciphered and whose header always says
      0, and the Deregistration Accept, whose header is always short. */
  predicate OneCount(m: Message) {
    m.Protected? ==>
      && (if m.cipherCount.Some? then m.cipherCount.value == m.macCount && m.sn == m.macCount % 256
          else m.sn == 0)
      && (m.cipherCount.None? <==> m.kind.SecurityModeCommand?)
      && m.wideHeader == (m.sec.wide && !m.kind.DeregistrationAccept?)
  }

  /** The count of `e`, coming after `log`, is the number of moves before it. */
  predicate Fits(log: seq<Entry>, e: Entry) {
    e.Sent? && e.msg.Protected? ==> OneCount(e.msg) && e.msg.macCount == Moved(log, e.c) % COUNT_SIZE
  }

  predicate AllFit(log: seq<Entry>)
    decreases |log|
  {
    log == [] || (AllFit(log[..|log| - 1]) && Fits(log[..|log| - 1], log[|log| - 1]))
  }

  ghost predicate CountsKept(s: State) {
    && AllFit(s.log)
    && (forall c :: c in s.ctxs ==> c < s.next && s.ctxs[c].ul == 0 && s.ctxs[c].dl == Moved(s.log, c) % COUNT_SIZE)
    && (forall c :: c >= s.next ==> Moved(s.log, c) == 0)
    && s.gutiIndex == map[]
  }

  // ------------------------------------------------- building blocks

  lemma MovedNote(log: seq<Entry>, e: Entry, c: nat)
    ensures Moved(log + [e], c) ==
            if e == Reset(c) then 0 else Moved(log, c) + if MovesCount(e, c) then 1 else 0
    ensures AllFit(log + [e]) <==> AllFit(log) && Fits(log, e)
  {
    assert (log + [e])[..|log|] == log;
  }

  /** What a handler does to the context it speaks for: note an entry and
      store a count. */
  lemma NotePutKeeps(s: State, e: Entry, c: nat, x: NasContext)
    requires CountsKept(s) && c in s.ctxs && e.c == c && x.ul == 0 && Fits(s.log, e)
    requires x.dl == if e.Reset? then 0 else if MovesCount(e, c) then (s.ctxs[c].dl + 1) % COUNT_SIZE else s.ctxs[c].dl
    ensures CountsKept(Put(Note(s, e), c, x))
  {
    forall d ensures Moved(Note(s, e).log, d) == if d == c && e.Reset? then 0
                                                 else Moved(s.log, d) + if MovesCount(e, d) then 1 else 0
             ensures AllFit(Note(s, e).log)
    {
      MovedNote(s.log, e, d);
    }
    BumpedCount(Moved(s.log, c));
    assert x.dl == Moved(Note(s, e).log, c) % COUNT_SIZE;
  }

  lemma BumpedCount(n: nat)
    ensures (n % COUNT_SIZE + 1) % COUNT_SIZE == (n + 1) % COUNT_SIZE
  {
  }

  lemma NoteKeeps(s: State, e: Entry, c: nat)
    requires CountsKept(s) && c in s.ctxs && e.c == c && !e.Reset? && Fits(s.log, e) && !MovesCount(e, c)
    ensures CountsKept(Note(s, e))
  {
    NotePutKeeps(s, e, c, s.ctxs[c]);
    assert s.ctxs[c := s.ctxs[c]] == s.ctxs;
  }

  lemma PutKeeps(s: State, c: nat, x: NasContext)
    requires CountsKept(s) && c in s.ctxs && x.dl == s.ctxs[c].dl && x.ul == 0
    ensures CountsKept(Put(s, c, x))
  {
  }

  lemma SendCipheredKeeps(s: State, c: nat, k: Kind)
    requires CountsKept(s) && c in s.ctxs && !k.VoiceModification? && !k.DeregistrationAccept? && !k.SecurityModeCommand?
    ensures CountsKept(SendCiphered(s, c, k))
  {
    NotePutKeeps(s, Sent(c, CipheredMessage(s, c, k, s.ctxs[c].sec.wide)), c, Bump(s.ctxs[c]));
  }

  /** A context that goes away takes its count with it. */
  lemma DropKeeps(s: State, c: nat, r: map<nat, nat>, t: map<nat, nat>)
    requires CountsKept(s) && c in s.ctxs
    ensures CountsKept(Note(s, Deleted(c)).(ctxs := s.ctxs - {c}, rntiIndex := r, tmsiIndex := t))
  {
    forall d ensures Moved(Note(s, Deleted(c)).log, d) == Moved(s.log, d)
             ensures AllFit(Note(s, Deleted(c)).log)
    {
      MovedNote(s.log, Deleted(c), d);
    }
  }

  // ------------------------------------------------- handlers

  lemma BornKeeps(s: State, rnti: nat, sec: Envelope.SecCtx)
    requires CountsKept(s)
    ensures CountsKept(Born(s, rnti, sec))
  {
    forall d ensures Moved(Born(s, rnti, sec).log, d) == Moved(s.log, d)
             ensures AllFit(Born(s, rnti, sec).log)
    {
      MovedNote(s.log, Created(s.next), d);
    }
  }

  lemma RegisterKeeps(s: State, rnti: nat, id: Identity)
    requires CountsKept(s)
    ensures CountsKept(Register(s, rnti, id))
  {
    if !id.OtherIdentity? {
      var sec := if id.Suci? then FreshSec().(cipher := id.cipher, integ := id.integ) else FreshSec();
      var s1, c := Born(s, rnti, sec), s.next;
      BornKeeps(s, rnti, sec);
      IndexedKeeps(s1, rnti, c);
      NoteKeeps(Indexed(s1, rnti, c), Sent(c, Plain(AuthRequest)), c);
    }
  }

  lemma IndexedKeeps(s: State, rnti: nat, c: nat)
    requires CountsKept(s)
    ensures CountsKept(Indexed(s, rnti, c))
  {
  }

  /** The Deregistration Accept is the last message of its context. */
  lemma DeregisterKeeps(s: State, tmsi: Option<nat>, off: bool)
    requires CountsKept(s)
    ensures CountsKept(Deregister(s, tmsi, off))
  {
    if tmsi.Some? && Find(s, s.tmsiIndex, tmsi.value).Live? {
      var c := s.tmsiIndex[tmsi.value];
      var r, t := s.rntiIndex - {s.ctxs[c].rnti}, s.tmsiIndex - {tmsi.value};
      if off {
        DropKeeps(s, c, r, t);
      } else {
        FarewellKeeps(s, c, r, t);
      }
    }
  }

  lemma FarewellKeeps(s: State, c: nat, r: map<nat, nat>, t: map<nat, nat>)
    requires CountsKept(s) && c in s.ctxs
    ensures var s1 := Note(s, Sent(c, CipheredMessage(s, c, DeregistrationAccept, false)));
            CountsKept(Note(s1, Deleted(c)).(ctxs := s.ctxs - {c}, rntiIndex := r, tmsiIndex := t))
  {
    var m := CipheredMessage(s, c, DeregistrationAccept, false);
    var s1 := Put(Note(s, Sent(c, m)), c, Bump(s.ctxs[c]));
    NotePutKeeps(s, Sent(c, m), c, Bump(s.ctxs[c]));
    DropKeeps(s1, c, r, t);
    assert s1.ctxs - {c} == s.ctxs - {c};
  }

  lemma RequestServiceKeeps(s: State, rnti: nat, tmsi: nat)
    requires CountsKept(s)
    ensures CountsKept(RequestService(s, rnti, tmsi))
  {
    var f := Find(s, s.tmsiIndex, tmsi);
    if f.Live? {
      NotePutKeeps(s, SvcHandled(f.id), f.id, Bump(s.ctxs[f.id].(rnti := rnti, svcPending := true)));
    }
  }

  lemma AnswerKeeps(s: State, rnti: nat, ok: bool, wide: bool, kEnc: seq<byte>, kInt: seq<byte>)
    requires CountsKept(s)
    ensures CountsKept(AnswerAuthentication(s, rnti, ok, wide, kEnc, kInt))
  {
    var f := Find(s, s.rntiIndex, rnti);
    if f.Live? {
      var c := f.id;
      var x := s.ctxs[c].(sec := s.ctxs[c].sec.(wide := wide));
      if ok {
        var y := x.(ul := 0, sec := x.sec.(kEnc := kEnc, kInt := kInt));
        var s1 := Put(s, c, y);
        PutKeeps(s, c, y);
        NotePutKeeps(s1, Sent(c, WithMac(s1, c, Draft(SecurityModeCommand, wide, 0, None))), c, Bump(y));
      } else {
        NotePutKeeps(s, Sent(c, Plain(AuthReject)), c, Bump(x));
      }
    }
  }

  lemma SendSessionKeeps(s: State, c: nat)
    requires CountsKept(s) && c in s.ctxs
    ensures CountsKept(SendSession(s, c))
  {
    var m := s.ctxs[c].sm;
    var k := if m.isAccept then SessionAccept(m.Sid(m.isIms), m.Pti(m.isIms)) else SessionAuthResult;
    var f := Find(s, s.rntiIndex, s.ctxs[c].rnti);
    if f.Live? { SendCipheredKeeps(s, f.id, k); }
  }

  lemma HandleSessionKeeps(s: State, rnti: nat, p: SmPdu)
    requires CountsKept(s)
    ensures CountsKept(HandleSession(s, rnti, p))
  {
    var f := Find(s, s.rntiIndex, rnti);
    if f.Live? {
      var x := s.ctxs[f.id];
      NotePutKeeps(s, SmReceived(f.id, p.sid, p.kind, p.pti), f.id, x.(sm := AfterMessage(x.sm, p)));
      SendSessionKeeps(Marked(s, f.id, p), f.id);
    }
  }

  lemma InPlaceKeeps(s: State, rnti: nat)
    requires CountsKept(s)
    ensures CountsKept(CompleteRegistration(s, rnti)) && CountsKept(SetIdle(s, rnti))
  {
    var f := Find(s, s.rntiIndex, rnti);
    if f.Live? {
      var x := s.ctxs[f.id];
      PutKeeps(s, f.id, x.(mm := Registered, cm := Connected));
      PutKeeps(s, f.id, x.(cm := Idle));
    }
  }

  lemma NotedKeeps(s: State, rnti: nat)
    requires CountsKept(s)
    ensures CountsKept(CompleteSecurityMode(s, rnti)) && CountsKept(FailAuthentication(s, rnti))
  {
    var f := Find(s, s.rntiIndex, rnti);
    if f.Live? {
      var x := s.ctxs[f.id];
      NotePutKeeps(s, SmcHandled(f.id), f.id, x.(regPending := true));
      NotePutKeeps(s, Reset(f.id), f.id, x.(ul := 0, dl := 0, sec := FreshSec()));
    }
  }

  lemma GivenTmsiKeeps(s: State, c: nat)
    requires CountsKept(s) && c in s.ctxs
    ensures CountsKept(GivenTmsi(s, c))
  {
    PutKeeps(s, c, s.ctxs[c].(tmsi := TMSI, regPending := false));
  }

  lemma SendAcceptKeeps(s: State, rnti: nat)
    requires CountsKept(s)
    ensures CountsKept(SendAccept(s, rnti))
  {
    var f := Find(s, s.rntiIndex, rnti);
    if f.Live? {
      if s.ctxs[f.id].regPending {
        GivenTmsiKeeps(s, f.id);
        SendCipheredKeeps(GivenTmsi(s, f.id), f.id, RegistrationAccept);
      } else if s.ctxs[f.id].svcPending {
        PutKeeps(s, f.id, s.ctxs[f.id].(svcPending := false));
        SendCipheredKeeps(ServiceCleared(s, f.id), f.id, ServiceAccept);
      }
    }
  }

  lemma ReleaseKeeps(s: State, rnti: nat)
    requires CountsKept(s)
    ensures CountsKept(Release(s, rnti))
  {
    var f := Find(s, s.rntiIndex, rnti);
    if f.Live? { DropKeeps(s, f.id, map[], map[]); }
  }

  lemma ModifyVoiceKeeps(s: State, rnti: nat, flag: nat)
    requires CountsKept(s)
    ensures CountsKept(ModifyVoice(s, rnti, flag))
  {
    var f := Find(s, s.rntiIndex, rnti);
    if f.Live? {
      NoteKeeps(s, Sent(f.id, CipheredMessage(s, f.id, VoiceModification, s.ctxs[f.id].sec.wide)), f.id);
    }
  }

  // ------------------------------------------------- whole runs

  lemma DispatchKeeps(s: State, rnti: nat, m: UplinkMessage)
    requires CountsKept(s)
    ensures CountsKept(Dispatch(s, rnti, m))
  {
    match m
    case RegistrationRequest(id) => RegisterKeeps(s, rnti, id);
    case DeregistrationRequest(t, off) => DeregisterKeeps(s, t, off);
    case ServiceRequest(t) => RequestServiceKeeps(s, rnti, t);
    case AuthenticationResponse(ok, wide, kEnc, kInt) => AnswerKeeps(s, rnti, ok, wide, kEnc, kInt);
    case UlNasTransport(sm) => if sm.Some? { HandleSessionKeeps(s, rnti, sm.value); }
    case IdentityResponse(id) =>
    case AuthenticationFailure => NotedKeeps(s, rnti);
    case SecurityModeComplete => NotedKeeps(s, rnti);
    case _ => InPlaceKeeps(s, rnti);
  }

  lemma UplinkKeeps(s: State, e: Event)
    requires e.Uplink? && CountsKept(s)
    ensures CountsKept(HandleUplink(s, e))
  {
    if e.body.Some? { DispatchKeeps(s, e.rnti, e.body.value); }
  }

  lemma StepKeeps(s: State, e: Event)
    requires CountsKept(s)
    ensures CountsKept(Step(s, e))
  {
    match e
    case Uplink(_, _, _, _, _) => UplinkKeeps(s, e);
    case AcceptTrigger(r) => SendAcceptKeeps(s, r);
    case RrcRelease(r) => ReleaseKeeps(s, r);
    case UserRelease(r) => InPlaceKeeps(s, r);
    case VoiceModify(r, flag) => ModifyVoiceKeeps(s, r, flag);
    case ConfigUpdate(r) =>
      if Find(s, s.rntiIndex, r).Live? { SendCipheredKeeps(s, s.rntiIndex[r], ConfigurationUpdate); }
  }

  /** Every run, of any length and over any number of contexts. */
  lemma {:induction false} RunKeepsCounts(es: seq<Event>)
    ensures CountsKept(Run(INITIAL, es))
  {
    if es != [] {
      RunKeepsCounts(es[..|es| - 1]);
      StepKeeps(Run(INITIAL, es[..|es| - 1]), es[|es| - 1]);
    }
  }

  // ------------------------------------------------- what it means

  /** Position `i` of the log is a protected message of `c`. */
  predicate ProtectedAt(log: seq<Entry>, i: nat, c: nat) {
    i < |log| && log[i].Sent? && log[i].c == c && log[i].msg.Protected?
  }

  /** Nothing in `log[i..j]` replaces the security context of `c`. */
  predicate NoReset(log: seq<Entry>, i: nat, j: nat, c: nat)
    requires j <= |log|
  {
    forall k :: i <= k < j ==> log[k] != Reset(c)
  }

  /** How often the count of `c` moves on in `log[i..j]`. */
  function MovesIn(log: seq<Entry>, i: nat, j: nat, c: nat): nat
    requires j <= |log|
  {
    if j <= i then 0 else MovesIn(log, i, j - 1, c) + if MovesCount(log[j - 1], c) then 1 else 0
  }

  lemma {:induction false} MovesAdd(log: seq<Entry>, i: nat, j: nat, c: nat)
    requires i <= j <= |log| && NoReset(log, i, j, c)
    ensures Moved(log[..j], c) == Moved(log[..i], c) + MovesIn(log, i, j, c)
    decreases j
  {
    if i < j {
      MovesAdd(log, i, j - 1, c);
      assert log[..j] == log[..j - 1] + [log[j - 1]];
      MovedNote(log[..j - 1], log[j - 1], c);
    }
  }

  lemma {:induction false} NoMoves(log: seq<Entry>, i: nat, j: nat, c: nat)
    requires i <= j <= |log|
    ensures MovesIn(log, i, j, c) == 0 <==> forall k :: i <= k < j ==> !MovesCount(log[k], c)
    decreases j
  {
    if i < j { NoMoves(log, i, j - 1, c); }
  }

  lemma {:induction false} FitsAt(log: seq<Entry>, j: nat)
    requires AllFit(log) && j < |log|
    ensures Fits(log[..j], log[j])
    decreases |log|
  {
    if j < |log| - 1 {
      FitsAt(log[..|log| - 1], j);
      assert log[..|log| - 1][..j] == log[..j];
    }
  }

  /** On every run each protected message has its MAC under the number of moves
      since its security context was made, as a 32-bit count; a ciphered one took
      its cipher's count and its header's from the same value.  The header of the
      Security Mode Command is 0 whatever that count is. */
  lemma {:induction false} CountIsMoves(es: seq<Event>, c: nat, j: nat)
    requires ProtectedAt(Run(INITIAL, es).log, j, c)
    ensures var log := Run(INITIAL, es).log;
            log[j].msg.macCount == Moved(log[..j], c) % COUNT_SIZE && OneCount(log[j].msg)
  {
    RunKeepsCounts(es);
    FitsAt(Run(INITIAL, es).log, j);
  }

  // ------------------------------------------------- on the wire

  /** The Deregistration Accept of a long-header context. */
  predicate Misfit(m: Message) { m.Protected? && m.kind.DeregistrationAccept? && m.sec.wide }

  /** A body of the size its kind has. */
  predicate BodyFits(m: Message, body: seq<byte>) {
    |body| < 0x8000_0000 && (m.kind.DeregistrationAccept? ==> |body| == 3)
  }

  lemma MessageReadable(m: Message, body: seq<byte>)
    requires m.Protected? && OneCount(m) && BodyFits(m, body)
    ensures m.sn < 256
    ensures (forall crypto :: Envelope.Readable(crypto, m.sec, PartsOf(m, body)))
            <==> !(Misfit(m) && (m.sec.Protects() || m.sec.Ciphers()))
    ensures m.sn == m.macCount % 256 <==> !(m.kind.SecurityModeCommand? && m.macCount % 256 != 0)
  {
    var p := PartsOf(m, body);
    if m.kind.DeregistrationAccept? {
      assert p == Envelope.DeregistrationAccept(m.sn as byte, m.macCount, body);
      Envelope.DeregistrationAcceptExactly(m.sec, m.sn as byte, m.macCount, body);
    } else {
      forall crypto ensures Envelope.Readable(crypto, m.sec, p) { Envelope.MatchingHeaderReadable(crypto, m.sec, p); }
    }
  }

  /** On every run what is sent shows the low byte of its count in the header
      and opens to its body, whatever the algorithms are, with two exceptions:
      the Deregistration Accept of a long-header context that has an algorithm,
      and a Security Mode Command whose count is not 0 in its low byte. */
  lemma {:induction false} ReadableExactly(es: seq<Event>, c: nat, j: nat, body: seq<byte>)
    requires ProtectedAt(Run(INITIAL, es).log, j, c) && BodyFits(Run(INITIAL, es).log[j].msg, body)
    ensures var m := Run(INITIAL, es).log[j].msg;
            && m.sn < 256
            && ((forall crypto :: Envelope.Readable(crypto, m.sec, PartsOf(m, body))) && m.sn == m.macCount % 256
                <==> && !(Misfit(m) && (m.sec.Protects() || m.sec.Ciphers()))
                     && !(m.kind.SecurityModeCommand? && m.macCount % 256 != 0))
            && ((forall crypto :: Envelope.Readable(crypto, m.sec, PartsOf(m, body)))
                <==> !(Misfit(m) && (m.sec.Protects() || m.sec.Ciphers())))
  {
    CountIsMoves(es, c, j);
    MessageReadable(Run(INITIAL, es).log[j].msg, body);
  }

  /** When a receiver with a stored count of 0 gets the message, by what it was
      made from. */
  predicate Deliverable(m: Message, body: seq<byte>)
    requires m.Protected?
  {
    if Misfit(m) then !m.sec.Protects() && !m.sec.Ciphers()
    else if m.cipherCount.None? then m.macCount == 0 || !m.sec.Protects()
    else m.macCount < 256 || (!m.sec.Protects() && (!m.sec.Ciphers() || body == []))
  }

  lemma CommandDelivered(m: Message, body: seq<byte>)
    requires m.Protected? && OneCount(m) && BodyFits(m, body) && m.cipherCount.None?
    ensures (forall crypto :: Envelope.Delivered(crypto, m.sec, PartsOf(m, body))) <==> Deliverable(m, body)
  {
    var p := PartsOf(m, body);
    if Deliverable(m, body) {
      forall crypto ensures Envelope.Delivered(crypto, m.sec, p) { Envelope.CommandDelivered(crypto, m.sec, p); }
    } else {
      Envelope.CommandRefused(m.sec, p);
    }
  }

  lemma CipheredDelivered(m: Message, body: seq<byte>)
    requires m.Protected? && OneCount(m) && BodyFits(m, body) && m.cipherCount.Some? && !Misfit(m)
    ensures (forall crypto :: Envelope.Delivered(crypto, m.sec, PartsOf(m, body))) <==> Deliverable(m, body)
  {
    var p := PartsOf(m, body);
    assert p.sn as nat == m.macCount % 256 by { ByteValue(m.sn); }
    Envelope.OneCountDeliveredExactly(m.sec, p, m.macCount);
  }

  lemma MisfitDelivered(m: Message, body: seq<byte>)
    requires OneCount(m) && BodyFits(m, body) && Misfit(m)
    ensures m.sn < 256
    ensures (forall crypto :: Envelope.Delivered(crypto, m.sec, PartsOf(m, body))) <==> Deliverable(m, body)
  {
    assert PartsOf(m, body) == Envelope.DeregistrationAccept(m.sn as byte, m.macCount, body);
    Envelope.NarrowHeaderDelivered(m.sec, m.sn as byte, m.macCount, body);
  }

  lemma MessageDelivered(m: Message, body: seq<byte>)
    requires m.Protected? && OneCount(m) && BodyFits(m, body)
    ensures m.sn < 256
    ensures (forall crypto :: Envelope.Delivered(crypto, m.sec, PartsOf(m, body))) <==> Deliverable(m, body)
  {
    if Misfit(m) {
      MisfitDelivered(m, body);
    } else if m.cipherCount.Some? {
      CipheredDelivered(m, body);
    } else {
      CommandDelivered(m, body);
    }
  }

  /** On every run: a receiver that holds the keys and a stored count of 0 finds
      the sequence number of a message, accepts it and opens it, whatever the
      algorithms are, exactly when the number of moves says so: below 256 for a
      ciphered message, 0 for a Security Mode Command, or nothing depends on it;
      and the Deregistration Accept of a long-header context needs a context
      without algorithms. */
  lemma {:induction false} DeliveredExactly(es: seq<Event>, c: nat, j: nat, body: seq<byte>)
    requires ProtectedAt(Run(INITIAL, es).log, j, c) && BodyFits(Run(INITIAL, es).log[j].msg, body)
    ensures var log := Run(INITIAL, es).log;
            var m := log[j].msg;
            && m.sn < 256 && m.macCount == Moved(log[..j], c) % COUNT_SIZE
            && (m.cipherCount.None? <==> m.kind.SecurityModeCommand?)
            && ((forall crypto :: Envelope.Delivered(crypto, m.sec, PartsOf(m, body))) <==> Deliverable(m, body))
  {
    CountIsMoves(es, c, j);
    MessageDelivered(Run(INITIAL, es).log[j].msg, body);
  }

  /** The counts at two places of a log, `MovesIn` apart. */
  lemma CountsApart(log: seq<Entry>, c: nat, i: nat, j: nat)
    requires AllFit(log) && i < j && ProtectedAt(log, i, c) && ProtectedAt(log, j, c) && NoReset(log, i, j, c)
    ensures var n := Moved(log[..i], c);
            && Moved(log[..j], c) == n + MovesIn(log, i, j, c)
            && log[i].msg.macCount == n % COUNT_SIZE
            && log[j].msg.macCount == (n + MovesIn(log, i, j, c)) % COUNT_SIZE
  {
    FitsAt(log, i);
    FitsAt(log, j);
    MovesAdd(log, i, j, c);
  }

  lemma CountsIncreaseIn(log: seq<Entry>, c: nat, i: nat, j: nat)
    requires AllFit(log) && i < j && ProtectedAt(log, i, c) && ProtectedAt(log, j, c) && NoReset(log, i, j, c)
    requires Moved(log[..j], c) < COUNT_SIZE
    ensures log[i].msg.macCount <= log[j].msg.macCount
    ensures !log[i].msg.kind.VoiceModification? ==> log[i].msg.macCount < log[j].msg.macCount
  {
    CountsApart(log, c, i, j);
    NoMoves(log, i, j, c);
    NoWrap(Moved(log[..i], c));
    NoWrap(Moved(log[..j], c));
    assert !log[i].msg.kind.VoiceModification? ==> MovesCount(log[i], c);
  }

  lemma NoWrap(n: nat)
    ensures n < COUNT_SIZE ==> n % COUNT_SIZE == n
  {
  }

  /** Within one security context the counts never decrease before they wrap,
      and they increase strictly after anything but a voice modification. */
  lemma {:induction false} CountsIncrease(es: seq<Event>, c: nat, i: nat, j: nat)
    requires var log := Run(INITIAL, es).log;
             && i < j && ProtectedAt(log, i, c) && ProtectedAt(log, j, c) && NoReset(log, i, j, c)
             && Moved(log[..j], c) < COUNT_SIZE
    ensures var log := Run(INITIAL, es).log;
            && log[i].msg.macCount <= log[j].msg.macCount
            && (!log[i].msg.kind.VoiceModification? ==> log[i].msg.macCount < log[j].msg.macCount)
  {
    RunKeepsCounts(es);
    CountsIncreaseIn(Run(INITIAL, es).log, c, i, j);
  }

  lemma CountReusedIn(log: seq<Entry>, c: nat, i: nat, j: nat)
    requires AllFit(log) && i < j && ProtectedAt(log, i, c) && ProtectedAt(log, j, c) && NoReset(log, i, j, c)
    requires MovesIn(log, i, j, c) < COUNT_SIZE
    ensures log[i].msg.macCount == log[j].msg.macCount <==> forall k :: i <= k < j ==> !MovesCount(log[k], c)
  {
    CountsApart(log, c, i, j);
    NoMoves(log, i, j, c);
    SameRemainder(Moved(log[..i], c), MovesIn(log, i, j, c));
  }

  /** Two protected messages of one security context, fewer than 2^32 moves
      apart, share their count exactly when nothing from the earlier one on
      moved it, so that only voice modifications lie between. */
  lemma {:induction false} CountReusedExactly(es: seq<Event>, c: nat, i: nat, j: nat)
    requires var log := Run(INITIAL, es).log;
             && i < j && ProtectedAt(log, i, c) && ProtectedAt(log, j, c) && NoReset(log, i, j, c)
             && MovesIn(log, i, j, c) < COUNT_SIZE
    ensures var log := Run(INITIAL, es).log;
            log[i].msg.macCount == log[j].msg.macCount <==> forall k :: i <= k < j ==> !MovesCount(log[k], c)
  {
    RunKeepsCounts(es);
    CountReusedIn(Run(INITIAL, es).log, c, i, j);
  }

  lemma SameRemainder(a: nat, d: nat)
    requires d < COUNT_SIZE
    ensures (a + d) % COUNT_SIZE == a % COUNT_SIZE <==> d == 0
  {
  }

  /** In every reachable state the check and the decryption of any uplink
      message use the same count. */
  lemma {:induction false} UplinkCountsAgree(es: seq<Event>, c: nat, sn: byte)
    requires c in Run(INITIAL, es).ctxs
    ensures Envelope.EstimatedCount(Run(INITIAL, es).ctxs[c].ul, sn) == sn as nat
  {
    RunKeepsCounts(es);
  }

  // ------------------------------------------------- with the pointer set

  /** The step as it was meant: the pointer is that of the context found. */
  function IntendedUplink(s: State, e: Event): State
    requires e.Uplink?
  {
    var f := Find(s, s.rntiIndex, e.rnti);
    HandleUplinkBy(s, e, if !e.initial && f.Live? then Some(f.id) else None)
  }

  /** `n` uplink messages in a row that no handler acts on. */
  function Intended(s: State, rnti: nat, n: nat): State {
    if n == 0 then s
    else IntendedUplink(Intended(s, rnti, n - 1), Uplink(rnti, false, PlainNas, Opened, Some(OtherMessage)))
  }

  /** The context `c` is found by `rnti` and its uplink count is `n`. */
  ghost predicate CountedAt(s: State, rnti: nat, c: nat, n: nat) {
    s.fault.NoFault? && Find(s, s.rntiIndex, rnti) == Live(c) && s.ctxs[c].ul == n % COUNT_SIZE
  }

  lemma IntendedOne(s: State, rnti: nat, c: nat, n: nat)
    requires CountedAt(s, rnti, c, n)
    ensures CountedAt(IntendedUplink(s, Uplink(rnti, false, PlainNas, Opened, Some(OtherMessage))), rnti, c, n + 1)
  {
    BumpedCount(n);
  }

  lemma {:induction false} IntendedCounts(s: State, rnti: nat, c: nat, n: nat)
    requires CountedAt(s, rnti, c, 0)
    ensures CountedAt(Intended(s, rnti, n), rnti, c, n)
  {
    if n > 0 {
      IntendedCounts(s, rnti, c, n - 1);
      IntendedOne(Intended(s, rnti, n - 1), rnti, c, n - 1);
    }
  }

  /** With the pointer set, check and decryption agree after `n` messages exactly
      when bits 8 to 23 of `n` are zero: they part at the 256th. */
  lemma IntendedCountsPart(s: State, rnti: nat, c: nat, n: nat, sn: byte)
    requires CountedAt(s, rnti, c, 0)
    ensures var s' := Intended(s, rnti, n);
            && c in s'.ctxs
            && (Envelope.EstimatedCount(s'.ctxs[c].ul, sn) == sn as nat <==> n / 256 % 0x1_0000 == 0)
  {
    IntendedCounts(s, rnti, c, n);
    Envelope.CountsAgree(Intended(s, rnti, n).ctxs[c].ul, sn);
    MiddleBits(n);
  }

  lemma MiddleBits(n: nat)
    ensures n % COUNT_SIZE / 256 % 0x1_0000 == n / 256 % 0x1_0000
  {
    var q, r := n / COUNT_SIZE, n % COUNT_SIZE;
    assert n == q * 0x1_0000_0000 + r;
    assert n / 256 == (q * 256) * 0x1_0000 + r / 256;
    AddMultiple(q * 256, r / 256);
  }

  lemma AddMultiple(a: nat, t: nat)
    ensures (a * 0x1_0000 + t) % 0x1_0000 == t % 0x1_0000
  {
  }

  /** The stored uplink count never moves, so it guards against nothing: a
      message that opens under `c` opens again after any further run, as long as
      the security context of `c` is in place. */
  lemma {:induction false} ReplayAccepted(
    es: seq<Event>, more: seq<Event>, c: nat, crypto: Envelope.Crypto, msg: seq<byte>, n: nat)
    requires c in Run(INITIAL, es).ctxs && c in Run(INITIAL, es + more).ctxs
    requires Run(INITIAL, es + more).ctxs[c].sec == Run(INITIAL, es).ctxs[c].sec
    requires Envelope.LONGEST_HEADER < |msg| && n <= |msg|
    ensures var x, y := Run(INITIAL, es).ctxs[c], Run(INITIAL, es + more).ctxs[c];
            Envelope.VerdictOn(crypto, y.sec, y.ul, Envelope.Uplink, msg, n)
            == Envelope.VerdictOn(crypto, x.sec, x.ul, Envelope.Uplink, msg, n)
  {
    RunKeepsCounts(es);
    RunKeepsCounts(es + more);
  }

  const PROTECTING: Event :=
    Uplink(1, true, PlainNas, Opened, Some(RegistrationRequest(Suci(true, Envelope.EEA0, Envelope.EIA2))))
  const RESPONDING: Event :=
    Uplink(1, true, PlainNas, Opened, Some(AuthenticationResponse(true, true, [], [])))

  /** A duplicate Authentication Response makes a second Security Mode Command,
      which says 0 and is protected under 1: some algorithms refuse it. */
  lemma DuplicateResponse(body: seq<byte>)
    requires |body| < 0x8000_0000
    ensures var log := Run(INITIAL, [PROTECTING] + [RESPONDING] + [RESPONDING]).log;
            && |log| == 4 && ProtectedAt(log, 3, 0) && log[3].msg.kind.SecurityModeCommand?
            && log[3].msg.sn == 0 && log[3].msg.macCount == 1
            && exists crypto :: !Envelope.Delivered(crypto, log[3].msg.sec, PartsOf(log[3].msg, body))
  {
    var es := [PROTECTING] + [RESPONDING] + [RESPONDING];
    RunSnoc(INITIAL, [], PROTECTING);
    RunSnoc(INITIAL, [PROTECTING], RESPONDING);
    RunSnoc(INITIAL, [PROTECTING] + [RESPONDING], RESPONDING);
    assert [] + [PROTECTING] == [PROTECTING];
    var s1 := Step(INITIAL, PROTECTING);
    assert |s1.log| == 2 && s1.rntiIndex == map[1 := 0] && 0 in s1.ctxs && s1.ctxs[0].dl == 0 && s1.ctxs[0].sec.Protects();
    CommandSent(s1, 0);
    CommandSent(Step(s1, RESPONDING), 1);
    DeliveredExactly(es, 0, 3, body);
  }

  lemma CommandSent(s: State, n: nat)
    requires s.fault.NoFault? && s.rntiIndex == map[1 := 0] && 0 in s.ctxs && s.ctxs[0].dl == n < 2 && s.ctxs[0].sec.Protects()
    ensures var s' := Step(s, RESPONDING);
            && s'.fault.NoFault? && s'.rntiIndex == map[1 := 0] && 0 in s'.ctxs && s'.ctxs[0].dl == n + 1
            && s'.ctxs[0].sec.Protects() && |s'.log| == |s.log| + 1 && ProtectedAt(s'.log, |s.log|, 0)
            && s'.log[|s.log|].msg.kind.SecurityModeCommand? && s'.log[|s.log|].msg.sn == 0
            && s'.log[|s.log|].msg.macCount == n && s'.log[|s.log|].msg.sec.Protects()
  {
  }

  /** Two voice modifications in a row do use one count twice. */
  lemma VoiceReusesCount()
    ensures var reg := Uplink(1, true, PlainNas, Opened, Some(RegistrationRequest(Suci(true, Envelope.EEA0, Envelope.EIA0))));
            var log := Run(INITIAL, [reg] + [VoiceModify(1, 2)] + [VoiceModify(1, 2)]).log;
            && |log| == 4 && ProtectedAt(log, 2, 0) && ProtectedAt(log, 3, 0)
            && log[2].msg.macCount == log[3].msg.macCount
  {
    var reg := Uplink(1, true, PlainNas, Opened, Some(RegistrationRequest(Suci(true, Envelope.EEA0, Envelope.EIA0))));
    RunSnoc(INITIAL, [], reg);
    RunSnoc(INITIAL, [reg], VoiceModify(1, 2));
    RunSnoc(INITIAL, [reg] + [VoiceModify(1, 2)], VoiceModify(1, 2));
    assert [] + [reg] == [reg];
    var s1 := Step(INITIAL, reg);
    assert s1.log == [Created(0), Sent(0, Plain(AuthRequest))] && s1.rntiIndex == map[1 := 0];
  }
}

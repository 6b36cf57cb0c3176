/** The engine as the original runs it: context objects on the heap, held by
    pointer from the `std::map` indexes and updated field by field, and messages
    built and opened in byte buffers (srscnw/src/cnw.cc and the handlers it
    calls).  Every method is proved to take the step of `NasEngine` of the same
    meaning; the object keeps the run it is at the end of and the bytes it sent,
    so what is proved about runs holds of it (`EngineKeeps`). */
module Cnw {
  import opened Options
  import opened Bytes
  import opened NasEngine
  import opened NasPdu
  import Envelope
  import NasIndex
  import NasCounts
  import NasPending
  import NasSession

  const LONGEST_BODY: nat := 0x2000

  /** Bodies fit a buffer, and the Deregistration Accept has none but the inner
      header. */
  ghost predicate Encodes(codec: Codec) {
    (forall k :: |codec.encode(k)| < LONGEST_BODY) && |codec.encode(DeregistrationAccept)| == 3
  }

  // ------------------------------------------------- what is sent

  /** The message three reads of the context's count make. */
  function MessageFrom(x: NasContext, k: Kind, wideHeader: bool): Message {
    Protected(k, x.sec, wideHeader, x.dl % 256, Some(x.dl), x.dl)
  }

  /** The bytes of a protected message. */
  function WireOf(m: Message, codec: Codec, crypto: Envelope.Crypto): seq<byte>
    requires m.Protected?
  {
    if m.sn >= 256 then []
    else
      match Envelope.Assembled(crypto, m.sec, PartsOf(m, codec.encode(m.kind)))
      case Done(pdu) => pdu
      case Wrapped => []
  }

  /** Encrypting and protecting what was packed gives those bytes. */
  lemma WireIs(m: Message, codec: Codec, crypto: Envelope.Crypto, packed: seq<byte>, enc: seq<byte>, wire: seq<byte>)
    requires m.Protected? && m.sn < 256
    requires packed == Envelope.PackOuter(m.wideHeader, HeaderOf(m.kind), m.sn as byte, codec.encode(m.kind))
    requires if m.cipherCount.Some?
             then Envelope.Encrypted(crypto, m.sec, m.cipherCount.value, Envelope.Downlink, packed) == Envelope.Done(enc)
             else packed == enc
    requires Envelope.MacAdded(crypto, m.sec, m.macCount, Envelope.Downlink, enc) == Envelope.Done(wire)
    ensures WireOf(m, codec, crypto) == wire
  {
    Envelope.AssembledSteps(crypto, m.sec, PartsOf(m, codec.encode(m.kind)), packed, enc);
  }

  /** The bytes of the protected messages of the log, in order. */
  function PostedBytes(log: seq<Entry>, wire: Message -> seq<byte>): seq<seq<byte>>
    decreases |log|
  {
    if log == [] then []
    else
      var e := log[|log| - 1];
      PostedBytes(log[..|log| - 1], wire) + if e.Sent? && e.msg.Protected? then [wire(e.msg)] else []
  }

  ghost predicate Posted(log: seq<Entry>, wire: Message -> seq<byte>, outbox: seq<seq<byte>>) {
    outbox == PostedBytes(log, wire)
  }

  lemma PostedNote(log: seq<Entry>, e: Entry, wire: Message -> seq<byte>, outbox: seq<seq<byte>>)
    requires Posted(log, wire, outbox)
    ensures Posted(log + [e], wire, outbox + if e.Sent? && e.msg.Protected? then [wire(e.msg)] else [])
    ensures !(e.Sent? && e.msg.Protected?) ==> Posted(log + [e], wire, outbox)
  {
    assert (log + [e])[..|log|] == log;
  }

  // ------------------------------------------------- objects

  /** `nas_context`.  `id` names the object in the state machine. */
  class Context {
    ghost const id: nat
    var rnti: nat
    var tmsi: nat
    var mm: MmState
    var cm: CmState
    var ul: nat
    var dl: nat
    var sec: Envelope.SecCtx
    var regPending: bool
    var svcPending: bool
    var sm: SmCtx

    ghost function Value(): NasContext
      reads this
    { NasContext(rnti, tmsi, mm, cm, ul, dl, sec, regPending, svcPending, sm) }

    constructor (ghost id: nat, rnti: nat, sec: Envelope.SecCtx)
      ensures this.id == id && Value() == NewContext(rnti, sec)
    {
      this.id, this.rnti, this.sec, tmsi, mm, cm := id, rnti, sec, 0, Deregistered, Connected;
      ul, dl, regPending, svcPending, sm := 0, 0, false, false, SmCtx(false, true, 0, 0, 0, 0);
    }
  }

  /** The pointers of an index are to the objects it names; those of live
      contexts are on the heap. */
  ghost predicate Points(
    index: map<nat, Context>, names: map<nat, nat>, used: set<nat>, next: nat, heap: set<Context>)
  {
    && index.Keys == names.Keys
    && forall k :: k in index ==> index[k].id == names[k] < next && (names[k] in used ==> index[k] in heap)
  }

  /** The names of the objects on the heap are in use and not shared. */
  ghost predicate Named(used: set<nat>, next: nat, heap: set<Context>, owner: map<nat, Context>) {
    && (forall o :: o in heap ==> o.id in used && o.id in owner && owner[o.id] == o)
    && (forall c :: c in used ==> c < next)
  }

  lemma PointsWithout(
    index: map<nat, Context>, names: map<nat, nat>, used: set<nat>, next: nat, heap: set<Context>, o: Context)
    requires Points(index, names, used, next, heap)
    ensures Points(index, names, used - {o.id}, next, heap - {o})
  {
  }

  lemma PointsWith(
    index: map<nat, Context>, names: map<nat, nat>, used: set<nat>, next: nat, heap: set<Context>, o: Context)
    requires Points(index, names, used, next, heap) && o.id == next
    ensures Points(index, names, used + {next}, next + 1, heap + {o})
  {
  }

  lemma KeysWithout(ctxs: map<nat, NasContext>, c: nat)
    ensures (ctxs - {c}).Keys == ctxs.Keys - {c}
  {
  }

  lemma NamedWithout(used: set<nat>, next: nat, heap: set<Context>, owner: map<nat, Context>, o: Context)
    requires Named(used, next, heap, owner) && o in heap
    ensures Named(used - {o.id}, next, heap - {o}, owner - {o.id})
  {
  }

  /** The engine.  `view` is the state of the machine it stands for, and `Tied`
      says how the objects and the maps of pointers represent it. */
  class Engine {
    const codec: Codec
    const crypto: Envelope.Crypto
    ghost const wire: Message -> seq<byte>
    var rntiIndex: map<nat, Context>
    var tmsiIndex: map<nat, Context>
    var gutiIndex: map<nat, Context>
    var heap: set<Context>               // what is allocated and not deleted
    var outbox: seq<seq<byte>>           // the protected messages sent
    var fault: Fault
    ghost var view: State
    ghost var owner: map<nat, Context>   // the objects on the heap by name
    ghost var history: seq<Event>

    /** `wire` gives the bytes of a protected message. */
    ghost predicate Coded() {
      Encodes(codec) && forall m: Message {:trigger WireOf(m, codec, crypto)} :: m.Protected? ==> wire(m) == WireOf(m, codec, crypto)
    }

    /** Each object on the heap, but for those being written, is the context of
        its name. */
    ghost predicate Values(writing: set<Context>)
      reads this`view, this`heap, heap
    { forall o :: o in heap - writing ==> o.id in view.ctxs && view.ctxs[o.id] == o.Value() }

    ghost predicate TiedBut(writing: set<Context>)
      reads this`view, this`heap, this`owner, this`fault, this`outbox, this`rntiIndex, this`tmsiIndex, this`gutiIndex, heap
    {
      && Named(view.ctxs.Keys, view.next, heap, owner) && Values(writing) && fault == view.fault
      && Points(rntiIndex, view.rntiIndex, view.ctxs.Keys, view.next, heap)
      && Points(tmsiIndex, view.tmsiIndex, view.ctxs.Keys, view.next, heap)
      && Points(gutiIndex, view.gutiIndex, view.ctxs.Keys, view.next, heap)
      && Posted(view.log, wire, outbox) && Coded()
    }

    ghost predicate Tied()
      reads this`view, this`heap, this`owner, this`fault, this`outbox, this`rntiIndex, this`tmsiIndex, this`gutiIndex, heap
    { TiedBut({}) }

    /** The object is at the end of the run of its events. */
    ghost predicate Valid()
      reads this, heap
    { Tied() && view == Run(INITIAL, history) }

    constructor (codec: Codec, crypto: Envelope.Crypto)
      requires Encodes(codec)
      ensures Valid() && history == [] && this.codec == codec && this.crypto == crypto
    {
      this.codec, this.crypto := codec, crypto;
      wire := (m: Message) => if m.Protected? then WireOf(m, codec, crypto) else [];
      rntiIndex, tmsiIndex, gutiIndex, heap := map[], map[], map[], {};
      fault, view, history, outbox, owner := NoFault, INITIAL, [], [], map[];
    }

    // --------------------------------------------- keeping the tie

    lemma Looked(index: map<nat, Context>, names: map<nat, nat>, k: nat)
      requires Tied() && Points(index, names, view.ctxs.Keys, view.next, heap)
      ensures Find(view, names, k) ==
              if k !in index then Absent else if index[k] in heap then Live(index[k].id) else Dead
    {
    }

    /** The fields of `o` have been written. */
    ghost method Commit(o: Context)
      requires TiedBut({o}) && o in heap
      modifies this`view
      ensures Tied() && view == Put(old(view), o.id, o.Value())
    {
      assert view.ctxs[o.id := o.Value()].Keys == view.ctxs.Keys;
      view := Put(view, o.id, o.Value());
    }

    ghost method Record(e: Entry)
      requires Tied() && !(e.Sent? && e.msg.Protected?)
      modifies this`view
      ensures Tied() && view == Note(old(view), e)
    {
      PostedNote(view.log, e, wire, outbox);
      view := Note(view, e);
    }

    /** The event `e` has been handled, from the state `s`. */
    ghost method Append(e: Event, s: State)
      requires Tied() && s == Run(INITIAL, history) && view == Step(s, e)
      modifies this`history
      ensures Valid() && history == old(history) + [e]
    {
      RunSnoc(INITIAL, history, e);
      history := history + [e];
    }

    /** What the original does from here on is undefined. */
    method Break(f: Fault)
      requires Tied()
      modifies this`fault, this`view
      ensures Tied() && view == Fail(old(view), f)
    {
      fault := f;
      view := Fail(view, f);
    }

    // --------------------------------------------- contexts and indexes

    /** Allocates a context and returns its pointer. */
    method NewNasContext(rnti: nat, sec: Envelope.SecCtx) returns (o: Context)
      requires Tied()
      modifies this`heap, this`view, this`owner
      ensures Tied() && fresh(o) && heap == old(heap) + {o} && o.id == old(view).next
      ensures o.rnti == rnti && view == Born(old(view), rnti, sec)
    {
      o := new Context(view.next, rnti, sec);
      Enter(o, rnti, sec);
    }

    method Enter(o: Context, rnti: nat, sec: Envelope.SecCtx)
      requires Tied() && o !in heap && o.id == view.next && o.Value() == NewContext(rnti, sec)
      modifies this`heap, this`view, this`owner
      ensures Tied() && heap == old(heap) + {o} && view == Born(old(view), rnti, sec)
    {
      Remember(o, NewContext(rnti, sec));
      PostedNote(view.log, Created(o.id), wire, outbox);
      heap := heap + {o};
      owner := owner[o.id := o];
      view := Born(view, rnti, sec);
    }

    /** With a new object under the next name all is still tied. */
    lemma Remember(o: Context, x: NasContext)
      requires Tied() && o !in heap && o.id == view.next && o.Value() == x
      ensures var more := view.ctxs[o.id := x];
              && Named(more.Keys, view.next + 1, heap + {o}, owner[o.id := o])
              && (forall p :: p in heap + {o} ==> p.id in more && more[p.id] == p.Value())
              && Points(rntiIndex, view.rntiIndex, more.Keys, view.next + 1, heap + {o})
              && Points(tmsiIndex, view.tmsiIndex, more.Keys, view.next + 1, heap + {o})
              && Points(gutiIndex, view.gutiIndex, more.Keys, view.next + 1, heap + {o})
    {
      var used := view.ctxs.Keys;
      assert view.ctxs[o.id := x].Keys == used + {o.id};
      PointsWith(rntiIndex, view.rntiIndex, used, view.next, heap, o);
      PointsWith(tmsiIndex, view.tmsiIndex, used, view.next, heap, o);
      PointsWith(gutiIndex, view.gutiIndex, used, view.next, heap, o);
    }

    method AddNasCtxToRntiMap(o: Context) returns (added: bool)
      requires Tied() && o in heap
      modifies this`rntiIndex, this`view
      ensures Tied() && (added <==> o.rnti !in old(rntiIndex))
      ensures view == Indexed(old(view), o.rnti, o.id)
    {
      added := o.rnti !in rntiIndex;
      if added { rntiIndex := rntiIndex[o.rnti := o]; }
      view := Indexed(view, o.rnti, o.id);
    }

    method AddNasCtxToTmsiMap(o: Context) returns (added: bool)
      requires Tied() && o in heap
      modifies this`tmsiIndex, this`view
      ensures Tied() && (added <==> o.tmsi !in old(tmsiIndex))
      ensures view == old(view).(tmsiIndex := AddIfAbsent(old(view).tmsiIndex, o.tmsi, o.id))
    {
      view := view.(tmsiIndex := AddIfAbsent(view.tmsiIndex, o.tmsi, o.id));
      if o.tmsi in tmsiIndex { return false; }
      tmsiIndex := tmsiIndex[o.tmsi := o];
      return true;
    }

    /** `delete`. */
    method Delete(o: Context)
      requires Tied() && o in heap
      modifies this`heap, this`view, this`owner
      ensures Tied() && heap == old(heap) - {o}
      ensures view == Note(old(view), Deleted(o.id)).(ctxs := old(view).ctxs - {o.id})
    {
      Forget(o);
      PostedNote(view.log, Deleted(o.id), wire, outbox);
      heap := heap - {o};
      owner := owner - {o.id};
      view := Note(view, Deleted(o.id)).(ctxs := view.ctxs - {o.id});
    }

    /** Without `o` the rest is still tied. */
    lemma Forget(o: Context)
      requires Tied() && o in heap
      ensures var left := view.ctxs - {o.id};
              && Named(left.Keys, view.next, heap - {o}, owner - {o.id})
              && (forall p :: p in heap - {o} ==> p.id in left && left[p.id] == p.Value())
              && Points(rntiIndex, view.rntiIndex, left.Keys, view.next, heap - {o})
              && Points(tmsiIndex, view.tmsiIndex, left.Keys, view.next, heap - {o})
              && Points(gutiIndex, view.gutiIndex, left.Keys, view.next, heap - {o})
    {
      var used := view.ctxs.Keys;
      KeysWithout(view.ctxs, o.id);
      PointsWithout(rntiIndex, view.rntiIndex, used, view.next, heap, o);
      PointsWithout(tmsiIndex, view.tmsiIndex, used, view.next, heap, o);
      PointsWithout(gutiIndex, view.gutiIndex, used, view.next, heap, o);
      NamedWithout(used, view.next, heap, owner, o);
    }

    /** `delete_ue_nas_ctx` by TMSI. */
    method DeleteUeNasCtx(tmsi: nat)
      requires Tied() && tmsi in tmsiIndex && tmsiIndex[tmsi] in heap
      modifies this`heap, this`view, this`owner, this`tmsiIndex, this`rntiIndex
      ensures Tied() && heap == old(heap) - {old(tmsiIndex)[tmsi]}
      ensures var c := old(tmsiIndex)[tmsi].id; c in old(view).ctxs && view == Removed(old(view), c, tmsi)
    {
      var o := tmsiIndex[tmsi];
      EraseEntries(tmsi, o.rnti);
      Delete(o);
    }

    method EraseEntries(tmsi: nat, rnti: nat)
      requires Tied()
      modifies this`view, this`tmsiIndex, this`rntiIndex
      ensures Tied()
      ensures view == old(view).(tmsiIndex := old(view).tmsiIndex - {tmsi}, rntiIndex := old(view).rntiIndex - {rnti})
    {
      tmsiIndex := tmsiIndex - {tmsi};
      rntiIndex := rntiIndex - {rnti};
      view := view.(tmsiIndex := view.tmsiIndex - {tmsi}, rntiIndex := view.rntiIndex - {rnti});
    }

    /** `release_nas_ctx` empties both indexes. */
    method ReleaseNasCtx(rnti: nat)
      requires Valid() && fault.NoFault?
      modifies this
      ensures Valid() && history == old(history) + [RrcRelease(rnti)] && heap <= old(heap)
      ensures view == Step(old(view), RrcRelease(rnti))
    {
      ReleaseFound(rnti);
      Append(RrcRelease(rnti), old(view));
    }

    method ReleaseFound(rnti: nat)
      requires Tied()
      modifies this`heap, this`view, this`owner, this`tmsiIndex, this`rntiIndex, this`fault
      ensures Tied() && heap <= old(heap)
      ensures view == Release(old(view), rnti)
    {
      Looked(rntiIndex, view.rntiIndex, rnti);
      if rnti !in rntiIndex { return; }
      var o := rntiIndex[rnti];
      if o !in heap { Break(DoubleFree); return; }
      ClearIndexes();
      Delete(o);
    }

    method ClearIndexes()
      requires Tied()
      modifies this`view, this`tmsiIndex, this`rntiIndex
      ensures Tied() && view == old(view).(tmsiIndex := map[], rntiIndex := map[])
    {
      tmsiIndex, rntiIndex := map[], map[];
      view := view.(tmsiIndex := map[], rntiIndex := map[]);
    }

    // --------------------------------------------- downlink

    /** `nas_5gs_msg::pack` into a new buffer. */
    method Pack(d: Draft) returns (buf: array<byte>, n: nat)
      requires Encodes(codec) && d.sn < 256
      ensures fresh(buf) && Envelope.Holds(buf, n)
      ensures buf[..n] == Envelope.PackOuter(d.wideHeader, HeaderOf(d.kind), d.sn as byte, codec.encode(d.kind))
    {
      var pdu := Envelope.PackOuter(d.wideHeader, HeaderOf(d.kind), d.sn as byte, codec.encode(d.kind));
      n := |pdu|;
      buf := new byte[n + Envelope.LONGEST_HEADER + 1](i => 0);
      forall i | 0 <= i < n { buf[i] := pdu[i]; }
      assert buf[..n] == pdu;
    }

    /** Pack, encrypt and protect, with the count of `o` read for each of them;
        it fails exactly where the length to cipher wraps. */
    method Protect(o: Context, k: Kind, wideHeader: bool) returns (m: Message, bytes: seq<byte>, ok: bool)
      requires Encodes(codec) && !k.SecurityModeCommand?
      requires wideHeader == o.sec.wide || (!wideHeader && k.DeregistrationAccept?)
      ensures m == MessageFrom(o.Value(), k, wideHeader)
      ensures ok <==> wideHeader == o.sec.wide || !o.sec.Ciphers()
      ensures ok ==> bytes == WireOf(m, codec, crypto)
    {
      var d := Draft(k, wideHeader, o.dl % 256, None);
      var buf, n := Pack(d);
      ghost var packed := buf[..n];
      PackedBounds(o.sec, k, wideHeader, packed, d.sn as byte);
      d := d.(cipherCount := Some(o.dl));
      ok := Envelope.CipherInPlace(buf, n, crypto, o.sec, o.dl, Envelope.Downlink);
      m, bytes := Protected(k, o.sec, d.wideHeader, d.sn, d.cipherCount, o.dl), [];
      if !ok { return; }
      ghost var enc := buf[..n];
      ok := Envelope.IntegrityGenerate(buf, n, crypto, o.sec, o.dl, Envelope.Downlink);
      bytes := buf[..n];
      WireIs(m, codec, crypto, packed, enc, bytes);
    }

    lemma PackedBounds(sec: Envelope.SecCtx, k: Kind, wideHeader: bool, pdu: seq<byte>, sn: byte)
      requires Encodes(codec) && pdu == Envelope.PackOuter(wideHeader, HeaderOf(k), sn, codec.encode(k))
      requires wideHeader == sec.wide || (!wideHeader && k.DeregistrationAccept?)
      ensures InBounds(|pdu|, sec.SeqAt())
      ensures InBounds(|pdu|, sec.SeqAt() + 1) <==> wideHeader == sec.wide
    {
      LengthWraps(|pdu|, sec.SeqAt());
      LengthWraps(|pdu|, sec.SeqAt() + 1);
    }

    /** `pack_security_mode_command`: sequence number 0, a MAC and no cipher. */
    method ProtectCommand(o: Context) returns (m: Message, bytes: seq<byte>)
      requires Encodes(codec)
      ensures m == Protected(SecurityModeCommand, o.sec, o.sec.wide, 0, None, o.dl)
      ensures bytes == WireOf(m, codec, crypto)
    {
      var d := Draft(SecurityModeCommand, o.sec.wide, 0, None);
      var buf, n := Pack(d);
      PackedBounds(o.sec, SecurityModeCommand, o.sec.wide, buf[..n], 0);
      m := Protected(d.kind, o.sec, d.wideHeader, d.sn, d.cipherCount, o.dl);
      ghost var packed := buf[..n];
      var ok := Envelope.IntegrityGenerate(buf, n, crypto, o.sec, o.dl, Envelope.Downlink);
      bytes := buf[..n];
      WireIs(m, codec, crypto, packed, packed, bytes);
    }

    /** `send_mm_dl_msg` with the bytes of the message. */
    method Transmit(o: Context, m: Message, bytes: seq<byte>)
      requires Tied() && m.Protected? && bytes == WireOf(m, codec, crypto)
      modifies this`view, this`outbox
      ensures Tied() && view == Note(old(view), Sent(o.id, m))
    {
      PostedNote(view.log, Sent(o.id, m), wire, outbox);
      view := Note(view, Sent(o.id, m));
      outbox := outbox + [bytes];
    }

    /** Protect, send, move the count on. */
    method SendProtected(o: Context, k: Kind)
      requires Tied() && o in heap && !k.SecurityModeCommand?
      modifies this`view, this`outbox, o
      ensures Tied() && o.id in old(view).ctxs && view == SendCiphered(old(view), o.id, k)
    {
      var m, bytes, ok := Protect(o, k, o.sec.wide);
      assert m == CipheredMessage(view, o.id, k, o.sec.wide);
      Transmit(o, m, bytes);
      MoveCount(o);
    }

    method MoveCount(o: Context)
      requires Tied() && o in heap
      modifies this`view, o
      ensures Tied() && o.id in old(view).ctxs && view == Put(old(view), o.id, Bump(old(view).ctxs[o.id]))
    {
      o.dl := (o.dl + 1) % COUNT_SIZE;
      Commit(o);
    }

    /** `pack_registration_accept` hands out the TMSI. */
    method GiveTmsi(o: Context)
      requires Tied() && o in heap
      modifies this`view, this`tmsiIndex, o
      ensures Tied() && o.id in old(view).ctxs && view == GivenTmsi(old(view), o.id)
    {
      o.tmsi, o.regPending := TMSI, false;
      Commit(o);
      var added := AddNasCtxToTmsiMap(o);
    }

    /** `send_reg_or_service_accept`. */
    method SendRegOrServiceAccept(rnti: nat) returns (sent: bool)
      requires Valid() && fault.NoFault?
      modifies this, heap
      ensures Valid() && history == old(history) + [AcceptTrigger(rnti)] && heap == old(heap)
      ensures view == Step(old(view), AcceptTrigger(rnti))
      ensures sent <==> |view.log| == |old(view).log| + 1
    {
      ghost var s := view;
      TriggerStep(s, rnti);
      sent := SendPendingAccept(rnti);
      Append(AcceptTrigger(rnti), s);
    }

    static lemma TriggerStep(s: State, rnti: nat)
      requires s.fault.NoFault?
      ensures Step(s, AcceptTrigger(rnti)) == SendAccept(s, rnti)
    {
    }

    method SendPendingAccept(rnti: nat) returns (sent: bool)
      requires Tied()
      modifies this`view, this`outbox, this`tmsiIndex, this`fault, heap
      ensures Tied() && view == SendAccept(old(view), rnti)
      ensures sent <==> |view.log| == |old(view).log| + 1
    {
      Looked(rntiIndex, view.rntiIndex, rnti);
      if rnti !in rntiIndex { return false; }
      var o := rntiIndex[rnti];
      if o !in heap { Break(Dangling); return false; }
      if o.regPending {
        SendRegistrationAccept(o);
        return true;
      }
      if o.svcPending {
        SendServiceAccept(o);
        return true;
      }
      return false;
    }

    method SendRegistrationAccept(o: Context)
      requires Tied() && o in heap
      modifies this`view, this`outbox, this`tmsiIndex, o
      ensures Tied() && o.id in old(view).ctxs && view == RegistrationAccepted(old(view), o.id)
    {
      GiveTmsi(o);
      SendProtected(o, RegistrationAccept);
    }

    method SendServiceAccept(o: Context)
      requires Tied() && o in heap
      modifies this`view, this`outbox, o
      ensures Tied() && o.id in old(view).ctxs && view == ServiceAccepted(old(view), o.id)
    {
      o.svcPending := false;
      Commit(o);
      SendProtected(o, ServiceAccept);
    }

    method SendConfigurationUpdate(rnti: nat)
      requires Valid() && fault.NoFault?
      modifies this, heap
      ensures Valid() && history == old(history) + [ConfigUpdate(rnti)] && heap == old(heap)
      ensures view == Step(old(view), ConfigUpdate(rnti))
    {
      SendUpdate(rnti);
      Append(ConfigUpdate(rnti), old(view));
    }

    method SendUpdate(rnti: nat)
      requires Tied()
      modifies this`view, this`outbox, this`fault, heap
      ensures Tied() && view == UpdateConfiguration(old(view), rnti)
    {
      Looked(rntiIndex, view.rntiIndex, rnti);
      if rnti !in rntiIndex { return; }
      var o := rntiIndex[rnti];
      if o !in heap { Break(Dangling); return; }
      SendProtected(o, ConfigurationUpdate);
    }

    /** `pcs_sm_modification`: protected, perhaps sent, count left alone. */
    method PcsSmModification(rnti: nat, flag: nat)
      requires Valid() && fault.NoFault?
      modifies this
      ensures Valid() && history == old(history) + [VoiceModify(rnti, flag)] && heap == old(heap)
      ensures view == Step(old(view), VoiceModify(rnti, flag))
    {
      ModifySession(rnti, flag);
      Append(VoiceModify(rnti, flag), old(view));
    }

    method ModifySession(rnti: nat, flag: nat)
      requires Tied()
      modifies this`view, this`outbox, this`fault
      ensures Tied() && view == ModifyVoice(old(view), rnti, flag)
    {
      Looked(rntiIndex, view.rntiIndex, rnti);
      if rnti !in rntiIndex { Break(NullContext); return; }
      var o := rntiIndex[rnti];
      if o !in heap { Break(Dangling); return; }
      var m, bytes, ok := Protect(o, VoiceModification, o.sec.wide);
      if flag == 2 || flag == 3 { Transmit(o, m, bytes); }
    }

    // --------------------------------------------- uplink handlers

    method HandleRegistrationRequest(rnti: nat, id: Identity)
      requires Tied()
      modifies this`view, this`fault, this`heap, this`owner, this`rntiIndex, heap
      ensures Tied() && fresh(heap - old(heap)) && view == Register(old(view), rnti, id)
    {
      match id
      case Suci(known, cipher, integ) => RegisterBySuci(rnti, known, FreshSec().(cipher := cipher, integ := integ));
      case Guti(guti, known) => RegisterByGuti(rnti, guti, known, FreshSec());
      case OtherIdentity =>
    }

    /** `handle_suci_registration_request_unknown_ue`. */
    method RegisterBySuci(rnti: nat, known: bool, sec: Envelope.SecCtx)
      requires Tied()
      modifies this`view, this`heap, this`owner, this`rntiIndex
      ensures Tied() && fresh(heap - old(heap)) && view == RegisterSuci(old(view), rnti, known, sec)
    {
      if known {
        var o := NewIndexedContext(rnti, sec);
        Record(Sent(o.id, Plain(AuthRequest)));
      } else {
        var o := NewNasContext(rnti, sec);
      }
    }

    method NewIndexedContext(rnti: nat, sec: Envelope.SecCtx) returns (o: Context)
      requires Tied()
      modifies this`view, this`heap, this`owner, this`rntiIndex
      ensures Tied() && fresh(o) && heap == old(heap) + {o} && o.id == old(view).next
      ensures view == BornIndexed(old(view), rnti, sec)
    {
      o := NewNasContext(rnti, sec);
      var added := AddNasCtxToRntiMap(o);
    }

    method RegisterByGuti(rnti: nat, guti: nat, known: bool, sec: Envelope.SecCtx)
      requires Tied()
      modifies this`view, this`fault, this`heap, this`owner, this`rntiIndex, heap
      ensures Tied() && fresh(heap - old(heap)) && view == RegisterGuti(old(view), rnti, guti, known, sec)
    {
      Looked(gutiIndex, view.gutiIndex, guti);
      if guti !in gutiIndex {
        var o := NewIndexedContext(rnti, sec);
      } else if gutiIndex[guti] !in heap {
        Break(Dangling);
      } else {
        HandleGutiRegistrationKnownUe(gutiIndex[guti], rnti, false, known);
      }
    }

    /** `handle_guti_registration_request_known_ue`; `msgValid` is what its
        integrity check would say. */
    method HandleGutiRegistrationKnownUe(o: Context, rnti: nat, msgValid: bool, known: bool)
      requires Tied() && o in heap
      modifies this`view, this`rntiIndex, o
      ensures Tied() && o.id in old(view).ctxs
      ensures view == RegisterKnown(old(view), rnti, o.id, msgValid, known)
    {
      if msgValid && o.mm.Deregistered? {
        Adopt(o, rnti);
      } else {
        ReleaseUeNrcmCtx(o.rnti);
        StartOver(o, rnti);
        if known { Record(Sent(o.id, Plain(AuthRequest))); }
      }
    }

    method Adopt(o: Context, rnti: nat)
      requires Tied() && o in heap
      modifies this`view, this`rntiIndex, o
      ensures Tied() && o.id in old(view).ctxs && view == Adopted(old(view), rnti, o.id)
    {
      ghost var x := view.ctxs[o.id];
      o.rnti, o.ul := rnti, (o.ul + 1) % COUNT_SIZE;
      assert o.Value() == Taken(x, rnti);
      Commit(o);
      assert view == Put(old(view), o.id, Taken(x, rnti));
      var added := AddNasCtxToRntiMap(o);
    }

    method StartOver(o: Context, rnti: nat)
      requires Tied() && o in heap
      modifies this`view, this`rntiIndex, o
      ensures Tied() && o.id in old(view).ctxs && view == StartedOver(old(view), rnti, o.id)
    {
      ghost var x := view.ctxs[o.id];
      o.ul, o.dl, o.rnti, o.mm := 0, 0, rnti, Deregistered;
      assert o.Value() == x.(ul := 0, dl := 0, rnti := rnti, mm := Deregistered);
      Commit(o);
      assert view == Put(old(view), o.id, x.(ul := 0, dl := 0, rnti := rnti, mm := Deregistered));
      var added := AddNasCtxToRntiMap(o);
    }

    method ReleaseUeNrcmCtx(rnti: nat)
      requires Tied()
      modifies this`view, this`rntiIndex
      ensures Tied() && view == WithoutRnti(old(view), rnti)
    {
      if rnti != 0 { rntiIndex := rntiIndex - {rnti}; }
      view := WithoutRnti(view, rnti);
    }

    method HandleAuthenticationResponse(rnti: nat, ok: bool, wide: bool, kEnc: seq<byte>, kInt: seq<byte>)
      requires Tied()
      modifies this`view, this`fault, this`outbox, heap
      ensures Tied() && view == AnswerAuthentication(old(view), rnti, ok, wide, kEnc, kInt)
    {
      Looked(rntiIndex, view.rntiIndex, rnti);
      if rnti !in rntiIndex { Break(NullContext); return; }
      var o := rntiIndex[rnti];
      if o !in heap { Break(Dangling); return; }
      if ok { AcceptResponse(o, wide, kEnc, kInt); } else { RejectResponse(o, wide); }
    }

    /** The keys are derived, the command is sent and the count moves. */
    method AcceptResponse(o: Context, wide: bool, kEnc: seq<byte>, kInt: seq<byte>)
      requires Tied() && o in heap
      modifies this`view, this`outbox, o
      ensures Tied() && o.id in old(view).ctxs
      ensures var x := old(view).ctxs[o.id];
              var y := x.(ul := 0, sec := x.sec.(wide := wide, kEnc := kEnc, kInt := kInt));
              var s1 := Put(old(view), o.id, y);
              view == Put(Note(s1, Sent(o.id, WithMac(s1, o.id, Draft(SecurityModeCommand, wide, 0, None)))), o.id, Bump(y))
    {
      o.sec := o.sec.(wide := wide);
      o.ul := 0;
      o.sec := o.sec.(kEnc := kEnc, kInt := kInt);
      Commit(o);
      var m, bytes := ProtectCommand(o);
      Transmit(o, m, bytes);
      MoveCount(o);
    }

    method RejectResponse(o: Context, wide: bool)
      requires Tied() && o in heap
      modifies this`view, o
      ensures Tied() && o.id in old(view).ctxs
      ensures var x := old(view).ctxs[o.id];
              view == Put(Note(old(view), Sent(o.id, Plain(AuthReject))), o.id, Bump(x.(sec := x.sec.(wide := wide))))
    {
      ghost var x := view.ctxs[o.id];
      Record(Sent(o.id, Plain(AuthReject)));
      o.sec := o.sec.(wide := wide);
      o.dl := (o.dl + 1) % COUNT_SIZE;
      assert o.Value() == Bump(x.(sec := x.sec.(wide := wide)));
      Commit(o);
    }

    method HandleAuthenticationFailure(rnti: nat)
      requires Tied()
      modifies this`view, this`fault, heap
      ensures Tied() && view == FailAuthentication(old(view), rnti)
    {
      Looked(rntiIndex, view.rntiIndex, rnti);
      if rnti !in rntiIndex { return; }
      var o := rntiIndex[rnti];
      if o !in heap { Break(Dangling); return; }
      ReplaceSecurity(o, FreshSec());
    }

    method ReplaceSecurity(o: Context, sec: Envelope.SecCtx)
      requires Tied() && o in heap
      modifies this`view, o
      ensures Tied() && o.id in old(view).ctxs
      ensures view == Put(Note(old(view), Reset(o.id)), o.id, old(view).ctxs[o.id].(ul := 0, dl := 0, sec := sec))
    {
      ghost var x := view.ctxs[o.id];
      Record(Reset(o.id));
      o.ul, o.dl, o.sec := 0, 0, sec;
      assert o.Value() == x.(ul := 0, dl := 0, sec := sec);
      Commit(o);
    }

    method HandleSecurityModeComplete(rnti: nat)
      requires Tied()
      modifies this`view, this`fault, heap
      ensures Tied() && view == CompleteSecurityMode(old(view), rnti)
    {
      Looked(rntiIndex, view.rntiIndex, rnti);
      if rnti !in rntiIndex { return; }
      var o := rntiIndex[rnti];
      if o !in heap { Break(Dangling); return; }
      RaiseRegistration(o);
    }

    method RaiseRegistration(o: Context)
      requires Tied() && o in heap
      modifies this`view, o
      ensures Tied() && o.id in old(view).ctxs
      ensures view == Put(Note(old(view), SmcHandled(o.id)), o.id, old(view).ctxs[o.id].(regPending := true))
    {
      Record(SmcHandled(o.id));
      o.regPending := true;
      Commit(o);
    }

    method HandleRegistrationComplete(rnti: nat)
      requires Tied()
      modifies this`view, this`fault, heap
      ensures Tied() && view == CompleteRegistration(old(view), rnti)
    {
      Looked(rntiIndex, view.rntiIndex, rnti);
      if rnti !in rntiIndex { return; }
      var o := rntiIndex[rnti];
      if o !in heap { Break(Dangling); return; }
      o.mm, o.cm := Registered, Connected;
      Commit(o);
    }

    method HandleServiceRequest(rnti: nat, tmsi: nat)
      requires Tied()
      modifies this`view, this`fault, this`rntiIndex, heap
      ensures Tied() && view == RequestService(old(view), rnti, tmsi)
    {
      Looked(tmsiIndex, view.tmsiIndex, tmsi);
      if tmsi !in tmsiIndex { return; }
      var o := tmsiIndex[tmsi];
      if o !in heap { Break(Dangling); return; }
      Serve(o, rnti);
    }

    method Serve(o: Context, rnti: nat)
      requires Tied() && o in heap
      modifies this`view, this`rntiIndex, o
      ensures Tied() && o.id in old(view).ctxs && view == Requested(old(view), rnti, o.id)
    {
      ghost var s := view;
      MoveToRnti(o, rnti);
      RaiseService(o);
      ServiceSteps(s, o.id, rnti);
    }

    /** Moving the context and raising its flag is the whole of the request. */
    static lemma ServiceSteps(s: State, c: nat, rnti: nat)
      requires c in s.ctxs
      ensures var x := s.ctxs[c];
              var s1 := Indexed(Put(s, c, x.(rnti := rnti)), rnti, c);
              Put(Note(s1, SvcHandled(c)), c, Bump(s1.ctxs[c].(svcPending := true)))
              == Requested(s, rnti, c)
    {
      var x := s.ctxs[c];
      var y := Bump(x.(rnti := rnti, svcPending := true));
      assert s.ctxs[c := x.(rnti := rnti)][c := y] == s.ctxs[c := y];
    }

    /** The accept is due, and the count moves. */
    method RaiseService(o: Context)
      requires Tied() && o in heap
      modifies this`view, o
      ensures Tied() && o.id in old(view).ctxs
      ensures view == Put(Note(old(view), SvcHandled(o.id)), o.id, Bump(old(view).ctxs[o.id].(svcPending := true)))
    {
      Record(SvcHandled(o.id));
      o.svcPending, o.dl := true, (o.dl + 1) % COUNT_SIZE;
      Commit(o);
    }

    /** The context is moved and indexed there unless that RNTI is taken. */
    method MoveToRnti(o: Context, rnti: nat)
      requires Tied() && o in heap
      modifies this`view, this`rntiIndex, o
      ensures Tied() && o.id in old(view).ctxs
      ensures view == Indexed(Put(old(view), o.id, old(view).ctxs[o.id].(rnti := rnti)), rnti, o.id)
    {
      o.rnti := rnti;
      Commit(o);
      var added := AddNasCtxToRntiMap(o);
    }

    method HandleDeregistrationRequest(guti: Option<nat>, switchOff: bool)
      requires Tied()
      modifies this`view, this`fault, this`outbox, this`heap, this`owner, this`rntiIndex, this`tmsiIndex
      ensures Tied() && heap <= old(heap) && view == Deregister(old(view), guti, switchOff)
    {
      if guti.None? { return; }
      Looked(tmsiIndex, view.tmsiIndex, guti.value);
      if guti.value !in tmsiIndex { return; }
      var o := tmsiIndex[guti.value];
      if o !in heap { Break(Dangling); return; }
      if !switchOff {
        DeregistrationAcceptBounds(o.sec);
        var ok := SendDeregistrationAccept(o);
        if !ok { Break(Overrun); return; }
      }
      DeleteUeNasCtx(guti.value);
    }

    /** It always has the short header, and uses the count without moving it. */
    method SendDeregistrationAccept(o: Context) returns (ok: bool)
      requires Tied() && o in heap
      modifies this`view, this`outbox
      ensures Tied() && o.id in old(view).ctxs
      ensures ok <==> !o.sec.wide || !o.sec.Ciphers()
      ensures view == if ok then Note(old(view), Sent(o.id, CipheredMessage(old(view), o.id, DeregistrationAccept, false)))
                      else old(view)
    {
      var m, bytes;
      m, bytes, ok := Protect(o, DeregistrationAccept, false);
      if ok { Transmit(o, m, bytes); }
    }

    /** `s_user_release`. */
    method UserReleased(rnti: nat)
      requires Valid() && fault.NoFault?
      modifies this, heap
      ensures Valid() && history == old(history) + [UserRelease(rnti)] && heap == old(heap)
      ensures view == Step(old(view), UserRelease(rnti))
    {
      SetConnectionIdle(rnti);
      Append(UserRelease(rnti), old(view));
    }

    /** What a release does, and a deregistration accepted by the UE. */
    method SetConnectionIdle(rnti: nat)
      requires Tied()
      modifies this`view, this`fault, heap
      ensures Tied() && view == SetIdle(old(view), rnti)
    {
      Looked(rntiIndex, view.rntiIndex, rnti);
      if rnti !in rntiIndex { return; }
      var o := rntiIndex[rnti];
      if o !in heap { Break(Dangling); return; }
      o.cm := Idle;
      Commit(o);
    }

    // --------------------------------------------- sessions

    /** `sm_write_dl_info` finds its context again by the stored RNTI. */
    method SmWriteDlInfo(o: Context)
      requires Tied() && o in heap
      modifies this`view, this`fault, this`outbox, heap
      ensures Tied() && o.id in old(view).ctxs && view == SendSession(old(view), o.id)
    {
      var k := if o.sm.isAccept then SessionAccept(o.sm.Sid(o.sm.isIms), o.sm.Pti(o.sm.isIms)) else SessionAuthResult;
      Looked(rntiIndex, view.rntiIndex, o.rnti);
      if o.rnti !in rntiIndex { Break(NullContext); return; }
      var d := rntiIndex[o.rnti];
      if d !in heap { Break(Dangling); return; }
      SendProtected(d, k);
    }

    method HandlePduSession(rnti: nat, p: SmPdu)
      requires Tied()
      modifies this`view, this`fault, this`outbox, heap
      ensures Tied() && view == HandleSession(old(view), rnti, p)
    {
      Looked(rntiIndex, view.rntiIndex, rnti);
      if rnti !in rntiIndex {
        if p.sid == 1 || p.sid == 2 || p.kind.EstablishmentRequest? || p.kind.AuthenticationComplete?
           || p.kind.ModificationComplete? { Break(NullContext); }
        return;
      }
      var o := rntiIndex[rnti];
      if o !in heap { Break(Dangling); return; }
      MarkSlots(o, p);
      if p.kind.EstablishmentRequest? || p.kind.AuthenticationComplete? { SmWriteDlInfo(o); }
    }

    /** The slots are written one by one. */
    method MarkSlots(o: Context, p: SmPdu)
      requires Tied() && o in heap
      modifies this`view, o
      ensures Tied() && o.id in old(view).ctxs && view == Marked(old(view), o.id, p)
    {
      Record(SmReceived(o.id, p.sid, p.kind, p.pti));
      if p.sid == 1 {
        o.sm := o.sm.(sid0 := p.sid);
      } else if p.sid == 2 {
        o.sm := o.sm.(isIms := true);
        o.sm := o.sm.(sid1 := p.sid);
      }
      if p.kind.EstablishmentRequest? {
        o.sm := if p.sid == 2 then o.sm.(pti1 := p.pti) else o.sm.(pti0 := p.pti);
        o.sm := o.sm.(isAccept := true);
      }
      Commit(o);
    }

    // --------------------------------------------- `handle_enb_rx_pdu`

    /** The switch over the message type. */
    method DispatchMessage(rnti: nat, m: UplinkMessage)
      requires Tied()
      modifies this`view, this`fault, this`outbox, this`heap, this`owner, this`rntiIndex, this`tmsiIndex, heap
      ensures Tied() && fresh(heap - old(heap)) && view == Dispatch(old(view), rnti, m)
    {
      match m
      case RegistrationRequest(id) => HandleRegistrationRequest(rnti, id);
      case RegistrationComplete => HandleRegistrationComplete(rnti);
      case DeregistrationRequest(g, off) => HandleDeregistrationRequest(g, off);
      case DeregistrationAcceptFromUe => SetConnectionIdle(rnti);
      case ServiceRequest(t) => HandleServiceRequest(rnti, t);
      case AuthenticationResponse(ok, wide, kEnc, kInt) => HandleAuthenticationResponse(rnti, ok, wide, kEnc, kInt);
      case AuthenticationFailure => HandleAuthenticationFailure(rnti);
      case IdentityResponse(id) => HandleIdentityResponse(rnti, id);
      case SecurityModeComplete => HandleSecurityModeComplete(rnti);
      case UlNasTransport(sm) => if sm.Some? { HandlePduSession(rnti, sm.value); }
      case OtherMessage =>
    }

    method HandleIdentityResponse(rnti: nat, id: Identity)
      requires Tied()
      modifies this`view, this`fault
      ensures Tied() && view == Identify(old(view), rnti, id)
    {
      Looked(rntiIndex, view.rntiIndex, rnti);
      if id.OtherIdentity? { return; }
      if rnti !in rntiIndex { Break(NullContext); return; }
      if rntiIndex[rnti] !in heap { Break(Dangling); }
    }

    /** The statements that move the uplink count, through the pointer `sec`. */
    method MoveUplinkCount(sec: Context?, m: UplinkMessage)
      requires Tied() && fault.NoFault? && (sec == null || sec in heap)
      modifies this`view, sec
      ensures Tied()
      ensures view == MoveUplink(old(view), if sec == null then None else Some(sec.id), m)
    {
      var increase := true;
      if m.AuthenticationResponse? && sec != null {
        sec.ul, sec.dl, increase := 0, 0, false;
        Commit(sec);
      }
      if increase && sec != null {
        sec.ul := (sec.ul + 1) % COUNT_SIZE;
        Commit(sec);
      }
    }

    /** Checks and decrypts the buffer in place under the context found. */
    method OpenEnvelope(o: Context, h: SecurityHeader, msg: array<byte>, n: nat) returns (r: Opening)
      requires Envelope.Holds(msg, n)
      modifies msg
      ensures var want := OpenedAs(o.Value(), h, old(msg[..]), n, codec, crypto);
              r == want.0 && (r.Opened? ==> codec.inner(msg[..n]) == want.1)
    {
      ghost var was := msg[..];
      assert was[..n] == msg[..n];
      var v, copy := Envelope.IntegrityCheck(msg, n, crypto, o.sec, o.ul, Envelope.Uplink);
      if v.OutOfBounds? { return Overran; }
      if v.Refused? { return Rejected; }
      if h.IntegrityProtected? { return Opened; }
      var ok := Envelope.CipherDecrypt(msg, n, crypto, o.sec, Envelope.Uplink);
      if !ok { return Overran; }
      return Opened;
    }

    /** A received message: the event is what its bytes amount to. */
    method HandleEnbRxPdu(rnti: nat, initial: bool, msg: array<byte>, n: nat)
      requires Valid() && fault.NoFault? && Envelope.Holds(msg, n)
      modifies this, heap, msg
      ensures Valid() && fresh(heap - old(heap))
      ensures var e := EventOf(old(view), rnti, initial, old(msg[..]), n, codec, crypto);
              history == old(history) + [e] && view == Step(old(view), e)
      ensures !initial && Forged(old(view), rnti, old(msg[..]), n, codec, crypto) ==>
                view == old(view) && outbox == old(outbox)
    {
      if !initial && Forged(view, rnti, msg[..], n, codec, crypto) {
        ForgedDropped(view, rnti, msg[..], n, codec, crypto);
      }
      ghost var e := EventOf(view, rnti, initial, msg[..], n, codec, crypto);
      ReceivePdu(rnti, initial, msg, n);
      Append(e, old(view));
    }

    method ReceivePdu(rnti: nat, initial: bool, msg: array<byte>, n: nat)
      requires Tied() && fault.NoFault? && Envelope.Holds(msg, n)
      modifies this`view, this`fault, this`outbox, this`heap, this`owner, this`rntiIndex, this`tmsiIndex, heap, msg
      ensures Tied() && fresh(heap - old(heap))
      ensures view == HandleUplink(old(view), EventOf(old(view), rnti, initial, old(msg[..]), n, codec, crypto))
    {
      assert msg[..][..n] == msg[..n];
      Looked(rntiIndex, view.rntiIndex, rnti);
      var sec: Context? := null;
      var hdr := codec.outer(msg[..n]);
      if hdr.None? { return; }
      if rnti !in rntiIndex && !initial { return; }
      if !initial {
        var sec := rntiIndex[rnti];
      }
      if !initial {
        var pass := PassHeader(rnti, hdr.value, msg, n);
        if !pass { return; }
      }
      var body := codec.inner(msg[..n]);
      if body.None? { return; }
      Deliver(rnti, body.value, sec);
    }

    /** The rest of `handle_enb_rx_pdu`: the switch, and then the count, through
        the outer pointer, which nothing has set. */
    method Deliver(rnti: nat, m: UplinkMessage, sec: Context?)
      requires Tied() && sec == null
      modifies this`view, this`fault, this`outbox, this`heap, this`owner, this`rntiIndex, this`tmsiIndex, heap
      ensures Tied() && fresh(heap - old(heap))
      ensures view == MoveUplink(Dispatch(old(view), rnti, m), None, m)
    {
      DispatchMessage(rnti, m);
      if fault.NoFault? { MoveUplinkCount(sec, m); }
    }

    /** The switch over the security header of a message that is not initial. */
    method PassHeader(rnti: nat, h: SecurityHeader, msg: array<byte>, n: nat) returns (pass: bool)
      requires Tied() && rnti in rntiIndex && Envelope.Holds(msg, n)
      modifies this`view, this`fault, msg
      ensures Tied()
      ensures var f := Find(old(view), old(view).rntiIndex, rnti);
              if h.IntegrityNewContext? then !pass && view == old(view)
              else if h.PlainNas? || h.UnknownHeader? then pass && view == old(view) && msg[..] == old(msg[..])
              else if !f.Live? then !pass && view == Fail(old(view), Dangling)
              else
                var o := OpenedAs(old(view).ctxs[f.id], h, old(msg[..]), n, codec, crypto);
                && (pass <==> o.0.Opened?) && (pass ==> codec.inner(msg[..n]) == o.1)
                && view == if o.0.Overran? then Fail(old(view), Overrun) else old(view)
    {
      Looked(rntiIndex, view.rntiIndex, rnti);
      if h.IntegrityNewContext? { return false; }
      if !NeedsCheck(h) { return true; }
      if rntiIndex[rnti] !in heap {
        Break(Dangling);
        return false;
      }
      var o := OpenEnvelope(rntiIndex[rnti], h, msg, n);
      if o.Overran? { Break(Overrun); }
      return o.Opened?;
    }
  }

  /** Whatever an engine was fed, it keeps what runs keep; and what it sent are
      the bytes of the protected messages of its run, in order and nothing else. */
  lemma EngineKeeps(e: Engine)
    requires e.Valid()
    ensures NasCounts.CountsKept(e.view) && NasPending.Owed(e.view) && NasSession.SessionsKept(e.view)
    ensures NasIndex.DisciplinedRun(INITIAL, e.history) ==> NasIndex.Safe(e.view) && NasSession.OwnAnswers(e.view.log)
    ensures e.outbox == PostedBytes(Run(INITIAL, e.history).log, e.wire)
    ensures forall m: Message {:trigger WireOf(m, e.codec, e.crypto)} :: m.Protected? ==> e.wire(m) == WireOf(m, e.codec, e.crypto)
  {
    NasCounts.RunKeepsCounts(e.history);
    NasPending.RunOwes(e.history);
    NasSession.RunAnswers(e.history);
    if NasIndex.DisciplinedRun(INITIAL, e.history) {
      NasIndex.RunSafe(e.history);
      NasSession.RunAnswersOwn(e.history);
    }
  }

  /** The bytes of a protected message with the header format of its context: the
      security header is 3 for the Security Mode Command and 2 for the rest. */
  lemma WireOfBytes(m: Message, codec: Codec, crypto: Envelope.Crypto)
    requires m.Protected? && m.sn < 256 && m.wideHeader == m.sec.wide && |codec.encode(m.kind)| < 0x8000_0000
    ensures var header: byte := if m.kind.SecurityModeCommand? then 3 else 2;
            var p := Envelope.Parts(m.wideHeader, header, m.sn as byte, m.cipherCount, m.macCount, codec.encode(m.kind));
            Envelope.WireBytes(crypto, m.sec, p, WireOf(m, codec, crypto))
  {
    Envelope.AssembledBytes(crypto, m.sec, PartsOf(m, codec.encode(m.kind)));
  }

  lemma {:induction false} PostedEach(log: seq<Entry>, wire: Message -> seq<byte>, j: nat)
    requires j < |log| && log[j].Sent? && log[j].msg.Protected?
    ensures wire(log[j].msg) in PostedBytes(log, wire)
    decreases |log|
  {
    if j < |log| - 1 { PostedEach(log[..|log| - 1], wire, j); }
  }

  /** A message of context `c`, sent when its count had moved on `moves` times. */
  predicate SentAs(m: Message, moves: nat, codec: Codec, crypto: Envelope.Crypto, bytes: seq<byte>)
    requires m.Protected?
  {
    var count := moves % 0x1_0000_0000;
    var body := codec.encode(m.kind);
    Envelope.WireBytes(crypto, m.sec,
      if m.kind.SecurityModeCommand? then Envelope.Parts(m.sec.wide, 3, 0, None, count, body)
      else Envelope.Parts(m.sec.wide, 2, (count % 256) as byte, Some(count), count, body), bytes)
  }

  /** What an engine has sent, down to the bytes: for every protected message of its
      run, but a Deregistration Accept of a long-header context, the header, the
      sequence number, the MAC and the ciphered body, under the keys of the context
      and the number of times its count has moved on. */
  lemma EngineSends(e: Engine, j: nat)
    requires e.Valid() && j < |e.view.log| && e.view.log[j].Sent? && e.view.log[j].msg.Protected?
    requires !NasCounts.Misfit(e.view.log[j].msg)
    ensures var m, moves := e.view.log[j].msg, NasCounts.Moved(e.view.log[..j], e.view.log[j].c);
            exists bytes :: bytes in e.outbox && SentAs(m, moves, e.codec, e.crypto, bytes)
  {
    var m, c := e.view.log[j].msg, e.view.log[j].c;
    NasCounts.CountIsMoves(e.history, c, j);
    PostedEach(e.view.log, e.wire, j);
    WireOfBytes(m, e.codec, e.crypto);
    assert e.wire(m) == WireOf(m, e.codec, e.crypto);
  }
}

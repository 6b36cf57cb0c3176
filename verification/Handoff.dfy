/** The handoff between `net_thread_fnc` and the subframe loop of `main` in
    lib/examples/pdsch_enodeb.c: one semaphore, one flag, one packet slot, two
    threads, every interleaving of their single steps. */
module Handoff {

  datatype Producer = Idle | Filling | Filled       // before wait; after wait; after the copy
  datatype Consumer = Looking | Holding | Cleared   // before the test; flag seen; flag cleared

  /** `slot` is the number of the packet last copied; packets are numbered in
      the order they are cut from the stream.  `taken` lists what the consumer
      cleared, in order. */
  datatype System = System(
    sem: nat, ready: bool, producer: Producer, consumer: Consumer,
    slot: int, handed: nat, taken: seq<int>)

  const START: System := System(1, false, Idle, Looking, -1, 0, [])

  datatype Action =
    | Wait | Copy | SetReady            // sem_wait, memcpy, net_packet_ready = true
    | Test | Leave | Clear | Post       // if (net_packet_ready), skip, = false, sem_post

  predicate Enabled(s: System, a: Action) {
    match a
    case Wait => s.producer.Idle? && s.sem > 0
    case Copy => s.producer.Filling?
    case SetReady => s.producer.Filled?
    case Test => s.consumer.Looking?
    case Leave => s.consumer.Holding?
    case Clear => s.consumer.Holding?
    case Post => s.consumer.Cleared?
  }

  function Act(s: System, a: Action): System
    requires Enabled(s, a)
  {
    match a
    case Wait => s.(sem := s.sem - 1, producer := Filling)
    case Copy => s.(producer := Filled, slot := s.handed)
    case SetReady => s.(producer := Idle, ready := true, handed := s.handed + 1)
    case Test => if s.ready then s.(consumer := Holding) else s
    case Leave => s.(consumer := Looking)
    case Clear => s.(consumer := Cleared, ready := false, taken := s.taken + [s.slot])
    case Post => s.(consumer := Looking, sem := s.sem + 1)
  }

  ghost predicate Reachable(s: System, run: seq<Action>)
    decreases |run|
  {
    if run == [] then s == START
    else
      var a := run[|run| - 1];
      exists p :: Reachable(p, run[..|run| - 1]) && Enabled(p, a) && s == Act(p, a)
  }

  function One(b: bool): nat { if b then 1 else 0 }

  /** One token: in the semaphore, with the producer, in the flag, or with the
      consumer. */
  predicate Token(s: System) {
    s.sem + One(!s.producer.Idle?) + One(s.ready) + One(s.consumer.Cleared?) == 1
  }

  predicate Inv(s: System) {
    && Token(s)
    && (s.consumer.Holding? ==> s.ready)
    && s.handed == |s.taken| + One(s.ready)
    && (s.ready ==> s.slot == |s.taken|)
    && (s.producer.Filled? ==> s.slot == s.handed)
    && (forall i :: 0 <= i < |s.taken| ==> s.taken[i] == i)
  }

  lemma ActKeeps(s: System, a: Action)
    requires Inv(s) && Enabled(s, a)
    ensures Inv(Act(s, a))
  {
  }

  lemma {:induction false} ReachableInv(s: System, run: seq<Action>)
    requires Reachable(s, run)
    ensures Inv(s)
    decreases |run|
  {
    if run != [] {
      var a := run[|run| - 1];
      var p :| Reachable(p, run[..|run| - 1]) && Enabled(p, a) && s == Act(p, a);
      ReachableInv(p, run[..|run| - 1]);
      ActKeeps(p, a);
    }
  }

  /** Under every interleaving: the token is unique; packets are taken each
      once and in order; at most one is handed over and not yet taken; a ready
      slot is not refilled; and a producer that waits is waiting for a packet
      the consumer still has to take or to post for. */
  lemma {:induction false} HandoffSafe(s: System, run: seq<Action>)
    requires Reachable(s, run)
    ensures Token(s)
    ensures forall i :: 0 <= i < |s.taken| ==> s.taken[i] == i
    ensures |s.taken| <= s.handed <= |s.taken| + 1
    ensures s.ready ==> s.slot == |s.taken| && !Enabled(s, Wait) && !Enabled(s, Copy) && !Enabled(s, SetReady)
    ensures s.producer.Idle? && !Enabled(s, Wait) ==> s.ready || Enabled(s, Post)
  {
    ReachableInv(s, run);
  }

  // ------------------------------------------------- progress

  predicate OfConsumer(a: Action) { a.Test? || a.Leave? || a.Clear? || a.Post? }

  lemma OneMore(s: System, run: seq<Action>, a: Action)
    requires Reachable(s, run) && Enabled(s, a)
    ensures Reachable(Act(s, a), run + [a])
  {
    var r := run + [a];
    assert r[..|r| - 1] == run && r[|r| - 1] == a;
  }

  /** A packet that is ready can be taken by the consumer alone, in at most two
      steps, wherever both threads are. */
  lemma ReadyIsTaken(s: System, run: seq<Action>) returns (t: System, more: seq<Action>)
    requires Reachable(s, run) && s.ready
    ensures Reachable(t, run + more) && t.taken == s.taken + [s.slot] && !t.ready
    ensures |more| <= 2 && forall a :: a in more ==> OfConsumer(a)
  {
    ReachableInv(s, run);
    t, more := s, [];
    assert run + more == run;
    if s.consumer.Looking? {
      OneMore(s, run, Test);
      t, more := Act(s, Test), [Test];
    }
    OneMore(t, run + more, Clear);
    assert (run + more) + [Clear] == run + (more + [Clear]);
    t, more := Act(t, Clear), more + [Clear];
  }

  lemma Fills(s: System, run: seq<Action>) returns (t: System, more: seq<Action>)
    requires Reachable(s, run) && !s.ready
    ensures Reachable(t, run + more) && t.ready && t.taken == s.taken
  {
    ReachableInv(s, run);
    t, more := s, [];
    assert run + more == run;
    if t.consumer.Cleared? {
      OneMore(t, run + more, Post);
      assert (run + more) + [Post] == run + (more + [Post]);
      t, more := Act(t, Post), more + [Post];
    }
    if t.producer.Idle? {
      OneMore(t, run + more, Wait);
      assert (run + more) + [Wait] == run + (more + [Wait]);
      t, more := Act(t, Wait), more + [Wait];
    }
    if t.producer.Filling? {
      OneMore(t, run + more, Copy);
      assert (run + more) + [Copy] == run + (more + [Copy]);
      t, more := Act(t, Copy), more + [Copy];
    }
    OneMore(t, run + more, SetReady);
    assert (run + more) + [SetReady] == run + (more + [SetReady]);
    t, more := Act(t, SetReady), more + [SetReady];
  }

  /** The handoff never gets stuck: from every reachable state some steps take the
      next packet. */
  lemma NeverStuck(s: System, run: seq<Action>) returns (t: System, more: seq<Action>)
    requires Reachable(s, run)
    ensures Reachable(t, run + more) && t.taken == s.taken + [|s.taken|]
  {
    var u, before := s, [];
    assert run + before == run;
    if !s.ready { u, before := Fills(s, run); }
    ReachableInv(u, run + before);
    t, more := ReadyIsTaken(u, run + before);
    assert (run + before) + more == run + (before + more);
    more := before + more;
  }
}

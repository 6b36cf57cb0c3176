/** The process table of the management daemon (mng/src/init.cc) under the
    beam and core-network commands (mng/src/mng_scpiparse.cc), which arrive one
    at a time.  What the operating system answers to a spawn is an input. */
module AppTable {
  import opened Options

  datatype App = App(pid: int, status: int)

  const SLOTS: nat := 5   // two IOT beams, two access beams, the core network
  const CORE: nat := 4

  /** `spawned` and `stopped` record the pids handed out by `spawn_process`
      and given to `stop_process`. */
  datatype Table = Table(apps: seq<App>, beams: seq<int>, spawned: seq<int>, stopped: seq<int>)

  predicate Shaped(t: Table) { |t.apps| == SLOTS && |t.beams| == CORE }

  const FREE: App := App(-1, 0)
  const INITIAL: Table := Table([FREE, FREE, FREE, FREE, FREE], [0, 0, 0, 0], [], [])

  function Start(t: Table, i: nat, answer: int): Table
    requires i < |t.apps|
  {
    if t.apps[i].status <= 0 && answer > 0
    then t.(apps := t.apps[i := App(answer, 1)], spawned := t.spawned + [answer])
    else t
  }

  function Stop(t: Table, i: nat): Table
    requires i < |t.apps|
  {
    var a := t.apps[i];
    if a.pid > 0 && a.status > 0
    then t.(apps := t.apps[i := App(-1, 0)], stopped := t.stopped + [a.pid])
    else t
  }

  datatype Net = AN | IOT | BadNet
  datatype Switch = Off | On | BadSwitch

  /** A command with the answer a spawn would get (not positive: it failed). */
  datatype Command =
    | Beam(net: Net, switch: Switch, index: int, answer: int)
    | CoreNetwork(switch: Switch, answer: int)

  predicate GoodBeam(c: Command) {
    c.Beam? && !c.net.BadNet? && !c.switch.BadSwitch? && 1 <= c.index <= 2
  }

  function SlotOf(c: Command): nat
    requires GoodBeam(c)
  { if c.net.AN? then c.index + 1 else c.index - 1 }

  function Apply(t: Table, c: Command): Table
    requires Shaped(t)
  {
    match c
    case CoreNetwork(sw, answer) =>
      (match sw case On => Start(t, CORE, answer) case Off => Stop(t, CORE) case BadSwitch => t)
    case Beam(_, sw, _, answer) =>
      if !GoodBeam(c) then t
      else
        var i := SlotOf(c);
        var want := if sw.On? then 1 else 0;
        if t.beams[i] == want then t
        else
          var t' := if sw.On? then Start(t, i, answer) else Stop(t, i);
          t'.(beams := t.beams[i := want])
  }

  // ------------------------------------------------- conservation

  function Has(a: App, pid: int): nat { if a.status == 1 && a.pid == pid then 1 else 0 }

  /** How many slots marked running hold the pid. */
  function Slots(apps: seq<App>, pid: int): nat {
    if apps == [] then 0 else Slots(apps[..|apps| - 1], pid) + Has(apps[|apps| - 1], pid)
  }

  /** How often the pid occurs in a record. */
  function Times(pids: seq<int>, pid: int): nat {
    if pids == [] then 0 else Times(pids[..|pids| - 1], pid) + if pids[|pids| - 1] == pid then 1 else 0
  }

  /** Each spawn of the pid is accounted for by a slot or by a stop. */
  predicate Balanced(t: Table, pid: int) {
    Times(t.spawned, pid) == Slots(t.apps, pid) + Times(t.stopped, pid)
  }

  predicate Sound(a: App) { (a.status == 0 || a.status == 1) && (a.status > 0 <==> a.pid > 0) }

  /** A slot is marked running exactly when it has a pid, and the beams that
      run are switched on. */
  ghost predicate Agree(t: Table) {
    && Shaped(t)
    && (forall i :: 0 <= i < SLOTS ==> Sound(t.apps[i]))
    && (forall i :: 0 <= i < CORE ==> (t.beams[i] == 0 || t.beams[i] == 1) && (t.apps[i].status == 1 ==> t.beams[i] == 1))
  }

  /** Besides, every process spawned is running in a slot or was stopped, and
      counted once. */
  ghost predicate Conserved(t: Table) {
    Agree(t) && forall pid :: Balanced(t, pid)
  }

  lemma {:induction false} SlotsUpdate(apps: seq<App>, i: nat, a: App, pid: int)
    requires i < |apps|
    ensures Slots(apps[i := a], pid) + Has(apps[i], pid) == Slots(apps, pid) + Has(a, pid)
  {
    var last := |apps| - 1;
    if i < last {
      SlotsUpdate(apps[..last], i, a, pid);
      assert apps[i := a][..last] == apps[..last][i := a];
    } else {
      assert apps[i := a][..last] == apps[..last];
    }
  }

  lemma TimesSnoc(pids: seq<int>, x: int, pid: int)
    ensures Times(pids + [x], pid) == Times(pids, pid) + if x == pid then 1 else 0
  {
    assert (pids + [x])[..|pids|] == pids;
  }

  lemma {:induction false} NoneRunning(apps: seq<App>, pid: int)
    requires forall i :: 0 <= i < |apps| ==> apps[i] == FREE
    ensures Slots(apps, pid) == 0
  {
    if apps != [] { NoneRunning(apps[..|apps| - 1], pid); }
  }

  lemma StartBalances(t: Table, i: nat, answer: int, pid: int)
    requires i < |t.apps| && Balanced(t, pid) && Sound(t.apps[i])
    ensures Balanced(Start(t, i, answer), pid)
  {
    SlotsUpdate(t.apps, i, App(answer, 1), pid);
    TimesSnoc(t.spawned, answer, pid);
  }

  lemma StopBalances(t: Table, i: nat, pid: int)
    requires i < |t.apps| && Balanced(t, pid) && Sound(t.apps[i])
    ensures Balanced(Stop(t, i), pid)
  {
    SlotsUpdate(t.apps, i, App(-1, 0), pid);
    TimesSnoc(t.stopped, t.apps[i].pid, pid);
  }

  lemma BeamsDoNotMatter(t: Table, beams: seq<int>, pid: int)
    ensures Balanced(t.(beams := beams), pid) <==> Balanced(t, pid)
  {
  }

  lemma ApplyBalances(t: Table, c: Command, pid: int)
    requires Conserved(t)
    ensures Balanced(Apply(t, c), pid)
  {
    assert Balanced(t, pid);
    if c.CoreNetwork? {
      if c.switch.On? { StartBalances(t, CORE, c.answer, pid); } else { StopBalances(t, CORE, pid); }
    } else if GoodBeam(c) {
      var i := SlotOf(c);
      var want := if c.switch.On? then 1 else 0;
      if c.switch.On? { StartBalances(t, i, c.answer, pid); } else { StopBalances(t, i, pid); }
      var t' := if c.switch.On? then Start(t, i, c.answer) else Stop(t, i);
      BeamsDoNotMatter(t', t.beams[i := want], pid);
    }
  }

  lemma ApplyAgrees(t: Table, c: Command)
    requires Agree(t)
    ensures Agree(Apply(t, c))
  {
  }

  lemma ApplyConserves(t: Table, c: Command)
    requires Conserved(t)
    ensures Conserved(Apply(t, c))
  {
    ApplyAgrees(t, c);
    forall pid ensures Balanced(Apply(t, c), pid) { ApplyBalances(t, c, pid); }
  }

  function Run(cs: seq<Command>): (t: Table)
    ensures Shaped(t)
  {
    if cs == [] then INITIAL else Apply(Run(cs[..|cs| - 1]), cs[|cs| - 1])
  }

  /** Over every sequence of commands, with spawns failing at will. */
  lemma {:induction false} RunConserves(cs: seq<Command>)
    ensures Conserved(Run(cs))
  {
    if cs == [] {
      forall pid ensures Balanced(INITIAL, pid) { NoneRunning(INITIAL.apps, pid); }
    } else {
      RunConserves(cs[..|cs| - 1]);
      ApplyConserves(Run(cs[..|cs| - 1]), cs[|cs| - 1]);
    }
  }

  /** A process that was spawned once is, at any time, in one slot or among the
      stopped, and not both. */
  lemma {:induction false} SpawnedOnce(cs: seq<Command>, pid: int)
    requires Times(Run(cs).spawned, pid) == 1
    ensures Slots(Run(cs).apps, pid) + Times(Run(cs).stopped, pid) == 1
  {
    RunConserves(cs);
    assert Balanced(Run(cs), pid);
  }

  function Want(c: Command): int
    requires c.Beam?
  { if c.switch.On? then 1 else 0 }

  /** The command is for beam `i` and changes its switch. */
  predicate Switches(t: Table, c: Command, i: nat)
    requires Shaped(t) && i < CORE
  { GoodBeam(c) && SlotOf(c) == i && t.beams[i] != Want(c) }

  /** The last command that changed the switch of beam `i`. */
  function LastSwitch(cs: seq<Command>, i: nat): Option<Command>
    requires i < CORE
  {
    if cs == [] then None
    else
      var front, c := cs[..|cs| - 1], cs[|cs| - 1];
      if Switches(Run(front), c, i) then Some(c) else LastSwitch(front, i)
  }

  /** What a beam shows is what its last switch left. */
  predicate Shows(t: Table, i: nat, last: Option<Command>)
    requires Shaped(t) && i < CORE
  {
    if last.Some? && last.value.Beam? && last.value.switch.On?
    then t.beams[i] == 1 && t.apps[i] == if last.value.answer > 0 then App(last.value.answer, 1) else FREE
    else t.beams[i] == 0 && t.apps[i] == FREE
  }

  lemma SwitchShows(t: Table, c: Command, i: nat, last: Option<Command>)
    requires Shaped(t) && i < CORE && Shows(t, i, last)
    ensures Shows(Apply(t, c), i, if Switches(t, c, i) then Some(c) else last)
  {
  }

  lemma {:induction false} RunShows(cs: seq<Command>, i: nat)
    requires i < CORE
    ensures Shows(Run(cs), i, LastSwitch(cs, i))
  {
    if cs != [] {
      RunShows(cs[..|cs| - 1], i);
      SwitchShows(Run(cs[..|cs| - 1]), cs[|cs| - 1], i, LastSwitch(cs[..|cs| - 1], i));
    }
  }

  lemma {:induction false} LastSwitchIsBeam(cs: seq<Command>, i: nat)
    requires i < CORE
    ensures LastSwitch(cs, i).Some? ==> LastSwitch(cs, i).value.Beam?
  {
    if cs != [] { LastSwitchIsBeam(cs[..|cs| - 1], i); }
  }

  /** After any commands a beam is switched on without a running process exactly
      when the command that last changed its switch was an ON whose spawn failed;
      later ON commands do not retry. */
  lemma {:induction false} OnWithoutProcessExactly(cs: seq<Command>, i: nat)
    requires i < CORE
    ensures var t, last := Run(cs), LastSwitch(cs, i);
            && (last.Some? ==> last.value.Beam?)
            && (t.beams[i] == 1 && t.apps[i].status != 1
                <==> last.Some? && last.value.switch.On? && last.value.answer <= 0)
            && (t.beams[i] == 1 <==> last.Some? && last.value.switch.On?)
            && (t.apps[i].status == 1 ==> last.Some? && t.apps[i].pid == last.value.answer)
  {
    RunShows(cs, i);
    LastSwitchIsBeam(cs, i);
  }

  /** Slot 0 and 1 are the IOT beams 1 and 2, slot 2 and 3 the access beams. */
  predicate BeamOfSlot(i: nat, net: Net, index: int) {
    (i == 0 && net == IOT && index == 1) || (i == 1 && net == IOT && index == 2)
    || (i == 2 && net == AN && index == 1) || (i == 3 && net == AN && index == 2)
  }

  /** A beam command acts on the slot of its net and index and on no other, and an
      ON that changes the switch of a free slot runs what the spawn gives. */
  lemma BeamActsOnSlot(t: Table, c: Command, i: nat)
    requires Conserved(t) && c.Beam? && BeamOfSlot(i, c.net, c.index) && !c.switch.BadSwitch?
    ensures var t' := Apply(t, c);
            && (t'.beams[i] == 1 <==> c.switch == On)
            && (forall j :: 0 <= j < SLOTS && j != i ==> t'.apps[j] == t.apps[j])
            && (forall j :: 0 <= j < CORE && j != i ==> t'.beams[j] == t.beams[j])
            && (c.switch == On && t.beams[i] == 0 ==> t'.apps[i] == if c.answer > 0 then App(c.answer, 1) else t.apps[i])
            && (c.switch == Off ==> t'.apps[i].status == 0)
    ensures |Apply(t, c).apps| == SLOTS && |Apply(t, c).beams| == CORE
  {
    ApplyAgrees(t, c);
  }

  /** The pid of the first core-network ON since the last OFF whose spawn
      succeeded. */
  function CoreStarted(cs: seq<Command>): Option<int> {
    if cs == [] then None
    else
      var front, c := CoreStarted(cs[..|cs| - 1]), cs[|cs| - 1];
      if c.Beam? || c.switch == BadSwitch then front
      else if c.switch == Off then None
      else if front.None? && c.answer > 0 then Some(c.answer) else front
  }

  predicate CoreShows(t: Table, started: Option<int>)
    requires Shaped(t)
  {
    t.apps[4] == if started.Some? then App(started.value, 1) else FREE
  }

  lemma CoreStep(t: Table, c: Command, started: Option<int>)
    requires Shaped(t) && CoreShows(t, started) && (started.Some? ==> started.value > 0)
    ensures CoreShows(Apply(t, c), if c.Beam? || c.switch == BadSwitch then started
                                   else if c.switch == Off then None
                                   else if started.None? && c.answer > 0 then Some(c.answer) else started)
  {
  }

  /** The core network runs exactly as such an ON says: unlike a beam it is
      started again by an ON after a failed one. */
  lemma {:induction false} CoreRunsExactly(cs: seq<Command>)
    ensures Run(cs).apps[4] == match CoreStarted(cs) case Some(pid) => App(pid, 1) case None => FREE
    ensures CoreStarted(cs).Some? ==> CoreStarted(cs).value > 0
  {
    if cs != [] {
      CoreRunsExactly(cs[..|cs| - 1]);
      CoreStep(Run(cs[..|cs| - 1]), cs[|cs| - 1], CoreStarted(cs[..|cs| - 1]));
    }
  }

  /** A beam whose spawn failed counts as switched on: until it is switched
      off, switching it on again does nothing. */
  lemma FailedSpawnSticks(t: Table, c: Command, again: Command)
    requires Conserved(t) && GoodBeam(c) && c.switch.On? && c.answer <= 0 && t.beams[SlotOf(c)] == 0
    requires again == c.(answer := again.answer)
    ensures var t' := Apply(t, c);
            t'.beams[SlotOf(c)] == 1 && t'.apps == t.apps && t.apps[SlotOf(c)].status == 0 && Apply(t', again) == t'
  {
  }

  // ------------------------------------------------- in place

  class Daemon {
    const initApps: array<App>
    const beamStatus: array<int>
    ghost var spawned: seq<int>
    ghost var stopped: seq<int>

    ghost function View(): Table
      reads this, initApps, beamStatus
    { Table(initApps[..], beamStatus[..], spawned, stopped) }

    ghost predicate Valid()
      reads this
    { initApps.Length == SLOTS && beamStatus.Length == CORE }

    constructor ()
      ensures Valid() && View() == INITIAL && fresh(initApps) && fresh(beamStatus)
    {
      initApps := new App[SLOTS](i => App(-1, 0));
      beamStatus := new int[CORE](i => 0);
      spawned, stopped := [], [];
    }

    method StartAnApp(idx: nat, answer: int)
      requires Valid() && idx < SLOTS
      modifies this, initApps
      ensures Valid() && View() == Start(old(View()), idx, answer)
    {
      if initApps[idx].status <= 0 && answer > 0 {
        initApps[idx] := App(answer, 1);
        spawned := spawned + [answer];
      }
    }

    method StopAnApp(idx: nat)
      requires Valid() && idx < SLOTS
      modifies this, initApps
      ensures Valid() && View() == Stop(old(View()), idx)
    {
      var pid := initApps[idx].pid;
      if pid > 0 && initApps[idx].status > 0 {
        stopped := stopped + [pid];
        initApps[idx] := App(-1, 0);
      }
    }

    /** `Set_BEAM_IMMediate`. */
    method SetBeamImmediate(c: Command)
      requires Valid() && c.Beam?
      modifies this, initApps, beamStatus
      ensures Valid() && View() == Apply(old(View()), c)
    {
      if c.net.BadNet? || c.switch.BadSwitch? || c.index < 1 || c.index > 2 { return; }
      var beam := c.index;
      if c.net.AN? { beam := beam + 2; }
      var want := if c.switch.On? then 1 else 0;
      if beamStatus[beam - 1] == want { return; }
      if want == 0 { StopAnApp(beam - 1); } else { StartAnApp(beam - 1, c.answer); }
      beamStatus[beam - 1] := want;
    }

    /** `Set_INIT_IMMediate_SRSCNW`. */
    method SetCoreNetwork(c: Command)
      requires Valid() && c.CoreNetwork?
      modifies this, initApps
      ensures Valid() && View() == Apply(old(View()), c)
    {
      if c.switch.On? { StartAnApp(CORE, c.answer); } else if c.switch.Off? { StopAnApp(CORE); }
    }
  }
}

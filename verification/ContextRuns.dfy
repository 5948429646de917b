/**
 Whole runs of the context-switch protocol.  The machine with its stacks and rsp0 behaves as an ideal
 machine in which every task has registers of its own and switching moves them in and out.
 */
module ContextRuns {
  import opened Prelude
  import opened Scheduling
  import opened SavedFrames
  import opened ContextSwitch

  // One event.  A halted machine stays halted.
  function Step(m: Machine, e: Event): Machine
    requires Inv(m)
  {
    if m.halted then m
    else
      match e
      case User(cpu, junk) => m.(cpu := cpu, stacks := m.stacks[m.rsp0 := junk])
      case Tick(junk) => TickStep(m, junk)
      case Exit(junk) => ExitStep(m, junk)
  }

  // ---- The ideal machine ----

  // saved holds the registers of every living task but the current one.
  datatype Ideal = Ideal(states: seq<TaskState>, current: nat, cpu: Cpu, saved: map<nat, Cpu>, ticks: nat, halted: bool)

  // The task taken out of `saved`; the interrupted one if it was never put back.
  function Take(d: Ideal, saved: map<nat, Cpu>, c: nat): Cpu {
    if c in saved then saved[c] else d.cpu
  }

  // The interrupted task's registers go in, the chosen task's come out with ss forced.
  function IdealTick(d: Ideal, q: Queue, ticks: nat): Ideal {
    var saved := d.saved[d.current := d.cpu];
    Ideal(q.states, q.current, Take(d, saved, q.current).(ss := 0x1B), saved - {q.current}, ticks, false)
  }

  function IdealStep(d: Ideal, e: Event): (r: Ideal)
    requires d.current < |d.states|
    ensures r.current < |r.states| == |d.states|
  {
    if d.halted then d
    else
      match e
      case User(cpu, _) => d.(cpu := cpu)
      case Tick(_) =>
        var ticks := Wrap64(d.ticks + 1);
        IdealTick(d, NextQueue(Queue(d.states, d.current), ticks), ticks)
      case Exit(_) =>
        match Scheduling.Exit(Queue(d.states, d.current))
        case None => d.(states := d.states[d.current := Dead], halted := true)
        case Some(q) => Ideal(q.states, q.current, Take(d, d.saved, q.current), d.saved - {q.current}, d.ticks, false)
  }

  // The frames of the suspended tasks are in memory.
  ghost predicate FramesIn(m: Machine) {
    m.current < |m.tasks| && forall i: nat :: Suspended(m, i) ==> m.tasks[i].ctxStack in m.stacks
  }

  lemma InvFramesIn(m: Machine)
    requires Inv(m)
    ensures FramesIn(m)
  {
  }

  // The stacks that hold the frames of the suspended tasks.
  ghost function FrameStacks(m: Machine): (frames: map<nat, Stack>)
    requires FramesIn(m)
    ensures forall i: nat :: i in frames <==> Suspended(m, i)
    ensures forall i: nat :: i in frames ==> frames[i] == m.stacks[m.tasks[i].ctxStack]
  {
    map i: nat | i < |m.tasks| && Suspended(m, i) :: m.stacks[m.tasks[i].ctxStack]
  }

  ghost function Contexts(frames: map<nat, Stack>): (saved: map<nat, Cpu>)
    ensures forall i: nat :: i in saved <==> i in frames
    ensures forall i: nat :: i in saved ==> saved[i] == Restore(frames[i], FRAME_AT)
  {
    map i: nat | i in frames :: Restore(frames[i], FRAME_AT)
  }

  ghost function Saved(m: Machine): (saved: map<nat, Cpu>)
    requires FramesIn(m)
    ensures forall i: nat :: i in saved <==> Suspended(m, i)
    ensures forall i: nat :: i in saved ==> saved[i] == FrameCpu(m, i)
  {
    Contexts(FrameStacks(m))
  }

  ghost function View(m: Machine): (d: Ideal)
    requires FramesIn(m)
    ensures d.current < |d.states|
  {
    Ideal(States(m.tasks), m.current, m.cpu, Saved(m), m.ticks, m.halted)
  }

  // p has the frames of m, perhaps fewer.
  lemma SavedShrinks(m: Machine, p: Machine, gone: set<nat>)
    requires FramesIn(m) && FramesIn(p)
    requires forall i: nat :: Suspended(p, i) <==> Suspended(m, i) && i !in gone
    requires forall i: nat :: Suspended(p, i) ==> FrameKept(m, p, i)
    ensures Saved(p) == Saved(m) - gone
  {
    forall i: nat | i in Saved(p)
      ensures Saved(p)[i] == Saved(m)[i]
    {
      assert FrameKept(m, p, i);
    }
    MapShrinks(Saved(m), Saved(p), gone);
  }

  lemma MapShrinks(a: map<nat, Cpu>, b: map<nat, Cpu>, gone: set<nat>)
    requires forall i: nat :: i in b <==> i in a && i !in gone
    requires forall i: nat :: i in b ==> b[i] == a[i]
    ensures b == a - gone
  {
  }

  // p has exactly the frames of m.
  ghost predicate SameFrames(m: Machine, p: Machine) {
    forall i: nat :: (Suspended(p, i) <==> Suspended(m, i)) && (Suspended(p, i) ==> FrameKept(m, p, i))
  }

  lemma SavedSame(m: Machine, p: Machine)
    requires FramesIn(m) && FramesIn(p) && SameFrames(m, p)
    ensures Saved(p) == Saved(m)
  {
    SavedShrinks(m, p, {});
  }

  // ---- Each event keeps the invariant and matches the ideal step ----

  lemma UserKeeps(m: Machine, cpu: Cpu, junk: Stack)
    requires Inv(m) && !m.halted && cpu.Complete()
    ensures var p := m.(cpu := cpu, stacks := m.stacks[m.rsp0 := junk]);
            Inv(p) && SameFrames(m, p)
  {
    var p := m.(cpu := cpu, stacks := m.stacks[m.rsp0 := junk]);
    SameDead(m, p);
    forall i: nat | Suspended(p, i)
      ensures Suspended(m, i) && HasFrame(p, i) && FrameKept(m, p, i) && p.tasks[i].ctxStack != p.rsp0
    {
      assert Suspended(m, i) && HasFrame(m, i);
    }
  }

  lemma UserEvent(m: Machine, e: Event)
    requires Inv(m) && !m.halted && e.User? && EventOk(e)
    ensures Inv(Step(m, e)) && FramesIn(m) && FramesIn(Step(m, e)) && View(Step(m, e)) == IdealStep(View(m), e)
  {
    var p := Step(m, e);
    UserKeeps(m, e.cpu, e.junk);
    InvFramesIn(m);
    InvFramesIn(p);
    UserViews(m, p);
  }

  lemma UserViews(m: Machine, p: Machine)
    requires FramesIn(m) && FramesIn(p) && SameFrames(m, p)
    requires p.tasks == m.tasks && p.current == m.current && p.ticks == m.ticks && p.halted == m.halted
    ensures View(p) == View(m).(cpu := p.cpu)
  {
    SavedSame(m, p);
  }

  lemma TickEvent(m: Machine, e: Event)
    requires Inv(m) && !m.halted && e.Tick?
    ensures Inv(Step(m, e)) && FramesIn(m) && FramesIn(Step(m, e)) && View(Step(m, e)) == IdealStep(View(m), e)
  {
    TickEffect(m, e.junk);
    InvFramesIn(m);
    InvFramesIn(Step(m, e));
    TickQueueDeath(m);
    TickViews(m, Step(m, e), e);
  }

  lemma TickViews(m: Machine, p: Machine, e: Event)
    requires FramesIn(m) && FramesIn(p) && !m.halted && !p.halted && e.Tick? && Alive(m, m.current)
    requires Resumed(m, p) && Requeued(m, p) && SameDeaths(m)
    ensures View(p) == IdealStep(View(m), e)
  {
    TickViewQ(m, p);
    IdealOfView(m, e);
  }

  lemma IdealOfView(m: Machine, e: Event)
    requires FramesIn(m) && !m.halted && e.Tick?
    ensures IdealStep(View(m), e) == IdealTick(View(m), NextQueue(Queue(States(m.tasks), m.current), Wrap64(m.ticks + 1)), Wrap64(m.ticks + 1))
  {
    IdealStepOnTick(View(m), e, States(m.tasks), m.current, m.ticks);
  }

  lemma IdealStepOnTick(d: Ideal, e: Event, states: seq<TaskState>, current: nat, ticks: nat)
    requires d.states == states && d.current == current < |states| && d.ticks == ticks && !d.halted && e.Tick?
    ensures IdealStep(d, e) == IdealTick(d, NextQueue(Queue(states, current), Wrap64(ticks + 1)), Wrap64(ticks + 1))
  {
  }

  lemma TickViewQ(m: Machine, p: Machine)
    requires FramesIn(m) && FramesIn(p) && !p.halted && Alive(m, m.current)
    requires Resumed(m, p) && Requeued(m, p) && SameDeaths(m)
    ensures View(p) == IdealTick(View(m), NextQueue(Queue(States(m.tasks), m.current), Wrap64(m.ticks + 1)), Wrap64(m.ticks + 1))
  {
    DeathsAfter(m, p);
    TickView(m, p, TickQueue(m), Wrap64(m.ticks + 1));
  }

  lemma DeathsAfter(m: Machine, p: Machine)
    requires m.current < |m.tasks| == |p.tasks| && Requeued(m, p) && SameDeaths(m)
    ensures forall i :: 0 <= i < |m.tasks| ==> (p.tasks[i].state == Dead <==> m.tasks[i].state == Dead)
  {
    forall i | 0 <= i < |m.tasks|
      ensures p.tasks[i].state == Dead <==> m.tasks[i].state == Dead
    {
      assert p.tasks[i].state == States(p.tasks)[i];
    }
  }

  lemma TickView(m: Machine, p: Machine, q: Queue, ticks: nat)
    requires FramesIn(m) && FramesIn(p) && !p.halted && Alive(m, m.current) && Resumed(m, p)
    requires States(p.tasks) == q.states && p.current == q.current && p.ticks == ticks
    requires forall i :: 0 <= i < |m.tasks| ==> (p.tasks[i].state == Dead <==> m.tasks[i].state == Dead)
    ensures View(p) == IdealTick(View(m), q, ticks)
  {
    SavedAfterTick(m, p);
  }

  ghost predicate SameDeaths(m: Machine)
    requires m.current < |m.tasks|
  {
    forall i :: 0 <= i < |m.tasks| ==> (TickQueue(m).states[i] == Dead <==> m.tasks[i].state == Dead)
  }

  lemma MapAfterTick(a: map<nat, Cpu>, b: map<nat, Cpu>, current: nat, cpu: Cpu, chosen: nat)
    requires forall i: nat :: i in b <==> (i in a || i == current) && i != chosen
    requires forall i: nat :: i in b && i != current ==> b[i] == a[i]
    requires current in b ==> b[current] == cpu
    ensures b == a[current := cpu] - {chosen}
  {
  }

  lemma SavedAfterTick(m: Machine, p: Machine)
    requires FramesIn(m) && FramesIn(p) && Alive(m, m.current) && Resumed(m, p)
    requires forall i :: 0 <= i < |m.tasks| ==> (p.tasks[i].state == Dead <==> m.tasks[i].state == Dead)
    ensures Saved(p) == Saved(m)[m.current := m.cpu] - {p.current}
  {
    forall i: nat
      ensures i in Saved(p) <==> (i in Saved(m) || i == m.current) && i != p.current
      ensures i in Saved(p) && i != m.current ==> Saved(p)[i] == Saved(m)[i]
    {
      SavedTickAt(m, p, i);
    }
    MapAfterTick(Saved(m), Saved(p), m.current, m.cpu, p.current);
  }

  lemma SuspendedTickAt(m: Machine, p: Machine, i: nat)
    requires m.current < |m.tasks| == |p.tasks| && p.current < |p.tasks| && Alive(m, m.current)
    requires forall i :: 0 <= i < |m.tasks| ==> (p.tasks[i].state == Dead <==> m.tasks[i].state == Dead)
    requires p.current != m.current ==> Suspended(m, p.current)
    ensures Suspended(p, i) <==> (Suspended(m, i) || i == m.current) && i != p.current
  {
  }

  lemma SavedTickAt(m: Machine, p: Machine, i: nat)
    requires FramesIn(m) && FramesIn(p) && Alive(m, m.current) && Resumed(m, p)
    requires forall i :: 0 <= i < |m.tasks| ==> (p.tasks[i].state == Dead <==> m.tasks[i].state == Dead)
    ensures i in Saved(p) <==> (i in Saved(m) || i == m.current) && i != p.current
    ensures i in Saved(p) && i != m.current ==> Saved(p)[i] == Saved(m)[i]
    ensures m.current in Saved(p) ==> Saved(p)[m.current] == m.cpu
  {
    SuspendedTickAt(m, p, i);
    if Suspended(p, i) && i != m.current {
      assert FrameKept(m, p, i);
    }
  }

  // A tick lets no task die.
  lemma TickQueueDeath(m: Machine)
    requires Inv(m) && !m.halted
    ensures SameDeaths(m)
  {
    ScheduleKeepsDeath(Queue(States(m.tasks), m.current));
  }

  lemma ExitEvent(m: Machine, e: Event)
    requires Inv(m) && !m.halted && e.Exit?
    ensures Inv(Step(m, e)) && FramesIn(m) && FramesIn(Step(m, e)) && View(Step(m, e)) == IdealStep(View(m), e)
  {
    InvFramesIn(m);
    var q := Scheduling.Exit(Queue(States(m.tasks), m.current));
    if q.None? {
      HaltEvent(m, e.junk);
    } else {
      ExitChoice(m, e.junk, q.value);
      EnterRuns(m, e.junk, q.value.current);
      InvFramesIn(Enter(Die(m, e.junk), q.value.current));
      EnterViews(m, e.junk, q.value);
    }
  }

  lemma EnterViews(m: Machine, junk: Stack, q: Queue)
    requires FramesIn(m) && Suspended(m, q.current) && Die(m, junk).tasks[q.current].ctxStack in Die(m, junk).stacks
    requires q.states == States(Die(m, junk).tasks) && !m.halted
    requires FramesIn(Enter(Die(m, junk), q.current)) && Entered(m, Enter(Die(m, junk), q.current))
    ensures View(Enter(Die(m, junk), q.current))
         == Ideal(q.states, q.current, Take(View(m), Saved(m), q.current), Saved(m) - {q.current}, m.ticks, false)
  {
    EnteredSuspended(m, junk, q.current);
    SavedShrinks(m, Enter(Die(m, junk), q.current), {q.current});
  }

  lemma EnteredSuspended(m: Machine, junk: Stack, c: nat)
    requires m.current < |m.tasks| && Suspended(m, c) && Die(m, junk).tasks[c].ctxStack in Die(m, junk).stacks
    ensures forall i: nat :: Suspended(Enter(Die(m, junk), c), i) <==> Suspended(m, i) && i !in {c}
  {
  }

  lemma HaltKeeps(m: Machine, junk: Stack)
    requires Inv(m) && !m.halted && Scheduling.Exit(Queue(States(m.tasks), m.current)).None?
    ensures var p := Die(m, junk).(halted := true);
            Inv(p) && SameFrames(m, p)
  {
    var p := Die(m, junk).(halted := true);
    HaltedStacks(m, junk);
    forall i: nat | Suspended(m, i)
      ensures HasFrame(p, i) && p.tasks[i].ctxStack != p.rsp0 && p.tasks[i] == m.tasks[i]
      ensures FrameKept(m, p, i) && !Runnable(m.tasks[i].state)
    {
      HaltedFrame(m, junk, i);
    }
    HaltedInv(m, p);
  }

  lemma HaltedInv(m: Machine, p: Machine)
    requires Inv(m) && p.halted && p.cpu == m.cpu && p.current == m.current && |p.tasks| == |m.tasks|
    requires StacksOk(p) && MayUse(p, p.current, p.rsp0) && p.tasks[p.current].state == Dead
    requires forall i: nat :: Suspended(m, i) ==> HasFrame(p, i) && p.tasks[i].ctxStack != p.rsp0
    requires forall i: nat :: Suspended(m, i) ==> p.tasks[i] == m.tasks[i] && !Runnable(m.tasks[i].state)
    requires forall i: nat :: Suspended(p, i) ==> Suspended(m, i)
    ensures Inv(p)
  {
  }

  lemma HaltedStacks(m: Machine, junk: Stack)
    requires Inv(m) && !m.halted
    ensures var p := Die(m, junk).(halted := true); StacksOk(p) && MayUse(p, p.current, p.rsp0)
  {
    DeathFreesStack(m, junk);
    SameDead(Die(m, junk), Die(m, junk).(halted := true));
  }

  lemma HaltedFrame(m: Machine, junk: Stack, i: nat)
    requires Inv(m) && !m.halted && Scheduling.Exit(Queue(States(m.tasks), m.current)).None? && Suspended(m, i)
    ensures var p := Die(m, junk).(halted := true);
            && HasFrame(p, i) && p.tasks[i].ctxStack != p.rsp0 && p.tasks[i] == m.tasks[i]
            && FrameKept(m, p, i) && !Runnable(m.tasks[i].state)
  {
    ExitKeeps(Queue(States(m.tasks), m.current));
    DieKeeps(m, junk, i);
    SameDead(Die(m, junk), Die(m, junk).(halted := true));
    assert !Runnable(States(m.tasks)[i]);
  }

  lemma HaltEvent(m: Machine, junk: Stack)
    requires Inv(m) && !m.halted && Scheduling.Exit(Queue(States(m.tasks), m.current)).None?
    ensures var p := Die(m, junk).(halted := true);
            && Inv(p) && FramesIn(m) && FramesIn(p) && Saved(p) == Saved(m)
            && States(p.tasks) == States(m.tasks)[m.current := Dead]
  {
    var p := Die(m, junk).(halted := true);
    HaltKeeps(m, junk);
    InvFramesIn(m);
    InvFramesIn(p);
    SavedSame(m, p);
  }

  lemma StepMatches(m: Machine, e: Event)
    requires Inv(m) && EventOk(e)
    ensures Inv(Step(m, e)) && FramesIn(m) && FramesIn(Step(m, e)) && View(Step(m, e)) == IdealStep(View(m), e)
  {
    InvFramesIn(m);
    if !m.halted {
      match e
      case User(_, _) => UserEvent(m, e);
      case Tick(_) => TickEvent(m, e);
      case Exit(_) => ExitEvent(m, e);
    }
  }

  // ---- Runs ----

  ghost predicate EventsOk(evs: seq<Event>) {
    forall i :: 0 <= i < |evs| ==> EventOk(evs[i])
  }

  ghost function Run(m: Machine, evs: seq<Event>): (r: Machine)
    requires Inv(m) && EventsOk(evs)
    ensures Inv(r)
    decreases |evs|
  {
    if evs == [] then m
    else
      StepMatches(m, evs[0]);
      Run(Step(m, evs[0]), evs[1..])
  }

  function IdealRun(d: Ideal, evs: seq<Event>): (r: Ideal)
    requires d.current < |d.states|
    ensures r.current < |r.states| == |d.states|
    decreases |evs|
  {
    if evs == [] then d else IdealRun(IdealStep(d, evs[0]), evs[1..])
  }

  // In every run the machine keeps its invariant and shows exactly what the ideal machine shows.
  lemma {:induction false} RunMatches(m: Machine, evs: seq<Event>)
    requires Inv(m) && EventsOk(evs)
    ensures FramesIn(m) && FramesIn(Run(m, evs)) && View(Run(m, evs)) == IdealRun(View(m), evs)
    decreases |evs|
  {
    InvFramesIn(m);
    if evs != [] {
      StepMatches(m, evs[0]);
      RunMatches(Step(m, evs[0]), evs[1..]);
    }
  }

  // ---- A dead task is never chosen again ----

  // t is dead, and not current unless everything has stopped.
  ghost predicate Gone(d: Ideal, t: nat) {
    && t < |d.states| && d.current < |d.states| && d.states[t].Dead?
    && (!d.halted ==> QueueOk(Queue(d.states, d.current)) && d.current != t)
  }

  lemma StaysGone(d: Ideal, e: Event, t: nat)
    requires Gone(d, t)
    ensures Gone(IdealStep(d, e), t)
  {
    if !d.halted {
      var q := Queue(d.states, d.current);
      ScheduleKeeps(q);
      ExitKeeps(q);
    }
  }

  lemma {:induction false} GoneForGood(d: Ideal, evs: seq<Event>, t: nat)
    requires Gone(d, t)
    ensures Gone(IdealRun(d, evs), t)
    decreases |evs|
  {
    if evs != [] {
      StaysGone(d, evs[0], t);
      GoneForGood(IdealStep(d, evs[0]), evs[1..], t);
    }
  }

  // Once dead, in no later state of any run does a task run.
  lemma DeadNeverRuns(m: Machine, evs: seq<Event>, t: nat)
    requires Inv(m) && EventsOk(evs) && t < |m.tasks| && m.tasks[t].state == Dead
    ensures var r := Run(m, evs); t < |r.tasks| && r.tasks[t].state == Dead && (!r.halted ==> r.current != t)
  {
    RunMatches(m, evs);
    GoneForGood(View(m), evs, t);
  }

  // ---- A preempted task resumes where it was stopped ----

  // t is not current now nor after any of the events.
  ghost predicate Away(d: Ideal, evs: seq<Event>, t: nat)
    requires d.current < |d.states|
    decreases |evs|
  {
    d.current != t && (evs != [] ==> Away(IdealStep(d, evs[0]), evs[1..], t))
  }

  lemma {:induction false} AwayKeepsRegisters(d: Ideal, evs: seq<Event>, t: nat)
    requires d.current < |d.states| && t in d.saved && Away(d, evs, t)
    ensures t in IdealRun(d, evs).saved && IdealRun(d, evs).saved[t] == d.saved[t] && IdealRun(d, evs).current != t
    decreases |evs|
  {
    if evs != [] {
      AwayKeepsRegisters(IdealStep(d, evs[0]), evs[1..], t);
    }
  }

  // Stopped by a tick, kept waiting through any run, then resumed by a tick or by another task's exit: the
  // task has the registers, instruction pointer, flags and stack pointer it was stopped with; a tick
  // forces ss, an exit leaves it.
  lemma ResumesWhereStopped(m: Machine, junk: Stack, evs: seq<Event>, last: Event)
    requires Inv(m) && !m.halted && EventsOk(evs) && EventOk(last)
    requires var m1 := Step(m, Tick(junk)); Inv(m1) && FramesIn(m1) && Away(View(m1), evs, m.current)
    requires Step(Run(Step(m, Tick(junk)), evs), last).current == m.current
    ensures Step(Run(Step(m, Tick(junk)), evs), last).cpu == if last.Tick? then m.cpu.(ss := 0x1B) else m.cpu
  {
    var t, m1 := m.current, Step(m, Tick(junk));
    TickEffect(m, junk);
    InvFramesIn(m1);
    assert Suspended(m1, t) && Saved(m1)[t] == m.cpu;
    AwayKeepsRegisters(View(m1), evs, t);
    RunMatches(m1, evs);
    StepMatches(Run(m1, evs), last);
    LastStep(View(Run(m1, evs)), last, t);
  }

  lemma LastStep(d: Ideal, last: Event, t: nat)
    requires d.current < |d.states| && t in d.saved && d.current != t && IdealStep(d, last).current == t
    ensures IdealStep(d, last).cpu == if last.Tick? then d.saved[t].(ss := 0x1B) else d.saved[t]
  {
  }

  // ---- Where runs start ----

  // At task_enter: every queued task is ready with its first frame on its own stack, no tick has chosen
  // a task, and the entered task has just been restored.
  ghost predicate Start(m: Machine) {
    Entering(m) && m.cpu == Restore(m.stacks[m.tasks[m.current].stack], FRAME_AT)
  }

  ghost predicate Entering(m: Machine) {
    && m.current < |m.tasks| && StacksOk(m) && !m.halted && m.rsp0 == BOOT_STACK
    && m.cr3 == m.tasks[m.current].pml4
    && (forall i :: 0 <= i < |m.tasks| ==>
          && m.tasks[i].state == Ready && m.tasks[i].ctxStack == m.tasks[i].stack && m.tasks[i].ctxAt == FRAME_AT
          && UserFrame(m.stacks[m.tasks[i].stack]))
  }

  lemma EnteringHolds(m: Machine)
    requires Entering(m) && m.cpu.Complete()
    ensures Inv(m)
  {
  }

  lemma StartHolds(m: Machine)
    requires Start(m)
    ensures Inv(m)
  {
    RestoreComplete(m.stacks[m.tasks[m.current].stack]);
    EnteringHolds(m);
  }

  // Every state of every run that starts at task_enter: only the current task can be running, the page
  // tables in use are the current task's, and rsp0 names its stack, the boot stack or a dead task's.
  lemma ReachableStates(m: Machine, evs: seq<Event>)
    requires Start(m) && Inv(m) && EventsOk(evs)
    ensures var r := Run(m, evs);
            && (forall i :: 0 <= i < |r.tasks| && r.tasks[i].state == Running ==> i == r.current)
            && (!r.halted ==> r.tasks[r.current].state != Dead && r.cr3 == r.tasks[r.current].pml4 && r.cpu.cs % 4 == 3)
            && (r.rsp0 == r.tasks[r.current].stack || r.rsp0 == BOOT_STACK || DeadStack(r, r.rsp0))
            && (forall i: nat :: Suspended(r, i) ==> r.tasks[i].ctxStack != r.rsp0)
  {
  }
}

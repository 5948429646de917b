/**
 Which kernel stack is in use.  tss.rsp0 is moved by ticks alone, each time to the own stack of the task that is
 then current; an exit leaves the next task on whatever stack the last tick chose.
 */
module StackUse {
  import opened Prelude
  import opened Scheduling
  import opened SavedFrames
  import opened ContextSwitch
  import opened ContextRuns

  // Every task keeps its own stack and its page tables.
  ghost predicate SameHomes(m: Machine, p: Machine) {
    && |p.tasks| == |m.tasks|
    && forall i :: 0 <= i < |m.tasks| ==> p.tasks[i].stack == m.tasks[i].stack && p.tasks[i].pml4 == m.tasks[i].pml4
  }

  // rsp0 is the own stack of task t.
  ghost predicate On(m: Machine, t: nat) {
    t < |m.tasks| && m.rsp0 == m.tasks[t].stack
  }

  // ---- One event ----

  lemma ParkHomes(m: Machine, stack: Stack)
    requires m.current < |m.tasks|
    ensures SameHomes(m, Park(m, stack)) && Park(m, stack).tasks[m.current].ctxStack == m.rsp0
  {
  }

  lemma TimerHomes(m: Machine)
    requires m.current < |m.tasks|
    ensures SameHomes(m, Timer(m)) && forall i :: 0 <= i < |m.tasks| ==> Timer(m).tasks[i].ctxStack == m.tasks[i].ctxStack
  {
  }

  lemma ResumeMoves(m: Machine)
    requires m.current < |m.tasks| && m.tasks[m.current].ctxStack in m.stacks
    ensures var p := Resume(m); p.tasks == m.tasks && p.current == m.current && On(p, p.current)
  {
  }

  // A tick saves the interrupted task on the stack that was in use, and goes over to the own stack of the task that
  // is then current.
  lemma TickMoves(m: Machine, junk: Stack)
    requires Inv(m) && !m.halted
    ensures var p := TickStep(m, junk);
            SameHomes(m, p) && On(p, p.current) && m.current < |p.tasks| && p.tasks[m.current].ctxStack == m.rsp0
  {
    TickEffect(m, junk);
    SaveThrough(m, junk);
    var a := SaveCurrent(m, junk);
    ParkHomes(m, Scribble(junk, Save(m.stacks[m.rsp0], m.cpu)));
    AfterSave(m, a);
    TimerHomes(a);
    ResumeMoves(Timer(a));
  }

  // An exit leaves rsp0 alone.
  lemma EnterStays(m: Machine, c: nat)
    requires c < |m.tasks| && m.tasks[c].ctxStack in m.stacks
    ensures Enter(m, c).rsp0 == m.rsp0 && Enter(m, c).tasks == m.tasks
  {
  }

  lemma DieHomes(m: Machine, junk: Stack)
    requires m.current < |m.tasks|
    ensures Die(m, junk).rsp0 == m.rsp0 && SameHomes(m, Die(m, junk))
  {
  }

  lemma ExitStays(m: Machine, junk: Stack)
    requires Inv(m) && !m.halted
    ensures ExitStep(m, junk).rsp0 == m.rsp0 && SameHomes(m, ExitStep(m, junk))
  {
    DieHomes(m, junk);
    var q := Scheduling.Exit(Queue(States(m.tasks), m.current));
    if q.Some? {
      ExitChoice(m, junk, q.value);
      EnterStays(Die(m, junk), q.value.current);
    }
  }

  lemma StepHomes(m: Machine, e: Event)
    requires Inv(m)
    ensures var p := Step(m, e);
            && SameHomes(m, p)
            && if e.Tick? && !m.halted then On(p, p.current) else p.rsp0 == m.rsp0
  {
    if !m.halted {
      match e
      case User(_, _) =>
      case Tick(junk) => TickMoves(m, junk);
      case Exit(junk) => ExitStays(m, junk);
    }
  }

  // ---- Runs ----

  // Through any run every task keeps its own stack and page tables.
  lemma {:induction false} HomesStay(m: Machine, evs: seq<Event>)
    requires Inv(m) && EventsOk(evs)
    ensures SameHomes(m, Run(m, evs))
    decreases |evs|
  {
    if evs != [] {
      StepMatches(m, evs[0]);
      StepHomes(m, evs[0]);
      HomesStay(Step(m, evs[0]), evs[1..]);
    }
  }

  // The task that the last tick made current, as the ideal machine has it; h if there was no tick.
  ghost function Holder(d: Ideal, evs: seq<Event>, h: Option<nat>): Option<nat>
    requires d.current < |d.states|
    decreases |evs|
  {
    if evs == [] then h
    else
      var next := IdealStep(d, evs[0]);
      Holder(next, evs[1..], if evs[0].Tick? && !d.halted then Some(next.current) else h)
  }

  ghost predicate Names(m: Machine, h: Option<nat>, first: nat) {
    match h
    case None => m.rsp0 == first
    case Some(t) => On(m, t)
  }

  lemma StepNames(m: Machine, e: Event, h: Option<nat>, first: nat)
    requires Inv(m) && Names(m, h, first)
    ensures Names(Step(m, e), if e.Tick? && !m.halted then Some(Step(m, e).current) else h, first)
  {
    StepHomes(m, e);
  }

  lemma RunUnfolds(m: Machine, evs: seq<Event>)
    requires Inv(m) && EventsOk(evs) && evs != []
    ensures var p := Step(m, evs[0]);
            && Inv(p) && EventsOk(evs[1..]) && Run(m, evs) == Run(p, evs[1..])
            && FramesIn(m) && FramesIn(p) && View(p) == IdealStep(View(m), evs[0])
  {
    StepMatches(m, evs[0]);
  }

  lemma HolderUnfolds(m: Machine, p: Machine, evs: seq<Event>, h: Option<nat>, next: Option<nat>)
    requires evs != [] && FramesIn(m) && FramesIn(p) && View(p) == IdealStep(View(m), evs[0])
    requires next == if evs[0].Tick? && !m.halted then Some(p.current) else h
    ensures Holder(View(m), evs, h) == Holder(View(p), evs[1..], next)
  {
  }

  // After any run the stack in use is the own stack of the task which the last tick made current, alive or dead;
  // before the first tick it is the one the run started on.
  lemma {:induction false} StackInUse(m: Machine, evs: seq<Event>, h: Option<nat>, first: nat)
    requires Inv(m) && EventsOk(evs) && FramesIn(m) && Names(m, h, first)
    ensures Names(Run(m, evs), Holder(View(m), evs, h), first)
    decreases |evs|
  {
    if evs != [] {
      var e, rest, p := evs[0], evs[1..], Step(m, evs[0]);
      var next := if e.Tick? && !m.halted then Some(p.current) else h;
      RunUnfolds(m, evs);
      StepNames(m, e, h, first);
      StackInUse(p, rest, next, first);
      HolderUnfolds(m, p, evs, h, next);
    }
  }

  // The last event other than a user step is a tick; `before` says so of the events before these.
  predicate TickLast(evs: seq<Event>, before: bool) {
    if evs == [] then before
    else TickLast(evs[1..], if evs[0].User? then before else evs[0].Tick?)
  }

  lemma StepOwn(m: Machine, e: Event, before: bool)
    requires Inv(m) && (before && !m.halted ==> On(m, m.current))
    ensures var p := Step(m, e); (if e.User? then before else e.Tick?) && !p.halted ==> On(p, p.current)
  {
    StepHomes(m, e);
  }

  // Over whole runs: unless the machine has halted, rsp0 is the current task's own stack whenever the last tick or
  // exit was a tick.
  lemma {:induction false} OwnStackAfterTick(m: Machine, evs: seq<Event>, before: bool)
    requires Inv(m) && EventsOk(evs) && (before && !m.halted ==> On(m, m.current))
    ensures var r := Run(m, evs); TickLast(evs, before) && !r.halted ==> On(r, r.current)
    decreases |evs|
  {
    if evs != [] {
      RunUnfolds(m, evs);
      StepOwn(m, evs[0], before);
      OwnStackAfterTick(Step(m, evs[0]), evs[1..], if evs[0].User? then before else evs[0].Tick?);
    }
  }

  // From the first task_enter on: a running task is on another's stack only if no tick has come since a task was
  // entered, and that stack is then the boot stack or one whose task is dead.
  lemma BorrowedStacks(m: Machine, evs: seq<Event>)
    requires Start(m) && Inv(m) && EventsOk(evs)
    ensures var r := Run(m, evs);
            !r.halted && !On(r, r.current) ==> !TickLast(evs, false) && (r.rsp0 == BOOT_STACK || DeadStack(r, r.rsp0))
  {
    ReachableStates(m, evs);
    OwnStackAfterTick(m, evs, false);
  }
}

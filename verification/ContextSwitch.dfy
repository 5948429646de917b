/**
 The context switch as a step protocol: user steps, timer ticks and exits, over tasks whose frames lie
 on kernel stacks in memory, with the processor entering the kernel on the stack named by tss.rsp0.
 */
module ContextSwitch {
  import opened Prelude
  import opened Scheduling
  import opened SavedFrames

  const QUANTUM: nat := 10    // SCHED_QUANTUM
  const BOOT_STACK: nat := 0  // kernel_main_stack, which rsp0 names until the first tick

  // A task as the kernel keeps it: its state, where its frame is saved (ctx), its own kernel stack and
  // its page tables.
  datatype Task = Task(state: TaskState, ctxStack: nat, ctxAt: nat, stack: nat, pml4: nat)

  datatype Machine = Machine(tasks: seq<Task>, current: nat, cpu: Cpu, stacks: map<nat, Stack>,
                             rsp0: nat, cr3: nat, ticks: nat, halted: bool)

  // What can happen while a task runs.  `junk` is whatever the kernel leaves on the stack it used: on
  // the whole stack for a syscall or a key interrupt during a user step, below the frame for a tick.
  datatype Event =
    | User(cpu: Cpu, junk: Stack)
    | Tick(junk: Stack)
    | Exit(junk: Stack)

  function States(tasks: seq<Task>): (s: seq<TaskState>)
    ensures |s| == |tasks| && forall i :: 0 <= i < |tasks| ==> s[i] == tasks[i].state
  {
    seq(|tasks|, i requires 0 <= i < |tasks| => tasks[i].state)
  }

  function WithStates(tasks: seq<Task>, states: seq<TaskState>): (r: seq<Task>)
    requires |states| == |tasks|
    ensures |r| == |tasks| && forall i :: 0 <= i < |tasks| ==> r[i] == tasks[i].(state := states[i])
  {
    seq(|tasks|, i requires 0 <= i < |tasks| => tasks[i].(state := states[i]))
  }

  // ---- The steps ----

  // The processor and PUSH_REGS save the frame on the stack named by rsp0; its address goes into the
  // current task; the handler then uses the stack below it.
  function SaveCurrent(m: Machine, junk: Stack): Machine
    requires m.current < |m.tasks| && m.rsp0 in m.stacks && m.cpu.Complete()
  {
    Park(m, Scribble(junk, Save(m.stacks[m.rsp0], m.cpu)))
  }

  // The stack named by rsp0 has new contents, with the current task's frame at its top.
  function Park(m: Machine, stack: Stack): Machine
    requires m.current < |m.tasks|
  {
    m.(stacks := m.stacks[m.rsp0 := stack],
       tasks := m.tasks[m.current := m.tasks[m.current].(ctxStack := m.rsp0, ctxAt := FRAME_AT)])
  }

  // lapic_timer_handler: every tenth tick schedules.
  function Timer(m: Machine): Machine
    requires m.current < |m.tasks|
  {
    Tock(m, Wrap64(m.ticks + 1), Schedule(Queue(States(m.tasks), m.current)))
  }

  function Tock(m: Machine, ticks: nat, q: Queue): Machine
    requires |q.states| == |m.tasks|
  {
    if ticks % QUANTUM == 0 then Switch(m.(ticks := ticks), q) else m.(ticks := ticks)
  }

  function Switch(m: Machine, q: Queue): Machine
    requires |q.states| == |m.tasks|
  {
    m.(tasks := WithStates(m.tasks, q.states), current := q.current)
  }

  // The end of lapic_timer_isr: cr3 and rsp0 of the current task, then its frame, with ss forced.
  function Resume(m: Machine): Machine
    requires m.current < |m.tasks| && m.tasks[m.current].ctxStack in m.stacks
  {
    var stack := ForceSs(m.stacks[m.tasks[m.current].ctxStack]);
    Load(m, stack, Restore(stack, FRAME_AT))
  }

  // The current task runs with the given registers; its frame's stack has new contents.
  function Load(m: Machine, stack: Stack, cpu: Cpu): Machine
    requires m.current < |m.tasks|
  {
    var t := m.tasks[m.current];
    m.(cr3 := t.pml4, rsp0 := t.stack, stacks := m.stacks[t.ctxStack := stack], cpu := cpu)
  }

  // SYS_EXIT marks the current task dead, on the stack named by rsp0.
  function Die(m: Machine, junk: Stack): Machine
    requires m.current < |m.tasks|
  {
    m.(stacks := m.stacks[m.rsp0 := junk], tasks := m.tasks[m.current := m.tasks[m.current].(state := Dead)])
  }

  // task_enter: the registers come from the task's frame; rsp0 and ss are left as they are.
  function Enter(m: Machine, c: nat): Machine
    requires c < |m.tasks| && m.tasks[c].ctxStack in m.stacks
  {
    EnterWith(m, c, Restore(m.stacks[m.tasks[c].ctxStack], FRAME_AT))
  }

  function EnterWith(m: Machine, c: nat, cpu: Cpu): Machine
    requires c < |m.tasks|
  {
    m.(current := c, cr3 := m.tasks[c].pml4, cpu := cpu)
  }

  // ---- The invariant ----

  ghost predicate Alive(m: Machine, i: nat) {
    i < |m.tasks| && m.tasks[i].state != Dead
  }

  ghost predicate DeadStack(m: Machine, k: nat) {
    exists d :: 0 <= d < |m.tasks| && m.tasks[d].state == Dead && m.tasks[d].stack == k
  }

  // A stack that task i may use: its own, the boot stack, or one whose owner is dead.
  ghost predicate MayUse(m: Machine, i: nat, k: nat)
    requires i < |m.tasks|
  {
    k in m.stacks && (k == m.tasks[i].stack || k == BOOT_STACK || DeadStack(m, k))
  }

  // Each task has a stack of its own.
  ghost predicate StacksOk(m: Machine) {
    && BOOT_STACK in m.stacks
    && (forall i :: 0 <= i < |m.tasks| ==> m.tasks[i].stack != BOOT_STACK && m.tasks[i].stack in m.stacks)
    && (forall i, j :: 0 <= i < j < |m.tasks| ==> m.tasks[i].stack != m.tasks[j].stack)
  }

  // Task i has a frame where it may have one.
  ghost predicate HasFrame(m: Machine, i: nat)
    requires i < |m.tasks|
  {
    m.tasks[i].ctxAt == FRAME_AT && MayUse(m, i, m.tasks[i].ctxStack) && UserFrame(m.stacks[m.tasks[i].ctxStack])
  }

  // Every living task is parked: it has a frame, and no two frames share a stack.
  ghost predicate Parked(m: Machine) {
    && m.current < |m.tasks| && StacksOk(m)
    && (forall i: nat :: Alive(m, i) ==> HasFrame(m, i))
    && (forall i: nat, j: nat :: i != j && Alive(m, i) && Alive(m, j) ==> m.tasks[i].ctxStack != m.tasks[j].ctxStack)
    && (forall i :: 0 <= i < |m.tasks| && m.tasks[i].state == Running ==> i == m.current)
  }

  ghost predicate Suspended(m: Machine, i: nat) {
    Alive(m, i) && i != m.current
  }

  // While a task runs: rsp0 names a stack it may use, and no suspended task's frame is on that stack.
  ghost predicate Inv(m: Machine) {
    && m.current < |m.tasks| && StacksOk(m) && m.cpu.Complete()
    && MayUse(m, m.current, m.rsp0)
    && (forall i: nat :: Suspended(m, i) ==> HasFrame(m, i) && m.tasks[i].ctxStack != m.rsp0)
    && (forall i: nat, j: nat :: i != j && Suspended(m, i) && Suspended(m, j) ==> m.tasks[i].ctxStack != m.tasks[j].ctxStack)
    && (forall i :: 0 <= i < |m.tasks| && m.tasks[i].state == Running ==> i == m.current)
    && (!m.halted ==> Alive(m, m.current) && m.cr3 == m.tasks[m.current].pml4)
    && (m.halted ==> forall i: nat :: Suspended(m, i) ==> !Runnable(m.tasks[i].state))
  }

  // The context from which a parked task would resume.
  ghost function FrameCpu(m: Machine, i: nat): Cpu
    requires i < |m.tasks| && m.tasks[i].ctxStack in m.stacks
  {
    Restore(m.stacks[m.tasks[i].ctxStack], FRAME_AT)
  }

  // ---- Each part of a tick ----

  // The dead, and so the stacks free to use, are the same in both machines.
  lemma SameDead(m: Machine, p: Machine)
    requires |p.tasks| == |m.tasks|
    requires forall i :: 0 <= i < |m.tasks| ==>
               p.tasks[i].stack == m.tasks[i].stack && (m.tasks[i].state == Dead ==> p.tasks[i].state == Dead)
    ensures forall k :: DeadStack(m, k) ==> DeadStack(p, k)
  {
    forall k | DeadStack(m, k)
      ensures DeadStack(p, k)
    {
      var d :| 0 <= d < |m.tasks| && m.tasks[d].state == Dead && m.tasks[d].stack == k;
      assert p.tasks[d].state == Dead && p.tasks[d].stack == k;
    }
  }

  lemma ParkParks(m: Machine, stack: Stack)
    requires Inv(m) && !m.halted && UserFrame(stack)
    ensures Parked(Park(m, stack))
  {
    var p := Park(m, stack);
    SameDead(m, p);
    forall i: nat | Alive(p, i)
      ensures HasFrame(p, i)
    {
      assert i != m.current ==> Suspended(m, i);
    }
    forall i: nat, j: nat | i != j && Alive(p, i) && Alive(p, j)
      ensures p.tasks[i].ctxStack != p.tasks[j].ctxStack
    {
      assert i != m.current ==> Suspended(m, i);
      assert j != m.current ==> Suspended(m, j);
    }
  }

  lemma ParkFrames(m: Machine, stack: Stack)
    requires Inv(m)
    ensures var p := Park(m, stack);
            && FrameCpu(p, m.current) == Restore(stack, FRAME_AT)
            && forall i: nat :: Suspended(m, i) ==> p.tasks[i].ctxStack in p.stacks && FrameCpu(p, i) == FrameCpu(m, i)
  {
  }

  // Only states and the current task differ.
  ghost predicate SameBut(m: Machine, p: Machine) {
    && p.stacks == m.stacks && p.cpu == m.cpu && p.halted == m.halted && |p.tasks| == |m.tasks|
    && forall i :: 0 <= i < |m.tasks| ==>
         p.tasks[i] == m.tasks[i].(state := p.tasks[i].state) && (p.tasks[i].state == Dead <==> m.tasks[i].state == Dead)
  }

  // Everyone is still parked, after a change of nothing but states and the current task.
  ghost predicate Reparked(m: Machine, p: Machine) {
    Parked(p) && Alive(p, p.current) && SameBut(m, p)
  }

  // q is a queue of the same tasks, with the same ones dead and a living one current.
  ghost predicate FitsQueue(m: Machine, q: Queue) {
    && QueueOk(q) && |q.states| == |m.tasks| && q.states[q.current] != Dead
    && forall i :: 0 <= i < |q.states| ==> (q.states[i] == Dead <==> m.tasks[i].state == Dead)
  }

  lemma SwitchParks(m: Machine, ticks: nat, q: Queue)
    requires Parked(m) && FitsQueue(m, q)
    ensures Reparked(m, Switch(m.(ticks := ticks), q))
  {
    var p := Switch(m.(ticks := ticks), q);
    SameDead(m, p);
    forall i: nat | Alive(p, i)
      ensures HasFrame(p, i)
    {
      assert Alive(m, i) && HasFrame(m, i);
    }
    forall i: nat, j: nat | i != j && Alive(p, i) && Alive(p, j)
      ensures p.tasks[i].ctxStack != p.tasks[j].ctxStack
    {
      assert Alive(m, i) && Alive(m, j);
    }
  }

  lemma TimerParks(m: Machine)
    requires Parked(m) && Alive(m, m.current)
    ensures Reparked(m, Timer(m))
  {
    ParkedQueue(m);
    TockParks(m, Wrap64(m.ticks + 1), Schedule(Queue(States(m.tasks), m.current)));
  }

  lemma TockParks(m: Machine, ticks: nat, q: Queue)
    requires Parked(m) && Alive(m, m.current) && FitsQueue(m, q)
    ensures Reparked(m, Tock(m, ticks, q))
  {
    if ticks % QUANTUM == 0 {
      SwitchParks(m, ticks, q);
    } else {
      TickParks(m, ticks);
    }
  }

  lemma ParkedQueue(m: Machine)
    requires Parked(m) && Alive(m, m.current)
    ensures FitsQueue(m, Schedule(Queue(States(m.tasks), m.current)))
  {
    var q := Queue(States(m.tasks), m.current);
    ScheduleKeeps(q);
    ScheduleKeepsDeath(q);
  }

  lemma TickParks(m: Machine, ticks: nat)
    requires Parked(m) && Alive(m, m.current)
    ensures Reparked(m, m.(ticks := ticks))
  {
    var p := m.(ticks := ticks);
    SameDead(m, p);
    forall i: nat | Alive(p, i)
      ensures HasFrame(p, i)
    {
      assert Alive(m, i) && HasFrame(m, i);
    }
    forall i: nat, j: nat | i != j && Alive(p, i) && Alive(p, j)
      ensures p.tasks[i].ctxStack != p.tasks[j].ctxStack
    {
      assert Alive(m, i) && Alive(m, j);
    }
  }

  // Schedule changes the state of a task only between ready and running.
  lemma ScheduleKeepsDeath(q: Queue)
    requires QueueOk(q) && q.states[q.current] != Dead
    ensures var p := Schedule(q);
            && (forall i :: 0 <= i < |q.states| ==> (p.states[i] == Dead <==> q.states[i] == Dead))
  {
  }

  lemma LoadRuns(m: Machine, stack: Stack, cpu: Cpu)
    requires Parked(m) && Alive(m, m.current) && !m.halted && cpu.Complete()
    ensures Inv(Load(m, stack, cpu))
  {
    var p := Load(m, stack, cpu);
    SameDead(m, p);
    assert HasFrame(m, m.current);
    forall i: nat | Suspended(p, i)
      ensures HasFrame(p, i) && p.tasks[i].ctxStack != p.rsp0
    {
      assert Alive(m, i) && HasFrame(m, i);
    }
  }

  lemma LoadFrames(m: Machine, stack: Stack, cpu: Cpu)
    requires Parked(m) && Alive(m, m.current)
    ensures var p := Load(m, stack, cpu);
            forall i: nat :: Suspended(p, i) ==>
              m.tasks[i].ctxStack in m.stacks && p.tasks[i].ctxStack in p.stacks && FrameCpu(p, i) == FrameCpu(m, i)
  {
    forall i: nat | Suspended(m, i)
      ensures m.tasks[i].ctxStack != m.tasks[m.current].ctxStack && m.tasks[i].ctxStack in m.stacks
    {
      assert Alive(m, i) && HasFrame(m, i);
    }
  }

  // Resuming runs the current task from its frame, with ss forced, and disturbs no other frame.
  lemma ResumeRuns(m: Machine)
    requires Parked(m) && Alive(m, m.current) && !m.halted && m.tasks[m.current].ctxStack in m.stacks
    ensures var p := Resume(m);
            && Inv(p) && p.cpu == FrameCpu(m, m.current).(ss := 0x1B)
            && forall i: nat :: Suspended(p, i) ==>
                 m.tasks[i].ctxStack in m.stacks && p.tasks[i].ctxStack in p.stacks && FrameCpu(p, i) == FrameCpu(m, i)
  {
    var stack := ForceSs(m.stacks[m.tasks[m.current].ctxStack]);
    var cpu := Restore(stack, FRAME_AT);
    RestoreComplete(stack);
    RestoreForced(m.stacks[m.tasks[m.current].ctxStack]);
    LoadRuns(m, stack, cpu);
    LoadFrames(m, stack, cpu);
  }

  // ---- The three events ----

  ghost predicate EventOk(e: Event) {
    e.User? ==> e.cpu.Complete()
  }

  // Between events a frame of a suspended task is the same in m and p.
  ghost predicate FrameKept(m: Machine, p: Machine, i: nat) {
    && i < |m.tasks| && i < |p.tasks| && m.tasks[i].ctxStack in m.stacks && p.tasks[i].ctxStack in p.stacks
    && FrameCpu(p, i) == FrameCpu(m, i)
  }

  // b is m with the interrupted task parked as well: its frame holds its registers, the others' frames
  // are as they were.
  ghost predicate Through(m: Machine, b: Machine) {
    && |b.tasks| == |m.tasks| && Parked(b) && Alive(b, b.current) && !b.halted
    && Alive(b, m.current) && b.tasks[m.current].ctxStack in b.stacks && FrameCpu(b, m.current) == m.cpu
    && (forall i: nat :: i != m.current && Alive(b, i) ==> Suspended(m, i) && FrameKept(m, b, i))
  }

  // Nothing of the queue has changed.
  ghost predicate SameQueue(m: Machine, a: Machine) {
    States(a.tasks) == States(m.tasks) && a.current == m.current && a.ticks == m.ticks
  }

  lemma ParkThrough(m: Machine, stack: Stack)
    requires Inv(m) && !m.halted && Restore(stack, FRAME_AT) == m.cpu
    ensures Through(m, Park(m, stack)) && SameQueue(m, Park(m, stack))
  {
    ParkParks(m, stack);
    ParkFrames(m, stack);
    var a := Park(m, stack);
    forall i: nat | i != m.current && Alive(a, i)
      ensures Suspended(m, i) && FrameKept(m, a, i)
    {
      assert Suspended(m, i) && HasFrame(m, i);
    }
  }

  // Saving parks the current task with exactly its registers, and disturbs no other frame.
  lemma SaveThrough(m: Machine, junk: Stack)
    requires Inv(m) && !m.halted
    ensures Through(m, SaveCurrent(m, junk)) && SameQueue(m, SaveCurrent(m, junk))
  {
    var stack := Scribble(junk, Save(m.stacks[m.rsp0], m.cpu));
    RestoreSave(m.stacks[m.rsp0], m.cpu, stack);
    ParkThrough(m, stack);
  }

  lemma TimerThrough(m: Machine, a: Machine)
    requires Through(m, a)
    ensures Through(m, Timer(a))
  {
    TimerParks(a);
    var b := Timer(a);
    forall i: nat | i != m.current && Alive(b, i)
      ensures Suspended(m, i) && FrameKept(m, b, i)
    {
      assert Alive(a, i) && FrameKept(m, a, i);
    }
  }

  // The queue after the tick numbered `ticks`.
  function NextQueue(q: Queue, ticks: nat): (p: Queue)
    requires q.current < |q.states|
    ensures p.current < |p.states| == |q.states|
  {
    if ticks % QUANTUM == 0 then Schedule(q) else q
  }

  function TickQueue(m: Machine): (q: Queue)
    requires m.current < |m.tasks|
    ensures q.current < |q.states| == |m.tasks|
  {
    NextQueue(Queue(States(m.tasks), m.current), Wrap64(m.ticks + 1))
  }

  lemma TimerQueue(a: Machine)
    requires a.current < |a.tasks|
    ensures var b := Timer(a);
            States(b.tasks) == TickQueue(a).states && b.current == TickQueue(a).current && b.ticks == Wrap64(a.ticks + 1)
  {
  }

  function TickStep(m: Machine, junk: Stack): Machine
    requires Inv(m) && !m.halted
  {
    var a := SaveCurrent(m, junk);
    SaveThrough(m, junk);
    TickFrom(m, a, Timer(a));
    Resume(Timer(a))
  }

  // What a tick does to contexts: the chosen task runs from its frame (which, if it is the interrupted
  // task, was saved just now), the interrupted task is parked with its registers, no other frame changes.
  ghost predicate Resumed(m: Machine, p: Machine) {
    && |p.tasks| == |m.tasks| && p.current < |p.tasks|
    && (p.current == m.current ==> p.cpu == m.cpu.(ss := 0x1B))
    && (p.current != m.current ==>
          && Suspended(m, p.current) && m.tasks[p.current].ctxStack in m.stacks
          && p.cpu == FrameCpu(m, p.current).(ss := 0x1B)
          && Suspended(p, m.current) && p.tasks[m.current].ctxStack in p.stacks
          && FrameCpu(p, m.current) == m.cpu)
    && (forall i: nat :: i != m.current && Suspended(p, i) ==> Suspended(m, i) && FrameKept(m, p, i))
  }

  lemma ResumeThrough(m: Machine, b: Machine)
    requires Through(m, b) && b.tasks[b.current].ctxStack in b.stacks
    ensures Inv(Resume(b)) && Resumed(m, Resume(b))
  {
    ResumeRuns(b);
    var p := Resume(b);
    forall i: nat | i != m.current && Suspended(p, i)
      ensures Suspended(m, i) && FrameKept(m, p, i)
    {
      assert Alive(b, i) && FrameKept(m, b, i);
    }
  }

  // What a tick does to the queue.
  ghost predicate Requeued(m: Machine, p: Machine)
    requires m.current < |m.tasks|
  {
    States(p.tasks) == TickQueue(m).states && p.current == TickQueue(m).current && p.ticks == Wrap64(m.ticks + 1)
  }

  lemma TickFrom(m: Machine, a: Machine, b: Machine)
    requires m.current < |m.tasks| && Through(m, a) && SameQueue(m, a) && b == Timer(a)
    ensures Through(m, b) && Requeued(m, b) && b.tasks[b.current].ctxStack in b.stacks
  {
    TimerThrough(m, a);
    TimerRequeues(m, a);
    assert HasFrame(b, b.current);
  }

  lemma TimerRequeues(m: Machine, a: Machine)
    requires m.current < |m.tasks| && a.current < |a.tasks| && SameQueue(m, a)
    ensures Requeued(m, Timer(a))
  {
    TimerQueue(a);
    SameTickQueue(m, a);
  }

  lemma SameTickQueue(m: Machine, a: Machine)
    requires m.current < |m.tasks| && a.current < |a.tasks| && SameQueue(m, a)
    ensures TickQueue(a) == TickQueue(m)
  {
  }

  lemma ResumeQueue(m: Machine, b: Machine)
    requires m.current < |m.tasks| && Requeued(m, b) && b.current < |b.tasks| && b.tasks[b.current].ctxStack in b.stacks
    ensures Requeued(m, Resume(b)) && Resume(b).halted == b.halted
  {
  }

  lemma TickEffect(m: Machine, junk: Stack)
    requires Inv(m) && !m.halted
    ensures var p := TickStep(m, junk); Inv(p) && !p.halted && Resumed(m, p) && Requeued(m, p)
  {
    SaveThrough(m, junk);
    AfterSave(m, SaveCurrent(m, junk));
  }

  lemma AfterSave(m: Machine, a: Machine)
    requires m.current < |m.tasks| && Through(m, a) && SameQueue(m, a)
    ensures var b := Timer(a);
            && b.current < |b.tasks| && b.tasks[b.current].ctxStack in b.stacks
            && Inv(Resume(b)) && !Resume(b).halted && Resumed(m, Resume(b)) && Requeued(m, Resume(b))
  {
    var b := Timer(a);
    TickFrom(m, a, b);
    ResumeThrough(m, b);
    ResumeQueue(m, b);
  }

  // ---- Exit ----

  lemma DieKeeps(m: Machine, junk: Stack, i: nat)
    requires Inv(m) && !m.halted && Suspended(m, i)
    ensures var d := Die(m, junk);
            HasFrame(d, i) && d.tasks[i].ctxStack != d.rsp0 && d.tasks[i] == m.tasks[i] && FrameKept(m, d, i)
  {
    SameDead(m, Die(m, junk));
  }

  // rsp0 goes on naming a stack that nobody else needs: the dead task's own, or one it was lent.
  lemma DeathFreesStack(m: Machine, junk: Stack)
    requires Inv(m) && !m.halted
    ensures var d := Die(m, junk);
            d.rsp0 in d.stacks && (d.rsp0 == BOOT_STACK || DeadStack(d, d.rsp0)) && StacksOk(d)
  {
    var d := Die(m, junk);
    SameDead(m, d);
    assert d.tasks[m.current].state == Dead && d.tasks[m.current].stack == m.tasks[m.current].stack;
  }

  function ExitStep(m: Machine, junk: Stack): Machine
    requires Inv(m) && !m.halted
  {
    var d := Die(m, junk);
    match Scheduling.Exit(Queue(States(m.tasks), m.current))
    case None => d.(halted := true)
    case Some(q) =>
      ExitChoice(m, junk, q);
      Enter(d, q.current)
  }

  lemma ExitChoice(m: Machine, junk: Stack, q: Queue)
    requires Inv(m) && !m.halted && Scheduling.Exit(Queue(States(m.tasks), m.current)) == Some(q)
    ensures var d := Die(m, junk);
            && Suspended(m, q.current) && q.states == States(d.tasks) && q.current < |d.tasks|
            && d.tasks[q.current].ctxStack in d.stacks
  {
    ExitKeeps(Queue(States(m.tasks), m.current));
    assert States(Die(m, junk).tasks) == States(m.tasks)[m.current := Dead];
    DieKeeps(m, junk, q.current);
  }

  lemma EnterWithFrame(m: Machine, junk: Stack, c: nat, cpu: Cpu, i: nat)
    requires Inv(m) && !m.halted && Suspended(m, c) && Suspended(EnterWith(Die(m, junk), c, cpu), i)
    ensures var p := EnterWith(Die(m, junk), c, cpu);
            && HasFrame(p, i) && p.tasks[i].ctxStack != p.rsp0
            && Suspended(m, i) && FrameKept(m, p, i) && p.tasks[i] == m.tasks[i]
  {
    DieKeeps(m, junk, i);
    SameDead(Die(m, junk), EnterWith(Die(m, junk), c, cpu));
  }

  lemma EnterWithRuns(m: Machine, junk: Stack, c: nat, cpu: Cpu)
    requires Inv(m) && !m.halted && Suspended(m, c) && cpu.Complete()
    ensures var p := EnterWith(Die(m, junk), c, cpu);
            Inv(p) && forall i: nat :: Suspended(p, i) ==> Suspended(m, i) && FrameKept(m, p, i)
  {
    var d := Die(m, junk);
    DeathFreesStack(m, junk);
    var p := EnterWith(d, c, cpu);
    SameDead(d, p);
    forall i: nat | Suspended(p, i)
      ensures HasFrame(p, i) && p.tasks[i].ctxStack != p.rsp0 && Suspended(m, i) && FrameKept(m, p, i)
      ensures p.tasks[i] == m.tasks[i]
    {
      EnterWithFrame(m, junk, c, cpu, i);
    }
  }

  lemma EnterRuns(m: Machine, junk: Stack, c: nat)
    requires Inv(m) && !m.halted && Suspended(m, c)
    requires Die(m, junk).tasks[c].ctxStack in Die(m, junk).stacks
    ensures var p := Enter(Die(m, junk), c); Inv(p) && Entered(m, p)
  {
    var d := Die(m, junk);
    DieKeeps(m, junk, c);
    RestoreComplete(d.stacks[d.tasks[c].ctxStack]);
    EnterWithRuns(m, junk, c, Restore(d.stacks[d.tasks[c].ctxStack], FRAME_AT));
  }

  // What an exit does to contexts: the next task runs from its frame, and no other frame changes.
  ghost predicate Entered(m: Machine, p: Machine) {
    && |p.tasks| == |m.tasks| && !p.halted
    && Suspended(m, p.current) && m.tasks[p.current].ctxStack in m.stacks && p.cpu == FrameCpu(m, p.current)
    && (forall i: nat :: Suspended(p, i) ==> Suspended(m, i) && FrameKept(m, p, i))
  }
}

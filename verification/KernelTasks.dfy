/**
 The scheduler and the context switch in their own form: task records linked into a circular run queue,
 and a kernel that edits them, the stacks and the processor's state in place.
 */
module KernelTasks {
  import opened Prelude
  import opened Scheduling
  import opened SavedFrames
  import CS = ContextSwitch
  import CR = ContextRuns

  class TaskRecord {
    var ctxStack: nat
    var ctxAt: nat
    const pml4: nat
    const stack: nat
    var state: TaskState
    const pid: nat
    var next: TaskRecord?

    constructor (pid: nat, pml4: nat, stack: nat)
      ensures this.pid == pid && this.pml4 == pml4 && this.stack == stack
      ensures ctxStack == stack && ctxAt == FRAME_AT && next == null
    {
      this.pid, this.pml4, this.stack := pid, pml4, stack;
      ctxStack, ctxAt, state, next := stack, FRAME_AT, Ready, null;
    }

    ghost function Abs(): CS.Task
      reads this
    {
      CS.Task(state, ctxStack, ctxAt, stack, pml4)
    }
  }

  class RunQueue {
    var head: TaskRecord?     // run_queue_head
    var current: TaskRecord?  // current_task
    ghost var ring: seq<TaskRecord>  // the tasks in the order they were added
    ghost var at: nat                // the place of the current task

    ghost predicate Valid()
      reads this, ring
    {
      && (head == null <==> ring == [])
      && (ring != [] ==> head == ring[0])
      && (forall i :: 0 <= i < |ring| ==> ring[i].next == ring[Succ(i, |ring|)])
      && (forall i, j :: 0 <= i < j < |ring| ==> ring[i] != ring[j])
      && (current != null ==> at < |ring| && current == ring[at])
    }

    ghost function Tasks(): (s: seq<CS.Task>)
      reads this, ring
      ensures |s| == |ring| && forall i :: 0 <= i < |ring| ==> s[i] == ring[i].Abs()
    {
      seq(|ring|, i requires 0 <= i < |ring| reads this, ring => ring[i].Abs())
    }

    ghost function Current(): Option<nat>
      reads this
    {
      if current == null then None else Some(at)
    }

    // scheduler_init
    constructor ()
      ensures Valid() && ring == [] && current == null
    {
      head, current := null, null;
      ring, at := [], 0;
    }

    // scheduler_add_task: the ring is walked to its tail, and the task linked in between tail and head.
    method AddTask(task: TaskRecord)
      requires Valid() && task !in ring
      modifies this, task, ring
      ensures Valid() && ring == old(ring) + [task] && current == old(current) && Current() == old(Current())
      ensures task.Abs() == old(task.Abs()).(state := Ready)
      ensures forall i :: 0 <= i < |old(ring)| ==> ring[i].Abs() == old(ring[i].Abs())
    {
      task.state := Ready;
      if head == null {
        head := task;
        task.next := task;
        ring := [task];
        return;
      }
      var tail := head;
      ghost var k := 0;
      while tail.next != head
        invariant k < |ring| && tail == ring[k]
        decreases |ring| - k
      {
        tail := tail.next;
        k := k + 1;
      }
      assert k == |ring| - 1;
      tail.next := task;
      task.next := head;
      ring := ring + [task];
    }

    // scheduler_next
    method Next() returns (t: TaskRecord?, ghost chosen: Option<nat>)
      requires Valid()
      ensures chosen == Scheduling.Next(CS.States(Tasks()), Current())
      ensures if chosen.Some? then chosen.value < |ring| && t == ring[chosen.value] else t == null
    {
      ghost var states := CS.States(Tasks());
      if head == null {
        return null, None;
      }
      var start := if current != null then current.next else head;
      t := start;
      ghost var first := if current != null then Succ(at, |ring|) else 0;
      ghost var k: nat, left: nat := first, |ring|;
      while true
        invariant 0 < left <= |ring| && k < |ring| && t == ring[k]
        invariant k == if first + (|ring| - left) < |ring| then first + (|ring| - left) else first - left
        invariant Scan(states, first, |ring|) == Scan(states, k, left)
        decreases left
      {
        if t.state == Ready || t.state == Running {
          return t, Some(k);
        }
        t := t.next;
        k, left := Succ(k, |ring|), left - 1;
        if t == start {
          break;
        }
      }
      return null, None;
    }

    // schedule
    method Schedule()
      requires Valid()
      modifies this`current, this`at, ring
      ensures Valid() && ring == old(ring)
      ensures old(current) != null ==>
                var q := Scheduling.Schedule(Queue(CS.States(old(Tasks())), old(at)));
                current != null && at == q.current && Tasks() == CS.WithStates(old(Tasks()), q.states)
      ensures old(current) == null ==>
                match Scheduling.Next(CS.States(old(Tasks())), None)
                case None => current == null && Tasks() == old(Tasks())
                case Some(t) => current != null && at == t && Tasks() == old(Tasks())[t := old(Tasks())[t].(state := Running)]
    {
      ghost var tasks := Tasks();
      var next;
      ghost var chosen;
      next, chosen := Next();
      if next == null || next == current {
        assert Tasks() == CS.WithStates(tasks, CS.States(tasks));
        return;
      }
      if current != null {
        SwitchedStates(tasks, at, chosen.value);
      }
      SwitchTo(next, chosen.value);
    }

    method SwitchTo(next: TaskRecord, ghost place: nat)
      requires Valid() && place < |ring| && ring[place] == next && next != current
      modifies this`current, this`at, ring
      ensures Valid() && ring == old(ring) && current == next && at == place && Tasks() == Switched(old(Tasks()), old(Current()), place)
    {
      if current != null && current.state == Running {
        current.state := Ready;
      }
      current := next;
      at := place;
      current.state := Running;
      assert Tasks() == Switched(old(Tasks()), old(Current()), place);
    }
  }

  // The running task, if there is one, becomes ready, and task c runs.
  ghost function Switched(tasks: seq<CS.Task>, current: Option<nat>, c: nat): (s: seq<CS.Task>)
    requires c < |tasks| && (current.Some? ==> current.value < |tasks|)
  {
    var paused := if current.Some? && tasks[current.value].state == Running
                  then tasks[current.value := tasks[current.value].(state := Ready)] else tasks;
    paused[c := paused[c].(state := Running)]
  }

  lemma SwitchedStates(tasks: seq<CS.Task>, current: nat, c: nat)
    requires current < |tasks| && c < |tasks| && c != current
    requires Scheduling.Next(CS.States(tasks), Some(current)) == Some(c)
    ensures var q := Scheduling.Schedule(Queue(CS.States(tasks), current));
            c == q.current && Switched(tasks, Some(current), c) == CS.WithStates(tasks, q.states)
  {
  }

  class Kernel {
    const queue: RunQueue
    var cpu: Cpu
    var stacks: map<nat, Stack>  // kernel stacks, by the name of the task's own or the boot stack
    var rsp0: nat                // tss.rsp0, as the stack it is the top of
    var cr3: nat
    var ticks: nat               // lapic_ticks
    var halted: bool

    ghost function Abs(): CS.Machine
      reads this, queue, queue.ring
    {
      CS.Machine(queue.Tasks(), queue.at, cpu, stacks, rsp0, cr3, ticks, halted)
    }

    ghost predicate Valid()
      reads this, queue, queue.ring
    {
      queue.Valid() && queue.current != null && CS.Inv(Abs())
    }

    // The kernel before its first task_enter.
    constructor (queue: RunQueue, cpu: Cpu, stacks: map<nat, Stack>, cr3: nat, ticks: nat)
      ensures this.queue == queue
      ensures Abs() == CS.Machine(queue.Tasks(), queue.at, cpu, stacks, CS.BOOT_STACK, cr3, ticks, false)
    {
      this.queue, this.cpu, this.stacks := queue, cpu, stacks;
      this.rsp0, this.cr3, this.ticks, this.halted := CS.BOOT_STACK, cr3, ticks, false;
    }

    // lapic_timer_handler
    method TimerHandler()
      requires queue.Valid() && queue.current != null
      modifies this`ticks, queue`current, queue`at, queue.ring
      ensures queue.Valid() && queue.current != null && queue.ring == old(queue.ring) && Abs() == CS.Timer(old(Abs()))
    {
      ghost var m := Abs();
      CountTick();
      ghost var n := Abs();
      TimerParts(m, n);
      RescheduleIf(ticks % CS.QUANTUM == 0);
    }

    method CountTick()
      modifies this`ticks
      ensures Abs() == old(Abs()).(ticks := Wrap64(old(ticks) + 1))
    {
      ticks := Wrap64(ticks + 1);
      assert queue.Tasks() == old(queue.Tasks());
    }

    method RescheduleIf(due: bool)
      requires queue.Valid() && queue.current != null
      modifies queue`current, queue`at, queue.ring
      ensures queue.Valid() && queue.current != null && queue.ring == old(queue.ring)
      ensures Abs() == Rescheduled(old(Abs()), due)
    {
      if due {
        queue.Schedule();
      }
    }

    // lapic_timer_isr, entered from ring 3.  `junk` is what the handler leaves on the stack below the frame.
    method TimerInterrupt(junk: Stack)
      requires Valid() && !halted
      modifies this`stacks, this`ticks, this`cr3, this`rsp0, this`cpu, queue`current, queue`at, queue.ring
      ensures Valid() && queue.ring == old(queue.ring) && Abs() == CS.TickStep(old(Abs()), junk)
    {
      TickParts(Abs(), junk);
      SaveAndFinish(junk);
    }

    method SaveAndFinish(junk: Stack)
      requires queue.Valid() && queue.current != null && rsp0 in stacks && cpu.Complete()
      requires CanResume(CS.Timer(CS.SaveCurrent(Abs(), junk)))
      modifies this`stacks, this`ticks, this`cr3, this`rsp0, this`cpu, queue`current, queue`at, queue.ring
      ensures queue.Valid() && queue.current != null && queue.ring == old(queue.ring)
      ensures Abs() == CS.Resume(CS.Timer(CS.SaveCurrent(old(Abs()), junk)))
    {
      SaveFrame(junk);
      FinishTick();
    }

    method FinishTick()
      requires queue.Valid() && queue.current != null && CanResume(CS.Timer(Abs()))
      modifies this`stacks, this`ticks, this`cr3, this`rsp0, this`cpu, queue`current, queue`at, queue.ring
      ensures queue.Valid() && queue.current != null && queue.ring == old(queue.ring)
      ensures Abs() == CS.Resume(CS.Timer(old(Abs())))
    {
      TimerHandler();
      ResumeCurrent();
    }

    // The pushes of the processor and of PUSH_REGS, and mov %rsp, (%rbx).
    method SaveFrame(junk: Stack)
      requires queue.Valid() && queue.current != null && rsp0 in stacks && cpu.Complete()
      modifies this`stacks, queue.current`ctxStack, queue.current`ctxAt
      ensures queue.Valid() && queue.current == old(queue.current) && Abs() == CS.SaveCurrent(old(Abs()), junk)
    {
      ParkCurrent(Scribble(junk, Save(stacks[rsp0], cpu)));
    }

    method ParkCurrent(stack: Stack)
      requires queue.Valid() && queue.current != null
      modifies this`stacks, queue.current`ctxStack, queue.current`ctxAt
      ensures queue.Valid() && queue.current == old(queue.current) && Abs() == CS.Park(old(Abs()), stack)
    {
      stacks := stacks[rsp0 := stack];
      queue.current.ctxStack := rsp0;
      queue.current.ctxAt := FRAME_AT;
      assert Abs().tasks == CS.Park(old(Abs()), stack).tasks;
    }

    // The end of the interrupt: cr3, rsp0, the forced ss, POP_REGS and iretq.
    method ResumeCurrent()
      requires queue.Valid() && queue.current != null && queue.current.ctxStack in stacks
      modifies this`stacks, this`cr3, this`rsp0, this`cpu
      ensures queue.Valid() && Abs() == CS.Resume(old(Abs()))
    {
      var stack := ForceSs(stacks[queue.current.ctxStack]);
      LoadCurrent(stack, Restore(stack, FRAME_AT));
    }

    method LoadCurrent(stack: Stack, regs: Cpu)
      requires queue.Valid() && queue.current != null
      modifies this`stacks, this`cr3, this`rsp0, this`cpu
      ensures queue.Valid() && Abs() == CS.Load(old(Abs()), stack, regs)
    {
      var t := queue.current;
      cr3 := t.pml4;
      rsp0 := t.stack;
      stacks := stacks[t.ctxStack := stack];
      cpu := regs;
      assert queue.Tasks() == old(queue.Tasks());
    }

    // SYS_EXIT.  `junk` is what the syscall leaves on its stack.
    method SysExit(junk: Stack)
      requires Valid() && !halted
      modifies this`stacks, this`cr3, this`cpu, this`halted, queue`current, queue`at, queue.current`state
      ensures Valid() && Abs() == CS.ExitStep(old(Abs()), junk)
    {
      ExitParts(Abs(), junk);
      DieAndEnter(junk);
    }

    method DieAndEnter(junk: Stack)
      requires queue.Valid() && queue.current != null && CanEnter(CS.Die(Abs(), junk))
      modifies this`stacks, this`cr3, this`cpu, this`halted, queue`current, queue`at, queue.current`state
      ensures queue.Valid() && queue.current != null && Abs() == NextEntered(CS.Die(old(Abs()), junk))
    {
      MarkDead(junk);
      EnterNext();
    }

    method EnterNext()
      requires queue.Valid() && queue.current != null && CanEnter(Abs())
      modifies this`cr3, this`cpu, this`halted, queue`current, queue`at
      ensures queue.Valid() && queue.current != null && Abs() == NextEntered(old(Abs()))
    {
      var next;
      ghost var chosen;
      next, chosen := Choose();
      if next == null {
        Halt();
      } else {
        TaskEnter(next, chosen.value);
      }
    }

    method Choose() returns (next: TaskRecord?, ghost chosen: Option<nat>)
      requires queue.Valid() && queue.current != null && CanEnter(Abs())
      ensures chosen == Choice(Abs())
      ensures chosen.None? ==> next == null
      ensures chosen.Some? ==> next == queue.ring[chosen.value] && next.ctxStack in stacks
    {
      next, chosen := queue.Next();
    }

    method Halt()
      modifies this`halted
      ensures Abs() == old(Abs()).(halted := true)
    {
      halted := true;
      assert queue.Tasks() == old(queue.Tasks());
    }

    method MarkDead(junk: Stack)
      requires queue.Valid() && queue.current != null
      modifies this`stacks, queue.current`state
      ensures queue.Valid() && Abs() == CS.Die(old(Abs()), junk)
    {
      stacks := stacks[rsp0 := junk];
      queue.current.state := Dead;
      assert Abs().tasks == CS.Die(old(Abs()), junk).tasks;
    }

    // task_enter: current_task, cr3 and the registers; not the task's state, not rsp0.
    method TaskEnter(task: TaskRecord, ghost place: nat)
      requires queue.Valid() && place < |queue.ring| && queue.ring[place] == task && task.ctxStack in stacks
      modifies this`cr3, this`cpu, queue`current, queue`at
      ensures queue.Valid() && queue.current == task && Abs() == CS.Enter(old(Abs()), place)
    {
      RunTask(task, place, Restore(stacks[task.ctxStack], FRAME_AT));
    }

    method RunTask(task: TaskRecord, ghost place: nat, regs: Cpu)
      requires queue.Valid() && place < |queue.ring| && queue.ring[place] == task
      modifies this`cr3, this`cpu, queue`current, queue`at
      ensures queue.Valid() && queue.current == task && Abs() == CS.EnterWith(old(Abs()), place, regs)
    {
      queue.current := task;
      queue.at := place;
      cr3 := task.pml4;
      cpu := regs;
      assert queue.Tasks() == old(queue.Tasks());
    }

    // The running task computes, and whatever system calls or key interrupts it meets use its stack.
    method UserStep(regs: Cpu, junk: Stack)
      requires queue.Valid()
      modifies this`cpu, this`stacks
      ensures queue.Valid() && Abs() == old(Abs()).(cpu := regs, stacks := old(stacks)[old(rsp0) := junk])
    {
      cpu := regs;
      stacks := stacks[rsp0 := junk];
      assert queue.Tasks() == old(queue.Tasks());
    }

    method Handle(e: CS.Event)
      requires Valid() && CS.EventOk(e)
      modifies this, queue`current, queue`at, queue.ring
      ensures queue.Valid() && queue.current != null && queue.ring == old(queue.ring)
      ensures Abs() == CR.Step(old(Abs()), e)
    {
      if halted {
        return;
      }
      match e
      case User(regs, junk) => UserStep(regs, junk);
      case Tick(junk) => TimerInterrupt(junk);
      case Exit(junk) => SysExit(junk);
    }

    // The kernel, fed any sequence of events, is always in the state the protocol gives.
    method Run(evs: seq<CS.Event>)
      requires Valid() && CR.EventsOk(evs)
      modifies this, queue`current, queue`at, queue.ring
      ensures Valid() && Abs() == CR.Run(old(Abs()), evs)
      decreases |evs|
    {
      if evs != [] {
        CR.StepMatches(Abs(), evs[0]);
        Handle(evs[0]);
        Run(evs[1..]);
      }
    }
  }

  // ---- The steps of the protocol, in the order the code takes them ----

  ghost predicate CanResume(m: CS.Machine) {
    m.current < |m.tasks| && m.tasks[m.current].ctxStack in m.stacks
  }

  ghost function Rescheduled(m: CS.Machine, due: bool): CS.Machine
    requires m.current < |m.tasks|
  {
    if due then CS.Switch(m, Schedule(Queue(CS.States(m.tasks), m.current))) else m
  }

  lemma TimerParts(m: CS.Machine, n: CS.Machine)
    requires m.current < |m.tasks| && n == m.(ticks := Wrap64(m.ticks + 1))
    ensures CS.Timer(m) == Rescheduled(n, n.ticks % CS.QUANTUM == 0)
  {
  }

  lemma TickParts(m: CS.Machine, junk: Stack)
    requires CS.Inv(m) && !m.halted
    ensures CanResume(CS.Timer(CS.SaveCurrent(m, junk)))
    ensures CS.TickStep(m, junk) == CS.Resume(CS.Timer(CS.SaveCurrent(m, junk))) && CS.Inv(CS.TickStep(m, junk))
  {
    CS.SaveThrough(m, junk);
    CS.TickFrom(m, CS.SaveCurrent(m, junk), CS.Timer(CS.SaveCurrent(m, junk)));
    CS.TickEffect(m, junk);
  }

  // What scheduler_next chooses, in a machine between a task's death and the next task_enter.
  ghost function Choice(m: CS.Machine): (c: Option<nat>)
    requires m.current < |m.tasks|
    ensures c.Some? ==> c.value < |m.tasks|
  {
    Next(CS.States(m.tasks), Some(m.current))
  }

  ghost predicate CanEnter(m: CS.Machine) {
    m.current < |m.tasks| && (Choice(m).Some? ==> m.tasks[Choice(m).value].ctxStack in m.stacks)
  }

  ghost function NextEntered(m: CS.Machine): CS.Machine
    requires CanEnter(m)
  {
    match Choice(m)
    case None => m.(halted := true)
    case Some(c) => CS.Enter(m, c)
  }

  lemma ExitParts(m: CS.Machine, junk: Stack)
    requires CS.Inv(m) && !m.halted
    ensures CanEnter(CS.Die(m, junk))
    ensures CS.ExitStep(m, junk) == NextEntered(CS.Die(m, junk)) && CS.Inv(CS.ExitStep(m, junk))
  {
    var d := CS.Die(m, junk);
    assert CS.States(d.tasks) == CS.States(m.tasks)[m.current := Dead];
    match Exit(Queue(CS.States(m.tasks), m.current))
    case None =>
      CR.HaltKeeps(m, junk);
    case Some(q) =>
      CS.ExitChoice(m, junk, q);
      CS.EnterRuns(m, junk, q.current);
  }

  // The first task_enter, with every task as task_create_from_elf and scheduler_add_task left it, puts
  // the machine in a state from which the protocol starts.
  lemma FirstEnterStarts(m: CS.Machine, c: nat)
    requires c < |m.tasks| && CS.StacksOk(m) && !m.halted && m.rsp0 == CS.BOOT_STACK
    requires forall i :: 0 <= i < |m.tasks| ==>
               && m.tasks[i].state == Ready && m.tasks[i].ctxStack == m.tasks[i].stack && m.tasks[i].ctxAt == FRAME_AT
               && UserFrame(m.stacks[m.tasks[i].stack])
    ensures CR.Start(CS.Enter(m, c)) && CS.Inv(CS.Enter(m, c))
  {
    FirstEntering(m, c, Restore(m.stacks[m.tasks[c].ctxStack], FRAME_AT));
    CR.StartHolds(CS.Enter(m, c));
  }

  lemma FirstEntering(m: CS.Machine, c: nat, cpu: Cpu)
    requires c < |m.tasks| && CS.StacksOk(m) && !m.halted && m.rsp0 == CS.BOOT_STACK
    requires forall i :: 0 <= i < |m.tasks| ==>
               && m.tasks[i].state == Ready && m.tasks[i].ctxStack == m.tasks[i].stack && m.tasks[i].ctxAt == FRAME_AT
               && UserFrame(m.stacks[m.tasks[i].stack])
    ensures CR.Entering(CS.EnterWith(m, c, cpu))
  {
  }
}

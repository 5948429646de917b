/**
 From created tasks to running ones: the tasks that task_create_from_elf leaves in memory are a start
 of the context-switch protocol, and entering one runs its program from the entry point.
 */
module BootTasks {
  import opened Prelude
  import opened Scheduling
  import opened SavedFrames
  import opened SpaceState
  import AS = AddressSpaces
  import FP = FramePool
  import TB = TaskBills
  import TC = TaskCreation
  import EF = ElfFormat
  import FE = FirstEntry
  import CS = ContextSwitch
  import CR = ContextRuns
  import KT = KernelTasks

  // The words of a kernel stack are those of its sixteen frames from b on.
  ghost predicate Holds(s: Snap, b: nat, stack: Stack) {
    forall k: nat :: k < TB.KERNEL_STACK_PAGES ==> b + k in s.t.tab && stack[k * 512..k * 512 + 512] == s.t.tab[b + k]
  }

  // Tasks made from the files and still in memory.
  ghost predicate Made(s: Snap, tasks: seq<TC.Task>, files: seq<seq<nat>>) {
    && Good(s) && |tasks| == |files|
    && (forall i :: 0 <= i < |tasks| ==> TC.Ready(s, tasks[i], files[i]))
    && (forall i, j :: 0 <= i < j < |tasks| ==> TC.Apart(s, tasks[i], tasks[j]))
  }

  // What a sequence of creations that all succeed leaves behind.
  lemma CreatedAreMade(s: Snap, created: seq<Option<TC.Task>>, tasks: seq<TC.Task>, files: seq<seq<nat>>)
    requires Good(s) && |created| == |tasks| == |files| && TC.AllReady(s, created, files)
    requires forall i :: 0 <= i < |tasks| ==> created[i] == Some(tasks[i])
    ensures Made(s, tasks, files)
  {
    forall i | 0 <= i < |tasks|
      ensures TC.Ready(s, tasks[i], files[i])
    {
      assert TC.Stands(s, created[i], files[i]);
    }
    forall i, j | 0 <= i < j < |tasks|
      ensures TC.Apart(s, tasks[i], tasks[j])
    {
      assert TC.ApartIfMade(s, created[i], created[j]);
    }
  }

  // The machine before its first task_enter, with the tasks added to the queue: each is ready, its saved
  // frame lies at the top of its own stack, and rsp0 names the boot stack.
  ghost predicate Queued(m: CS.Machine, s: Snap, tasks: seq<TC.Task>) {
    && |m.tasks| == |tasks| && !m.halted && m.rsp0 == CS.BOOT_STACK && CS.BOOT_STACK in m.stacks
    && forall i :: 0 <= i < |tasks| ==>
         && m.tasks[i] == CS.Task(Ready, tasks[i].stack, FRAME_AT, tasks[i].stack, tasks[i].pml4)
         && tasks[i].stack in m.stacks && Holds(s, tasks[i].stack, m.stacks[tasks[i].stack])
  }

  lemma TopOfStack(s: Snap, b: nat, stack: Stack, entry: nat)
    requires Holds(s, b, stack) && TC.Primed(s, b, entry)
    ensures stack[FRAME_AT..] == TC.FirstContext(entry)
  {
    var k := TB.KERNEL_STACK_PAGES - 1;
    var top := stack[k * 512..k * 512 + 512];
    assert b + k in s.t.tab && top == s.t.tab[b + k];
    assert stack[FRAME_AT..] == top[512 - TC.CONTEXT_WORDS..];
  }

  lemma StacksAreDistinct(s: Snap, a: TC.Task, b: TC.Task)
    requires TC.Apart(s, a, b)
    ensures a.stack != b.stack
  {
    assert !(TC.Uses(s, a, a.stack) && TC.Uses(s, b, a.stack));
  }

  lemma QueuedStacks(m: CS.Machine, s: Snap, tasks: seq<TC.Task>, files: seq<seq<nat>>)
    requires Made(s, tasks, files) && Queued(m, s, tasks)
    ensures CS.StacksOk(m)
  {
    forall i, j | 0 <= i < j < |tasks|
      ensures tasks[i].stack != tasks[j].stack
    {
      StacksAreDistinct(s, tasks[i], tasks[j]);
    }
  }

  // Task c has been entered: the protocol starts, in that task's space, at its program's entry point, and
  // every other task waits to be resumed at its own.
  ghost predicate Begun(p: CS.Machine, tasks: seq<TC.Task>, files: seq<seq<nat>>, c: nat) {
    && CR.Start(p) && CS.Inv(p) && p.current == c < |tasks| == |files| == |p.tasks| && p.cr3 == tasks[c].pml4
    && EF.EHDR_SIZE <= |files[c]| && p.cpu == FE.FirstCpu(EF.EntryPoint(files[c]))
    && forall i :: 0 <= i < |tasks| ==> WaitsAtEntry(p, i, files[i])
  }

  // Whatever task is entered first, it begins.
  lemma FirstTaskRuns(m: CS.Machine, s: Snap, tasks: seq<TC.Task>, files: seq<seq<nat>>, c: nat)
    requires Made(s, tasks, files) && Queued(m, s, tasks) && c < |tasks|
    ensures m.tasks[c].ctxStack in m.stacks && Begun(CS.Enter(m, c), tasks, files, c)
  {
    QueuedStacks(m, s, tasks, files);
    forall i | 0 <= i < |tasks|
      ensures WaitsAtEntry(m, i, files[i]) && UserFrame(m.stacks[m.tasks[i].stack])
    {
      WaitsAtOwnEntry(m, s, tasks, files, i);
    }
    KT.FirstEnterStarts(m, c);
    assert WaitsAtEntry(m, c, files[c]);
    EnteredWaits(m, c, Restore(m.stacks[m.tasks[c].ctxStack], FRAME_AT), files);
  }

  lemma EnteredWaits(m: CS.Machine, c: nat, cpu: Cpu, files: seq<seq<nat>>)
    requires c < |m.tasks| && forall i :: 0 <= i < |files| ==> WaitsAtEntry(m, i, files[i])
    ensures forall i :: 0 <= i < |files| ==> WaitsAtEntry(CS.EnterWith(m, c, cpu), i, files[i])
  {
    forall i | 0 <= i < |files|
      ensures WaitsAtEntry(CS.EnterWith(m, c, cpu), i, files[i])
    {
      assert WaitsAtEntry(m, i, files[i]);
    }
  }

  // The context saved for task i is that of its program not yet begun.
  ghost predicate WaitsAtEntry(m: CS.Machine, i: nat, file: seq<nat>) {
    && i < |m.tasks| && m.tasks[i].ctxStack in m.stacks && EF.EHDR_SIZE <= |file|
    && CS.FrameCpu(m, i) == FE.FirstCpu(EF.EntryPoint(file))
  }

  lemma WaitsAtOwnEntry(m: CS.Machine, s: Snap, tasks: seq<TC.Task>, files: seq<seq<nat>>, i: nat)
    requires Made(s, tasks, files) && Queued(m, s, tasks) && i < |tasks|
    ensures WaitsAtEntry(m, i, files[i]) && UserFrame(m.stacks[m.tasks[i].stack])
  {
    var stack := m.stacks[tasks[i].stack];
    assert TC.Ready(s, tasks[i], files[i]);
    TopOfStack(s, tasks[i].stack, stack, tasks[i].entry);
    FE.FirstFrame(stack, tasks[i].entry);
    assert Restore(stack, FRAME_AT).cs == stack[IRET_AT + 1];
  }

  // ---- The end of the boot sequence ----

  // The words of the kernel stack at frame b.
  function StackAt(mem: map<nat, seq<nat>>, b: nat): Stack
    requires forall f :: b <= f < b + TB.KERNEL_STACK_PAGES ==> f in mem && |mem[f]| == 512
  {
    seq(STACK_WORDS, i requires 0 <= i < STACK_WORDS => WordAt(mem, b, i))
  }

  function WordAt(mem: map<nat, seq<nat>>, b: nat, i: nat): nat
    requires i < STACK_WORDS
    requires forall f :: b <= f < b + TB.KERNEL_STACK_PAGES ==> f in mem && |mem[f]| == 512
  {
    assert b <= b + i / 512 < b + TB.KERNEL_STACK_PAGES;
    mem[b + i / 512][i % 512]
  }

  lemma StackHolds(s: Snap, b: nat)
    requires forall f :: b <= f < b + TB.KERNEL_STACK_PAGES ==> f in s.t.tab && |s.t.tab[f]| == 512
    ensures Holds(s, b, StackAt(s.t.tab, b))
  {
    forall k: nat | k < TB.KERNEL_STACK_PAGES
      ensures b + k in s.t.tab && StackAt(s.t.tab, b)[k * 512..k * 512 + 512] == s.t.tab[b + k]
    {
      assert b <= b + k < b + TB.KERNEL_STACK_PAGES;
      var part, page := StackAt(s.t.tab, b)[k * 512..k * 512 + 512], s.t.tab[b + k];
      forall j | 0 <= j < 512
        ensures part[j] == page[j]
      {
        assert (k * 512 + j) / 512 == k && (k * 512 + j) % 512 == j;
      }
    }
  }

  lemma StackInMemory(s: Snap, task: TC.Task, file: seq<nat>)
    requires Good(s) && TC.Ready(s, task, file)
    ensures forall f :: task.stack <= f < task.stack + TB.KERNEL_STACK_PAGES ==> f in s.t.tab && |s.t.tab[f]| == 512
  {
    forall f: nat | task.stack <= f < task.stack + TB.KERNEL_STACK_PAGES
      ensures f in s.t.tab && |s.t.tab[f]| == 512
    {
      assert InBlock(task.stack, TB.KERNEL_STACK_PAGES, f);
    }
  }

  // The tasks that were made, if all were.
  method AllMade(created: seq<Option<TC.Task>>) returns (tasks: Option<seq<TC.Task>>)
    ensures tasks.Some? <==> forall i :: 0 <= i < |created| ==> created[i].Some?
    ensures tasks.Some? ==> |tasks.value| == |created| && forall i :: 0 <= i < |created| ==> created[i] == Some(tasks.value[i])
  {
    var made: seq<TC.Task> := [];
    for i := 0 to |created|
      invariant |made| == i && forall j :: 0 <= j < i ==> created[j] == Some(made[j])
    {
      if created[i].None? {
        return None;
      }
      made := made + [created[i].value];
    }
    return Some(made);
  }

  // scheduler_add_task for each task in turn.
  method Enqueue(tasks: seq<TC.Task>) returns (queue: KT.RunQueue)
    ensures fresh(queue) && queue.Valid() && queue.current == null && |queue.ring| == |tasks|
    ensures forall i :: 0 <= i < |tasks| ==> fresh(queue.ring[i])
                                             && queue.ring[i].Abs() == CS.Task(Ready, tasks[i].stack, FRAME_AT, tasks[i].stack, tasks[i].pml4)
  {
    queue := new KT.RunQueue();
    for i := 0 to |tasks|
      invariant fresh(queue) && queue.Valid() && queue.current == null && |queue.ring| == i
      invariant forall j :: 0 <= j < i ==> fresh(queue.ring[j])
                                           && queue.ring[j].Abs() == CS.Task(Ready, tasks[j].stack, FRAME_AT, tasks[j].stack, tasks[j].pml4)
    {
      var record := new KT.TaskRecord(i + 1, tasks[i].pml4, tasks[i].stack);
      queue.AddTask(record);
    }
  }

  // The stacks of the first n tasks, and the boot stack, are those in memory.
  ghost predicate StacksRead(s: Snap, tasks: seq<TC.Task>, stacks: map<nat, Stack>, n: nat)
    requires n <= |tasks|
  {
    && CS.BOOT_STACK in stacks
    && forall i :: 0 <= i < n ==> tasks[i].stack in stacks && Holds(s, tasks[i].stack, stacks[tasks[i].stack])
  }

  lemma OneMoreRead(s: Snap, tasks: seq<TC.Task>, stacks: map<nat, Stack>, n: nat, stack: Stack)
    requires n < |tasks| && StacksRead(s, tasks, stacks, n) && Holds(s, tasks[n].stack, stack)
    requires forall i :: 0 <= i < n ==> tasks[i].stack != tasks[n].stack
    ensures StacksRead(s, tasks, stacks[tasks[n].stack := stack], n + 1)
  {
  }

  lemma StackReads(s: Snap, tasks: seq<TC.Task>, files: seq<seq<nat>>, n: nat)
    requires Made(s, tasks, files) && n < |tasks|
    ensures var b := tasks[n].stack;
            && (forall f :: b <= f < b + TB.KERNEL_STACK_PAGES ==> f in s.t.tab && |s.t.tab[f]| == 512)
            && Holds(s, b, StackAt(s.t.tab, b))
    ensures forall i :: 0 <= i < n ==> tasks[i].stack != tasks[n].stack
  {
    StackInMemory(s, tasks[n], files[n]);
    StackHolds(s, tasks[n].stack);
    forall i | 0 <= i < n
      ensures tasks[i].stack != tasks[n].stack
    {
      StacksAreDistinct(s, tasks[i], tasks[n]);
    }
  }

  // The kernel stacks of the tasks as they are in memory, and the boot stack.
  method ReadStacks(mem: map<nat, seq<nat>>, tasks: seq<TC.Task>, boot: Stack, ghost s: Snap, ghost files: seq<seq<nat>>)
    returns (stacks: map<nat, Stack>)
    requires Made(s, tasks, files) && mem == s.t.tab
    ensures StacksRead(s, tasks, stacks, |tasks|)
  {
    stacks := map[CS.BOOT_STACK := boot];
    for i := 0 to |tasks|
      invariant StacksRead(s, tasks, stacks, i)
    {
      StackReads(s, tasks, files, i);
      var stack := StackAt(mem, tasks[i].stack);
      OneMoreRead(s, tasks, stacks, i, stack);
      stacks := stacks[tasks[i].stack := stack];
    }
  }

  // The kernel before its first task_enter.
  method QueueTasks(tasks: seq<TC.Task>, stacks: map<nat, Stack>, cpu: Cpu, cr3: nat, ticks: nat, ghost s: Snap)
    returns (kernel: KT.Kernel)
    requires StacksRead(s, tasks, stacks, |tasks|)
    ensures fresh(kernel) && fresh(kernel.queue) && kernel.queue.Valid() && |kernel.queue.ring| == |tasks|
    ensures Queued(kernel.Abs(), s, tasks)
  {
    var queue := Enqueue(tasks);
    kernel := new KT.Kernel(queue, cpu, stacks, cr3, ticks);
    assert kernel.Abs().tasks == queue.Tasks();
  }

  // The tasks are queued, and the first of them is entered.
  method EnterFirst(tasks: seq<TC.Task>, stacks: map<nat, Stack>, cpu: Cpu, cr3: nat, ticks: nat,
                    ghost s: Snap, ghost files: seq<seq<nat>>) returns (kernel: KT.Kernel)
    requires tasks != [] && Made(s, tasks, files) && StacksRead(s, tasks, stacks, |tasks|)
    ensures kernel.Valid() && Begun(kernel.Abs(), tasks, files, 0)
  {
    kernel := QueueTasks(tasks, stacks, cpu, cr3, ticks, s);
    FirstTaskRuns(kernel.Abs(), s, tasks, files, 0);
    kernel.TaskEnter(kernel.queue.head, 0);
  }

  // If all tasks could be made, the first is entered, with the others queued behind it.
  method Launch(mem: map<nat, seq<nat>>, created: seq<Option<TC.Task>>, boot: Stack, cpu: Cpu, cr3: nat, ticks: nat,
                ghost s: Snap, ghost files: seq<seq<nat>>) returns (kernel: Option<KT.Kernel>, ghost tasks: seq<TC.Task>)
    requires Good(s) && mem == s.t.tab && |created| == |files| > 0 && TC.AllReady(s, created, files)
    ensures kernel.Some? <==> forall i :: 0 <= i < |created| ==> created[i].Some?
    ensures kernel.Some? ==> |tasks| == |created| && forall i :: 0 <= i < |created| ==> created[i] == Some(tasks[i])
    ensures kernel.Some? ==> kernel.value.Valid() && Begun(kernel.value.Abs(), tasks, files, 0)
  {
    var made := AllMade(created);
    if made.None? {
      return None, [];
    }
    CreatedAreMade(s, created, made.value, files);
    var stacks := ReadStacks(mem, made.value, boot, s, files);
    var k := EnterFirst(made.value, stacks, cpu, cr3, ticks, s, files);
    return Some(k), made.value;
  }

  // Tasks are created from the files, and the first of them is entered.  If all could be made, the kernel is
  // in a state from which every run goes by the protocol, and the first program begins.
  method Boot(vmm: AS.Vmm, files: seq<seq<nat>>, boot: Stack, cpu: Cpu, cr3: nat, ticks: nat)
    returns (kernel: Option<KT.Kernel>, created: seq<Option<TC.Task>>, ghost tasks: seq<TC.Task>, ghost stocks: seq<FP.Stock>)
    requires vmm.Valid() && files != [] && forall i :: 0 <= i < |files| ==> EF.Bytes(files[i]) && EF.Readable(files[i])
    modifies vmm`mem, vmm`lab, vmm`data, vmm.pmm, vmm.pmm.bitmap
    ensures vmm.Valid() && |created| == |files| && TC.AllReady(vmm.Now(), created, files)
    ensures TC.Accounts(stocks, created, files) && stocks[0] == old(vmm.Stock()) && stocks[|files|] == vmm.Stock()
    ensures kernel.Some? <==> forall i :: 0 <= i < |created| ==> created[i].Some?
    ensures kernel.Some? ==> |tasks| == |created| && forall i :: 0 <= i < |created| ==> created[i] == Some(tasks[i])
    ensures kernel.Some? ==> kernel.value.Valid() && Begun(kernel.value.Abs(), tasks, files, 0)
  {
    created, stocks := TC.CreateTasks(vmm, files);
    kernel, tasks := Launch(vmm.mem, created, boot, cpu, cr3, ticks, vmm.Now(), files);
  }
}

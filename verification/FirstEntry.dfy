/**
 The kernel stack that task creation prepares is a saved frame of the context-switch protocol.
 */
module FirstEntry {
  import opened Prelude
  import TB = TaskBills
  import TC = TaskCreation
  import opened SavedFrames

  // The registers of a task that has not run yet.
  function FirstCpu(entry: nat): Cpu {
    Cpu(map r: Reg | r in AllRegs() :: 0, entry, 0x23, 0x202, TB.USER_STACK_VADDR + TB.USER_STACK_PAGES * PAGE_SIZE, 0x1B)
  }

  function AllRegs(): set<Reg> {
    {Rax, Rbx, Rcx, Rdx, Rsi, Rdi, Rbp, R8, R9, R10, R11, R12, R13, R14, R15}
  }

  lemma IsListed(r: Reg)
    ensures r in AllRegs()
  {
    match r case Rax => case Rbx => case Rcx => case Rdx => case Rsi => case Rdi => case Rbp => case R8 =>
    case R9 => case R10 => case R11 => case R12 => case R13 => case R14 => case R15 =>
  }

  // Restoring the first context enters the program at its entry point, in ring 3 with interrupts on and
  // the user stack empty.
  lemma FirstFrame(stack: Stack, entry: nat)
    requires stack[FRAME_AT..] == TC.FirstContext(entry)
    ensures Restore(stack, FRAME_AT) == FirstCpu(entry)
  {
    forall i | FRAME_AT <= i < FRAME_AT + 20
      ensures stack[i] == TC.FirstContext(entry)[i - FRAME_AT]
    {
      assert stack[FRAME_AT..][i - FRAME_AT] == stack[i];
    }
    ZeroRegisters(stack);
  }

  lemma ZeroRegisters(stack: Stack)
    requires forall i :: FRAME_AT <= i < FRAME_AT + 15 ==> stack[i] == 0
    ensures Pop(stack, FRAME_AT, map[], POP_ORDER) == map r: Reg | r in AllRegs() :: 0
  {
    OrdersAreOpposite();
    ZeroPop(stack, POP_ORDER);
  }

  lemma ZeroPop(stack: Stack, order: seq<Reg>)
    requires |order| == 15 && Distinct(order) && forall r: Reg :: r in order
    requires forall i :: FRAME_AT <= i < FRAME_AT + 15 ==> stack[i] == 0
    ensures Pop(stack, FRAME_AT, map[], order) == map r: Reg | r in AllRegs() :: 0
  {
    PopLoads(stack, FRAME_AT, map[], order);
    var g := Pop(stack, FRAME_AT, map[], order);
    forall k | 0 <= k < |order|
      ensures order[k] in g && g[order[k]] == stack[FRAME_AT + k] == 0
    {
    }
    ZeroFile(g, order, stack);
  }

  lemma ZeroFile(g: map<Reg, nat>, order: seq<Reg>, stack: Stack)
    requires |order| == 15 && forall r: Reg :: r in order
    requires forall k :: 0 <= k < |order| ==> order[k] in g && g[order[k]] == stack[FRAME_AT + k] == 0
    ensures g == map r: Reg | r in AllRegs() :: 0
  {
    forall r: Reg
      ensures r in g && g[r] == 0 && r in AllRegs()
    {
      IsListed(r);
      assert r in order;
      var k :| 0 <= k < |order| && order[k] == r;
    }
  }
}

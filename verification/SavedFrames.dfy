/**
 The frame an interrupted task leaves on a kernel stack: five words pushed by the processor, then the
 general registers pushed by PUSH_REGS; POP_REGS and iretq read them back.
 */
module SavedFrames {
  datatype Reg = Rax | Rbx | Rcx | Rdx | Rsi | Rdi | Rbp | R8 | R9 | R10 | R11 | R12 | R13 | R14 | R15

  const PUSH_ORDER: seq<Reg> := [Rax, Rbx, Rcx, Rdx, Rsi, Rdi, Rbp, R8, R9, R10, R11, R12, R13, R14, R15]
  const POP_ORDER: seq<Reg> := [R15, R14, R13, R12, R11, R10, R9, R8, Rbp, Rdi, Rsi, Rdx, Rcx, Rbx, Rax]

  // The state of the processor as far as a task can see it.
  datatype Cpu = Cpu(gpr: map<Reg, nat>, rip: nat, cs: nat, rflags: nat, rsp: nat, ss: nat) {
    // Every register has a value, and the code segment is one of ring 3, which lapic_timer_isr tests.
    predicate Complete() {
      (forall r: Reg :: r in gpr) && cs % 4 == 3
    }
  }

  // A kernel stack: 64 KiB, as words; index 0 is the lowest address.
  const STACK_WORDS: nat := 8192
  const FRAME_AT: nat := STACK_WORDS - 20  // where a frame saved on an empty stack begins
  const IRET_AT: nat := STACK_WORDS - 5    // its part pushed by the processor: rip, cs, rflags, rsp, ss

  type Stack = s: seq<nat> | |s| == STACK_WORDS witness seq(STACK_WORDS, _ => 0)

  // Push the registers of `order` one after another, the stack pointer starting at sp.
  function Push(s: Stack, sp: nat, gpr: map<Reg, nat>, order: seq<Reg>): Stack
    requires |order| <= sp <= |s| && forall r: Reg :: r in gpr
    decreases |order|
  {
    if order == [] then s else
      var pushed: Stack := s[sp - 1 := gpr[order[0]]];
      Push(pushed, sp - 1, gpr, order[1..])
  }

  // Pop into the registers of `order` one after another.
  function Pop(s: Stack, sp: nat, gpr: map<Reg, nat>, order: seq<Reg>): map<Reg, nat>
    requires sp + |order| <= |s|
    decreases |order|
  {
    if order == [] then gpr else Pop(s, sp + 1, gpr[order[0] := s[sp]], order[1..])
  }

  lemma {:induction false} PushStores(s: Stack, sp: nat, gpr: map<Reg, nat>, order: seq<Reg>)
    requires |order| <= sp <= |s| && forall r: Reg :: r in gpr
    ensures var p := Push(s, sp, gpr, order);
            && (forall k :: 0 <= k < |order| ==> p[sp - 1 - k] == gpr[order[k]])
            && (forall i :: 0 <= i < |s| && !(sp - |order| <= i < sp) ==> p[i] == s[i])
    decreases |order|
  {
    if order != [] {
      var pushed: Stack := s[sp - 1 := gpr[order[0]]];
      PushStores(pushed, sp - 1, gpr, order[1..]);
      var p := Push(s, sp, gpr, order);
      forall k | 0 <= k < |order|
        ensures p[sp - 1 - k] == gpr[order[k]]
      {
        if k > 0 {
          assert order[k] == order[1..][k - 1];
          assert p[sp - 1 - 1 - (k - 1)] == gpr[order[1..][k - 1]];
        } else {
          assert p[sp - 1] == pushed[sp - 1];
        }
      }
    }
  }

  ghost predicate Distinct(order: seq<Reg>) {
    forall i, j :: 0 <= i < j < |order| ==> order[i] != order[j]
  }

  lemma {:induction false} PopLoads(s: Stack, sp: nat, gpr: map<Reg, nat>, order: seq<Reg>)
    requires sp + |order| <= |s| && Distinct(order)
    ensures var g := Pop(s, sp, gpr, order);
            && (forall k :: 0 <= k < |order| ==> order[k] in g && g[order[k]] == s[sp + k])
            && (forall r: Reg :: r !in order ==> (r in g <==> r in gpr) && (r in gpr ==> g[r] == gpr[r]))
    decreases |order|
  {
    if order != [] {
      var g1 := gpr[order[0] := s[sp]];
      assert forall k :: 0 <= k < |order[1..]| ==> order[1..][k] == order[k + 1];
      PopLoads(s, sp + 1, g1, order[1..]);
      var g := Pop(s, sp, gpr, order);
      forall k | 0 <= k < |order|
        ensures order[k] in g && g[order[k]] == s[sp + k]
      {
        if k > 0 {
          assert order[k] == order[1..][k - 1];
        } else {
          assert order[0] !in order[1..];
        }
      }
    }
  }

  // The processor's push on a change to ring 0.
  function HardwarePush(s: Stack, cpu: Cpu): Stack {
    s[..IRET_AT] + [cpu.rip, cpu.cs, cpu.rflags, cpu.rsp, cpu.ss]
  }

  // The processor's push, then PUSH_REGS.
  function Save(s: Stack, cpu: Cpu): Stack
    requires cpu.Complete()
  {
    Push(HardwarePush(s, cpu), IRET_AT, cpu.gpr, PUSH_ORDER)
  }

  // POP_REGS, then iretq.
  function Restore(s: Stack, at: nat): Cpu
    requires at + 20 <= |s|
  {
    Cpu(Pop(s, at, map[], POP_ORDER), s[at + 15], s[at + 16], s[at + 17], s[at + 18], s[at + 19])
  }

  // The pop order is the push order backwards and names every register once.
  ghost predicate Opposite(push: seq<Reg>, pop: seq<Reg>) {
    && |push| == |pop| && Distinct(pop)
    && (forall k :: 0 <= k < |pop| ==> pop[k] == push[|pop| - 1 - k])
    && (forall r: Reg :: r in pop)
  }

  // The place of a register among the members of cpu_context_t.
  function Member(r: Reg): (k: nat)
    ensures k < 15
  {
    match r
    case R15 => 0 case R14 => 1 case R13 => 2 case R12 => 3 case R11 => 4 case R10 => 5 case R9 => 6 case R8 => 7
    case Rbp => 8 case Rdi => 9 case Rsi => 10 case Rdx => 11 case Rcx => 12 case Rbx => 13 case Rax => 14
  }

  lemma OrdersFollowMembers(r: Reg)
    ensures |PUSH_ORDER| == 15 && |POP_ORDER| == 15
    ensures PUSH_ORDER[14 - Member(r)] == r && POP_ORDER[Member(r)] == r
  {
  }

  lemma MembersInOrder(k: nat)
    requires k < 15
    ensures |PUSH_ORDER| == 15 && |POP_ORDER| == 15
    ensures Member(POP_ORDER[k]) == k && POP_ORDER[k] == PUSH_ORDER[14 - k]
  {
  }

  lemma OrdersAreOpposite()
    ensures |PUSH_ORDER| == 15 && Opposite(PUSH_ORDER, POP_ORDER)
  {
    var push, pop := PUSH_ORDER, POP_ORDER;
    forall k | 0 <= k < 15
      ensures |push| == |pop| == 15 && Member(pop[k]) == k && pop[k] == push[14 - k]
    {
      MembersInOrder(k);
    }
    forall r: Reg
      ensures r in pop
    {
      OrdersFollowMembers(r);
    }
  }

  // Popping in the opposite order restores every register, wherever the frame is.
  lemma PopAfterPush(s: Stack, sp: nat, gpr: map<Reg, nat>, push: seq<Reg>, pop: seq<Reg>, t: Stack)
    requires Opposite(push, pop) && |push| <= sp <= |s| && forall r: Reg :: r in gpr
    requires forall i :: sp - |push| <= i < sp ==> t[i] == Push(s, sp, gpr, push)[i]
    ensures Pop(t, sp - |push|, map[], pop) == gpr
  {
    PushStores(s, sp, gpr, push);
    var n, g := |push|, Pop(t, sp - |push|, map[], pop);
    PopLoads(t, sp - n, map[], pop);
    forall r: Reg
      ensures r in g && g[r] == gpr[r]
    {
      assert r in pop;
      var k :| 0 <= k < n && pop[k] == r;
      assert t[sp - n + k] == Push(s, sp, gpr, push)[sp - 1 - (n - 1 - k)];
    }
  }

  // The words of a saved frame above the registers.
  lemma HardwareWords(s: Stack, cpu: Cpu, push: seq<Reg>, p: Stack)
    requires cpu.Complete() && |push| == 15 && p == Push(HardwarePush(s, cpu), IRET_AT, cpu.gpr, push)
    ensures p[IRET_AT] == cpu.rip && p[IRET_AT + 1] == cpu.cs && p[IRET_AT + 2] == cpu.rflags
    ensures p[IRET_AT + 3] == cpu.rsp && p[IRET_AT + 4] == cpu.ss
  {
    PushStores(HardwarePush(s, cpu), IRET_AT, cpu.gpr, push);
  }

  // A saved frame is a cpu_context_t at the top of the stack; the rest of the stack is as it was.
  lemma SavedContext(s: Stack, cpu: Cpu)
    requires cpu.Complete()
    ensures forall r: Reg :: Save(s, cpu)[FRAME_AT + Member(r)] == cpu.gpr[r]
    ensures Save(s, cpu)[IRET_AT..] == [cpu.rip, cpu.cs, cpu.rflags, cpu.rsp, cpu.ss]
    ensures Save(s, cpu)[..FRAME_AT] == s[..FRAME_AT]
  {
    forall r: Reg
      ensures |PUSH_ORDER| == 15 && PUSH_ORDER[14 - Member(r)] == r
    {
      OrdersFollowMembers(r);
    }
    PushedContext(s, cpu, PUSH_ORDER, Save(s, cpu));
  }

  lemma PushedContext(s: Stack, cpu: Cpu, push: seq<Reg>, p: Stack)
    requires cpu.Complete() && |push| == 15 && p == Push(HardwarePush(s, cpu), IRET_AT, cpu.gpr, push)
    requires forall r: Reg :: push[14 - Member(r)] == r
    ensures forall r: Reg :: p[FRAME_AT + Member(r)] == cpu.gpr[r]
    ensures p[IRET_AT..] == [cpu.rip, cpu.cs, cpu.rflags, cpu.rsp, cpu.ss] && p[..FRAME_AT] == s[..FRAME_AT]
  {
    HardwareWords(s, cpu, push, p);
    PushStores(HardwarePush(s, cpu), IRET_AT, cpu.gpr, push);
    forall r: Reg
      ensures p[FRAME_AT + Member(r)] == cpu.gpr[r]
    {
      assert p[IRET_AT - 1 - (14 - Member(r))] == cpu.gpr[push[14 - Member(r)]];
    }
  }

  // Two stacks hold the same frame at the top.
  predicate SameFrame(s: Stack, t: Stack) {
    forall i :: FRAME_AT <= i < |s| ==> t[i] == s[i]
  }

  // The stack after the handler has used it below the frame.
  function Scribble(junk: Stack, s: Stack): (r: Stack)
    ensures SameFrame(s, r)
  {
    junk[..FRAME_AT] + s[FRAME_AT..]
  }

  // What is restored is what was saved, from any stack that still holds the frame.
  lemma RestoreSave(s: Stack, cpu: Cpu, t: Stack)
    requires cpu.Complete() && SameFrame(Save(s, cpu), t)
    ensures Restore(t, FRAME_AT) == cpu
  {
    OrdersAreOpposite();
    HardwareWords(s, cpu, PUSH_ORDER, Save(s, cpu));
    PopAfterPush(HardwarePush(s, cpu), IRET_AT, cpu.gpr, PUSH_ORDER, POP_ORDER, t);
  }

  lemma PopOrderLength()
    ensures |POP_ORDER| == 15
  {
  }

  lemma {:induction false} PopSame(s: Stack, t: Stack, sp: nat, gpr: map<Reg, nat>, order: seq<Reg>)
    requires sp + |order| <= |s| && forall i :: sp <= i < sp + |order| ==> t[i] == s[i]
    ensures Pop(t, sp, gpr, order) == Pop(s, sp, gpr, order)
    decreases |order|
  {
    if order != [] {
      PopSame(s, t, sp + 1, gpr[order[0] := s[sp]], order[1..]);
    }
  }

  // movq $0x1B, 152(%rsp): the stack segment word of a frame.
  function ForceSs(s: Stack): Stack {
    s[IRET_AT + 4 := 0x1B]
  }

  lemma RestoreForced(s: Stack)
    ensures Restore(ForceSs(s), FRAME_AT) == Restore(s, FRAME_AT).(ss := 0x1B)
  {
    PopOrderLength();
    PopSame(s, ForceSs(s), FRAME_AT, map[], POP_ORDER);
  }

  // The frame at the top of the stack is that of a task interrupted in ring 3.
  predicate UserFrame(s: Stack) {
    s[IRET_AT + 1] % 4 == 3
  }

  // A register file restored from such a frame is complete.
  lemma RestoreComplete(s: Stack)
    requires UserFrame(s)
    ensures Restore(s, FRAME_AT).Complete()
  {
    OrdersAreOpposite();
    PopOrderLength();
    PopLoads(s, FRAME_AT, map[], POP_ORDER);
    PopOfAll(Pop(s, FRAME_AT, map[], POP_ORDER), POP_ORDER);
  }

  lemma PopOfAll(g: map<Reg, nat>, order: seq<Reg>)
    requires forall r: Reg :: r in order
    requires forall k :: 0 <= k < |order| ==> order[k] in g
    ensures forall r: Reg :: r in g
  {
    forall r: Reg
      ensures r in g
    {
      assert r in order;
    }
  }
}

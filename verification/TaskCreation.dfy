/**
 task_create_from_elf: a new address space with the program's image, a user stack, and a kernel stack
 whose top holds the context from which the task will first be resumed.
 */
module TaskCreation {
  import opened Prelude
  import FP = FramePool
  import opened PageWords
  import opened PageTables
  import opened SpaceState
  import opened AddressSpaces
  import opened ElfFormat
  import opened ElfImage
  import opened ElfOutcome
  import opened ElfLoader
  import opened TaskBills

  const CONTEXT_WORDS: nat := 20

  // The words of cpu_context_t, lowest address first: r15 to rax, then rip, cs, rflags, rsp, ss.
  function FirstContext(entry: nat): (c: seq<nat>)
    ensures |c| == CONTEXT_WORDS
  {
    [0, 0, 0, 0, 0, 0, 0, 0, 0, 0, 0, 0, 0, 0, 0,
     entry, 0x23, 0x202, USER_STACK_VADDR + USER_STACK_PAGES * PAGE_SIZE, 0x1B]
  }

  // Frame numbers of the task's PML4 and of the bottom of its kernel stack, and its program's entry.
  datatype Task = Task(pml4: nat, stack: nat, entry: nat)

  // The last 20 words of the kernel stack are the first context.
  ghost predicate Primed(s: Snap, stack: nat, entry: nat) {
    var top := stack + KERNEL_STACK_PAGES - 1;
    && (forall f :: InBlock(stack, KERNEL_STACK_PAGES, f) ==> f in s.data)
    && top in s.t.tab && |s.t.tab[top]| == 512
    && s.t.tab[top][512 - CONTEXT_WORDS..] == FirstContext(entry)
  }

  // Everything a finished task needs from memory: its space, its image, its stack unless the image
  // occupies the stack's pages, and its first context.
  ghost predicate Ready(s: Snap, task: Task, file: seq<nat>) {
    && Readable(file) && HeaderOk(file) && task.entry == EntryPoint(file)
    && IsRoot(s.t, task.pml4) && task.pml4 != s.t.kernel
    && task.stack != 0 && Primed(s, task.stack, task.entry) && OwnPages(s, task)
    && var segs := Segments(file, ProgramCount(file));
       && AllLoaded(s, task.pml4, file, segs)
       && SegmentOk([], StackSegment())
       && (Loaded(s, task.pml4, [], StackSegment()) || exists v :: InSegment(StackSegment(), v) && Covered(segs, v))
  }

  const STACK_POINTER: nat := 18  // where FirstContext has rsp

  // The 32 KiB below the stack pointer with which the task starts may be read, written and run from ring 3.
  ghost predicate StackUsable(s: Snap, task: Task) {
    forall d: nat :: 0 < d <= 0x8000 ==> StackByteUsable(s, task, d)
  }

  ghost predicate StackByteUsable(s: Snap, task: Task, d: nat) {
    var rsp := FirstContext(task.entry)[STACK_POINTER];
    d <= rsp && Rights(s.t.tab, task.pml4, PageOf(rsp - d)) == Some(FULL)
  }

  lemma StackIsUsable(s: Snap, task: Task)
    requires Accessible(s, task.pml4, StackSegment())
    ensures StackUsable(s, task)
  {
    forall d: nat | 0 < d <= 0x8000
      ensures StackByteUsable(s, task, d)
    {
      assert ByteAccessible(s, task.pml4, StackSegment(), 0x8000 - d);
    }
  }

  // Every byte of the image, and of the stack unless the image occupies its pages, may be used as it should be.
  ghost predicate Usable(s: Snap, task: Task, file: seq<nat>)
    requires Loadable(file)
  {
    var segs := Segments(file, ProgramCount(file));
    && AllAccessible(s, task.pml4, segs)
    && (StackUsable(s, task) || exists v :: InSegment(StackSegment(), v) && Covered(segs, v))
  }

  // A ready task is usable, at its creation and ever after.
  lemma ReadyIsUsable(s: Snap, task: Task, file: seq<nat>)
    requires Good(s) && Ready(s, task, file)
    ensures Usable(s, task, file)
  {
    AllLoadedAreAccessible(s, task.pml4, file, Segments(file, ProgramCount(file)));
    if Loaded(s, task.pml4, [], StackSegment()) {
      LoadedIsAccessible(s, task.pml4, [], StackSegment());
      StackIsUsable(s, task);
    }
  }

  // A loadable segment of the file.
  ghost predicate IsSegment(file: seq<nat>, seg: Segment) {
    Loadable(file) && seg.kind == PT_LOAD && seg in Segments(file, ProgramCount(file))
  }

  lemma ReadySegment(s: Snap, task: Task, file: seq<nat>, seg: Segment)
    requires Good(s) && Ready(s, task, file) && IsSegment(file, seg)
    ensures SegmentOk(file, seg) && Loaded(s, task.pml4, file, seg) && Accessible(s, task.pml4, seg)
  {
    var segs := Segments(file, ProgramCount(file));
    var k :| 0 <= k < |segs| && segs[k] == seg;
    assert Loaded(s, task.pml4, file, segs[k]);
    LoadedIsAccessible(s, task.pml4, file, segs[k]);
  }

  // The pages of the task's lower half are frames of data, and not those of its kernel stack.
  ghost predicate OwnPages(s: Snap, task: Task) {
    && (forall v: VPage :: v.i4 < 256 && Lookup(s.t.tab, task.pml4, v).Some? ==>
          OwnFrame(s, task, Lookup(s.t.tab, task.pml4, v).value.frame))
    && OneEach(s, task)
  }

  // No two of those pages are the same frame.
  ghost predicate OneEach(s: Snap, task: Task) {
    forall u, v, f :: UsesAt(s, task, u, f) && UsesAt(s, task, v, f) ==> u == v
  }

  ghost predicate OwnFrame(s: Snap, task: Task, f: nat) {
    f in s.data && !InBlock(task.stack, KERNEL_STACK_PAGES, f)
  }

  lemma StaysPrimed(s: Snap, s': Snap, stack: nat, entry: nat)
    requires Primed(s, stack, entry) && Kept(s, s')
    ensures Primed(s', stack, entry)
  {
    assert InBlock(stack, KERNEL_STACK_PAGES, stack + KERNEL_STACK_PAGES - 1);
  }

  lemma AllStayLoaded(s: Snap, s': Snap, root: nat, file: seq<nat>, segs: seq<Segment>)
    requires AllOk(file, segs) && AllLoaded(s, root, file, segs) && Kept(s, s') && GrowsOnly(s, s', root)
    ensures AllLoaded(s', root, file, segs)
  {
    forall i | 0 <= i < |segs| && segs[i].kind == PT_LOAD
      ensures Loaded(s', root, file, segs[i])
    {
      StillLoaded(s, s', root, file, segs[i]);
    }
  }

  // The work for another task leaves a finished task ready.
  lemma StaysReady(s: Snap, s': Snap, task: Task, file: seq<nat>)
    requires Ready(s, task, file) && Kept(s, s') && Unmoved(s, s')
    ensures Ready(s', task, file)
  {
    assert GrowsOnly(s, s', task.pml4);
    AllStayLoaded(s, s', task.pml4, file, Segments(file, ProgramCount(file)));
    StaysPrimed(s, s', task.stack, task.entry);
    StaysOwn(s, s', task);
    if Loaded(s, task.pml4, [], StackSegment()) {
      StillLoaded(s, s', task.pml4, [], StackSegment());
    }
  }

  lemma StaysOwn(s: Snap, s': Snap, task: Task)
    requires IsRoot(s.t, task.pml4) && OwnPages(s, task) && Kept(s, s') && Unmoved(s, s')
    ensures OwnPages(s', task)
  {
    forall v: VPage | v.i4 < 256 && Lookup(s'.t.tab, task.pml4, v).Some?
      ensures OwnFrame(s', task, Lookup(s'.t.tab, task.pml4, v).value.frame)
    {
      assert OwnFrame(s, task, Lookup(s.t.tab, task.pml4, v).value.frame);
    }
    StaysOneEach(s, s', task);
  }

  lemma StaysOneEach(s: Snap, s': Snap, task: Task)
    requires IsRoot(s.t, task.pml4) && OneEach(s, task) && Unmoved(s, s')
    ensures OneEach(s', task)
  {
    forall u, v, f | UsesAt(s', task, u, f) && UsesAt(s', task, v, f)
      ensures u == v
    {
      assert UsesAt(s, task, u, f) && UsesAt(s, task, v, f);
    }
  }

  // Kept, with the map of `root` only growing and no other map changing.
  ghost predicate Builds(s: Snap, s': Snap, root: nat) {
    Kept(s, s') && GrowsOnly(s, s', root) && OthersUnmoved(s, s', root)
  }

  // The user stack.  The result of mapping it is not looked at: only the first `done` pages have been mapped if
  // the next one was mapped already or the frames for its tables ran out.
  method MapUserStack(vmm: Vmm, root: nat) returns (ok: bool, ghost done: nat)
    requires vmm.Valid() && IsRoot(vmm.Now().t, root) && root != vmm.kernel
    modifies vmm`mem, vmm`lab, vmm`data, vmm.pmm, vmm.pmm.bitmap
    ensures vmm.Valid() && vmm.pmm.bitmap == old(vmm.pmm.bitmap)
    ensures Builds(old(vmm.Now()), vmm.Now(), root) && Held(old(vmm.Now()), vmm.Now(), root) && SegmentOk([], StackSegment())
    ensures ok <==> !old(vmm.Stock()).Refuses(USER_STACK_PAGES)
    ensures if ok then StackMapped(old(vmm.Now()), old(vmm.Stock()), vmm.Stock(), root, done)
            else vmm.Stock() == old(vmm.Stock())
    ensures ok && done == USER_STACK_PAGES ==> Loaded(vmm.Now(), root, [], StackSegment())
  {
    ghost var before, first := vmm.Now(), vmm.Stock();
    StackSegmentShape();
    var seg := StackSegment();
    var r := vmm.AllocBlock(USER_STACK_PAGES);
    if r.None? {
      GrownReflexive(before);
      return false, 0;
    }
    CopyStages(vmm.mem, vmm.mem, r.value, [], seg);
    done := PlaceStack(vmm, root, r.value, before, first);
    return true, done;
  }

  // The stack's frames have been taken; they are mapped as far as that goes.
  method PlaceStack(vmm: Vmm, root: nat, b: nat, ghost before: Snap, ghost first: FP.Stock) returns (ghost done: nat)
    requires vmm.Valid() && Good(before) && IsRoot(before.t, root) && root != vmm.kernel && SegmentOk([], StackSegment())
    requires Extends(before, vmm.Now(), b, USER_STACK_PAGES) && Staged(vmm.mem, b, [], StackSegment())
    requires FP.Took(first, vmm.Stock(), USER_STACK_PAGES)
    modifies vmm`mem, vmm`lab, vmm`data, vmm.pmm, vmm.pmm.bitmap
    ensures vmm.Valid() && vmm.pmm.bitmap == old(vmm.pmm.bitmap)
    ensures Builds(before, vmm.Now(), root) && Held(before, vmm.Now(), root)
    ensures StackMapped(before, first, vmm.Stock(), root, done)
    ensures done == USER_STACK_PAGES ==> Loaded(vmm.Now(), root, [], StackSegment())
  {
    ghost var staged, second := vmm.Now(), vmm.Stock();
    StackSegmentShape();
    var seg := StackSegment();
    ExtendsStep(before, staged, b, USER_STACK_PAGES);
    var mapped;
    mapped, done := MapSegment(vmm, seg, root, b);
    StagedThenMapped(before, staged, vmm.Now(), SegmentSpan(root, seg, b), done, USER_STACK_PAGES);
    StagedThenPaid(before, first, staged, second, vmm.Now(), vmm.Stock(), root, seg, done, mapped);
    StackIsMapped(before, first, second, vmm.Now(), vmm.Stock(), root, b, done);
    if mapped {
      MappedIsLoaded(staged, vmm.Now(), root, b, [], seg, SegmentSpan(root, seg, b));
    }
  }

  // memset and the five stores that fill in cpu_context_t at the top of the kernel stack.
  method WriteContext(vmm: Vmm, top: nat, entry: nat)
    requires top in vmm.mem && |vmm.mem[top]| == 512
    modifies vmm`mem
    ensures top in vmm.mem && |vmm.mem[top]| == 512
    ensures vmm.mem == old(vmm.mem)[top := vmm.mem[top]]
    ensures vmm.mem[top][512 - CONTEXT_WORDS..] == FirstContext(entry)
  {
    var page: seq<nat> := vmm.mem[top][..512 - CONTEXT_WORDS] + FirstContext(entry);
    vmm.mem := vmm.mem[top := page];
  }

  // The frames of the kernel stack at `stack` are all free.
  ghost predicate FreeStack(s: Snap, stack: nat) {
    forall f: nat :: InBlock(stack, KERNEL_STACK_PAGES, f) ==> f < |s.bits| && !s.bits[f]
  }

  lemma FreeEarlier(a: Snap, b: Snap, stack: nat)
    requires Kept(a, b) && FreeStack(b, stack)
    ensures FreeStack(a, stack)
  {
  }

  lemma NotFrameZero(s: Snap, stack: nat)
    requires Good(s) && FreeStack(s, stack)
    ensures stack != 0
  {
    assert InBlock(stack, KERNEL_STACK_PAGES, stack);
  }

  // The kernel stack, with the first context at its top.
  method MakeKernelStack(vmm: Vmm, entry: nat) returns (r: Option<nat>)
    requires vmm.Valid()
    modifies vmm`mem, vmm`data, vmm.pmm, vmm.pmm.bitmap
    ensures vmm.Valid() && vmm.pmm.bitmap == old(vmm.pmm.bitmap)
    ensures Kept(old(vmm.Now()), vmm.Now()) && Unmoved(old(vmm.Now()), vmm.Now())
    ensures r.None? <==> old(vmm.Stock()).Refuses(KERNEL_STACK_PAGES)
    ensures FP.Took(old(vmm.Stock()), vmm.Stock(), if r.Some? then KERNEL_STACK_PAGES else 0)
    ensures r.None? ==> vmm.Stock() == old(vmm.Stock())
    ensures r.Some? ==> Primed(vmm.Now(), r.value, entry) && FreeStack(old(vmm.Now()), r.value)
  {
    ghost var before := vmm.Now();
    r := vmm.AllocBlock(KERNEL_STACK_PAGES);
    if r.None? {
      return;
    }
    ghost var taken := vmm.Now();
    var top := r.value + KERNEL_STACK_PAGES - 1;
    assert InBlock(r.value, KERNEL_STACK_PAGES, top);
    WriteContext(vmm, top, entry);
    CopyIntoData(before, taken, vmm.mem, r.value, KERNEL_STACK_PAGES);
    ExtendsStep(before, vmm.Now(), r.value, KERNEL_STACK_PAGES);
  }

  // The image has been loaded into a space that was empty, and paid for.
  ghost predicate Imaged(empty: Snap, first: FP.Stock, s: Snap, a: FP.Stock, root: nat, file: seq<nat>)
    requires Loadable(file)
  {
    && NoTables(empty, root) && Kept(empty, s) && Held(empty, s, root)
    && AllLoaded(s, root, file, Segments(file, ProgramCount(file)))
    && Occupies(empty, s, root, file, ProgramCount(file))
    && Billed(empty, first, s, a, root, FilePages(file, ProgramCount(file)))
  }

  lemma ImagedRefused(empty: Snap, first: FP.Stock, s: Snap, a: FP.Stock, root: nat, file: seq<nat>)
    requires Loadable(file) && Imaged(empty, first, s, a, root, file) && a.Refuses(USER_STACK_PAGES)
    ensures PartDenied(first, a, file, BillBefore(file, ProgramCount(file)) - 2)
  {
    NoUserStack(empty, first, s, a, root, file);
  }

  lemma ImagedStacked(empty: Snap, first: FP.Stock, s: Snap, a: FP.Stock, b: FP.Stock, c: FP.Stock, root: nat, file: seq<nat>, done: nat)
    returns (taken: nat)
    requires Loadable(file) && Imaged(empty, first, s, a, root, file) && StackMapped(s, a, b, root, done)
    requires if b.Refuses(KERNEL_STACK_PAGES) then c == b else FP.Took(b, c, KERNEL_STACK_PAGES)
    ensures if b.Refuses(KERNEL_STACK_PAGES) then PartDenied(first, c, file, taken)
            else FP.Took(first, c, TaskBill(file) - 2) && done == StackRoom(file)
  {
    taken := StackTaken(empty, first, s, a, b, c, root, file, done);
  }

  // The stacks, after the image has been loaded into the space.  `empty` and `first` are the space and the stock
  // before the image.
  method FinishTask(vmm: Vmm, file: seq<nat>, root: nat, entry: nat, ghost empty: Snap, ghost first: FP.Stock)
    returns (r: Option<Task>, ghost taken: nat)
    requires vmm.Valid() && Loadable(file) && entry == EntryPoint(file)
    requires IsRoot(vmm.Now().t, root) && root != vmm.kernel && Imaged(empty, first, vmm.Now(), vmm.Stock(), root, file)
    modifies vmm`mem, vmm`lab, vmm`data, vmm.pmm, vmm.pmm.bitmap
    ensures vmm.Valid() && vmm.pmm.bitmap == old(vmm.pmm.bitmap)
    ensures Kept(old(vmm.Now()), vmm.Now()) && OthersUnmoved(old(vmm.Now()), vmm.Now(), root)
    ensures r.None? ==> PartDenied(first, vmm.Stock(), file, taken)
    ensures r.Some? ==> FP.Took(first, vmm.Stock(), TaskBill(file) - 2)
    ensures r.Some? ==> r.value.pml4 == root && Ready(vmm.Now(), r.value, file)
    ensures r.Some? ==> FreeStack(empty, r.value.stack) && FreePages(empty, vmm.Now(), root)
  {
    ghost var loaded, second := vmm.Now(), vmm.Stock();
    var ok;
    ghost var done;
    ok, done := MapUserStack(vmm, root);
    if !ok {
      ImagedRefused(empty, first, loaded, second, root, file);
      return None, BillBefore(file, ProgramCount(file)) - 2;
    }
    ghost var stacked, third := vmm.Now(), vmm.Stock();
    var kstack := MakeKernelStack(vmm, entry);
    ThenUnmoved(loaded, stacked, vmm.Now(), root);
    taken := ImagedStacked(empty, first, loaded, second, third, vmm.Stock(), root, file, done);
    if kstack.None? {
      return None, taken;
    }
    TaskIsReady(empty, first, loaded, second, stacked, vmm.Now(), file, Task(root, kstack.value, entry), done);
    return Some(Task(root, kstack.value, entry)), taken;
  }

  // The space is empty, the image is loaded, the user stack is mapped, the kernel stack is made: a task.
  lemma TaskIsReady(empty: Snap, first: FP.Stock, loaded: Snap, second: FP.Stock, stacked: Snap, s: Snap, file: seq<nat>,
                    task: Task, done: nat)
    requires Loadable(file) && task.entry == EntryPoint(file) && Imaged(empty, first, loaded, second, task.pml4, file)
    requires Good(stacked) && IsRoot(stacked.t, task.pml4) && IsRoot(s.t, task.pml4) && task.pml4 != s.t.kernel
    requires Good(loaded) && Builds(loaded, stacked, task.pml4) && Held(loaded, stacked, task.pml4)
    requires Kept(loaded, s) && GrowsOnly(loaded, s, task.pml4) && Kept(stacked, s) && Unmoved(stacked, s)
    requires done == StackRoom(file) && GrowsOnly(stacked, s, task.pml4) && SegmentOk([], StackSegment())
    requires done == USER_STACK_PAGES ==> Loaded(stacked, task.pml4, [], StackSegment())
    requires Primed(s, task.stack, task.entry) && FreeStack(stacked, task.stack)
    ensures Ready(s, task, file) && FreeStack(empty, task.stack) && FreePages(empty, s, task.pml4)
  {
    KeptTransitive(empty, loaded, stacked);
    HeldTransitive(empty, loaded, stacked, task.pml4);
    FreeEarlier(empty, stacked, task.stack);
    NotFrameZero(stacked, task.stack);
    AllStayLoaded(loaded, s, task.pml4, file, Segments(file, ProgramCount(file)));
    OwnsHeld(empty, stacked, s, task);
    StackStands(stacked, s, task.pml4, file, done);
  }

  // The user stack reads as zeros, unless the image covers one of its pages.
  lemma StackStands(s: Snap, s': Snap, root: nat, file: seq<nat>, done: nat)
    requires Loadable(file) && done == StackRoom(file) && Kept(s, s') && GrowsOnly(s, s', root) && SegmentOk([], StackSegment())
    requires done == USER_STACK_PAGES ==> Loaded(s, root, [], StackSegment())
    ensures Loaded(s', root, [], StackSegment())
            || exists v :: InSegment(StackSegment(), v) && Covered(Segments(file, ProgramCount(file)), v)
  {
    if done == USER_STACK_PAGES {
      StillLoaded(s, s', root, [], StackSegment());
    } else {
      StackIsLow(done);
      StackRoomEnds(file, done);
      assert InSegment(StackSegment(), StackPage(done)) && Covered(Segments(file, ProgramCount(file)), StackPage(done));
    }
  }

  // The pages of the lower half of `root` in s' are frames that were free in s.
  ghost predicate FreePages(s: Snap, s': Snap, root: nat) {
    forall v: VPage :: v.i4 < 256 && Lookup(s'.t.tab, root, v).Some? ==> Free(s, Lookup(s'.t.tab, root, v).value.frame)
  }

  // a: the space is empty; b: its pages are mapped; c: the kernel stack has been taken.
  lemma OwnsHeld(a: Snap, b: Snap, c: Snap, task: Task)
    requires Good(b) && IsRoot(b.t, task.pml4) && NoTables(a, task.pml4) && Held(a, b, task.pml4)
    requires FreeStack(b, task.stack) && Kept(b, c) && Unmoved(b, c)
    ensures OwnPages(c, task) && FreePages(a, c, task.pml4)
  {
    NoTablesIsEmpty(a, task.pml4);
    forall v: VPage | v.i4 < 256 && Lookup(c.t.tab, task.pml4, v).Some?
      ensures OwnFrame(c, task, Lookup(c.t.tab, task.pml4, v).value.frame)
      ensures Free(a, Lookup(c.t.tab, task.pml4, v).value.frame)
    {
      assert NewData(a, b, Lookup(b.t.tab, task.pml4, v).value.frame);
    }
    HeldOneEach(a, b, task);
    StaysOneEach(b, c, task);
  }

  lemma HeldOneEach(a: Snap, b: Snap, task: Task)
    requires LowerHalfEmpty(a, task.pml4) && Spread(a, b, task.pml4)
    ensures OneEach(b, task)
  {
    forall u, v, f | UsesAt(b, task, u, f) && UsesAt(b, task, v, f)
      ensures u == v
    {
      assert Added(a, b, task.pml4, u, f) && Added(a, b, task.pml4, v, f);
    }
  }

  lemma ThenUnmoved(a: Snap, b: Snap, c: Snap, root: nat)
    requires IsRoot(a.t, root) && Builds(a, b, root) && Kept(b, c) && Unmoved(b, c)
    ensures Builds(a, c, root) && GrowsOnly(b, c, root)
  {
    assert IsRoot(b.t, root);
    assert GrowsOnly(b, c, root);
    forall r, v | IsRoot(b.t, r) && r != root
      ensures Lookup(c.t.tab, r, v) == Lookup(b.t.tab, r, v)
    {
    }
    SpaceTransitive(a, b, c, root);
  }

  // Work in a space that did not exist before leaves the spaces that did unmoved.
  lemma OldSpacesUnmoved(a: Snap, b: Snap, c: Snap, root: nat)
    requires Kept(a, b) && Unmoved(a, b) && !IsRoot(a.t, root)
    requires Kept(b, c) && OthersUnmoved(b, c, root)
    ensures Kept(a, c) && Unmoved(a, c)
  {
    KeptTransitive(a, b, c);
    forall r, v | IsRoot(a.t, r)
      ensures Lookup(c.t.tab, r, v) == Lookup(a.t.tab, r, v)
    {
      assert IsRoot(b.t, r) && r != root;
    }
  }

  lemma UnmovedTwice(a: Snap, b: Snap, c: Snap)
    requires Kept(a, b) && Unmoved(a, b) && Kept(b, c) && Unmoved(b, c)
    ensures Kept(a, c) && Unmoved(a, c)
  {
    KeptTransitive(a, b, c);
    forall r, v | IsRoot(a.t, r)
      ensures Lookup(c.t.tab, r, v) == Lookup(a.t.tab, r, v)
    {
      assert IsRoot(b.t, r);
    }
  }

  // The space sees the whole of the kernel's upper half.
  ghost predicate SeesKernel(s: Snap, root: nat) {
    forall v: VPage :: 256 <= v.i4 ==> Lookup(s.t.tab, root, v) == Lookup(s.t.tab, s.t.kernel, v)
  }

  lemma StaysOpen(a: Snap, b: Snap, c: Snap, root: nat)
    requires Good(b) && Good(c) && Opens(a, b, root) && b.t.kernel == a.t.kernel
    requires Kept(b, c) && OthersUnmoved(b, c, root)
    ensures SeesKernel(c, root)
  {
    forall v: VPage | 256 <= v.i4
      ensures Lookup(c.t.tab, root, v) == Lookup(c.t.tab, c.t.kernel, v)
    {
      StaysOpenAt(a, b, c, root, v);
    }
  }

  lemma StaysOpenAt(a: Snap, b: Snap, c: Snap, root: nat, v: VPage)
    requires Good(b) && Good(c) && Opens(a, b, root) && b.t.kernel == a.t.kernel && 256 <= v.i4
    requires Kept(b, c) && OthersUnmoved(b, c, root)
    ensures Lookup(c.t.tab, root, v) == Lookup(c.t.tab, c.t.kernel, v)
  {
    assert IsRoot(b.t, b.t.kernel);
    assert Entry(c.t.tab, root, v.i4) == Entry(b.t.tab, root, v.i4);
    if Present(Entry(c.t.tab, root, v.i4)) {
      UpperHalfIsShared(c.t, root, v);
    }
  }

  // task_create_from_elf.  Whether or not it succeeds, no page of an existing space changes.  When it does, the
  // task is ready, shares the kernel's half and has taken exactly the frames of its bill; when it does not, the
  // file is at fault, or there were too few frames, or none in one piece for the block that was due.
  method CreateTask(vmm: Vmm, file: seq<nat>) returns (r: Option<Task>)
    requires vmm.Valid() && Bytes(file) && Readable(file)
    modifies vmm`mem, vmm`lab, vmm`data, vmm.pmm, vmm.pmm.bitmap
    ensures vmm.Valid() && vmm.pmm.bitmap == old(vmm.pmm.bitmap)
    ensures Kept(old(vmm.Now()), vmm.Now()) && Unmoved(old(vmm.Now()), vmm.Now())
    ensures Charged(old(vmm.Stock()), vmm.Stock(), file, r.Some?)
    ensures r.Some? ==> !IsRoot(old(vmm.Now().t), r.value.pml4)
                        && Ready(vmm.Now(), r.value, file) && SeesKernel(vmm.Now(), r.value.pml4)
                        && Usable(vmm.Now(), r.value, file)
                        && FreeStack(old(vmm.Now()), r.value.stack) && FreePages(old(vmm.Now()), vmm.Now(), r.value.pml4)
  {
    ghost var before, first := vmm.Now(), vmm.Stock();
    GrownReflexive(before);
    GrownIsUnmoved(before, before);
    var space := OpenSpace(vmm);
    if space.None? {
      assert Denied(first, vmm.Stock(), file, first.Avail());
      return None;
    }
    ghost var vacant, second := vmm.Now(), vmm.Stock();
    ghost var taken;
    r, taken := PopulateSpace(vmm, file, space.value);
    OldSpacesUnmoved(before, vacant, vmm.Now(), space.value);
    StaysOpen(before, vacant, vmm.Now(), space.value);
    if r.Some? {
      FreeEarlier(before, vacant, r.value.stack);
      FreePagesEarlier(before, vacant, vmm.Now(), space.value);
      ReadyIsUsable(vmm.Now(), r.value, file);
    } else {
      PartIsDenied(first, second, vmm.Stock(), file, taken);
    }
  }

  lemma FreePagesEarlier(a: Snap, b: Snap, c: Snap, root: nat)
    requires Kept(a, b) && FreePages(b, c, root)
    ensures FreePages(a, c, root)
  {
  }

  // The record of the task (its page is only ever addressed by the kernel) and its PML4.
  method OpenSpace(vmm: Vmm) returns (r: Option<nat>)
    requires vmm.Valid()
    modifies vmm`mem, vmm`lab, vmm`data, vmm.pmm, vmm.pmm.bitmap
    ensures vmm.Valid() && vmm.pmm.bitmap == old(vmm.pmm.bitmap)
    ensures Kept(old(vmm.Now()), vmm.Now()) && Unmoved(old(vmm.Now()), vmm.Now())
    ensures r.Some? <==> 2 <= old(vmm.Stock()).Avail()
    ensures FP.Took(old(vmm.Stock()), vmm.Stock(), Min(2, old(vmm.Stock()).Avail()))
    ensures r.Some? ==> Opens(old(vmm.Now()), vmm.Now(), r.value)
  {
    ghost var before, first := vmm.Now(), vmm.Stock();
    GrownReflexive(before);
    GrownIsUnmoved(before, before);
    FP.RefusesOne(vmm.Stock());
    var record := vmm.AllocBlock(1);
    if record.None? {
      return None;
    }
    ghost var recorded, second := vmm.Now(), vmm.Stock();
    ExtendsStep(before, recorded, record.value, 1);
    r := vmm.NewSpace();
    TwoTaken(first, second, vmm.Stock(), r.Some?);
    if r.Some? {
      UnmovedTwice(before, recorded, vmm.Now());
    }
  }

  lemma TwoTaken(a: FP.Stock, b: FP.Stock, c: FP.Stock, both: bool)
    requires FP.Took(a, b, 1) && FP.Took(b, c, if both then 1 else 0) && (both <==> 0 < b.Avail())
    ensures (both <==> 2 <= a.Avail()) && FP.Took(a, c, Min(2, a.Avail()))
  {
    FP.TookTwice(a, b, c, 1, if both then 1 else 0);
  }

  // load_elf and the two stacks, in a space whose lower half is empty.
  method PopulateSpace(vmm: Vmm, file: seq<nat>, root: nat) returns (r: Option<Task>, ghost taken: nat)
    requires vmm.Valid() && Bytes(file) && Readable(file)
    requires IsRoot(vmm.Now().t, root) && root != vmm.kernel && NoTables(vmm.Now(), root)
    modifies vmm`mem, vmm`lab, vmm`data, vmm.pmm, vmm.pmm.bitmap
    ensures vmm.Valid() && vmm.pmm.bitmap == old(vmm.pmm.bitmap)
    ensures Kept(old(vmm.Now()), vmm.Now()) && OthersUnmoved(old(vmm.Now()), vmm.Now(), root)
    ensures r.None? ==> PartDenied(old(vmm.Stock()), vmm.Stock(), file, taken)
    ensures r.Some? ==> Makeable(file) && FP.Took(old(vmm.Stock()), vmm.Stock(), TaskBill(file) - 2)
    ensures r.Some? ==> r.value.pml4 == root && Ready(vmm.Now(), r.value, file)
    ensures r.Some? ==> FreeStack(old(vmm.Now()), r.value.stack) && FreePages(old(vmm.Now()), vmm.Now(), root)
  {
    ghost var empty, first := vmm.Now(), vmm.Stock();
    NoTablesIsEmpty(empty, root);
    taken := 0;
    var ok, entry;
    ghost var at, how;
    ok, entry, at, how := LoadElf(vmm, file, root);
    if !ok {
      if HeaderOk(file) {
        taken := LoadDenied(empty, first, vmm.Now(), vmm.Stock(), root, file, at, how);
      }
      return None, taken;
    }
    ghost var loaded := vmm.Now();
    NoConflict(empty, root, file);
    r, taken := FinishTask(vmm, file, root, entry, empty, first);
    SpaceTransitive(empty, loaded, vmm.Now(), root);
  }

  // ---- Any number of tasks ----

  // The frame is part of the task's kernel stack, or mapped in its lower half.
  ghost predicate Uses(s: Snap, task: Task, f: nat) {
    InBlock(task.stack, KERNEL_STACK_PAGES, f) || exists v: VPage :: UsesAt(s, task, v, f)
  }

  ghost predicate UsesAt(s: Snap, task: Task, v: VPage, f: nat) {
    v.i4 < 256 && Lookup(s.t.tab, task.pml4, v).Some? && Lookup(s.t.tab, task.pml4, v).value.frame == f
  }

  // Two tasks share neither their space nor any frame of their memory or their kernel stacks.
  ghost predicate Apart(s: Snap, a: Task, b: Task) {
    a.pml4 != b.pml4 && forall f: nat :: !(Uses(s, a, f) && Uses(s, b, f))
  }

  // If the task was made, it is ready and sees the kernel's half.
  ghost predicate Stands(s: Snap, task: Option<Task>, file: seq<nat>) {
    task.Some? ==> Ready(s, task.value, file) && SeesKernel(s, task.value.pml4)
  }

  ghost predicate ApartIfMade(s: Snap, a: Option<Task>, b: Option<Task>) {
    a.Some? && b.Some? ==> Apart(s, a.value, b.value)
  }

  // Each task that was made stands, apart from every other.
  ghost predicate AllReady(s: Snap, tasks: seq<Option<Task>>, files: seq<seq<nat>>)
    requires |tasks| <= |files|
  {
    && (forall i :: 0 <= i < |tasks| ==> Stands(s, tasks[i], files[i]))
    && (forall i, j :: 0 <= i < j < |tasks| ==> ApartIfMade(s, tasks[i], tasks[j]))
  }

  // The stocks before and after each creation, with its price paid or its reason given in between.
  ghost predicate Accounts(stocks: seq<FP.Stock>, tasks: seq<Option<Task>>, files: seq<seq<nat>>)
    requires |tasks| <= |files|
  {
    && |stocks| == |tasks| + 1
    && forall i :: 0 <= i < |tasks| ==> Charged(stocks[i], stocks[i + 1], files[i], tasks[i].Some?)
  }

  lemma OneMoreAccount(stocks: seq<FP.Stock>, tasks: seq<Option<Task>>, files: seq<seq<nat>>, next: FP.Stock, r: Option<Task>)
    requires |tasks| < |files| && Accounts(stocks, tasks, files)
    requires Charged(stocks[|tasks|], next, files[|tasks|], r.Some?)
    ensures Accounts(stocks + [next], tasks + [r], files)
  {
  }

  lemma SameUses(s: Snap, s': Snap, task: Task, f: nat)
    requires IsRoot(s.t, task.pml4) && Unmoved(s, s')
    ensures Uses(s', task, f) <==> Uses(s, task, f)
  {
    forall v: VPage
      ensures UsesAt(s', task, v, f) <==> UsesAt(s, task, v, f)
    {
      assert Lookup(s'.t.tab, task.pml4, v) == Lookup(s.t.tab, task.pml4, v);
    }
  }

  lemma StaysApart(s: Snap, s': Snap, a: Task, b: Task)
    requires IsRoot(s.t, a.pml4) && IsRoot(s.t, b.pml4) && Unmoved(s, s') && Apart(s, a, b)
    ensures Apart(s', a, b)
  {
    forall f: nat
      ensures !(Uses(s', a, f) && Uses(s', b, f))
    {
      SameUses(s, s', a, f);
      SameUses(s, s', b, f);
    }
  }

  // The frames a task uses are data.
  lemma UsesData(s: Snap, task: Task, file: seq<nat>, f: nat)
    requires Ready(s, task, file) && Uses(s, task, f)
    ensures f in s.data
  {
    if v: VPage :| UsesAt(s, task, v, f) {
      assert OwnFrame(s, task, f);
    }
  }

  lemma StillSees(s: Snap, s': Snap, root: nat)
    requires Good(s) && IsRoot(s.t, root) && SeesKernel(s, root) && Kept(s, s') && Unmoved(s, s')
    ensures SeesKernel(s', root)
  {
    assert IsRoot(s.t, s.t.kernel);
  }

  // The task made last has only frames that nobody used before.
  lemma NewIsApart(s: Snap, s': Snap, made: Task, file: seq<nat>, next: Task)
    requires Good(s) && Ready(s, made, file) && Unmoved(s, s')
    requires !IsRoot(s.t, next.pml4) && FreeStack(s, next.stack) && FreePages(s, s', next.pml4)
    ensures Apart(s', made, next)
  {
    forall f: nat
      ensures !(Uses(s', made, f) && Uses(s', next, f))
    {
      SameUses(s, s', made, f);
      if Uses(s', made, f) {
        UsesData(s, made, file, f);
        forall v: VPage
          ensures !UsesAt(s', next, v, f)
        {
        }
      }
    }
  }

  lemma StillStands(s: Snap, s': Snap, made: Option<Task>, file: seq<nat>, r: Option<Task>)
    requires Good(s) && Stands(s, made, file) && Kept(s, s') && Unmoved(s, s') && Appears(s, s', r)
    ensures Stands(s', made, file) && ApartIfMade(s', made, r)
  {
    if made.Some? {
      StaysReady(s, s', made.value, file);
      StillSees(s, s', made.value.pml4);
      if r.Some? {
        NewIsApart(s, s', made.value, file, r.value);
      }
    }
  }

  // If a task was made between s and s', its space and its frames are new.
  ghost predicate Appears(s: Snap, s': Snap, r: Option<Task>) {
    r.Some? ==> !IsRoot(s.t, r.value.pml4) && FreeStack(s, r.value.stack) && FreePages(s, s', r.value.pml4)
  }

  lemma OneMoreReady(s: Snap, s': Snap, tasks: seq<Option<Task>>, files: seq<seq<nat>>, r: Option<Task>)
    requires |tasks| < |files| && Good(s) && AllReady(s, tasks, files) && Kept(s, s') && Unmoved(s, s')
    requires Appears(s, s', r) && Stands(s', r, files[|tasks|])
    ensures AllReady(s', tasks + [r], files)
  {
    var all := tasks + [r];
    forall i | 0 <= i < |all|
      ensures Stands(s', all[i], files[i])
    {
      if i < |tasks| {
        StillStands(s, s', tasks[i], files[i], r);
      }
    }
    forall i, j | 0 <= i < j < |all|
      ensures ApartIfMade(s', all[i], all[j])
    {
      if j < |tasks| {
        StillApart(s, s', tasks[i], files[i], tasks[j], files[j]);
      } else {
        StillStands(s, s', tasks[i], files[i], r);
      }
    }
  }

  lemma StillApart(s: Snap, s': Snap, a: Option<Task>, fileA: seq<nat>, b: Option<Task>, fileB: seq<nat>)
    requires Stands(s, a, fileA) && Stands(s, b, fileB) && ApartIfMade(s, a, b) && Unmoved(s, s')
    ensures ApartIfMade(s', a, b)
  {
    if a.Some? && b.Some? {
      StaysApart(s, s', a.value, b.value);
    }
  }

  // Creating any sequence of tasks: every image stays intact in the end, no two tasks share a frame, all see
  // the kernel, no space that existed before is touched, and every frame is accounted for.
  method CreateTasks(vmm: Vmm, files: seq<seq<nat>>) returns (tasks: seq<Option<Task>>, ghost stocks: seq<FP.Stock>)
    requires vmm.Valid() && forall i :: 0 <= i < |files| ==> Bytes(files[i]) && Readable(files[i])
    modifies vmm`mem, vmm`lab, vmm`data, vmm.pmm, vmm.pmm.bitmap
    ensures vmm.Valid() && |tasks| == |files| && AllReady(vmm.Now(), tasks, files)
    ensures Accounts(stocks, tasks, files) && stocks[0] == old(vmm.Stock()) && stocks[|files|] == vmm.Stock()
    ensures Kept(old(vmm.Now()), vmm.Now()) && Unmoved(old(vmm.Now()), vmm.Now())
  {
    ghost var start := vmm.Now();
    GrownReflexive(start);
    GrownIsUnmoved(start, start);
    tasks, stocks := [], [vmm.Stock()];
    for i := 0 to |files|
      invariant vmm.Valid() && vmm.pmm.bitmap == old(vmm.pmm.bitmap) && |tasks| == i
      invariant Kept(start, vmm.Now()) && Unmoved(start, vmm.Now()) && AllReady(vmm.Now(), tasks, files)
      invariant Accounts(stocks, tasks, files) && stocks[0] == old(vmm.Stock()) && stocks[i] == vmm.Stock()
    {
      ghost var before := vmm.Now();
      var r := CreateTask(vmm, files[i]);
      UnmovedTwice(start, before, vmm.Now());
      OneMoreReady(before, vmm.Now(), tasks, files, r);
      OneMoreAccount(stocks, tasks, files, vmm.Stock(), r);
      tasks, stocks := tasks + [r], stocks + [vmm.Stock()];
    }
  }
}

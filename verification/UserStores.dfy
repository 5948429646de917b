/**
 Stores by user programs.  Tasks that are apart do not interfere: after any interleaving of their stores each
 reads what it would read had only its own happened.
 */
module UserStores {
  import opened Prelude
  import opened PageWords
  import opened PageTables
  import opened SpaceState
  import opened PageRanges
  import opened PhysicalBytes
  import opened ElfFormat
  import opened ElfImage
  import opened TaskBills
  import opened TaskCreation

  // ---- A store to a frame ----

  // A store to a frame of data moves no page.
  lemma StoreMovesNothing(s: Snap, f: nat, off: nat, x: nat, r: nat, v: VPage)
    requires Good(s) && f in s.data && off < PAGE_SIZE && IsRoot(s.t, r)
    ensures f in s.t.tab && |s.t.tab[f]| == 512
    ensures Lookup(PutPageByte(s.t.tab, f, off, x), r, v) == Lookup(s.t.tab, r, v)
  {
    var tab := PutPageByte(s.t.tab, f, off, x);
    UnreadFrame(s.t, r, v, f, tab[f]);
    assert tab == s.t.tab[f := tab[f]];
  }

  // After such a store a program reads the new byte where its page is that frame and the offset is the
  // byte's, and what it read before everywhere else.
  lemma StoreIsRead(s: Snap, f: nat, off: nat, x: nat, r: nat, va: nat)
    requires Good(s) && f in s.data && off < PAGE_SIZE && x < 256 && IsRoot(s.t, r)
    ensures f in s.t.tab && |s.t.tab[f]| == 512
    ensures var l := Lookup(s.t.tab, r, PageOf(va));
            ReadByte(PutPageByte(s.t.tab, f, off, x), r, va) ==
            if l.Some? && l.value.frame == f && va % PAGE_SIZE == off then Some(x) else ReadByte(s.t.tab, r, va)
  {
    StoreMovesNothing(s, f, off, x, r, PageOf(va));
    var l := Lookup(s.t.tab, r, PageOf(va));
    if l.Some? {
      PutPageByteEffect(s.t.tab, f, off, x, l.value.frame, va % PAGE_SIZE);
    }
  }

  ghost function PutData(s: Snap, f: nat, off: nat, x: nat): Snap
    requires off < PAGE_SIZE && f in s.t.tab && |s.t.tab[f]| == 512
  {
    s.(t := s.t.(tab := PutPageByte(s.t.tab, f, off, x)))
  }

  lemma StoreKeeps(s: Snap, f: nat, off: nat, x: nat)
    requires Good(s) && f in s.data && off < PAGE_SIZE
    ensures f in s.t.tab && |s.t.tab[f]| == 512
    ensures Good(PutData(s, f, off, x)) && Unmoved(s, PutData(s, f, off, x))
  {
    var s' := PutData(s, f, off, x);
    ForeignChange(s.t, s'.t.tab);
    forall r, v | IsRoot(s.t, r)
      ensures Lookup(s'.t.tab, r, v) == Lookup(s.t.tab, r, v)
    {
      StoreMovesNothing(s, f, off, x, r, v);
    }
  }

  // ---- A store by a task ----

  // The processor lets a program in ring 3 write to the page: every entry of the walk allows it.
  predicate Writable(tab: Tables, root: nat, v: VPage) {
    var a := Rights(tab, root, v);
    a.Some? && a.value.user && a.value.write
  }

  // Task number `task` stores x at an address of the lower half.
  datatype Store = Store(task: nat, va: nat, x: nat)

  // The frame that a store goes to, unless it faults.
  function Target(tab: Tables, root: nat, va: nat): Option<nat> {
    var l := Lookup(tab, root, PageOf(va));
    if l.Some? && Writable(tab, root, PageOf(va)) then Some(l.value.frame) else None
  }

  ghost function Perform(s: Snap, tasks: seq<Task>, w: Store): Snap
    requires w.task < |tasks|
  {
    match Target(s.t.tab, tasks[w.task].pml4, w.va)
    case None => s
    case Some(f) => if f in s.t.tab && |s.t.tab[f]| == 512 then PutData(s, f, w.va % PAGE_SIZE, w.x) else s
  }

  ghost predicate IsStore(w: Store, tasks: seq<Task>) {
    w.task < |tasks| && w.x < 256 && PageOf(w.va).i4 < 256
  }

  ghost predicate AllStores(ws: seq<Store>, tasks: seq<Task>) {
    forall k :: 0 <= k < |ws| ==> IsStore(ws[k], tasks)
  }

  // Each task's lower half is on data of its own, and no two tasks share a frame.
  ghost predicate Isolated(s: Snap, tasks: seq<Task>) {
    && Good(s)
    && (forall i :: 0 <= i < |tasks| ==> IsRoot(s.t, tasks[i].pml4) && tasks[i].pml4 != s.t.kernel && OwnPages(s, tasks[i]))
    && (forall i, j :: 0 <= i < j < |tasks| ==> Apart(s, tasks[i], tasks[j]))
  }

  lemma ApartEitherWay(s: Snap, tasks: seq<Task>, i: nat, j: nat)
    requires Isolated(s, tasks) && i < |tasks| && j < |tasks| && i != j
    ensures Apart(s, tasks[i], tasks[j])
  {
    if j < i {
      assert Apart(s, tasks[j], tasks[i]);
    }
  }

  lemma StillOwn(s: Snap, s': Snap, task: Task)
    requires IsRoot(s.t, task.pml4) && OwnPages(s, task) && Unmoved(s, s') && s'.data == s.data
    ensures OwnPages(s', task)
  {
    forall v: VPage | v.i4 < 256 && Lookup(s'.t.tab, task.pml4, v).Some?
      ensures OwnFrame(s', task, Lookup(s'.t.tab, task.pml4, v).value.frame)
    {
      assert OwnFrame(s, task, Lookup(s.t.tab, task.pml4, v).value.frame);
    }
    StaysOneEach(s, s', task);
  }

  lemma StillIsolated(s: Snap, s': Snap, tasks: seq<Task>)
    requires Isolated(s, tasks) && Good(s') && Unmoved(s, s') && s'.data == s.data && s'.t.lab == s.t.lab
    requires s'.t.kernel == s.t.kernel
    ensures Isolated(s', tasks)
  {
    forall i | 0 <= i < |tasks|
      ensures IsRoot(s'.t, tasks[i].pml4) && OwnPages(s', tasks[i])
    {
      StillOwn(s, s', tasks[i]);
    }
    forall i, j | 0 <= i < j < |tasks|
      ensures Apart(s', tasks[i], tasks[j])
    {
      StaysApart(s, s', tasks[i], tasks[j]);
    }
  }

  // A store goes to a frame of the storing task, or faults.
  lemma TargetIsOwn(s: Snap, tasks: seq<Task>, w: Store)
    requires Isolated(s, tasks) && IsStore(w, tasks)
    ensures match Target(s.t.tab, tasks[w.task].pml4, w.va)
            case None => Perform(s, tasks, w) == s
            case Some(f) =>
              && OwnFrame(s, tasks[w.task], f) && Uses(s, tasks[w.task], f)
              && f in s.t.tab && |s.t.tab[f]| == 512 && Perform(s, tasks, w) == PutData(s, f, w.va % PAGE_SIZE, w.x)
  {
    var t := Target(s.t.tab, tasks[w.task].pml4, w.va);
    if t.Some? {
      assert UsesAt(s, tasks[w.task], PageOf(w.va), t.value);
      assert OwnFrame(s, tasks[w.task], t.value);
      StoreKeeps(s, t.value, w.va % PAGE_SIZE, w.x);
    }
  }

  lemma StepKeeps(s: Snap, tasks: seq<Task>, w: Store)
    requires Isolated(s, tasks) && IsStore(w, tasks)
    ensures Isolated(Perform(s, tasks, w), tasks) && Unmoved(s, Perform(s, tasks, w)) && Perform(s, tasks, w).t.lab == s.t.lab
  {
    TargetIsOwn(s, tasks, w);
    var t := Target(s.t.tab, tasks[w.task].pml4, w.va);
    if t.Some? {
      StoreKeeps(s, t.value, w.va % PAGE_SIZE, w.x);
      StillIsolated(s, Perform(s, tasks, w), tasks);
    }
  }

  // What a task stores where it may, it reads back.
  lemma StoreIsReadBack(s: Snap, tasks: seq<Task>, w: Store)
    requires Isolated(s, tasks) && IsStore(w, tasks) && Target(s.t.tab, tasks[w.task].pml4, w.va).Some?
    ensures ReadByte(Perform(s, tasks, w).t.tab, tasks[w.task].pml4, w.va) == Some(w.x)
  {
    TargetIsOwn(s, tasks, w);
    StoreIsRead(s, Target(s.t.tab, tasks[w.task].pml4, w.va).value, w.va % PAGE_SIZE, w.x, tasks[w.task].pml4, w.va);
  }

  // No other task reads anything else than before.
  lemma StoreStaysHome(s: Snap, tasks: seq<Task>, w: Store, i: nat, va: nat)
    requires Isolated(s, tasks) && IsStore(w, tasks) && i < |tasks| && i != w.task && PageOf(va).i4 < 256
    ensures ReadByte(Perform(s, tasks, w).t.tab, tasks[i].pml4, va) == ReadByte(s.t.tab, tasks[i].pml4, va)
  {
    TargetIsOwn(s, tasks, w);
    var t := Target(s.t.tab, tasks[w.task].pml4, w.va);
    if t.Some? {
      StoreIsRead(s, t.value, w.va % PAGE_SIZE, w.x, tasks[i].pml4, va);
      ApartEitherWay(s, tasks, w.task, i);
      assert !Uses(s, tasks[i], t.value);
      assert !UsesAt(s, tasks[i], PageOf(va), t.value);
    }
  }

  // A store changes what is read at one place of the storing task's lower half and at no other.
  lemma StoreHitsOneByte(s: Snap, tasks: seq<Task>, w: Store, va: nat)
    requires Isolated(s, tasks) && IsStore(w, tasks) && PageOf(va).i4 < 256
    ensures var root := tasks[w.task].pml4;
            ReadByte(Perform(s, tasks, w).t.tab, root, va) ==
            if Target(s.t.tab, root, w.va).Some? && PageOf(va) == PageOf(w.va) && va % PAGE_SIZE == w.va % PAGE_SIZE
            then Some(w.x) else ReadByte(s.t.tab, root, va)
  {
    TargetIsOwn(s, tasks, w);
    var task := tasks[w.task];
    var t, l := Target(s.t.tab, task.pml4, w.va), Lookup(s.t.tab, task.pml4, PageOf(va));
    if t.Some? {
      StoreIsRead(s, t.value, w.va % PAGE_SIZE, w.x, task.pml4, va);
      if l.Some? && l.value.frame == t.value {
        assert UsesAt(s, task, PageOf(va), t.value) && UsesAt(s, task, PageOf(w.va), t.value);
      }
    }
  }

  // No store changes a kernel stack.
  lemma StackIsUntouched(s: Snap, tasks: seq<Task>, w: Store, i: nat, f: nat)
    requires Isolated(s, tasks) && IsStore(w, tasks) && i < |tasks| && InBlock(tasks[i].stack, KERNEL_STACK_PAGES, f)
    requires f in s.t.tab
    ensures f in Perform(s, tasks, w).t.tab && Perform(s, tasks, w).t.tab[f] == s.t.tab[f]
  {
    TargetIsOwn(s, tasks, w);
    if i != w.task {
      ApartEitherWay(s, tasks, w.task, i);
      assert Uses(s, tasks[i], f);
    }
  }

  // ---- Any interleaving of stores ----

  ghost function RunStores(s: Snap, tasks: seq<Task>, ws: seq<Store>): Snap
    requires AllStores(ws, tasks)
  {
    if ws == [] then s
    else
      var rest, w := ws[..|ws| - 1], ws[|ws| - 1];
      assert IsStore(w, tasks);
      Perform(RunStores(s, tasks, rest), tasks, w)
  }

  // The stores of one task, in order.
  function Own(ws: seq<Store>, i: nat): (own: seq<Store>)
    ensures forall k :: 0 <= k < |own| ==> own[k] in ws
  {
    if ws == [] then []
    else
      var rest, w := ws[..|ws| - 1], ws[|ws| - 1];
      if w.task == i then Own(rest, i) + [w] else Own(rest, i)
  }

  lemma {:induction false} RunKeeps(s: Snap, tasks: seq<Task>, ws: seq<Store>)
    requires Isolated(s, tasks) && AllStores(ws, tasks)
    ensures Isolated(RunStores(s, tasks, ws), tasks) && Unmoved(s, RunStores(s, tasks, ws)) && RunStores(s, tasks, ws).t.lab == s.t.lab
  {
    if ws != [] {
      RunKeeps(s, tasks, ws[..|ws| - 1]);
      StepKeeps(RunStores(s, tasks, ws[..|ws| - 1]), tasks, ws[|ws| - 1]);
    }
  }

  // The task reads the same in both states.
  ghost predicate SameView(p: Snap, q: Snap, task: Task) {
    forall va: nat :: PageOf(va).i4 < 256 ==> ReadByte(p.t.tab, task.pml4, va) == ReadByte(q.t.tab, task.pml4, va)
  }

  ghost predicate SameMap(p: Snap, q: Snap, root: nat) {
    forall v :: Lookup(p.t.tab, root, v) == Lookup(q.t.tab, root, v)
  }

  // Where a store goes depends on the task's map alone.
  lemma SameTarget(p: Snap, q: Snap, root: nat, va: nat)
    requires Good(p) && Good(q) && IsRoot(p.t, root) && IsRoot(q.t, root) && root != p.t.kernel && root != q.t.kernel
    requires PageOf(va).i4 < 256 && Lookup(p.t.tab, root, PageOf(va)) == Lookup(q.t.tab, root, PageOf(va))
    ensures Target(p.t.tab, root, va) == Target(q.t.tab, root, va)
  {
    UserRights(p, root, PageOf(va));
    UserRights(q, root, PageOf(va));
  }

  // A task that stores in two states it cannot tell apart cannot tell them apart afterwards.
  lemma OwnStep(p: Snap, q: Snap, tasks: seq<Task>, w: Store)
    requires Isolated(p, tasks) && Isolated(q, tasks) && IsStore(w, tasks)
    requires SameMap(p, q, tasks[w.task].pml4) && SameView(p, q, tasks[w.task])
    ensures SameView(Perform(p, tasks, w), Perform(q, tasks, w), tasks[w.task])
  {
    TargetIsOwn(p, tasks, w);
    TargetIsOwn(q, tasks, w);
    var root := tasks[w.task].pml4;
    assert Lookup(p.t.tab, root, PageOf(w.va)) == Lookup(q.t.tab, root, PageOf(w.va));
    SameTarget(p, q, root, w.va);
    var t := Target(p.t.tab, root, w.va);
    if t.Some? {
      forall va: nat | PageOf(va).i4 < 256
        ensures ReadByte(Perform(p, tasks, w).t.tab, root, va) == ReadByte(Perform(q, tasks, w).t.tab, root, va)
      {
        assert Lookup(p.t.tab, root, PageOf(va)) == Lookup(q.t.tab, root, PageOf(va));
        StoreIsRead(p, t.value, w.va % PAGE_SIZE, w.x, root, va);
        StoreIsRead(q, t.value, w.va % PAGE_SIZE, w.x, root, va);
      }
    }
  }

  lemma OtherStep(p: Snap, q: Snap, tasks: seq<Task>, w: Store, i: nat)
    requires Isolated(p, tasks) && IsStore(w, tasks) && i < |tasks| && i != w.task && SameView(p, q, tasks[i])
    ensures SameView(Perform(p, tasks, w), q, tasks[i])
  {
    forall va: nat | PageOf(va).i4 < 256
      ensures ReadByte(Perform(p, tasks, w).t.tab, tasks[i].pml4, va) == ReadByte(q.t.tab, tasks[i].pml4, va)
    {
      StoreStaysHome(p, tasks, w, i, va);
    }
  }

  // After any interleaving of stores each task reads, all over its lower half, what it would read had only its
  // own stores happened.
  lemma {:induction false} NoInterference(s: Snap, tasks: seq<Task>, ws: seq<Store>, i: nat)
    requires Isolated(s, tasks) && i < |tasks| && AllStores(ws, tasks)
    ensures SameView(RunStores(s, tasks, ws), RunStores(s, tasks, Own(ws, i)), tasks[i])
  {
    if ws != [] {
      var rest, w := ws[..|ws| - 1], ws[|ws| - 1];
      var p, q := RunStores(s, tasks, rest), RunStores(s, tasks, Own(rest, i));
      NoInterference(s, tasks, rest, i);
      RunKeeps(s, tasks, rest);
      RunKeeps(s, tasks, Own(rest, i));
      if w.task == i {
        OwnStep(p, q, tasks, w);
        assert Own(ws, i)[..|Own(rest, i)|] == Own(rest, i);
      } else {
        OtherStep(p, q, tasks, w, i);
      }
    }
  }

  // The frames of the kernel stacks are as they were, after any stores.
  lemma {:induction false} StacksAreUntouched(s: Snap, tasks: seq<Task>, ws: seq<Store>, i: nat, f: nat)
    requires Isolated(s, tasks) && AllStores(ws, tasks)
    requires i < |tasks| && InBlock(tasks[i].stack, KERNEL_STACK_PAGES, f) && f in s.t.tab
    ensures f in RunStores(s, tasks, ws).t.tab && RunStores(s, tasks, ws).t.tab[f] == s.t.tab[f]
  {
    if ws != [] {
      RunKeeps(s, tasks, ws[..|ws| - 1]);
      StacksAreUntouched(s, tasks, ws[..|ws| - 1], i, f);
      StackIsUntouched(RunStores(s, tasks, ws[..|ws| - 1]), tasks, ws[|ws| - 1], i, f);
    }
  }

  // What ring 3 may not write stays as it is, whatever the stores and whoever makes them.
  lemma {:induction false} ReadOnlyStays(s: Snap, tasks: seq<Task>, ws: seq<Store>, i: nat, va: nat)
    requires Isolated(s, tasks) && AllStores(ws, tasks) && i < |tasks| && PageOf(va).i4 < 256
    requires !Writable(s.t.tab, tasks[i].pml4, PageOf(va))
    ensures ReadByte(RunStores(s, tasks, ws).t.tab, tasks[i].pml4, va) == ReadByte(s.t.tab, tasks[i].pml4, va)
  {
    if ws != [] {
      var p, w := RunStores(s, tasks, ws[..|ws| - 1]), ws[|ws| - 1];
      ReadOnlyStays(s, tasks, ws[..|ws| - 1], i, va);
      RunKeeps(s, tasks, ws[..|ws| - 1]);
      if w.task == i {
        StoreHitsOneByte(p, tasks, w, va);
        StillReadOnly(s, p, tasks[i].pml4, PageOf(va));
      } else {
        StoreStaysHome(p, tasks, w, i, va);
      }
    }
  }

  lemma StillReadOnly(s: Snap, p: Snap, root: nat, v: VPage)
    requires Good(s) && Good(p) && IsRoot(s.t, root) && IsRoot(p.t, root) && root != s.t.kernel && root != p.t.kernel
    requires v.i4 < 256 && Lookup(p.t.tab, root, v) == Lookup(s.t.tab, root, v)
    ensures Writable(p.t.tab, root, v) == Writable(s.t.tab, root, v)
  {
    UserRights(s, root, v);
    UserRights(p, root, v);
  }

  // A program's code and constants read as its file says, after any stores by it and by the other tasks.
  lemma TextIsConstant(s: Snap, tasks: seq<Task>, ws: seq<Store>, i: nat, file: seq<nat>, seg: Segment, j: nat)
    requires Isolated(s, tasks) && AllStores(ws, tasks) && i < |tasks| && Ready(s, tasks[i], file)
    requires IsSegment(file, seg) && seg.flags / PF_W % 2 == 0 && j < seg.memsz
    ensures SegmentOk(file, seg)
    ensures ReadByte(RunStores(s, tasks, ws).t.tab, tasks[i].pml4, seg.vaddr + j) == Some(Wanted(file, seg, j))
  {
    ReadySegment(s, tasks[i], file, seg);
    LoadedIsConstant(s, tasks, ws, i, file, seg, j);
  }

  lemma LoadedIsConstant(s: Snap, tasks: seq<Task>, ws: seq<Store>, i: nat, file: seq<nat>, seg: Segment, j: nat)
    requires Isolated(s, tasks) && AllStores(ws, tasks) && i < |tasks| && SegmentOk(file, seg) && j < seg.memsz
    requires Loaded(s, tasks[i].pml4, file, seg) && Accessible(s, tasks[i].pml4, seg) && seg.flags / PF_W % 2 == 0
    ensures ReadByte(RunStores(s, tasks, ws).t.tab, tasks[i].pml4, seg.vaddr + j) == Some(Wanted(file, seg, j))
  {
    var root, va, flags, x := tasks[i].pml4, seg.vaddr + j, SetPresent(LowFlags(seg.PteFlags())), Wanted(file, seg, j);
    assert Shows(s, root, va, flags, x);
    ShowsIsRead(s, root, va, flags, x);
    NotWritable(s, root, seg, j);
    LowerHalfPage(va);
    ReadOnlyStays(s, tasks, ws, i, va);
  }

  lemma NotWritable(s: Snap, root: nat, seg: Segment, j: nat)
    requires ByteAccessible(s, root, seg, j) && seg.flags / PF_W % 2 == 0
    ensures !Writable(s.t.tab, root, PageOf(seg.vaddr + j))
  {
  }

  // Tasks that have been made are isolated.
  lemma MadeAreIsolated(s: Snap, created: seq<Option<Task>>, files: seq<seq<nat>>, tasks: seq<Task>)
    requires Good(s) && |created| == |files| == |tasks| && AllReady(s, created, files)
    requires forall i :: 0 <= i < |tasks| ==> created[i] == Some(tasks[i])
    ensures Isolated(s, tasks)
  {
    forall i | 0 <= i < |tasks|
      ensures IsRoot(s.t, tasks[i].pml4) && OwnPages(s, tasks[i])
    {
      assert Stands(s, created[i], files[i]);
    }
    forall i, j | 0 <= i < j < |tasks|
      ensures Apart(s, tasks[i], tasks[j])
    {
      assert ApartIfMade(s, created[i], created[j]);
    }
  }
}

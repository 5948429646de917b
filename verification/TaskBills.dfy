/**
 What a task costs: which of its pages get mapped, how many frames it takes in all, and for what reasons it
 may not get them.
 */
module TaskBills {
  import opened Prelude
  import FP = FramePool
  import opened PageWords
  import opened PageTables
  import opened SpaceState
  import opened PageRanges
  import opened TableCosts
  import opened ElfFormat
  import opened ElfImage
  import opened ElfOutcome

  const USER_STACK_VADDR: nat := 0x7FFF_FFFF_0000
  const USER_STACK_PAGES: nat := 8
  const KERNEL_STACK_PAGES: nat := 16

  // The user stack, seen as a writable segment of zeros.
  function StackSegment(): Segment {
    Segment(PT_LOAD, PF_W, 0, USER_STACK_VADDR, 0, USER_STACK_PAGES * PAGE_SIZE)
  }

  lemma StackSegmentShape()
    ensures var seg := StackSegment();
            && seg.PageStart() == USER_STACK_VADDR && seg.PageOffset() == 0 && seg.Pages() == USER_STACK_PAGES
            && seg.PteFlags() == PTE_PRESENT + PTE_WRITE + PTE_USER + PTE_NX && SegmentOk([], seg)
  {
  }

  function StackPages(n: nat): (pages: seq<VPage>)
    ensures |pages| == n
  {
    PagesFrom(USER_STACK_VADDR, n)
  }

  function StackPage(i: nat): VPage {
    PageAt(USER_STACK_VADDR, i)
  }

  lemma StackIsLow(i: nat)
    requires i < USER_STACK_PAGES
    ensures StackPage(i).i4 < 256 && InSegment(StackSegment(), StackPage(i))
  {
    StackSegmentShape();
    OffsetOf(USER_STACK_VADDR, i, StackPage(i));
    LowerHalfPage(USER_STACK_VADDR + i * PAGE_SIZE);
  }

  // The stack's frames have been taken and its first `done` pages mapped, with the tables they and the next page
  // needed, as far as there were frames.
  ghost predicate StackMapped(s: Snap, a: FP.Stock, b: FP.Stock, root: nat, done: nat) {
    var cost := Cost(s.t.tab, root, StackPages(Min(done + 1, USER_STACK_PAGES)));
    && done <= USER_STACK_PAGES <= a.Avail()
    && FP.Took(a, b, USER_STACK_PAGES + Min(cost, a.Avail() - USER_STACK_PAGES))
    && (forall i: nat :: i < done ==> Lookup(s.t.tab, root, StackPage(i)).None?)
    && (done < USER_STACK_PAGES ==> Lookup(s.t.tab, root, StackPage(done)).Some? || a.Avail() < USER_STACK_PAGES + cost)
    && (done == USER_STACK_PAGES ==> USER_STACK_PAGES + cost <= a.Avail())
  }

  lemma StackIsMapped(s: Snap, a: FP.Stock, b: FP.Stock, s': Snap, c: FP.Stock, root: nat, frame: nat, done: nat)
    requires done <= USER_STACK_PAGES && FP.Took(a, b, USER_STACK_PAGES)
    requires RangeMaps(s, s', SegmentSpan(root, StackSegment(), frame), done)
    requires done == USER_STACK_PAGES ==> FP.Took(a, c, Bill(s.t.tab, root, StackPages(done)))
    requires done < USER_STACK_PAGES ==>
               var cost := Cost(s.t.tab, root, StackPages(done + 1));
               && USER_STACK_PAGES <= a.Avail() && FP.Took(b, c, Min(cost, a.Avail() - USER_STACK_PAGES))
               && (Lookup(s.t.tab, root, StackPage(done)).Some? || a.Avail() < USER_STACK_PAGES + cost)
    ensures StackMapped(s, a, c, root, done)
  {
    StackSegmentShape();
    forall i: nat | i < done
      ensures Lookup(s.t.tab, root, StackPage(i)).None?
    {
      RangeWasUnmapped(s, s', SegmentSpan(root, StackSegment(), frame), done, i);
    }
  }

  // ---- The price of a task ----

  // The image covers page i of the stack.
  ghost predicate Overlaid(file: seq<nat>, i: nat)
    requires Loadable(file)
  {
    Covered(Segments(file, ProgramCount(file)), StackPage(i))
  }

  // How many pages of the stack come before one that the image covers.
  ghost function StackRoom(file: seq<nat>): (n: nat)
    requires Loadable(file)
    ensures n <= USER_STACK_PAGES
  {
    Room(Segments(file, ProgramCount(file)), USER_STACK_VADDR, USER_STACK_PAGES, 0)
  }

  // Of the `limit` pages from `virt` on, the first one from number d on that a segment covers.
  ghost function Room(segs: seq<Segment>, virt: nat, limit: nat, d: nat): (n: nat)
    requires d <= limit
    ensures d <= n <= limit
    decreases limit - d
  {
    if d == limit || Covered(segs, PageAt(virt, d)) then d else Room(segs, virt, limit, d + 1)
  }

  lemma {:induction false} RoomEnds(segs: seq<Segment>, virt: nat, limit: nat, d: nat, i: nat)
    requires d <= i && d <= limit
    ensures i < Room(segs, virt, limit, d) ==> !Covered(segs, PageAt(virt, i))
    ensures i == Room(segs, virt, limit, d) < limit ==> Covered(segs, PageAt(virt, i))
    decreases limit - d
  {
    if d < limit && !Covered(segs, PageAt(virt, d)) && d < i {
      RoomEnds(segs, virt, limit, d + 1, i);
    }
  }

  lemma StackRoomEnds(file: seq<nat>, i: nat)
    requires Loadable(file)
    ensures i < StackRoom(file) ==> !Overlaid(file, i)
    ensures i == StackRoom(file) < USER_STACK_PAGES ==> Overlaid(file, i)
  {
    RoomEnds(Segments(file, ProgramCount(file)), USER_STACK_VADDR, USER_STACK_PAGES, 0, i);
  }

  // All the pages that get tables for a task made from the file.
  ghost function TaskPages(file: seq<nat>): seq<VPage>
    requires Loadable(file)
  {
    FilePages(file, ProgramCount(file)) + StackPages(StackRoom(file))
  }

  // Every frame of such a task: its record, its PML4, its image, its user stack, their tables, its kernel stack.
  ghost function TaskBill(file: seq<nat>): nat
    requires Loadable(file)
  {
    BillBeforeStack(file) + KERNEL_STACK_PAGES
  }

  ghost function BillBeforeStack(file: seq<nat>): nat
    requires Loadable(file)
  {
    2 + |FilePages(file, ProgramCount(file))| + USER_STACK_PAGES + Fresh(TaskPages(file))
  }

  // Record, PML4, and the first k segments with their tables.
  ghost function BillBefore(file: seq<nat>, k: nat): nat
    requires Loadable(file) && k <= ProgramCount(file)
  {
    2 + |FilePages(file, k)| + Fresh(FilePages(file, k))
  }

  // With `taken` frames taken for the task, the allocator refuses the block that it needs next.
  ghost predicate RefusedAt(file: seq<nat>, taken: nat, b: FP.Stock)
    requires Loadable(file)
  {
    || (exists k :: 0 <= k < ProgramCount(file) && RefusedSegment(file, k, taken, b))
    || (taken == BillBefore(file, ProgramCount(file)) && b.Refuses(USER_STACK_PAGES))
    || (taken == BillBeforeStack(file) && b.Refuses(KERNEL_STACK_PAGES))
  }

  ghost predicate RefusedSegment(file: seq<nat>, k: nat, taken: nat, b: FP.Stock)
    requires Loadable(file) && k < ProgramCount(file)
  {
    SegmentAt(file, k).kind == PT_LOAD && taken == BillBefore(file, k) && b.Refuses(SegmentAt(file, k).Pages())
  }

  // The file can be made into a task, given frames.
  ghost predicate Makeable(file: seq<nat>) {
    Loadable(file) && !Conflicted(file)
  }

  // No task was made: the file is at fault, or there are fewer frames than a task takes, or, after exactly the
  // frames that come before it, a block was refused that the task needs in one piece.
  ghost predicate Denied(a: FP.Stock, b: FP.Stock, file: seq<nat>, taken: nat) {
    && FP.Took(a, b, taken) && taken <= (if Loadable(file) then TaskBill(file) else 2)
    && (Makeable(file) ==> a.Avail() < TaskBill(file) || RefusedAt(file, taken, b))
  }

  ghost predicate Charged(a: FP.Stock, b: FP.Stock, file: seq<nat>, made: bool) {
    if made then Makeable(file) && FP.Took(a, b, TaskBill(file)) else exists taken: nat :: Denied(a, b, file, taken)
  }

  // ---- What the parts of a task cost ----

  lemma FileCost(s: Snap, root: nat, file: seq<nat>, k: nat)
    requires Loadable(file) && k <= ProgramCount(file) && NoTables(s, root)
    ensures Bill(s.t.tab, root, FilePages(file, k)) + 2 == BillBefore(file, k)
  {
    PagesOfLow(file, Segments(file, k));
    CostInEmpty(s.t.tab, root, FilePages(file, k));
  }

  lemma StackCost(s: Snap, root: nat, file: seq<nat>, n: nat)
    requires Loadable(file) && n <= USER_STACK_PAGES && NoTables(s, root)
    ensures var pages := FilePages(file, ProgramCount(file)) + StackPages(n); Cost(s.t.tab, root, pages) == Fresh(pages)
  {
    var image, stack := FilePages(file, ProgramCount(file)), StackPages(n);
    PagesOfLow(file, Segments(file, ProgramCount(file)));
    forall i | 0 <= i < n
      ensures stack[i].i4 < 256
    {
      StackIsLow(i);
      PagesFromAt(USER_STACK_VADDR, n, i);
    }
    LowPagesCost(s, root, image, stack);
  }

  lemma LowPagesCost(s: Snap, root: nat, a: seq<VPage>, b: seq<VPage>)
    requires NoTables(s, root) && (forall i :: 0 <= i < |a| ==> a[i].i4 < 256) && (forall i :: 0 <= i < |b| ==> b[i].i4 < 256)
    ensures Cost(s.t.tab, root, a + b) == Fresh(a + b)
  {
    var all := a + b;
    forall i | 0 <= i < |all|
      ensures Depth(s.t.tab, root, all[i]) == 0
    {
      assert all[i].i4 < 256;
    }
    CostInEmpty(s.t.tab, root, all);
  }

  lemma BillGrows(file: seq<nat>, k: nat)
    requires Loadable(file) && k <= ProgramCount(file)
    ensures BillBefore(file, k) <= TaskBill(file)
  {
    var rest := FilePagesSplit(file, k, ProgramCount(file));
    var stack := StackPages(StackRoom(file));
    Regroup(FilePages(file, k), rest, stack);
    FreshGrows(FilePages(file, k), rest + stack);
  }

  lemma FreshOfPrefix(a: seq<VPage>, b: seq<VPage>)
    requires a <= b
    ensures Fresh(a) <= Fresh(b)
  {
    FreshGrows(a, b[|a|..]);
    assert a + b[|a|..] == b;
  }

  // ---- The user stack after the image ----

  lemma MappedIfOverlaid(empty: Snap, s: Snap, root: nat, file: seq<nat>, i: nat)
    requires Loadable(file) && NoTables(empty, root) && Occupies(empty, s, root, file, ProgramCount(file)) && i < USER_STACK_PAGES
    ensures Lookup(s.t.tab, root, StackPage(i)).Some? <==> Overlaid(file, i)
  {
    StackIsLow(i);
    NoTablesIsEmpty(empty, root);
  }

  // The page at which mapping stops because it is mapped needs no table.
  lemma OverlaidIsFree(s: Snap, root: nat, n: nat)
    requires Lookup(s.t.tab, root, StackPage(n)).Some?
    ensures Cost(s.t.tab, root, StackPages(n + 1)) == Cost(s.t.tab, root, StackPages(n))
  {
    assert StackPages(n + 1)[..n] == StackPages(n);
  }

  lemma StackCostGrows(s: Snap, root: nat, m: nat, n: nat)
    requires m <= n
    ensures Cost(s.t.tab, root, StackPages(m)) <= Cost(s.t.tab, root, StackPages(n))
  {
    PagesPrefix(USER_STACK_VADDR, m, n);
    CostGrows(s.t.tab, root, StackPages(m), StackPages(n)[m..]);
    assert StackPages(m) + StackPages(n)[m..] == StackPages(n);
  }

  // How far mapping the stack gets, and the tables it makes, as far as there are frames.
  lemma StackGoesTo(empty: Snap, s: Snap, a: FP.Stock, b: FP.Stock, root: nat, file: seq<nat>, done: nat)
    requires Loadable(file) && NoTables(empty, root) && Occupies(empty, s, root, file, ProgramCount(file))
    requires StackMapped(s, a, b, root, done)
    ensures var room := StackRoom(file);
            var cost := Cost(s.t.tab, root, StackPages(room));
            && FP.Took(a, b, USER_STACK_PAGES + Min(cost, a.Avail() - USER_STACK_PAGES))
            && (done == room || a.Avail() < USER_STACK_PAGES + cost)
  {
    var room := StackRoom(file);
    StackRoomEnds(file, room);
    if room < USER_STACK_PAGES {
      MappedIfOverlaid(empty, s, root, file, room);
    }
    assert done <= room;
    if done < USER_STACK_PAGES {
      MappedIfOverlaid(empty, s, root, file, done);
      StackRoomEnds(file, done);
      if done < room {
        StackCostGrows(s, root, done + 1, room);
      } else {
        OverlaidIsFree(s, root, done);
      }
    }
  }

  // Image and stack together, from the empty space on.
  lemma StackBill(empty: Snap, first: FP.Stock, s: Snap, a: FP.Stock, b: FP.Stock, root: nat, file: seq<nat>, done: nat)
    requires Loadable(file) && NoTables(empty, root) && Occupies(empty, s, root, file, ProgramCount(file))
    requires Billed(empty, first, s, a, root, FilePages(file, ProgramCount(file))) && StackMapped(s, a, b, root, done)
    ensures FP.Took(first, b, Min(BillBeforeStack(file) - 2, first.Avail()))
    ensures done == StackRoom(file) || first.Avail() + 2 < BillBeforeStack(file)
  {
    var image, room := FilePages(file, ProgramCount(file)), StackRoom(file);
    var cost := Cost(s.t.tab, root, StackPages(room));
    StackGoesTo(empty, s, a, b, root, file, done);
    CostAppend(empty, s, root, image, StackPages(room));
    StackCost(empty, root, file, room);
    FP.TookTheRest(first, a, b, Bill(empty.t.tab, root, image), USER_STACK_PAGES + cost, 0);
  }

  // ---- Reasons ----

  // As Denied, for the part of the work that comes after the record and the PML4.
  ghost predicate PartDenied(a: FP.Stock, b: FP.Stock, file: seq<nat>, taken: nat) {
    && FP.Took(a, b, taken) && taken + 2 <= (if Loadable(file) then TaskBill(file) else 2)
    && (Makeable(file) ==> a.Avail() + 2 < TaskBill(file) || RefusedAt(file, taken + 2, b))
  }

  lemma PartIsDenied(a: FP.Stock, b: FP.Stock, c: FP.Stock, file: seq<nat>, taken: nat)
    requires FP.Took(a, b, 2) && PartDenied(b, c, file, taken)
    ensures Charged(a, c, file, false)
  {
    assert Denied(a, c, file, taken + 2);
  }

  // The image is there and the user stack is refused.
  lemma NoUserStack(empty: Snap, first: FP.Stock, s: Snap, a: FP.Stock, root: nat, file: seq<nat>)
    requires Loadable(file) && NoTables(empty, root) && a.Refuses(USER_STACK_PAGES)
    requires Billed(empty, first, s, a, root, FilePages(file, ProgramCount(file)))
    ensures PartDenied(first, a, file, BillBefore(file, ProgramCount(file)) - 2)
  {
    FileCost(empty, root, file, ProgramCount(file));
    BillGrows(file, ProgramCount(file));
  }

  // The user stack is there and the kernel stack is taken or refused.
  lemma StackTaken(empty: Snap, first: FP.Stock, s: Snap, a: FP.Stock, b: FP.Stock, c: FP.Stock, root: nat, file: seq<nat>, done: nat)
    returns (taken: nat)
    requires Loadable(file) && NoTables(empty, root) && Occupies(empty, s, root, file, ProgramCount(file))
    requires Billed(empty, first, s, a, root, FilePages(file, ProgramCount(file))) && StackMapped(s, a, b, root, done)
    requires if b.Refuses(KERNEL_STACK_PAGES) then c == b else FP.Took(b, c, KERNEL_STACK_PAGES)
    ensures if b.Refuses(KERNEL_STACK_PAGES) then PartDenied(first, c, file, taken)
            else FP.Took(first, c, TaskBill(file) - 2) && done == StackRoom(file)
  {
    StackBill(empty, first, s, a, b, root, file, done);
    taken := Min(BillBeforeStack(file) - 2, first.Avail());
  }

  lemma NoConflict(s: Snap, root: nat, file: seq<nat>)
    requires Loadable(file) && LowerHalfEmpty(s, root) && NoneBad(s, root, file, ProgramCount(file))
    ensures Makeable(file)
  {
    forall k | 0 <= k < ProgramCount(file)
      ensures !Conflicts(file, k)
    {
      BadInEmpty(s, root, file, k);
    }
  }

  // What a load that stopped says about the file and the frames.
  lemma LoadDenied(s: Snap, a: FP.Stock, s': Snap, b: FP.Stock, root: nat, file: seq<nat>, k: nat, how: Outcome) returns (taken: nat)
    requires Loadable(file) && NoTables(s, root) && Stops(s, s', root, file, k, how) && Broke(s, a, b, root, file, k, how)
    requires !Short(s, root, file, k, how) ==> FirstBad(s, root, file, k)
    ensures PartDenied(a, b, file, taken)
  {
    if !Short(s, root, file, k, how) {
      NoTablesIsEmpty(s, root);
      BadInEmpty(s, root, file, k);
      assert !Makeable(file);
    }
    match how
    case Stopped(_, done) => taken := StoppedDenied(s, a, b, root, file, k, done);
    case NoPages => taken := UnblockedDenied(s, a, b, root, file, k);
    case NoBlock => taken := UnblockedDenied(s, a, b, root, file, k);
  }

  lemma UnblockedDenied(s: Snap, a: FP.Stock, b: FP.Stock, root: nat, file: seq<nat>, k: nat) returns (taken: nat)
    requires Loadable(file) && k < ProgramCount(file) && SegmentAt(file, k).kind == PT_LOAD && NoTables(s, root)
    requires FP.Took(a, b, Bill(s.t.tab, root, FilePages(file, k)))
    requires !Makeable(file) || b.Refuses(SegmentAt(file, k).Pages())
    ensures PartDenied(a, b, file, taken)
  {
    FileCost(s, root, file, k);
    taken := BillBefore(file, k) - 2;
    if Makeable(file) {
      RefusedHere(file, k, taken + 2, b);
    }
    BillDenied(a, b, file, k, taken);
  }

  lemma BillDenied(a: FP.Stock, b: FP.Stock, file: seq<nat>, k: nat, taken: nat)
    requires Loadable(file) && k <= ProgramCount(file) && taken + 2 == BillBefore(file, k) && FP.Took(a, b, taken)
    requires Makeable(file) ==> RefusedAt(file, taken + 2, b)
    ensures PartDenied(a, b, file, taken)
  {
    BillGrows(file, k);
  }

  lemma RefusedHere(file: seq<nat>, k: nat, taken: nat, b: FP.Stock)
    requires Loadable(file) && k < ProgramCount(file) && RefusedSegment(file, k, taken, b)
    ensures RefusedAt(file, taken, b)
  {
  }

  lemma StoppedDenied(s: Snap, a: FP.Stock, b: FP.Stock, root: nat, file: seq<nat>, k: nat, done: nat) returns (taken: nat)
    requires Loadable(file) && k < ProgramCount(file) && SegmentAt(file, k).kind == PT_LOAD && done < SegmentAt(file, k).Pages()
    requires NoTables(s, root)
    requires var seg, pages := SegmentAt(file, k), FilePages(file, k);
             var tried := PagesFrom(seg.PageStart(), done + 1);
             Tried(s, a, b, root, pages, tried, seg.Pages()) && (!Makeable(file) || RanOut(s, a, root, pages, tried, seg.Pages()))
    ensures PartDenied(a, b, file, taken)
  {
    var seg, pages := SegmentAt(file, k), FilePages(file, k);
    var tried := PagesFrom(seg.PageStart(), done + 1);
    TriedIsBilled(s, root, file, k, done);
    taken := Min(|pages| + Cost(s.t.tab, root, pages + tried), a.Avail() - seg.Pages());
  }

  lemma TriedIsBilled(s: Snap, root: nat, file: seq<nat>, k: nat, done: nat)
    requires Loadable(file) && k < ProgramCount(file) && SegmentAt(file, k).kind == PT_LOAD && done < SegmentAt(file, k).Pages()
    requires NoTables(s, root)
    ensures var seg, pages := SegmentAt(file, k), FilePages(file, k);
            |pages| + Cost(s.t.tab, root, pages + PagesFrom(seg.PageStart(), done + 1)) + seg.Pages() + 2 < TaskBill(file)
  {
    var seg, pages := SegmentAt(file, k), FilePages(file, k);
    var tried := PagesFrom(seg.PageStart(), done + 1);
    TriedPages(file, k, done);
    WithinImage(s, root, file, pages + tried);
  }

  lemma TriedPages(file: seq<nat>, k: nat, done: nat)
    requires Loadable(file) && k < ProgramCount(file) && SegmentAt(file, k).kind == PT_LOAD && done < SegmentAt(file, k).Pages()
    ensures var seg, pages, all := SegmentAt(file, k), FilePages(file, k), FilePages(file, ProgramCount(file));
            pages + PagesFrom(seg.PageStart(), done + 1) <= all && |pages| + seg.Pages() <= |all|
  {
    var segs := Segments(file, ProgramCount(file));
    assert segs[..k] == Segments(file, k) && segs[k] == SegmentAt(file, k);
    TriedWithin(segs, k, done);
  }

  lemma TriedWithin(segs: seq<Segment>, k: nat, done: nat)
    requires k < |segs| && segs[k].kind == PT_LOAD && done < segs[k].Pages()
    ensures var pages := PagesOf(segs[..k]);
            && pages + PagesFrom(segs[k].PageStart(), done + 1) <= PagesOf(segs)
            && |pages| + segs[k].Pages() <= |PagesOf(segs)|
  {
    var first, rest := segs[..k + 1], segs[k + 1..];
    assert segs == first + rest && first[..k] == segs[..k];
    PagesOfBoth(first, rest);
    ShorterRun(PagesOf(segs[..k]), segs[k].PageStart(), done + 1, segs[k].Pages(), PagesOf(rest), PagesOf(segs));
  }

  lemma WithinImage(s: Snap, root: nat, file: seq<nat>, pages: seq<VPage>)
    requires Loadable(file) && NoTables(s, root) && pages <= FilePages(file, ProgramCount(file))
    ensures Cost(s.t.tab, root, pages) <= Fresh(TaskPages(file))
  {
    PagesOfLow(file, Segments(file, ProgramCount(file)));
    CostInEmpty(s.t.tab, root, pages);
    FreshOfPrefix(pages, TaskPages(file));
  }
}

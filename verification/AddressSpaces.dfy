/**
 The virtual memory manager: page tables edited in place in physical memory, in frames taken from the
 frame allocator.
 */
module AddressSpaces {
  import opened Prelude
  import FP = FramePool
  import FA = FrameAllocator
  import opened PageWords
  import opened PageTables
  import opened SpaceState
  import opened PageRanges
  import opened RangeUnmapping
  import opened TableCosts
  import SR = SpaceRuns

  class Vmm {
    const pmm: FA.FrameAllocator
    var mem: map<nat, seq<nat>>  // physical memory: the 512 words of each frame
    var kernel: nat              // kernel_pml4_phys, as a frame number
    ghost var lab: map<nat, Node>
    ghost var data: set<nat>

    // vmm_init adopts the boot loader's tables, found through CR3; `lab` is their shape.
    constructor (pmm: FA.FrameAllocator, mem: map<nat, seq<nat>>, cr3: nat, ghost lab: map<nat, Node>)
      requires pmm.Valid() && pmm.bitmap != null
      requires Good(Snap(Forest(mem, lab, cr3 / PAGE_SIZE), pmm.bits, {}))
      ensures Valid() && this.pmm == pmm
      ensures Now() == Snap(Forest(mem, lab, cr3 / PAGE_SIZE), pmm.bits, {})
    {
      this.pmm, this.mem, this.kernel := pmm, mem, cr3 / PAGE_SIZE;
      this.lab, this.data := lab, {};
    }

    ghost function Now(): Snap
      reads this, pmm
    {
      Snap(Forest(mem, lab, kernel), pmm.bits, data)
    }

    ghost predicate Valid()
      reads this, pmm, pmm.bitmap
    {
      pmm.Valid() && pmm.bitmap != null && Good(Now())
    }

    // What the allocator can still hand out.
    ghost function Stock(): FP.Stock
      reads pmm
    {
      FP.Stock(pmm.bits, pmm.freeFrames)
    }

    // pmm_alloc_zeroed; the frame number instead of the address.
    method AllocZeroed() returns (r: Option<nat>)
      requires Valid()
      modifies this`mem, pmm, pmm.bitmap
      ensures Valid() && pmm.bitmap == old(pmm.bitmap)
      ensures r.Some? <==> 0 < old(Stock()).Avail()
      ensures FP.Took(old(Stock()), Stock(), if r.Some? then 1 else 0)
      ensures r.None? ==> Now() == old(Now())
      ensures r.Some? ==> Free(old(Now()), r.value) && Now() == Claim(old(Now()), r.value)
    {
      ghost var before := Now();
      r := TakeFrame();
      if r.Some? {
        mem := mem[r.value := ZeroPage()];
        ClaimStep(before, r.value);
      }
    }

    // pmm_alloc, as a frame number.
    method TakeFrame() returns (r: Option<nat>)
      requires pmm.Valid() && pmm.bitmap != null && pmm.FrameZeroHeld()
      modifies pmm, pmm.bitmap
      ensures pmm.Valid() && pmm.bitmap == old(pmm.bitmap)
      ensures r.Some? <==> 0 < old(Stock()).Avail()
      ensures FP.Took(old(Stock()), Stock(), if r.Some? then 1 else 0)
      ensures r.None? ==> pmm.bits == old(pmm.bits)
      ensures r.Some? ==> r.value < |old(pmm.bits)| && !old(pmm.bits)[r.value] && pmm.bits == old(pmm.bits)[r.value := true]
    {
      FP.OneFrameTaken(pmm.View());
      var addr := pmm.AllocFrames(1);
      if addr.None? {
        return None;
      }
      return Some(addr.value / PAGE_SIZE);
    }

    // pmm_alloc_frames_zeroed: a block of frames to be used as data.
    method AllocBlock(count: nat) returns (r: Option<nat>)
      requires Valid()
      modifies this`mem, this`data, pmm, pmm.bitmap
      ensures Valid() && pmm.bitmap == old(pmm.bitmap)
      ensures r.None? <==> old(Stock()).Refuses(count)
      ensures FP.Took(old(Stock()), Stock(), if r.Some? then count else 0)
      ensures r.None? ==> Now() == old(Now()) && Stock() == old(Stock())
      ensures r.Some? ==> 0 < count && Extends(old(Now()), Now(), r.value, count)
      ensures r.Some? ==> forall f :: InBlock(r.value, count, f) ==> f in mem && mem[f] == ZeroPage()
    {
      ghost var before := Now();
      r := TakeBlock(count);
      if r.Some? {
        ZeroFrames(r.value, count);
        data := data + Frames(r.value, count);
        TakenExtends(before, Now(), r.value, count);
      }
    }

    // pmm_alloc_frames, as a frame number.
    method TakeBlock(count: nat) returns (r: Option<nat>)
      requires Valid()
      modifies pmm, pmm.bitmap
      ensures pmm.Valid() && pmm.bitmap == old(pmm.bitmap) && |pmm.bits| == |old(pmm.bits)|
      ensures r.None? <==> old(Stock()).Refuses(count)
      ensures FP.Took(old(Stock()), Stock(), if r.Some? then count else 0)
      ensures r.None? ==> Stock() == old(Stock())
      ensures r.Some? ==> 0 < count && r.value + count <= |pmm.bits|
      ensures r.Some? ==> forall f :: 0 <= f < |pmm.bits| ==>
                (pmm.bits[f] == (InBlock(r.value, count, f) || old(pmm.bits)[f]))
                && (InBlock(r.value, count, f) ==> !old(pmm.bits)[f])
    {
      FP.BlockTaken(pmm.View(), count);
      var addr := pmm.AllocFrames(count);
      if addr.None? {
        return None;
      }
      return Some(addr.value / PAGE_SIZE);
    }

    // memset(pages, 0, count * PAGE_SIZE)
    method ZeroFrames(b: nat, count: nat)
      modifies this`mem
      ensures forall f :: f in mem <==> f in old(mem) || InBlock(b, count, f)
      ensures forall f :: f in mem ==> mem[f] == if InBlock(b, count, f) then ZeroPage() else old(mem)[f]
    {
      for k := 0 to count
        invariant forall f :: f in mem <==> f in old(mem) || InBlock(b, k, f)
        invariant forall f :: f in mem ==> mem[f] == if InBlock(b, k, f) then ZeroPage() else old(mem)[f]
      {
        mem := mem[b + k := ZeroPage()];
      }
    }

    // create_table on an absent entry (f, i).
    method AddTable(f: nat, i: Index, flags: nat) returns (ok: bool)
      requires Valid() && f in lab && !lab[f].Level1? && LinkFlags(Now().t, Child(kernel, lab[f], i).space, flags)
      requires lab[f].Root? ==> i < 256 || f == kernel
      requires !Present(Entry(mem, f, i))
      modifies this`mem, this`lab, pmm, pmm.bitmap
      ensures Valid() && pmm.bitmap == old(pmm.bitmap)
      ensures ok <==> 0 < old(Stock()).Avail()
      ensures FP.Took(old(Stock()), Stock(), if ok then 1 else 0)
      ensures if ok then Grows(old(Now()), Now(), f, i) else Now() == old(Now())
      ensures Ways(old(Now()), Now(), LinkAccess(flags))
    {
      ghost var before := Now();
      var table := AllocZeroed();
      if table.None? {
        return false;
      }
      var g := table.value;
      ghost var after := GraftSnap(before, f, i, g, flags);
      lab := lab[g := Child(kernel, lab[f], i)];
      mem := Put(mem, f, i, TableWord(g, flags));
      assert Now() == after;
      GraftStep(before, f, i, g, flags);
      GraftWays(before, f, i, g, flags);
      return true;
    }

    // create_table on the entry (f, i).
    method CreateTable(f: nat, i: Index, flags: nat) returns (ok: bool)
      requires Valid() && f in lab && !lab[f].Level1? && LinkFlags(Now().t, Child(kernel, lab[f], i).space, flags)
      requires lab[f].Root? ==> i < 256 || f == kernel
      modifies this`mem, this`lab, pmm, pmm.bitmap
      ensures Valid() && pmm.bitmap == old(pmm.bitmap)
      ensures ok <==> old(Present(Entry(mem, f, i))) || 0 < old(Stock()).Avail()
      ensures if ok && !old(Present(Entry(mem, f, i)))
              then Grows(old(Now()), Now(), f, i) && FP.Took(old(Stock()), Stock(), 1)
              else Now() == old(Now()) && FP.Took(old(Stock()), Stock(), 0)
      ensures Ways(old(Now()), Now(), LinkAccess(flags))
    {
      if Present(Entry(mem, f, i)) {
        return true;
      }
      ok := AddTable(f, i, flags);
    }

    // CreateTable on the walk for the page u of `root`: the next table on the way, at the given level.
    method NextTable(root: nat, u: VPage, f: nat, i: Index, flags: nat, ghost level: nat) returns (ok: bool)
      requires Valid() && MayMap(Now().t, root, u) && LinkFlags(Now().t, root, flags)
      requires level <= 2 && level <= Depth(mem, root, u) && Slot(f, i) == WalkSlot(mem, root, u, level)
      modifies this`mem, this`lab, pmm, pmm.bitmap
      ensures Valid() && pmm.bitmap == old(pmm.bitmap)
      ensures Digs(old(Now()), old(Stock()), Now(), Stock(), root, u, level + 1, LinkAccess(flags))
      ensures ok <==> level < Depth(mem, root, u)
    {
      ghost var before := Now();
      WalkLabels(before.t, root, u);
      ghost var first := Stock();
      ok := CreateTable(f, i, flags);
      if ok && Depth(before.t.tab, root, u) == level {
        DigsOne(before, first, Now(), Stock(), root, u, f, i, LinkAccess(flags));
      } else {
        DigsNothing(before, Stock(), root, u, level + 1, LinkAccess(flags));
      }
    }

    // The first two calls of create_table on the way down to the page directory for u.
    method Descend(root: nat, u: VPage, flags: nat) returns (ok: bool, dir: nat)
      requires Valid() && MayMap(Now().t, root, u) && LinkFlags(Now().t, root, flags)
      modifies this`mem, this`lab, pmm, pmm.bitmap
      ensures Valid() && pmm.bitmap == old(pmm.bitmap)
      ensures Digs(old(Now()), old(Stock()), Now(), Stock(), root, u, 2, LinkAccess(flags))
      ensures ok <==> 2 <= Depth(mem, root, u)
      ensures ok ==> Directory(mem, root, u) == Some(dir)
    {
      dir := 0;
      ghost var before, first := Now(), Stock();
      ok := NextTable(root, u, root, u.i4, flags, 0);
      if !ok {
        DigsFurther(before, first, Now(), Stock(), root, u, 1, 2, LinkAccess(flags));
        return;
      }
      ghost var middle, second := Now(), Stock();
      ok := NextTable(root, u, Pdpt(mem, root, u).value, u.i3, flags, 1);
      DigsTwice(before, first, middle, second, Now(), Stock(), root, u, 1, 2, LinkAccess(flags));
      if ok {
        dir := Directory(mem, root, u).value;
      }
    }

    // All three calls of create_table.
    method Prepare(root: nat, u: VPage, flags: nat) returns (ok: bool)
      requires Valid() && MayMap(Now().t, root, u) && LinkFlags(Now().t, root, flags)
      modifies this`mem, this`lab, pmm, pmm.bitmap
      ensures Valid() && pmm.bitmap == old(pmm.bitmap)
      ensures Digs(old(Now()), old(Stock()), Now(), Stock(), root, u, 3, LinkAccess(flags))
      ensures ok <==> Depth(mem, root, u) == 3
    {
      ghost var before, first := Now(), Stock();
      var dir;
      ok, dir := Descend(root, u, flags);
      if !ok {
        DigsFurther(before, first, Now(), Stock(), root, u, 2, 3, LinkAccess(flags));
        return;
      }
      ghost var middle, second := Now(), Stock();
      ok := NextTable(root, u, dir, u.i2, flags, 2);
      DigsTwice(before, first, middle, second, Now(), Stock(), root, u, 2, 3, LinkAccess(flags));
    }

    // The body shared by vmm_map and vmm_map_for_pml4: make the tables, then write the entry w unless
    // the page is already mapped.
    method Install(root: nat, u: VPage, tableFlags: nat, w: nat) returns (ok: bool)
      requires Valid() && MayMap(Now().t, root, u) && LinkFlags(Now().t, root, tableFlags) && Present(w)
      modifies this`mem, this`lab, pmm, pmm.bitmap
      ensures Valid() && pmm.bitmap == old(pmm.bitmap) && Kept(old(Now()), Now()) && data == old(data)
      ensures ok <==> old(Lookup(mem, root, u)).None? && 3 <= old(Depth(mem, root, u)) + old(Stock()).Avail()
      ensures Pays(old(Now()), old(Stock()), Now(), Stock(), root, u, 3)
      ensures if ok then Maps(old(Now()), Now(), root, u, Some(LeafOf(w))) else Unmoved(old(Now()), Now())
      ensures Ways(old(Now()), Now(), LinkAccess(tableFlags))
    {
      ghost var before, first := Now(), Stock();
      ok := Prepare(root, u, tableFlags);
      ghost var ready := Now();
      DigsPays(before, first, ready, Stock(), root, u, 3, LinkAccess(tableFlags));
      GrownIsUnmoved(before, ready);
      if !ok {
        return;
      }
      var slot := PteSlot(mem, root, u).value;
      if Present(Entry(mem, slot.frame, slot.index)) {
        return false;
      }
      WritePage(root, u, slot.frame, w);
      DeepenThenMaps(before, ready, Now(), root, u, Some(LeafOf(w)));
      DeepenedThenKept(before, ready, Now(), root, u);
      WaysThenKept(before, ready, Now(), LinkAccess(tableFlags));
      KeptTransitive(before, ready, Now());
      return true;
    }

    // vmm_map
    method Map(virt: nat, phys: nat, flags: nat) returns (ok: bool)
      requires Valid() && phys / PAGE_SIZE < FRAME_LIMIT && FlagBits(flags)
      modifies this`mem, this`lab, pmm, pmm.bitmap
      ensures Valid() && pmm.bitmap == old(pmm.bitmap) && Kept(old(Now()), Now()) && data == old(data)
      ensures ok <==> Aligned4K(virt, phys) && old(Lookup(mem, kernel, PageOf(virt))).None?
                      && 3 <= old(Depth(mem, kernel, PageOf(virt))) + old(Stock()).Avail()
      ensures if Aligned4K(virt, phys) then Pays(old(Now()), old(Stock()), Now(), Stock(), kernel, PageOf(virt), 3)
              else Now() == old(Now()) && Stock() == old(Stock())
      ensures if ok then Maps(old(Now()), Now(), kernel, PageOf(virt),
                              Some(Leaf(phys / PAGE_SIZE, SetPresent(LowFlags(flags)), HighFlags(flags), false)))
              else Unmoved(old(Now()), Now())
      ensures Ways(old(Now()), Now(), Access(false, true, true))
    {
      if !Aligned4K(virt, phys) {
        return false;
      }
      WordAt(phys, flags);
      ok := Install(kernel, PageOf(virt), PTE_WRITE, phys + SetPresent(flags));
    }

    // vmm_map_for_pml4, for a task's own space: lower half only.  The NX bit is dropped.
    method MapForPml4(root: nat, virt: nat, phys: nat, flags: nat) returns (ok: bool)
      requires Valid() && IsRoot(Now().t, root) && root != kernel && PageOf(virt).i4 < 256
      requires phys / PAGE_SIZE < FRAME_LIMIT && FlagBits(flags)
      modifies this`mem, this`lab, pmm, pmm.bitmap
      ensures Valid() && pmm.bitmap == old(pmm.bitmap) && Kept(old(Now()), Now()) && data == old(data)
      ensures ok <==> Aligned4K(virt, phys) && old(Lookup(mem, root, PageOf(virt))).None?
                      && 3 <= old(Depth(mem, root, PageOf(virt))) + old(Stock()).Avail()
      ensures if Aligned4K(virt, phys) then Pays(old(Now()), old(Stock()), Now(), Stock(), root, PageOf(virt), 3)
              else Now() == old(Now()) && Stock() == old(Stock())
      ensures if ok then Maps(old(Now()), Now(), root, PageOf(virt),
                              Some(Leaf(phys / PAGE_SIZE, SetPresent(LowFlags(flags)), 0, false)))
              else Unmoved(old(Now()), Now())
      ensures Ways(old(Now()), Now(), FULL)
      ensures ok ==> Rights(mem, root, PageOf(virt)) == Some(FlagAccess(flags))
    {
      if !Aligned4K(virt, phys) {
        return false;
      }
      var w := (phys + SetPresent(flags)) % PTE_NX;
      WordAt(phys, flags);
      ok := Install(root, PageOf(virt), PTE_WRITE + PTE_USER, w);
      MappedRights(Now(), root, PageOf(virt), phys / PAGE_SIZE, flags);
    }

    // vmm_map_huge_2mb
    method MapHuge(virt: nat, phys: nat, flags: nat) returns (ok: bool)
      requires Valid() && phys / PAGE_SIZE < FRAME_LIMIT && FlagBits(flags)
      modifies this`mem, this`lab, pmm, pmm.bitmap
      ensures Valid() && pmm.bitmap == old(pmm.bitmap) && Kept(old(Now()), Now()) && data == old(data)
      ensures ok <==> Aligned2M(virt, phys) && old(Depth(mem, kernel, PageOf(virt))) < 3
                      && 2 <= old(Depth(mem, kernel, PageOf(virt))) + old(Stock()).Avail()
      ensures if Aligned2M(virt, phys)
              then PaysHuge(old(Now()), old(Stock()), Now(), Stock(), PageOf(virt), ok)
              else Now() == old(Now()) && Stock() == old(Stock())
      ensures if ok then MapsRegion(old(Now()), Now(), PageOf(virt), phys + SetHuge(SetPresent(flags)))
              else Unmoved(old(Now()), Now())
      ensures Ways(old(Now()), Now(), Access(false, true, true))
    {
      if !Aligned2M(virt, phys) {
        return false;
      }
      HugeWordPages(phys, flags);
      ok := InstallHuge(PageOf(virt), phys + SetHuge(SetPresent(flags)));
    }

    // vmm_map_huge_2mb after its alignment checks.
    method InstallHuge(u: VPage, w: nat) returns (ok: bool)
      requires Valid() && Present(w) && Huge(w)
      modifies this`mem, this`lab, pmm, pmm.bitmap
      ensures Valid() && pmm.bitmap == old(pmm.bitmap) && Kept(old(Now()), Now()) && data == old(data)
      ensures ok <==> old(Depth(mem, kernel, u)) < 3 && 2 <= old(Depth(mem, kernel, u)) + old(Stock()).Avail()
      ensures PaysHuge(old(Now()), old(Stock()), Now(), Stock(), u, ok)
      ensures if ok then MapsRegion(old(Now()), Now(), u, w) else Unmoved(old(Now()), Now())
      ensures Ways(old(Now()), Now(), Access(false, true, true))
    {
      ghost var before, first := Now(), Stock();
      var dir;
      ok, dir := Descend(kernel, u, PTE_WRITE);
      ghost var ready := Now();
      DigsPays(before, first, ready, Stock(), kernel, u, 2, LinkAccess(PTE_WRITE));
      GrownIsUnmoved(before, ready);
      if !ok || Present(Entry(mem, dir, u.i2)) {
        return false;
      }
      WriteRegion(u, dir, w);
      DeepenThenMapsRegion(before, ready, Now(), u, w);
      SetsDeepens(ready, Now(), u);
      WaysThenKept(before, ready, Now(), LinkAccess(PTE_WRITE));
      DeepenedTransitive(before, ready, Now(), kernel, u);
      KeptTransitive(before, ready, Now());
      return true;
    }

    // *pde = w
    method WriteRegion(u: VPage, dir: nat, w: nat)
      requires Valid() && Directory(mem, kernel, u) == Some(dir) && NotATable(w)
      modifies this`mem
      ensures Valid() && Kept(old(Now()), Now()) && MapsRegion(old(Now()), Now(), u, w)
      ensures SetsDepth(old(Now()), Now(), u, if Present(w) then 3 else 2)
      ensures !old(Present(Entry(mem, dir, u.i2))) ==> WaysKept(old(Now()), Now())
    {
      WalkLabels(Now().t, kernel, u);
      RegionStep(Now(), u, dir, w);
      if !Present(Entry(mem, dir, u.i2)) {
        WriteWays(Now(), dir, u.i2, w);
      }
      mem := Put(mem, dir, u.i2, w);
    }

    // *pte = w
    method WritePage(root: nat, u: VPage, table: nat, w: nat)
      requires Valid() && MayMap(Now().t, root, u) && Table(mem, root, u) == Some(table)
      modifies this`mem
      ensures Valid() && Kept(old(Now()), Now())
      ensures Maps(old(Now()), Now(), root, u, if Present(w) then Some(LeafOf(w)) else None)
      ensures DepthsKept(old(Now()), Now()) && WaysKept(old(Now()), Now())
    {
      WalkLabels(Now().t, root, u);
      LeafStep(Now(), root, u, table, w);
      WriteWays(Now(), table, u.i1, w);
      mem := Put(mem, table, u.i1, w);
    }

    // vmm_unmap
    method Unmap(virt: nat) returns (ok: bool)
      requires Valid()
      modifies this`mem
      ensures Valid() && Kept(old(Now()), Now())
      ensures ok <==> virt % PAGE_SIZE == 0 && old(Lookup(mem, kernel, PageOf(virt))).Some?
      ensures !ok ==> Now() == old(Now())
      ensures ok ==> if old(Lookup(mem, kernel, PageOf(virt))).value.huge then MapsRegion(old(Now()), Now(), PageOf(virt), 0)
                     else Maps(old(Now()), Now(), kernel, PageOf(virt), None)
      ensures ok ==> if old(Lookup(mem, kernel, PageOf(virt))).value.huge then SetsDepth(old(Now()), Now(), PageOf(virt), 2)
                     else DepthsKept(old(Now()), Now())
    {
      if virt % PAGE_SIZE != 0 {
        return false;
      }
      var u := PageOf(virt);
      var slot := PteSlot(mem, kernel, u);
      if slot.None? || !Present(Entry(mem, slot.value.frame, slot.value.index)) {
        return false;
      }
      if Lookup(mem, kernel, u).value.huge {
        WriteRegion(u, slot.value.frame, 0);
      } else {
        WritePage(kernel, u, slot.value.frame, 0);
      }
      return true;
    }

    // vmm_unmap_huge_2mb: the directory entry goes, be it a 2 MiB page or a whole page table.
    method UnmapHuge(virt: nat) returns (ok: bool)
      requires Valid()
      modifies this`mem
      ensures Valid() && Kept(old(Now()), Now())
      ensures ok <==> virt % HUGE_2MB == 0 && old(Depth(mem, kernel, PageOf(virt))) == 3
      ensures !ok ==> Now() == old(Now())
      ensures ok ==> MapsRegion(old(Now()), Now(), PageOf(virt), 0) && SetsDepth(old(Now()), Now(), PageOf(virt), 2)
    {
      if virt % HUGE_2MB != 0 {
        return false;
      }
      var u := PageOf(virt);
      var dir := Directory(mem, kernel, u);
      if dir.None? || !Present(Entry(mem, dir.value, u.i2)) {
        return false;
      }
      WriteRegion(u, dir.value, 0);
      return true;
    }

    // One turn of the loops of vmm_map_range and vmm_map_range_for_pml4: the call of vmm_map or
    // vmm_map_for_pml4 with its page and entry worked out.  `start` is the state before the loop.
    method MapNext(u: VPage, aligned: bool, tableFlags: nat, w: nat, g: Span, i: nat, ghost start: Snap, ghost first: FP.Stock,
                   ghost pages: seq<VPage>)
      returns (ok: bool)
      requires Valid() && Good(start) && start.t.kernel == kernel && IsRoot(start.t, g.root) && MayMap(start.t, g.root, u)
      requires LinkFlags(start.t, g.root, tableFlags) && Ways(start, Now(), LinkAccess(tableFlags))
      requires aligned ==> Present(w) && LeafOf(w) == g.LeafAt(i)
      requires Kept(start, Now()) && RangeMaps(start, Now(), g, i) && u == PageAt(g.virt, i)
      requires Paid(start, first, Now(), Stock(), g.root, pages)
      modifies this`mem, this`lab, pmm, pmm.bitmap
      ensures Valid() && pmm.bitmap == old(pmm.bitmap) && Kept(start, Now()) && data == old(data)
      ensures RangeMaps(start, Now(), g, if ok then i + 1 else i)
      ensures ok ==> aligned && i < PAGES && Paid(start, first, Now(), Stock(), g.root, pages + [u])
      ensures !ok ==> if aligned then Unpaid(start, first, Now(), Stock(), g.root, pages + [u], u)
                      else Paid(start, first, Now(), Stock(), g.root, pages)
      ensures Ways(start, Now(), LinkAccess(tableFlags))
    {
      if !aligned {
        return false;
      }
      ghost var before, second := Now(), Stock();
      ok := Install(g.root, u, tableFlags, w);
      NextIsMapped(start, first, before, second, Now(), Stock(), g, i, u, pages, ok);
      WaysTransitive(start, before, Now(), LinkAccess(tableFlags));
    }

    // The i-th call of vmm_map ...
    method MapKernelPage(virt: nat, phys: nat, count: nat, flags: nat, i: nat, ghost start: Snap, ghost first: FP.Stock)
      returns (ok: bool)
      requires Valid() && Good(start) && start.t.kernel == kernel && i < count
      requires phys / PAGE_SIZE + count <= FRAME_LIMIT && FlagBits(flags)
      requires Ranged(start, first, Now(), Stock(), KernelSpan(kernel, virt, phys, flags), i, Access(false, true, true))
      modifies this`mem, this`lab, pmm, pmm.bitmap
      ensures Valid() && pmm.bitmap == old(pmm.bitmap) && data == old(data)
      ensures ok ==> i < PAGES && Ranged(start, first, Now(), Stock(), KernelSpan(kernel, virt, phys, flags), i + 1,
                                          Access(false, true, true))
      ensures !ok ==> RangeEnds(start, first, Now(), Stock(), KernelSpan(kernel, virt, phys, flags), i, false,
                                Aligned4K(virt, phys), Access(false, true, true))
    {
      var u, aligned, w := KernelArguments(kernel, virt, phys, count, flags, i);
      ok := MapNext(u, aligned, PTE_WRITE, w, KernelSpan(kernel, virt, phys, flags), i, start, first, PagesFrom(virt, i));
      assert PagesFrom(virt, i + 1) == PagesFrom(virt, i) + [u];
    }

    // ... and of vmm_map_for_pml4.
    method MapUserPage(root: nat, virt: nat, phys: nat, count: nat, flags: nat, i: nat, ghost start: Snap, ghost first: FP.Stock)
      returns (ok: bool)
      requires Valid() && Good(start) && start.t.kernel == kernel && i < count
      requires phys / PAGE_SIZE + count <= FRAME_LIMIT && FlagBits(flags)
      requires IsRoot(start.t, root) && root != kernel && virt + count * PAGE_SIZE <= LOWER_HALF
      requires Ranged(start, first, Now(), Stock(), UserSpan(root, virt, phys, flags), i, FULL)
      modifies this`mem, this`lab, pmm, pmm.bitmap
      ensures Valid() && pmm.bitmap == old(pmm.bitmap) && data == old(data)
      ensures ok ==> i < PAGES && Ranged(start, first, Now(), Stock(), UserSpan(root, virt, phys, flags), i + 1, FULL)
      ensures !ok ==> RangeEnds(start, first, Now(), Stock(), UserSpan(root, virt, phys, flags), i, false, Aligned4K(virt, phys), FULL)
    {
      var u, aligned, w := UserArguments(root, virt, phys, count, flags, i);
      ok := MapNext(u, aligned, PTE_WRITE + PTE_USER, w, UserSpan(root, virt, phys, flags), i, start, first, PagesFrom(virt, i));
      assert PagesFrom(virt, i + 1) == PagesFrom(virt, i) + [u];
    }

    // vmm_map_range: all `count` pages, or on failure exactly the first `done` of them.
    method MapRange(virt: nat, phys: nat, count: nat, flags: nat) returns (ok: bool, ghost done: nat)
      requires Valid() && phys / PAGE_SIZE + count <= FRAME_LIMIT && FlagBits(flags)
      modifies this`mem, this`lab, pmm, pmm.bitmap
      ensures Valid() && pmm.bitmap == old(pmm.bitmap) && data == old(data)
      ensures done <= count && done <= PAGES && (ok <==> done == count)
      ensures RangeEnds(old(Now()), old(Stock()), Now(), Stock(), KernelSpan(kernel, virt, phys, flags), done, ok,
                        Aligned4K(virt, phys), Access(false, true, true))
    {
      ghost var start, first := Now(), Stock();
      NothingMapped(start, first, KernelSpan(kernel, virt, phys, flags), Access(false, true, true));
      for i := 0 to count
        invariant Valid() && pmm.bitmap == old(pmm.bitmap)
        invariant data == old(data) && i <= PAGES
        invariant Ranged(start, first, Now(), Stock(), KernelSpan(kernel, virt, phys, flags), i, Access(false, true, true))
      {
        var mapped := MapKernelPage(virt, phys, count, flags, i, start, first);
        if !mapped {
          return false, i;
        }
      }
      RangeIsDone(start, first, Now(), Stock(), KernelSpan(kernel, virt, phys, flags), count, Aligned4K(virt, phys),
                  Access(false, true, true));
      return true, count;
    }

    // vmm_map_range_for_pml4
    method MapRangeForPml4(root: nat, virt: nat, phys: nat, count: nat, flags: nat) returns (ok: bool, ghost done: nat)
      requires Valid() && IsRoot(Now().t, root) && root != kernel && virt + count * PAGE_SIZE <= LOWER_HALF
      requires phys / PAGE_SIZE + count <= FRAME_LIMIT && FlagBits(flags)
      modifies this`mem, this`lab, pmm, pmm.bitmap
      ensures Valid() && pmm.bitmap == old(pmm.bitmap) && data == old(data)
      ensures done <= count && (ok <==> done == count)
      ensures RangeEnds(old(Now()), old(Stock()), Now(), Stock(), UserSpan(root, virt, phys, flags), done, ok, Aligned4K(virt, phys), FULL)
      ensures forall k :: 0 <= k < done ==> Rights(mem, root, PageAt(virt, k)) == Some(FlagAccess(flags))
    {
      ghost var start, first := Now(), Stock();
      NothingMapped(start, first, UserSpan(root, virt, phys, flags), FULL);
      for i := 0 to count
        invariant Valid() && pmm.bitmap == old(pmm.bitmap)
        invariant data == old(data)
        invariant Ranged(start, first, Now(), Stock(), UserSpan(root, virt, phys, flags), i, FULL)
      {
        var mapped := MapUserPage(root, virt, phys, count, flags, i, start, first);
        if !mapped {
          RangeRights(start, Now(), root, virt, phys, count, flags, i);
          return false, i;
        }
      }
      RangeRights(start, Now(), root, virt, phys, count, flags, count);
      RangeIsDone(start, first, Now(), Stock(), UserSpan(root, virt, phys, flags), count, Aligned4K(virt, phys), FULL);
      return true, count;
    }

    // vmm_unmap_range: what is not mapped, or not aligned, is passed over.
    method UnmapRange(virt: nat, count: nat) returns (ok: bool)
      requires Valid()
      modifies this`mem
      ensures ok && Valid() && Kept(old(Now()), Now())
      ensures if virt % PAGE_SIZE == 0 then RangeUnmaps(old(Now()), Now(), virt, count) else Now() == old(Now())
    {
      ghost var start := Now();
      UnmapsNothing(start, virt);
      for i := 0 to count
        invariant Valid() && Kept(start, Now())
        invariant if virt % PAGE_SIZE == 0 then RangeUnmaps(start, Now(), virt, i) else Now() == start
      {
        UnmapNext(AddressAt(virt, i), virt, i, start);
      }
      return true;
    }

    // One turn of its loop.
    method UnmapNext(page: nat, ghost virt: nat, ghost i: nat, ghost start: Snap)
      requires Valid() && IsRoot(start.t, start.t.kernel) && Kept(start, Now()) && PageOf(page) == PageAt(virt, i)
      requires if page % PAGE_SIZE == 0 then RangeUnmaps(start, Now(), virt, i) else Now() == start
      modifies this`mem
      ensures Valid() && Kept(start, Now())
      ensures if page % PAGE_SIZE == 0 then RangeUnmaps(start, Now(), virt, i + 1) else Now() == start
    {
      ghost var before := Now();
      var ok := Unmap(page);
      if page % PAGE_SIZE == 0 {
        UnmapStep(start, before, Now(), virt, i, PageOf(page), ok);
      }
    }

    // A new task's PML4: pmm_alloc_zeroed, then the kernel's slots 256 to 511 copied in.
    method NewSpace() returns (r: Option<nat>)
      requires Valid()
      modifies this`mem, this`lab, pmm, pmm.bitmap
      ensures Valid() && pmm.bitmap == old(pmm.bitmap) && data == old(data)
      ensures r.Some? <==> 0 < old(Stock()).Avail()
      ensures FP.Took(old(Stock()), Stock(), if r.Some? then 1 else 0)
      ensures r.None? ==> Now() == old(Now())
      ensures r.Some? ==> Kept(old(Now()), Now()) && Unmoved(old(Now()), Now()) && Opens(old(Now()), Now(), r.value)
    {
      ghost var before := Now();
      r := AllocZeroed();
      if r.None? {
        return;
      }
      assert RootPage(mem, kernel) == RootPage(before.t.tab, kernel);
      CopyUpperHalf(r.value);
      assert mem == before.t.tab[r.value := RootPage(before.t.tab, kernel)];
      lab := lab[r.value := Root(r.value)];
      assert Now() == NewRoot(before, r.value);
      NewRootKeeps(before, r.value);
      NewRootOpens(before, r.value);
    }

    method CopyUpperHalf(g: nat)
      requires g in mem && mem[g] == ZeroPage() && g != kernel
      modifies this`mem
      ensures mem == old(mem)[g := RootPage(old(mem), kernel)]
    {
      ghost var base := mem;
      for i := 256 to 512
        invariant g in mem && |mem[g]| == 512 && mem == base[g := mem[g]]
        invariant forall j: Index :: mem[g][j] == if 256 <= j < i then Entry(base, kernel, j) else 0
      {
        mem := Put(mem, g, i, Entry(mem, kernel, i));
      }
      assert mem[g] == RootPage(base, kernel);
    }

    // Performed or refused, by the rule for cells, at the price the rule names.
    method Perform(op: SR.Op) returns (ok: bool)
      requires Valid() && SR.Permitted(Now(), op)
      modifies this`mem, this`lab, pmm, pmm.bitmap
      ensures Valid() && pmm.bitmap == old(pmm.bitmap)
      ensures SR.Performs(old(Now()), Now(), op, old(Stock()).Avail(), ok)
      ensures FP.Took(old(Stock()), Stock(), SR.Spends(SR.OwnCell(old(Now()), op), op, old(Stock()).Avail()))
    {
      if op.Maps() {
        ok := PerformMapping(op);
      } else {
        ok := PerformUnmapping(op);
      }
    }

    method PerformMapping(op: SR.Op) returns (ok: bool)
      requires Valid() && SR.Permitted(Now(), op) && op.Maps()
      modifies this`mem, this`lab, pmm, pmm.bitmap
      ensures Valid() && pmm.bitmap == old(pmm.bitmap)
      ensures SR.Performs(old(Now()), Now(), op, old(Stock()).Avail(), ok)
      ensures FP.Took(old(Stock()), Stock(), SR.Spends(SR.OwnCell(old(Now()), op), op, old(Stock()).Avail()))
    {
      match op
      case Map(_, _, _) => ok := PerformMap(op);
      case MapHuge(virt, phys, flags) => ok := PerformMapHuge(virt, phys, flags);
      case MapFor(_, _, _, _) => ok := PerformMapFor(op);
    }

    method PerformMap(op: SR.Op) returns (ok: bool)
      requires Valid() && SR.Permitted(Now(), op) && op.Map?
      modifies this`mem, this`lab, pmm, pmm.bitmap
      ensures Valid() && pmm.bitmap == old(pmm.bitmap)
      ensures SR.Performs(old(Now()), Now(), op, old(Stock()).Avail(), ok)
      ensures FP.Took(old(Stock()), Stock(), SR.Spends(SR.OwnCell(old(Now()), op), op, old(Stock()).Avail()))
    {
      ghost var before, avail := Now(), Stock().Avail();
      ok := Map(op.virt, op.phys, op.flags);
      if ok {
        SR.MapPerforms(before, Now(), op, avail);
      } else {
        SR.RefusedPerforms(before, Now(), op, avail);
      }
    }

    method PerformMapHuge(virt: nat, phys: nat, flags: nat) returns (ok: bool)
      requires Valid() && phys / PAGE_SIZE < FRAME_LIMIT && FlagBits(flags)
      modifies this`mem, this`lab, pmm, pmm.bitmap
      ensures Valid() && pmm.bitmap == old(pmm.bitmap)
      ensures var op := SR.MapHuge(virt, phys, flags);
              && SR.Performs(old(Now()), Now(), op, old(Stock()).Avail(), ok)
              && FP.Took(old(Stock()), Stock(), SR.Spends(SR.OwnCell(old(Now()), op), op, old(Stock()).Avail()))
    {
      ghost var before, first := Now(), Stock();
      ok := MapHuge(virt, phys, flags);
      MapHugePerformed(before, first, Now(), Stock(), virt, phys, flags, ok);
    }

    method PerformMapFor(op: SR.Op) returns (ok: bool)
      requires Valid() && SR.Permitted(Now(), op) && op.MapFor?
      modifies this`mem, this`lab, pmm, pmm.bitmap
      ensures Valid() && pmm.bitmap == old(pmm.bitmap)
      ensures SR.Performs(old(Now()), Now(), op, old(Stock()).Avail(), ok)
      ensures FP.Took(old(Stock()), Stock(), SR.Spends(SR.OwnCell(old(Now()), op), op, old(Stock()).Avail()))
    {
      ghost var before, avail := Now(), Stock().Avail();
      ok := MapForPml4(op.root, op.virt, op.phys, op.flags);
      if ok {
        SR.MapPerforms(before, Now(), op, avail);
      } else {
        SR.RefusedPerforms(before, Now(), op, avail);
      }
    }

    method PerformUnmapping(op: SR.Op) returns (ok: bool)
      requires Valid() && !op.Maps()
      modifies this`mem
      ensures Valid() && SR.Performs(old(Now()), Now(), op, Stock().Avail(), ok)
    {
      ghost var before, avail := Now(), Stock().Avail();
      match op {
        case Unmap(virt) =>
          ok := Unmap(virt);
          if ok {
            SR.UnmapPerforms(before, Now(), virt, avail);
          }
        case UnmapHuge(virt) =>
          ok := UnmapHuge(virt);
          if ok {
            SR.UnmapHugePerforms(before, Now(), virt, avail);
          }
      }
      if !ok {
        SR.RefusedPerforms(before, Now(), op, avail);
      }
    }

    // Any run of operations is a run of the flat machine: its answers, its cells and its count of frames.
    method Run(ops: seq<SR.Op>) returns (oks: seq<bool>)
      requires Valid() && forall i :: 0 <= i < |ops| ==> SR.Permitted(Now(), ops[i])
      modifies this`mem, this`lab, pmm, pmm.bitmap
      ensures Valid() && Kept(old(Now()), Now())
      ensures var r := SR.FlatRun(SR.FlatOf(old(Now()), old(Stock()).Avail()), ops);
              oks == r.1 && SR.Agrees(old(Now()), Now(), Stock().Avail(), r.0)
    {
      ghost var start, d := Now(), SR.FlatOf(Now(), Stock().Avail());
      ghost var e := d;
      oks := [];
      SR.AgreesAtFirst(start, Stock().Avail());
      for i := 0 to |ops|
        invariant Valid() && pmm.bitmap == old(pmm.bitmap) && Kept(start, Now())
        invariant (e, oks) == SR.FlatRun(d, ops[..i]) && SR.Agrees(start, Now(), Stock().Avail(), e)
      {
        var ok := PerformNext(start, e, ops[i]);
        SR.RunOneMore(d, ops, i);
        e, oks := SR.FlatStep(e, ops[i]).0, oks + [ok];
      }
      assert ops[..|ops|] == ops;
    }

    method PerformNext(ghost start: Snap, ghost d: SR.Flat, op: SR.Op) returns (ok: bool)
      requires Valid() && SR.Permitted(start, op) && Kept(start, Now()) && SR.Agrees(start, Now(), Stock().Avail(), d)
      modifies this`mem, this`lab, pmm, pmm.bitmap
      ensures Valid() && pmm.bitmap == old(pmm.bitmap) && Kept(start, Now())
      ensures ok == SR.FlatStep(d, op).1 && SR.Agrees(start, Now(), Stock().Avail(), SR.FlatStep(d, op).0)
    {
      ghost var before := Now();
      SR.PermittedLater(start, before, op);
      ok := Perform(op);
      SR.AgreesOneMore(start, before, Now(), d, op, ok);
      KeptTransitive(start, before, Now());
    }
  }

  // ---- The price of tables ----

  // Tables have been made on the way to the page u of `root`, and each took one frame: no more than `goal`
  // are there because of it, and fewer only if no frame is left.
  ghost predicate Digs(s: Snap, a: FP.Stock, s': Snap, b: FP.Stock, root: nat, u: VPage, goal: nat,
                       access: Access) {
    var d, d' := Depth(s.t.tab, root, u), Depth(s'.t.tab, root, u);
    && Grown(s, s') && Deepened(s, s', root, u)
    && d <= d' <= Max(d, goal) && FP.Took(a, b, d' - d) && (d' < goal ==> b.Avail() == 0)
    && Ways(s, s', access)
  }

  lemma DigsNothing(s: Snap, a: FP.Stock, root: nat, u: VPage, goal: nat, access: Access)
    requires Good(s) && MayMap(s.t, root, u) && (goal <= Depth(s.t.tab, root, u) || a.Avail() == 0)
    ensures Digs(s, a, s, a, root, u, goal, access)
  {
    GrownReflexive(s);
    DeepenedReflexive(s, root, u);
  }

  lemma DigsOne(s: Snap, a: FP.Stock, s': Snap, b: FP.Stock, root: nat, u: VPage, f: nat, i: Index, access: Access)
    requires Good(s) && MayMap(s.t, root, u) && Hole(s.t.tab, root, u) == Some(Slot(f, i))
    requires Grows(s, s', f, i) && FP.Took(a, b, 1) && Ways(s, s', access)
    ensures Digs(s, a, s', b, root, u, Depth(s.t.tab, root, u) + 1, access) && Depth(s'.t.tab, root, u) == Depth(s.t.tab, root, u) + 1
  {
    HangsDeepens(s, s', root, u, f, i);
  }

  // Out of frames on the way to one goal is out of frames on the way to the next.
  lemma DigsFurther(s: Snap, a: FP.Stock, s': Snap, b: FP.Stock, root: nat, u: VPage, goal: nat, further: nat,
                    access: Access)
    requires Digs(s, a, s', b, root, u, goal, access) && Depth(s'.t.tab, root, u) < goal <= further
    ensures Digs(s, a, s', b, root, u, further, access)
  {
  }

  lemma DigsTwice(s: Snap, a: FP.Stock, s1: Snap, b: FP.Stock, s2: Snap, c: FP.Stock, root: nat, u: VPage,
                  goal: nat, further: nat, access: Access)
    requires Digs(s, a, s1, b, root, u, goal, access) && Digs(s1, b, s2, c, root, u, further, access) && goal <= further
    ensures Digs(s, a, s2, c, root, u, further, access)
  {
    GrownTransitive(s, s1, s2);
    DeepenedTransitive(s, s1, s2, root, u);
    WaysTransitive(s, s1, s2, access);
  }

  // The tables that were missing have been made, as far as the frames went.
  ghost predicate Pays(s: Snap, a: FP.Stock, s': Snap, b: FP.Stock, root: nat, u: VPage, goal: nat) {
    var d := Depth(s.t.tab, root, u);
    var n := Made(d, goal, a.Avail());
    Deepened(s, s', root, u) && Depth(s'.t.tab, root, u) == d + n && FP.Took(a, b, n)
  }

  lemma DigsPays(s: Snap, a: FP.Stock, s': Snap, b: FP.Stock, root: nat, u: VPage, goal: nat, access: Access)
    requires Digs(s, a, s', b, root, u, goal, access)
    ensures Pays(s, a, s', b, root, u, goal)
  {
  }

  // For a 2 MiB page: the upper two tables, and the entry itself if it was written.
  ghost predicate PaysHuge(s: Snap, a: FP.Stock, s': Snap, b: FP.Stock, u: VPage, ok: bool) {
    var root := s.t.kernel;
    var d := Depth(s.t.tab, root, u);
    var n := Made(d, 2, a.Avail());
    Deepened(s, s', root, u) && Depth(s'.t.tab, root, u) == (if ok then 3 else d + n) && FP.Took(a, b, n)
  }

  lemma MapHugePerformed(s: Snap, a: FP.Stock, s': Snap, b: FP.Stock, virt: nat, phys: nat, flags: nat, ok: bool)
    requires Good(s) && phys / PAGE_SIZE < FRAME_LIMIT && FlagBits(flags) && Kept(s, s')
    requires ok <==> Aligned2M(virt, phys) && Depth(s.t.tab, s.t.kernel, PageOf(virt)) < 3
                     && 2 <= Depth(s.t.tab, s.t.kernel, PageOf(virt)) + a.Avail()
    requires if Aligned2M(virt, phys) then PaysHuge(s, a, s', b, PageOf(virt), ok) else s' == s && b == a
    requires if ok then MapsRegion(s, s', PageOf(virt), phys + SetHuge(SetPresent(flags))) else Unmoved(s, s')
    ensures var op := SR.MapHuge(virt, phys, flags);
            SR.Performs(s, s', op, a.Avail(), ok) && FP.Took(a, b, SR.Spends(SR.OwnCell(s, op), op, a.Avail()))
  {
    if ok {
      SR.MapHugePerforms(s, s', virt, phys, flags, a.Avail());
    } else {
      HugeRefused(s, a, s', b, virt, phys, flags);
    }
  }

  lemma HugeRefused(s: Snap, a: FP.Stock, s': Snap, b: FP.Stock, virt: nat, phys: nat, flags: nat)
    requires Kept(s, s') && Unmoved(s, s')
    requires Aligned2M(virt, phys) ==> var d := Depth(s.t.tab, s.t.kernel, PageOf(virt)); d == 3 || d + a.Avail() < 2
    requires if Aligned2M(virt, phys) then PaysHuge(s, a, s', b, PageOf(virt), false) else s' == s && b == a
    ensures SR.Performs(s, s', SR.MapHuge(virt, phys, flags), a.Avail(), false)
  {
    SR.RefusedPerforms(s, s', SR.MapHuge(virt, phys, flags), a.Avail());
  }

  // All the tables on the ways to the pages are there, and those that were missing took one frame each.
  ghost predicate Paid(s: Snap, a: FP.Stock, s': Snap, b: FP.Stock, root: nat, pages: seq<VPage>) {
    Opened(s, s', root, pages) && FP.Took(a, b, Cost(s.t.tab, root, pages))
  }

  // The first i pages of a range have been mapped and paid for, with links that grant `access`.
  ghost predicate Ranged(s: Snap, a: FP.Stock, s': Snap, b: FP.Stock, g: Span, i: nat, access: Access) {
    Kept(s, s') && RangeMaps(s, s', g, i) && Ways(s, s', access) && Paid(s, a, s', b, g.root, PagesFrom(g.virt, i))
  }

  // So have the first `done`, which are all of them if ok; if not, mapping stopped at the next.
  ghost predicate RangeEnds(s: Snap, a: FP.Stock, s': Snap, b: FP.Stock, g: Span, done: nat, ok: bool, aligned: bool,
                            access: Access) {
    && Kept(s, s') && RangeMaps(s, s', g, done) && Ways(s, s', access)
    && RangePaid(s, a, s', b, g.root, g.virt, done, ok, aligned)
  }

  lemma RangeIsDone(s: Snap, a: FP.Stock, s': Snap, b: FP.Stock, g: Span, count: nat, aligned: bool, access: Access)
    requires Ranged(s, a, s', b, g, count, access)
    ensures RangeEnds(s, a, s', b, g, count, true, aligned, access)
  {
  }

  // Before the first page of a range.
  lemma NothingMapped(s: Snap, a: FP.Stock, g: Span, access: Access)
    requires Good(s) && IsRoot(s.t, g.root)
    ensures Ranged(s, a, s, a, g, 0, access)
  {
    OpenedNothing(s, g.root);
    assert PagesFrom(g.virt, 0) == [];
  }

  // Mapping the pages stopped at the last of them, u: it was mapped, or the frames did not go that far.
  ghost predicate Unpaid(s: Snap, a: FP.Stock, s': Snap, b: FP.Stock, root: nat, pages: seq<VPage>, u: VPage) {
    var cost := Cost(s.t.tab, root, pages);
    FP.Took(a, b, Min(cost, a.Avail())) && (Lookup(s'.t.tab, root, u).Some? || a.Avail() < cost)
  }

  lemma PaidOneMore(s: Snap, a: FP.Stock, s1: Snap, b: FP.Stock, s2: Snap, c: FP.Stock, root: nat,
                    pages: seq<VPage>, u: VPage, ok: bool)
    requires Paid(s, a, s1, b, root, pages) && IsRoot(s1.t, root) && Pays(s1, b, s2, c, root, u, 3)
    requires ok <==> Lookup(s1.t.tab, root, u).None? && 3 <= Depth(s1.t.tab, root, u) + b.Avail()
    requires !ok ==> Unmoved(s1, s2)
    ensures if ok then Paid(s, a, s2, c, root, pages + [u]) else Unpaid(s, a, s2, c, root, pages + [u], u)
  {
    CostOneMore(s, s1, root, pages, u);
    if ok {
      OpenedOneMore(s, s1, s2, root, pages, u);
    }
  }

  lemma NextIsMapped(s: Snap, a: FP.Stock, s1: Snap, b: FP.Stock, s2: Snap, c: FP.Stock, g: Span, i: nat, u: VPage,
                     pages: seq<VPage>, ok: bool)
    requires IsRoot(s.t, g.root) && Kept(s, s1) && Kept(s1, s2) && RangeMaps(s, s1, g, i) && u == PageAt(g.virt, i)
    requires Paid(s, a, s1, b, g.root, pages) && Pays(s1, b, s2, c, g.root, u, 3)
    requires ok <==> Lookup(s1.t.tab, g.root, u).None? && 3 <= Depth(s1.t.tab, g.root, u) + b.Avail()
    requires if ok then Maps(s1, s2, g.root, u, Some(g.LeafAt(i))) else Unmoved(s1, s2)
    ensures Kept(s, s2) && RangeMaps(s, s2, g, if ok then i + 1 else i) && (ok ==> i < PAGES)
    ensures if ok then Paid(s, a, s2, c, g.root, pages + [u]) else Unpaid(s, a, s2, c, g.root, pages + [u], u)
  {
    RangeStep(s, s1, s2, g, i, u, ok);
    PaidOneMore(s, a, s1, b, s2, c, g.root, pages, u, ok);
  }

  // What a range of pages has cost: all of them, or up to the one at which mapping stopped.
  ghost predicate RangePaid(s: Snap, a: FP.Stock, s': Snap, b: FP.Stock, root: nat, virt: nat, done: nat, ok: bool, aligned: bool) {
    if ok || !aligned then Paid(s, a, s', b, root, PagesFrom(virt, done))
    else Unpaid(s, a, s', b, root, PagesFrom(virt, done + 1), PageAt(virt, done))
  }

  lemma TakenExtends(s: Snap, s': Snap, b: nat, n: nat)
    requires Good(s) && b + n <= |s.bits| == |s'.bits| && s'.t == Forest(s'.t.tab, s.t.lab, s.t.kernel)
    requires forall f :: 0 <= f < |s.bits| ==>
               (s'.bits[f] == (InBlock(b, n, f) || s.bits[f])) && (InBlock(b, n, f) ==> !s.bits[f])
    requires forall f :: f in s'.t.tab <==> f in s.t.tab || InBlock(b, n, f)
    requires forall f :: f in s'.t.tab ==> s'.t.tab[f] == if InBlock(b, n, f) then ZeroPage() else s.t.tab[f]
    requires forall f :: f in s'.data <==> f in s.data || InBlock(b, n, f)
    ensures Extends(s, s', b, n) && Good(s')
  {
    ExtendsStep(s, s', b, n);
  }

  // The page, the alignment test and the entry for the i-th page of a range, in vmm_map ...
  method KernelArguments(ghost root: nat, virt: nat, phys: nat, count: nat, flags: nat, i: nat)
    returns (u: VPage, aligned: bool, w: nat)
    requires i < count && phys / PAGE_SIZE + count <= FRAME_LIMIT && FlagBits(flags)
    ensures u == PageAt(virt, i) && aligned == Aligned4K(virt, phys)
    ensures aligned ==> Present(w) && LeafOf(w) == KernelSpan(root, virt, phys, flags).LeafAt(i)
  {
    var v, p := virt + i * PAGE_SIZE, phys + i * PAGE_SIZE;
    u, aligned, w := PageOf(v), v % PAGE_SIZE == 0 && p % PAGE_SIZE == 0, p + SetPresent(flags);
    NextFrame(phys, i);
    NextFrame(virt, i);
    LeafWord(phys / PAGE_SIZE + i, flags);
  }

  // ... and in vmm_map_for_pml4.
  method UserArguments(ghost root: nat, virt: nat, phys: nat, count: nat, flags: nat, i: nat)
    returns (u: VPage, aligned: bool, w: nat)
    requires i < count && phys / PAGE_SIZE + count <= FRAME_LIMIT && FlagBits(flags)
    requires virt + count * PAGE_SIZE <= LOWER_HALF
    ensures u == PageAt(virt, i) && aligned == Aligned4K(virt, phys) && u.i4 < 256
    ensures aligned ==> Present(w) && LeafOf(w) == UserSpan(root, virt, phys, flags).LeafAt(i)
  {
    var v, p := virt + i * PAGE_SIZE, phys + i * PAGE_SIZE;
    u, aligned, w := PageOf(v), v % PAGE_SIZE == 0 && p % PAGE_SIZE == 0, (p + SetPresent(flags)) % PTE_NX;
    NextFrame(phys, i);
    NextFrame(virt, i);
    LowerHalfPage(v);
    UserLeafWord(phys / PAGE_SIZE + i, flags);
  }

  lemma MappedRights(s: Snap, root: nat, v: VPage, frame: nat, flags: nat)
    requires Good(s) && IsRoot(s.t, root) && root != s.t.kernel && v.i4 < 256 && FlagBits(flags)
    ensures Lookup(s.t.tab, root, v) == Some(Leaf(frame, SetPresent(LowFlags(flags)), 0, false)) ==>
              Rights(s.t.tab, root, v) == Some(FlagAccess(flags))
  {
    FlagsGrant(flags, frame);
    UserRights(s, root, v);
  }

  // The pages mapped for a task have the rights that the flags ask for, NX apart.
  lemma RangeRights(s: Snap, s': Snap, root: nat, virt: nat, phys: nat, count: nat, flags: nat, done: nat)
    requires Good(s') && IsRoot(s.t, root) && Kept(s, s') && root != s.t.kernel && virt + count * PAGE_SIZE <= LOWER_HALF
    requires RangeMaps(s, s', UserSpan(root, virt, phys, flags), done) && done <= count && FlagBits(flags)
    ensures forall k :: 0 <= k < done ==> Rights(s'.t.tab, root, PageAt(virt, k)) == Some(FlagAccess(flags))
  {
    forall k | 0 <= k < done
      ensures Rights(s'.t.tab, root, PageAt(virt, k)) == Some(FlagAccess(flags))
    {
      PageRights(s, s', UserSpan(root, virt, phys, flags), count, flags, done, k);
    }
  }

  lemma PageRights(s: Snap, s': Snap, g: Span, count: nat, flags: nat, done: nat, k: nat)
    requires Good(s') && IsRoot(s.t, g.root) && Kept(s, s') && g.root != s.t.kernel && g.virt + count * PAGE_SIZE <= LOWER_HALF
    requires RangeMaps(s, s', g, done) && k < done <= count && FlagBits(flags)
    requires g.flags == SetPresent(LowFlags(flags)) && g.high == 0
    ensures Rights(s'.t.tab, g.root, PageAt(g.virt, k)) == Some(FlagAccess(flags))
  {
    var v := PageAt(g.virt, k);
    PagesBelow(g.virt, count, k);
    assert Lookup(s'.t.tab, g.root, v) == RangeLookup(s, g, done, g.root, v);
    MappedRights(s', g.root, v, g.frame + k, flags);
  }

  lemma PagesBelow(virt: nat, count: nat, k: nat)
    requires k < count && virt + count * PAGE_SIZE <= LOWER_HALF
    ensures PageAt(virt, k).i4 < 256 && Offset(virt, PageAt(virt, k)) == k
  {
    LowerHalfPage(virt + k * PAGE_SIZE);
    OffsetOf(virt, k, PageAt(virt, k));
  }

  // What vmm_map_range and vmm_map_range_for_pml4 map.
  function KernelSpan(root: nat, virt: nat, phys: nat, flags: nat): Span {
    Span(root, virt, phys / PAGE_SIZE, SetPresent(LowFlags(flags)), HighFlags(flags))
  }

  function UserSpan(root: nat, virt: nat, phys: nat, flags: nat): Span {
    Span(root, virt, phys / PAGE_SIZE, SetPresent(LowFlags(flags)), 0)
  }
}

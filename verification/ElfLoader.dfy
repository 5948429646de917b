/**
 load_elf: for each loadable segment, take zeroed frames, copy the file's bytes into them and map them
 into the new address space.
 */
module ElfLoader {
  import opened Prelude
  import FP = FramePool
  import opened PageWords
  import opened PageTables
  import opened SpaceState
  import opened PageRanges
  import opened TableCosts
  import opened PhysicalBytes
  import opened AddressSpaces
  import opened ElfFormat
  import opened ElfImage
  import opened ElfOutcome

  // The pages of the block are in memory; only they may differ between tab and tab'.
  ghost predicate SameOutside(tab: Tables, tab': Tables, b: nat, n: nat) {
    && (forall f :: f in tab' <==> f in tab)
    && (forall f :: f in tab ==> if InBlock(b, n, f) then |tab'[f]| == 512 else tab'[f] == tab[f])
  }

  // The first k bytes of src have been copied to position off of the block.
  ghost predicate Copied(tab: Tables, tab': Tables, b: nat, n: nat, off: nat, src: seq<nat>, k: nat)
    requires k <= |src|
  {
    forall p :: 0 <= p < n * PAGE_SIZE ==>
      BlockByte(tab', b, p) == if off <= p < off + k then src[p - off] else BlockByte(tab, b, p)
  }

  lemma PutInside(tab: Tables, tab': Tables, b: nat, n: nat, f: nat, o: nat, x: nat)
    requires SameOutside(tab, tab', b, n) && InBlock(b, n, f) && f in tab && o < PAGE_SIZE
    ensures |tab'[f]| == 512 && SameOutside(tab, PutPageByte(tab', f, o, x), b, n)
  {
  }

  lemma CopiedOneMore(tab: Tables, tab': Tables, tab'': Tables, b: nat, n: nat, off: nat, src: seq<nat>, k: nat)
    requires k < |src| && Copied(tab, tab', b, n, off, src, k)
    requires forall p :: 0 <= p < n * PAGE_SIZE ==>
               BlockByte(tab'', b, p) == if p == off + k then src[k] else BlockByte(tab', b, p)
    ensures Copied(tab, tab'', b, n, off, src, k + 1)
  {
  }

  lemma CopyOneMore(tab: Tables, tab': Tables, b: nat, n: nat, off: nat, src: seq<nat>, k: nat)
    requires Bytes(src) && k < |src| && off + |src| <= n * PAGE_SIZE
    requires forall f :: InBlock(b, n, f) ==> f in tab
    requires SameOutside(tab, tab', b, n) && Copied(tab, tab', b, n, off, src, k)
    ensures var f, o := b + (off + k) / PAGE_SIZE, (off + k) % PAGE_SIZE;
            && f in tab' && |tab'[f]| == 512
            && SameOutside(tab, PutPageByte(tab', f, o, src[k]), b, n)
            && Copied(tab, PutPageByte(tab', f, o, src[k]), b, n, off, src, k + 1)
  {
    BelowLimit(off + k, n);
    var f, o := b + (off + k) / PAGE_SIZE, (off + k) % PAGE_SIZE;
    PutInside(tab, tab', b, n, f, o, src[k]);
    var tab'' := PutPageByte(tab', f, o, src[k]);
    PutBlockBytes(tab', tab'', b, n, off + k, src[k]);
    CopiedOneMore(tab, tab', tab'', b, n, off, src, k);
  }

  lemma PutBlockBytes(tab: Tables, tab': Tables, b: nat, n: nat, at: nat, x: nat)
    requires b + at / PAGE_SIZE in tab && |tab[b + at / PAGE_SIZE]| == 512 && x < 256
    requires tab' == PutPageByte(tab, b + at / PAGE_SIZE, at % PAGE_SIZE, x)
    ensures forall p :: 0 <= p < n * PAGE_SIZE ==>
              BlockByte(tab', b, p) == if p == at then x else BlockByte(tab, b, p)
  {
    forall p | 0 <= p < n * PAGE_SIZE
      ensures BlockByte(tab', b, p) == if p == at then x else BlockByte(tab, b, p)
    {
      PutBlockByte(tab, b, at, x, p);
    }
  }

  // memcpy(block + off, src, |src|)
  method CopyBytes(vmm: Vmm, b: nat, ghost n: nat, off: nat, src: seq<nat>)
    requires Bytes(src) && off + |src| <= n * PAGE_SIZE
    requires forall f :: InBlock(b, n, f) ==> f in vmm.mem && |vmm.mem[f]| == 512
    modifies vmm`mem
    ensures SameOutside(old(vmm.mem), vmm.mem, b, n)
    ensures Copied(old(vmm.mem), vmm.mem, b, n, off, src, |src|)
  {
    ghost var before := vmm.mem;
    for k := 0 to |src|
      invariant SameOutside(before, vmm.mem, b, n) && Copied(before, vmm.mem, b, n, off, src, k)
    {
      CopyOneMore(before, vmm.mem, b, n, off, src, k);
      vmm.mem := PutPageByte(vmm.mem, b + (off + k) / PAGE_SIZE, (off + k) % PAGE_SIZE, src[k]);
    }
  }

  lemma CopyIntoData(s: Snap, s1: Snap, tab: Tables, b: nat, n: nat)
    requires Good(s) && Extends(s, s1, b, n) && SameOutside(s1.t.tab, tab, b, n)
    ensures Extends(s, s1.(t := s1.t.(tab := tab)), b, n)
  {
  }

  // Zeroed pages into which the file's bytes have been copied hold the segment.
  lemma CopyStages(tab: Tables, tab': Tables, b: nat, file: seq<nat>, seg: Segment)
    requires SegmentOk(file, seg)
    requires forall f :: InBlock(b, seg.Pages(), f) ==> f in tab && tab[f] == ZeroPage()
    requires Copied(tab, tab', b, seg.Pages(), seg.PageOffset(), file[seg.offset..seg.offset + seg.filesz], seg.filesz)
    ensures Staged(tab', b, file, seg)
  {
    PagesCover(seg);
    var src := file[seg.offset..seg.offset + seg.filesz];
    forall j | 0 <= j < seg.memsz
      ensures BlockByte(tab', b, seg.PageOffset() + j) == Wanted(file, seg, j)
    {
      var p := seg.PageOffset() + j;
      BelowLimit(p, seg.Pages());
      assert InBlock(b, seg.Pages(), b + p / PAGE_SIZE);
      ZeroPageBytes(tab, b + p / PAGE_SIZE, p % PAGE_SIZE);
      if j < seg.filesz {
        assert src[j] == file[seg.offset + j];
      }
    }
  }

  // The frames of a segment, taken, zeroed and filled.
  method StageSegment(vmm: Vmm, file: seq<nat>, seg: Segment) returns (r: Option<nat>)
    requires vmm.Valid() && Bytes(file) && SegmentOk(file, seg)
    modifies vmm`mem, vmm`data, vmm.pmm, vmm.pmm.bitmap
    ensures vmm.Valid() && vmm.pmm.bitmap == old(vmm.pmm.bitmap)
    ensures r.None? <==> old(vmm.Stock()).Refuses(seg.Pages())
    ensures FP.Took(old(vmm.Stock()), vmm.Stock(), if r.Some? then seg.Pages() else 0)
    ensures r.None? ==> vmm.Now() == old(vmm.Now()) && vmm.Stock() == old(vmm.Stock())
    ensures r.Some? ==> Extends(old(vmm.Now()), vmm.Now(), r.value, seg.Pages()) && Staged(vmm.mem, r.value, file, seg)
  {
    ghost var before := vmm.Now();
    var count, src := seg.Pages(), file[seg.offset..seg.offset + seg.filesz];
    r := vmm.AllocBlock(count);
    if r.None? {
      return;
    }
    ghost var taken := vmm.Now();
    assert seg.PageOffset() + |src| <= count * PAGE_SIZE by {
      PagesCover(seg);
    }
    CopyBytes(vmm, r.value, count, seg.PageOffset(), src);
    CopyIntoData(before, taken, vmm.mem, r.value, count);
    ExtendsStep(before, vmm.Now(), r.value, count);
    CopyStages(taken.t.tab, vmm.mem, r.value, file, seg);
  }

  // pmm_free_frames on a block whose mapping failed.
  method Unstage(vmm: Vmm, b: nat, n: nat, ghost start: Snap)
    requires vmm.Valid() && Good(start) && Kept(start, vmm.Now()) && 0 < n && vmm.pmm.freeFrames + n < TWO_64
    requires forall f: nat :: InBlock(b, n, f) ==> f < |start.bits| && !start.bits[f] && f in vmm.data
    modifies vmm`data, vmm.pmm, vmm.pmm.bitmap
    ensures vmm.Valid() && vmm.pmm.bitmap == old(vmm.pmm.bitmap)
    ensures Kept(start, vmm.Now()) && vmm.Now().t == old(vmm.Now().t)
    ensures Releases(old(vmm.Now()), vmm.Now(), b, n) && FP.Took(vmm.Stock(), old(vmm.Stock()), n)
  {
    ghost var before := vmm.Now();
    GiveBack(vmm, b, n);
    vmm.data := vmm.data - Frames(b, n);
    ReleaseStep(start, before, vmm.Now(), b, n);
  }

  method GiveBack(vmm: Vmm, b: nat, n: nat)
    requires vmm.pmm.Valid() && vmm.pmm.bitmap != null && 0 < n && vmm.pmm.freeFrames + n < TWO_64
    requires forall f: nat :: InBlock(b, n, f) ==> f < |vmm.pmm.bits| && vmm.pmm.bits[f]
    modifies vmm.pmm, vmm.pmm.bitmap
    ensures vmm.pmm.Valid() && vmm.pmm.bitmap == old(vmm.pmm.bitmap) && |vmm.pmm.bits| == |old(vmm.pmm.bits)|
    ensures forall f :: 0 <= f < |vmm.pmm.bits| ==> vmm.pmm.bits[f] == (old(vmm.pmm.bits)[f] && !InBlock(b, n, f))
    ensures FP.Took(vmm.Stock(), old(vmm.Stock()), n)
  {
    ghost var p := vmm.pmm.View();
    assert InBlock(b, n, b + n - 1);
    assert forall f :: b <= f < b + n ==> InBlock(b, n, f);
    FP.BlockGiven(p, FP.Block(b, n));
    vmm.pmm.FreeFrames(b * PAGE_SIZE, n);
  }

  // Changes to the map of `root` after a step that moved no page at all.
  lemma StageThenMap(s0: Snap, s1: Snap, s2: Snap, root: nat)
    requires IsRoot(s0.t, root) && Kept(s0, s1) && Unmoved(s0, s1)
    requires Kept(s1, s2) && OthersUnmoved(s1, s2, root)
    ensures Kept(s0, s2) && OthersUnmoved(s0, s2, root)
    ensures GrowsOnly(s1, s2, root) ==> GrowsOnly(s0, s2, root)
  {
    KeptTransitive(s0, s1, s2);
    forall r, v | IsRoot(s0.t, r) && r != root
      ensures Lookup(s2.t.tab, r, v) == Lookup(s0.t.tab, r, v)
    {
      assert IsRoot(s1.t, r);
    }
    if GrowsOnly(s1, s2, root) {
      forall v | Lookup(s0.t.tab, root, v).Some?
        ensures Lookup(s2.t.tab, root, v) == Lookup(s0.t.tab, root, v)
      {
        assert Lookup(s1.t.tab, root, v) == Lookup(s0.t.tab, root, v);
      }
    }
  }

  lemma SegmentArguments(root: nat, seg: Segment, b: nat)
    requires seg.vaddr + seg.memsz <= LOWER_HALF && b + seg.Pages() <= FRAME_LIMIT
    ensures var virt, phys, count, flags := seg.PageStart(), b * PAGE_SIZE, seg.Pages(), seg.PteFlags();
            && virt + count * PAGE_SIZE <= LOWER_HALF && count <= PAGES
            && phys / PAGE_SIZE + count <= FRAME_LIMIT && FlagBits(flags) && Aligned4K(virt, phys)
            && UserSpan(root, virt, phys, flags) == Span(root, virt, b, SetPresent(LowFlags(flags)), 0)
  {
    PagesCover(seg);
    PteFlagBits(seg);
    assert b * PAGE_SIZE / PAGE_SIZE == b;
    PagesFit(seg.PageStart(), seg.Pages());
  }

  lemma PagesFit(virt: nat, count: nat)
    requires virt + count * PAGE_SIZE <= LOWER_HALF
    ensures count <= PAGES
  {
  }

  // vmm_map_range_for_pml4 on the staged frames: all pages of the segment, or the first `done` of them,
  // stopped by a page that is mapped already or for want of a frame.
  method MapSegment(vmm: Vmm, seg: Segment, root: nat, b: nat) returns (ok: bool, ghost done: nat)
    requires vmm.Valid() && IsRoot(vmm.Now().t, root) && root != vmm.kernel
    requires seg.vaddr + seg.memsz <= LOWER_HALF && b + seg.Pages() <= |vmm.pmm.bits|
    modifies vmm`mem, vmm`lab, vmm.pmm, vmm.pmm.bitmap
    ensures vmm.Valid() && vmm.pmm.bitmap == old(vmm.pmm.bitmap)
    ensures Kept(old(vmm.Now()), vmm.Now()) && vmm.data == old(vmm.data)
    ensures GrowsOnly(old(vmm.Now()), vmm.Now(), root) && OthersUnmoved(old(vmm.Now()), vmm.Now(), root)
    ensures done <= seg.Pages() <= PAGES && (ok <==> done == seg.Pages())
    ensures RangeMaps(old(vmm.Now()), vmm.Now(), SegmentSpan(root, seg, b), done)
    ensures RangePaid(old(vmm.Now()), old(vmm.Stock()), vmm.Now(), vmm.Stock(), root, seg.PageStart(), done, ok, true)
    ensures !ok ==> Lookup(vmm.mem, root, PageAt(seg.PageStart(), done)) == Lookup(old(vmm.mem), root, PageAt(seg.PageStart(), done))
  {
    ghost var before := vmm.Now();
    ghost var g := SegmentSpan(root, seg, b);
    SegmentArguments(root, seg, b);
    var virt, phys, count, flags := seg.PageStart(), b * PAGE_SIZE, seg.Pages(), seg.PteFlags();
    ok, done := vmm.MapRangeForPml4(root, virt, phys, count, flags);
    RangeOnlyAdds(before, vmm.Now(), g, done);
    if !ok {
      StoppedPage(before, vmm.Now(), g, done);
    }
  }

  // One turn of the loop of load_elf.
  method LoadSegment(vmm: Vmm, file: seq<nat>, seg: Segment, root: nat) returns (ok: bool, ghost how: Outcome)
    requires vmm.Valid() && Bytes(file) && SegmentOk(file, seg) && IsRoot(vmm.Now().t, root) && root != vmm.kernel
    modifies vmm`mem, vmm`lab, vmm`data, vmm.pmm, vmm.pmm.bitmap
    ensures vmm.Valid() && vmm.pmm.bitmap == old(vmm.pmm.bitmap)
    ensures Kept(old(vmm.Now()), vmm.Now()) && OthersUnmoved(old(vmm.Now()), vmm.Now(), root)
    ensures (ok <==> how.Whole?) && (ok <==> Fits(old(vmm.Now()), old(vmm.Stock()), root, seg))
    ensures Ends(old(vmm.Now()), vmm.Now(), root, seg, how)
    ensures Settles(old(vmm.Now()), old(vmm.Stock()), vmm.Now(), vmm.Stock(), root, seg, how)
    ensures ok ==> Loaded(vmm.Now(), root, file, seg) && GrowsOnly(old(vmm.Now()), vmm.Now(), root)
  {
    ghost var before, first := vmm.Now(), vmm.Stock();
    PagesCover(seg);
    PagesFit(seg.PageStart(), seg.Pages());
    var r := StageSegment(vmm, file, seg);
    if r.None? {
      GrownReflexive(before);
      ok, how := false, if seg.Pages() == 0 then NoPages else NoBlock;
    } else {
      ok, how := PlaceSegment(vmm, file, seg, root, r.value, before, first);
    }
    LoadsIfFits(before, first, vmm.Now(), vmm.Stock(), root, seg, how);
  }

  // The staged block is mapped, or given back when a page cannot be mapped.
  method PlaceSegment(vmm: Vmm, file: seq<nat>, seg: Segment, root: nat, b: nat, ghost before: Snap, ghost first: FP.Stock)
    returns (ok: bool, ghost how: Outcome)
    requires vmm.Valid() && SegmentOk(file, seg) && 0 < seg.Pages()
    requires Good(before) && IsRoot(before.t, root) && root != vmm.kernel
    requires Extends(before, vmm.Now(), b, seg.Pages()) && Staged(vmm.mem, b, file, seg)
    requires FP.Took(first, vmm.Stock(), seg.Pages()) && first.counter < TWO_64 && !first.Refuses(seg.Pages())
    modifies vmm`mem, vmm`lab, vmm`data, vmm.pmm, vmm.pmm.bitmap
    ensures vmm.Valid() && vmm.pmm.bitmap == old(vmm.pmm.bitmap)
    ensures Kept(before, vmm.Now()) && OthersUnmoved(before, vmm.Now(), root)
    ensures ok ==> how == Whole(b) && Loaded(vmm.Now(), root, file, seg) && GrowsOnly(before, vmm.Now(), root)
    ensures !ok ==> how.Stopped? && how.b == b
    ensures Ends(before, vmm.Now(), root, seg, how)
    ensures Settles(before, first, vmm.Now(), vmm.Stock(), root, seg, how)
  {
    ghost var staged, second := vmm.Now(), vmm.Stock();
    ExtendsStep(before, staged, b, seg.Pages());
    ghost var done;
    ok, done := MapSegment(vmm, seg, root, b);
    ghost var mapped, third := vmm.Now(), vmm.Stock();
    StagedThenMapped(before, staged, mapped, SegmentSpan(root, seg, b), done, seg.Pages());
    StagedThenPaid(before, first, staged, second, mapped, third, root, seg, done, ok);
    if ok {
      MappedIsLoaded(staged, mapped, root, b, file, seg, SegmentSpan(root, seg, b));
      return true, Whole(b);
    }
    StagedFrames(before, staged, b, seg.Pages());
    Unstage(vmm, b, seg.Pages(), before);
    MappedThenUnstaged(before, mapped, vmm.Now(), root, seg, b, done);
    StoppedSettles(before, first, second, third, vmm.Now(), vmm.Stock(), root, seg, b, done);
    return false, Stopped(b, done);
  }

  // The block comes back; the tables made for it stay.
  lemma StoppedSettles(s: Snap, a: FP.Stock, b: FP.Stock, c: FP.Stock, s': Snap, d: FP.Stock, root: nat, seg: Segment,
                       frame: nat, done: nat)
    requires FP.Took(a, b, seg.Pages()) && seg.Pages() <= a.Avail() && FP.Took(b, c, TablesMade(s, a, root, seg, done))
    requires FP.Took(d, c, seg.Pages())
    requires Lookup(s.t.tab, root, PageAt(seg.PageStart(), done)).Some?
             || a.Avail() < seg.Pages() + Cost(s.t.tab, root, PagesFrom(seg.PageStart(), done + 1))
    ensures Settles(s, a, s', d, root, seg, Stopped(frame, done))
  {
    FP.TookThenGave(a, b, c, d, seg.Pages(), TablesMade(s, a, root, seg, done));
  }

  // The tables made for the pages of a segment up to number `done`, with the segment's own frames taken first.
  ghost function TablesMade(s: Snap, a: FP.Stock, root: nat, seg: Segment, done: nat): nat
    requires seg.Pages() <= a.Avail()
  {
    Min(Cost(s.t.tab, root, PagesFrom(seg.PageStart(), done + 1)), a.Avail() - seg.Pages())
  }

  // The frames taken and the tables made, seen from before the frames were taken.
  lemma StagedThenPaid(s: Snap, a: FP.Stock, s1: Snap, b: FP.Stock, s2: Snap, c: FP.Stock, root: nat, seg: Segment, done: nat, ok: bool)
    requires IsRoot(s.t, root) && DepthsKept(s, s1) && Unmoved(s, s1) && FP.Took(a, b, seg.Pages())
    requires RangePaid(s1, b, s2, c, root, seg.PageStart(), done, ok, true) && (ok ==> done == seg.Pages())
    requires !ok ==> var u := PageAt(seg.PageStart(), done); Lookup(s2.t.tab, root, u) == Lookup(s1.t.tab, root, u)
    ensures ok ==> Billed(s, a, s2, c, root, SegmentPages(seg))
    ensures !ok ==> var cost := Cost(s.t.tab, root, PagesFrom(seg.PageStart(), done + 1));
                    && seg.Pages() <= a.Avail() && FP.Took(b, c, TablesMade(s, a, root, seg, done))
                    && (Lookup(s.t.tab, root, PageAt(seg.PageStart(), done)).Some? || a.Avail() < seg.Pages() + cost)
  {
    if ok {
      SameDepthCosts(s, s1, root, SegmentPages(seg));
      OpenedAppend(s, s1, s2, root, [], SegmentPages(seg));
      assert [] + SegmentPages(seg) == SegmentPages(seg);
    } else {
      var tried := PagesFrom(seg.PageStart(), done + 1);
      SameDepthCosts(s, s1, root, tried);
      FP.TookTheRest(a, b, c, seg.Pages(), Cost(s.t.tab, root, tried), 0);
    }
  }

  lemma MappedThenUnstaged(s: Snap, mapped: Snap, s': Snap, root: nat, seg: Segment, b: nat, done: nat)
    requires Releases(mapped, s', b, seg.Pages()) && b + seg.Pages() <= |s'.bits| && done < seg.Pages()
    requires OthersUnmoved(s, mapped, root) && RangeMaps(s, mapped, SegmentSpan(root, seg, b), done)
    ensures OthersUnmoved(s, s', root) && Ends(s, s', root, seg, Stopped(b, done))
  {
  }

  // Frames taken and then mapped, all of them or the first n: seen from before the frames were taken.
  lemma StagedThenMapped(a: Snap, b: Snap, c: Snap, g: Span, n: nat, count: nat)
    requires Good(a) && IsRoot(a.t, g.root) && Extends(a, b, g.frame, count) && n <= count
    requires Kept(b, c) && OthersUnmoved(b, c, g.root) && GrowsOnly(b, c, g.root) && RangeMaps(b, c, g, n)
    ensures Kept(a, c) && OthersUnmoved(a, c, g.root) && GrowsOnly(a, c, g.root)
    ensures RangeMaps(a, c, g, n) && Held(a, c, g.root)
  {
    ExtendsStep(a, b, g.frame, count);
    StageThenMap(a, b, c, g.root);
    UnmovedThenRange(a, b, c, g, n);
    RangeHeld(a, b, c, g, n, count);
  }

  lemma StagedFrames(s: Snap, s': Snap, b: nat, n: nat)
    requires Extends(s, s', b, n)
    ensures forall f: nat :: InBlock(b, n, f) ==> f < |s.bits| && !s.bits[f] && f in s'.data
  {
  }

  // The loadable ones of the segments are in place.
  ghost predicate AllLoaded(s: Snap, root: nat, file: seq<nat>, segs: seq<Segment>)
    requires AllOk(file, segs)
  {
    forall i :: 0 <= i < |segs| && segs[i].kind == PT_LOAD ==> Loaded(s, root, file, segs[i])
  }

  lemma OneMoreLoaded(s: Snap, s': Snap, root: nat, file: seq<nat>, segs: seq<Segment>, seg: Segment)
    requires AllOk(file, segs + [seg]) && AllOk(file, segs) && AllLoaded(s, root, file, segs)
    requires Kept(s, s') && GrowsOnly(s, s', root)
    requires seg.kind == PT_LOAD ==> SegmentOk(file, seg) && Loaded(s', root, file, seg)
    ensures AllLoaded(s', root, file, segs + [seg])
  {
    forall i | 0 <= i < |segs| && segs[i].kind == PT_LOAD
      ensures Loaded(s', root, file, segs[i])
    {
      StillLoaded(s, s', root, file, segs[i]);
    }
  }

  ghost predicate AllAccessible(s: Snap, root: nat, segs: seq<Segment>) {
    forall i :: 0 <= i < |segs| && segs[i].kind == PT_LOAD ==> Accessible(s, root, segs[i])
  }

  lemma AllLoadedAreAccessible(s: Snap, root: nat, file: seq<nat>, segs: seq<Segment>)
    requires Good(s) && IsRoot(s.t, root) && root != s.t.kernel && AllOk(file, segs) && AllLoaded(s, root, file, segs)
    ensures AllAccessible(s, root, segs)
  {
    forall i | 0 <= i < |segs| && segs[i].kind == PT_LOAD
      ensures Accessible(s, root, segs[i])
    {
      LoadedIsAccessible(s, root, file, segs[i]);
    }
  }

  // load_elf.  When it succeeds, every byte of every loadable segment reads back through the tables as
  // the file says, with zeros from filesz to memsz, and may be used as the segment says; no other space changes, whether or not it succeeds.
  // When it fails on a good header it stopped at header `at`: unless frames were short, at the first segment
  // that cannot be loaded, leaving a page on a free frame exactly if the file is one that leaks.
  method LoadElf(vmm: Vmm, file: seq<nat>, root: nat) returns (ok: bool, entry: nat, ghost at: nat, ghost how: Outcome)
    requires vmm.Valid() && Bytes(file) && Readable(file) && IsRoot(vmm.Now().t, root) && root != vmm.kernel
    modifies vmm`mem, vmm`lab, vmm`data, vmm.pmm, vmm.pmm.bitmap
    ensures vmm.Valid() && vmm.pmm.bitmap == old(vmm.pmm.bitmap)
    ensures Kept(old(vmm.Now()), vmm.Now()) && OthersUnmoved(old(vmm.Now()), vmm.Now(), root)
    ensures !HeaderOk(file) ==> !ok && vmm.Now() == old(vmm.Now()) && vmm.Stock() == old(vmm.Stock())
    ensures ok ==> entry == EntryPoint(file) && GrowsOnly(old(vmm.Now()), vmm.Now(), root)
                   && AllLoaded(vmm.Now(), root, file, Segments(file, ProgramCount(file)))
                   && AllAccessible(vmm.Now(), root, Segments(file, ProgramCount(file)))
                   && Occupies(old(vmm.Now()), vmm.Now(), root, file, ProgramCount(file))
                   && Held(old(vmm.Now()), vmm.Now(), root) && NoneBad(old(vmm.Now()), root, file, ProgramCount(file))
    ensures ok ==> Billed(old(vmm.Now()), old(vmm.Stock()), vmm.Now(), vmm.Stock(), root, FilePages(file, ProgramCount(file)))
    ensures !ok && HeaderOk(file) ==>
              && Stops(old(vmm.Now()), vmm.Now(), root, file, at, how)
              && Broke(old(vmm.Now()), old(vmm.Stock()), vmm.Stock(), root, file, at, how)
    ensures !ok && HeaderOk(file) && !Short(old(vmm.Now()), root, file, at, how) ==>
              && FirstBad(old(vmm.Now()), root, file, at)
              && (Dangles(old(vmm.Now()), vmm.Now(), root) <==> Leaks(old(vmm.Now()), root, file))
  {
    ghost var start, first := vmm.Now(), vmm.Stock();
    entry, at, how := 0, 0, NoPages;
    if !HeaderOk(file) {
      return false, entry, at, how;
    }
    entry := EntryPoint(file);
    OpenedNothing(start, root);
    for i := 0 to ProgramCount(file)
      invariant vmm.Valid() && vmm.pmm.bitmap == old(vmm.pmm.bitmap)
      invariant Kept(start, vmm.Now()) && OthersUnmoved(start, vmm.Now(), root) && GrowsOnly(start, vmm.Now(), root)
      invariant AllLoaded(vmm.Now(), root, file, Segments(file, i))
      invariant Loading(start, first, vmm.Now(), vmm.Stock(), root, file, i)
    {
      ghost var before, stock, segs := vmm.Now(), vmm.Stock(), Segments(file, i);
      var seg := SegmentAt(file, i);
      assert Segments(file, i + 1) == segs + [seg];
      if seg.kind != PT_LOAD {
        OneMoreLoaded(before, before, root, file, segs, seg);
        LoadingSkips(start, first, before, stock, root, file, i);
        continue;
      }
      var loaded;
      loaded, how := LoadSegment(vmm, file, seg, root);
      SpaceTransitive(start, before, vmm.Now(), root);
      if !loaded {
        LoadingStops(start, first, before, stock, vmm.Now(), vmm.Stock(), root, file, i, how);
        return false, entry, i, how;
      }
      OneMoreLoaded(before, vmm.Now(), root, file, segs, seg);
      LoadingOneMore(start, first, before, stock, vmm.Now(), vmm.Stock(), root, file, i, how);
    }
    AllLoadedAreAccessible(vmm.Now(), root, file, Segments(file, ProgramCount(file)));
    return true, entry, at, how;
  }

  // Before the turn of header n all is well, and paid for.
  ghost predicate Loading(s: Snap, a: FP.Stock, s': Snap, b: FP.Stock, root: nat, file: seq<nat>, n: nat)
    requires Loadable(file) && n <= ProgramCount(file)
  {
    && Occupies(s, s', root, file, n) && Held(s, s', root) && NoneBad(s, root, file, n)
    && Billed(s, a, s', b, root, FilePages(file, n))
  }

  lemma LoadingSkips(s: Snap, a: FP.Stock, s1: Snap, b: FP.Stock, root: nat, file: seq<nat>, k: nat)
    requires Loadable(file) && k < ProgramCount(file) && SegmentAt(file, k).kind != PT_LOAD && IsRoot(s1.t, root)
    requires Loading(s, a, s1, b, root, file, k)
    ensures Loading(s, a, s1, b, root, file, k + 1)
  {
    OccupiesOneMore(s, s1, s1, root, file, k, NoPages);
    FilePagesMore(file, k);
    assert FilePages(file, k) + [] == FilePages(file, k);
  }

  lemma LoadingOneMore(s: Snap, a: FP.Stock, s1: Snap, b: FP.Stock, s2: Snap, c: FP.Stock, root: nat, file: seq<nat>,
                       k: nat, how: Outcome)
    requires Loadable(file) && k < ProgramCount(file) && SegmentAt(file, k).kind == PT_LOAD && IsRoot(s1.t, root)
    requires Good(s1) && Kept(s, s1) && Kept(s1, s2) && GrowsOnly(s1, s2, root)
    requires Loading(s, a, s1, b, root, file, k) && how.Whole? && Ends(s1, s2, root, SegmentAt(file, k), how)
    requires Settles(s1, b, s2, c, root, SegmentAt(file, k), how)
    ensures Loading(s, a, s2, c, root, file, k + 1)
  {
    OccupiesOneMore(s, s1, s2, root, file, k, how);
    WholeIsNotBad(s, s1, s2, root, file, k, how);
    HeldTransitive(s, s1, s2, root);
    FilePagesMore(file, k);
    BilledOneMore(s, a, s1, b, s2, c, root, FilePages(file, k), SegmentPages(SegmentAt(file, k)));
  }

  lemma LoadingStops(s: Snap, a: FP.Stock, s1: Snap, b: FP.Stock, s2: Snap, c: FP.Stock, root: nat, file: seq<nat>,
                     k: nat, how: Outcome)
    requires Loadable(file) && k < ProgramCount(file) && SegmentAt(file, k).kind == PT_LOAD && IsRoot(s1.t, root)
    requires Good(s2) && Kept(s, s1) && Kept(s1, s2) && Loading(s, a, s1, b, root, file, k)
    requires !how.Whole? && Ends(s1, s2, root, SegmentAt(file, k), how) && Settles(s1, b, s2, c, root, SegmentAt(file, k), how)
    ensures Stops(s, s2, root, file, k, how) && Broke(s, a, c, root, file, k, how)
    ensures !Short(s, root, file, k, how) ==>
              FirstBad(s, root, file, k) && (Dangles(s, s2, root) <==> Leaks(s, root, file))
  {
    SegmentStops(s, s1, s2, root, file, k, how);
    SettlesBroke(s, a, s1, b, s2, c, root, file, k, how);
    if !Short(s, root, file, k, how) {
      FailureExact(s, s2, root, file, k, how);
    }
  }

  lemma SpaceTransitive(a: Snap, b: Snap, c: Snap, root: nat)
    requires Kept(a, b) && OthersUnmoved(a, b, root) && GrowsOnly(a, b, root)
    requires Kept(b, c) && OthersUnmoved(b, c, root)
    ensures Kept(a, c) && OthersUnmoved(a, c, root)
    ensures GrowsOnly(b, c, root) ==> GrowsOnly(a, c, root)
  {
    KeptTransitive(a, b, c);
    forall r, v | IsRoot(a.t, r) && r != root
      ensures Lookup(c.t.tab, r, v) == Lookup(a.t.tab, r, v)
    {
      assert IsRoot(b.t, r);
    }
  }
}

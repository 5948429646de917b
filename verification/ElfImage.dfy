/**
 What it means for a segment to be loaded, and why later changes leave it loaded.
 */
module ElfImage {
  import opened Prelude
  import opened PageWords
  import opened PageTables
  import opened SpaceState
  import opened PageRanges
  import opened PhysicalBytes
  import opened ElfFormat

  // Byte number p of the block of frames at b.
  function BlockByte(tab: Tables, b: nat, p: nat): nat {
    PageByte(tab, b + p / PAGE_SIZE, p % PAGE_SIZE)
  }

  lemma PutBlockByte(tab: Tables, b: nat, p: nat, x: nat, q: nat)
    requires b + p / PAGE_SIZE in tab && |tab[b + p / PAGE_SIZE]| == 512 && x < 256
    ensures BlockByte(PutPageByte(tab, b + p / PAGE_SIZE, p % PAGE_SIZE, x), b, q)
         == if q == p then x else BlockByte(tab, b, q)
  {
    PutPageByteEffect(tab, b + p / PAGE_SIZE, p % PAGE_SIZE, x, b + q / PAGE_SIZE, q % PAGE_SIZE);
    assert p == p / PAGE_SIZE * PAGE_SIZE + p % PAGE_SIZE;
    assert q == q / PAGE_SIZE * PAGE_SIZE + q % PAGE_SIZE;
  }

  // The block holds the segment: its file bytes at the page offset, zeros everywhere else.
  ghost predicate Staged(tab: Tables, b: nat, file: seq<nat>, seg: Segment)
    requires SegmentOk(file, seg)
  {
    forall j :: 0 <= j < seg.memsz ==> BlockByte(tab, b, seg.PageOffset() + j) == Wanted(file, seg, j)
  }

  // The page of va in the space root is a data frame whose byte for va is x.
  ghost predicate Shows(s: Snap, root: nat, va: nat, flags: nat, x: nat) {
    var l := Lookup(s.t.tab, root, PageOf(va));
    && l.Some? && l.value.frame in s.data && l.value.flags == flags && l.value.high == 0
    && PageByte(s.t.tab, l.value.frame, va % PAGE_SIZE) == x
  }

  ghost predicate Loaded(s: Snap, root: nat, file: seq<nat>, seg: Segment)
    requires SegmentOk(file, seg)
  {
    forall j :: 0 <= j < seg.memsz ==>
      Shows(s, root, seg.vaddr + j, SetPresent(LowFlags(seg.PteFlags())), Wanted(file, seg, j))
  }

  // Reading through the tables gives the wanted byte.
  lemma ShowsIsRead(s: Snap, root: nat, va: nat, flags: nat, x: nat)
    requires Shows(s, root, va, flags, x)
    ensures ReadByte(s.t.tab, root, va) == Some(x)
  {
  }

  // ---- What the program may do with its bytes ----

  // Every byte of the segment can be reached and run from ring 3, and written exactly if the segment is writable.
  ghost predicate Accessible(s: Snap, root: nat, seg: Segment) {
    forall j: nat :: j < seg.memsz ==> ByteAccessible(s, root, seg, j)
  }

  ghost predicate ByteAccessible(s: Snap, root: nat, seg: Segment, j: nat) {
    Rights(s.t.tab, root, PageOf(seg.vaddr + j)) == Some(Access(true, seg.flags / PF_W % 2 == 1, true))
  }

  lemma LoadedIsAccessible(s: Snap, root: nat, file: seq<nat>, seg: Segment)
    requires Good(s) && IsRoot(s.t, root) && root != s.t.kernel && SegmentOk(file, seg) && Loaded(s, root, file, seg)
    ensures Accessible(s, root, seg)
  {
    var flags, writable := SetPresent(LowFlags(seg.PteFlags())), seg.flags / PF_W % 2 == 1;
    SegmentGrants(seg);
    forall j: nat | j < seg.memsz
      ensures ByteAccessible(s, root, seg, j)
    {
      assert Shows(s, root, seg.vaddr + j, flags, Wanted(file, seg, j));
      LowerHalfPage(seg.vaddr + j);
      UserPageRights(s, root, PageOf(seg.vaddr + j), flags, writable);
    }
  }

  lemma UserPageRights(s: Snap, root: nat, v: VPage, flags: nat, writable: bool)
    requires Good(s) && IsRoot(s.t, root) && root != s.t.kernel && v.i4 < 256
    requires var l := Lookup(s.t.tab, root, v); l.Some? && l.value.flags == flags && l.value.high == 0
    requires flags / PTE_USER % 2 == 1 && (flags / PTE_WRITE % 2 == 1 <==> writable)
    ensures Rights(s.t.tab, root, v) == Some(Access(true, writable, true))
  {
    UserRights(s, root, v);
  }

  lemma SegmentGrants(seg: Segment)
    ensures var flags, writable := SetPresent(LowFlags(seg.PteFlags())), seg.flags / PF_W % 2 == 1;
            flags / PTE_USER % 2 == 1 && (flags / PTE_WRITE % 2 == 1 <==> writable)
  {
    PteFlagBits(seg);
  }

  // Mapped pages of `root` stay as they are; more may be mapped.
  ghost predicate GrowsOnly(s: Snap, s': Snap, root: nat) {
    forall v :: Lookup(s.t.tab, root, v).Some? ==> Lookup(s'.t.tab, root, v) == Lookup(s.t.tab, root, v)
  }

  // The segment's pages, mapped to the frames from b on.
  function SegmentSpan(root: nat, seg: Segment, b: nat): Span {
    Span(root, seg.PageStart(), b, SetPresent(LowFlags(seg.PteFlags())), 0)
  }

  // The page v is one of those the segment occupies.
  predicate InSegment(seg: Segment, v: VPage) {
    Offset(seg.PageStart(), v) < seg.Pages()
  }

  // No page of a space other than `root` changes.
  ghost predicate OthersUnmoved(s: Snap, s': Snap, root: nat) {
    forall r, v :: IsRoot(s.t, r) && r != root ==> Lookup(s'.t.tab, r, v) == Lookup(s.t.tab, r, v)
  }

  lemma StillLoaded(s: Snap, s': Snap, root: nat, file: seq<nat>, seg: Segment)
    requires SegmentOk(file, seg) && Loaded(s, root, file, seg)
    requires Kept(s, s') && GrowsOnly(s, s', root)
    ensures Loaded(s', root, file, seg)
  {
    forall j | 0 <= j < seg.memsz
      ensures Shows(s', root, seg.vaddr + j, SetPresent(LowFlags(seg.PteFlags())), Wanted(file, seg, j))
    {
      assert Shows(s, root, seg.vaddr + j, SetPresent(LowFlags(seg.PteFlags())), Wanted(file, seg, j));
    }
  }

  // One byte: at position p of a block of data frames, then mapped at va.
  lemma MappedByteShows(s1: Snap, s2: Snap, g: Span, n: nat, va: nat, p: nat, x: nat)
    requires IsRoot(s1.t, g.root) && Kept(s1, s2) && RangeMaps(s1, s2, g, n) && g.high == 0
    requires forall f :: InBlock(g.frame, n, f) ==> f in s1.data
    requires Offset(g.virt, PageOf(va)) == p / PAGE_SIZE < n && va % PAGE_SIZE == p % PAGE_SIZE
    requires BlockByte(s1.t.tab, g.frame, p) == x
    ensures Shows(s2, g.root, va, g.flags, x)
  {
    PageShows(s1, s2, g, n, PageOf(va), p / PAGE_SIZE, p % PAGE_SIZE);
  }

  // The page v of a mapped range is the d-th data frame of the block, with the contents it had.
  lemma PageShows(s1: Snap, s2: Snap, g: Span, n: nat, v: VPage, d: nat, o: nat)
    requires IsRoot(s1.t, g.root) && Kept(s1, s2) && RangeMaps(s1, s2, g, n)
    requires forall f :: InBlock(g.frame, n, f) ==> f in s1.data
    requires Offset(g.virt, v) == d < n && o < PAGE_SIZE
    ensures Lookup(s2.t.tab, g.root, v) == Some(g.LeafAt(d)) && g.frame + d in s2.data
    ensures PageByte(s2.t.tab, g.frame + d, o) == PageByte(s1.t.tab, g.frame + d, o)
  {
    assert Lookup(s2.t.tab, g.root, v) == RangeLookup(s1, g, n, g.root, v);
    assert InBlock(g.frame, n, g.frame + d);
  }

  lemma BytePosition(seg: Segment, j: nat)
    requires seg.vaddr + seg.memsz <= LOWER_HALF && j < seg.memsz
    ensures var p := seg.PageOffset() + j;
            && (seg.vaddr + j) % PAGE_SIZE == p % PAGE_SIZE
            && Offset(seg.PageStart(), PageOf(seg.vaddr + j)) == p / PAGE_SIZE < seg.Pages()
  {
    PagesCover(seg);
    Positions(seg.vaddr, j);
    var p := seg.PageOffset() + j;
    SamePage(seg.PageStart() + p / PAGE_SIZE * PAGE_SIZE, p % PAGE_SIZE);
    BelowLimit(p, seg.Pages());
    OffsetOf(seg.PageStart(), p / PAGE_SIZE, PageOf(seg.vaddr + j));
  }

  lemma Positions(vaddr: nat, j: nat)
    ensures var p := vaddr % PAGE_SIZE + j;
            var a := vaddr / PAGE_SIZE * PAGE_SIZE + p / PAGE_SIZE * PAGE_SIZE;
            vaddr + j == a + p % PAGE_SIZE && a % PAGE_SIZE == 0 && (vaddr + j) % PAGE_SIZE == p % PAGE_SIZE
  {
  }

  lemma BelowLimit(p: nat, n: nat)
    requires p < n * PAGE_SIZE
    ensures p / PAGE_SIZE < n
  {
  }

  lemma MappedIsLoaded(s1: Snap, s2: Snap, root: nat, b: nat, file: seq<nat>, seg: Segment, g: Span)
    requires SegmentOk(file, seg) && IsRoot(s1.t, root) && Kept(s1, s2)
    requires g == SegmentSpan(root, seg, b)
    requires RangeMaps(s1, s2, g, seg.Pages())
    requires forall f :: InBlock(b, seg.Pages(), f) ==> f in s1.data
    requires Staged(s1.t.tab, b, file, seg)
    ensures Loaded(s2, root, file, seg)
  {
    forall j | 0 <= j < seg.memsz
      ensures Shows(s2, root, seg.vaddr + j, SetPresent(LowFlags(seg.PteFlags())), Wanted(file, seg, j))
    {
      BytePosition(seg, j);
      MappedByteShows(s1, s2, g, seg.Pages(), seg.vaddr + j, seg.PageOffset() + j, Wanted(file, seg, j));
    }
  }

  // Mapping a range of a task's own pages only adds to that task's map.
  lemma RangeOnlyAdds(s: Snap, s': Snap, g: Span, n: nat)
    requires IsRoot(s.t, g.root) && g.root != s.t.kernel && RangeMaps(s, s', g, n)
    ensures GrowsOnly(s, s', g.root) && OthersUnmoved(s, s', g.root)
  {
    forall v | Lookup(s.t.tab, g.root, v).Some?
      ensures Lookup(s'.t.tab, g.root, v) == Lookup(s.t.tab, g.root, v)
    {
      assert Lookup(s'.t.tab, g.root, v) == RangeLookup(s, g, n, g.root, v);
    }
    forall r, v | IsRoot(s.t, r) && r != g.root
      ensures Lookup(s'.t.tab, r, v) == Lookup(s.t.tab, r, v)
    {
      assert Lookup(s'.t.tab, r, v) == RangeLookup(s, g, n, r, v);
    }
  }

  // The page at which mapping stopped has not been touched by the mapping.
  lemma StoppedPage(s: Snap, s': Snap, g: Span, done: nat)
    requires IsRoot(s.t, g.root) && RangeMaps(s, s', g, done) && done < PAGES
    ensures Lookup(s'.t.tab, g.root, PageAt(g.virt, done)) == Lookup(s.t.tab, g.root, PageAt(g.virt, done))
  {
    var v := PageAt(g.virt, done);
    OffsetOf(g.virt, done, v);
    assert Lookup(s'.t.tab, g.root, v) == RangeLookup(s, g, done, g.root, v);
  }

  // A step that moves no page, then a range: together the range.
  lemma UnmovedThenRange(a: Snap, b: Snap, c: Snap, g: Span, n: nat)
    requires IsRoot(a.t, g.root) && Kept(a, b) && Unmoved(a, b) && RangeMaps(b, c, g, n)
    ensures RangeMaps(a, c, g, n)
  {
    forall r, v | IsRoot(a.t, r)
      ensures Lookup(c.t.tab, r, v) == RangeLookup(a, g, n, r, v)
    {
      assert IsRoot(b.t, r);
      SameReaches(a, b, g.root, r, v.i4);
    }
  }

  // ---- Whose frames a space maps ----

  // f is a frame of data in s' that was free in s.
  ghost predicate NewData(s: Snap, s': Snap, f: nat) {
    f in s'.data && f < |s.bits| && !s.bits[f]
  }

  // Every page of `root` mapped since s is a new frame of data, and no two are the same frame.
  ghost predicate Held(s: Snap, s': Snap, root: nat) {
    && (forall v :: Lookup(s.t.tab, root, v).None? && Lookup(s'.t.tab, root, v).Some? ==>
          NewData(s, s', Lookup(s'.t.tab, root, v).value.frame))
    && Spread(s, s', root)
  }

  // The page v, which was not mapped in s, is now mapped to the frame f.
  ghost predicate Added(s: Snap, s': Snap, root: nat, v: VPage, f: nat) {
    Lookup(s.t.tab, root, v).None? && Lookup(s'.t.tab, root, v).Some? && Lookup(s'.t.tab, root, v).value.frame == f
  }

  ghost predicate Spread(s: Snap, s': Snap, root: nat) {
    forall u, v, f :: Added(s, s', root, u, f) && Added(s, s', root, v, f) ==> u == v
  }

  // Of two pages on one frame both were mapped by b, or both since: a frame that b has as data is not free in b.
  lemma SpreadTransitive(a: Snap, b: Snap, c: Snap, root: nat)
    requires Good(b) && Held(a, b, root) && Held(b, c, root) && GrowsOnly(b, c, root)
    ensures Spread(a, c, root)
  {
    forall u, v, f | Added(a, c, root, u, f) && Added(a, c, root, v, f)
      ensures u == v
    {
      AddedWhen(a, b, c, root, u, f);
      AddedWhen(a, b, c, root, v, f);
    }
  }

  lemma AddedWhen(a: Snap, b: Snap, c: Snap, root: nat, v: VPage, f: nat)
    requires Good(b) && Held(a, b, root) && Held(b, c, root) && GrowsOnly(b, c, root) && Added(a, c, root, v, f)
    ensures if Free(b, f) then Added(b, c, root, v, f) else Added(a, b, root, v, f)
  {
    if Lookup(b.t.tab, root, v).Some? {
      assert NewData(a, b, Lookup(b.t.tab, root, v).value.frame);
    } else {
      assert NewData(b, c, Lookup(c.t.tab, root, v).value.frame);
    }
  }

  lemma HeldTransitive(a: Snap, b: Snap, c: Snap, root: nat)
    requires Good(b) && Kept(a, b) && Kept(b, c) && Held(a, b, root) && Held(b, c, root) && GrowsOnly(b, c, root)
    ensures Held(a, c, root)
  {
    SpreadTransitive(a, b, c, root);
    forall v | Lookup(a.t.tab, root, v).None? && Lookup(c.t.tab, root, v).Some?
      ensures NewData(a, c, Lookup(c.t.tab, root, v).value.frame)
    {
      if Lookup(b.t.tab, root, v).Some? {
        assert NewData(a, b, Lookup(b.t.tab, root, v).value.frame);
      } else {
        assert NewData(b, c, Lookup(c.t.tab, root, v).value.frame);
      }
    }
  }

  // Pages mapped to a block just taken are new data.
  lemma RangeHeld(s: Snap, s1: Snap, s2: Snap, g: Span, n: nat, count: nat)
    requires IsRoot(s.t, g.root) && Extends(s, s1, g.frame, count) && n <= count
    requires RangeMaps(s, s2, g, n) && Kept(s1, s2)
    ensures Held(s, s2, g.root)
  {
    forall v | Lookup(s.t.tab, g.root, v).None? && Lookup(s2.t.tab, g.root, v).Some?
      ensures NewData(s, s2, Lookup(s2.t.tab, g.root, v).value.frame)
    {
      assert Lookup(s2.t.tab, g.root, v) == RangeLookup(s, g, n, g.root, v);
      assert InBlock(g.frame, count, g.frame + Offset(g.virt, v));
    }
    RangeSpreads(s, s2, g, n);
  }

  // Pages mapped in order are on frames of their own.
  lemma RangeSpreads(s: Snap, s': Snap, g: Span, n: nat)
    requires IsRoot(s.t, g.root) && RangeMaps(s, s', g, n)
    ensures Spread(s, s', g.root)
  {
    forall u, v, f | Added(s, s', g.root, u, f) && Added(s, s', g.root, v, f)
      ensures u == v
    {
      assert Lookup(s'.t.tab, g.root, u) == RangeLookup(s, g, n, g.root, u);
      assert Lookup(s'.t.tab, g.root, v) == RangeLookup(s, g, n, g.root, v);
      OffsetUnique(g.virt, u, v);
    }
  }

  // Giving a staged block back after its mapping failed.
  ghost predicate Releases(s: Snap, s': Snap, b: nat, n: nat) {
    && s'.t == s.t && |s'.bits| == |s.bits|
    && (forall f :: 0 <= f < |s.bits| ==> s'.bits[f] == (s.bits[f] && !InBlock(b, n, f)))
    && (forall f: nat :: f in s'.data <==> f in s.data && !InBlock(b, n, f))
  }

  lemma ReleaseStep(start: Snap, s: Snap, s': Snap, b: nat, n: nat)
    requires Good(start) && Good(s) && Kept(start, s) && Releases(s, s', b, n)
    requires forall f: nat :: InBlock(b, n, f) ==> f < |start.bits| && !start.bits[f] && f in s.data
    ensures Good(s') && Kept(start, s')
  {
    assert !InBlock(b, n, 0);
  }
}

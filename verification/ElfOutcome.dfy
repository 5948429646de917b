/**
 How loading a program can end: which files can be loaded at all, where a load stops that cannot be
 completed, and what it leaves behind in the address space.
 */
module ElfOutcome {
  import opened Prelude
  import opened PageWords
  import opened PageTables
  import opened SpaceState
  import opened PageRanges
  import opened TableCosts
  import FP = FramePool
  import opened ElfFormat
  import opened ElfImage

  // ---- One segment ----

  // How loading a segment ends: with its pages on the frames from b on; for want of pages to load; for
  // want of frames for its pages; or stopped after the first `done` pages, the frames from b on given back.
  datatype Outcome = Whole(b: nat) | NoPages | NoBlock | Stopped(b: nat, done: nat)

  ghost predicate FreeBlock(s: Snap, b: nat, n: nat) {
    forall f: nat :: InBlock(b, n, f) ==> Free(s, f)
  }

  // What each outcome has done to the spaces.
  ghost predicate Ends(s: Snap, s': Snap, root: nat, seg: Segment, how: Outcome) {
    match how
    case Whole(b) => 0 < seg.Pages() && RangeMaps(s, s', SegmentSpan(root, seg, b), seg.Pages()) && Held(s, s', root)
    case NoPages => seg.Pages() == 0 && s' == s
    case NoBlock => 0 < seg.Pages() && s' == s
    case Stopped(b, done) =>
      && done < seg.Pages() && FreeBlock(s', b, seg.Pages())
      && RangeMaps(s, s', SegmentSpan(root, seg, b), done)
  }

  function SegmentPages(seg: Segment): (pages: seq<VPage>)
    ensures |pages| == seg.Pages()
  {
    PagesFrom(seg.PageStart(), seg.Pages())
  }

  // What each outcome has done to the stock of frames: the segment and its tables have been paid for; or the
  // allocator refused the block; or the tables up to the page at which mapping stopped, as far as the frames
  // went that the block left, and the block has been given back.
  ghost predicate Settles(s: Snap, a: FP.Stock, s': Snap, b: FP.Stock, root: nat, seg: Segment, how: Outcome) {
    match how
    case Whole(_) => !a.Refuses(seg.Pages()) && Billed(s, a, s', b, root, SegmentPages(seg))
    case NoPages => b == a
    case NoBlock => b == a && a.Refuses(seg.Pages())
    case Stopped(_, done) =>
      var cost := Cost(s.t.tab, root, PagesFrom(seg.PageStart(), done + 1));
      && seg.Pages() <= a.Avail() && FP.Took(a, b, Min(cost, a.Avail() - seg.Pages()))
      && (Lookup(s.t.tab, root, PageAt(seg.PageStart(), done)).Some? || a.Avail() < seg.Pages() + cost)
  }

  // The pages have got frames and tables, and nothing else has been taken.
  ghost predicate Billed(s: Snap, a: FP.Stock, s': Snap, b: FP.Stock, root: nat, pages: seq<VPage>) {
    Opened(s, s', root, pages) && FP.Took(a, b, Bill(s.t.tab, root, pages))
  }

  // The segment can be loaded: there is a block for it, its pages are unmapped, and the frames suffice for
  // the block and the tables.
  ghost predicate Fits(s: Snap, a: FP.Stock, root: nat, seg: Segment) {
    && !a.Refuses(seg.Pages())
    && (forall i :: 0 <= i < seg.Pages() ==> Lookup(s.t.tab, root, PageAt(seg.PageStart(), i)).None?)
    && Bill(s.t.tab, root, SegmentPages(seg)) <= a.Avail()
  }

  // That is exactly when it is loaded.
  lemma LoadsIfFits(s: Snap, a: FP.Stock, s': Snap, b: FP.Stock, root: nat, seg: Segment, how: Outcome)
    requires seg.Pages() <= PAGES && Ends(s, s', root, seg, how) && Settles(s, a, s', b, root, seg, how)
    ensures how.Whole? <==> Fits(s, a, root, seg)
  {
    match how
    case Whole(b) => WholeFits(s, a, s', root, seg, b);
    case Stopped(_, done) => StoppedMisses(s, a, root, seg, done);
    case NoPages =>
    case NoBlock =>
  }

  lemma WholeFits(s: Snap, a: FP.Stock, s': Snap, root: nat, seg: Segment, b: nat)
    requires seg.Pages() <= PAGES && RangeMaps(s, s', SegmentSpan(root, seg, b), seg.Pages())
    requires !a.Refuses(seg.Pages()) && Bill(s.t.tab, root, SegmentPages(seg)) <= a.Avail()
    ensures Fits(s, a, root, seg)
  {
    forall i | 0 <= i < seg.Pages()
      ensures Lookup(s.t.tab, root, PageAt(seg.PageStart(), i)).None?
    {
      RangeWasUnmapped(s, s', SegmentSpan(root, seg, b), seg.Pages(), i);
    }
  }

  lemma StoppedMisses(s: Snap, a: FP.Stock, root: nat, seg: Segment, done: nat)
    requires done < seg.Pages()
    requires Lookup(s.t.tab, root, PageAt(seg.PageStart(), done)).Some?
             || a.Avail() < seg.Pages() + Cost(s.t.tab, root, PagesFrom(seg.PageStart(), done + 1))
    ensures !Fits(s, a, root, seg)
  {
    var some, all := PagesFrom(seg.PageStart(), done + 1), SegmentPages(seg);
    PagesPrefix(seg.PageStart(), done + 1, seg.Pages());
    CostGrows(s.t.tab, root, some, all[done + 1..]);
    assert some + all[done + 1..] == all;
  }

  // ---- The segments of a file ----

  // The page v belongs to a loadable segment.
  ghost predicate Covered(segs: seq<Segment>, v: VPage) {
    exists i :: 0 <= i < |segs| && segs[i].kind == PT_LOAD && InSegment(segs[i], v)
  }

  lemma CoveredOneMore(segs: seq<Segment>, seg: Segment, v: VPage)
    ensures Covered(segs + [seg], v) <==> Covered(segs, v) || (seg.kind == PT_LOAD && InSegment(seg, v))
  {
    if Covered(segs, v) {
      var i :| 0 <= i < |segs| && segs[i].kind == PT_LOAD && InSegment(segs[i], v);
      assert (segs + [seg])[i] == segs[i];
    }
    assert (segs + [seg])[|segs|] == seg;
  }

  ghost predicate Loadable(file: seq<nat>) {
    Readable(file) && HeaderOk(file)
  }

  // The page v is in use when the turn of program header k comes: it was mapped in s, or is covered by an
  // earlier segment.
  ghost predicate Taken(s: Snap, root: nat, file: seq<nat>, k: nat, v: VPage)
    requires Loadable(file) && k <= ProgramCount(file)
  {
    Lookup(s.t.tab, root, v).Some? || Covered(Segments(file, k), v)
  }

  // Page number d of segment k.
  function SegmentPage(file: seq<nat>, k: nat, d: nat): VPage
    requires Loadable(file) && k < ProgramCount(file)
  {
    PageAt(SegmentAt(file, k).PageStart(), d)
  }

  // Segment k cannot be loaded into the space, however many frames there are: it has no pages, or one of
  // its pages is in use.
  ghost predicate Bad(s: Snap, root: nat, file: seq<nat>, k: nat)
    requires Loadable(file) && k < ProgramCount(file)
  {
    var seg := SegmentAt(file, k);
    seg.kind == PT_LOAD && (seg.Pages() == 0 || exists d: nat :: d < seg.Pages() && TakenPage(s, root, file, k, d))
  }

  ghost predicate TakenPage(s: Snap, root: nat, file: seq<nat>, k: nat, d: nat)
    requires Loadable(file) && k < ProgramCount(file)
  {
    Taken(s, root, file, k, SegmentPage(file, k, d))
  }

  ghost predicate NoneBad(s: Snap, root: nat, file: seq<nat>, n: nat)
    requires Loadable(file) && n <= ProgramCount(file)
  {
    forall k :: 0 <= k < n ==> !Bad(s, root, file, k)
  }

  ghost predicate FirstBad(s: Snap, root: nat, file: seq<nat>, k: nat)
    requires Loadable(file)
  {
    k < ProgramCount(file) && NoneBad(s, root, file, k) && Bad(s, root, file, k)
  }

  // The same for a space whose lower half is empty: what is left is a matter of the file alone.
  ghost predicate Conflicts(file: seq<nat>, k: nat)
    requires Loadable(file) && k < ProgramCount(file)
  {
    var seg := SegmentAt(file, k);
    && seg.kind == PT_LOAD
    && (seg.Pages() == 0 || exists d: nat :: d < seg.Pages() && Covered(Segments(file, k), SegmentPage(file, k, d)))
  }

  ghost predicate Conflicted(file: seq<nat>)
    requires Loadable(file)
  {
    exists k :: 0 <= k < ProgramCount(file) && Conflicts(file, k)
  }

  ghost predicate LowerHalfEmpty(s: Snap, root: nat) {
    forall v: VPage :: v.i4 < 256 ==> Lookup(s.t.tab, root, v).None?
  }

  // There is not even a table below the lower half of the root.
  ghost predicate NoTables(s: Snap, root: nat) {
    forall v: VPage :: v.i4 < 256 ==> Depth(s.t.tab, root, v) == 0
  }

  lemma NoTablesIsEmpty(s: Snap, root: nat)
    requires NoTables(s, root)
    ensures LowerHalfEmpty(s, root)
  {
  }

  lemma BadInEmpty(s: Snap, root: nat, file: seq<nat>, k: nat)
    requires LowerHalfEmpty(s, root) && Loadable(file) && k < ProgramCount(file)
    ensures Bad(s, root, file, k) <==> Conflicts(file, k)
  {
    var seg := SegmentAt(file, k);
    if seg.kind == PT_LOAD {
      forall d: nat | d < seg.Pages()
        ensures TakenPage(s, root, file, k, d) <==> Covered(Segments(file, k), SegmentPage(file, k, d))
      {
        SegmentPageIsLow(file, k, d);
      }
    }
  }

  lemma SegmentPageIsLow(file: seq<nat>, k: nat, d: nat)
    requires Loadable(file) && k < ProgramCount(file) && SegmentAt(file, k).kind == PT_LOAD
    requires d < SegmentAt(file, k).Pages()
    ensures SegmentPage(file, k, d).i4 < 256
  {
    SegmentFits(file, k);
    LowerHalfPage(SegmentAt(file, k).PageStart() + d * PAGE_SIZE);
  }

  // The mapped pages of `root` are those mapped in s and those of the first n headers' segments.
  ghost predicate Occupies(s: Snap, s': Snap, root: nat, file: seq<nat>, n: nat)
    requires Loadable(file) && n <= ProgramCount(file)
  {
    forall v :: Lookup(s'.t.tab, root, v).Some? <==> Taken(s, root, file, n, v)
  }

  // ---- A whole segment more ----

  lemma OccupiesOneMore(a: Snap, b: Snap, c: Snap, root: nat, file: seq<nat>, k: nat, how: Outcome)
    requires Loadable(file) && k < ProgramCount(file) && IsRoot(b.t, root) && Occupies(a, b, root, file, k)
    requires if SegmentAt(file, k).kind == PT_LOAD then how.Whole? && Ends(b, c, root, SegmentAt(file, k), how) else c == b
    ensures Occupies(a, c, root, file, k + 1)
  {
    var seg := SegmentAt(file, k);
    forall v: VPage
      ensures Lookup(c.t.tab, root, v).Some? <==> Taken(a, root, file, k + 1, v)
    {
      assert Lookup(b.t.tab, root, v).Some? <==> Taken(a, root, file, k, v);
      CoveredOneMore(Segments(file, k), seg, v);
      if seg.kind == PT_LOAD {
        var g := SegmentSpan(root, seg, how.b);
        assert Lookup(c.t.tab, root, v) == RangeLookup(b, g, seg.Pages(), root, v);
      }
    }
  }

  // A segment that was loaded whole was not bad.
  lemma WholeIsNotBad(a: Snap, b: Snap, c: Snap, root: nat, file: seq<nat>, k: nat, how: Outcome)
    requires Loadable(file) && k < ProgramCount(file) && Occupies(a, b, root, file, k)
    requires how.Whole? && Ends(b, c, root, SegmentAt(file, k), how)
    ensures !Bad(a, root, file, k)
  {
    UntakenPrefix(a, b, c, root, file, k, how.b, SegmentAt(file, k).Pages());
  }

  // Pages that could be mapped were not in use.
  lemma UntakenPrefix(a: Snap, b: Snap, c: Snap, root: nat, file: seq<nat>, k: nat, frame: nat, n: nat)
    requires Loadable(file) && k < ProgramCount(file) && Occupies(a, b, root, file, k)
    requires SegmentAt(file, k).kind == PT_LOAD ==> n <= SegmentAt(file, k).Pages()
    requires RangeMaps(b, c, SegmentSpan(root, SegmentAt(file, k), frame), n)
    ensures SegmentAt(file, k).kind == PT_LOAD ==> forall d: nat :: d < n ==> !TakenPage(a, root, file, k, d)
  {
    if SegmentAt(file, k).kind == PT_LOAD {
      forall d: nat | d < n
        ensures !TakenPage(a, root, file, k, d)
      {
        UntakenAt(a, b, c, root, file, k, frame, n, d);
      }
    }
  }

  lemma UntakenAt(a: Snap, b: Snap, c: Snap, root: nat, file: seq<nat>, k: nat, frame: nat, n: nat, d: nat)
    requires Loadable(file) && k < ProgramCount(file) && SegmentAt(file, k).kind == PT_LOAD
    requires Occupies(a, b, root, file, k) && d < n <= SegmentAt(file, k).Pages()
    requires RangeMaps(b, c, SegmentSpan(root, SegmentAt(file, k), frame), n)
    ensures !TakenPage(a, root, file, k, d)
  {
    SegmentFits(file, k);
    RangeWasUnmapped(b, c, SegmentSpan(root, SegmentAt(file, k), frame), n, d);
    NotTaken(a, b, root, file, k, SegmentPage(file, k, d));
  }

  lemma RangeWasUnmapped(s: Snap, s': Snap, g: Span, n: nat, d: nat)
    requires RangeMaps(s, s', g, n) && d < n <= PAGES
    ensures Lookup(s.t.tab, g.root, PageAt(g.virt, d)).None?
  {
    OffsetOf(g.virt, d, PageAt(g.virt, d));
  }

  lemma NotTaken(a: Snap, b: Snap, root: nat, file: seq<nat>, k: nat, v: VPage)
    requires Loadable(file) && k < ProgramCount(file) && Occupies(a, b, root, file, k)
    requires Lookup(b.t.tab, root, v).None?
    ensures !Taken(a, root, file, k, v)
  {
  }

  lemma SegmentFits(file: seq<nat>, k: nat)
    requires Loadable(file) && k < ProgramCount(file) && SegmentAt(file, k).kind == PT_LOAD
    ensures var seg := SegmentAt(file, k);
            SegmentOk(file, seg) && seg.Pages() <= PAGES && seg.PageStart() + seg.Pages() * PAGE_SIZE <= LOWER_HALF
  {
    PagesCover(SegmentAt(file, k));
  }

  // ---- A load that fails ----

  // The load stopped at header k, before which everything went well.
  ghost predicate Stops(s: Snap, s': Snap, root: nat, file: seq<nat>, k: nat, how: Outcome)
    requires Loadable(file)
  {
    && k < ProgramCount(file) && SegmentAt(file, k).kind == PT_LOAD && NoneBad(s, root, file, k)
    && var seg := SegmentAt(file, k);
       match how
       case Whole(_) => false
       case NoPages => seg.Pages() == 0 && Occupies(s, s', root, file, k) && Held(s, s', root)
       case NoBlock => 0 < seg.Pages() && Occupies(s, s', root, file, k) && Held(s, s', root)
       case Stopped(b, done) =>
         && done < seg.Pages() && FreeBlock(s', b, seg.Pages())
         && (forall d: nat :: d < done ==> !TakenPage(s, root, file, k, d))
         && forall v :: Leftover(s, s', root, file, k, b, done, v)
  }

  // The first `done` pages of segment k map the frames from b on; every other page is mapped exactly if it
  // was mapped or is covered by an earlier segment, and then to frames that are not free.
  ghost predicate Leftover(s: Snap, s': Snap, root: nat, file: seq<nat>, k: nat, b: nat, done: nat, v: VPage)
    requires Loadable(file) && k < ProgramCount(file)
  {
    var seg, l := SegmentAt(file, k), Lookup(s'.t.tab, root, v);
    var d := Offset(seg.PageStart(), v);
    if d < done then l == Some(SegmentSpan(root, seg, b).LeafAt(d)) && Lookup(s.t.tab, root, v).None?
    else
      && (l.Some? <==> Taken(s, root, file, k, v))
      && (l.Some? && Lookup(s.t.tab, root, v).None? ==> NewData(s, s', l.value.frame))
  }

  // The load stopped for want of frames: for the segment, or for a table.
  ghost predicate Short(s: Snap, root: nat, file: seq<nat>, k: nat, how: Outcome)
    requires Loadable(file) && k < ProgramCount(file)
  {
    how.NoBlock? || (how.Stopped? && !TakenPage(s, root, file, k, how.done))
  }

  // The pages of the loadable ones of the segments, in the order in which they are mapped.
  function PagesOf(segs: seq<Segment>): seq<VPage> {
    if segs == [] then [] else PagesOf(segs[..|segs| - 1]) + LoadPages(segs[|segs| - 1])
  }

  function LoadPages(seg: Segment): seq<VPage> {
    if seg.kind == PT_LOAD then SegmentPages(seg) else []
  }

  lemma {:induction false} PagesOfBoth(a: seq<Segment>, b: seq<Segment>)
    ensures PagesOf(a + b) == PagesOf(a) + PagesOf(b)
  {
    if b == [] {
      assert a + b == a && PagesOf(a) + [] == PagesOf(a);
    } else {
      var rest, seg := b[..|b| - 1], b[|b| - 1];
      PagesOfBoth(a, rest);
      assert (a + b)[..|a + b| - 1] == a + rest && (a + b)[|a + b| - 1] == seg;
      Regroup(PagesOf(a), PagesOf(rest), LoadPages(seg));
    }
  }

  // Those of the first k segments of a file.
  function FilePages(file: seq<nat>, k: nat): seq<VPage>
    requires Loadable(file) && k <= ProgramCount(file)
  {
    PagesOf(Segments(file, k))
  }

  lemma FilePagesMore(file: seq<nat>, k: nat)
    requires Loadable(file) && k < ProgramCount(file)
    ensures FilePages(file, k + 1) == FilePages(file, k) + LoadPages(SegmentAt(file, k))
  {
    assert Segments(file, k + 1)[..k] == Segments(file, k);
  }

  lemma FilePagesSplit(file: seq<nat>, k: nat, n: nat) returns (rest: seq<VPage>)
    requires Loadable(file) && k <= n <= ProgramCount(file)
    ensures FilePages(file, n) == FilePages(file, k) + rest
  {
    var some, all := Segments(file, k), Segments(file, n);
    assert all == some + all[k..];
    PagesOfBoth(some, all[k..]);
    rest := PagesOf(all[k..]);
  }

  ghost predicate AllLow(pages: seq<VPage>) {
    forall i :: 0 <= i < |pages| ==> pages[i].i4 < 256
  }

  lemma {:induction false} PagesOfLow(file: seq<nat>, segs: seq<Segment>)
    requires AllOk(file, segs)
    ensures AllLow(PagesOf(segs))
  {
    if segs != [] {
      var rest, seg := segs[..|segs| - 1], segs[|segs| - 1];
      PagesOfLow(file, rest);
      if seg.kind == PT_LOAD {
        SegmentIsLow(file, seg);
      }
    }
  }

  lemma SegmentIsLow(file: seq<nat>, seg: Segment)
    requires SegmentOk(file, seg)
    ensures AllLow(SegmentPages(seg))
  {
    PagesCover(seg);
    var pages := SegmentPages(seg);
    forall d | 0 <= d < |pages|
      ensures pages[d].i4 < 256
    {
      PagesFromAt(seg.PageStart(), seg.Pages(), d);
      LowerHalfPage(seg.PageStart() + d * PAGE_SIZE);
    }
  }

  // The frames that a load has taken when it stops at header k, and why it had to if it was for want of frames.
  ghost predicate Broke(s: Snap, a: FP.Stock, b: FP.Stock, root: nat, file: seq<nat>, k: nat, how: Outcome)
    requires Loadable(file) && k < ProgramCount(file)
  {
    var seg, pages := SegmentAt(file, k), FilePages(file, k);
    match how
    case Whole(_) => false
    case NoPages => FP.Took(a, b, Bill(s.t.tab, root, pages))
    case NoBlock => FP.Took(a, b, Bill(s.t.tab, root, pages)) && b.Refuses(seg.Pages())
    case Stopped(_, done) =>
      var tried := PagesFrom(seg.PageStart(), done + 1);
      && Tried(s, a, b, root, pages, tried, seg.Pages())
      && (TakenPage(s, root, file, k, done) || RanOut(s, a, root, pages, tried, seg.Pages()))
  }

  // Frames went to `pages` and their tables, then to the tables for the pages `tried`, as far as there were
  // frames beside the n that have been given back.
  ghost predicate Tried(s: Snap, a: FP.Stock, b: FP.Stock, root: nat, pages: seq<VPage>, tried: seq<VPage>, n: nat) {
    n <= a.Avail() && FP.Took(a, b, Min(|pages| + Cost(s.t.tab, root, pages + tried), a.Avail() - n))
  }

  ghost predicate RanOut(s: Snap, a: FP.Stock, root: nat, pages: seq<VPage>, tried: seq<VPage>, n: nat) {
    a.Avail() < |pages| + Cost(s.t.tab, root, pages + tried) + n
  }

  // Three tables for each page at most.
  lemma RanOutOfFew(s: Snap, a: FP.Stock, root: nat, pages: seq<VPage>, tried: seq<VPage>, n: nat)
    requires RanOut(s, a, root, pages, tried, n)
    ensures a.Avail() < 4 * |pages| + 3 * |tried| + n
  {
    CostGrows(s.t.tab, root, [], pages + tried);
    assert [] + (pages + tried) == pages + tried;
  }

  lemma SettlesBroke(s: Snap, a: FP.Stock, s1: Snap, b: FP.Stock, s2: Snap, c: FP.Stock, root: nat, file: seq<nat>,
                     k: nat, how: Outcome)
    requires Loadable(file) && k < ProgramCount(file) && !how.Whole?
    requires Billed(s, a, s1, b, root, FilePages(file, k)) && Occupies(s, s1, root, file, k)
    requires Settles(s1, b, s2, c, root, SegmentAt(file, k), how)
    ensures Broke(s, a, c, root, file, k, how)
  {
    var seg, pages := SegmentAt(file, k), FilePages(file, k);
    match how
    case Stopped(_, done) =>
      StoppedBroke(s, a, s1, b, c, root, pages, PagesFrom(seg.PageStart(), done + 1), seg.Pages());
      assert Lookup(s1.t.tab, root, SegmentPage(file, k, done)).Some? <==> TakenPage(s, root, file, k, done);
    case NoPages =>
    case NoBlock =>
  }

  lemma StoppedBroke(s: Snap, a: FP.Stock, s1: Snap, b: FP.Stock, c: FP.Stock, root: nat, p: seq<VPage>, q: seq<VPage>, n: nat)
    requires Billed(s, a, s1, b, root, p) && n <= b.Avail()
    requires FP.Took(b, c, Min(Cost(s1.t.tab, root, q), b.Avail() - n))
    ensures Tried(s, a, c, root, p, q, n) && (b.Avail() < n + Cost(s1.t.tab, root, q) ==> RanOut(s, a, root, p, q, n))
  {
    CostAppend(s, s1, root, p, q);
    FP.TookTheRest(a, b, c, Bill(s.t.tab, root, p), Cost(s1.t.tab, root, q), n);
  }

  lemma BilledOneMore(s: Snap, a: FP.Stock, s1: Snap, b: FP.Stock, s2: Snap, c: FP.Stock, root: nat, p: seq<VPage>, q: seq<VPage>)
    requires Billed(s, a, s1, b, root, p) && Billed(s1, b, s2, c, root, q)
    ensures Billed(s, a, s2, c, root, p + q)
  {
    OpenedAppend(s, s1, s2, root, p, q);
    CostAppend(s, s1, root, p, q);
  }

  // A page mapped since s maps a free frame.
  ghost predicate Dangles(s: Snap, s': Snap, root: nat) {
    exists v :: DanglesAt(s, s', root, v)
  }

  ghost predicate DanglesAt(s: Snap, s': Snap, root: nat, v: VPage) {
    var l := Lookup(s'.t.tab, root, v);
    Lookup(s.t.tab, root, v).None? && l.Some? && Free(s', l.value.frame)
  }

  // The file that leaves such a page: the first segment that cannot be loaded has a first page that is not
  // in use, and so a later one that is.
  ghost predicate Leaks(s: Snap, root: nat, file: seq<nat>)
    requires Loadable(file)
  {
    exists k: nat :: FirstBad(s, root, file, k) && 0 < SegmentAt(file, k).Pages() && !TakenPage(s, root, file, k, 0)
  }

  lemma StoppedLeftover(a: Snap, b: Snap, c: Snap, root: nat, file: seq<nat>, k: nat, frame: nat, done: nat, v: VPage)
    requires Loadable(file) && k < ProgramCount(file) && IsRoot(b.t, root)
    requires Kept(a, b) && Kept(b, c) && Occupies(a, b, root, file, k) && Held(a, b, root)
    requires RangeMaps(b, c, SegmentSpan(root, SegmentAt(file, k), frame), done)
    ensures Leftover(a, c, root, file, k, frame, done, v)
  {
    var g := SegmentSpan(root, SegmentAt(file, k), frame);
    assert Lookup(c.t.tab, root, v) == RangeLookup(b, g, done, root, v);
    assert Lookup(b.t.tab, root, v).Some? <==> Taken(a, root, file, k, v);
  }

  // Loading segment k ended otherwise than whole.
  lemma SegmentStops(a: Snap, b: Snap, c: Snap, root: nat, file: seq<nat>, k: nat, how: Outcome)
    requires Loadable(file) && k < ProgramCount(file) && SegmentAt(file, k).kind == PT_LOAD && IsRoot(b.t, root)
    requires Kept(a, b) && Kept(b, c) && Occupies(a, b, root, file, k) && Held(a, b, root)
    requires NoneBad(a, root, file, k) && !how.Whole? && Ends(b, c, root, SegmentAt(file, k), how)
    ensures Stops(a, c, root, file, k, how)
  {
    if how.Stopped? {
      UntakenPrefix(a, b, c, root, file, k, how.b, how.done);
      forall v: VPage
        ensures Leftover(a, c, root, file, k, how.b, how.done, v)
      {
        StoppedLeftover(a, b, c, root, file, k, how.b, how.done, v);
      }
    }
  }

  lemma NewDataIsNotFree(s: Snap, s': Snap, root: nat, v: VPage)
    requires Good(s')
    requires Lookup(s.t.tab, root, v).None? && Lookup(s'.t.tab, root, v).Some? ==>
               NewData(s, s', Lookup(s'.t.tab, root, v).value.frame)
    ensures !DanglesAt(s, s', root, v)
  {
  }

  // A failed load leaves a page on a free frame exactly if it stopped after mapping some of a segment.
  lemma DanglesIffStopped(s: Snap, s': Snap, root: nat, file: seq<nat>, k: nat, how: Outcome)
    requires Loadable(file) && Good(s') && Stops(s, s', root, file, k, how)
    ensures Dangles(s, s', root) <==> how.Stopped? && 0 < how.done
  {
    var seg := SegmentAt(file, k);
    if how.Stopped? && 0 < how.done {
      var v := SegmentPage(file, k, 0);
      OffsetOf(seg.PageStart(), 0, v);
      assert Leftover(s, s', root, file, k, how.b, how.done, v);
      assert InBlock(how.b, seg.Pages(), how.b);
      assert DanglesAt(s, s', root, v);
    } else {
      forall v: VPage
        ensures !DanglesAt(s, s', root, v)
      {
        if how.Stopped? {
          assert Leftover(s, s', root, file, k, how.b, how.done, v);
        }
        NewDataIsNotFree(s, s', root, v);
      }
    }
  }

  lemma OneFirstBad(s: Snap, root: nat, file: seq<nat>, j: nat, k: nat)
    requires Loadable(file) && FirstBad(s, root, file, j) && FirstBad(s, root, file, k)
    ensures j == k
  {
  }

  // The same said of the file alone, for a space that is empty below: segment k is the first in conflict,
  // and its first page belongs to no earlier segment.
  ghost predicate BreaksOff(file: seq<nat>, k: nat)
    requires Loadable(file)
  {
    && k < ProgramCount(file) && Conflicts(file, k) && (forall j :: 0 <= j < k ==> !Conflicts(file, j))
    && 0 < SegmentAt(file, k).Pages() && !Covered(Segments(file, k), SegmentPage(file, k, 0))
  }

  lemma LeaksInEmpty(s: Snap, root: nat, file: seq<nat>)
    requires LowerHalfEmpty(s, root) && Loadable(file)
    ensures Leaks(s, root, file) <==> exists k: nat :: BreaksOff(file, k)
  {
    forall k: nat
      ensures BreaksOff(file, k) <==>
              FirstBad(s, root, file, k) && 0 < SegmentAt(file, k).Pages() && !TakenPage(s, root, file, k, 0)
    {
      if k < ProgramCount(file) {
        BreaksOffAt(s, root, file, k);
      }
    }
  }

  lemma BreaksOffAt(s: Snap, root: nat, file: seq<nat>, k: nat)
    requires LowerHalfEmpty(s, root) && Loadable(file) && k < ProgramCount(file)
    ensures BreaksOff(file, k) <==>
            FirstBad(s, root, file, k) && 0 < SegmentAt(file, k).Pages() && !TakenPage(s, root, file, k, 0)
  {
    forall j: nat | j <= k
      ensures Bad(s, root, file, j) <==> Conflicts(file, j)
    {
      BadInEmpty(s, root, file, j);
    }
    if SegmentAt(file, k).kind == PT_LOAD && 0 < SegmentAt(file, k).Pages() {
      SegmentPageIsLow(file, k, 0);
    }
  }

  lemma LeaksAt(s: Snap, root: nat, file: seq<nat>, k: nat)
    requires Loadable(file) && FirstBad(s, root, file, k)
    ensures Leaks(s, root, file) <==> 0 < SegmentAt(file, k).Pages() && !TakenPage(s, root, file, k, 0)
  {
    forall j: nat | FirstBad(s, root, file, j)
      ensures j == k
    {
      OneFirstBad(s, root, file, j, k);
    }
  }

  // Unless frames were short, the load stopped at the first bad segment, and what it leaves behind can be
  // told from the file and the space before the load.
  lemma FailureExact(s: Snap, s': Snap, root: nat, file: seq<nat>, k: nat, how: Outcome)
    requires Loadable(file) && Good(s') && Stops(s, s', root, file, k, how) && !Short(s, root, file, k, how)
    ensures FirstBad(s, root, file, k) && (Dangles(s, s', root) <==> Leaks(s, root, file))
  {
    DanglesIffStopped(s, s', root, file, k, how);
    StopIsBad(s, s', root, file, k, how);
    LeaksAt(s, root, file, k);
  }

  lemma StopsWithin(s: Snap, s': Snap, root: nat, file: seq<nat>, k: nat, how: Outcome)
    requires Loadable(file) && Stops(s, s', root, file, k, how) && how.Stopped?
    ensures how.done < SegmentAt(file, k).Pages()
  {
  }

  lemma StopIsBad(s: Snap, s': Snap, root: nat, file: seq<nat>, k: nat, how: Outcome)
    requires Loadable(file) && Stops(s, s', root, file, k, how) && !Short(s, root, file, k, how)
    ensures FirstBad(s, root, file, k)
    ensures how.Stopped? && 0 < how.done <==> 0 < SegmentAt(file, k).Pages() && !TakenPage(s, root, file, k, 0)
  {
    if how.Stopped? {
      assert TakenPage(s, root, file, k, how.done);
    }
  }
}

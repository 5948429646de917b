/**
 Whole runs of mapping operations.  To a client, each page of each address space is a cell of its own, and
 the frames are a number: whether an operation is accepted, what it does to every cell and how many frames
 it takes follow from these alone.
 */
module SpaceRuns {
  import opened Prelude
  import opened PageWords
  import opened PageTables
  import opened SpaceState

  datatype Op =
    | Map(virt: nat, phys: nat, flags: nat)
    | MapHuge(virt: nat, phys: nat, flags: nat)
    | Unmap(virt: nat)
    | UnmapHuge(virt: nat)
    | MapFor(root: nat, virt: nat, phys: nat, flags: nat)
  {
    // The page the operation is about, and the space it works in.
    function Page(): VPage {
      PageOf(virt)
    }

    function Space(kernel: nat): nat {
      if MapFor? then root else kernel
    }

    predicate Maps() {
      Map? || MapHuge? || MapFor?
    }

    predicate Aligned() {
      if MapHuge? then Aligned2M(virt, phys)
      else if UnmapHuge? then virt % HUGE_2MB == 0
      else if Unmap? then virt % PAGE_SIZE == 0
      else Aligned4K(virt, phys)
    }

    // How many tables the operation must have on the way to its page; it makes those that are missing.
    function Goal(): nat {
      if MapHuge? then 2 else if Map? || MapFor? then 3 else 0
    }
  }

  // What a page is mapped to, and how many of the three tables on the way to it there are.  A 2 MiB page
  // counts as the third; a table stays when its last page is unmapped.
  datatype Cell = Cell(leaf: Option<Leaf>, depth: nat)

  // The cell of its own page permits the operation.
  predicate Accepts(own: Cell, op: Op) {
    op.Aligned() &&
    match op
    case Map(_, _, _) => own.leaf.None?
    case MapHuge(_, _, _) => own.depth < 3
    case Unmap(_) => own.leaf.Some?
    case UnmapHuge(_) => own.depth == 3
    case MapFor(_, _, _, _) => own.leaf.None?
  }

  // The operation succeeds: it is permitted, and the frames suffice for the missing tables.
  predicate Answer(own: Cell, op: Op, avail: nat) {
    Accepts(own, op) && op.Goal() <= own.depth + avail
  }

  // The frames the operation takes, whether or not it succeeds.
  function Spends(own: Cell, op: Op, avail: nat): (n: nat)
    ensures n <= avail
  {
    if op.Aligned() then Made(own.depth, op.Goal(), avail) else 0
  }

  // The new tables, as seen by the page v.
  function Dug(own: Cell, op: Op, avail: nat, v: VPage, c: Cell): Cell {
    if op.Maps() && op.Aligned()
    then c.(depth := Max(c.depth, Min(op.Page().Common(v), own.depth + Spends(own, op, avail))))
    else c
  }

  // The entry written by an operation that succeeds, as seen by the page v.
  function Written(op: Op, v: VPage, c: Cell): Cell {
    match op
    case Map(virt, phys, flags) =>
      if v == PageOf(virt)
      then c.(leaf := Some(Leaf(phys / PAGE_SIZE, SetPresent(LowFlags(flags)), HighFlags(flags), false)))
      else c
    case MapHuge(virt, phys, flags) =>
      if v.SameRegion(PageOf(virt))
      then Cell(Some(Leaf(phys / PAGE_SIZE + v.i1, SetHuge(SetPresent(LowFlags(flags))), HighFlags(flags), true)), 3)
      else c
    case Unmap(virt) =>
      if !v.SameRegion(PageOf(virt)) then c
      else if c.leaf.Some? && c.leaf.value.huge then Cell(None, 2)
      else if v == PageOf(virt) then c.(leaf := None)
      else c
    case UnmapHuge(virt) =>
      if v.SameRegion(PageOf(virt)) then Cell(None, 2) else c
    case MapFor(_, virt, phys, flags) =>
      if v == PageOf(virt)
      then c.(leaf := Some(Leaf(phys / PAGE_SIZE, SetPresent(LowFlags(flags)), 0, false)))
      else c
  }

  // The rule for one cell, of a page v: own is the cell of the operation's page, c the cell before, and
  // `reached` says that the space of v is the operation's or has the kernel's slot for its page.
  function NewCell(own: Cell, op: Op, avail: nat, reached: bool, v: VPage, c: Cell): Cell {
    if !reached then c
    else
      var dug := Dug(own, op, avail, v, c);
      if Answer(own, op, avail) then Written(op, v, dug) else dug
  }

  // ---- The tables obey the rule ----

  function CellAt(s: Snap, r: nat, v: VPage): Cell {
    Cell(Lookup(s.t.tab, r, v), Depth(s.t.tab, r, v))
  }

  ghost function OwnCell(s: Snap, op: Op): Cell {
    CellAt(s, op.Space(s.t.kernel), op.Page())
  }

  // s' results from s by the operation, with `avail` frames at hand.
  ghost predicate Performs(s: Snap, s': Snap, op: Op, avail: nat, ok: bool) {
    && Kept(s, s') && ok == Answer(OwnCell(s, op), op, avail)
    && forall r, v :: IsRoot(s.t, r) ==> CellAt(s', r, v) == After(s, op, avail, r, v)
  }

  ghost function After(s: Snap, op: Op, avail: nat, r: nat, v: VPage): Cell {
    NewCell(OwnCell(s, op), op, avail, Reaches(s.t, op.Space(s.t.kernel), r, op.Page().i4), v, CellAt(s, r, v))
  }

  // No page of a region without directory entry is mapped, so a huge map that is accepted finds every page
  // of its region unmapped, and a huge unmap that is refused, but aligned, found none mapped.
  lemma UnusedIsUnmapped(s: Snap, r: nat, u: VPage, v: VPage)
    requires CellAt(s, r, u).depth < 3 && v.SameRegion(u)
    ensures CellAt(s, r, v).depth < 3 && CellAt(s, r, v).leaf.None?
  {
  }

  // Spaces that share a slot agree on which regions are 2 MiB pages.
  lemma RegionHuge(s: Snap, u: VPage, r: nat, v: VPage)
    requires Good(s) && IsRoot(s.t, r) && v.SameRegion(u) && Reaches(s.t, s.t.kernel, r, v.i4)
    ensures var a, b := Lookup(s.t.tab, s.t.kernel, u), Lookup(s.t.tab, r, v);
            (a.Some? && a.value.huge) <==> (b.Some? && b.value.huge)
  {
    assert SlotOk(s.t, r, v.i4);
  }

  // A refused operation may have made tables, and changes nothing else.
  lemma RefusedPerforms(s: Snap, s': Snap, op: Op, avail: nat)
    requires Kept(s, s') && Unmoved(s, s') && !Answer(OwnCell(s, op), op, avail)
    requires if op.Maps() && op.Aligned()
             then Deepened(s, s', op.Space(s.t.kernel), op.Page()) && DugTo(s, s', op, avail)
             else DepthsKept(s, s')
    ensures Performs(s, s', op, avail, false)
  {
  }

  // The walk for the operation's page finds what it did and the tables made.
  ghost predicate DugTo(s: Snap, s': Snap, op: Op, avail: nat) {
    var r, u := op.Space(s.t.kernel), op.Page();
    Depth(s'.t.tab, r, u) == Depth(s.t.tab, r, u) + Spends(OwnCell(s, op), op, avail)
  }

  lemma MapPerforms(s: Snap, s': Snap, op: Op, avail: nat)
    requires op.Map? || op.MapFor?
    requires Kept(s, s') && Answer(OwnCell(s, op), op, avail)
    requires Maps(s, s', op.Space(s.t.kernel), op.Page(),
                  Some(Leaf(op.phys / PAGE_SIZE, SetPresent(LowFlags(op.flags)), if op.Map? then HighFlags(op.flags) else 0, false)))
    requires Deepened(s, s', op.Space(s.t.kernel), op.Page()) && DugTo(s, s', op, avail)
    ensures Performs(s, s', op, avail, true)
  {
  }

  lemma UnmapPerforms(s: Snap, s': Snap, virt: nat, avail: nat)
    requires Good(s) && Kept(s, s') && virt % PAGE_SIZE == 0
    requires var u := PageOf(virt); var l := Lookup(s.t.tab, s.t.kernel, u);
             l.Some? && if l.value.huge then MapsRegion(s, s', u, 0) && SetsDepth(s, s', u, 2)
                        else Maps(s, s', s.t.kernel, u, None) && DepthsKept(s, s')
    ensures Performs(s, s', Unmap(virt), avail, true)
  {
    var u := PageOf(virt);
    forall r, v | IsRoot(s.t, r)
      ensures CellAt(s', r, v) == After(s, Unmap(virt), avail, r, v)
    {
      if v.SameRegion(u) && Reaches(s.t, s.t.kernel, r, u.i4) {
        RegionHuge(s, u, r, v);
      }
    }
  }

  lemma UnmapHugePerforms(s: Snap, s': Snap, virt: nat, avail: nat)
    requires Kept(s, s') && Accepts(CellAt(s, s.t.kernel, PageOf(virt)), UnmapHuge(virt))
    requires MapsRegion(s, s', PageOf(virt), 0) && SetsDepth(s, s', PageOf(virt), 2)
    ensures Performs(s, s', UnmapHuge(virt), avail, true)
  {
  }

  lemma MapHugePerforms(s: Snap, s': Snap, virt: nat, phys: nat, flags: nat, avail: nat)
    requires Kept(s, s') && FlagBits(flags) && phys / PAGE_SIZE < FRAME_LIMIT && Aligned2M(virt, phys)
    requires Depth(s.t.tab, s.t.kernel, PageOf(virt)) < 3 && 2 <= Depth(s.t.tab, s.t.kernel, PageOf(virt)) + avail
    requires MapsRegion(s, s', PageOf(virt), phys + SetHuge(SetPresent(flags)))
    requires Deepened(s, s', s.t.kernel, PageOf(virt)) && Depth(s'.t.tab, s.t.kernel, PageOf(virt)) == 3
    ensures Performs(s, s', MapHuge(virt, phys, flags), avail, true)
  {
    HugeWordPages(phys, flags);
    var op, w := MapHuge(virt, phys, flags), phys + SetHuge(SetPresent(flags));
    forall r, v | IsRoot(s.t, r)
      ensures CellAt(s', r, v) == After(s, op, avail, r, v)
    {
      assert HugeLeafOf(w, v.i1)
          == Leaf(phys / PAGE_SIZE + v.i1, SetHuge(SetPresent(LowFlags(flags))), HighFlags(flags), true);
    }
  }

  // What a caller must observe for an operation of a run.
  ghost predicate Permitted(s: Snap, op: Op) {
    && IsRoot(s.t, op.Space(s.t.kernel))
    && (op.Maps() ==> op.phys / PAGE_SIZE < FRAME_LIMIT && FlagBits(op.flags))
    && (op.MapFor? ==> op.root != s.t.kernel && op.Page().i4 < 256)
  }

  lemma PermittedLater(s: Snap, s': Snap, op: Op)
    requires Permitted(s, op) && Kept(s, s')
    ensures Permitted(s', op)
  {
  }

  // ---- Runs of the flat machine ----

  // All that matters of the tables: the cell of every page of every space, which spaces a change of a space
  // reaches below a slot, and how many frames can be had.
  datatype Flat = Flat(kernel: nat, reach: (nat, nat, Index) -> bool, cells: (nat, VPage) -> Cell, avail: nat)

  ghost function FlatOf(s: Snap, avail: nat): Flat {
    Flat(s.t.kernel, (root: nat, r: nat, i4: Index) => Reaches(s.t, root, r, i4), (r: nat, v: VPage) => CellAt(s, r, v), avail)
  }

  function FlatStep(d: Flat, op: Op): (Flat, bool) {
    var root, u := op.Space(d.kernel), op.Page();
    var own := d.cells(root, u);
    (d.(cells := (r: nat, v: VPage) => NewCell(own, op, d.avail, d.reach(root, r, u.i4), v, d.cells(r, v)),
        avail := d.avail - Spends(own, op, d.avail)),
     Answer(own, op, d.avail))
  }

  function FlatRun(d: Flat, ops: seq<Op>): (r: (Flat, seq<bool>))
    ensures |r.1| == |ops| && r.0.kernel == d.kernel
  {
    if ops == [] then (d, [])
    else
      var before := FlatRun(d, ops[..|ops| - 1]);
      var after := FlatStep(before.0, ops[|ops| - 1]);
      (after.0, before.1 + [after.1])
  }

  // The tables in s' are the flat machine's, as far as the spaces of s go.
  ghost predicate Agrees(s: Snap, s': Snap, avail: nat, d: Flat) {
    && d.kernel == s.t.kernel && d.avail == avail
    && (forall r, v :: IsRoot(s.t, r) ==> d.cells(r, v) == CellAt(s', r, v))
    && (forall root, r, i4: Index :: IsRoot(s.t, r) ==> d.reach(root, r, i4) == Reaches(s.t, root, r, i4))
  }

  lemma AgreesAtFirst(s: Snap, avail: nat)
    ensures Agrees(s, s, avail, FlatOf(s, avail))
  {
  }

  lemma AgreesOneMore(s: Snap, b: Snap, c: Snap, d: Flat, op: Op, ok: bool)
    requires Kept(s, b) && Agrees(s, b, d.avail, d) && Permitted(s, op) && Performs(b, c, op, d.avail, ok)
    ensures ok == FlatStep(d, op).1
    ensures Agrees(s, c, d.avail - Spends(OwnCell(b, op), op, d.avail), FlatStep(d, op).0)
  {
    var e := FlatStep(d, op).0;
    assert d.cells(op.Space(d.kernel), op.Page()) == OwnCell(b, op);
    forall r, v | IsRoot(s.t, r)
      ensures e.cells(r, v) == CellAt(c, r, v)
    {
      assert IsRoot(b.t, r);
      SameReaches(s, b, op.Space(s.t.kernel), r, op.Page().i4);
    }
  }

  lemma RunOneMore(d: Flat, ops: seq<Op>, i: nat)
    requires i < |ops|
    ensures var r := FlatRun(d, ops[..i]);
            var e := FlatStep(r.0, ops[i]);
            FlatRun(d, ops[..i + 1]) == (e.0, r.1 + [e.1])
  {
    assert ops[..i + 1][..i] == ops[..i];
  }

  // No operation takes more than three frames.
  lemma {:induction false} ThreeEach(d: Flat, ops: seq<Op>)
    ensures d.avail <= FlatRun(d, ops).0.avail + 3 * |ops|
  {
    if ops != [] {
      ThreeEach(d, ops[..|ops| - 1]);
    }
  }

  // So with three for each operation none is refused for want of frames: the cells alone decide.
  lemma {:induction false} EnoughFrames(d: Flat, ops: seq<Op>, i: nat)
    requires i < |ops| && 3 * |ops| <= d.avail
    ensures var own := FlatRun(d, ops[..i]).0.cells(ops[i].Space(d.kernel), ops[i].Page());
            FlatRun(d, ops).1[i] == Accepts(own, ops[i])
  {
    var n := |ops| - 1;
    if i < n {
      EnoughFrames(d, ops[..n], i);
      assert ops[..n][..i] == ops[..i];
    } else {
      ThreeEach(d, ops[..n]);
    }
  }
}

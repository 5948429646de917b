/**
 Unmapping a run of consecutive pages of the kernel, and its relation to mapping one.
 */
module RangeUnmapping {
  import opened Prelude
  import opened PageWords
  import opened PageTables
  import opened SpaceState
  import opened PageRanges

  // Unmapping page u takes page v away: v is u, or lies in the same 2 MiB page.
  ghost predicate TakesAway(s: Snap, u: VPage, v: VPage) {
    var l := Lookup(s.t.tab, s.t.kernel, u);
    l.Some? && (u == v || (l.value.huge && v.SameRegion(u)))
  }

  // One of the first n pages from `virt` takes v away.
  ghost predicate Removed(s: Snap, virt: nat, n: nat, v: VPage) {
    exists u: VPage :: Offset(virt, u) < n && TakesAway(s, u, v)
  }

  // The first n pages from `virt` are gone, with every 2 MiB page that has one of them; no other page of
  // any space changes.
  ghost predicate RangeUnmaps(s: Snap, s': Snap, virt: nat, n: nat) {
    forall r, v :: IsRoot(s.t, r) ==>
      Lookup(s'.t.tab, r, v) ==
      if Reaches(s.t, s.t.kernel, r, v.i4) && Removed(s, virt, n, v) then None else Lookup(s.t.tab, r, v)
  }

  // What one call of vmm_unmap on page u does.
  ghost predicate Unmaps(s: Snap, s': Snap, u: VPage) {
    var l := Lookup(s.t.tab, s.t.kernel, u);
    if l.None? then Unmoved(s, s')
    else if l.value.huge then MapsRegion(s, s', u, 0)
    else Maps(s, s', s.t.kernel, u, None)
  }

  lemma UnmapsAt(s: Snap, s': Snap, u: VPage, r: nat, v: VPage)
    requires Unmaps(s, s', u) && IsRoot(s.t, r)
    ensures Lookup(s'.t.tab, r, v) ==
            if Reaches(s.t, s.t.kernel, r, v.i4) && TakesAway(s, u, v) then None else Lookup(s.t.tab, r, v)
  {
  }

  // The pages with offset at most i are those with smaller offset and the one at i.
  lemma OneMoreOffset(virt: nat, i: nat, u: VPage, w: VPage)
    requires u == PageOf(virt + i * PAGE_SIZE)
    ensures Offset(virt, w) < i + 1 <==> Offset(virt, w) < i || w == u
  {
    if i < PAGES {
      OffsetOf(virt, i, w);
    }
  }

  lemma RemovedOneMore(s: Snap, virt: nat, i: nat, u: VPage, v: VPage)
    requires u == PageOf(virt + i * PAGE_SIZE)
    ensures Removed(s, virt, i + 1, v) <==> Removed(s, virt, i, v) || TakesAway(s, u, v)
  {
    OneMoreOffset(virt, i, u, u);
    forall w: VPage
      ensures Offset(virt, w) < i + 1 <==> Offset(virt, w) < i || w == u
    {
      OneMoreOffset(virt, i, u, w);
    }
  }

  // If u is gone already, so is all it would take away.
  lemma RemovedTogether(s: Snap, virt: nat, i: nat, u: VPage, v: VPage)
    requires Removed(s, virt, i, u) && TakesAway(s, u, v)
    ensures Removed(s, virt, i, v)
  {
    var w: VPage :| Offset(virt, w) < i && TakesAway(s, w, u);
    assert TakesAway(s, w, v);
  }

  lemma StillTakes(a: Snap, b: Snap, virt: nat, i: nat, u: VPage, v: VPage)
    requires RangeUnmaps(a, b, virt, i) && IsRoot(a.t, a.t.kernel) && b.t.kernel == a.t.kernel
    ensures TakesAway(b, u, v) <==> TakesAway(a, u, v) && !Removed(a, virt, i, u)
  {
    assert Lookup(b.t.tab, a.t.kernel, u) ==
           if Reaches(a.t, a.t.kernel, a.t.kernel, u.i4) && Removed(a, virt, i, u) then None else Lookup(a.t.tab, a.t.kernel, u);
  }

  lemma UnmapExtendsAt(a: Snap, b: Snap, c: Snap, virt: nat, i: nat, u: VPage, r: nat, v: VPage)
    requires Kept(a, b) && RangeUnmaps(a, b, virt, i) && Unmaps(b, c, u) && u == PageOf(virt + i * PAGE_SIZE)
    requires IsRoot(a.t, a.t.kernel) && IsRoot(a.t, r)
    ensures Lookup(c.t.tab, r, v) ==
            if Reaches(a.t, a.t.kernel, r, v.i4) && Removed(a, virt, i + 1, v) then None else Lookup(a.t.tab, r, v)
  {
    assert IsRoot(b.t, r);
    UnmapsAt(b, c, u, r, v);
    SameReaches(a, b, a.t.kernel, r, v.i4);
    StillTakes(a, b, virt, i, u, v);
    RemovedOneMore(a, virt, i, u, v);
    if TakesAway(a, u, v) && Removed(a, virt, i, u) {
      RemovedTogether(a, virt, i, u, v);
    }
  }

  lemma UnmapExtends(a: Snap, b: Snap, c: Snap, virt: nat, i: nat, u: VPage)
    requires Kept(a, b) && RangeUnmaps(a, b, virt, i) && Unmaps(b, c, u) && u == PageOf(virt + i * PAGE_SIZE)
    requires IsRoot(a.t, a.t.kernel)
    ensures RangeUnmaps(a, c, virt, i + 1)
  {
    forall r, v | IsRoot(a.t, r)
      ensures Lookup(c.t.tab, r, v) ==
              if Reaches(a.t, a.t.kernel, r, v.i4) && Removed(a, virt, i + 1, v) then None else Lookup(a.t.tab, r, v)
    {
      UnmapExtendsAt(a, b, c, virt, i, u, r, v);
    }
  }

  // The next page, unmapped or passed over.
  lemma UnmapStep(a: Snap, b: Snap, c: Snap, virt: nat, i: nat, u: VPage, ok: bool)
    requires Kept(a, b) && Kept(b, c) && RangeUnmaps(a, b, virt, i) && u == PageOf(virt + i * PAGE_SIZE)
    requires IsRoot(a.t, a.t.kernel) && (ok <==> Lookup(b.t.tab, b.t.kernel, u).Some?)
    requires !ok ==> c == b
    requires ok ==> if Lookup(b.t.tab, b.t.kernel, u).value.huge then MapsRegion(b, c, u, 0) else Maps(b, c, b.t.kernel, u, None)
    ensures Kept(a, c) && RangeUnmaps(a, c, virt, i + 1)
  {
    KeptTransitive(a, b, c);
    UnmapExtends(a, b, c, virt, i, u);
  }

  lemma UnmapsNothing(s: Snap, virt: nat)
    ensures RangeUnmaps(s, s, virt, 0)
  {
  }

  // Mapping a range of the kernel and unmapping it again leaves every translation of every space as it was.
  lemma UnmapInvertsMap(a: Snap, b: Snap, c: Snap, g: Span, n: nat)
    requires Good(a) && Kept(a, b) && IsRoot(a.t, a.t.kernel) && g.root == a.t.kernel
    requires RangeMaps(a, b, g, n) && RangeUnmaps(b, c, g.virt, n)
    ensures Unmoved(a, c)
  {
    forall r, v | IsRoot(a.t, r)
      ensures Lookup(c.t.tab, r, v) == Lookup(a.t.tab, r, v)
    {
      UnmapInvertsMapAt(a, b, c, g, n, r, v);
    }
  }

  lemma RemovedOfMapped(a: Snap, b: Snap, g: Span, n: nat, v: VPage)
    requires Kept(a, b) && IsRoot(a.t, a.t.kernel) && g.root == a.t.kernel && RangeMaps(a, b, g, n)
    ensures Removed(b, g.virt, n, v) <==> Offset(g.virt, v) < n
  {
    forall u: VPage | Offset(g.virt, u) < n
      ensures TakesAway(b, u, v) <==> u == v
    {
      assert Lookup(b.t.tab, g.root, u) == RangeLookup(a, g, n, g.root, u);
    }
  }

  lemma UnmapInvertsMapAt(a: Snap, b: Snap, c: Snap, g: Span, n: nat, r: nat, v: VPage)
    requires Good(a) && Kept(a, b) && IsRoot(a.t, a.t.kernel) && g.root == a.t.kernel
    requires RangeMaps(a, b, g, n) && RangeUnmaps(b, c, g.virt, n) && IsRoot(a.t, r)
    ensures Lookup(c.t.tab, r, v) == Lookup(a.t.tab, r, v)
  {
    assert IsRoot(b.t, r);
    RemovedOfMapped(a, b, g, n, v);
    SameReaches(a, b, a.t.kernel, r, v.i4);
    if Offset(g.virt, v) < n && Reaches(a.t, a.t.kernel, r, v.i4) {
      SharedNothing(a, r, v);
    }
  }

  lemma SharedNothing(a: Snap, r: nat, v: VPage)
    requires Good(a) && IsRoot(a.t, r) && Reaches(a.t, a.t.kernel, r, v.i4) && Lookup(a.t.tab, a.t.kernel, v).None?
    ensures Lookup(a.t.tab, r, v).None?
  {
    if r != a.t.kernel {
      UpperHalfIsShared(a.t, r, v);
    }
  }
}

/**
 A snapshot of memory management as a value: the tables, the allocator's bits and the frames held as
 data.  The lemmas say what each elementary change of the kernel keeps.
 */
module SpaceState {
  import opened Prelude
  import opened PageWords
  import opened PageTables

  // data: frames handed out for program pages, stacks and task records.
  datatype Snap = Snap(t: Forest, bits: seq<bool>, data: set<nat>)

  // Tables and data occupy distinct frames, none of them free; frame 0 is in use.
  ghost predicate Good(s: Snap) {
    && WellFormed(s.t)
    && 0 < |s.bits| <= FRAME_LIMIT && s.bits[0]
    && (forall f :: 0 <= f < |s.bits| ==> f in s.t.tab && |s.t.tab[f]| == 512)
    && (forall f :: f in s.t.lab ==> f < FRAME_LIMIT && (f < |s.bits| ==> s.bits[f]))
    && (forall f :: f in s.data ==> f < |s.bits| && s.bits[f] && f !in s.t.lab)
  }

  // A frame the allocator may hand out next.
  ghost predicate Free(s: Snap, g: nat) {
    g < |s.bits| && !s.bits[g]
  }

  // What no operation on tables disturbs: the spaces, the data frames and their contents, used frames,
  // and the upper-half slots of every space but the kernel's.
  ghost predicate Kept(s: Snap, s': Snap) {
    && s'.t.kernel == s.t.kernel && |s'.bits| == |s.bits|
    && (forall f :: 0 <= f < |s.bits| && s.bits[f] ==> s'.bits[f])
    && (forall r :: IsRoot(s.t, r) ==> IsRoot(s'.t, r))
    && (forall r, i: Index :: IsRoot(s.t, r) && r != s.t.kernel && 256 <= i ==>
          Entry(s'.t.tab, r, i) == Entry(s.t.tab, r, i))
    && (forall f :: f in s.data ==> f in s'.data && f in s.t.tab && f in s'.t.tab && s'.t.tab[f] == s.t.tab[f])
  }

  lemma KeptTransitive(a: Snap, b: Snap, c: Snap)
    requires Kept(a, b) && Kept(b, c)
    ensures Kept(a, c)
  {
  }

  // No page of any space changes.
  ghost predicate Unmoved(s: Snap, s': Snap) {
    forall r, v :: IsRoot(s.t, r) ==> Lookup(s'.t.tab, r, v) == Lookup(s.t.tab, r, v)
  }

  ghost predicate AllDeepen(s: Snap, s': Snap) {
    forall r, v :: IsRoot(s.t, r) ==> Deepens(s.t.tab, s'.t.tab, r, v)
  }

  // The page u of `root` becomes `leaf`, in every space `root` reaches; nothing else changes.
  ghost predicate Maps(s: Snap, s': Snap, root: nat, u: VPage, leaf: Option<Leaf>) {
    forall r, v :: IsRoot(s.t, r) ==>
      Lookup(s'.t.tab, r, v) ==
      if v == u && Reaches(s.t, root, r, u.i4) then leaf else Lookup(s.t.tab, r, v)
  }

  // Every walk finds as many tables as before.
  ghost predicate DepthsKept(s: Snap, s': Snap) {
    forall r, v :: IsRoot(s.t, r) ==> Depth(s'.t.tab, r, v) == Depth(s.t.tab, r, v)
  }

  // Tables have been added on the way to the page u of `root`: a walk finds those that it has in common
  // with the walk for u, in every space `root` reaches, and no other new ones.
  ghost predicate Deepened(s: Snap, s': Snap, root: nat, u: VPage) {
    forall r, v :: IsRoot(s.t, r) ==> Depth(s'.t.tab, r, v) == DepthBelow(s, r, v, root, u, Depth(s'.t.tab, root, u))
  }

  ghost function DepthBelow(s: Snap, r: nat, v: VPage, root: nat, u: VPage, depth: nat): nat {
    var d := Depth(s.t.tab, r, v);
    if Reaches(s.t, root, r, u.i4) then Max(d, Min(u.Common(v), depth)) else d
  }

  // The walks of the 2 MiB region of u get the given depth, in every space the kernel reaches; no other changes.
  ghost predicate SetsDepth(s: Snap, s': Snap, u: VPage, depth: nat) {
    forall r, v :: IsRoot(s.t, r) ==>
      Depth(s'.t.tab, r, v) ==
      if v.SameRegion(u) && Reaches(s.t, s.t.kernel, r, u.i4) then depth else Depth(s.t.tab, r, v)
  }

  // The tables that get made on the way from `depth` tables to `goal`, with `avail` frames at hand.
  function Made(depth: nat, goal: nat, avail: nat): (n: nat)
    ensures n <= avail && (n == 0 || depth + n <= goal)
    ensures goal <= depth + n <==> goal <= depth + avail
  {
    if depth < goal then Min(goal - depth, avail) else 0
  }

  lemma SameReaches(a: Snap, b: Snap, root: nat, r: nat, i4: Index)
    requires Kept(a, b) && IsRoot(a.t, r)
    ensures Reaches(b.t, root, r, i4) <==> Reaches(a.t, root, r, i4)
  {
  }

  lemma DeepenedReflexive(s: Snap, root: nat, u: VPage)
    requires Good(s) && MayMap(s.t, root, u)
    ensures Deepened(s, s, root, u)
  {
    forall r, v | IsRoot(s.t, r) && Reaches(s.t, root, r, u.i4)
      ensures Min(u.Common(v), Depth(s.t.tab, root, u)) <= Depth(s.t.tab, r, v)
    {
      SharedDepth(s.t, root, u, r, v);
    }
  }

  lemma DeepenedTransitive(a: Snap, b: Snap, c: Snap, root: nat, u: VPage)
    requires Kept(a, b) && Deepened(a, b, root, u) && Deepened(b, c, root, u)
    requires Depth(b.t.tab, root, u) <= Depth(c.t.tab, root, u)
    ensures Deepened(a, c, root, u)
  {
    forall r, v | IsRoot(a.t, r)
      ensures Depth(c.t.tab, r, v) == DepthBelow(a, r, v, root, u, Depth(c.t.tab, root, u))
    {
      assert IsRoot(b.t, r);
      SameReaches(a, b, root, r, u.i4);
    }
  }

  lemma DeepenedThenKept(a: Snap, b: Snap, c: Snap, root: nat, u: VPage)
    requires Kept(a, b) && IsRoot(a.t, root) && Deepened(a, b, root, u) && DepthsKept(b, c)
    ensures Deepened(a, c, root, u)
  {
    forall r, v | IsRoot(a.t, r)
      ensures Depth(c.t.tab, r, v) == DepthBelow(a, r, v, root, u, Depth(c.t.tab, root, u))
    {
      assert IsRoot(b.t, r);
    }
    assert IsRoot(b.t, root);
  }

  // A directory entry that comes into use deepens the walks of its region.
  lemma SetsDeepens(s: Snap, s': Snap, u: VPage)
    requires Good(s) && 2 <= Depth(s.t.tab, s.t.kernel, u) && SetsDepth(s, s', u, 3)
    ensures Deepened(s, s', s.t.kernel, u)
  {
    forall r, v | IsRoot(s.t, r) && Reaches(s.t, s.t.kernel, r, u.i4)
      ensures Min(u.Common(v), Depth(s.t.tab, s.t.kernel, u)) <= Depth(s.t.tab, r, v)
    {
      SharedDepth(s.t, s.t.kernel, u, r, v);
    }
  }

  // ---- Changing frames that are no tables ----

  ghost predicate SameTables(t: Forest, tab: Tables) {
    forall f :: f in t.lab ==> f in t.tab && f in tab && tab[f] == t.tab[f]
  }

  lemma ForeignChange(t: Forest, tab: Tables)
    requires WellFormed(t) && SameTables(t, tab)
    ensures WellFormed(t.(tab := tab))
    ensures forall r, v :: IsRoot(t, r) ==> SameWalk(t.tab, tab, r, v)
  {
    var t' := t.(tab := tab);
    forall f, i: Index | f in t.lab
      ensures Entry(tab, f, i) == Entry(t.tab, f, i) && LinkOk(t', f, i)
    {
      assert LinkOk(t, f, i);
    }
    forall r, i: Index | IsRoot(t', r)
      ensures SlotOk(t', r, i)
    {
      assert IsRoot(t, r) && SlotOk(t, r, i);
    }
    forall r, v | IsRoot(t, r)
      ensures SameWalk(t.tab, tab, r, v)
    {
      WalkLabels(t, r, v);
    }
  }

  // ---- Claiming and zeroing a fresh frame ----

  ghost function Claim(s: Snap, g: nat): Snap
    requires Free(s, g)
  {
    s.(t := s.t.(tab := s.t.tab[g := ZeroPage()]), bits := s.bits[g := true])
  }

  lemma ClaimStep(s: Snap, g: nat)
    requires Good(s) && Free(s, g)
    ensures Good(Claim(s, g)) && Kept(s, Claim(s, g)) && Unmoved(s, Claim(s, g))
  {
    var s' := Claim(s, g);
    ForeignChange(s.t, s'.t.tab);
    forall r, v | IsRoot(s.t, r)
      ensures Lookup(s'.t.tab, r, v) == Lookup(s.t.tab, r, v)
    {
      assert SameWalk(s.t.tab, s'.t.tab, r, v);
    }
  }

  // ---- Taking a block of frames as data ----

  predicate InBlock(b: nat, n: nat, f: nat) {
    b <= f < b + n
  }

  function Frames(b: nat, n: nat): (fs: set<nat>)
    ensures forall f: nat :: f in fs <==> InBlock(b, n, f)
  {
    set f: nat | b <= f < b + n && InBlock(b, n, f)
  }

  // The free block of n frames at b has become data, with whatever contents; nothing else changed.
  ghost predicate Extends(s: Snap, s': Snap, b: nat, n: nat) {
    && s'.t.lab == s.t.lab && s'.t.kernel == s.t.kernel
    && |s'.bits| == |s.bits| && b + n <= |s.bits|
    && (forall f :: 0 <= f < |s.bits| ==> s'.bits[f] == (InBlock(b, n, f) || s.bits[f]))
    && (forall f :: 0 <= f < |s.bits| && InBlock(b, n, f) ==> !s.bits[f])
    && (forall f :: f in s'.data <==> f in s.data || InBlock(b, n, f))
    && (forall f :: f in s.t.tab ==>
          f in s'.t.tab && (if InBlock(b, n, f) then |s'.t.tab[f]| == 512 else s'.t.tab[f] == s.t.tab[f]))
  }

  lemma ExtendsStep(s: Snap, s': Snap, b: nat, n: nat)
    requires Good(s) && Extends(s, s', b, n)
    ensures Good(s') && Kept(s, s') && Unmoved(s, s') && DepthsKept(s, s')
  {
    ForeignChange(s.t, s'.t.tab);
    forall r, v | IsRoot(s.t, r)
      ensures Lookup(s'.t.tab, r, v) == Lookup(s.t.tab, r, v) && Depth(s'.t.tab, r, v) == Depth(s.t.tab, r, v)
    {
      assert SameWalk(s.t.tab, s'.t.tab, r, v);
    }
    forall r, i: Index | IsRoot(s.t, r)
      ensures Entry(s'.t.tab, r, i) == Entry(s.t.tab, r, i)
    {
    }
  }

  // ---- Adding a table ----

  ghost function GraftSnap(s: Snap, f: nat, i: Index, g: nat, flags: nat): Snap
    requires MayGraft(s.t, f, i, g, flags) && Free(s, g)
  {
    Snap(Graft(s.t, f, i, g, flags), s.bits[g := true], s.data)
  }

  // A fresh empty table now hangs on the entry (f, i), which was absent.
  ghost predicate Grows(s: Snap, s': Snap, f: nat, i: Index) {
    && Grown(s, s')
    && f in s.t.lab && f in s'.t.lab && s'.t.lab[f] == s.t.lab[f]
    && Present(Entry(s'.t.tab, f, i)) && !Huge(Entry(s'.t.tab, f, i))
    && Hangs(s, s', f, i)
  }

  // Every walk that ended at the entry (f, i) finds one table more, and no other walk does.
  ghost predicate Hangs(s: Snap, s': Snap, f: nat, i: Index) {
    forall r, v :: IsRoot(s.t, r) ==>
      Depth(s'.t.tab, r, v) == Depth(s.t.tab, r, v) + if Hole(s.t.tab, r, v) == Some(Slot(f, i)) then 1 else 0
  }

  lemma HangsDeepens(s: Snap, s': Snap, root: nat, u: VPage, f: nat, i: Index)
    requires Good(s) && MayMap(s.t, root, u) && Hole(s.t.tab, root, u) == Some(Slot(f, i)) && Hangs(s, s', f, i)
    ensures Deepened(s, s', root, u) && Depth(s'.t.tab, root, u) == Depth(s.t.tab, root, u) + 1
  {
    forall r, v | IsRoot(s.t, r)
      ensures Depth(s'.t.tab, r, v) == DepthBelow(s, r, v, root, u, Depth(s.t.tab, root, u) + 1)
    {
      SharedHole(s.t, root, u, r, v);
      if Reaches(s.t, root, r, u.i4) {
        SharedDepth(s.t, root, u, r, v);
      }
    }
  }

  // Every walk has the links it had in s, and the ones added since grant `a`.
  ghost predicate Ways(s: Snap, s': Snap, a: Access) {
    forall r, v :: IsRoot(s.t, r) ==> Adds(Links(s.t.tab, r, v), Links(s'.t.tab, r, v), a)
  }

  ghost predicate Adds(ws: seq<nat>, ws': seq<nat>, a: Access) {
    ws <= ws' && forall k :: |ws| <= k < |ws'| ==> Grants(ws'[k]) == a
  }

  // Then the walk grants what it granted, as far as the new links grant it too.
  lemma AddsTogether(ws: seq<nat>, ws': seq<nat>, a: Access)
    requires Adds(ws, ws', a)
    ensures Together(ws') == if |ws| < |ws'| then Together(ws).And(a) else Together(ws)
  {
    assert forall k :: 0 <= k < |ws'| ==> Grants(ws'[k]) == if k < |ws| then Grants(ws[k]) else a;
    assert forall k :: 0 <= k < |ws| ==> Grants(ws[k]) == Grants(ws'[k]);
    if |ws| < |ws'| {
      assert Grants(ws'[|ws|]) == a;
    }
  }

  lemma WaysTransitive(s: Snap, s1: Snap, s2: Snap, a: Access)
    requires Kept(s, s1) && Ways(s, s1, a) && Ways(s1, s2, a)
    ensures Ways(s, s2, a)
  {
    forall r, v | IsRoot(s.t, r)
      ensures Adds(Links(s.t.tab, r, v), Links(s2.t.tab, r, v), a)
    {
      assert IsRoot(s1.t, r);
      assert Adds(Links(s.t.tab, r, v), Links(s1.t.tab, r, v), a) && Adds(Links(s1.t.tab, r, v), Links(s2.t.tab, r, v), a);
    }
  }

  lemma GraftWays(s: Snap, f: nat, i: Index, g: nat, flags: nat)
    requires Good(s) && Free(s, g) && MayGraft(s.t, f, i, g, flags)
    ensures Ways(s, GraftSnap(s, f, i, g, flags), LinkAccess(flags))
  {
    TableWordGrants(g, flags);
    forall r, v | IsRoot(s.t, r)
      ensures Adds(Links(s.t.tab, r, v), Links(GraftSnap(s, f, i, g, flags).t.tab, r, v), LinkAccess(flags))
    {
      GraftLinks(s.t, f, i, g, flags, r, v);
    }
  }

  // No walk changes.
  ghost predicate WaysKept(s: Snap, s': Snap) {
    forall r, v :: IsRoot(s.t, r) ==> Links(s'.t.tab, r, v) == Links(s.t.tab, r, v)
  }

  lemma WaysThenKept(s: Snap, s1: Snap, s2: Snap, a: Access)
    requires Kept(s, s1) && Ways(s, s1, a) && WaysKept(s1, s2)
    ensures Ways(s, s2, a)
  {
    forall r, v | IsRoot(s.t, r)
      ensures Adds(Links(s.t.tab, r, v), Links(s2.t.tab, r, v), a)
    {
      assert IsRoot(s1.t, r);
    }
  }

  // An entry that is no link has been written.
  lemma WriteWays(s: Snap, f: nat, i: Index, w: nat)
    requires Good(s) && f in s.t.lab
    requires s.t.lab[f].Level1? || (s.t.lab[f].Level2? && NotATable(w) && !Present(Entry(s.t.tab, f, i)))
    ensures WaysKept(s, WriteSnap(s, f, i, w))
  {
    forall r, v | IsRoot(s.t, r)
      ensures Links(WriteSnap(s, f, i, w).t.tab, r, v) == Links(s.t.tab, r, v)
    {
      WriteLeafLinks(s.t, f, i, w, r, v);
    }
  }

  // In a task's lower half a page has the rights that its own entry grants.
  lemma UserRights(s: Snap, r: nat, v: VPage)
    requires Good(s) && IsRoot(s.t, r) && r != s.t.kernel && v.i4 < 256
    ensures match Lookup(s.t.tab, r, v)
            case None => Rights(s.t.tab, r, v) == None
            case Some(l) => Rights(s.t.tab, r, v) == Some(LeafGrants(l))
  {
    UserWay(s.t, r, v);
  }

  lemma GraftStep(s: Snap, f: nat, i: Index, g: nat, flags: nat)
    requires Good(s) && Free(s, g) && MayGraft(s.t, f, i, g, flags)
    ensures var s' := GraftSnap(s, f, i, g, flags);
            Good(s') && Grows(s, s', f, i)
  {
    var s' := GraftSnap(s, f, i, g, flags);
    TableWordDecodes(g, flags);
    GraftWellFormed(s.t, f, i, g, flags);
    forall r, v | IsRoot(s.t, r)
      ensures Deepens(s.t.tab, s'.t.tab, r, v)
      ensures Depth(s'.t.tab, r, v) == Depth(s.t.tab, r, v) + if Hole(s.t.tab, r, v) == Some(Slot(f, i)) then 1 else 0
    {
      GraftEffect(s.t, f, i, g, flags, r, v);
    }
    forall r, j: Index | IsRoot(s.t, r) && r != s.t.kernel && 256 <= j
      ensures Entry(s'.t.tab, r, j) == Entry(s.t.tab, r, j)
    {
      GraftEntries(s.t, f, i, g, flags, r, j);
    }
  }

  // Some tables have been added, and nothing else.
  ghost predicate Grown(s: Snap, s': Snap) {
    Kept(s, s') && AllDeepen(s, s') && s'.data == s.data
  }

  lemma GrownReflexive(s: Snap)
    requires Good(s)
    ensures Grown(s, s)
  {
  }

  lemma GrownTransitive(a: Snap, b: Snap, c: Snap)
    requires Grown(a, b) && Grown(b, c)
    ensures Grown(a, c)
  {
    KeptTransitive(a, b, c);
    forall r, v | IsRoot(a.t, r)
      ensures Deepens(a.t.tab, c.t.tab, r, v)
    {
      assert Deepens(a.t.tab, b.t.tab, r, v) && Deepens(b.t.tab, c.t.tab, r, v);
    }
  }

  // ---- Writing the last entry of a walk ----

  ghost function WriteSnap(s: Snap, f: nat, i: Index, w: nat): Snap
    requires WellFormed(s.t) && f in s.t.lab
  {
    s.(t := WriteLeaf(s.t, f, i, w))
  }

  lemma WriteKeeps(s: Snap, f: nat, i: Index, w: nat)
    requires Good(s) && f in s.t.lab && !s.t.lab[f].Root? && WellFormed(WriteLeaf(s.t, f, i, w))
    ensures Good(WriteSnap(s, f, i, w)) && Kept(s, WriteSnap(s, f, i, w))
  {
  }

  lemma LeafStep(s: Snap, root: nat, u: VPage, f: nat, w: nat)
    requires Good(s) && MayMap(s.t, root, u) && Table(s.t.tab, root, u) == Some(f) && f in s.t.lab
    ensures var s' := WriteSnap(s, f, u.i1, w);
            && Good(s') && Kept(s, s') && Maps(s, s', root, u, if Present(w) then Some(LeafOf(w)) else None)
            && DepthsKept(s, s')
  {
    var s' := WriteSnap(s, f, u.i1, w);
    WalkLabels(s.t, root, u);
    WriteLeafWellFormed(s.t, f, u.i1, w);
    WriteKeeps(s, f, u.i1, w);
    forall r, v | IsRoot(s.t, r)
      ensures Lookup(s'.t.tab, r, v) ==
              if v == u && Reaches(s.t, root, r, u.i4) then (if Present(w) then Some(LeafOf(w)) else None)
              else Lookup(s.t.tab, r, v)
      ensures Depth(s'.t.tab, r, v) == Depth(s.t.tab, r, v)
    {
      WriteLeafEffect(s.t, root, u, f, w, r, v);
    }
  }

  // Every page of the 2 MiB region of u becomes the matching page of the huge entry w, or unmapped.
  ghost predicate MapsRegion(s: Snap, s': Snap, u: VPage, w: nat) {
    forall r, v :: IsRoot(s.t, r) ==>
      Lookup(s'.t.tab, r, v) ==
      if v.SameRegion(u) && Reaches(s.t, s.t.kernel, r, u.i4) then
        (if Present(w) then Some(HugeLeafOf(w, v.i1)) else None)
      else Lookup(s.t.tab, r, v)
  }

  lemma RegionStep(s: Snap, u: VPage, f: nat, w: nat)
    requires Good(s) && Directory(s.t.tab, s.t.kernel, u) == Some(f) && f in s.t.lab && NotATable(w)
    ensures var s' := WriteSnap(s, f, u.i2, w);
            Good(s') && Kept(s, s') && MapsRegion(s, s', u, w) && SetsDepth(s, s', u, if Present(w) then 3 else 2)
  {
    var s', root := WriteSnap(s, f, u.i2, w), s.t.kernel;
    WalkLabels(s.t, root, u);
    WriteRegionWellFormed(s.t, f, u.i2, w);
    WriteKeeps(s, f, u.i2, w);
    forall r, v | IsRoot(s.t, r)
      ensures Lookup(s'.t.tab, r, v) ==
              if v.SameRegion(u) && Reaches(s.t, root, r, u.i4) then
                (if Present(w) then Some(HugeLeafOf(w, v.i1)) else None)
              else Lookup(s.t.tab, r, v)
      ensures Depth(s'.t.tab, r, v) ==
              if v.SameRegion(u) && Reaches(s.t, root, r, u.i4) then (if Present(w) then 3 else 2) else Depth(s.t.tab, r, v)
    {
      WriteRegionEffect(s.t, root, u, f, w, r, v);
    }
  }

  // Tables may be added before the last entry is written; the map changes all the same only at u.
  lemma DeepenThenMaps(a: Snap, b: Snap, c: Snap, root: nat, u: VPage, leaf: Option<Leaf>)
    requires Grown(a, b) && Maps(b, c, root, u, leaf)
    ensures Maps(a, c, root, u, leaf)
  {
    forall r, v | IsRoot(a.t, r)
      ensures Lookup(c.t.tab, r, v) ==
              if v == u && Reaches(a.t, root, r, u.i4) then leaf else Lookup(a.t.tab, r, v)
    {
      assert IsRoot(b.t, r) && Deepens(a.t.tab, b.t.tab, r, v);
    }
  }

  lemma DeepenThenMapsRegion(a: Snap, b: Snap, c: Snap, u: VPage, w: nat)
    requires Grown(a, b) && MapsRegion(b, c, u, w)
    ensures MapsRegion(a, c, u, w)
  {
    forall r, v | IsRoot(a.t, r)
      ensures Lookup(c.t.tab, r, v) ==
              if v.SameRegion(u) && Reaches(a.t, a.t.kernel, r, u.i4) then
                (if Present(w) then Some(HugeLeafOf(w, v.i1)) else None)
              else Lookup(a.t.tab, r, v)
    {
      assert IsRoot(b.t, r) && Deepens(a.t.tab, b.t.tab, r, v);
    }
  }

  lemma GrownIsUnmoved(a: Snap, b: Snap)
    requires Grown(a, b)
    ensures Unmoved(a, b)
  {
    forall r, v | IsRoot(a.t, r)
      ensures Lookup(b.t.tab, r, v) == Lookup(a.t.tab, r, v)
    {
      assert Deepens(a.t.tab, b.t.tab, r, v);
    }
  }

  // ---- A new address space ----

  // The first page of a new space: an empty lower half and the kernel's upper half.
  function RootPage(tab: Tables, kernel: nat): (page: seq<nat>)
    ensures |page| == 512
    ensures forall i: Index :: page[i] == if i >= 256 then Entry(tab, kernel, i) else 0
  {
    seq(512, (i: nat) requires i < 512 => if i >= 256 then Entry(tab, kernel, i) else 0)
  }

  ghost function NewRoot(s: Snap, g: nat): Snap
    requires Free(s, g)
  {
    Snap(Forest(s.t.tab[g := RootPage(s.t.tab, s.t.kernel)], s.t.lab[g := Root(g)], s.t.kernel), s.bits[g := true], s.data)
  }

  lemma NewRootWellFormed(s: Snap, g: nat)
    requires Good(s) && Free(s, g)
    ensures WellFormed(NewRoot(s, g).t)
  {
    var t, t' := s.t, NewRoot(s, g).t;
    forall f, i: Index | f in t'.lab
      ensures LinkOk(t', f, i)
    {
      assert LinkOk(t, t.kernel, i);
      if f != g {
        assert LinkOk(t, f, i);
      }
    }
    forall r, i: Index | IsRoot(t', r)
      ensures SlotOk(t', r, i)
    {
      if r != g {
        assert IsRoot(t, r) && SlotOk(t, r, i);
      }
    }
  }

  // No other space changes.
  lemma NewRootKeeps(s: Snap, g: nat)
    requires Good(s) && Free(s, g)
    ensures var s' := NewRoot(s, g); Good(s') && Kept(s, s') && Unmoved(s, s')
  {
    var s' := NewRoot(s, g);
    NewRootWellFormed(s, g);
    ForeignChange(s.t, s'.t.tab);
    forall r, v | IsRoot(s.t, r)
      ensures Lookup(s'.t.tab, r, v) == Lookup(s.t.tab, r, v)
    {
      assert SameWalk(s.t.tab, s'.t.tab, r, v);
    }
    forall r, i: Index | IsRoot(s.t, r)
      ensures Entry(s'.t.tab, r, i) == Entry(s.t.tab, r, i)
    {
    }
  }

  // The new space is new, and sees the kernel's half and nothing below.
  ghost predicate Opens(s: Snap, s': Snap, g: nat) {
    && !IsRoot(s.t, g) && IsRoot(s'.t, g) && g != s.t.kernel
    && (forall v :: Lookup(s'.t.tab, g, v) == if v.i4 >= 256 then Lookup(s'.t.tab, s.t.kernel, v) else None)
    && (forall v: VPage :: v.i4 < 256 ==> Depth(s'.t.tab, g, v) == 0)
  }

  lemma NewRootOpens(s: Snap, g: nat)
    requires Good(s) && Free(s, g)
    ensures Opens(s, NewRoot(s, g), g)
  {
    var s' := NewRoot(s, g);
    assert g !in s.t.lab;
    forall v: VPage
      ensures Lookup(s'.t.tab, g, v) == if v.i4 >= 256 then Lookup(s'.t.tab, s.t.kernel, v) else None
    {
      assert Entry(s'.t.tab, g, v.i4) == if v.i4 >= 256 then Entry(s'.t.tab, s.t.kernel, v.i4) else 0;
    }
  }
}

/**
 Four-level page tables as a forest: one tree per address space, the upper half of every tree shared
 with the kernel's.  Each table frame carries a label, its place in the forest.  Because a frame has
 one label, no table is reachable along two paths, and a write to one table is seen only through the
 entries that lead to it.
 */
module PageTables {
  import opened Prelude
  import opened PageWords

  // The 512 words of every table frame.
  type Tables = map<nat, seq<nat>>

  function Entry(tab: Tables, f: nat, i: Index): nat {
    if f in tab && i < |tab[f]| then tab[f][i] else 0
  }

  // ---- The walk ----

  // The frame of the page-directory-pointer table, page directory and page table on the walk for v
  // (get_pdpe, get_pde and get_pte without their last index).
  function Pdpt(tab: Tables, root: nat, v: VPage): Option<nat> {
    var e := Entry(tab, root, v.i4);
    if Present(e) then Some(FrameOf(e)) else None
  }

  function Directory(tab: Tables, root: nat, v: VPage): Option<nat> {
    match Pdpt(tab, root, v)
    case None => None
    case Some(f) =>
      var e := Entry(tab, f, v.i3);
      if Present(e) then Some(FrameOf(e)) else None
  }

  function Table(tab: Tables, root: nat, v: VPage): Option<nat> {
    match Directory(tab, root, v)
    case None => None
    case Some(f) =>
      var e := Entry(tab, f, v.i2);
      if Present(e) && !Huge(e) then Some(FrameOf(e)) else None
  }

  // What the processor finds for the page v: the flat map that the tables stand for.
  function Lookup(tab: Tables, root: nat, v: VPage): Option<Leaf> {
    match Directory(tab, root, v)
    case None => None
    case Some(f) =>
      var e := Entry(tab, f, v.i2);
      if !Present(e) then None
      else if Huge(e) then Some(HugeLeafOf(e, v.i1))
      else
        var pte := Entry(tab, FrameOf(e), v.i1);
        if Present(pte) then Some(LeafOf(pte)) else None
  }

  // The entries that lead from the root to the tables on the walk for v, as far as it goes.
  function Links(tab: Tables, root: nat, v: VPage): seq<nat> {
    match Pdpt(tab, root, v)
    case None => []
    case Some(f3) =>
      var first := Entry(tab, root, v.i4);
      match Directory(tab, root, v)
      case None => [first]
      case Some(f2) =>
        var second := Entry(tab, f3, v.i3);
        if Table(tab, root, v).Some? then [first, second, Entry(tab, f2, v.i2)] else [first, second]
  }

  // What entries grant together: all of them have to grant it.
  function Together(ws: seq<nat>): Access {
    Access(forall k :: 0 <= k < |ws| ==> Grants(ws[k]).user,
           forall k :: 0 <= k < |ws| ==> Grants(ws[k]).write,
           forall k :: 0 <= k < |ws| ==> Grants(ws[k]).exec)
  }

  // What the processor lets a program in ring 3 do with the page v: what all entries of the walk grant.
  function Rights(tab: Tables, root: nat, v: VPage): Option<Access> {
    match Lookup(tab, root, v)
    case None => None
    case Some(l) => Some(Together(Links(tab, root, v)).And(LeafGrants(l)))
  }

  // get_pte: where the entry that decides v is stored; for a 2 MiB page that is the directory entry.
  datatype Slot = Slot(frame: nat, index: Index)

  function PteSlot(tab: Tables, root: nat, v: VPage): Option<Slot> {
    match Directory(tab, root, v)
    case None => None
    case Some(f) =>
      var e := Entry(tab, f, v.i2);
      if !Present(e) then None
      else if Huge(e) then Some(Slot(f, v.i2))
      else Some(Slot(FrameOf(e), v.i1))
  }

  // The directory entry for v is in use, by a 2 MiB page or by a page table, empty or not.
  predicate HasDirectoryEntry(tab: Tables, root: nat, v: VPage) {
    match Directory(tab, root, v)
    case None => false
    case Some(f) => Present(Entry(tab, f, v.i2))
  }

  // How many of the three tables below the root the walk for v finds; a 2 MiB page stands for the third.
  function Depth(tab: Tables, root: nat, v: VPage): (d: nat)
    ensures d <= 3 && (d == 3 <==> HasDirectoryEntry(tab, root, v))
  {
    if Pdpt(tab, root, v).None? then 0
    else if Directory(tab, root, v).None? then 1
    else if !HasDirectoryEntry(tab, root, v) then 2
    else 3
  }

  // The absent entry at which the walk ends that does not find all three.
  function Hole(tab: Tables, root: nat, v: VPage): Option<Slot> {
    match Pdpt(tab, root, v)
    case None => Some(Slot(root, v.i4))
    case Some(f3) =>
      match Directory(tab, root, v)
      case None => Some(Slot(f3, v.i3))
      case Some(f2) => if Present(Entry(tab, f2, v.i2)) then None else Some(Slot(f2, v.i2))
  }

  // The entry that the walk for v reads in the table it finds at the given level, the root being level 0.
  function WalkSlot(tab: Tables, root: nat, v: VPage, level: nat): (slot: Slot)
    requires level <= 2 && level <= Depth(tab, root, v)
    ensures Present(Entry(tab, slot.frame, slot.index)) <==> level < Depth(tab, root, v)
    ensures level == Depth(tab, root, v) ==> Hole(tab, root, v) == Some(slot)
  {
    if level == 0 then Slot(root, v.i4)
    else if level == 1 then Slot(Pdpt(tab, root, v).value, v.i3)
    else Slot(Directory(tab, root, v).value, v.i2)
  }

  // ---- The forest ----

  datatype Node =
    | Root(space: nat)
    | Level3(space: nat, i4: Index)
    | Level2(space: nat, i4: Index, i3: Index)
    | Level1(space: nat, i4: Index, i3: Index, i2: Index)

  // lab gives each table frame its place; kernel is the root of the kernel's own address space.
  datatype Forest = Forest(tab: Tables, lab: map<nat, Node>, kernel: nat)

  // The upper half of every space belongs to the kernel.
  function Owner(kernel: nat, root: nat, i4: Index): nat {
    if i4 >= 256 then kernel else root
  }

  function Child(kernel: nat, n: Node, i: Index): Node
    requires !n.Level1?
  {
    match n
    case Root(r) => Level3(Owner(kernel, r, i), i)
    case Level3(s, i4) => Level2(s, i4, i)
    case Level2(s, i4, i3) => Level1(s, i4, i3, i)
  }

  ghost predicate IsRoot(t: Forest, r: nat) {
    r in t.lab && t.lab[r] == Root(r)
  }

  // The entry (f, i) leads to another table.
  ghost predicate Leads(t: Forest, f: nat, i: Index)
    requires f in t.lab
  {
    var e := Entry(t.tab, f, i);
    !t.lab[f].Level1? && Present(e) && !(t.lab[f].Level2? && Huge(e))
  }

  // A link that keeps nothing from ring 3: present, writable, for the user, and no other flag.
  predicate OpenLink(w: nat) {
    w % PAGE_SIZE == PTE_PRESENT + PTE_WRITE + PTE_USER
  }

  // A link leads to the table labelled as its child, and is open outside the kernel's own tables; only the
  // kernel has 2 MiB pages.
  ghost predicate LinkOk(t: Forest, f: nat, i: Index)
    requires f in t.lab
  {
    var e := Entry(t.tab, f, i);
    && (Leads(t, f, i) ==> FrameOf(e) in t.lab && t.lab[FrameOf(e)] == Child(t.kernel, t.lab[f], i))
    && (Leads(t, f, i) && Child(t.kernel, t.lab[f], i).space != t.kernel ==> OpenLink(e))
    && (t.lab[f].Level2? && t.lab[f].space != t.kernel ==> !(Present(e) && Huge(e)))
  }

  // An upper-half entry of any root is absent or the kernel's own.
  ghost predicate SlotOk(t: Forest, r: nat, i: Index) {
    256 <= i && Present(Entry(t.tab, r, i)) ==> Entry(t.tab, r, i) == Entry(t.tab, t.kernel, i)
  }

  ghost predicate WellFormed(t: Forest) {
    && IsRoot(t, t.kernel)
    && (forall f :: f in t.lab ==> f in t.tab && |t.tab[f]| == 512 && (t.lab[f].Root? ==> t.lab[f].space == f))
    && (forall f, i: Index :: f in t.lab ==> LinkOk(t, f, i))
    && (forall r, i: Index :: IsRoot(t, r) ==> SlotOk(t, r, i))
  }

  // Every table on a walk has the label of its place, so distinct places have distinct frames.
  lemma WalkLabels(t: Forest, r: nat, v: VPage)
    requires WellFormed(t) && IsRoot(t, r)
    ensures var s := Owner(t.kernel, r, v.i4);
            && (var f := Pdpt(t.tab, r, v); f.Some? ==> f.value in t.lab && t.lab[f.value] == Level3(s, v.i4))
            && (var f := Directory(t.tab, r, v); f.Some? ==> f.value in t.lab && t.lab[f.value] == Level2(s, v.i4, v.i3))
            && (var f := Table(t.tab, r, v); f.Some? ==> f.value in t.lab && t.lab[f.value] == Level1(s, v.i4, v.i3, v.i2))
  {
    assert LinkOk(t, r, v.i4);
    var f3 := Pdpt(t.tab, r, v);
    if f3.Some? {
      assert LinkOk(t, f3.value, v.i3);
      var f2 := Directory(t.tab, r, v);
      if f2.Some? {
        assert LinkOk(t, f2.value, v.i2);
      }
    }
  }

  // ---- Writing one entry ----

  function Put(tab: Tables, f: nat, i: Index, w: nat): Tables
    requires f in tab && |tab[f]| == 512
  {
    var page: seq<nat> := tab[f][i := w];
    tab[f := page]
  }

  // The walk of (r, v) reads the entry (f, i).
  ghost predicate Hits(tab: Tables, r: nat, v: VPage, f: nat, i: Index) {
    || (f == r && i == v.i4)
    || (Pdpt(tab, r, v) == Some(f) && i == v.i3)
    || (Directory(tab, r, v) == Some(f) && i == v.i2)
    || (Table(tab, r, v) == Some(f) && i == v.i1)
  }

  ghost predicate SameWalk(tab: Tables, tab': Tables, r: nat, v: VPage) {
    && Pdpt(tab', r, v) == Pdpt(tab, r, v)
    && Directory(tab', r, v) == Directory(tab, r, v)
    && Table(tab', r, v) == Table(tab, r, v)
    && Lookup(tab', r, v) == Lookup(tab, r, v)
    && HasDirectoryEntry(tab', r, v) == HasDirectoryEntry(tab, r, v)
    && Links(tab', r, v) == Links(tab, r, v)
  }

  lemma UnreadWrite(tab: Tables, r: nat, v: VPage, f: nat, i: Index, w: nat)
    requires f in tab && |tab[f]| == 512 && !Hits(tab, r, v, f, i)
    ensures SameWalk(tab, Put(tab, f, i, w), r, v)
  {
  }

  // A frame that is no table is on no walk.
  lemma UnreadFrame(t: Forest, r: nat, v: VPage, g: nat, page: seq<nat>)
    requires WellFormed(t) && IsRoot(t, r) && g !in t.lab
    ensures SameWalk(t.tab, t.tab[g := page], r, v)
  {
    WalkLabels(t, r, v);
  }

  // ---- Whose map an operation on `root` changes ----

  // A change made through `root` below slot i4 shows in the space r: in the space itself, and, for a
  // change to the kernel's upper half, in every space that has the slot.
  ghost predicate Reaches(t: Forest, root: nat, r: nat, i4: Index) {
    r == root || (root == t.kernel && 256 <= i4 && Present(Entry(t.tab, r, i4)))
  }

  // The kernel may map anywhere; other spaces only in their own lower half.
  ghost predicate MayMap(t: Forest, root: nat, v: VPage) {
    IsRoot(t, root) && (root == t.kernel || v.i4 < 256)
  }

  // The flags that a link made on behalf of `root` may get: those of an open one, unless it is the kernel's.
  ghost predicate LinkFlags(t: Forest, root: nat, flags: nat) {
    flags < PTE_HUGE - 3 && (root != t.kernel ==> flags == PTE_WRITE + PTE_USER)
  }

  // Two walks share a page directory exactly when they agree on the upper two indices and one space
  // reaches the other.
  lemma SharedDirectory(t: Forest, root: nat, u: VPage, r: nat, v: VPage)
    requires WellFormed(t) && MayMap(t, root, u) && IsRoot(t, r) && Directory(t.tab, root, u).Some?
    ensures Directory(t.tab, r, v) == Directory(t.tab, root, u)
            <==> v.i4 == u.i4 && v.i3 == u.i3 && Reaches(t, root, r, u.i4)
  {
    WalkLabels(t, root, u);
    WalkLabels(t, r, v);
    assert SlotOk(t, r, u.i4);
  }

  lemma SharedTable(t: Forest, root: nat, u: VPage, r: nat, v: VPage)
    requires WellFormed(t) && MayMap(t, root, u) && IsRoot(t, r) && Table(t.tab, root, u).Some?
    ensures Table(t.tab, r, v) == Table(t.tab, root, u) <==> v.SameRegion(u) && Reaches(t, root, r, u.i4)
  {
    WalkLabels(t, root, u);
    WalkLabels(t, r, v);
    assert SlotOk(t, r, u.i4);
  }

  // Two walks end at one hole exactly when one space reaches the other and the pages have every table
  // above the hole, and the one missing there, in common.
  lemma SharedHole(t: Forest, root: nat, u: VPage, r: nat, v: VPage)
    requires WellFormed(t) && MayMap(t, root, u) && IsRoot(t, r) && Hole(t.tab, root, u).Some?
    ensures Hole(t.tab, r, v) == Hole(t.tab, root, u) <==> Reaches(t, root, r, u.i4) && Depth(t.tab, root, u) < u.Common(v)
  {
    WalkLabels(t, root, u);
    WalkLabels(t, r, v);
    assert SlotOk(t, r, u.i4);
  }

  // A space finds at least the tables that it has in common with a space that reaches it.
  lemma SharedDepth(t: Forest, root: nat, u: VPage, r: nat, v: VPage)
    requires WellFormed(t) && MayMap(t, root, u) && IsRoot(t, r) && Reaches(t, root, r, u.i4)
    ensures Min(u.Common(v), Depth(t.tab, root, u)) <= Depth(t.tab, r, v)
    ensures Depth(t.tab, root, u) < u.Common(v) ==> Depth(t.tab, r, v) == Depth(t.tab, root, u)
  {
    assert SlotOk(t, r, u.i4);
  }

  // No table of one space's lower half is on any walk of another space.
  lemma LowerHalvesAreDisjoint(t: Forest, a: nat, u: VPage, b: nat, v: VPage)
    requires WellFormed(t) && IsRoot(t, a) && IsRoot(t, b) && a != b && u.i4 < 256
    ensures forall f :: OnWalk(t.tab, a, u, f) ==> f != b && !OnWalk(t.tab, b, v, f)
  {
    WalkLabels(t, a, u);
    WalkLabels(t, b, v);
  }

  // f is a table below the root on the walk for v.
  ghost predicate OnWalk(tab: Tables, root: nat, v: VPage, f: nat) {
    Pdpt(tab, root, v) == Some(f) || Directory(tab, root, v) == Some(f) || Table(tab, root, v) == Some(f)
  }

  // A space that has an upper-half slot sees the kernel's own map below it.
  lemma UpperHalfIsShared(t: Forest, r: nat, v: VPage)
    requires WellFormed(t) && IsRoot(t, r) && 256 <= v.i4 && Present(Entry(t.tab, r, v.i4))
    ensures Lookup(t.tab, r, v) == Lookup(t.tab, t.kernel, v)
  {
    assert SlotOk(t, r, v.i4);
  }

  // ---- Writing a 4 KiB entry ----

  ghost function WriteLeaf(t: Forest, f: nat, i: Index, w: nat): Forest
    requires WellFormed(t) && f in t.lab
  {
    t.(tab := Put(t.tab, f, i, w))
  }

  lemma WriteLeafWellFormed(t: Forest, f: nat, i: Index, w: nat)
    requires WellFormed(t) && f in t.lab && t.lab[f].Level1?
    ensures WellFormed(WriteLeaf(t, f, i, w))
  {
    var t' := WriteLeaf(t, f, i, w);
    forall g, j: Index | g in t'.lab
      ensures LinkOk(t', g, j)
    {
      assert LinkOk(t, g, j);
    }
    forall r, j: Index | IsRoot(t', r)
      ensures SlotOk(t', r, j)
    {
      assert IsRoot(t, r) && SlotOk(t, r, j);
    }
  }

  // Only the page u changes, and only in the spaces that `root` reaches.
  lemma WriteLeafEffect(t: Forest, root: nat, u: VPage, f: nat, w: nat, r: nat, v: VPage)
    requires WellFormed(t) && MayMap(t, root, u) && IsRoot(t, r)
    requires Table(t.tab, root, u) == Some(f) && f in t.lab
    ensures Depth(WriteLeaf(t, f, u.i1, w).tab, r, v) == Depth(t.tab, r, v)
    ensures Lookup(WriteLeaf(t, f, u.i1, w).tab, r, v) ==
            if v == u && Reaches(t, root, r, u.i4) then (if Present(w) then Some(LeafOf(w)) else None)
            else Lookup(t.tab, r, v)
  {
    WalkLabels(t, root, u);
    WalkLabels(t, r, v);
    SharedTable(t, root, u, r, v);
    if !Hits(t.tab, r, v, f, u.i1) {
      UnreadWrite(t.tab, r, v, f, u.i1, w);
    }
  }

  // ---- Writing a 2 MiB entry, or clearing one ----

  ghost predicate NotATable(w: nat) {
    !Present(w) || Huge(w)
  }

  lemma WriteRegionWellFormed(t: Forest, f: nat, i: Index, w: nat)
    requires WellFormed(t) && f in t.lab && t.lab[f].Level2? && t.lab[f].space == t.kernel && NotATable(w)
    ensures WellFormed(WriteLeaf(t, f, i, w))
  {
    var t' := WriteLeaf(t, f, i, w);
    forall g, j: Index | g in t'.lab
      ensures LinkOk(t', g, j)
    {
      assert LinkOk(t, g, j);
    }
    forall r, j: Index | IsRoot(t', r)
      ensures SlotOk(t', r, j)
    {
      assert IsRoot(t, r) && SlotOk(t, r, j);
    }
  }

  // Only the 2 MiB region of u changes, and only in the spaces that `root` reaches.
  lemma WriteRegionEffect(t: Forest, root: nat, u: VPage, f: nat, w: nat, r: nat, v: VPage)
    requires WellFormed(t) && MayMap(t, root, u) && IsRoot(t, r) && NotATable(w)
    requires Directory(t.tab, root, u) == Some(f) && f in t.lab
    ensures Depth(WriteLeaf(t, f, u.i2, w).tab, r, v) ==
            if v.SameRegion(u) && Reaches(t, root, r, u.i4) then (if Present(w) then 3 else 2) else Depth(t.tab, r, v)
    ensures Lookup(WriteLeaf(t, f, u.i2, w).tab, r, v) ==
            if v.SameRegion(u) && Reaches(t, root, r, u.i4) then
              (if Present(w) then Some(HugeLeafOf(w, v.i1)) else None)
            else Lookup(t.tab, r, v)
  {
    WalkLabels(t, root, u);
    WalkLabels(t, r, v);
    SharedDirectory(t, root, u, r, v);
    if !Hits(t.tab, r, v, f, u.i2) {
      UnreadWrite(t.tab, r, v, f, u.i2, w);
    }
  }

  // ---- Adding a table ----

  function ZeroPage(): (page: seq<nat>)
    ensures |page| == 512 && forall i :: 0 <= i < 512 ==> page[i] == 0
  {
    seq(512, _ => 0)
  }

  // create_table: the absent entry (f, i) gets a fresh zeroed table g.
  ghost function Graft(t: Forest, f: nat, i: Index, g: nat, flags: nat): Forest
    requires WellFormed(t) && f in t.lab && !t.lab[f].Level1? && g !in t.lab
  {
    Forest(Put(t.tab[g := ZeroPage()], f, i, TableWord(g, flags)), t.lab[g := Child(t.kernel, t.lab[f], i)], t.kernel)
  }

  ghost predicate MayGraft(t: Forest, f: nat, i: Index, g: nat, flags: nat) {
    && WellFormed(t) && f in t.lab && !t.lab[f].Level1? && g !in t.lab
    && !Present(Entry(t.tab, f, i)) && g < FRAME_LIMIT
    && (t.lab[f].Root? ==> i < 256 || f == t.kernel)
    && LinkFlags(t, Child(t.kernel, t.lab[f], i).space, flags)
  }

  lemma GraftEntries(t: Forest, f: nat, i: Index, g: nat, flags: nat, h: nat, j: Index)
    requires MayGraft(t, f, i, g, flags)
    ensures Entry(Graft(t, f, i, g, flags).tab, h, j) ==
            if h == f && j == i then TableWord(g, flags) else if h == g then 0 else Entry(t.tab, h, j)
  {
  }

  lemma GraftWellFormed(t: Forest, f: nat, i: Index, g: nat, flags: nat)
    requires MayGraft(t, f, i, g, flags)
    ensures WellFormed(Graft(t, f, i, g, flags))
    ensures forall r :: IsRoot(Graft(t, f, i, g, flags), r) <==> IsRoot(t, r)
  {
    var t' := Graft(t, f, i, g, flags);
    TableWordDecodes(g, flags);
    TableWordGrants(g, flags);
    forall h, j: Index | h in t'.lab
      ensures LinkOk(t', h, j)
    {
      GraftEntries(t, f, i, g, flags, h, j);
      if h in t.lab {
        assert LinkOk(t, h, j);
      }
    }
    forall r, j: Index | IsRoot(t', r)
      ensures SlotOk(t', r, j)
    {
      GraftEntries(t, f, i, g, flags, r, j);
      GraftEntries(t, f, i, g, flags, t.kernel, j);
      assert IsRoot(t, r) && SlotOk(t, r, j);
    }
  }

  // The walk for (r, v) finds the tables it found before, and perhaps one more; the map is the same.
  ghost predicate Deepens(tab: Tables, tab': Tables, r: nat, v: VPage) {
    && (Pdpt(tab, r, v).Some? ==> Pdpt(tab', r, v) == Pdpt(tab, r, v))
    && (Directory(tab, r, v).Some? ==> Directory(tab', r, v) == Directory(tab, r, v))
    && (Table(tab, r, v).Some? ==> Table(tab', r, v) == Table(tab, r, v))
    && Lookup(tab', r, v) == Lookup(tab, r, v)
  }

  lemma GraftEffect(t: Forest, f: nat, i: Index, g: nat, flags: nat, r: nat, v: VPage)
    requires MayGraft(t, f, i, g, flags) && IsRoot(t, r)
    ensures Deepens(t.tab, Graft(t, f, i, g, flags).tab, r, v)
    ensures Depth(Graft(t, f, i, g, flags).tab, r, v)
         == Depth(t.tab, r, v) + if Hole(t.tab, r, v) == Some(Slot(f, i)) then 1 else 0
  {
    WalkLabels(t, r, v);
    UnreadFrame(t, r, v, g, ZeroPage());
    if !Hits(t.tab, r, v, f, i) {
      UnreadWrite(t.tab[g := ZeroPage()], r, v, f, i, TableWord(g, flags));
    } else {
      TableWordDecodes(g, flags);
      GraftHit(t, f, i, g, flags, r, v);
    }
  }

  lemma GraftHit(t: Forest, f: nat, i: Index, g: nat, flags: nat, r: nat, v: VPage)
    requires MayGraft(t, f, i, g, flags) && IsRoot(t, r) && Hits(t.tab, r, v, f, i)
    ensures Deepens(t.tab, Graft(t, f, i, g, flags).tab, r, v)
    ensures Depth(Graft(t, f, i, g, flags).tab, r, v)
         == Depth(t.tab, r, v) + if Hole(t.tab, r, v) == Some(Slot(f, i)) then 1 else 0
  {
    WalkLabels(t, r, v);
    TableWordDecodes(g, flags);
    GraftEntries(t, f, i, g, flags, r, v.i4);
    var f3 := Pdpt(t.tab, r, v);
    if f3.Some? {
      GraftEntries(t, f, i, g, flags, f3.value, v.i3);
      var f2 := Directory(t.tab, r, v);
      if f2.Some? {
        GraftEntries(t, f, i, g, flags, f2.value, v.i2);
      }
    }
    GraftEntries(t, f, i, g, flags, g, v.i3);
    GraftEntries(t, f, i, g, flags, g, v.i2);
    GraftEntries(t, f, i, g, flags, g, v.i1);
  }

  // ---- What a walk grants ----

  // The rights are what the links and the entry that decides the page grant together.
  lemma RightsOverEntries(tab: Tables, root: nat, v: VPage)
    ensures match PteSlot(tab, root, v)
            case None => Rights(tab, root, v) == None
            case Some(slot) =>
              var e := Entry(tab, slot.frame, slot.index);
              Rights(tab, root, v) == if Present(e) then Some(Together(Links(tab, root, v) + [e])) else None
  {
    var slot := PteSlot(tab, root, v);
    if slot.Some? {
      var e := Entry(tab, slot.value.frame, slot.value.index);
      LeafGrantsAll(e, v.i1);
      OneMoreEntry(Links(tab, root, v), e);
    }
  }

  lemma OneMoreEntry(ws: seq<nat>, e: nat)
    ensures Together(ws + [e]) == Together(ws).And(Grants(e))
  {
    var all := ws + [e];
    assert forall k :: 0 <= k < |all| ==> Grants(all[k]) == if k < |ws| then Grants(ws[k]) else Grants(e);
    assert forall k :: 0 <= k < |ws| ==> Grants(ws[k]) == Grants(all[k]);
    assert Grants(all[|ws|]) == Grants(e);
  }

  // In the lower half of a task every link is open, so a page has the rights its own entry grants.
  lemma UserWay(t: Forest, r: nat, v: VPage)
    requires WellFormed(t) && (forall f :: f in t.lab ==> f < FRAME_LIMIT) && IsRoot(t, r) && r != t.kernel && v.i4 < 256
    ensures Together(Links(t.tab, r, v)) == FULL
  {
    WalkLabels(t, r, v);
    UserLink(t, r, v.i4);
    var f3 := Pdpt(t.tab, r, v);
    if f3.Some? {
      UserLink(t, f3.value, v.i3);
      var f2 := Directory(t.tab, r, v);
      if f2.Some? {
        UserLink(t, f2.value, v.i2);
      }
    }
  }

  lemma UserLink(t: Forest, f: nat, i: Index)
    requires WellFormed(t) && (forall h :: h in t.lab ==> h < FRAME_LIMIT) && f in t.lab && !t.lab[f].Level1?
    requires Child(t.kernel, t.lab[f], i).space != t.kernel
    ensures Leads(t, f, i) ==> Grants(Entry(t.tab, f, i)) == FULL
  {
    assert LinkOk(t, f, i);
    if Leads(t, f, i) {
      OpenLinkGrants(Entry(t.tab, f, i));
    }
  }

  lemma OpenLinkGrants(w: nat)
    requires OpenLink(w) && FrameOf(w) < FRAME_LIMIT
    ensures Grants(w) == FULL
  {
    PageBits(FrameOf(w), w % PAGE_SIZE);
    BelowNx(FrameOf(w), w % PAGE_SIZE);
  }

  // A table added at the entry where the walk ended adds its link to the walk; no other walk changes.
  lemma GraftLinks(t: Forest, f: nat, i: Index, g: nat, flags: nat, r: nat, v: VPage)
    requires MayGraft(t, f, i, g, flags) && IsRoot(t, r)
    ensures Links(Graft(t, f, i, g, flags).tab, r, v)
         == Links(t.tab, r, v) + if Hole(t.tab, r, v) == Some(Slot(f, i)) then [TableWord(g, flags)] else []
  {
    WalkLabels(t, r, v);
    UnreadFrame(t, r, v, g, ZeroPage());
    if !Hits(t.tab, r, v, f, i) {
      UnreadWrite(t.tab[g := ZeroPage()], r, v, f, i, TableWord(g, flags));
    } else {
      GraftLinksHit(t, f, i, g, flags, r, v);
    }
  }

  lemma GraftLinksHit(t: Forest, f: nat, i: Index, g: nat, flags: nat, r: nat, v: VPage)
    requires MayGraft(t, f, i, g, flags) && IsRoot(t, r) && Hits(t.tab, r, v, f, i)
    ensures Hole(t.tab, r, v) == Some(Slot(f, i))
    ensures Links(Graft(t, f, i, g, flags).tab, r, v) == Links(t.tab, r, v) + [TableWord(g, flags)]
  {
    WalkLabels(t, r, v);
    TableWordDecodes(g, flags);
    GraftEntries(t, f, i, g, flags, r, v.i4);
    var f3 := Pdpt(t.tab, r, v);
    if f3.Some? {
      GraftEntries(t, f, i, g, flags, f3.value, v.i3);
      var f2 := Directory(t.tab, r, v);
      if f2.Some? {
        GraftEntries(t, f, i, g, flags, f2.value, v.i2);
      }
    }
    GraftEntries(t, f, i, g, flags, g, v.i3);
    GraftEntries(t, f, i, g, flags, g, v.i2);
  }

  // Writing the last entry of a walk, or a 2 MiB entry where there was none, changes no link.
  lemma WriteLeafLinks(t: Forest, f: nat, i: Index, w: nat, r: nat, v: VPage)
    requires WellFormed(t) && IsRoot(t, r) && f in t.lab
    requires t.lab[f].Level1? || (t.lab[f].Level2? && NotATable(w) && !Present(Entry(t.tab, f, i)))
    ensures Links(WriteLeaf(t, f, i, w).tab, r, v) == Links(t.tab, r, v)
  {
    WalkLabels(t, r, v);
    if !Hits(t.tab, r, v, f, i) {
      UnreadWrite(t.tab, r, v, f, i, w);
    }
  }
}

/**
 Mapping a run of consecutive pages, and reading a mapping back.
 */
module PageRanges {
  import opened Prelude
  import opened PageWords
  import opened PageTables
  import opened SpaceState

  const PAGES: nat := 0x10_0000_0000  // pages of a 48-bit address space

  // How many pages after the one at `virt` the page v comes, going round the address space.
  function Offset(virt: nat, v: VPage): (d: nat)
    ensures d < PAGES
  {
    (PageNumber(v) - virt / PAGE_SIZE) % PAGES
  }

  lemma OffsetOf(virt: nat, i: nat, v: VPage)
    requires i < PAGES
    ensures v == PageOf(virt + i * PAGE_SIZE) <==> Offset(virt, v) == i
  {
    var n := virt / PAGE_SIZE;
    assert (virt + i * PAGE_SIZE) / PAGE_SIZE == n + i;
    PageNumberOf(virt + i * PAGE_SIZE);
    PageNumberRange(v);
    OffsetArithmetic(PageNumber(v), n, i);
    if PageNumber(v) == (n + i) % PAGES {
      PageNumberUnique(v, PageOf(virt + i * PAGE_SIZE));
    }
  }

  lemma OffsetUnique(virt: nat, u: VPage, v: VPage)
    requires Offset(virt, u) == Offset(virt, v)
    ensures u == v
  {
    var d := Offset(virt, u);
    OffsetOf(virt, d, u);
    OffsetOf(virt, d, v);
  }

  // Page number i of the run of pages from `virt`.
  function PageAt(virt: nat, i: nat): VPage {
    PageOf(virt + i * PAGE_SIZE)
  }

  lemma PageNumberRange(v: VPage)
    ensures PageNumber(v) < PAGES
  {
  }

  lemma OffsetArithmetic(p: nat, n: nat, i: nat)
    requires p < PAGES && i < PAGES
    ensures p == (n + i) % PAGES <==> (p - n) % PAGES == i
  {
  }

  // A run of pages of the space `root`, from the page at `virt` on, and what they are mapped to.
  datatype Span = Span(root: nat, virt: nat, frame: nat, flags: nat, high: nat) {
    function LeafAt(d: nat): Leaf {
      Leaf(frame + d, flags, high, false)
    }
  }

  // The first n pages of the span, all unmapped before, are mapped in order; no other page of any
  // space changes.
  ghost predicate RangeMaps(s: Snap, s': Snap, g: Span, n: nat) {
    && (forall v :: Offset(g.virt, v) < n ==> Lookup(s.t.tab, g.root, v).None?)
    && (forall r, v :: IsRoot(s.t, r) ==> Lookup(s'.t.tab, r, v) == RangeLookup(s, g, n, r, v))
  }

  ghost function RangeLookup(s: Snap, g: Span, n: nat, r: nat, v: VPage): Option<Leaf> {
    var d := Offset(g.virt, v);
    if d < n && Reaches(s.t, g.root, r, v.i4) then Some(g.LeafAt(d)) else Lookup(s.t.tab, r, v)
  }

  lemma RangeExtends(a: Snap, b: Snap, c: Snap, g: Span, n: nat)
    requires n < PAGES && Kept(a, b) && RangeMaps(a, b, g, n) && IsRoot(a.t, g.root)
    requires Lookup(b.t.tab, g.root, PageOf(g.virt + n * PAGE_SIZE)).None?
    requires Maps(b, c, g.root, PageOf(g.virt + n * PAGE_SIZE), Some(g.LeafAt(n)))
    ensures RangeMaps(a, c, g, n + 1)
  {
    var u := PageOf(g.virt + n * PAGE_SIZE);
    forall v
      ensures v == u <==> Offset(g.virt, v) == n
    {
      OffsetOf(g.virt, n, v);
    }
    RangeAdds(a, b, c, g, u, n);
  }

  lemma RangeAdds(a: Snap, b: Snap, c: Snap, g: Span, u: VPage, n: nat)
    requires n < PAGES && Kept(a, b) && RangeMaps(a, b, g, n) && IsRoot(a.t, g.root)
    requires forall v :: v == u <==> Offset(g.virt, v) == n
    requires Lookup(b.t.tab, g.root, u).None? && Maps(b, c, g.root, u, Some(g.LeafAt(n)))
    ensures RangeMaps(a, c, g, n + 1)
  {
    forall r, v | IsRoot(a.t, r)
      ensures Lookup(c.t.tab, r, v) == RangeLookup(a, g, n + 1, r, v)
    {
      ExtendsAt(a, b, c, g, u, n, r, v);
    }
    forall v | Offset(g.virt, v) < n + 1
      ensures Lookup(a.t.tab, g.root, v).None?
    {
      assert Lookup(b.t.tab, g.root, v) == RangeLookup(a, g, n, g.root, v);
    }
  }

  lemma ExtendsAt(a: Snap, b: Snap, c: Snap, g: Span, u: VPage, n: nat, r: nat, v: VPage)
    requires Kept(a, b) && IsRoot(a.t, r) && (v == u <==> Offset(g.virt, v) == n)
    requires Lookup(b.t.tab, r, v) == RangeLookup(a, g, n, r, v)
    requires Maps(b, c, g.root, u, Some(g.LeafAt(n)))
    ensures Lookup(c.t.tab, r, v) == RangeLookup(a, g, n + 1, r, v)
  {
    assert IsRoot(b.t, r);
  }

  lemma RangeThenUnmoved(a: Snap, b: Snap, c: Snap, g: Span, n: nat)
    requires Kept(a, b) && RangeMaps(a, b, g, n) && Unmoved(b, c)
    ensures RangeMaps(a, c, g, n)
  {
    forall r, v | IsRoot(a.t, r)
      ensures Lookup(c.t.tab, r, v) == RangeLookup(a, g, n, r, v)
    {
      assert IsRoot(b.t, r);
    }
  }

  // When a page can still be mapped, the range has not gone round the whole space.
  lemma RoomLeft(a: Snap, b: Snap, g: Span, n: nat, v: VPage)
    requires IsRoot(a.t, g.root) && RangeMaps(a, b, g, n) && Lookup(b.t.tab, g.root, v).None?
    ensures n < PAGES
  {
    assert Lookup(b.t.tab, g.root, v) == RangeLookup(a, g, n, g.root, v);
  }

  // One attempt to map the next page of the span.
  lemma RangeStep(start: Snap, before: Snap, after: Snap, g: Span, i: nat, u: VPage, ok: bool)
    requires Kept(start, before) && Kept(before, after) && IsRoot(start.t, g.root)
    requires RangeMaps(start, before, g, i) && u == PageOf(g.virt + i * PAGE_SIZE)
    requires ok ==> Lookup(before.t.tab, g.root, u).None? && Maps(before, after, g.root, u, Some(g.LeafAt(i)))
    requires !ok ==> Unmoved(before, after)
    ensures Kept(start, after) && RangeMaps(start, after, g, if ok then i + 1 else i) && (ok ==> i < PAGES)
  {
    KeptTransitive(start, before, after);
    if ok {
      RoomLeft(start, before, g, i, u);
      RangeExtends(start, before, after, g, i);
    } else {
      RangeThenUnmoved(start, before, after, g, i);
    }
  }

  lemma NextFrame(phys: nat, i: nat)
    ensures (phys + i * PAGE_SIZE) / PAGE_SIZE == phys / PAGE_SIZE + i
    ensures (phys + i * PAGE_SIZE) % PAGE_SIZE == phys % PAGE_SIZE
  {
  }

  function AddressAt(virt: nat, i: nat): (addr: nat)
    ensures PageOf(addr) == PageAt(virt, i) && (addr % PAGE_SIZE == 0 <==> virt % PAGE_SIZE == 0)
  {
    NextFrame(virt, i);
    virt + i * PAGE_SIZE
  }

  const LOWER_HALF: nat := 0x8000_0000_0000

  lemma LowerHalfPage(virt: nat)
    requires virt < LOWER_HALF
    ensures PageOf(virt).i4 < 256
  {
  }

  lemma SamePage(a: nat, off: nat)
    requires a % PAGE_SIZE == 0 && off < PAGE_SIZE
    ensures PageOf(a + off) == PageOf(a)
  {
    Quotients(a);
    Quotients(a + off);
    assert (a + off) / 0x1000 == a / 0x1000;
  }

  // ---- vmm_get_physical ----

  // What vmm_get_physical returns.  It takes bit 7 of any last entry for "2 MiB page", and its masks
  // keep the bits above the address.
  function GetPhysical(tab: Tables, root: nat, virt: nat): nat {
    match PteSlot(tab, root, PageOf(virt))
    case None => 0
    case Some(slot) =>
      var w := Entry(tab, slot.frame, slot.index);
      if !Present(w) then 0
      else if Huge(w) then w / HUGE_2MB * HUGE_2MB + virt % HUGE_2MB
      else w / PAGE_SIZE * PAGE_SIZE + virt % PAGE_SIZE
  }

  // The answer is the processor's translation if and only if the entry has no high bits and, for a
  // 4 KiB page whose bit 7 is set, the frame and the page happen to agree on their low nine bits.
  lemma GetPhysicalExact(tab: Tables, root: nat, virt: nat)
    ensures var u := PageOf(virt);
            match Lookup(tab, root, u)
            case None => GetPhysical(tab, root, virt) == 0
            case Some(l) =>
              GetPhysical(tab, root, virt) == l.frame * PAGE_SIZE + virt % PAGE_SIZE
              <==> l.high == 0 && (l.huge || !Huge(l.flags) || l.frame % 512 == u.i1)
  {
    var u := PageOf(virt);
    var slot := PteSlot(tab, root, u);
    if slot.Some? {
      var w := Entry(tab, slot.value.frame, slot.value.index);
      if Present(w) {
        TranslationExact(w, virt);
      }
    }
  }

  // The answer for a 4 KiB page in terms of its mapping, bit 7 being clear.
  lemma GetPhysicalOf(tab: Tables, root: nat, virt: nat, l: Leaf)
    requires Lookup(tab, root, PageOf(virt)) == Some(l) && !l.huge && !Huge(l.flags)
    ensures GetPhysical(tab, root, virt) == l.high * HIGH_UNIT + l.frame * PAGE_SIZE + virt % PAGE_SIZE
  {
    var slot := PteSlot(tab, root, PageOf(virt)).value;
    WordSplits(Entry(tab, slot.frame, slot.index));
  }

  // A page that vmm_map has mapped with PTE_KERNEL_RW_NX reads back with bit 63 set: the answer is wrong
  // for every such page and every offset.
  lemma NxIsReadBack(s: Snap, s': Snap, virt: nat, phys: nat, off: nat)
    requires IsRoot(s.t, s.t.kernel) && virt % PAGE_SIZE == 0 && phys % PAGE_SIZE == 0 && off < PAGE_SIZE
    requires var flags := PTE_KERNEL_RW_NX;
             Maps(s, s', s.t.kernel, PageOf(virt),
                  Some(Leaf(phys / PAGE_SIZE, SetPresent(LowFlags(flags)), HighFlags(flags), false)))
    ensures GetPhysical(s'.t.tab, s.t.kernel, virt + off) == phys + off + PTE_NX
  {
    SamePage(virt, off);
    var l := NxLeaf(phys);
    assert Lookup(s'.t.tab, s.t.kernel, PageOf(virt)) == Some(l);
    GetPhysicalOf(s'.t.tab, s.t.kernel, virt + off, l);
    NxAddress(virt, phys, off);
  }

  function NxLeaf(phys: nat): (l: Leaf)
    ensures l == Leaf(phys / PAGE_SIZE, SetPresent(LowFlags(PTE_KERNEL_RW_NX)), HighFlags(PTE_KERNEL_RW_NX), false)
  {
    Leaf(phys / PAGE_SIZE, PTE_PRESENT + PTE_WRITE, HIGH_NX, false)
  }

  lemma NxAddress(virt: nat, phys: nat, off: nat)
    requires virt % PAGE_SIZE == 0 && phys % PAGE_SIZE == 0 && off < PAGE_SIZE
    ensures HIGH_NX * HIGH_UNIT + phys / PAGE_SIZE * PAGE_SIZE + (virt + off) % PAGE_SIZE == phys + off + PTE_NX
  {
  }

  lemma TranslationExact(w: nat, virt: nat)
    ensures var small := w / PAGE_SIZE * PAGE_SIZE + virt % PAGE_SIZE;
            small == HardFrame(w) * PAGE_SIZE + virt % PAGE_SIZE <==> w / HIGH_UNIT == 0
    ensures var large, i1 := w / HUGE_2MB * HUGE_2MB + virt % HUGE_2MB, virt / PAGE_SIZE % 512;
            && (large == (HardFrame(w) / 512 * 512 + i1) * PAGE_SIZE + virt % PAGE_SIZE <==> w / HIGH_UNIT == 0)
            && (large == HardFrame(w) * PAGE_SIZE + virt % PAGE_SIZE
                <==> w / HIGH_UNIT == 0 && HardFrame(w) % 512 == i1)
    ensures Huge(w) <==> Huge(w % PAGE_SIZE)
  {
    WordSplits(w);
    HugeOffset(virt);
    var m := HardFrame(w);
    Comparison(w / HIGH_UNIT, m / 512, m % 512, virt / PAGE_SIZE % 512, virt % PAGE_SIZE);
  }

  // The comparisons of TranslationExact with the word taken apart.
  lemma Comparison(h: nat, q: nat, r: nat, i1: nat, off: nat)
    requires r < 512 && i1 < 512 && off < PAGE_SIZE
    ensures h * HIGH_UNIT + (q * 512 + r) * PAGE_SIZE + off == (q * 512 + r) * PAGE_SIZE + off <==> h == 0
    ensures var large := h * HIGH_UNIT + q * HUGE_2MB + (i1 * PAGE_SIZE + off);
            && (large == (q * 512 + i1) * PAGE_SIZE + off <==> h == 0)
            && (large == (q * 512 + r) * PAGE_SIZE + off <==> h == 0 && r == i1)
  {
  }

  lemma WordSplits(w: nat)
    ensures w / PAGE_SIZE * PAGE_SIZE == w / HIGH_UNIT * HIGH_UNIT + HardFrame(w) * PAGE_SIZE
    ensures w / HUGE_2MB * HUGE_2MB == w / HIGH_UNIT * HIGH_UNIT + HardFrame(w) / 512 * HUGE_2MB
    ensures Huge(w) <==> Huge(w % PAGE_SIZE)
  {
    NestedQuotients(w);
    var x := w / PAGE_SIZE;
    assert x == x / FRAME_LIMIT * FRAME_LIMIT + HardFrame(w);
    QuotientOfSum(x / FRAME_LIMIT, HardFrame(w));
  }

  lemma NestedQuotients(w: nat)
    ensures w / HIGH_UNIT == w / PAGE_SIZE / FRAME_LIMIT && w / HUGE_2MB == w / PAGE_SIZE / 512
    ensures w / 128 % 2 == w % PAGE_SIZE / 128 % 2
  {
    var n, low := w / PAGE_SIZE, w % PAGE_SIZE;
    assert w == n * PAGE_SIZE + low;
    PageBitSeven(n, low);
    HighQuotient(n, low);
    HugeQuotient(n, low);
  }

  lemma HighQuotient(n: nat, low: nat)
    requires low < PAGE_SIZE
    ensures (n * PAGE_SIZE + low) / HIGH_UNIT == n / FRAME_LIMIT
  {
    var high, frame := n / FRAME_LIMIT, n % FRAME_LIMIT;
    assert n * PAGE_SIZE + low == high * HIGH_UNIT + (frame * PAGE_SIZE + low);
    HighSplit(high, frame * PAGE_SIZE + low);
  }

  lemma HugeQuotient(n: nat, low: nat)
    requires low < PAGE_SIZE
    ensures (n * PAGE_SIZE + low) / HUGE_2MB == n / 512
  {
    var q, r := n / 512, n % 512;
    assert n * PAGE_SIZE + low == q * HUGE_2MB + (r * PAGE_SIZE + low);
  }

  lemma QuotientOfSum(h: nat, m: nat)
    ensures (h * FRAME_LIMIT + m) / 512 == h * (FRAME_LIMIT / 512) + m / 512
  {
  }

  lemma HugeOffset(virt: nat)
    ensures virt % HUGE_2MB == virt / PAGE_SIZE % 512 * PAGE_SIZE + virt % PAGE_SIZE
  {
  }
}

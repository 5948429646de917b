/**
 Page-table entries as 64-bit words, and virtual pages as the four table indices of 4-level paging
 (section 4.5 of the Intel SDM, volume 3A).  Words are numbers: the kernel only ORs together values
 with no bit in common, so `|` is `+` here.
 */
module PageWords {
  import opened Prelude

  const PTE_PRESENT: nat := 1
  const PTE_WRITE: nat := 2
  const PTE_USER: nat := 4
  const PTE_HUGE: nat := 128
  const PTE_NX: nat := 0x8000_0000_0000_0000
  const PTE_KERNEL_RW_NX: nat := PTE_PRESENT + PTE_WRITE + PTE_NX
  const HUGE_2MB: nat := 0x20_0000
  const FRAME_LIMIT: nat := 0x100_0000_0000  // physical addresses have at most 52 bits

  type Index = i: nat | i < 512

  // A page of the 48-bit virtual address space.
  datatype VPage = VPage(i4: Index, i3: Index, i2: Index, i1: Index) {
    // In the same 2 MiB region.
    predicate SameRegion(other: VPage) {
      i4 == other.i4 && i3 == other.i3 && i2 == other.i2
    }

    // How many of the three tables on the ways to the two pages are the same ones.
    function Common(other: VPage): (n: nat)
      ensures n <= 3 && (n == 3 <==> SameRegion(other)) && (n == 0 <==> i4 != other.i4)
    {
      if i4 != other.i4 then 0 else if i3 != other.i3 then 1 else if i2 != other.i2 then 2 else 3
    }
  }

  predicate Aligned4K(virt: nat, phys: nat) {
    virt % PAGE_SIZE == 0 && phys % PAGE_SIZE == 0
  }

  predicate Aligned2M(virt: nat, phys: nat) {
    virt % HUGE_2MB == 0 && phys % HUGE_2MB == 0
  }

  // PML4_INDEX, PDP_INDEX, PD_INDEX and PT_INDEX
  function PageOf(virt: nat): VPage {
    VPage(virt / 0x80_0000_0000 % 512, virt / 0x4000_0000 % 512, virt / 0x20_0000 % 512, virt / 0x1000 % 512)
  }

  function PageNumber(v: VPage): nat {
    ((v.i4 * 512 + v.i3) * 512 + v.i2) * 512 + v.i1
  }

  // The four indices are the 36 bits above the page offset, so pages and page numbers correspond.
  lemma PageNumberOf(virt: nat)
    ensures PageNumber(PageOf(virt)) == virt / PAGE_SIZE % 0x10_0000_0000
  {
    Quotients(virt);
    var a := virt / 0x1000;
    NumberFromIndices(a, a / 512, a / 512 / 512, a / 512 / 512 / 512);
  }

  lemma Quotients(x: nat)
    ensures x / 0x20_0000 == x / 0x1000 / 512
    ensures x / 0x4000_0000 == x / 0x1000 / 512 / 512
    ensures x / 0x80_0000_0000 == x / 0x1000 / 512 / 512 / 512
  {
    assert x / 0x20_0000 == x / 0x1000 / 512;
    assert x / 0x4000_0000 == x / 0x20_0000 / 512;
    assert x / 0x80_0000_0000 == x / 0x4000_0000 / 512;
  }

  lemma NumberFromIndices(a: nat, b: nat, c: nat, d: nat)
    requires b == a / 512 && c == b / 512 && d == c / 512
    ensures ((d % 512 * 512 + c % 512) * 512 + b % 512) * 512 + a % 512 == a % 0x10_0000_0000
  {
    var n := ((d % 512 * 512 + c % 512) * 512 + b % 512) * 512 + a % 512;
    assert a == d / 512 * 0x10_0000_0000 + n;
    assert n < 0x10_0000_0000;
  }

  lemma IndexBelow(x: nat, i: Index)
    ensures (x * 512 + i) / 512 == x && (x * 512 + i) % 512 == i
  {
  }

  lemma PageNumberUnique(u: VPage, v: VPage)
    requires PageNumber(u) == PageNumber(v)
    ensures u == v
  {
    IndexBelow((u.i4 * 512 + u.i3) * 512 + u.i2, u.i1);
    IndexBelow((v.i4 * 512 + v.i3) * 512 + v.i2, v.i1);
    IndexBelow(u.i4 * 512 + u.i3, u.i2);
    IndexBelow(v.i4 * 512 + v.i3, v.i2);
    IndexBelow(u.i4, u.i3);
    IndexBelow(v.i4, v.i3);
  }

  // ---- Entries ----

  predicate Present(w: nat) {
    w % 2 == 1
  }

  predicate Huge(w: nat) {
    w / 128 % 2 == 1
  }

  // w & ~0xFFF as a frame number; the kernel's mask keeps the NX bit.
  function FrameOf(w: nat): nat {
    w / PAGE_SIZE
  }

  // The frame the processor takes from an entry: bits 12 to 51.
  function HardFrame(w: nat): (f: nat)
    ensures f < FRAME_LIMIT
  {
    w / PAGE_SIZE % FRAME_LIMIT
  }

  function SetPresent(flags: nat): nat {
    if flags % 2 == 1 then flags else flags + PTE_PRESENT
  }

  function SetWrite(flags: nat): nat {
    if flags / 2 % 2 == 1 then flags else flags + PTE_WRITE
  }

  function SetHuge(flags: nat): nat {
    if flags / 128 % 2 == 1 then flags else flags + PTE_HUGE
  }

  // A flags argument: bits 0 to 11, and possibly NX.
  predicate FlagBits(flags: nat) {
    flags < PAGE_SIZE || PTE_NX <= flags < PTE_NX + PAGE_SIZE
  }

  // What an entry says about a page: its frame, the low flag bits, the bits above the address (bits 52
  // to 63, of which the last is NX), and whether it is part of a 2 MiB page.
  datatype Leaf = Leaf(frame: nat, flags: nat, high: nat, huge: bool)

  const HIGH_UNIT: nat := 0x10_0000_0000_0000  // 2^52
  const HIGH_NX: nat := 0x800

  function LeafOf(w: nat): Leaf {
    Leaf(HardFrame(w), w % PAGE_SIZE, w / HIGH_UNIT, false)
  }

  // The page number i1 of the 2 MiB page that the entry w maps.
  function HugeLeafOf(w: nat, i1: Index): Leaf {
    Leaf(HardFrame(w) / 512 * 512 + i1, w % PAGE_SIZE, w / HIGH_UNIT, true)
  }

  // What an entry lets a program in ring 3 do: reach what lies behind it, write to it, run it.
  datatype Access = Access(user: bool, write: bool, exec: bool) {
    function And(other: Access): Access {
      Access(user && other.user, write && other.write, exec && other.exec)
    }
  }

  const FULL: Access := Access(true, true, true)

  function Grants(w: nat): Access {
    Access(w / PTE_USER % 2 == 1, w / PTE_WRITE % 2 == 1, w / PTE_NX % 2 == 0)
  }

  function LeafGrants(l: Leaf): Access {
    Access(l.flags / PTE_USER % 2 == 1, l.flags / PTE_WRITE % 2 == 1, l.high / HIGH_NX % 2 == 0)
  }

  // A leaf grants what the entry it was read from grants.
  lemma LeafGrantsAll(w: nat, i1: Index)
    ensures LeafGrants(LeafOf(w)) == Grants(w) && LeafGrants(HugeLeafOf(w, i1)) == Grants(w)
  {
    PageBits(w / PAGE_SIZE, w % PAGE_SIZE);
    HighBit(w);
  }

  lemma PageBits(n: nat, low: nat)
    ensures (n * PAGE_SIZE + low) / PTE_USER % 2 == low / PTE_USER % 2
    ensures (n * PAGE_SIZE + low) / PTE_WRITE % 2 == low / PTE_WRITE % 2
  {
    UserBit(n, low);
    WriteBit(n, low);
  }

  lemma UserBit(n: nat, low: nat)
    ensures (n * PAGE_SIZE + low) / PTE_USER % 2 == low / PTE_USER % 2
  {
    assert (n * PAGE_SIZE + low) / 4 == n * 1024 + low / 4;
  }

  lemma WriteBit(n: nat, low: nat)
    ensures (n * PAGE_SIZE + low) / PTE_WRITE % 2 == low / PTE_WRITE % 2
  {
    assert (n * PAGE_SIZE + low) / 2 == n * 2048 + low / 2;
  }

  lemma HighBit(w: nat)
    ensures w / HIGH_UNIT / HIGH_NX == w / PTE_NX
  {
  }

  function LowFlags(flags: nat): nat {
    flags % PAGE_SIZE
  }

  function HighFlags(flags: nat): nat {
    if flags >= PTE_NX then HIGH_NX else 0
  }

  // The fields of a word put together from a frame, low flag bits and high bits.
  lemma WordFields(frame: nat, low: nat, high: nat)
    requires frame < FRAME_LIMIT && low < PAGE_SIZE
    ensures var w := high * HIGH_UNIT + frame * PAGE_SIZE + low;
            && w % PAGE_SIZE == low && w % 2 == low % 2 && w / 128 % 2 == low / 128 % 2
            && HardFrame(w) == frame && w / HIGH_UNIT == high
  {
    var n := high * FRAME_LIMIT + frame;
    assert high * HIGH_UNIT + frame * PAGE_SIZE + low == n * PAGE_SIZE + low;
    PageSplit(n, low);
    PageParity(n, low);
    PageBitSeven(n, low);
    FrameSplit(high, frame);
    HighSplit(high, frame * PAGE_SIZE + low);
  }

  lemma PageSplit(n: nat, low: nat)
    requires low < PAGE_SIZE
    ensures (n * PAGE_SIZE + low) / PAGE_SIZE == n && (n * PAGE_SIZE + low) % PAGE_SIZE == low
  {
  }

  lemma PageParity(n: nat, low: nat)
    ensures (n * PAGE_SIZE + low) % 2 == low % 2
  {
  }

  lemma PageBitSeven(n: nat, low: nat)
    ensures (n * PAGE_SIZE + low) / 128 % 2 == low / 128 % 2
  {
    assert (n * PAGE_SIZE + low) / 128 == n * 32 + low / 128;
  }

  lemma FrameSplit(high: nat, frame: nat)
    requires frame < FRAME_LIMIT
    ensures (high * FRAME_LIMIT + frame) / FRAME_LIMIT == high && (high * FRAME_LIMIT + frame) % FRAME_LIMIT == frame
  {
  }

  lemma HighSplit(high: nat, rest: nat)
    requires rest < HIGH_UNIT
    ensures (high * HIGH_UNIT + rest) / HIGH_UNIT == high
  {
  }

  // The entry vmm_map writes.
  lemma LeafWord(frame: nat, flags: nat)
    requires frame < FRAME_LIMIT && FlagBits(flags)
    ensures var w := frame * PAGE_SIZE + SetPresent(flags);
            Present(w) && LeafOf(w) == Leaf(frame, SetPresent(LowFlags(flags)), HighFlags(flags), false)
  {
    SetPresentSplits(flags);
    WordFields(frame, SetPresent(LowFlags(flags)), HighFlags(flags));
  }

  // The entry vmm_map_for_pml4 writes, with NX taken out.
  lemma UserLeafWord(frame: nat, flags: nat)
    requires frame < FRAME_LIMIT && FlagBits(flags)
    ensures var w := (frame * PAGE_SIZE + SetPresent(flags)) % PTE_NX;
            Present(w) && LeafOf(w) == Leaf(frame, SetPresent(LowFlags(flags)), 0, false)
  {
    SetPresentSplits(flags);
    var low := SetPresent(LowFlags(flags));
    assert (frame * PAGE_SIZE + SetPresent(flags)) % PTE_NX == frame * PAGE_SIZE + low;
    WordFields(frame, low, 0);
  }

  // The two, from an address.
  lemma WordAt(phys: nat, flags: nat)
    requires phys / PAGE_SIZE < FRAME_LIMIT && phys % PAGE_SIZE == 0 && FlagBits(flags)
    ensures var w := phys + SetPresent(flags);
            Present(w) && LeafOf(w) == Leaf(phys / PAGE_SIZE, SetPresent(LowFlags(flags)), HighFlags(flags), false)
    ensures var w := (phys + SetPresent(flags)) % PTE_NX;
            Present(w) && LeafOf(w) == Leaf(phys / PAGE_SIZE, SetPresent(LowFlags(flags)), 0, false)
  {
    assert phys == phys / PAGE_SIZE * PAGE_SIZE;
    LeafWord(phys / PAGE_SIZE, flags);
    UserLeafWord(phys / PAGE_SIZE, flags);
  }

  lemma SetPresentSplits(flags: nat)
    requires FlagBits(flags)
    ensures var low := SetPresent(LowFlags(flags));
            low < PAGE_SIZE && low % 2 == 1 && SetPresent(flags) == low + HighFlags(flags) * HIGH_UNIT
  {
  }

  // What the flags argument of a mapping grants, NX apart.
  function FlagAccess(flags: nat): Access {
    Access(flags / PTE_USER % 2 == 1, flags / PTE_WRITE % 2 == 1, true)
  }

  lemma FlagsGrant(flags: nat, frame: nat)
    requires FlagBits(flags)
    ensures LeafGrants(Leaf(frame, SetPresent(LowFlags(flags)), 0, false)) == FlagAccess(flags)
  {
    var low := LowFlags(flags);
    PageBits(flags / PAGE_SIZE, low);
    if low % 2 == 0 {
      NextOdd(low / 2);
    }
  }

  lemma NextOdd(half: nat)
    ensures (2 * half + 1) / PTE_WRITE == 2 * half / PTE_WRITE
    ensures (2 * half + 1) / PTE_USER == 2 * half / PTE_USER
  {
    assert 2 * half / 4 == half / 2;
  }

  lemma SetHugeBelowPage(low: nat)
    requires low < PAGE_SIZE
    ensures SetHuge(low) < PAGE_SIZE && Huge(SetHuge(low)) && SetHuge(low) % 2 == low % 2
    ensures SetHuge(PTE_NX + low) == PTE_NX + SetHuge(low)
  {
  }

  // phys | (flags & ~(PRESENT | HUGE)) | PRESENT | HUGE: 512 pages in a row.
  lemma HugeWord(frame: nat, flags: nat, i1: Index)
    requires frame < FRAME_LIMIT && frame % 512 == 0 && FlagBits(flags)
    ensures var w := frame * PAGE_SIZE + SetHuge(SetPresent(flags));
            && Present(w) && Huge(w)
            && HugeLeafOf(w, i1) == Leaf(frame + i1, SetHuge(SetPresent(LowFlags(flags))), HighFlags(flags), true)
  {
    var low := SetPresent(LowFlags(flags));
    SetPresentSplits(flags);
    SetHugeBelowPage(low);
    WordFields(frame, SetHuge(low), HighFlags(flags));
    HugeFrame(frame, i1);
  }

  lemma HugeAligned(phys: nat)
    requires phys % HUGE_2MB == 0
    ensures phys == phys / PAGE_SIZE * PAGE_SIZE && phys / PAGE_SIZE % 512 == 0
  {
    var n := phys / HUGE_2MB;
    assert phys == n * 512 * PAGE_SIZE;
    PageSplit(n * 512, 0);
  }

  lemma HugeWordPages(phys: nat, flags: nat)
    requires phys / PAGE_SIZE < FRAME_LIMIT && phys % HUGE_2MB == 0 && FlagBits(flags)
    ensures var w := phys + SetHuge(SetPresent(flags));
            && Present(w) && Huge(w)
            && forall i1: Index ::
                 HugeLeafOf(w, i1)
                 == Leaf(phys / PAGE_SIZE + i1, SetHuge(SetPresent(LowFlags(flags))), HighFlags(flags), true)
  {
    var frame := phys / PAGE_SIZE;
    HugeAligned(phys);
    HugeWord(frame, flags, 0);
    var w := phys + SetHuge(SetPresent(flags));
    forall i1: Index
      ensures HugeLeafOf(w, i1)
           == Leaf(frame + i1, SetHuge(SetPresent(LowFlags(flags))), HighFlags(flags), true)
    {
      HugeWord(frame, flags, i1);
    }
  }

  lemma HugeFrame(frame: nat, i1: Index)
    requires frame % 512 == 0
    ensures frame / 512 * 512 + i1 == frame + i1
  {
  }

  // The entry create_table writes: the new table's address with flags | PRESENT | WRITE.
  function TableWord(frame: nat, flags: nat): nat {
    frame * PAGE_SIZE + SetWrite(SetPresent(flags))
  }

  lemma TableWordDecodes(frame: nat, flags: nat)
    requires flags < PTE_HUGE - 3
    ensures var w := TableWord(frame, flags); Present(w) && !Huge(w) && FrameOf(w) == frame
  {
    var low := SetWrite(SetPresent(flags));
    assert low % 2 == 1 && low < 128;
    SmallLowBits(frame, low);
  }

  // Such an entry grants writing and running, and ring 3 if the flags say so.
  function LinkAccess(flags: nat): (a: Access)
    ensures flags == PTE_WRITE ==> a == Access(false, true, true)
    ensures flags == PTE_WRITE + PTE_USER ==> a == FULL
  {
    Access(flags / PTE_USER % 2 == 1, true, true)
  }

  lemma TableWordGrants(frame: nat, flags: nat)
    requires frame < FRAME_LIMIT && flags < PTE_HUGE - 3
    ensures Grants(TableWord(frame, flags)) == LinkAccess(flags)
    ensures flags == PTE_WRITE + PTE_USER ==> TableWord(frame, flags) % PAGE_SIZE == PTE_PRESENT + PTE_WRITE + PTE_USER
  {
    var low := SetWrite(SetPresent(flags));
    LinkBits(flags, low);
    PageBits(frame, low);
    PageSplit(frame, low);
    BelowNx(frame, low);
  }

  lemma LinkBits(flags: nat, low: nat)
    requires flags < PTE_HUGE - 3 && low == SetWrite(SetPresent(flags))
    ensures low / 4 % 2 == flags / 4 % 2 && low / 2 % 2 == 1 && low < 128
  {
  }

  lemma BelowNx(frame: nat, low: nat)
    requires frame < FRAME_LIMIT && low < PAGE_SIZE
    ensures (frame * PAGE_SIZE + low) / PTE_NX == 0
  {
  }

  lemma SmallLowBits(frame: nat, low: nat)
    requires low < 128
    ensures var w := frame * PAGE_SIZE + low; w % 2 == low % 2 && w / PAGE_SIZE == frame && w / 128 % 2 == 0
  {
    PageSplit(frame, low);
    PageParity(frame, low);
    PageBitSeven(frame, low);
  }
}

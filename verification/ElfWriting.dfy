/**
 Writing the headers that the loader reads, and a program file that a load leaves half mapped.
 */
module ElfWriting {
  import opened Prelude
  import opened PageWords
  import opened PageTables
  import opened SpaceState
  import opened PageRanges
  import opened TableCosts
  import FP = FramePool
  import opened AddressSpaces
  import opened PhysicalBytes
  import opened ElfFormat
  import opened ElfOutcome
  import opened ElfLoader

  // ---- Little-endian fields ----

  function Little(v: nat, n: nat): (s: seq<nat>)
    ensures |s| == n
  {
    if n == 0 then [] else [v % 256] + Little(v / 256, n - 1)
  }

  lemma {:induction false} FieldLittle(file: seq<nat>, off: nat, n: nat, v: nat)
    requires off + n <= |file| && file[off..off + n] == Little(v, n) && v < Power(256, n)
    ensures Field(file, off, n) == v
    decreases n
  {
    if n > 0 {
      var s := file[off..off + n];
      assert s[0] == file[off] == v % 256;
      assert file[off + 1..off + n] == s[1..] == Little(v / 256, n - 1);
      FieldLittle(file, off + 1, n - 1, v / 256);
    }
  }

  // Files and memory agree on the order of the bytes of a number.
  lemma {:induction false} LittleIsMemory(v: nat, n: nat, k: nat)
    requires k < n
    ensures Little(v, n)[k] == GetByte(v, k)
  {
    if k > 0 {
      LittleIsMemory(v / 256, n - 1, k - 1);
    }
  }

  lemma {:induction false} LittleBytes(v: nat, n: nat)
    ensures Bytes(Little(v, n))
  {
    if n > 0 {
      LittleBytes(v / 256, n - 1);
    }
  }

  lemma JoinedBytes(a: seq<nat>, b: seq<nat>)
    requires Bytes(a) && Bytes(b)
    ensures Bytes(a + b)
  {
  }

  // A part of a part.
  lemma Inside(file: seq<nat>, p: nat, part: seq<nat>, i: nat, j: nat)
    requires p + |part| <= |file| && file[p..p + |part|] == part && i <= j <= |part|
    ensures file[p + i..p + j] == part[i..j]
  {
    forall k | 0 <= k < j - i
      ensures file[p + i..p + j][k] == part[i..j][k]
    {
      assert part[i + k] == file[p..p + |part|][i + k];
    }
  }

  lemma FieldInside(file: seq<nat>, p: nat, part: seq<nat>, i: nat, n: nat, v: nat)
    requires p + |part| <= |file| && file[p..p + |part|] == part && i + n <= |part|
    requires part[i..i + n] == Little(v, n) && v < Power(256, n)
    ensures Field(file, p + i, n) == v
  {
    Inside(file, p, part, i, i + n);
    FieldLittle(file, p + i, n, v);
  }

  // ---- The headers ----

  // e_ident, e_type, e_machine, e_version; then e_entry, e_phoff, e_shoff; then e_flags and the six sizes.
  function HeaderStart(): (s: seq<nat>)
    ensures |s| == 24
  {
    [0x7F, 0x45, 0x4C, 0x46, 2, 1, 1, 0, 0, 0, 0, 0, 0, 0, 0, 0, 2, 0, 0x3E, 0, 1, 0, 0, 0]
  }

  // The loader takes a file for a program exactly if it starts as a written one does, in the bytes that say
  // what file it is: the magic number, 64-bit, little-endian, executable, for x86-64.
  lemma HeaderIsWritten(file: seq<nat>)
    requires EHDR_SIZE <= |file| && Bytes(file)
    ensures HeaderOk(file) <==> forall i :: i in {0, 1, 2, 3, 4, 5, 16, 17, 18, 19} ==> file[i] == HeaderStart()[i]
  {
    ShortField(file, 16);
    ShortField(file, 18);
    var w := HeaderStart();
    assert w[..4] == [0x7F, 0x45, 0x4C, 0x46];
    assert file[..4] == w[..4] <==> forall i :: 0 <= i < 4 ==> file[i] == w[i];
  }

  lemma ShortField(file: seq<nat>, off: nat)
    requires off + 2 <= |file|
    ensures Field(file, off, 2) == file[off] + 256 * file[off + 1]
  {
    assert Field(file, off + 1, 1) == file[off + 1] + 256 * Field(file, off + 2, 0);
  }

  function WriteHeader(entry: nat, count: nat): (s: seq<nat>)
    ensures |s| == EHDR_SIZE
  {
    HeaderStart() + Little(entry, 8) + Little(EHDR_SIZE, 8) + HeaderEnd(count)
  }

  function HeaderEnd(count: nat): (s: seq<nat>)
    ensures |s| == 24
  {
    [0, 0, 0, 0, 0, 0, 0, 0, 0, 0, 0, 0, EHDR_SIZE, 0, PHDR_SIZE, 0] + Little(count, 2) + [0, 0, 0, 0, 0, 0]
  }

  lemma HeaderBytes(entry: nat, count: nat)
    ensures Bytes(WriteHeader(entry, count))
  {
    LittleBytes(entry, 8);
    LittleBytes(EHDR_SIZE, 8);
    LittleBytes(count, 2);
    assert Bytes(HeaderEnd(count));
    JoinedBytes(HeaderStart(), Little(entry, 8));
    JoinedBytes(HeaderStart() + Little(entry, 8), Little(EHDR_SIZE, 8));
    JoinedBytes(HeaderStart() + Little(entry, 8) + Little(EHDR_SIZE, 8), HeaderEnd(count));
  }

  // p_type, p_flags, p_offset, p_vaddr, p_paddr, p_filesz, p_memsz, p_align
  function WriteSegment(seg: Segment): (s: seq<nat>)
    ensures |s| == PHDR_SIZE
  {
    WriteStart(seg) + WriteEnd(seg)
  }

  function WriteStart(seg: Segment): (s: seq<nat>)
    ensures |s| == 24
  {
    Little(seg.kind, 4) + Little(seg.flags, 4) + Little(seg.offset, 8) + Little(seg.vaddr, 8)
  }

  function WriteEnd(seg: Segment): (s: seq<nat>)
    ensures |s| == 32
  {
    Little(seg.vaddr, 8) + Little(seg.filesz, 8) + Little(seg.memsz, 8) + Little(PAGE_SIZE, 8)
  }

  lemma SegmentBytes(seg: Segment)
    ensures Bytes(WriteSegment(seg))
  {
    LittleBytes(seg.kind, 4);
    LittleBytes(seg.flags, 4);
    LittleBytes(seg.offset, 8);
    LittleBytes(seg.vaddr, 8);
    JoinedBytes(Little(seg.kind, 4), Little(seg.flags, 4));
    JoinedBytes(Little(seg.kind, 4) + Little(seg.flags, 4), Little(seg.offset, 8));
    JoinedBytes(Little(seg.kind, 4) + Little(seg.flags, 4) + Little(seg.offset, 8), Little(seg.vaddr, 8));
    EndBytes(seg);
    JoinedBytes(WriteStart(seg), WriteEnd(seg));
  }

  lemma EndBytes(seg: Segment)
    ensures Bytes(WriteEnd(seg))
  {
    LittleBytes(seg.vaddr, 8);
    LittleBytes(seg.filesz, 8);
    LittleBytes(seg.memsz, 8);
    LittleBytes(PAGE_SIZE, 8);
    JoinedBytes(Little(seg.vaddr, 8), Little(seg.filesz, 8));
    JoinedBytes(Little(seg.vaddr, 8) + Little(seg.filesz, 8), Little(seg.memsz, 8));
    JoinedBytes(Little(seg.vaddr, 8) + Little(seg.filesz, 8) + Little(seg.memsz, 8), Little(PAGE_SIZE, 8));
  }

  function WriteTwo(entry: nat, first: Segment, second: Segment): (file: seq<nat>)
    ensures |file| == EHDR_SIZE + 2 * PHDR_SIZE
  {
    WriteHeader(entry, 2) + WriteSegment(first) + WriteSegment(second)
  }

  // The fields are no wider than their places.
  predicate Narrow(seg: Segment) {
    && seg.kind < Power(256, 4) && seg.flags < Power(256, 4) && seg.offset < Power(256, 8)
    && seg.vaddr < Power(256, 8) && seg.filesz < Power(256, 8) && seg.memsz < Power(256, 8)
  }

  lemma SegmentWritten(file: seq<nat>, p: nat, seg: Segment)
    requires p + PHDR_SIZE <= |file| && file[p..p + PHDR_SIZE] == WriteSegment(seg) && Narrow(seg)
    ensures Field(file, p, 4) == seg.kind && Field(file, p + 4, 4) == seg.flags && Field(file, p + 8, 8) == seg.offset
    ensures Field(file, p + 16, 8) == seg.vaddr && Field(file, p + 32, 8) == seg.filesz && Field(file, p + 40, 8) == seg.memsz
  {
    var w := WriteSegment(seg);
    SegmentSlices(seg);
    FieldInside(file, p, w, 0, 4, seg.kind);
    FieldInside(file, p, w, 4, 4, seg.flags);
    FieldInside(file, p, w, 8, 8, seg.offset);
    FieldInside(file, p, w, 16, 8, seg.vaddr);
    FieldInside(file, p, w, 32, 8, seg.filesz);
    FieldInside(file, p, w, 40, 8, seg.memsz);
  }

  lemma SegmentSlices(seg: Segment)
    ensures var w := WriteSegment(seg);
            && w[0..4] == Little(seg.kind, 4) && w[4..8] == Little(seg.flags, 4) && w[8..16] == Little(seg.offset, 8)
            && w[16..24] == Little(seg.vaddr, 8) && w[32..40] == Little(seg.filesz, 8) && w[40..48] == Little(seg.memsz, 8)
  {
    FourParts(Little(seg.kind, 4), Little(seg.flags, 4), Little(seg.offset, 8), Little(seg.vaddr, 8), [], WriteEnd(seg));
    assert [] + WriteStart(seg) + WriteEnd(seg) == WriteSegment(seg);
    FourParts(Little(seg.vaddr, 8), Little(seg.filesz, 8), Little(seg.memsz, 8), Little(PAGE_SIZE, 8), WriteStart(seg), []);
    assert WriteStart(seg) + WriteEnd(seg) + [] == WriteSegment(seg);
  }

  // Four parts in a row stand where their lengths put them.
  lemma FourParts(a: seq<nat>, b: seq<nat>, c: seq<nat>, d: seq<nat>, pre: seq<nat>, post: seq<nat>)
    ensures var w, p := pre + (a + b + c + d) + post, |pre|;
            && w[p..p + |a|] == a && w[p + |a|..p + |a| + |b|] == b
            && w[p + |a| + |b|..p + |a| + |b| + |c|] == c
            && w[p + |a| + |b| + |c|..p + |a| + |b| + |c| + |d|] == d
  {
  }

  lemma HeaderWritten(file: seq<nat>, entry: nat, count: nat)
    requires EHDR_SIZE <= |file| && file[..EHDR_SIZE] == WriteHeader(entry, count)
    requires entry < Power(256, 8) && count < Power(256, 2)
    ensures EntryPoint(file) == entry && ProgramOffset(file) == EHDR_SIZE && ProgramCount(file) == count
  {
    var h := WriteHeader(entry, count);
    assert file[0..0 + EHDR_SIZE] == h;
    assert h[24..32] == Little(entry, 8) && h[32..40] == Little(EHDR_SIZE, 8);
    assert h[56..58] == HeaderEnd(count)[16..18] == Little(count, 2);
    assert EHDR_SIZE < Power(256, 8) by { assert Power(256, 8) == 256 * Power(256, 7); Grows(7); }
    FieldInside(file, 0, h, 24, 8, entry);
    FieldInside(file, 0, h, 32, 8, EHDR_SIZE);
    FieldInside(file, 0, h, 56, 2, count);
  }

  lemma {:induction false} Grows(n: nat)
    ensures Power(256, n) >= 1
  {
    if n > 0 {
      Grows(n - 1);
    }
  }

  lemma StartWritten(file: seq<nat>)
    requires EHDR_SIZE <= |file| && file[..24] == HeaderStart()
    ensures HeaderOk(file)
  {
    assert file[..4] == file[..24][..4];
    assert file[4] == file[..24][4] && file[5] == file[..24][5];
    assert file[16] == file[..24][16] && file[17] == file[..24][17];
    assert file[18] == file[..24][18] && file[19] == file[..24][19];
    TwoBytes(file, 16);
    TwoBytes(file, 18);
  }

  lemma TwoBytes(file: seq<nat>, off: nat)
    requires off + 2 <= |file|
    ensures Field(file, off, 2) == file[off] + 256 * file[off + 1]
  {
    assert Field(file, off + 2, 0) == 0;
    assert Field(file, off + 1, 1) == file[off + 1] + 256 * Field(file, off + 2, 0);
  }

  // What is written is what the loader reads.
  lemma TwoWritten(entry: nat, first: Segment, second: Segment)
    requires Narrow(first) && Narrow(second) && entry < Power(256, 8)
    ensures var file := WriteTwo(entry, first, second);
            && HeaderOk(file) && EntryPoint(file) == entry && ProgramOffset(file) == EHDR_SIZE && ProgramCount(file) == 2
            && SegmentAt(file, 0) == first && SegmentAt(file, 1) == second && Bytes(file)
  {
    TwoBytesOnly(entry, first, second);
    var file := WriteTwo(entry, first, second);
    assert file[..EHDR_SIZE] == WriteHeader(entry, 2);
    assert file[..24] == HeaderStart();
    assert file[EHDR_SIZE..EHDR_SIZE + PHDR_SIZE] == WriteSegment(first);
    assert file[EHDR_SIZE + PHDR_SIZE..EHDR_SIZE + PHDR_SIZE + PHDR_SIZE] == WriteSegment(second);
    assert Power(256, 2) == 65536;
    StartWritten(file);
    HeaderWritten(file, entry, 2);
    SegmentWritten(file, EHDR_SIZE, first);
    SegmentWritten(file, EHDR_SIZE + PHDR_SIZE, second);
  }

  lemma TwoBytesOnly(entry: nat, first: Segment, second: Segment)
    ensures Bytes(WriteTwo(entry, first, second))
  {
    HeaderBytes(entry, 2);
    SegmentBytes(first);
    SegmentBytes(second);
    JoinedBytes(WriteHeader(entry, 2), WriteSegment(first));
    JoinedBytes(WriteHeader(entry, 2) + WriteSegment(first), WriteSegment(second));
  }

  // ---- A file that leaks ----

  const LOW: nat := 0x40_0000
  const HIGH: nat := 0x40_1000

  // A page of zeros at 0x401000.
  predicate IsUpper(seg: Segment) {
    seg.kind == PT_LOAD && seg.offset == 0 && seg.vaddr == HIGH && seg.filesz == 0 && seg.memsz == PAGE_SIZE
  }

  // Two pages of zeros from 0x400000 on.
  predicate IsBoth(seg: Segment) {
    seg.kind == PT_LOAD && seg.offset == 0 && seg.vaddr == LOW && seg.filesz == 0 && seg.memsz == 2 * PAGE_SIZE
  }

  // A file with these two segments, in this order.
  ghost predicate Leaky(file: seq<nat>) {
    && Loadable(file) && Bytes(file) && ProgramCount(file) == 2
    && IsUpper(SegmentAt(file, 0)) && IsBoth(SegmentAt(file, 1))
  }

  lemma WideEnough()
    ensures Power(256, 4) == 0x1_0000_0000 && Power(256, 8) > 0x1_0000_0000
  {
    assert Power(256, 2) == 65536;
    assert Power(256, 4) == 256 * (256 * Power(256, 2));
    assert Power(256, 6) == 256 * (256 * Power(256, 4));
    assert Power(256, 8) == 256 * (256 * Power(256, 6));
  }

  // There is such a file: 176 bytes of headers.
  lemma WrittenIsLeaky(entry: nat, first: Segment, second: Segment)
    requires entry == LOW && IsUpper(first) && IsBoth(second) && first.flags == PF_W && second.flags == PF_W
    ensures Leaky(WriteTwo(entry, first, second))
  {
    WideEnough();
    TwoWritten(entry, first, second);
    ReadsLeaky(WriteTwo(entry, first, second), first, second);
  }

  lemma ReadsLeaky(file: seq<nat>, first: Segment, second: Segment)
    requires |file| == EHDR_SIZE + 2 * PHDR_SIZE && Bytes(file) && HeaderOk(file)
    requires ProgramOffset(file) == EHDR_SIZE && ProgramCount(file) == 2
    requires SegmentAt(file, 0) == first && SegmentAt(file, 1) == second && IsUpper(first) && IsBoth(second)
    ensures Leaky(file)
  {
    assert SegmentOk(file, first) && SegmentOk(file, second);
    forall i: nat | i < ProgramCount(file)
      ensures SegmentOk(file, SegmentAt(file, i))
    {
      assert i == 0 || i == 1;
    }
  }

  lemma BothSegments(first: Segment, second: Segment)
    requires IsUpper(first) && IsBoth(second)
    ensures first.PageStart() == HIGH && first.Pages() == 1 && second.PageStart() == LOW && second.Pages() == 2
  {
  }

  lemma ThePages()
    ensures PageOf(LOW) == VPage(0, 0, 2, 0) && PageAt(LOW, 0) == VPage(0, 0, 2, 0)
    ensures PageOf(HIGH) == VPage(0, 0, 2, 1) && PageAt(LOW, 1) == VPage(0, 0, 2, 1)
  {
  }

  lemma TheOffsets()
    ensures Offset(HIGH, VPage(0, 0, 2, 0)) == PAGES - 1 && Offset(HIGH, VPage(0, 0, 2, 1)) == 0
    ensures Offset(LOW, VPage(0, 0, 2, 0)) == 0
  {
  }

  lemma UpperCovers(segs: seq<Segment>, seg: Segment)
    requires segs == [seg] && IsUpper(seg) && seg.PageStart() == HIGH && seg.Pages() == 1
    ensures !Covered(segs, VPage(0, 0, 2, 0)) && Covered(segs, VPage(0, 0, 2, 1))
  {
    TheOffsets();
    assert segs[0] == seg;
  }

  // Into an empty space: the second segment is the first bad one, with its second page in use and its first
  // page not.
  lemma LeakyLeaks(s: Snap, root: nat, file: seq<nat>)
    requires LowerHalfEmpty(s, root) && Leaky(file)
    ensures FirstBad(s, root, file, 1) && Leaks(s, root, file)
    ensures !TakenPage(s, root, file, 1, 0) && TakenPage(s, root, file, 1, 1)
  {
    var first, second := SegmentAt(file, 0), SegmentAt(file, 1);
    BothSegments(first, second);
    ThePages();
    assert Segments(file, 1) == [first];
    UpperCovers(Segments(file, 1), first);
    assert !Bad(s, root, file, 0) by {
      BadInEmpty(s, root, file, 0);
      assert Segments(file, 0) == [];
    }
    assert TakenPage(s, root, file, 1, 1);
    LeaksAt(s, root, file, 1);
  }

  // Loading it fails, and, unless twelve frames were not to be had or the allocator refused a block, leaves the page at 0x400000 mapped to a free frame.
  method LoadLeaky(vmm: Vmm, file: seq<nat>, root: nat) returns (ok: bool, ghost at: nat, ghost how: Outcome)
    requires vmm.Valid() && IsRoot(vmm.Now().t, root) && root != vmm.kernel && LowerHalfEmpty(vmm.Now(), root)
    requires Leaky(file)
    modifies vmm`mem, vmm`lab, vmm`data, vmm.pmm, vmm.pmm.bitmap
    ensures !ok && at < ProgramCount(file)
    ensures || DanglesAt(old(vmm.Now()), vmm.Now(), root, PageOf(LOW))
            || old(vmm.Stock()).Avail() < 12 || vmm.Stock().Refuses(SegmentAt(file, at).Pages())
  {
    ghost var start, first := vmm.Now(), vmm.Stock();
    LeakyLeaks(start, root, file);
    var entry;
    ok, entry, at, how := LoadElf(vmm, file, root);
    if !Short(start, root, file, at, how) {
      LeakyLeft(start, vmm.Now(), root, file, at, how);
    } else if how.Stopped? {
      LeakyNeeds(start, first, vmm.Stock(), root, file, at, how);
    }
  }

  // Three pages and their tables are twelve frames at most.
  lemma LeakyNeeds(s: Snap, a: FP.Stock, b: FP.Stock, root: nat, file: seq<nat>, at: nat, how: Outcome)
    requires Leaky(file) && at < ProgramCount(file) && how.Stopped? && how.done < SegmentAt(file, at).Pages()
    requires Broke(s, a, b, root, file, at, how) && !TakenPage(s, root, file, at, how.done)
    ensures a.Avail() < 12
  {
    var seg := SegmentAt(file, at);
    RanOutOfFew(s, a, root, FilePages(file, at), PagesFrom(seg.PageStart(), how.done + 1), seg.Pages());
    FewPages(file, at);
  }

  lemma FewPages(file: seq<nat>, at: nat)
    requires Leaky(file) && at < ProgramCount(file)
    ensures |FilePages(file, at)| == at && SegmentAt(file, at).Pages() == at + 1
  {
    BothSegments(SegmentAt(file, 0), SegmentAt(file, 1));
    if at == 1 {
      FilePagesMore(file, 0);
    }
  }

  lemma LeakyLeft(s: Snap, s': Snap, root: nat, file: seq<nat>, at: nat, how: Outcome)
    requires LowerHalfEmpty(s, root) && Leaky(file) && FirstBad(s, root, file, at)
    requires Stops(s, s', root, file, at, how) && !Short(s, root, file, at, how)
    ensures DanglesAt(s, s', root, PageOf(LOW))
  {
    LeakyStops(s, s', root, file, at, how);
    BothSegments(SegmentAt(file, 0), SegmentAt(file, 1));
    ThePages();
    TheOffsets();
    assert Leftover(s, s', root, file, 1, how.b, 1, PageOf(LOW));
    assert InBlock(how.b, 2, how.b);
  }

  lemma LeakyStops(s: Snap, s': Snap, root: nat, file: seq<nat>, at: nat, how: Outcome)
    requires LowerHalfEmpty(s, root) && Leaky(file) && FirstBad(s, root, file, at)
    requires Stops(s, s', root, file, at, how) && !Short(s, root, file, at, how)
    ensures at == 1 && how.Stopped? && how.done == 1
  {
    LeakyLeaks(s, root, file);
    BothSegments(SegmentAt(file, 0), SegmentAt(file, 1));
    OneFirstBad(s, root, file, at, 1);
    StopIsBad(s, s', root, file, at, how);
    StopsWithin(s, s', root, file, at, how);
  }
}

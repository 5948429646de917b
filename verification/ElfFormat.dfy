/**
 The parts of the 64-bit ELF format that the loader reads (ELF Header and Program Header, chapters 4
 and 5 of the System V gABI).
 */
module ElfFormat {
  import opened Prelude
  import opened PageWords
  import opened PageRanges

  const PT_LOAD: nat := 1
  const PF_X: nat := 1
  const PF_W: nat := 2
  const EHDR_SIZE: nat := 64
  const PHDR_SIZE: nat := 56

  // A file is a sequence of bytes.
  ghost predicate Bytes(file: seq<nat>) {
    forall i :: 0 <= i < |file| ==> file[i] < 256
  }

  // An n-byte little-endian field.
  function Field(file: seq<nat>, off: nat, n: nat): nat
    requires off + n <= |file|
    decreases n
  {
    if n == 0 then 0 else file[off] + 256 * Field(file, off + 1, n - 1)
  }

  predicate HeaderOk(file: seq<nat>)
    requires EHDR_SIZE <= |file|
  {
    && file[..4] == [0x7F, 0x45, 0x4C, 0x46]
    && file[4] == 2 && file[5] == 1
    && Field(file, 18, 2) == 0x3E && Field(file, 16, 2) == 2
  }

  function EntryPoint(file: seq<nat>): nat
    requires EHDR_SIZE <= |file|
  {
    Field(file, 24, 8)
  }

  function ProgramOffset(file: seq<nat>): nat
    requires EHDR_SIZE <= |file|
  {
    Field(file, 32, 8)
  }

  function ProgramCount(file: seq<nat>): nat
    requires EHDR_SIZE <= |file|
  {
    Field(file, 56, 2)
  }

  datatype Segment = Segment(kind: nat, flags: nat, offset: nat, vaddr: nat, filesz: nat, memsz: nat) {
    function PageStart(): nat {
      vaddr / PAGE_SIZE * PAGE_SIZE
    }

    function PageOffset(): (off: nat)
      ensures off < PAGE_SIZE
    {
      vaddr % PAGE_SIZE
    }

    function Pages(): nat {
      (memsz + PageOffset() + PAGE_SIZE - 1) / PAGE_SIZE
    }

    // PRESENT | USER, WRITE for a writable segment, NX for one that is not executable.
    function PteFlags(): nat {
      PTE_PRESENT + PTE_USER
      + (if flags / PF_W % 2 == 1 then PTE_WRITE else 0)
      + (if flags / PF_X % 2 == 1 then 0 else PTE_NX)
    }
  }

  function SegmentAt(file: seq<nat>, i: nat): Segment
    requires EHDR_SIZE <= |file| && ProgramOffset(file) + (i + 1) * PHDR_SIZE <= |file|
  {
    var p := ProgramOffset(file) + i * PHDR_SIZE;
    Segment(Field(file, p, 4), Field(file, p + 4, 4), Field(file, p + 8, 8),
            Field(file, p + 16, 8), Field(file, p + 32, 8), Field(file, p + 40, 8))
  }

  // The file holds the segment's bytes and the segment lies in the lower half of the address space.
  predicate SegmentOk(file: seq<nat>, seg: Segment) {
    seg.filesz <= seg.memsz && seg.offset + seg.filesz <= |file| && seg.vaddr + seg.memsz <= LOWER_HALF
  }

  // The loader reads the headers without checking them against the file's size.
  predicate Readable(file: seq<nat>) {
    && EHDR_SIZE <= |file|
    && (HeaderOk(file) ==>
          && ProgramOffset(file) + ProgramCount(file) * PHDR_SIZE <= |file|
          && forall i: nat :: i < ProgramCount(file) && SegmentAt(file, i).kind == PT_LOAD ==>
                            SegmentOk(file, SegmentAt(file, i)))
  }

  // The program headers 0 to n-1.
  function Segments(file: seq<nat>, n: nat): (segs: seq<Segment>)
    requires Readable(file) && HeaderOk(file) && n <= ProgramCount(file)
    ensures |segs| == n && forall i :: 0 <= i < n ==> segs[i] == SegmentAt(file, i)
    ensures AllOk(file, segs)
  {
    if n == 0 then [] else Segments(file, n - 1) + [SegmentAt(file, n - 1)]
  }

  ghost predicate AllOk(file: seq<nat>, segs: seq<Segment>) {
    forall i :: 0 <= i < |segs| && segs[i].kind == PT_LOAD ==> SegmentOk(file, segs[i])
  }

  // The byte a program should find at vaddr + j.
  function Wanted(file: seq<nat>, seg: Segment, j: nat): nat
    requires SegmentOk(file, seg)
  {
    if j < seg.filesz then file[seg.offset + j] else 0
  }

  lemma PteFlagBits(seg: Segment)
    ensures FlagBits(seg.PteFlags())
    ensures SetPresent(LowFlags(seg.PteFlags())) == PTE_PRESENT + PTE_USER + if seg.flags / PF_W % 2 == 1 then PTE_WRITE else 0
  {
  }

  // The pages of a segment cover its bytes, are no more than that takes, and stay in the lower half.
  lemma PagesCover(seg: Segment)
    requires seg.vaddr + seg.memsz <= LOWER_HALF
    ensures seg.PageStart() + seg.PageOffset() == seg.vaddr && seg.PageStart() % PAGE_SIZE == 0
    ensures seg.PageOffset() + seg.memsz <= seg.Pages() * PAGE_SIZE < seg.PageOffset() + seg.memsz + PAGE_SIZE
    ensures seg.PageStart() + seg.Pages() * PAGE_SIZE <= LOWER_HALF
  {
  }
}

/**
 The physical memory manager: a byte bitmap with one bit per frame, updated in place.
 `Valid` ties the bytes to the ghost field `bits`; every method is proved against the functions of
 `FramePool`.
 */
module FrameAllocator {
  import opened Prelude
  import opened Bits
  import opened FramePool
  import opened FrameSearch
  import opened FrameLedger
  import opened MemoryMap

  // now is `was` with the frames [first, end) clear.
  ghost predicate Opened(was: seq<bool>, now: seq<bool>, first: nat, end: nat) {
    |now| == |was| && forall f :: 0 <= f < |now| ==> now[f] == (was[f] && !(first <= f < end))
  }

  // now is `was` with the frames [first, end) set.
  ghost predicate Closed(was: seq<bool>, now: seq<bool>, first: nat, end: nat) {
    |now| == |was| && forall f :: 0 <= f < |now| ==> now[f] == (was[f] || first <= f < end)
  }

  lemma FrameOfAddress(f: nat)
    ensures f * PAGE_SIZE / PAGE_SIZE == f
  {
  }

  class FrameAllocator {
    var bitmap: array?<bv8>  // null when no room was found for it
    var frames: nat          // pmm_bitmap_frames
    var bitmapFrame: nat     // the frame at which the bitmap itself is stored
    var totalFrames: nat
    var usableFrames: nat
    var freeFrames: nat
    var usedFrames: nat
    var hint: nat            // next_fit_hint
    ghost var bits: seq<bool>

    ghost predicate Valid()
      reads this, bitmap
    {
      && |bits| == frames && freeFrames < TWO_64 && usedFrames < TWO_64
      && (bitmap == null ==> freeFrames == 0)
      && (bitmap != null ==>
            hint < frames && Stores(bitmap[..], bits))
    }

    // Frame 0 is in use, so no run of free frames reaches across the end of the bitmap to its start.
    ghost predicate FrameZeroHeld()
      reads this
    {
      frames > 0 && |bits| == frames && bits[0]
    }

    ghost function View(): Pool
      reads this
    {
      Pool(bits, hint, freeFrames, usedFrames)
    }

    constructor ()
      ensures Valid() && bitmap == null && hint == 0
    {
      bitmap, frames, bitmapFrame, hint := null, 0, 0, 0;
      totalFrames, usableFrames, freeFrames, usedFrames := 0, 0, 0, 0;
      bits := [];
    }

    method TestFrame(frame: nat) returns (used: bool)
      requires Valid() && bitmap != null && frame < frames
      ensures used == bits[frame]
    {
      used := bitmap[frame / 8] & Mask(frame % 8) != 0;
      assert bits[frame] == BitAt(bitmap[..], frame);
    }

    method SetFrame(frame: nat)
      requires Valid() && bitmap != null && frame < frames
      modifies this`bits, bitmap
      ensures Valid() && bits == old(bits)[frame := true]
    {
      SetStores(bitmap[..], bits, frame);
      bitmap[frame / 8] := bitmap[frame / 8] | Mask(frame % 8);
      bits := bits[frame := true];
      assert bitmap[..] == old(bitmap[..])[frame / 8 := bitmap[frame / 8]];
    }

    method ClearFrame(frame: nat)
      requires Valid() && bitmap != null && frame < frames
      modifies this`bits, bitmap
      ensures Valid() && bits == old(bits)[frame := false]
    {
      ClearStores(bitmap[..], bits, frame);
      bitmap[frame / 8] := bitmap[frame / 8] & !Mask(frame % 8);
      bits := bits[frame := false];
      assert bitmap[..] == old(bitmap[..])[frame / 8 := bitmap[frame / 8]];
    }

    // The end of both searches: mark the block, move the counters and the hint.
    method Commit(start: nat, count: nat)
      requires Valid() && bitmap != null && 0 < count && start + count <= frames
      modifies this`bits, this`hint, this`freeFrames, this`usedFrames, bitmap
      ensures Valid() && View() == Take(old(View()), start, count)
    {
      ghost var before := bits;
      var i := 0;
      while i < count
        invariant 0 <= i <= count
        invariant Valid() && bitmap == old(bitmap) && hint == old(hint)
        invariant freeFrames == old(freeFrames) && usedFrames == old(usedFrames)
        invariant bits == SetRange(before, start, i, true)
        modifies this`bits, bitmap
      {
        SetFrame(start + i);
        i := i + 1;
      }
      freeFrames := Wrap64(freeFrames - count);
      usedFrames := Wrap64(usedFrames + count);
      hint := (start + count) % frames;
    }

    // One frame of the search: a free frame starts a run or lengthens it, and a used frame ends it.
    method ExamineFrame(frame: nat, start: nat, length: nat, ghost c: Scan) returns (s: nat, n: nat)
      requires Valid() && bitmap != null && frame < frames
      requires (c.frame, c.runStart, c.runLength) == (frame, start, length)
      ensures (s, n) == Examine(bits, Permitted(PAGE_SIZE), c)
    {
      EveryFrameIsPageAligned(frame);
      s, n := start, length;
      var used := TestFrame(frame);
      if !used {
        if n == 0 {
          s := frame;
        }
        n := n + 1;
      } else {
        n := 0;
      }
    }

    // The search loop of pmm_alloc_frames; `tests` counts the bits it examines.
    method FindRun(count: nat) returns (found: Option<nat>, ghost tests: nat)
      requires Valid() && bitmap != null && FrameZeroHeld() && 0 < count
      ensures found == NextFit(bits, hint, count, PAGE_SIZE)
      ensures tests <= 2 * frames
    {
      ghost var now := bits;
      var frame, wrapPoint: nat := hint, hint;
      var runStart: nat, runLength: nat, wrapped := 0, 0, false;
      ghost var permitted := Permitted(PAGE_SIZE);
      ghost var c := Scan(frame, runStart, runLength, wrapped, 0, hint);
      while true
        invariant now == bits && Searching(now, permitted, count, wrapPoint, c)
        invariant (c.frame, c.runStart, c.runLength, c.wrapped) == (frame, runStart, runLength, wrapped)
        decreases 2 * frames - c.tests
      {
        runStart, runLength := ExamineFrame(frame, runStart, runLength, c);
        if runLength == count {
          TurnFinds(now, wrapPoint, count, PAGE_SIZE, c, runStart);
          return Some(runStart), c.tests + 1;
        }
        CyclicSuccessor(frame, frames);
        ghost var d := Advance(c, frames, wrapPoint, runStart, runLength);
        TurnContinues(now, wrapPoint, count, PAGE_SIZE, c, runStart, runLength, d);
        c := d;
        frame := (frame + 1) % frames;
        if frame == wrapPoint {
          if wrapped { break; }
          wrapped := true;
        }
      }
      return None, c.tests;
    }

    // One frame of the aligned search: only an aligned free frame starts a run.
    method ExamineAligned(frame: nat, alignment: nat, start: nat, length: nat, ghost c: Scan) returns (s: nat, n: nat)
      requires Valid() && bitmap != null && frame < frames && 0 < alignment
      requires (c.frame, c.runStart, c.runLength) == (frame, start, length)
      ensures (s, n) == Examine(bits, Permitted(alignment), c)
    {
      s, n := start, length;
      var used := TestFrame(frame);
      if !used {
        if n == 0 && Aligned(frame, alignment) {
          s, n := frame, 1;
        } else if n > 0 {
          n := n + 1;
        }
      } else {
        n := 0;
      }
    }

    // The search loop of pmm_alloc_frames_aligned.
    method FindAlignedRun(count: nat, alignment: nat) returns (found: Option<nat>, ghost tests: nat)
      requires Valid() && bitmap != null && FrameZeroHeld() && 0 < count && 0 < alignment
      ensures found == NextFit(bits, hint, count, alignment)
      ensures tests <= 2 * frames
    {
      ghost var now := bits;
      var frame, wrapPoint: nat := hint, hint;
      var runStart: nat, runLength: nat, wrapped := 0, 0, false;
      ghost var permitted := Permitted(alignment);
      ghost var c := Scan(frame, runStart, runLength, wrapped, 0, hint);
      while true
        invariant now == bits && Searching(now, permitted, count, wrapPoint, c)
        invariant (c.frame, c.runStart, c.runLength, c.wrapped) == (frame, runStart, runLength, wrapped)
        decreases 2 * frames - c.tests
      {
        runStart, runLength := ExamineAligned(frame, alignment, runStart, runLength, c);
        if runLength == count {
          TurnFinds(now, wrapPoint, count, alignment, c, runStart);
          return Some(runStart), c.tests + 1;
        }
        CyclicSuccessor(frame, frames);
        ghost var d := Advance(c, frames, wrapPoint, runStart, runLength);
        TurnContinues(now, wrapPoint, count, alignment, c, runStart, runLength, d);
        c := d;
        frame := (frame + 1) % frames;
        if frame == wrapPoint {
          if wrapped { break; }
          wrapped := true;
        }
      }
      return None, c.tests;
    }

    // pmm_alloc_frames
    method AllocFrames(count: nat) returns (r: Option<nat>)
      requires Valid() && (bitmap != null ==> FrameZeroHeld())
      modifies this`bits, this`hint, this`freeFrames, this`usedFrames, bitmap
      ensures Valid() && (View(), r) == Alloc(old(View()), count, PAGE_SIZE)
    {
      if count == 0 || freeFrames < count {
        return None;
      }
      var found, _ := FindRun(count);
      if found.None? {
        return None;
      }
      NextFitFits(bits, hint, count, PAGE_SIZE);
      Commit(found.value, count);
      return Some(found.value * PAGE_SIZE);
    }

    // pmm_alloc_frames_aligned
    method AllocFramesAligned(count: nat, alignment: nat) returns (r: Option<nat>)
      requires Valid() && (bitmap != null ==> FrameZeroHeld())
      modifies this`bits, this`hint, this`freeFrames, this`usedFrames, bitmap
      ensures Valid() && (View(), r) == Alloc(old(View()), count, alignment)
    {
      if count == 0 || freeFrames < count || alignment == 0 {
        return None;
      }
      var effective := if alignment < PAGE_SIZE then PAGE_SIZE else alignment;
      var found, _ := FindAlignedRun(count, effective);
      if found.None? {
        return None;
      }
      NextFitFits(bits, hint, count, effective);
      Commit(found.value, count);
      return Some(found.value * PAGE_SIZE);
    }

    // pmm_free_frames
    method FreeFrames(addr: nat, count: nat)
      requires Valid() && bitmap != null
      modifies this`bits, this`freeFrames, this`usedFrames, bitmap
      ensures Valid() && View() == Free(old(View()), addr, count)
    {
      ghost var p := View();
      var frame := addr / PAGE_SIZE;
      var i := 0;
      while i < count
        invariant 0 <= i <= count && (i == 0 || frame + i <= frames)
        invariant Valid() && bitmap == old(bitmap)
        invariant View() == if i == 0 then p else ClearFrames(p, frame, i)
      {
        var cur := frame + i;
        if cur >= frames { break; }
        ReleaseFrame(cur);
        i := i + 1;
      }
      ghost var b := Clip(p, addr, count);
      assert b.count == i && (i > 0 ==> b.start == frame);
      ClearFramesIsClearBlock(p, b.start, b.count);
    }

    // One turn of the loop of pmm_free_frames; a clear bit is reported on the serial line and skipped.
    method ReleaseFrame(cur: nat)
      requires Valid() && bitmap != null && cur < frames
      modifies this`bits, this`freeFrames, this`usedFrames, bitmap
      ensures Valid() && View() == FramePool.ClearFrame(old(View()), cur)
    {
      var used := TestFrame(cur);
      if !used {
        return;
      }
      ClearFrame(cur);
      freeFrames := Wrap64(freeFrames + 1);
      usedFrames := Wrap64(usedFrames - 1);
    }

    // ---- Boot ----

    // The first pass of pmm_init over the memory map.
    static method Survey(regions: seq<Region>) returns (maxAddr: nat, usable: nat, ram: nat)
      ensures maxAddr == Top(regions) * PAGE_SIZE
      ensures usable == UsableTotal(regions) && ram == RamTotal(regions)
    {
      maxAddr, usable, ram := 0, 0, 0;
      for i := 0 to |regions|
        invariant maxAddr == Top(regions[..i]) * PAGE_SIZE
        invariant usable == UsableTotal(regions[..i]) && ram == RamTotal(regions[..i])
      {
        var r := regions[i];
        assert regions[..i + 1][..i] == regions[..i];
        var start, end := r.First() * PAGE_SIZE, r.End() * PAGE_SIZE;
        if r.IsRam() {
          if end > start {
            ram := ram + (end - start) / PAGE_SIZE;
          }
          if end > maxAddr {
            maxAddr := end;
          }
        }
        if r.kind == USABLE && end > start {
          usable := usable + (end - start) / PAGE_SIZE;
        }
      }
      assert regions[..|regions|] == regions;
    }

    // The second pass: the first usable region with room for the bitmap.
    static method PlaceBitmap(regions: seq<Region>, need: nat) returns (home: Option<nat>)
      ensures home == Home(regions, need)
    {
      for i := 0 to |regions|
        invariant Home(regions, need) == Home(regions[i..], need)
      {
        var r := regions[i];
        assert regions[i..][1..] == regions[i + 1..];
        if r.kind != USABLE {
          continue;
        }
        var start, end := r.First() * PAGE_SIZE, r.Limit();
        if end <= start {
          continue;
        }
        if end - start >= need * PAGE_SIZE {
          return Some(r.First());
        }
      }
      return None;
    }

    // The third pass, for one usable region: its frames become free.
    method OpenRegion(r: Region)
      requires Valid() && bitmap != null && r.kind == USABLE && Balanced(View(), usableFrames, 0)
      modifies this`bits, this`freeFrames, this`usedFrames, bitmap
      ensures Valid() && Balanced(View(), usableFrames, 0) && |bits| == |old(bits)|
      ensures forall f :: 0 <= f < |bits| ==> bits[f] == (old(bits)[f] && !r.Offers(f))
    {
      OpenFrames(r.First(), r.End());
    }

    // The inner loop: every page address from the first frame's to the end.
    method OpenFrames(first: nat, end: nat)
      requires Valid() && bitmap != null && Balanced(View(), usableFrames, 0)
      modifies this`bits, this`freeFrames, this`usedFrames, bitmap
      ensures Valid() && Balanced(View(), usableFrames, 0) && Opened(old(bits), bits, first, end)
    {
      var addr := first * PAGE_SIZE;
      ghost var next := first;
      while addr < end * PAGE_SIZE
        invariant addr == next * PAGE_SIZE && first <= next <= Max(first, end)
        invariant Valid() && Balanced(View(), usableFrames, 0) && bitmap == old(bitmap)
        invariant Opened(old(bits), bits, first, next)
        decreases end - next
      {
        FrameOfAddress(next);
        OpenFrame(addr / PAGE_SIZE);
        addr := addr + PAGE_SIZE;
        next := next + 1;
      }
    }

    method OpenFrame(frame: nat)
      requires Valid() && bitmap != null && Balanced(View(), usableFrames, 0)
      modifies this`bits, this`freeFrames, this`usedFrames, bitmap
      ensures Valid() && Balanced(View(), usableFrames, 0) && Opened(old(bits), bits, frame, frame + 1)
    {
      if frame < frames {
        ClearFrameBalances(View(), frame, usableFrames, 0);
        ReleaseFrame(frame);
      }
    }

    method OpenRegions(regions: seq<Region>)
      requires Valid() && bitmap != null && Balanced(View(), usableFrames, 0)
      requires forall f :: 0 <= f < |bits| ==> bits[f]
      modifies this`bits, this`freeFrames, this`usedFrames, bitmap
      ensures Valid() && Balanced(View(), usableFrames, 0) && |bits| == |old(bits)|
      ensures forall f :: 0 <= f < |bits| ==> (!bits[f] <==> Usable(regions, f))
    {
      for i := 0 to |regions|
        invariant Valid() && Balanced(View(), usableFrames, 0) && bitmap == old(bitmap)
        invariant forall f :: 0 <= f < |bits| ==> (!bits[f] <==> Usable(regions[..i], f))
      {
        assert regions[..i + 1] == regions[..i] + [regions[i]];
        forall f | 0 <= f < |bits|
          ensures Usable(regions[..i + 1], f) <==> Usable(regions[..i], f) || regions[i].Offers(f)
        {
          UsableExtend(regions[..i], regions[i], f);
        }
        if regions[i].kind == USABLE {
          OpenRegion(regions[i]);
        }
      }
      assert regions[..|regions|] == regions;
    }

    method ReserveFrame(cur: nat)
      requires Valid() && bitmap != null && cur < frames
      modifies this`bits, this`freeFrames, this`usedFrames, bitmap
      ensures Valid() && View() == HoldFrame(old(View()), cur)
    {
      var used := TestFrame(cur);
      if !used {
        SetFrame(cur);
        freeFrames := Wrap64(freeFrames - 1);
        usedFrames := Wrap64(usedFrames + 1);
      }
    }

    // The last pass: the bitmap's own frames are taken back.
    method ProtectBitmap(home: nat, need: nat, ghost lag: nat)
      requires Valid() && bitmap != null && Balanced(View(), usableFrames, lag)
      modifies this`bits, this`freeFrames, this`usedFrames, bitmap
      ensures Valid() && Balanced(View(), usableFrames, lag) && |bits| == |old(bits)|
      ensures forall f :: 0 <= f < |bits| ==> bits[f] == (old(bits)[f] || InBitmap(home, need, f))
    {
      var addr := home * PAGE_SIZE;
      ghost var next := home;
      while addr < (home + need) * PAGE_SIZE
        invariant addr == next * PAGE_SIZE && home <= next <= home + need
        invariant Valid() && Balanced(View(), usableFrames, lag) && bitmap == old(bitmap)
        invariant Closed(old(bits), bits, home, next)
        decreases home + need - next
      {
        FrameOfAddress(next);
        ProtectFrame(addr / PAGE_SIZE, lag);
        addr := addr + PAGE_SIZE;
        next := next + 1;
      }
    }

    method ProtectFrame(frame: nat, ghost lag: nat)
      requires Valid() && bitmap != null && Balanced(View(), usableFrames, lag)
      modifies this`bits, this`freeFrames, this`usedFrames, bitmap
      ensures Valid() && Balanced(View(), usableFrames, lag) && Closed(old(bits), bits, frame, frame + 1)
    {
      if frame < frames {
        HoldFrameBalances(View(), frame, usableFrames, lag);
        ReserveFrame(frame);
      }
    }

    // Frame 0 is marked used and, unless no frame is free, always taken off the free counter.
    method ProtectFrameZero()
      requires Valid() && bitmap != null && Balanced(View(), usableFrames, 0) && frames < TWO_64
      modifies this`bits, this`freeFrames, this`usedFrames, bitmap
      ensures Valid() && bits == old(bits)[0 := true]
      ensures Balanced(View(), usableFrames, if old(bits)[0] && 0 < old(ClearCount(bits)) then 1 else 0)
    {
      ZeroTakenBalances(View(), usableFrames);
      SetFrame(0);
      if freeFrames > 0 {
        freeFrames := Wrap64(freeFrames - 1);
        usedFrames := Wrap64(usedFrames + 1);
      }
    }

    // memset(pmm_bitmap, 0xFF, pmm_bitmap_bytes) and the counters before the third pass.
    method ResetBitmap()
      requires frames > 0 && hint < frames && usableFrames < TWO_64
      modifies this
      ensures Valid() && fresh(bitmap) && bits == seq(frames, _ => true) && Balanced(View(), usableFrames, 0)
      ensures frames == old(frames) && usableFrames == old(usableFrames) && hint == old(hint)
      ensures totalFrames == old(totalFrames) && bitmapFrame == old(bitmapFrame)
    {
      var bytes := new bv8[(frames + 7) / 8](_ => 0xFF);
      AllOnesStore(bytes[..], frames);
      ClearCountConstant(frames, true);
      bitmap := bytes;
      bits := seq(frames, _ => true);
      freeFrames := 0;
      usedFrames := usableFrames;
    }

    // The part of pmm_init after the bitmap has been given its place.
    method Populate(regions: seq<Region>, home: nat, need: nat)
      requires hint == 0 && 0 < frames < TWO_64 && usableFrames < TWO_64
      requires frames == Top(regions) && usableFrames == UsableTotal(regions) && need == BitmapFrames(regions)
      requires Home(regions, need) == Some(home)
      modifies this
      ensures Valid() && bitmap != null && View() == InitPool(regions, home)
      ensures frames == old(frames) && usableFrames == old(usableFrames)
      ensures totalFrames == old(totalFrames) && bitmapFrame == old(bitmapFrame)
    {
      ResetBitmap();
      OpenRegions(regions);
      ghost var cleared := bits;
      OpenedPool(regions, home, cleared);
      Protect(home, need);
      ProtectedBits(regions, home, cleared, bits);
      PoolIsInit(regions, home, View());
    }

    method Protect(home: nat, need: nat)
      requires Valid() && bitmap != null && Balanced(View(), usableFrames, 0)
      requires 0 < ClearCount(bits) && frames < TWO_64
      modifies this`bits, this`freeFrames, this`usedFrames, bitmap
      ensures Valid() && |bits| == |old(bits)| && Balanced(View(), usableFrames, if old(bits)[0] then 1 else 0)
      ensures forall f :: 0 <= f < |bits| ==> bits[f] == (old(bits)[0 := true][f] || InBitmap(home, need, f))
    {
      ghost var lag := if bits[0] then 1 else 0;
      ProtectFrameZero();
      ProtectBitmap(home, need, lag);
    }

    // pmm_init.  With no frame below the top of RAM there is no bitmap byte to write, so the map must
    // hold a frame of RAM, or no usable region at all.
    method Init(regions: seq<Region>)
      requires hint == 0 && UsableTotal(regions) < TWO_64
      requires Top(regions) > 0 || Home(regions, 0).None?
      modifies this
      ensures Valid()
      ensures frames == Top(regions) && usableFrames == UsableTotal(regions) && totalFrames == RamTotal(regions)
      ensures match Home(regions, BitmapFrames(regions))
              case None => bitmap == null && freeFrames == 0 && usedFrames == usableFrames
              case Some(home) =>
                && bitmap != null && bitmapFrame == home && View() == InitPool(regions, home)
                && bitmap.Length == BitmapBytes(frames) <= BitmapFrames(regions) * PAGE_SIZE < bitmap.Length + PAGE_SIZE
    {
      BitmapFits(Top(regions));
      TopFits(regions);
      var maxAddr, usable, ram := Survey(regions);
      frames := maxAddr / PAGE_SIZE;
      totalFrames, usableFrames := ram, usable;
      var need := BitmapSize(frames);
      var home := PlaceBitmap(regions, need);
      if home.None? {
        bitmap, freeFrames, usedFrames := null, 0, usable;
        bits := seq(frames, _ => true);
        return;
      }
      bitmapFrame := home.value;
      Populate(regions, home.value, need);
    }
  }
}

/**
 The physical frame allocator as a value: the bitmap, the next-fit hint and the two counters,
 with the allocator's operations as functions of that value.  `FrameAllocator` proves that the
 loops over the byte bitmap compute exactly these functions.
 */
module FramePool {
  import opened Prelude

  // bits[f] is true when frame f is in use.
  datatype Pool = Pool(bits: seq<bool>, hint: nat, free: nat, used: nat)

  // A block of physically contiguous frames handed out by the allocator.
  datatype Block = Block(start: nat, count: nat) {
    predicate Disjoint(other: Block) {
      start + count <= other.start || other.start + other.count <= start
    }
  }

  // ---- Runs of clear bits ----

  ghost predicate FreeRun(bits: seq<bool>, s: nat, n: nat) {
    s + n <= |bits| && forall i :: s <= i < s + n ==> !bits[i]
  }

  predicate Aligned(frame: nat, alignment: nat)
    requires alignment > 0
  {
    (frame * PAGE_SIZE) % alignment == 0
  }

  // A block of `count` frames may be placed at `s`.
  ghost predicate Fits(bits: seq<bool>, s: nat, count: nat, alignment: nat)
    requires alignment > 0
  {
    Aligned(s, alignment) && FreeRun(bits, s, count)
  }

  lemma EveryFrameIsPageAligned(frame: nat)
    ensures Aligned(frame, PAGE_SIZE)
  {
  }

  function SetRange(bits: seq<bool>, s: nat, n: nat, value: bool): (r: seq<bool>)
    requires s + n <= |bits|
    ensures |r| == |bits|
    ensures forall i :: 0 <= i < |bits| ==> r[i] == if s <= i < s + n then value else bits[i]
  {
    seq(|bits|, i requires 0 <= i < |bits| => if s <= i < s + n then value else bits[i])
  }

  // The lowest position at or after `from` where the block fits.
  ghost function FirstFit(bits: seq<bool>, from: nat, count: nat, alignment: nat): Option<nat>
    requires alignment > 0
    decreases |bits| - from
  {
    if from + count > |bits| || from >= |bits| then None
    else if Fits(bits, from, count, alignment) then Some(from)
    else FirstFit(bits, from + 1, count, alignment)
  }

  // Next fit: first fit from the hint to the end of the bitmap, then first fit from frame 0.
  ghost function NextFit(bits: seq<bool>, hint: nat, count: nat, alignment: nat): Option<nat>
    requires alignment > 0
  {
    var ahead := FirstFit(bits, hint, count, alignment);
    if ahead.Some? then ahead else FirstFit(bits, 0, count, alignment)
  }

  lemma {:induction false} FirstFitIsLeast(bits: seq<bool>, from: nat, count: nat, alignment: nat)
    requires alignment > 0 && count > 0
    ensures var r := FirstFit(bits, from, count, alignment);
            match r
            case Some(s) =>
              && from <= s && Fits(bits, s, count, alignment)
              && forall j :: from <= j < s ==> !Fits(bits, j, count, alignment)
            case None =>
              forall j :: from <= j ==> !Fits(bits, j, count, alignment)
    decreases |bits| - from
  {
    if from + count <= |bits| && from < |bits| && !Fits(bits, from, count, alignment) {
      FirstFitIsLeast(bits, from + 1, count, alignment);
    }
  }

  lemma {:induction false} LeastIsFirstFit(bits: seq<bool>, from: nat, s: nat, count: nat, alignment: nat)
    requires alignment > 0 && count > 0
    requires from <= s && Fits(bits, s, count, alignment)
    requires forall j :: from <= j < s ==> !Fits(bits, j, count, alignment)
    ensures FirstFit(bits, from, count, alignment) == Some(s)
    decreases s - from
  {
    if from < s {
      LeastIsFirstFit(bits, from + 1, s, count, alignment);
    }
  }

  // ---- Counting clear bits ----

  function ClearCount(bits: seq<bool>): (n: nat)
    ensures n <= |bits|
  {
    if bits == [] then 0
    else ClearCount(bits[..|bits| - 1]) + if bits[|bits| - 1] then 0 else 1
  }

  lemma {:induction false} ClearBitCounts(bits: seq<bool>, f: nat)
    requires f < |bits| && !bits[f]
    ensures ClearCount(bits) > 0
  {
    if f < |bits| - 1 {
      ClearBitCounts(bits[..|bits| - 1], f);
    }
  }

  lemma {:induction false} ClearCountAppend(a: seq<bool>, b: seq<bool>)
    ensures ClearCount(a + b) == ClearCount(a) + ClearCount(b)
  {
    if b == [] {
      assert a + b == a;
    } else {
      ClearCountAppend(a, b[..|b| - 1]);
      assert (a + b)[..|a + b| - 1] == a + b[..|b| - 1];
    }
  }

  lemma {:induction false} ClearCountConstant(n: nat, value: bool)
    ensures ClearCount(seq(n, _ => value)) == if value then 0 else n
  {
    if n > 0 {
      ClearCountConstant(n - 1, value);
      assert seq(n, _ => value)[..n - 1] == seq(n - 1, _ => value);
    }
  }

  lemma SetRangeSplits(bits: seq<bool>, s: nat, n: nat, value: bool)
    requires s + n <= |bits|
    ensures SetRange(bits, s, n, value) == bits[..s] + seq(n, _ => value) + bits[s + n..]
    ensures bits == bits[..s] + bits[s..s + n] + bits[s + n..]
  {
  }

  lemma ClearCountSetRange(bits: seq<bool>, s: nat, n: nat, value: bool)
    requires s + n <= |bits|
    ensures ClearCount(SetRange(bits, s, n, value))
         == ClearCount(bits) - ClearCount(bits[s..s + n]) + if value then 0 else n
  {
    SetRangeSplits(bits, s, n, value);
    ClearCountThree(bits[..s], seq(n, _ => value), bits[s + n..]);
    ClearCountConstant(n, value);
    ClearCountThree(bits[..s], bits[s..s + n], bits[s + n..]);
  }

  lemma ClearCountThree(a: seq<bool>, b: seq<bool>, c: seq<bool>)
    ensures ClearCount(a + b + c) == ClearCount(a) + ClearCount(b) + ClearCount(c)
  {
    ClearCountAppend(a + b, c);
    ClearCountAppend(a, b);
  }

  lemma ClearCountUniform(bits: seq<bool>, s: nat, n: nat, value: bool)
    requires s + n <= |bits|
    requires forall i :: s <= i < s + n ==> bits[i] == value
    ensures ClearCount(bits[s..s + n]) == if value then 0 else n
  {
    assert bits[s..s + n] == seq(n, _ => value);
    ClearCountConstant(n, value);
  }

  lemma ClearCountUpdate(bits: seq<bool>, f: nat, value: bool)
    requires f < |bits|
    ensures ClearCount(bits[f := value])
         == ClearCount(bits) - (if bits[f] then 0 else 1) + (if value then 0 else 1)
  {
    assert bits[f := value] == SetRange(bits, f, 1, value);
    ClearCountSetRange(bits, f, 1, value);
    ClearCountUniform(bits, f, 1, bits[f]);
  }

  // ---- Operations ----

  // pmm_alloc_frames_aligned; pmm_alloc_frames is the case of page alignment.
  ghost function Alloc(p: Pool, count: nat, alignment: nat): (Pool, Option<nat>) {
    if count == 0 || p.free < count || alignment == 0 then (p, None)
    else
      match NextFit(p.bits, p.hint, count, Max(alignment, PAGE_SIZE))
      case None => (p, None)
      case Some(s) =>
        NextFitFits(p.bits, p.hint, count, Max(alignment, PAGE_SIZE));
        (Take(p, s, count), Some(s * PAGE_SIZE))
  }

  // The pool after the block [s, s + count) is marked used.
  function Take(p: Pool, s: nat, count: nat): Pool
    requires 0 < count && s + count <= |p.bits|
  {
    Pool(SetRange(p.bits, s, count, true),
         (s + count) % |p.bits|,
         Wrap64(p.free - count),
         Wrap64(p.used + count))
  }

  // The hint is moved behind the block, round the end of the bitmap.
  lemma TakeHint(p: Pool, s: nat, count: nat)
    requires 0 < count && s + count <= |p.bits|
    ensures Take(p, s, count).hint == if s + count < |p.bits| then s + count else 0
  {
    if s + count < |p.bits| {
      SmallMod(s + count, |p.bits|);
    }
  }

  // The part of a freed range that lies inside the bitmap.
  function Clip(p: Pool, addr: nat, count: nat): (b: Block)
    ensures b.start + b.count <= |p.bits|
  {
    var frame := addr / PAGE_SIZE;
    if frame >= |p.bits| then Block(|p.bits|, 0)
    else Block(frame, if frame + count <= |p.bits| then count else |p.bits| - frame)
  }

  // pmm_free_frames: every set bit of the range is cleared and counted, every clear one is skipped.
  function Free(p: Pool, addr: nat, count: nat): Pool {
    ClearBlock(p, Clip(p, addr, count))
  }

  function ClearBlock(p: Pool, b: Block): Pool
    requires b.start + b.count <= |p.bits|
  {
    Recount(p, SetRange(p.bits, b.start, b.count, false))
  }

  // The pool with other bits, and its counters moved by the change in the number of clear bits.
  function Recount(p: Pool, bits: seq<bool>): Pool {
    var cleared := ClearCount(bits) - ClearCount(p.bits);
    Pool(bits, p.hint, Wrap64(p.free + cleared), Wrap64(p.used - cleared))
  }

  // A free makes clear, whatever the address and however long the range, `count` frames from the one with the byte at
  // `addr` on, as far as there are any; the hint stays.
  lemma FreeByAddress(p: Pool, addr: nat, count: nat, f: nat)
    requires f < |p.bits|
    ensures var q := Free(p, addr, count);
            && |q.bits| == |p.bits| && q.hint == p.hint
            && (q.bits[f] <==> p.bits[f] && !(addr < (f + 1) * PAGE_SIZE <= addr + count * PAGE_SIZE))
  {
    FrameByAddress(addr, count, f);
  }

  lemma FrameByAddress(addr: nat, count: nat, f: nat)
    ensures addr < (f + 1) * PAGE_SIZE <= addr + count * PAGE_SIZE <==> addr / PAGE_SIZE <= f < addr / PAGE_SIZE + count
  {
    var n := addr / PAGE_SIZE;
    assert n * PAGE_SIZE <= addr < (n + 1) * PAGE_SIZE;
  }

  lemma NextFitFits(bits: seq<bool>, hint: nat, count: nat, alignment: nat)
    requires alignment > 0 && count > 0
    ensures var r := NextFit(bits, hint, count, alignment);
            match r
            case Some(s) => Fits(bits, s, count, alignment)
            case None => forall j: nat :: !Fits(bits, j, count, alignment)
  {
    FirstFitIsLeast(bits, hint, count, alignment);
    FirstFitIsLeast(bits, 0, count, alignment);
  }

  // ---- What the allocator promises about one call ----

  // The search is complete: whatever the hint is, a block that fits somewhere is found.
  lemma AllocComplete(p: Pool, count: nat, alignment: nat, s: nat)
    requires 0 < count <= p.free && alignment > 0
    requires Fits(p.bits, s, count, Max(alignment, PAGE_SIZE))
    ensures Alloc(p, count, alignment).1.Some?
  {
    NextFitFits(p.bits, p.hint, count, Max(alignment, PAGE_SIZE));
  }

  // pmm_alloc_frames(count) is refused.
  ghost predicate Refused(bits: seq<bool>, free: nat, count: nat) {
    count == 0 || free < count || forall s :: !FreeRun(bits, s, count)
  }

  // What is left to hand out: the bitmap and the counter of free frames, which both have a say.
  datatype Stock = Stock(bits: seq<bool>, counter: nat) {
    // How many single frames can be had.
    function Avail(): nat {
      Min(counter, ClearCount(bits))
    }

    ghost predicate Refuses(count: nat) {
      Refused(bits, counter, count)
    }
  }

  lemma RefusesOne(a: Stock)
    ensures a.Refuses(1) <==> a.Avail() == 0
  {
    if a.Refuses(1) {
      if 0 < a.counter {
        forall f | 0 <= f < |a.bits|
          ensures a.bits[f]
        {
          assert !FreeRun(a.bits, f, 1);
        }
        assert a.bits[0..|a.bits|] == a.bits;
        ClearCountUniform(a.bits, 0, |a.bits|, true);
      }
    } else {
      var f :| FreeRun(a.bits, f, 1);
      ClearBitCounts(a.bits, f);
    }
  }

  // Exactly k frames have been taken.
  predicate Took(a: Stock, b: Stock, k: nat) {
    |b.bits| == |a.bits| && a.counter == b.counter + k && ClearCount(a.bits) == ClearCount(b.bits) + k
  }

  lemma TookTwice(a: Stock, b: Stock, c: Stock, m: nat, n: nat)
    requires Took(a, b, m) && Took(b, c, n)
    ensures Took(a, c, m + n) && m <= a.Avail() && b.Avail() == a.Avail() - m
  {
  }

  lemma TookThenGave(a: Stock, b: Stock, c: Stock, d: Stock, m: nat, n: nat)
    requires Took(a, b, m) && Took(b, c, n) && Took(d, c, m)
    ensures Took(a, d, n) && m <= a.Avail()
  {
  }

  // x frames were taken, and then y more, or as many as there were beside n that are kept back.
  lemma TookTheRest(a: Stock, b: Stock, c: Stock, x: nat, y: nat, n: nat)
    requires Took(a, b, x) && n <= b.Avail() && Took(b, c, Min(y, b.Avail() - n))
    ensures n <= a.Avail() && Took(a, c, Min(x + y, a.Avail() - n))
    ensures b.Avail() < n + y <==> a.Avail() < x + y + n
  {
  }

  // A single frame cannot be had only when the counter or the bitmap says that none is left.
  lemma OneFrameFails(p: Pool)
    requires Alloc(p, 1, PAGE_SIZE).1.None?
    ensures p.free == 0 || forall f :: 0 <= f < |p.bits| ==> p.bits[f]
  {
    if p.free > 0 {
      forall f | 0 <= f < |p.bits|
        ensures p.bits[f]
      {
        if !p.bits[f] {
          EveryFrameIsPageAligned(f);
          AllocComplete(p, 1, PAGE_SIZE, f);
        }
      }
    }
  }

  // A single frame is had exactly when the counter and the bitmap both have one.
  lemma OneFrameExact(p: Pool)
    ensures Alloc(p, 1, PAGE_SIZE).1.Some? <==> 0 < Min(p.free, ClearCount(p.bits))
  {
    if Alloc(p, 1, PAGE_SIZE).1.Some? {
      AllocSound(p, 1, PAGE_SIZE);
    } else {
      OneFrameFails(p);
      if p.free > 0 {
        assert p.bits[0..|p.bits|] == p.bits;
        ClearCountUniform(p.bits, 0, |p.bits|, true);
      }
    }
  }

  lemma BlockFails(p: Pool, count: nat)
    requires Alloc(p, count, PAGE_SIZE).1.None?
    ensures count == 0 || p.free < count || forall s :: !FreeRun(p.bits, s, count)
  {
    if 0 < count <= p.free {
      forall s: nat
        ensures !FreeRun(p.bits, s, count)
      {
        if FreeRun(p.bits, s, count) {
          EveryFrameIsPageAligned(s);
          AllocComplete(p, count, PAGE_SIZE, s);
        }
      }
    }
  }

  // The pool q results from marking the free block b of the pool p as used.
  ghost predicate Takes(p: Pool, q: Pool, b: Block) {
    && 0 < b.count && FreeRun(p.bits, b.start, b.count)
    && |q.bits| == |p.bits| && q.hint < |q.bits|
    && (forall i :: 0 <= i < |p.bits| ==> q.bits[i] == (b.start <= i < b.start + b.count || p.bits[i]))
    && ClearCount(q.bits) == ClearCount(p.bits) - b.count
    && q.free == Wrap64(p.free - b.count) && q.used == Wrap64(p.used + b.count)
  }

  // The pool q results from clearing the block b of the pool p, all of whose bits were set.
  ghost predicate Gives(p: Pool, q: Pool, b: Block) {
    && b.start + b.count <= |p.bits| == |q.bits| && q.hint == p.hint
    && (forall i :: b.start <= i < b.start + b.count ==> p.bits[i])
    && (forall i :: 0 <= i < |p.bits| ==> q.bits[i] == (p.bits[i] && !(b.start <= i < b.start + b.count)))
    && ClearCount(q.bits) == ClearCount(p.bits) + b.count
    && q.free == Wrap64(p.free + b.count) && q.used == Wrap64(p.used - b.count)
  }

  function BlockAt(addr: nat, count: nat): Block {
    Block(addr / PAGE_SIZE, count)
  }

  lemma BlockOfFrame(s: nat, count: nat)
    ensures BlockAt(s * PAGE_SIZE, count) == Block(s, count)
  {
  }

  // A successful allocation takes one contiguous free block inside the bitmap, at an address that
  // is a multiple of the alignment and of the page size; a failed one changes nothing.
  lemma AllocSound(p: Pool, count: nat, alignment: nat)
    ensures var (q, r) := Alloc(p, count, alignment);
            if r.None? then q == p
            else
              && Takes(p, q, BlockAt(r.value, count))
              && count <= p.free
              && r.value == r.value / PAGE_SIZE * PAGE_SIZE
              && r.value % Max(alignment, PAGE_SIZE) == 0
  {
    var (q, r) := Alloc(p, count, alignment);
    if r.Some? {
      NextFitFits(p.bits, p.hint, count, Max(alignment, PAGE_SIZE));
      TakeTakes(p, r.value / PAGE_SIZE, count);
    }
  }

  // The same in terms of the stock, for one frame and for a block.
  lemma OneFrameTaken(p: Pool)
    requires p.free < TWO_64
    ensures var (q, r) := Alloc(p, 1, PAGE_SIZE);
            var a, b := Stock(p.bits, p.free), Stock(q.bits, q.free);
            if a.Avail() == 0 then r.None? && q == p
            else
              && r.Some? && Took(a, b, 1)
              && var g := r.value / PAGE_SIZE; g < |p.bits| && !p.bits[g] && q.bits == p.bits[g := true]
  {
    OneFrameExact(p);
    AllocSound(p, 1, PAGE_SIZE);
    var (q, r) := Alloc(p, 1, PAGE_SIZE);
    if r.Some? {
      SmallMod(p.free - 1, TWO_64);
      assert q.bits == p.bits[r.value / PAGE_SIZE := true];
    }
  }

  lemma BlockTaken(p: Pool, count: nat)
    requires p.free < TWO_64
    ensures var (q, r) := Alloc(p, count, PAGE_SIZE);
            var a, b := Stock(p.bits, p.free), Stock(q.bits, q.free);
            if a.Refuses(count) then r.None? && q == p
            else r.Some? && Took(a, b, count) && Takes(p, q, BlockAt(r.value, count))
  {
    AllocSound(p, count, PAGE_SIZE);
    var (q, r) := Alloc(p, count, PAGE_SIZE);
    if r.Some? {
      SmallMod(p.free - count, TWO_64);
      assert FreeRun(p.bits, r.value / PAGE_SIZE, count);
    } else {
      BlockFails(p, count);
    }
  }

  lemma TakeTakes(p: Pool, s: nat, count: nat)
    requires 0 < count && FreeRun(p.bits, s, count)
    ensures Takes(p, Take(p, s, count), Block(s, count))
  {
    ClearCountSetRange(p.bits, s, count, true);
    ClearCountUniform(p.bits, s, count, false);
  }

  // Freeing a block whose bits are all set clears exactly that block.
  lemma FreeSound(p: Pool, b: Block)
    requires 0 < b.count && b.start + b.count <= |p.bits|
    requires forall i :: b.start <= i < b.start + b.count ==> p.bits[i]
    ensures Gives(p, Free(p, b.start * PAGE_SIZE, b.count), b)
  {
    assert Clip(p, b.start * PAGE_SIZE, b.count) == b;
    ClearBlockGives(p, b);
  }

  // The same in terms of the stock.
  lemma BlockGiven(p: Pool, b: Block)
    requires 0 < b.count && b.start + b.count <= |p.bits| && p.free + b.count < TWO_64
    requires forall i :: b.start <= i < b.start + b.count ==> p.bits[i]
    ensures var q := Free(p, b.start * PAGE_SIZE, b.count);
            Gives(p, q, b) && Took(Stock(q.bits, q.free), Stock(p.bits, p.free), b.count)
  {
    FreeSound(p, b);
    SmallMod(p.free + b.count, TWO_64);
  }

  lemma ClearBlockGives(p: Pool, b: Block)
    requires b.start + b.count <= |p.bits|
    requires forall i :: b.start <= i < b.start + b.count ==> p.bits[i]
    ensures Gives(p, ClearBlock(p, b), b)
  {
    ClearCountSetRange(p.bits, b.start, b.count, false);
    ClearCountUniform(p.bits, b.start, b.count, true);
  }

  // Clearing a range one frame at a time, skipping the frames that are clear already.
  function ClearFrame(p: Pool, f: nat): Pool
    requires f < |p.bits|
  {
    if p.bits[f] then Pool(p.bits[f := false], p.hint, Wrap64(p.free + 1), Wrap64(p.used - 1)) else p
  }

  // The reverse step, with which pmm_init protects the bitmap's own frames.
  function HoldFrame(p: Pool, f: nat): Pool
    requires f < |p.bits|
  {
    if p.bits[f] then p else Pool(p.bits[f := true], p.hint, Wrap64(p.free - 1), Wrap64(p.used + 1))
  }

  function ClearFrames(p: Pool, start: nat, i: nat): (q: Pool)
    requires start + i <= |p.bits|
    ensures |q.bits| == |p.bits|
  {
    if i == 0 then p else ClearFrame(ClearFrames(p, start, i - 1), start + i - 1)
  }

  lemma {:induction false} ClearFramesIsClearBlock(p: Pool, start: nat, i: nat)
    requires start + i <= |p.bits| && p.free < TWO_64 && p.used < TWO_64
    ensures ClearFrames(p, start, i) == ClearBlock(p, Block(start, i))
  {
    if i == 0 {
      ClearNothing(p, start);
    } else {
      ClearFramesIsClearBlock(p, start, i - 1);
      var q := ClearBlock(p, Block(start, i - 1));
      assert ClearFrames(p, start, i) == ClearFrame(q, start + i - 1);
      ClearOneMore(p, start, i - 1);
    }
  }

  lemma ClearNothing(p: Pool, start: nat)
    requires start <= |p.bits| && p.free < TWO_64 && p.used < TWO_64
    ensures ClearBlock(p, Block(start, 0)) == p
  {
    assert SetRange(p.bits, start, 0, false) == p.bits;
  }

  lemma ClearOneMore(p: Pool, start: nat, i: nat)
    requires start + i < |p.bits|
    ensures ClearBlock(p, Block(start, i + 1)) == ClearFrame(ClearBlock(p, Block(start, i)), start + i)
  {
    var bits := SetRange(p.bits, start, i, false);
    assert SetRange(p.bits, start, i + 1, false) == bits[start + i := false];
    RecountStep(p, bits, start + i);
  }

  lemma RecountStep(p: Pool, bits: seq<bool>, f: nat)
    requires f < |bits|
    ensures Recount(p, bits[f := false]) == ClearFrame(Recount(p, bits), f)
  {
    ClearCountUpdate(bits, f, false);
    if bits[f] {
      var d := ClearCount(bits) - ClearCount(p.bits);
      Wrap64Add(p.free + d, 1);
      Wrap64Add(p.used - d, -1);
    } else {
      assert bits[f := false] == bits;
    }
  }
}

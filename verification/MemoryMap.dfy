/**
 The boot memory map and the pool that pmm_init must build from it.
 */
module MemoryMap {
  import opened Prelude
  import opened FramePool
  import opened FrameLedger

  const USABLE: nat := 0
  const ACPI_RECLAIMABLE: nat := 2
  const BOOTLOADER_RECLAIMABLE: nat := 5

  // One entry of the boot loader's memory map.
  datatype Region = Region(base: nat, length: nat, kind: nat) {
    // The frames lying wholly inside the region are [First(), End()), in 64-bit arithmetic.
    function First(): nat {
      Wrap64(base + PAGE_SIZE - 1) / PAGE_SIZE
    }

    function Limit(): nat {
      Wrap64(base + length)
    }

    function End(): nat {
      Limit() / PAGE_SIZE
    }

    function Size(): nat {
      if First() < End() then End() - First() else 0
    }

    predicate IsRam() {
      kind == USABLE || kind == BOOTLOADER_RECLAIMABLE || kind == ACPI_RECLAIMABLE
    }

    predicate Offers(f: nat) {
      kind == USABLE && First() <= f < End()
    }

    // A usable region with room for `need` frames from its first page boundary.
    predicate Holds(need: nat) {
      kind == USABLE && First() * PAGE_SIZE < Limit() && First() * PAGE_SIZE + need * PAGE_SIZE <= Limit()
    }
  }

  // Frame f lies wholly inside a usable region.
  ghost predicate Usable(regions: seq<Region>, f: nat) {
    exists i :: 0 <= i < |regions| && regions[i].Offers(f)
  }

  function Top(regions: seq<Region>): nat {
    if regions == [] then 0
    else
      var r := regions[|regions| - 1];
      Max(Top(regions[..|regions| - 1]), if r.IsRam() then r.End() else 0)
  }

  function UsableTotal(regions: seq<Region>): nat {
    if regions == [] then 0
    else
      var r := regions[|regions| - 1];
      UsableTotal(regions[..|regions| - 1]) + if r.kind == USABLE then r.Size() else 0
  }

  function RamTotal(regions: seq<Region>): nat {
    if regions == [] then 0
    else
      var r := regions[|regions| - 1];
      RamTotal(regions[..|regions| - 1]) + if r.IsRam() then r.Size() else 0
  }

  // The number of frames the bitmap occupies.
  function BitmapFrames(regions: seq<Region>): nat {
    BitmapSize(Top(regions))
  }

  // pmm_bitmap_bytes: one bit for each frame
  function BitmapBytes(frames: nat): (n: nat)
    ensures frames <= 8 * n < frames + 8
  {
    (frames + 7) / 8
  }

  // align_up(pmm_bitmap_bytes, PAGE_SIZE) in frames
  function BitmapSize(frames: nat): nat {
    (BitmapBytes(frames) + PAGE_SIZE - 1) / PAGE_SIZE
  }

  // The frame where the bitmap goes: the first usable region with room for it.
  function Home(regions: seq<Region>, need: nat): Option<nat> {
    if regions == [] then None
    else if regions[0].Holds(need) then Some(regions[0].First())
    else Home(regions[1..], need)
  }

  predicate InBitmap(home: nat, need: nat, f: nat) {
    home <= f < home + need
  }

  ghost function BitmapSet(home: nat, need: nat): set<nat> {
    set f: nat | home <= f < home + need && InBitmap(home, need, f)
  }

  // A usable frame other than frame 0 and the bitmap's own frames.
  ghost predicate Spare(regions: seq<Region>, home: nat, f: nat) {
    Usable(regions, f) && f != 0 && !InBitmap(home, BitmapFrames(regions), f)
  }

  // The clear bits are the spare frames.
  ghost function InitBits(regions: seq<Region>, home: nat): (bits: seq<bool>)
    ensures |bits| == Top(regions)
    ensures forall f :: 0 <= f < |bits| ==> (!bits[f] <==> Spare(regions, home, f))
  {
    seq(Top(regions), f requires 0 <= f => !Spare(regions, home, f))
  }

  // By how much the free counter trails the clear bits: pmm_init takes one frame off for frame 0
  // even when frame 0 was never usable.
  ghost function Lag(regions: seq<Region>): nat {
    if Usable(regions, 0) then 0 else 1
  }

  ghost function InitPool(regions: seq<Region>, home: nat): Pool {
    var bits := InitBits(regions, home);
    var free := ClearCount(bits) - Lag(regions);
    Pool(bits, 0, Wrap64(free), Wrap64(UsableTotal(regions) - free))
  }

  lemma PoolIsInit(regions: seq<Region>, home: nat, p: Pool)
    requires p.bits == InitBits(regions, home) && p.hint == 0
    requires Balanced(p, UsableTotal(regions), Lag(regions))
    ensures p == InitPool(regions, home)
  {
  }

  // ---- The entries in bytes ----

  // The frames of the bitmap hold its bytes, and one frame fewer would not.
  lemma BitmapFits(frames: nat)
    ensures var bytes, room := BitmapBytes(frames), BitmapSize(frames) * PAGE_SIZE; bytes <= room < bytes + PAGE_SIZE
  {
  }

  // No 64-bit sum overflows for the entry.
  predicate Plain(r: Region) {
    r.base + r.length < TWO_64 && r.base + PAGE_SIZE - 1 < TWO_64
  }

  // The byte at `addr` lies in the entry.
  predicate Within(r: Region, addr: nat) {
    r.base <= addr < r.base + r.length
  }

  // An entry offers exactly the frames that lie in it from their first byte to their last.
  lemma OffersExact(r: Region, f: nat)
    requires Plain(r) && r.kind == USABLE
    ensures r.Offers(f) <==> forall addr :: f * PAGE_SIZE <= addr < (f + 1) * PAGE_SIZE ==> Within(r, addr)
  {
    BoundsExact(r, f);
    if r.base <= f * PAGE_SIZE && (f + 1) * PAGE_SIZE <= r.base + r.length {
    } else {
      var first, last := f * PAGE_SIZE, (f + 1) * PAGE_SIZE - 1;
      assert first <= last < (f + 1) * PAGE_SIZE;
      assert !Within(r, first) || !Within(r, last);
    }
  }

  lemma BoundsExact(r: Region, f: nat)
    requires Plain(r)
    ensures r.First() <= f <==> r.base <= f * PAGE_SIZE
    ensures f < r.End() <==> (f + 1) * PAGE_SIZE <= r.base + r.length
  {
    SmallMod(r.base + PAGE_SIZE - 1, TWO_64);
    SmallMod(r.base + r.length, TWO_64);
    RoundUp(r.base, f);
    RoundDown(r.base + r.length, f);
  }

  lemma RoundUp(a: nat, f: nat)
    ensures (a + PAGE_SIZE - 1) / PAGE_SIZE <= f <==> a <= f * PAGE_SIZE
  {
  }

  lemma RoundDown(a: nat, f: nat)
    ensures f < a / PAGE_SIZE <==> (f + 1) * PAGE_SIZE <= a
  {
  }

  // An entry in which `bytes` bytes fit behind a page boundary at or after its base, at frame `at`.
  predicate Takes(r: Region, at: nat, bytes: nat) {
    && r.kind == USABLE && r.base <= at * PAGE_SIZE < r.base + PAGE_SIZE
    && at * PAGE_SIZE < r.base + r.length && at * PAGE_SIZE + bytes <= r.base + r.length
  }

  lemma HoldsExact(r: Region, need: nat, at: nat)
    requires Plain(r)
    ensures Takes(r, at, need * PAGE_SIZE) <==> r.Holds(need) && at == r.First()
  {
    SmallMod(r.base + PAGE_SIZE - 1, TWO_64);
    SmallMod(r.base + r.length, TWO_64);
    RoundedOnce(r.base, at);
  }

  lemma RoundedOnce(a: nat, at: nat)
    ensures at == (a + PAGE_SIZE - 1) / PAGE_SIZE <==> a <= at * PAGE_SIZE < a + PAGE_SIZE
  {
  }

  // The bitmap goes to the first usable entry with room for it, and nowhere only if none has.
  lemma {:induction false} HomeIsFirst(regions: seq<Region>, need: nat)
    requires forall i :: 0 <= i < |regions| ==> Plain(regions[i])
    ensures match Home(regions, need)
            case None => forall i, at :: 0 <= i < |regions| ==> !Takes(regions[i], at, need * PAGE_SIZE)
            case Some(home) =>
              exists i :: && 0 <= i < |regions| && Takes(regions[i], home, need * PAGE_SIZE)
                          && forall j, at :: 0 <= j < i ==> !Takes(regions[j], at, need * PAGE_SIZE)
  {
    if regions != [] {
      var r, rest, bytes := regions[0], regions[1..], need * PAGE_SIZE;
      forall at: nat
        ensures Takes(r, at, bytes) <==> r.Holds(need) && at == r.First()
      {
        HoldsExact(r, need, at);
      }
      if r.Holds(need) {
        assert Takes(regions[0], r.First(), bytes);
      } else {
        HomeIsFirst(rest, need);
        match Home(regions, need)
        case None =>
          forall i, at | 0 <= i < |regions|
            ensures !Takes(regions[i], at, bytes)
          {
            assert i > 0 ==> regions[i] == rest[i - 1];
          }
        case Some(home) =>
          var k :| && 0 <= k < |rest| && Takes(rest[k], home, bytes)
                   && forall j, at :: 0 <= j < k ==> !Takes(rest[j], at, bytes);
          assert Takes(regions[k + 1], home, bytes);
          forall j, at | 0 <= j < k + 1
            ensures !Takes(regions[j], at, bytes)
          {
            assert j > 0 ==> regions[j] == rest[j - 1];
          }
      }
    }
  }

  // The bitmap reaches to the end of the highest RAM entry.
  lemma {:induction false} TopIsReached(regions: seq<Region>)
    ensures Top(regions) == 0 || exists i :: 0 <= i < |regions| && regions[i].IsRam() && regions[i].End() == Top(regions)
  {
    if regions != [] {
      var rest, last := regions[..|regions| - 1], |regions| - 1;
      TopIsReached(rest);
      if Top(rest) == Top(regions) {
        if i :| 0 <= i < |rest| && rest[i].IsRam() && rest[i].End() == Top(rest) {
          assert regions[i] == rest[i];
        }
      } else {
        assert regions[last].IsRam() && regions[last].End() == Top(regions);
      }
    }
  }

  // ---- Totals ----

  // No two usable entries have a frame in common.
  ghost predicate Separate(regions: seq<Region>) {
    forall i, j, f: nat :: 0 <= i < j < |regions| ==> !(regions[i].Offers(f) && regions[j].Offers(f))
  }

  // The usable total is the number of usable frames, unless entries overlap.
  lemma {:induction false} UsableTotalCounts(bits: seq<bool>, regions: seq<Region>)
    requires Separate(regions) && forall f: nat :: f < |bits| && !bits[f] <==> Usable(regions, f)
    ensures ClearCount(bits) == UsableTotal(regions)
    decreases |regions|
  {
    if regions == [] {
      if ClearCount(bits) > 0 {
        SomeBitIsClear(bits);
      }
    } else {
      var rest, r := regions[..|regions| - 1], regions[|regions| - 1];
      assert regions == rest + [r];
      var n := if r.kind == USABLE then r.Size() else 0;
      var s := if n == 0 then 0 else r.First();
      if n > 0 {
        assert r.Offers(s + n - 1);
        UsableExtend(rest, r, s + n - 1);
      }
      var without := SetRange(bits, s, n, true);
      forall f: nat
        ensures f < |without| && !without[f] <==> Usable(rest, f)
      {
        UsableExtend(rest, r, f);
        OfferedOnce(rest, r, f);
      }
      UsableTotalCounts(without, rest);
      ClearCountSetRange(bits, s, n, true);
      forall f | s <= f < s + n
        ensures !bits[f]
      {
        assert r.Offers(f);
        UsableExtend(rest, r, f);
      }
      ClearCountUniform(bits, s, n, false);
    }
  }

  lemma OfferedOnce(rest: seq<Region>, r: Region, f: nat)
    requires Separate(rest + [r])
    ensures !(Usable(rest, f) && r.Offers(f))
  {
    var all := rest + [r];
    forall i | 0 <= i < |rest|
      ensures !(rest[i].Offers(f) && r.Offers(f))
    {
      assert all[i] == rest[i] && all[|rest|] == r;
      assert !(all[i].Offers(f) && all[|rest|].Offers(f));
    }
  }

  // The entries with all RAM made usable, and nothing else.
  function AsUsable(regions: seq<Region>): (r: seq<Region>)
    ensures |r| == |regions|
  {
    if regions == [] then []
    else
      var r := regions[|regions| - 1];
      AsUsable(regions[..|regions| - 1]) + [r.(kind := if r.IsRam() then USABLE else USABLE + 1)]
  }

  // So the RAM total counts the frames of RAM in the same way.
  lemma {:induction false} RamTotalIsUsableTotal(regions: seq<Region>)
    ensures RamTotal(regions) == UsableTotal(AsUsable(regions))
  {
    if regions != [] {
      RamTotalIsUsableTotal(regions[..|regions| - 1]);
      assert AsUsable(regions)[..|regions| - 1] == AsUsable(regions[..|regions| - 1]);
    }
  }

  // ---- Lemmas ----

  lemma {:induction false} TopBounds(regions: seq<Region>, i: nat)
    requires i < |regions| && regions[i].IsRam()
    ensures regions[i].End() <= Top(regions)
  {
    if i < |regions| - 1 {
      TopBounds(regions[..|regions| - 1], i);
    }
  }

  lemma {:induction false} TopFits(regions: seq<Region>)
    ensures Top(regions) < TWO_64
  {
    if regions != [] {
      TopFits(regions[..|regions| - 1]);
    }
  }

  lemma UsableBelowTop(regions: seq<Region>, f: nat)
    requires Usable(regions, f)
    ensures f < Top(regions)
  {
    var i :| 0 <= i < |regions| && regions[i].Offers(f);
    TopBounds(regions, i);
  }

  lemma UsableExtend(regions: seq<Region>, r: Region, f: nat)
    ensures Usable(regions + [r], f) <==> Usable(regions, f) || r.Offers(f)
  {
    var all := regions + [r];
    if r.Offers(f) {
      assert all[|regions|].Offers(f);
    }
    if Usable(regions, f) {
      var i :| 0 <= i < |regions| && regions[i].Offers(f);
      assert all[i].Offers(f);
    }
  }

  // The bitmap's home lies wholly in usable memory.
  lemma {:induction false} HomeIsUsable(regions: seq<Region>, need: nat, f: nat)
    requires Home(regions, need).Some? && InBitmap(Home(regions, need).value, need, f)
    ensures Usable(regions, f)
  {
    if regions[0].Holds(need) {
      var r := regions[0];
      assert (r.First() + need) * PAGE_SIZE <= r.Limit();
      assert r.First() + need <= r.End();
      assert r.Offers(f);
    } else {
      HomeIsUsable(regions[1..], need, f);
      var i :| 0 <= i < |regions[1..]| && regions[1..][i].Offers(f);
      assert regions[i + 1].Offers(f);
    }
  }

  lemma {:induction false} SomeBitIsClear(bits: seq<bool>)
    requires ClearCount(bits) > 0
    ensures exists f :: 0 <= f < |bits| && !bits[f]
  {
    var last := |bits| - 1;
    if bits[last] {
      SomeBitIsClear(bits[..last]);
      var f :| 0 <= f < last && !bits[..last][f];
      assert !bits[f];
    }
  }

  // Clear bits that all lie in usable regions are no more than those regions' frames.
  lemma {:induction false} ClearWithinUsable(bits: seq<bool>, regions: seq<Region>)
    requires forall f :: 0 <= f < |bits| && !bits[f] ==> Usable(regions, f)
    ensures ClearCount(bits) <= UsableTotal(regions)
    decreases |regions|
  {
    if regions == [] {
      if ClearCount(bits) > 0 {
        SomeBitIsClear(bits);
      }
    } else {
      var rest, r := regions[..|regions| - 1], regions[|regions| - 1];
      assert regions == rest + [r];
      var s := if r.kind != USABLE || r.First() > |bits| then |bits| else r.First();
      var n := if r.kind != USABLE then 0 else if s + r.Size() <= |bits| then r.Size() else |bits| - s;
      var without := SetRange(bits, s, n, true);
      forall f | 0 <= f < |bits| && !without[f]
        ensures Usable(rest, f)
      {
        UsableExtend(rest, r, f);
      }
      ClearWithinUsable(without, rest);
      ClearCountSetRange(bits, s, n, true);
    }
  }

  // After the third pass the bitmap's own first frame is clear, so the free counter is positive when
  // frame 0 is taken off it.
  lemma OpenedPool(regions: seq<Region>, home: nat, cleared: seq<bool>)
    requires |cleared| == Top(regions) > 0 && Home(regions, BitmapFrames(regions)) == Some(home)
    requires forall f :: 0 <= f < |cleared| ==> (!cleared[f] <==> Usable(regions, f))
    ensures ClearCount(cleared) > 0
    ensures (if cleared[0] then 1 else 0) == Lag(regions)
  {
    HomeIsUsable(regions, BitmapFrames(regions), home);
    UsableBelowTop(regions, home);
    ClearBitCounts(cleared, home);
  }

  lemma ProtectedBits(regions: seq<Region>, home: nat, cleared: seq<bool>, bits: seq<bool>)
    requires |bits| == |cleared| == Top(regions) > 0
    requires forall f :: 0 <= f < |cleared| ==> (!cleared[f] <==> Usable(regions, f))
    requires forall f :: 0 <= f < |bits| ==>
               bits[f] == (cleared[0 := true][f] || InBitmap(home, BitmapFrames(regions), f))
    ensures bits == InitBits(regions, home)
  {
  }

  // The pool built at boot starts every run in a safe state, with frame 0 and the bitmap reserved.
  lemma InitIsSafe(regions: seq<Region>, home: nat)
    requires Home(regions, BitmapFrames(regions)) == Some(home) && Top(regions) > 0
    ensures Safe(Ledger(InitPool(regions, home), []), BitmapSet(home, BitmapFrames(regions)))
    ensures Balanced(InitPool(regions, home), UsableTotal(regions), Lag(regions))
  {
    var need := BitmapFrames(regions);
    var bits := InitBits(regions, home);
    forall f | f in BitmapSet(home, need)
      ensures f < |bits| && bits[f]
    {
      HomeIsUsable(regions, need, f);
      UsableBelowTop(regions, f);
      assert !Spare(regions, home, f);
    }
    assert !Spare(regions, home, 0);
  }

  lemma ClearIffSpare(regions: seq<Region>, home: nat)
    ensures ClearCount(InitBits(regions, home)) > 0 <==> exists f :: Spare(regions, home, f)
    ensures ClearCount(InitBits(regions, home)) <= UsableTotal(regions)
  {
    var bits := InitBits(regions, home);
    forall f | 0 <= f < |bits| && !bits[f]
      ensures Usable(regions, f)
    {
      assert Spare(regions, home, f);
    }
    ClearWithinUsable(bits, regions);
    if ClearCount(bits) > 0 {
      SomeBitIsClear(bits);
      var f: nat :| f < |bits| && !bits[f];
      assert Spare(regions, home, f);
    }
    if f: nat :| Spare(regions, home, f) {
      UsableBelowTop(regions, f);
      ClearBitCounts(bits, f);
    }
  }

  // The counters are exact after boot if and only if frame 0 is usable or some usable frame is left
  // over once the bitmap has been placed.  Otherwise the free counter wraps below zero.
  lemma InitCountersExact(regions: seq<Region>, home: nat)
    requires UsableTotal(regions) < TWO_64
    ensures Exact(InitPool(regions, home), UsableTotal(regions), Lag(regions))
            <==> (Usable(regions, 0) || exists f :: Spare(regions, home, f))
  {
    ClearIffSpare(regions, home);
    BalancedExact(InitPool(regions, home), UsableTotal(regions), Lag(regions));
  }

  // One usable page that is not frame 0: the bitmap takes it, and the free counter, which should be
  // zero, reads 2^64 - 1.
  lemma InitUnderflows()
    ensures var regions := [Region(PAGE_SIZE, PAGE_SIZE, USABLE)];
            && Home(regions, BitmapFrames(regions)) == Some(1)
            && ClearCount(InitPool(regions, 1).bits) == 0
            && InitPool(regions, 1).free == TWO_64 - 1
  {
    var r := Region(PAGE_SIZE, PAGE_SIZE, USABLE);
    var regions := [r];
    assert regions[..0] == [];
    assert r.First() == 1 && r.End() == 2;
    assert Top(regions) == 2 && BitmapFrames(regions) == 1;
    forall f: nat
      ensures Usable(regions, f) <==> f == 1
      ensures !Spare(regions, 1, f)
    {
      assert regions[0].Offers(f) <==> f == 1;
    }
    ClearIffSpare(regions, 1);
  }

  // The byte at `addr` belongs to the block, or to the bitmap.
  predicate HasByte(b: Block, addr: nat) {
    b.start * PAGE_SIZE <= addr < (b.start + b.count) * PAGE_SIZE
  }

  predicate BitmapByte(regions: seq<Region>, home: nat, addr: nat) {
    home * PAGE_SIZE <= addr < home * PAGE_SIZE + BitmapBytes(Top(regions))
  }

  // A block that avoids the reserved frames avoids every byte of the bitmap.
  lemma BitmapIsApart(regions: seq<Region>, home: nat, l: Ledger)
    requires Safe(l, BitmapSet(home, BitmapFrames(regions)))
    ensures forall i, addr: nat :: 0 <= i < |l.live| && HasByte(l.live[i], addr) ==> !BitmapByte(regions, home, addr)
  {
    var need := BitmapFrames(regions);
    BitmapFits(Top(regions));
    forall i, addr: nat | 0 <= i < |l.live| && HasByte(l.live[i], addr)
      ensures !BitmapByte(regions, home, addr)
    {
      var b, f := l.live[i], addr / PAGE_SIZE;
      assert Held(l.pool.bits, b, BitmapSet(home, need));
      FrameOfByte(addr, b.start, b.start + b.count);
      assert f !in BitmapSet(home, need);
      if BitmapByte(regions, home, addr) {
        FrameOfByte(addr, home, home + need);
      }
    }
  }

  lemma FrameOfByte(addr: nat, first: nat, end: nat)
    requires first * PAGE_SIZE <= addr < end * PAGE_SIZE
    ensures first <= addr / PAGE_SIZE < end
  {
  }

  // The first block handed out after boot is at the least place of all where it fits.
  lemma FirstFromBoot(regions: seq<Region>, home: nat, refused: seq<Op>, next: Op)
    requires Home(regions, BitmapFrames(regions)) == Some(home) && Top(regions) > 0 && UsableTotal(regions) < TWO_64
    requires var start := Ledger(InitPool(regions, home), []);
             Quiet(start, refused) && Granted(Run(start, refused), next).Some?
    ensures var m := Run(Ledger(InitPool(regions, home), []), refused);
            var s := Granted(m, next).value.start;
            && 0 < next.alignment && Fits(m.pool.bits, s, next.count, Max(next.alignment, PAGE_SIZE))
            && forall r :: 0 <= r < s ==> !Fits(m.pool.bits, r, next.count, Max(next.alignment, PAGE_SIZE))
  {
    var start := Ledger(InitPool(regions, home), []);
    QuietKeepsHint(start, refused);
    GrantedIsPlaced(Run(start, refused), next);
  }


  // The main theorem of the allocator: after boot on any memory map, through any run of allocations
  // and releases, no block overlaps another, frame 0 or a byte of the bitmap, no frame is gained or lost, and
  // free + used = usable exactly, unless the bitmap left no spare frame, when the pool never changes.
  lemma RunFromBoot(regions: seq<Region>, home: nat, ops: seq<Op>)
    requires Home(regions, BitmapFrames(regions)) == Some(home) && Top(regions) > 0
    requires UsableTotal(regions) < TWO_64
    ensures var start := Ledger(InitPool(regions, home), []);
            var end := Run(start, ops);
            && Safe(end, BitmapSet(home, BitmapFrames(regions)))
            && (forall i, addr: nat :: 0 <= i < |end.live| && HasByte(end.live[i], addr) ==> !BitmapByte(regions, home, addr))
            && Capacity(end) == Capacity(start)
            && (if Usable(regions, 0) || exists f :: Spare(regions, home, f)
                then Exact(end.pool, UsableTotal(regions), Lag(regions))
                else end == start)
  {
    var start := Ledger(InitPool(regions, home), []);
    var reserved := BitmapSet(home, BitmapFrames(regions));
    InitIsSafe(regions, home);
    RunIsSafe(start, ops, reserved, UsableTotal(regions), Lag(regions));
    BitmapIsApart(regions, home, Run(start, ops));
    InitCountersExact(regions, home);
    ClearIffSpare(regions, home);
    if Usable(regions, 0) || exists f :: Spare(regions, home, f) {
      RunKeepsCountersExact(start, ops, reserved, UsableTotal(regions), Lag(regions));
    } else {
      ExhaustedPoolIsStuck(start, ops);
    }
  }
}

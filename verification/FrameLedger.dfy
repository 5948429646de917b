/**
 Whole runs of the frame allocator.  A ledger pairs the pool with the blocks its clients hold; a
 run is any sequence of allocations and of releases of held blocks.
 */
module FrameLedger {
  import opened Prelude
  import opened FramePool

  datatype Ledger = Ledger(pool: Pool, live: seq<Block>)

  datatype Op =
    | Allocate(count: nat, alignment: nat)
    | Release(index: nat)  // give back the block live[index]

  ghost function Apply(l: Ledger, op: Op): Ledger {
    match op
    case Allocate(count, alignment) =>
      var (pool, r) := Alloc(l.pool, count, alignment);
      Ledger(pool, if r.Some? then l.live + [BlockAt(r.value, count)] else l.live)
    case Release(i) =>
      if i < |l.live| then
        Ledger(Free(l.pool, l.live[i].start * PAGE_SIZE, l.live[i].count), l.live[..i] + l.live[i + 1..])
      else l
  }

  ghost function Run(l: Ledger, ops: seq<Op>): Ledger
    decreases |ops|
  {
    if ops == [] then l else Run(Apply(l, ops[0]), ops[1..])
  }

  // Frame 0 and the reserved frames are in use, and so is every frame of a held block; held blocks
  // avoid frame 0 and the reserved frames and never overlap.
  ghost predicate Safe(l: Ledger, reserved: set<nat>) {
    var bits := l.pool.bits;
    && |bits| > 0 && bits[0] && l.pool.hint < |bits|
    && (forall f :: f in reserved ==> f < |bits| && bits[f])
    && (forall i :: 0 <= i < |l.live| ==> Held(bits, l.live[i], reserved))
    && (forall i, j :: 0 <= i < j < |l.live| ==> l.live[i].Disjoint(l.live[j]))
  }

  ghost predicate Held(bits: seq<bool>, b: Block, reserved: set<nat>) {
    && 0 < b.start && 0 < b.count && b.start + b.count <= |bits|
    && (forall f :: b.start <= f < b.start + b.count ==> bits[f])
    && (forall f :: f in reserved ==> !(b.start <= f < b.start + b.count))
  }

  function Total(live: seq<Block>): nat {
    if live == [] then 0 else Total(live[..|live| - 1]) + live[|live| - 1].count
  }

  // Clear bits and held frames together.
  function Capacity(l: Ledger): nat {
    ClearCount(l.pool.bits) + Total(l.live)
  }

  // The counters as the bitmap dictates them: `free` lags the clear bits by the constant `lag`.
  ghost predicate Balanced(p: Pool, usable: nat, lag: nat) {
    && p.free == Wrap64(ClearCount(p.bits) - lag)
    && p.used == Wrap64(usable - (ClearCount(p.bits) - lag))
  }

  // Balanced, and no counter has wrapped around.
  ghost predicate Exact(p: Pool, usable: nat, lag: nat) {
    && lag <= ClearCount(p.bits)
    && p.free == ClearCount(p.bits) - lag
    && p.free + p.used == usable
  }

  // Balanced counters are exact if and only if the clear bits cover the lag.
  lemma BalancedExact(p: Pool, usable: nat, lag: nat)
    requires Balanced(p, usable, lag) && lag <= 1 && ClearCount(p.bits) <= usable < TWO_64
    ensures Exact(p, usable, lag) <==> lag <= ClearCount(p.bits)
  {
    Wrap64Exact(ClearCount(p.bits) - lag, usable);
  }

  lemma {:induction false} TotalAppend(a: seq<Block>, b: seq<Block>)
    ensures Total(a + b) == Total(a) + Total(b)
  {
    if b == [] {
      assert a + b == a;
    } else {
      TotalAppend(a, b[..|b| - 1]);
      assert (a + b)[..|a + b| - 1] == a + b[..|b| - 1];
    }
  }

  lemma TotalRemove(live: seq<Block>, i: nat)
    requires i < |live|
    ensures Total(live[..i] + live[i + 1..]) == Total(live) - live[i].count
  {
    SplitAt(live, i);
    TotalWithout(live[..i], live[i], live[i + 1..]);
  }

  lemma SplitAt(live: seq<Block>, i: nat)
    requires i < |live|
    ensures live == live[..i] + [live[i]] + live[i + 1..]
  {
  }

  lemma TotalWithout(a: seq<Block>, b: Block, c: seq<Block>)
    ensures Total(a + c) == Total(a + [b] + c) - b.count
  {
    TotalAppend(a + [b], c);
    TotalAppend(a, [b]);
    TotalAppend(a, c);
  }

  // ---- Allocation ----

  // A block taken from a safe pool overlaps no held block, no reserved frame and not frame 0.
  lemma TakenIsFresh(l: Ledger, q: Pool, b: Block, reserved: set<nat>)
    requires Safe(l, reserved) && Takes(l.pool, q, b)
    ensures Held(q.bits, b, reserved)
    ensures forall i :: 0 <= i < |l.live| ==> l.live[i].Disjoint(b)
  {
    forall i | 0 <= i < |l.live|
      ensures l.live[i].Disjoint(b)
    {
      HeldAndFreeAreDisjoint(l.pool.bits, l.live[i], b, reserved);
    }
  }

  lemma HeldAndFreeAreDisjoint(bits: seq<bool>, a: Block, b: Block, reserved: set<nat>)
    requires Held(bits, a, reserved) && 0 < b.count && FreeRun(bits, b.start, b.count)
    ensures a.Disjoint(b)
  {
    var atStartOfB, atStartOfA := bits[b.start], bits[a.start];
    assert !atStartOfB && atStartOfA;
  }

  lemma TakeKeepsSafe(l: Ledger, q: Pool, b: Block, reserved: set<nat>)
    requires Safe(l, reserved) && Takes(l.pool, q, b)
    ensures Safe(Ledger(q, l.live + [b]), reserved)
  {
    TakenIsFresh(l, q, b, reserved);
    forall i | 0 <= i < |l.live|
      ensures Held(q.bits, l.live[i], reserved)
    {
      assert Held(l.pool.bits, l.live[i], reserved);
    }
  }

  lemma TakeConserves(l: Ledger, q: Pool, b: Block)
    requires Takes(l.pool, q, b)
    ensures Capacity(Ledger(q, l.live + [b])) == Capacity(l)
  {
    TotalAppend(l.live, [b]);
  }

  lemma TakeBalances(p: Pool, q: Pool, b: Block, usable: nat, lag: nat)
    requires Takes(p, q, b) && Balanced(p, usable, lag)
    ensures Balanced(q, usable, lag)
  {
    Wrap64Add(ClearCount(p.bits) - lag, -(b.count as int));
    Wrap64Add(usable - (ClearCount(p.bits) - lag), b.count);
  }

  // ---- Release ----

  lemma GiveKeepsSafe(l: Ledger, i: nat, q: Pool, reserved: set<nat>)
    requires Safe(l, reserved) && i < |l.live| && Gives(l.pool, q, l.live[i])
    ensures Safe(Ledger(q, l.live[..i] + l.live[i + 1..]), reserved)
  {
    var b := l.live[i];
    assert Held(l.pool.bits, b, reserved);
    var live := l.live[..i] + l.live[i + 1..];
    forall j | 0 <= j < |live|
      ensures Held(q.bits, live[j], reserved)
    {
      var k := if j < i then j else j + 1;
      assert live[j] == l.live[k] && Held(l.pool.bits, l.live[k], reserved);
      assert if k < i then l.live[k].Disjoint(b) else b.Disjoint(l.live[k]);
    }
  }

  lemma GiveConserves(l: Ledger, i: nat, q: Pool)
    requires i < |l.live| && Gives(l.pool, q, l.live[i])
    ensures Capacity(Ledger(q, l.live[..i] + l.live[i + 1..])) == Capacity(l)
  {
    TotalRemove(l.live, i);
  }

  lemma ReleaseGives(l: Ledger, i: nat, reserved: set<nat>)
    requires Safe(l, reserved) && i < |l.live|
    ensures Gives(l.pool, Apply(l, Release(i)).pool, l.live[i])
  {
    assert Held(l.pool.bits, l.live[i], reserved);
    FreeSound(l.pool, l.live[i]);
  }

  // The counters follow the bitmap through any free, of a held block or not.
  lemma FreeBalances(p: Pool, addr: nat, count: nat, usable: nat, lag: nat)
    requires Balanced(p, usable, lag)
    ensures Balanced(Free(p, addr, count), usable, lag)
  {
    var d := ClearCount(Free(p, addr, count).bits) - ClearCount(p.bits);
    Wrap64Add(ClearCount(p.bits) - lag, d);
    Wrap64Add(usable - (ClearCount(p.bits) - lag), -d);
  }

  lemma ClearFrameBalances(p: Pool, f: nat, usable: nat, lag: nat)
    requires f < |p.bits| && Balanced(p, usable, lag)
    ensures Balanced(ClearFrame(p, f), usable, lag)
  {
    ClearCountUpdate(p.bits, f, false);
    Wrap64Add(ClearCount(p.bits) - lag, 1);
    Wrap64Add(usable - (ClearCount(p.bits) - lag), -1);
  }

  lemma HoldFrameBalances(p: Pool, f: nat, usable: nat, lag: nat)
    requires f < |p.bits| && Balanced(p, usable, lag)
    ensures Balanced(HoldFrame(p, f), usable, lag)
  {
    ClearCountUpdate(p.bits, f, true);
    Wrap64Add(ClearCount(p.bits) - lag, -1);
    Wrap64Add(usable - (ClearCount(p.bits) - lag), 1);
  }

  // Taking frame 0 off the free counter whether or not its bit was clear.
  lemma FrameZeroBalances(p: Pool, usable: nat)
    requires |p.bits| > 0 && Balanced(p, usable, 0) && 0 < ClearCount(p.bits)
    ensures Balanced(Pool(p.bits[0 := true], p.hint, Wrap64(p.free - 1), Wrap64(p.used + 1)),
                     usable, if p.bits[0] then 1 else 0)
  {
    ClearCountUpdate(p.bits, 0, true);
    Wrap64Add(ClearCount(p.bits), -1);
    Wrap64Add(usable - ClearCount(p.bits), 1);
  }

  // Frame 0 taken at the end of pmm_init: its bit is set, and the counters move if any frame is free.
  function ZeroTaken(p: Pool): Pool
    requires |p.bits| > 0
  {
    var moved := p.(bits := p.bits[0 := true]);
    if p.free > 0 then moved.(free := Wrap64(p.free - 1), used := Wrap64(p.used + 1)) else moved
  }

  lemma ZeroTakenBalances(p: Pool, usable: nat)
    requires 0 < |p.bits| < TWO_64 && Balanced(p, usable, 0)
    ensures Balanced(ZeroTaken(p), usable, if p.bits[0] && 0 < ClearCount(p.bits) then 1 else 0)
  {
    if 0 < ClearCount(p.bits) {
      FrameZeroBalances(p, usable);
    } else {
      assert p.bits[0] by {
        if !p.bits[0] {
          ClearBitCounts(p.bits, 0);
        }
      }
      assert p.bits[0 := true] == p.bits;
    }
  }

  // A range that is already free is left alone: a double free changes nothing.
  lemma DoubleFreeIsNoop(p: Pool, addr: nat, count: nat)
    requires p.free < TWO_64 && p.used < TWO_64
    ensures Free(Free(p, addr, count), addr, count) == Free(p, addr, count)
  {
    var q := Free(p, addr, count);
    var b := Clip(p, addr, count);
    assert Clip(q, addr, count) == b;
    assert SetRange(q.bits, b.start, b.count, false) == q.bits;
  }

  // Giving a block straight back restores the bitmap and both counters.
  lemma AllocFreeRestores(p: Pool, count: nat, alignment: nat)
    requires p.free < TWO_64 && p.used < TWO_64
    ensures var (q, r) := Alloc(p, count, alignment);
            r.Some? ==> Free(q, r.value, count) == p.(hint := q.hint)
  {
    AllocSound(p, count, alignment);
    var (q, r) := Alloc(p, count, alignment);
    if r.Some? {
      FreeSound(q, BlockAt(r.value, count));
      TakeGiveRestores(p, q, Free(q, r.value, count), BlockAt(r.value, count));
    }
  }

  lemma TakeGiveRestores(p: Pool, q: Pool, r: Pool, b: Block)
    requires p.free < TWO_64 && p.used < TWO_64
    requires Takes(p, q, b) && Gives(q, r, b)
    ensures r == p.(hint := q.hint)
  {
    assert r.bits == p.bits;
    Wrap64Cancel(p.free, -(b.count as int));
    Wrap64Cancel(p.used, b.count);
  }

  // ---- Whole runs ----

  // One operation: safety, conservation and balance at once.
  lemma ApplyIsSafe(l: Ledger, op: Op, reserved: set<nat>, usable: nat, lag: nat)
    requires Safe(l, reserved) && Balanced(l.pool, usable, lag)
    ensures var m := Apply(l, op);
            Safe(m, reserved) && Capacity(m) == Capacity(l) && Balanced(m.pool, usable, lag)
  {
    match op {
      case Allocate(count, alignment) =>
        AllocSound(l.pool, count, alignment);
        var (q, r) := Alloc(l.pool, count, alignment);
        if r.Some? {
          var b := BlockAt(r.value, count);
          TakeKeepsSafe(l, q, b, reserved);
          TakeConserves(l, q, b);
          TakeBalances(l.pool, q, b, usable, lag);
        }
      case Release(i) =>
        if i < |l.live| {
          ReleaseGives(l, i, reserved);
          GiveKeepsSafe(l, i, Apply(l, op).pool, reserved);
          GiveConserves(l, i, Apply(l, op).pool);
          FreeBalances(l.pool, l.live[i].start * PAGE_SIZE, l.live[i].count, usable, lag);
        }
    }
  }

  // In every run: no two held blocks overlap, none touches frame 0 or a reserved frame, clear bits
  // plus held frames never change in number, and the counters stay in step with the bitmap.
  lemma {:induction false} RunIsSafe(l: Ledger, ops: seq<Op>, reserved: set<nat>, usable: nat, lag: nat)
    requires Safe(l, reserved) && Balanced(l.pool, usable, lag)
    ensures var m := Run(l, ops);
            Safe(m, reserved) && Capacity(m) == Capacity(l) && Balanced(m.pool, usable, lag)
    decreases |ops|
  {
    if ops != [] {
      ApplyIsSafe(l, ops[0], reserved, usable, lag);
      RunIsSafe(Apply(l, ops[0]), ops[1..], reserved, usable, lag);
    }
  }

  lemma TakeKeepsExact(p: Pool, q: Pool, b: Block, usable: nat, lag: nat)
    requires Takes(p, q, b) && b.count <= p.free
    requires Exact(p, usable, lag) && usable < TWO_64
    ensures Exact(q, usable, lag)
  {
  }

  lemma GiveKeepsExact(p: Pool, q: Pool, b: Block, usable: nat, lag: nat)
    requires Gives(p, q, b) && ClearCount(q.bits) <= usable + lag
    requires Exact(p, usable, lag) && usable < TWO_64
    ensures Exact(q, usable, lag)
  {
  }

  // Exact counters stay exact through one operation.
  lemma ApplyKeepsExact(l: Ledger, op: Op, reserved: set<nat>, usable: nat, lag: nat)
    requires Safe(l, reserved) && Exact(l.pool, usable, lag) && usable < TWO_64
    requires Capacity(l) <= usable + lag
    ensures Exact(Apply(l, op).pool, usable, lag)
  {
    match op {
      case Allocate(count, alignment) =>
        AllocSound(l.pool, count, alignment);
        var (q, r) := Alloc(l.pool, count, alignment);
        if r.Some? {
          TakeKeepsExact(l.pool, q, BlockAt(r.value, count), usable, lag);
        }
      case Release(i) =>
        if i < |l.live| {
          ReleaseGives(l, i, reserved);
          GiveConserves(l, i, Apply(l, op).pool);
          GiveKeepsExact(l.pool, Apply(l, op).pool, l.live[i], usable, lag);
        }
    }
  }

  // Once the counters are exact they stay exact: free + used = usable, with no wrap-around, after
  // every run.
  lemma {:induction false} RunKeepsCountersExact(l: Ledger, ops: seq<Op>, reserved: set<nat>, usable: nat, lag: nat)
    requires Safe(l, reserved) && Exact(l.pool, usable, lag) && usable < TWO_64
    requires Capacity(l) <= usable + lag
    ensures Exact(Run(l, ops).pool, usable, lag)
    decreases |ops|
  {
    if ops != [] {
      ApplyIsSafe(l, ops[0], reserved, usable, lag);
      ApplyKeepsExact(l, ops[0], reserved, usable, lag);
      RunKeepsCountersExact(Apply(l, ops[0]), ops[1..], reserved, usable, lag);
    }
  }

  // A pool with no clear bit and no held block is stuck for ever, whatever its counters claim.
  lemma {:induction false} ExhaustedPoolIsStuck(l: Ledger, ops: seq<Op>)
    requires ClearCount(l.pool.bits) == 0 && l.live == []
    ensures Run(l, ops) == l
    decreases |ops|
  {
    if ops != [] {
      if ops[0].Allocate? {
        AllocSound(l.pool, ops[0].count, ops[0].alignment);
      }
      ExhaustedPoolIsStuck(l, ops[1..]);
    }
  }

  // ---- Next fit, told by blocks alone ----

  // The block that the operation gets, if it asks for one.
  ghost function Granted(l: Ledger, op: Op): Option<Block> {
    match op
    case Allocate(count, alignment) =>
      (match Alloc(l.pool, count, alignment).1
       case None => None
       case Some(addr) => Some(BlockAt(addr, count)))
    case Release(_) => None
  }

  // No operation of the run gets a block.
  ghost predicate Quiet(l: Ledger, ops: seq<Op>)
    decreases |ops|
  {
    ops != [] ==> Granted(l, ops[0]).None? && Quiet(Apply(l, ops[0]), ops[1..])
  }

  // s is the least place at or after `from` where the block fits, or the least of all if none is there.
  ghost predicate Placed(bits: seq<bool>, from: nat, s: nat, count: nat, alignment: nat)
    requires alignment > 0
  {
    && Fits(bits, s, count, alignment)
    && if from <= s then forall j :: from <= j < s ==> !Fits(bits, j, count, alignment)
       else && (forall j :: from <= j ==> !Fits(bits, j, count, alignment))
            && (forall j :: 0 <= j < s ==> !Fits(bits, j, count, alignment))
  }

  lemma {:induction false} QuietKeepsHint(l: Ledger, ops: seq<Op>)
    requires Quiet(l, ops)
    ensures Run(l, ops).pool.hint == l.pool.hint && |Run(l, ops).pool.bits| == |l.pool.bits|
    decreases |ops|
  {
    if ops != [] {
      QuietKeepsHint(Apply(l, ops[0]), ops[1..]);
    }
  }

  // A search from the hint.
  lemma GrantedIsPlaced(l: Ledger, op: Op)
    requires Granted(l, op).Some?
    ensures Granted(l, op).value.count == op.count > 0 && op.alignment > 0
    ensures Placed(l.pool.bits, l.pool.hint, Granted(l, op).value.start, op.count, Max(op.alignment, PAGE_SIZE))
  {
    FirstFitIsLeast(l.pool.bits, l.pool.hint, op.count, Max(op.alignment, PAGE_SIZE));
    FirstFitIsLeast(l.pool.bits, 0, op.count, Max(op.alignment, PAGE_SIZE));
  }

  // Where the hint points after a block was taken: behind it, or at frame 0 if it was the last.
  lemma HintIsBehind(l: Ledger, op: Op)
    requires Granted(l, op).Some?
    ensures var b, p := Granted(l, op).value, Apply(l, op).pool;
            && b.start + b.count <= |p.bits| == |l.pool.bits|
            && p.hint == if b.start + b.count < |p.bits| then b.start + b.count else 0
  {
    NextFitFits(l.pool.bits, l.pool.hint, op.count, Max(op.alignment, PAGE_SIZE));
    var s := NextFit(l.pool.bits, l.pool.hint, op.count, Max(op.alignment, PAGE_SIZE)).value;
    TakeHint(l.pool, s, op.count);
    BlockOfFrame(s, op.count);
  }

  // After the block [s, s + n) has been handed out, and however many releases and refusals later, the next block
  // is at the least place that fits from s + n on, or at the least of all if none fits there.
  lemma NextFitOverRuns(l: Ledger, op: Op, between: seq<Op>, next: Op)
    requires Granted(l, op).Some? && Quiet(Apply(l, op), between)
    requires Granted(Run(Apply(l, op), between), next).Some?
    ensures var b, m := Granted(l, op).value, Run(Apply(l, op), between);
            && next.alignment > 0
            && Placed(m.pool.bits, b.start + b.count, Granted(m, next).value.start, next.count, Max(next.alignment, PAGE_SIZE))
  {
    var b, m := Granted(l, op).value, Run(Apply(l, op), between);
    HintIsBehind(l, op);
    QuietKeepsHint(Apply(l, op), between);
    GrantedIsPlaced(m, next);
    PlacedBehindEnd(m.pool.bits, b.start + b.count, m.pool.hint, Granted(m, next).value.start, next.count,
                    Max(next.alignment, PAGE_SIZE));
  }

  lemma PlacedBehindEnd(bits: seq<bool>, end: nat, hint: nat, s: nat, count: nat, alignment: nat)
    requires alignment > 0 && count > 0 && Placed(bits, hint, s, count, alignment)
    requires end <= |bits| && hint == if end < |bits| then end else 0
    ensures Placed(bits, end, s, count, alignment)
  {
  }
}

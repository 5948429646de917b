/**
 The loop invariant of the two frame searches, as a predicate on the scanner's variables, and the
 lemmas for each way the scan can move.
 */
module FrameSearch {
  import opened Prelude
  import opened FramePool

  // A run of clear bits [s, end) that begins at one of the permitted positions.
  ghost predicate Candidate(bits: seq<bool>, permitted: iset<nat>, s: nat, end: nat) {
    s in permitted && s <= end <= |bits| && forall i :: s <= i < end ==> !bits[i]
  }

  // A whole block of `count` frames may be placed at s.
  ghost predicate Places(bits: seq<bool>, permitted: iset<nat>, s: nat, count: nat) {
    Candidate(bits, permitted, s, s + count)
  }

  // No block of `count` frames starts in [from, to).
  ghost predicate NoneStarts(bits: seq<bool>, permitted: iset<nat>, count: nat, from: nat, to: int) {
    forall j :: from <= j < to ==> !Places(bits, permitted, j, count)
  }

  // The scan has examined the frames [from, frame) of the bitmap.  The pending run, if any, ends at
  // `frame` and starts at the lowest position that can still grow into a block; no complete block
  // lies in the examined part.  (Just after the wrap to frame 0 a run may be left over from the end
  // of the bitmap; frame 0 is in use, so the next test discards it.)
  ghost predicate Scanning(bits: seq<bool>, permitted: iset<nat>, count: nat,
                           from: nat, frame: nat, runStart: nat, runLength: nat) {
    && from <= frame <= |bits|
    && runLength < count
    && (frame > 0 && runLength > 0 ==> from <= runStart && runStart + runLength == frame && Candidate(bits, permitted, runStart, frame))
    && (forall j :: from <= j < frame && Candidate(bits, permitted, j, frame) ==> 0 < runLength && runStart <= j)
    && NoneStarts(bits, permitted, count, from, frame - count + 1)
  }

  lemma StepOverUsed(bits: seq<bool>, permitted: iset<nat>, count: nat,
                     from: nat, frame: nat, runStart: nat, runLength: nat)
    requires Scanning(bits, permitted, count, from, frame, runStart, runLength)
    requires frame < |bits| && bits[frame]
    ensures Scanning(bits, permitted, count, from, frame + 1, runStart, 0)
  {
  }

  // The new run after a free frame, as the aligned search updates it.
  ghost function Grow(permitted: iset<nat>, frame: nat, runStart: nat, runLength: nat): (nat, nat) {
    if runLength == 0 && frame in permitted then (frame, 1)
    else if runLength > 0 then (runStart, runLength + 1)
    else (runStart, 0)
  }

  lemma GrowIsLowest(bits: seq<bool>, permitted: iset<nat>, count: nat,
                     from: nat, frame: nat, runStart: nat, runLength: nat, j: nat)
    requires Scanning(bits, permitted, count, from, frame, runStart, runLength)
    requires 0 < frame < |bits| && !bits[frame] && from <= j <= frame
    requires Candidate(bits, permitted, j, frame + 1)
    ensures var (s, n) := Grow(permitted, frame, runStart, runLength); 0 < n && s <= j
  {
    assert j < frame ==> Candidate(bits, permitted, j, frame);
  }

  lemma StepOverFree(bits: seq<bool>, permitted: iset<nat>, count: nat,
                     from: nat, frame: nat, runStart: nat, runLength: nat)
    requires Scanning(bits, permitted, count, from, frame, runStart, runLength)
    requires 0 < frame < |bits| && !bits[frame]
    ensures var (s, n) := Grow(permitted, frame, runStart, runLength);
            if n == count then
              from <= s && Places(bits, permitted, s, count) && NoneStarts(bits, permitted, count, from, s)
            else Scanning(bits, permitted, count, from, frame + 1, s, n)
  {
    var (s, n) := Grow(permitted, frame, runStart, runLength);
    var next := frame + 1;
    forall j | from <= j < next && Candidate(bits, permitted, j, next)
      ensures 0 < n && s <= j
    {
      GrowIsLowest(bits, permitted, count, from, frame, runStart, runLength, j);
    }
  }

  // What the scan knows once it has reached the end of the bitmap.
  lemma EndOfBitmap(bits: seq<bool>, permitted: iset<nat>, count: nat, from: nat, runStart: nat, runLength: nat)
    requires Scanning(bits, permitted, count, from, |bits|, runStart, runLength)
    ensures NoneStarts(bits, permitted, count, from, |bits|)
    ensures Scanning(bits, permitted, count, 0, 0, runStart, runLength)
  {
  }

  // The variables of a search, together with the number of tests made and the start of the stretch
  // being scanned: the hint at first, frame 0 after the first wrap.
  datatype Scan = Scan(frame: nat, runStart: nat, runLength: nat, wrapped: bool, tests: nat, from: nat)

  // The loop invariant of both searches.
  ghost predicate Searching(bits: seq<bool>, permitted: iset<nat>, count: nat, hint: nat, c: Scan) {
    var n := |bits|;
    && hint < n && c.frame < n
    && c.tests < 2 * n && (c.wrapped <==> c.tests >= n)
    && Scanning(bits, permitted, count, c.from, c.frame, c.runStart, c.runLength)
    && (|| (hint + c.tests == c.frame && c.from == hint)
        || (hint + c.tests == c.frame + n && c.from == 0 && NoneStarts(bits, permitted, count, hint, n))
        || (hint + c.tests == c.frame + 2 * n && c.from == 0 && NoneStarts(bits, permitted, count, hint, n)
            && NoneStarts(bits, permitted, count, 0, n)))
  }

  function Advance(c: Scan, n: nat, hint: nat, runStart: nat, runLength: nat): Scan {
    var frame := if c.frame + 1 == n then 0 else c.frame + 1;
    Scan(frame, runStart, runLength, c.wrapped || frame == hint, c.tests + 1, if frame == 0 then 0 else c.from)
  }

  // After a test the scan moves on; back at the hint for the second time it has seen every frame in
  // one sweep from frame 0, so no block exists at all.
  lemma AdvanceKeepsSearching(bits: seq<bool>, permitted: iset<nat>, count: nat, hint: nat, c: Scan,
                              runStart: nat, runLength: nat)
    requires Searching(bits, permitted, count, hint, c)
    requires Scanning(bits, permitted, count, c.from, c.frame + 1, runStart, runLength)
    ensures var d := Advance(c, |bits|, hint, runStart, runLength);
            if d.frame == hint && c.wrapped
            then d.tests == 2 * |bits| && NoneStarts(bits, permitted, count, 0, |bits|)
            else Searching(bits, permitted, count, hint, d)
  {
    if c.frame + 1 == |bits| {
      EndOfBitmap(bits, permitted, count, c.from, runStart, runLength);
    }
  }

  // The run after the test of the current frame.
  ghost function Examine(bits: seq<bool>, permitted: iset<nat>, c: Scan): (nat, nat)
    requires c.frame < |bits|
  {
    if bits[c.frame] then (c.runStart, 0) else Grow(permitted, c.frame, c.runStart, c.runLength)
  }

  // A turn of the loop that completes a run of `count` frames has found the next-fit block.
  lemma TurnFinds(bits: seq<bool>, hint: nat, count: nat, alignment: nat, c: Scan, s: nat)
    requires alignment > 0 && count > 0 && |bits| > 0 && bits[0]
    requires Searching(bits, Permitted(alignment), count, hint, c)
    requires (s, count) == Examine(bits, Permitted(alignment), c)
    ensures NextFit(bits, hint, count, alignment) == Some(s)
  {
    var permitted := Permitted(alignment);
    StepOverFree(bits, permitted, count, c.from, c.frame, c.runStart, c.runLength);
    FoundIsNextFit(bits, hint, count, alignment, c.from, s);
  }

  // Any other turn keeps the invariant, or ends the loop having seen that no block fits anywhere.
  lemma TurnContinues(bits: seq<bool>, hint: nat, count: nat, alignment: nat, c: Scan, s: nat, n: nat, d: Scan)
    requires alignment > 0 && count > 0 && |bits| > 0 && bits[0]
    requires Searching(bits, Permitted(alignment), count, hint, c)
    requires (s, n) == Examine(bits, Permitted(alignment), c) && n != count
    requires d == Advance(c, |bits|, hint, s, n)
    ensures if d.frame == hint && c.wrapped
            then NextFit(bits, hint, count, alignment) == None && d.tests == 2 * |bits|
            else Searching(bits, Permitted(alignment), count, hint, d)
  {
    var permitted := Permitted(alignment);
    if bits[c.frame] {
      StepOverUsed(bits, permitted, count, c.from, c.frame, c.runStart, c.runLength);
    } else {
      StepOverFree(bits, permitted, count, c.from, c.frame, c.runStart, c.runLength);
    }
    AdvanceKeepsSearching(bits, permitted, count, hint, c, s, n);
    if d.frame == hint && c.wrapped {
      NothingFits(bits, hint, count, alignment);
    }
  }

  // The block the scan stops at is the next-fit block.
  lemma FoundIsNextFit(bits: seq<bool>, hint: nat, count: nat, alignment: nat, from: nat, s: nat)
    requires alignment > 0 && count > 0 && from <= s
    requires var permitted := Permitted(alignment);
             && Places(bits, permitted, s, count)
             && NoneStarts(bits, permitted, count, from, s)
             && (from == hint || (from == 0 && NoneStarts(bits, permitted, count, hint, |bits|)))
    ensures NextFit(bits, hint, count, alignment) == Some(s)
  {
    CandidateFits(bits, count, alignment);
    LeastIsFirstFit(bits, from, s, count, alignment);
    FirstFitIsLeast(bits, hint, count, alignment);
  }

  lemma NothingFits(bits: seq<bool>, hint: nat, count: nat, alignment: nat)
    requires alignment > 0 && count > 0
    requires NoneStarts(bits, Permitted(alignment), count, 0, |bits|)
    ensures NextFit(bits, hint, count, alignment) == None
  {
    CandidateFits(bits, count, alignment);
    NextFitFits(bits, hint, count, alignment);
  }

  ghost function Permitted(alignment: nat): iset<nat>
    requires alignment > 0
  {
    iset f: nat | Aligned(f, alignment)
  }

  lemma CandidateFits(bits: seq<bool>, count: nat, alignment: nat)
    requires alignment > 0
    ensures forall j: nat :: Places(bits, Permitted(alignment), j, count) <==> Fits(bits, j, count, alignment)
  {
  }
}

/**
 The keyboard ring between the key interrupt, which pushes, and the reader, which pops.  Each access to
 a shared field is a step of its own, and the two sides may interleave in any way.
 */
module KeyboardRing {
  import opened Prelude

  const SIZE: nat := 128  // KBD_BUFFER_SIZE

  // Where kbd_buffer_push stands.  Fields read so far are carried along.
  datatype Push =
    | Idle
    | TestHead(c: char)            // about to read head, for the full test
    | TestTail(c: char, h: nat)    // about to read tail
    | StoreHead(c: char)           // not full: about to read head, for the store
    | Store(c: char, h: nat)       // about to write the slot
    | AdvanceHead(c: char)         // about to read head, to advance it
    | Advance(c: char, h: nat)     // about to write head

  // Where kbd_buffer_pop stands.
  datatype Pop =
    | Resting
    | EmptyHead                    // about to read head, for the empty test
    | EmptyTail(h: nat, seen: nat) // about to read tail; `seen` characters were accepted when head was read
    | LoadTail                     // not empty: about to read tail, for the load
    | Load(t: nat)                 // about to read the slot
    | AdvanceTail(c: char)         // about to read tail, to advance it
    | Finish(c: char, t: nat)      // about to write tail

  // `accepted` and `popped` are the characters pushed and popped since boot.
  datatype Ring = Ring(slots: seq<char>, head: nat, tail: nat, push: Push, pop: Pop,
                       accepted: seq<char>, popped: seq<char>)

  datatype Action = Key(c: char) | Pushing | Read | Popping

  // ---- The steps ----

  predicate Enabled(r: Ring, a: Action) {
    match a
    case Key(_) => r.push.Idle?
    case Pushing => !r.push.Idle? && (r.push.Store? ==> r.push.h < |r.slots|)
    case Read => r.pop.Resting?
    case Popping => !r.pop.Resting? && (r.pop.Load? ==> r.pop.t < |r.slots|)
  }

  function Step(r: Ring, a: Action): Ring
    requires Enabled(r, a)
  {
    match a
    case Key(c) => r.(push := TestHead(c))
    case Pushing => PushStep(r)
    case Read => r.(pop := EmptyHead)
    case Popping => PopStep(r)
  }

  function PushStep(r: Ring): Ring
    requires Enabled(r, Pushing)
  {
    match r.push
    case TestHead(c) => r.(push := TestTail(c, r.head))
    case TestTail(c, h) => r.(push := if (h + 1) % SIZE == r.tail then Idle else StoreHead(c))
    case StoreHead(c) => r.(push := Store(c, r.head))
    case Store(c, h) => r.(push := AdvanceHead(c), slots := r.slots[h := c])
    case AdvanceHead(c) => r.(push := Advance(c, r.head))
    case Advance(c, h) => r.(push := Idle, head := (h + 1) % SIZE, accepted := r.accepted + [c])
  }

  function PopStep(r: Ring): Ring
    requires Enabled(r, Popping)
  {
    match r.pop
    case EmptyHead => r.(pop := EmptyTail(r.head, |r.accepted|))
    case EmptyTail(h, _) => r.(pop := if h == r.tail then Resting else LoadTail)
    case LoadTail => r.(pop := Load(r.tail))
    case Load(t) => r.(pop := AdvanceTail(r.slots[t]))
    case AdvanceTail(c) => r.(pop := Finish(c, r.tail))
    case Finish(c, t) => r.(pop := Resting, tail := (t + 1) % SIZE, popped := r.popped + [c])
  }

  // ---- The invariant ----

  // Character number k has been accepted and not popped.
  predicate Unread(r: Ring, k: nat) {
    |r.popped| <= k < |r.accepted|
  }

  ghost predicate Ordered(r: Ring) {
    && |r.slots| == SIZE && r.head == |r.accepted| % SIZE && r.tail == |r.popped| % SIZE
    && |r.popped| <= |r.accepted| < |r.popped| + SIZE
    && r.popped == r.accepted[..|r.popped|]
    && forall k: nat :: Unread(r, k) ==> r.slots[k % SIZE] == r.accepted[k]
  }

  predicate Room(r: Ring) {
    |r.accepted| + 1 < |r.popped| + SIZE
  }

  ghost predicate PushOk(r: Ring) {
    match r.push
    case Idle => true
    case TestHead(_) => true
    case TestTail(_, h) => h == r.head
    case StoreHead(_) => Room(r)
    case Store(_, h) => Room(r) && h == r.head
    case AdvanceHead(c) => Room(r) && r.head < |r.slots| && r.slots[r.head] == c
    case Advance(c, h) => Room(r) && h == r.head < |r.slots| && r.slots[r.head] == c
  }

  ghost predicate PopOk(r: Ring) {
    match r.pop
    case Resting => true
    case EmptyHead => true
    case EmptyTail(h, seen) => |r.popped| <= seen <= |r.accepted| && h == seen % SIZE
    case LoadTail => Unread(r, |r.popped|)
    case Load(t) => Unread(r, |r.popped|) && t == r.tail
    case AdvanceTail(c) => Unread(r, |r.popped|) && c == r.accepted[|r.popped|]
    case Finish(c, t) => Unread(r, |r.popped|) && c == r.accepted[|r.popped|] && t == r.tail
  }

  ghost predicate Inv(r: Ring) {
    Ordered(r) && PushOk(r) && PopOk(r)
  }

  lemma ResiduesDiffer(a: nat, b: nat)
    requires a < b < a + SIZE
    ensures a % SIZE != b % SIZE
  {
  }

  lemma NextResidue(n: nat)
    ensures (n % SIZE + 1) % SIZE == (n + 1) % SIZE
  {
  }

  // The slot under head holds no unread character.
  lemma HeadIsFree(r: Ring, k: nat)
    requires Ordered(r) && Unread(r, k)
    ensures k % SIZE != r.head
  {
    ResiduesDiffer(k, |r.accepted|);
  }

  // The full test, with the tail as it is now, finds no room exactly when 127 characters are unread.
  lemma FullTest(r: Ring)
    requires Ordered(r)
    ensures (r.head + 1) % SIZE == r.tail <==> !Room(r)
  {
    NextResidue(|r.accepted|);
    if Room(r) {
      ResiduesDiffer(|r.popped|, |r.accepted| + 1);
    } else {
      FullTurn(|r.popped|);
    }
  }

  lemma FullTurn(n: nat)
    ensures (n + SIZE) % SIZE == n % SIZE
  {
  }

  // The empty test, with the head as it was when `seen` characters were accepted.
  lemma EmptyTest(r: Ring, seen: nat)
    requires Ordered(r) && |r.popped| <= seen <= |r.accepted|
    ensures seen % SIZE == r.tail <==> seen == |r.popped|
  {
    if seen > |r.popped| {
      ResiduesDiffer(|r.popped|, seen);
    }
  }

  lemma PushKeeps(r: Ring)
    requires Inv(r) && Enabled(r, Pushing)
    ensures Inv(PushStep(r))
  {
    match r.push
    case TestHead(_) =>
    case TestTail(_, _) => FullTest(r);
    case StoreHead(_) =>
    case Store(c, _) => StoreKeeps(r, c);
    case AdvanceHead(_) =>
    case Advance(c, _) => AdvanceKeeps(r, c);
  }

  lemma StoreKeeps(r: Ring, c: char)
    requires Ordered(r)
    ensures Ordered(r.(slots := r.slots[r.head := c]))
  {
    forall k: nat | Unread(r, k)
      ensures k % SIZE != r.head
    {
      HeadIsFree(r, k);
    }
  }

  lemma AdvanceKeeps(r: Ring, c: char)
    requires Ordered(r) && Room(r) && r.slots[r.head] == c
    ensures Ordered(r.(head := (r.head + 1) % SIZE, accepted := r.accepted + [c]))
  {
    NextResidue(|r.accepted|);
    var p := r.(head := (r.head + 1) % SIZE, accepted := r.accepted + [c]);
    forall k: nat | Unread(p, k)
      ensures p.slots[k % SIZE] == p.accepted[k]
    {
      assert k < |r.accepted| ==> Unread(r, k);
    }
  }

  lemma PopKeeps(r: Ring)
    requires Inv(r) && Enabled(r, Popping)
    ensures Inv(PopStep(r))
  {
    if r.pop.EmptyTail? {
      EmptyTest(r, r.pop.seen);
    }
    NextResidue(|r.popped|);
  }

  // ---- Runs ----

  ghost predicate Boot(r: Ring) {
    |r.slots| == SIZE && r.head == 0 && r.tail == 0 && r.push.Idle? && r.pop.Resting? && r.accepted == [] && r.popped == []
  }

  ghost predicate IsRun(run: seq<Ring>, actions: seq<Action>) {
    && |run| == |actions| + 1 && Boot(run[0])
    && forall i :: 0 <= i < |actions| ==> Enabled(run[i], actions[i]) && run[i + 1] == Step(run[i], actions[i])
  }

  lemma {:induction false} RunKeepsInv(run: seq<Ring>, actions: seq<Action>, i: nat)
    requires IsRun(run, actions) && i < |run|
    ensures Inv(run[i])
  {
    if i > 0 {
      RunKeepsInv(run, actions, i - 1);
      match actions[i - 1]
      case Key(_) =>
      case Pushing => PushKeeps(run[i - 1]);
      case Read =>
      case Popping => PopKeeps(run[i - 1]);
    }
  }

  // In every state of every interleaving: the characters popped are a prefix of those accepted, and at
  // most 127 are pending.
  lemma PoppedIsPrefix(run: seq<Ring>, actions: seq<Action>, i: nat)
    requires IsRun(run, actions) && i < |run|
    ensures run[i].popped <= run[i].accepted && |run[i].accepted| - |run[i].popped| <= 127
  {
    RunKeepsInv(run, actions, i);
  }

  // No step of any interleaving overwrites an unread character.
  lemma UnreadIsNeverOverwritten(run: seq<Ring>, actions: seq<Action>, i: nat, k: nat)
    requires IsRun(run, actions) && i < |actions| && Unread(run[i], k)
    ensures |run[i].slots| == |run[i + 1].slots| == SIZE
    ensures run[i + 1].slots[k % SIZE] == run[i].slots[k % SIZE] == run[i].accepted[k]
  {
    RunKeepsInv(run, actions, i);
    HeadIsFree(run[i], k);
  }

  // A key is dropped only when 127 characters are unread, and a pop returns nothing only when every
  // character accepted by the time head was read has been popped.
  lemma RefusalsAreTrue(run: seq<Ring>, actions: seq<Action>, i: nat)
    requires IsRun(run, actions) && i < |actions|
    ensures run[i].push.TestTail? && actions[i].Pushing? ==>
              (run[i + 1].push.Idle? <==> |run[i].accepted| - |run[i].popped| == 127)
    ensures run[i].pop.EmptyTail? && actions[i].Popping? ==>
              (run[i + 1].pop.Resting? <==> run[i].pop.seen == |run[i].popped|)
  {
    RunKeepsInv(run, actions, i);
    FullTest(run[i]);
    if run[i].pop.EmptyTail? {
      EmptyTest(run[i], run[i].pop.seen);
    }
  }

  // ---- Both sides undisturbed ----

  function Slot(tail: nat, i: nat): nat {
    (tail + i) % SIZE
  }

  function Count(head: nat, tail: nat): (n: nat)
    requires head < SIZE && tail < SIZE
    ensures n < SIZE && Slot(tail, n) == head && (n == 0 <==> head == tail)
  {
    (head + SIZE - tail) % SIZE
  }

  // The unread characters, the oldest first.
  function Pending(slots: seq<char>, head: nat, tail: nat): (s: seq<char>)
    requires |slots| == SIZE && head < SIZE && tail < SIZE
    ensures |s| == Count(head, tail) && forall i :: 0 <= i < |s| ==> s[i] == slots[Slot(tail, i)]
  {
    seq(Count(head, tail), i requires 0 <= i => slots[Slot(tail, i)])
  }

  lemma SlotsDiffer(tail: nat, i: nat, j: nat)
    requires i < j < SIZE
    ensures Slot(tail, i) != Slot(tail, j)
  {
    ResiduesDiffer(tail + i, tail + j);
  }

  lemma CountPushed(head: nat, tail: nat)
    requires head < SIZE && tail < SIZE
    ensures (head + 1) % SIZE == tail <==> Count(head, tail) == SIZE - 1
    ensures (head + 1) % SIZE != tail ==> Count((head + 1) % SIZE, tail) == Count(head, tail) + 1
  {
    CyclicSuccessor(head, SIZE);
    CountForm(head, tail);
    CountForm((head + 1) % SIZE, tail);
  }

  // The count without the division.
  lemma CountForm(head: nat, tail: nat)
    requires head < SIZE && tail < SIZE
    ensures Count(head, tail) == if tail <= head then head - tail else head + SIZE - tail
  {
    if tail <= head {
      FullTurn(head - tail);
      SmallMod(head - tail, SIZE);
    } else {
      SmallMod(head + SIZE - tail, SIZE);
    }
  }

  lemma CountPopped(head: nat, tail: nat)
    requires head < SIZE && tail < SIZE && head != tail
    ensures Count(head, (tail + 1) % SIZE) == Count(head, tail) - 1
  {
    CyclicSuccessor(tail, SIZE);
    CountForm(head, tail);
    CountForm(head, (tail + 1) % SIZE);
  }

  lemma PendingPushed(slots: seq<char>, head: nat, tail: nat, c: char)
    requires |slots| == SIZE && head < SIZE && tail < SIZE && (head + 1) % SIZE != tail
    ensures Pending(slots[head := c], (head + 1) % SIZE, tail) == Pending(slots, head, tail) + [c]
  {
    CountPushed(head, tail);
    var n := Count(head, tail);
    forall i: nat | i < n
      ensures Slot(tail, i) != head
    {
      SlotsDiffer(tail, i, n);
    }
  }

  lemma SlotShifted(tail: nat, i: nat)
    ensures Slot((tail + 1) % SIZE, i) == Slot(tail, i + 1)
  {
  }

  lemma PendingPopped(slots: seq<char>, head: nat, tail: nat)
    requires |slots| == SIZE && head < SIZE && tail < SIZE && head != tail
    ensures [slots[tail]] + Pending(slots, head, (tail + 1) % SIZE) == Pending(slots, head, tail)
  {
    CountPopped(head, tail);
    var p, q := Pending(slots, head, tail), Pending(slots, head, (tail + 1) % SIZE);
    assert Slot(tail, 0) == tail;
    forall i: nat | i < |q|
      ensures q[i] == p[i + 1]
    {
      SlotShifted(tail, i);
    }
  }

  class Keyboard {
    const slots: array<char>
    var head: nat
    var tail: nat

    ghost predicate Valid()
      reads this
    {
      slots.Length == SIZE && head < SIZE && tail < SIZE
    }

    ghost function Contents(): (s: seq<char>)
      requires Valid()
      reads this, slots
    {
      Pending(slots[..], head, tail)
    }

    constructor ()
      ensures Valid() && Contents() == [] && fresh(slots)
    {
      slots := new char[SIZE];
      head, tail := 0, 0;
    }

    // keyboard_has_data
    method HasData() returns (b: bool)
      requires Valid()
      ensures b <==> Contents() != []
    {
      b := head != tail;
    }

    // kbd_buffer_push
    method Push(c: char)
      requires Valid()
      modifies this`head, slots
      ensures Valid()
      ensures Contents() == if |old(Contents())| < SIZE - 1 then old(Contents()) + [c] else old(Contents())
    {
      CountPushed(head, tail);
      if (head + 1) % SIZE != tail {
        PendingPushed(slots[..], head, tail, c);
        slots[head] := c;
        assert slots[..] == old(slots[..])[head := c];
        head := (head + 1) % SIZE;
      }
    }

    // kbd_buffer_pop.  A pop of an empty ring and of a NUL are told apart only by HasData.
    method Pop() returns (c: char)
      requires Valid()
      modifies this`tail
      ensures Valid()
      ensures old(Contents()) == [] ==> c == 0 as char && Contents() == []
      ensures old(Contents()) != [] ==> [c] + Contents() == old(Contents())
    {
      if head == tail {
        return 0 as char;
      }
      PendingPopped(slots[..], head, tail);
      c := slots[tail];
      tail := (tail + 1) % SIZE;
    }
  }
}

/**
 The round-robin choice over the circular run queue, as a function of the tasks' states in ring order.
 */
module Scheduling {
  import opened Prelude

  datatype TaskState = Ready | Running | Blocked | Dead

  predicate Runnable(s: TaskState) {
    s.Ready? || s.Running?
  }

  // The next position of a ring of n tasks.
  function Succ(i: nat, n: nat): nat
    requires i < n
  {
    if i + 1 == n then 0 else i + 1
  }

  // Steps forward from i to j; a whole round from i to itself.
  function Distance(i: nat, j: nat, n: nat): (d: nat)
    requires i < n && j < n
    ensures 0 < d <= n
  {
    if i < j then j - i else j + n - i
  }

  // The first runnable task among the `left` tasks from i on.
  function Scan(states: seq<TaskState>, i: nat, left: nat): (t: Option<nat>)
    requires i < |states|
    ensures t.Some? ==> t.value < |states| && Runnable(states[t.value])
    decreases left
  {
    if left == 0 then None
    else if Runnable(states[i]) then Some(i)
    else Scan(states, Succ(i, |states|), left - 1)
  }

  // scheduler_next: the ring is searched from the successor of the current task, or from its head.
  function Next(states: seq<TaskState>, current: Option<nat>): (t: Option<nat>)
    requires current.Some? ==> current.value < |states|
    ensures t.Some? ==> t.value < |states| && Runnable(states[t.value])
  {
    if |states| == 0 then None
    else Scan(states, if current.Some? then Succ(current.value, |states|) else 0, |states|)
  }

  // ---- What the choice is ----

  // Distance from the position just before i.
  function After(i: nat, j: nat, n: nat): nat
    requires i < n && j < n
  {
    if i <= j then j - i else j + n - i
  }

  lemma {:induction false} ScanFindsFirst(states: seq<TaskState>, i: nat, left: nat)
    requires i < |states| && left <= |states|
    ensures var n := |states|;
            match Scan(states, i, left)
            case Some(t) =>
              && t < n && Runnable(states[t]) && After(i, t, n) < left
              && forall j :: 0 <= j < n && Runnable(states[j]) ==> After(i, t, n) <= After(i, j, n)
            case None =>
              forall j :: 0 <= j < n && Runnable(states[j]) ==> left <= After(i, j, n)
    decreases left
  {
    if left > 0 && !Runnable(states[i]) {
      ScanFindsFirst(states, Succ(i, |states|), left - 1);
    }
  }

  // The chosen task is the nearest runnable one going forward from the current task, which itself comes
  // last; there is none exactly when no task is runnable.
  lemma NextIsNearest(states: seq<TaskState>, c: nat)
    requires c < |states|
    ensures var n := |states|;
            match Next(states, Some(c))
            case Some(t) =>
              && t < n && Runnable(states[t])
              && forall j :: 0 <= j < n && Runnable(states[j]) ==> Distance(c, t, n) <= Distance(c, j, n)
            case None => forall j :: 0 <= j < n ==> !Runnable(states[j])
  {
    var n := |states|;
    ScanFindsFirst(states, Succ(c, n), n);
    forall j | 0 <= j < n
      ensures Distance(c, j, n) == After(Succ(c, n), j, n) + 1
    {
    }
  }

  lemma NextWithoutCurrent(states: seq<TaskState>)
    ensures match Next(states, None)
            case Some(t) =>
              && t < |states| && Runnable(states[t])
              && forall j :: 0 <= j < t ==> !Runnable(states[j])
            case None => forall j :: 0 <= j < |states| ==> !Runnable(states[j])
  {
    if |states| > 0 {
      ScanFindsFirst(states, 0, |states|);
    }
  }

  // ---- schedule ----

  datatype Queue = Queue(states: seq<TaskState>, current: nat)

  ghost predicate QueueOk(q: Queue) {
    && q.current < |q.states|
    // only the current task can be running
    && forall i :: 0 <= i < |q.states| && q.states[i].Running? ==> i == q.current
  }

  // schedule() with a current task.
  function Schedule(q: Queue): (p: Queue)
    requires q.current < |q.states|
    ensures p.current < |p.states| == |q.states|
  {
    match Next(q.states, Some(q.current))
    case None => q
    case Some(t) =>
      if t == q.current then q
      else
        var released := if q.states[q.current].Running? then q.states[q.current := Ready] else q.states;
        Queue(released[t := Running], t)
  }

  // SYS_EXIT: the current task dies and task_enter goes to the next one, whose state it leaves alone.
  function Exit(q: Queue): (p: Option<Queue>)
    requires q.current < |q.states|
    ensures p.Some? ==> p.value.current < |p.value.states| == |q.states|
  {
    var states := q.states[q.current := Dead];
    match Next(states, Some(q.current))
    case None => None
    case Some(t) => Some(Queue(states, t))
  }

  lemma ScheduleKeeps(q: Queue)
    requires QueueOk(q)
    ensures QueueOk(Schedule(q)) && |Schedule(q).states| == |q.states|
    ensures forall i :: 0 <= i < |q.states| ==>
              && (Runnable(Schedule(q).states[i]) <==> Runnable(q.states[i]))
              && (!Runnable(q.states[i]) || i !in {q.current, Schedule(q).current} ==> Schedule(q).states[i] == q.states[i])
    ensures Schedule(q).current == q.current ==> Schedule(q) == q
    ensures Schedule(q).current != q.current ==>
              Schedule(q).states[Schedule(q).current].Running? && !Schedule(q).states[q.current].Running?
    ensures (exists i :: 0 <= i < |q.states| && Runnable(q.states[i])) ==> Runnable(Schedule(q).states[Schedule(q).current])
  {
    NextIsNearest(q.states, q.current);
  }

  // A dead task is never chosen again.
  lemma ExitKeeps(q: Queue)
    requires QueueOk(q)
    ensures match Exit(q)
            case None => forall i :: 0 <= i < |q.states| && i != q.current ==> !Runnable(q.states[i])
            case Some(p) =>
              && QueueOk(p) && p.states == q.states[q.current := Dead]
              && p.current != q.current && Runnable(p.states[p.current])
  {
    var states := q.states[q.current := Dead];
    NextIsNearest(states, q.current);
    assert forall i :: 0 <= i < |q.states| && i != q.current ==> states[i] == q.states[i];
  }

  // ---- No starvation ----

  // Each call of schedule or exit brings the current task strictly nearer to a waiting runnable task.
  lemma ScheduleApproaches(q: Queue, t: nat)
    requires QueueOk(q) && t < |q.states| && t != q.current && Runnable(q.states[t])
    ensures var p := Schedule(q);
            |p.states| == |q.states|
            && (p.current == t || Distance(p.current, t, |p.states|) < Distance(q.current, t, |q.states|))
  {
    NextIsNearest(q.states, q.current);
  }

  lemma ExitApproaches(q: Queue, t: nat)
    requires QueueOk(q) && t < |q.states| && t != q.current && Runnable(q.states[t])
    ensures match Exit(q)
            case None => false
            case Some(p) =>
              |p.states| == |q.states|
              && (p.current == t || Distance(p.current, t, |p.states|) < Distance(q.current, t, |q.states|))
  {
    var states := q.states[q.current := Dead];
    assert Runnable(states[t]);
    NextIsNearest(states, q.current);
  }
}

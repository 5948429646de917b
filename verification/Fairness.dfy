/**
 No starvation: a waiting runnable task becomes current within a bounded number of switches and ticks.
 */
module Fairness {
  import opened Prelude
  import opened Scheduling
  import opened ContextSwitch
  import opened ContextRuns

  // A run in progress with task t waiting its turn.
  ghost predicate Waiting(d: Ideal, t: nat) {
    QueueOk(Queue(d.states, d.current)) && !d.halted && t < |d.states| && t != d.current && Runnable(d.states[t])
  }

  // The event calls schedule or exit.
  predicate Switches(d: Ideal, e: Event) {
    e.Exit? || (e.Tick? && Wrap64(d.ticks + 1) % QUANTUM == 0)
  }

  // t is current after some of the events.
  ghost predicate Served(d: Ideal, evs: seq<Event>, t: nat)
    requires d.current < |d.states|
    decreases |evs|
  {
    d.current == t || (evs != [] && Served(IdealStep(d, evs[0]), evs[1..], t))
  }

  // One event: t is served, or goes on waiting, strictly nearer to its turn if the event switches.
  lemma StepApproaches(d: Ideal, e: Event, t: nat)
    requires Waiting(d, t)
    ensures var r := IdealStep(d, e);
            r.current == t ||
            (Waiting(r, t) &&
             var before, after := Distance(d.current, t, |d.states|), Distance(r.current, t, |r.states|);
             if Switches(d, e) then after < before else after == before)
  {
    var q := Queue(d.states, d.current);
    ScheduleKeeps(q);
    ScheduleApproaches(q, t);
    ExitKeeps(q);
    ExitApproaches(q, t);
  }

  // ---- Counting switches ----

  ghost function SwitchCount(d: Ideal, evs: seq<Event>): nat
    requires d.current < |d.states|
    decreases |evs|
  {
    if evs == [] then 0
    else (if Switches(d, evs[0]) then 1 else 0) + SwitchCount(IdealStep(d, evs[0]), evs[1..])
  }

  // A task at forward distance n is served within n calls of schedule or exit.
  lemma {:induction false} ServedWithinDistance(d: Ideal, evs: seq<Event>, t: nat)
    requires Waiting(d, t) && Distance(d.current, t, |d.states|) <= SwitchCount(d, evs)
    ensures Served(d, evs, t)
    decreases |evs|
  {
    StepApproaches(d, evs[0], t);
    if IdealStep(d, evs[0]).current != t {
      ServedWithinDistance(IdealStep(d, evs[0]), evs[1..], t);
    }
  }

  // ---- Counting ticks ----

  // Ticks until the next one that schedules; the counter wraps from 2^64 - 1 to 0, a multiple of ten.
  function Until(ticks: nat): (n: nat)
    requires ticks < TWO_64
    ensures 1 <= n <= 10
  {
    var next := (ticks / 10 + 1) * 10;
    if next < TWO_64 then next - ticks else TWO_64 - ticks
  }

  lemma UntilCountsDown(ticks: nat)
    requires ticks < TWO_64
    ensures Wrap64(ticks + 1) % QUANTUM == 0 <==> Until(ticks) == 1
    ensures Until(ticks) > 1 ==> Until(Wrap64(ticks + 1)) == Until(ticks) - 1
  {
    if ticks + 1 < TWO_64 {
      assert Wrap64(ticks + 1) == ticks + 1;
    }
  }

  // Ticks that may still pass before t is served.
  ghost function Patience(d: Ideal, t: nat): nat
    requires d.current < |d.states| && t < |d.states| && d.ticks < TWO_64
  {
    10 * (Distance(d.current, t, |d.states|) - 1) + Until(d.ticks)
  }

  ghost function TickCount(evs: seq<Event>): nat {
    if evs == [] then 0 else (if evs[0].Tick? then 1 else 0) + TickCount(evs[1..])
  }

  lemma PatienceRunsOut(d: Ideal, e: Event, t: nat)
    requires Waiting(d, t) && d.ticks < TWO_64 && IdealStep(d, e).current != t
    ensures var r := IdealStep(d, e);
            && Waiting(r, t) && r.ticks < TWO_64
            && Patience(r, t) <= Patience(d, t) - (if e.Tick? then 1 else 0)
  {
    StepApproaches(d, e, t);
    UntilCountsDown(d.ticks);
    TicksAfter(d, e);
  }

  lemma TicksAfter(d: Ideal, e: Event)
    requires d.current < |d.states| && !d.halted
    ensures IdealStep(d, e).ticks == if e.Tick? then Wrap64(d.ticks + 1) else d.ticks
  {
  }

  lemma {:induction false} ServedWithinTicks(d: Ideal, evs: seq<Event>, t: nat)
    requires Waiting(d, t) && d.ticks < TWO_64 && Patience(d, t) <= TickCount(evs)
    ensures Served(d, evs, t)
    decreases |evs|
  {
    if IdealStep(d, evs[0]).current != t {
      PatienceRunsOut(d, evs[0], t);
      ServedWithinTicks(IdealStep(d, evs[0]), evs[1..], t);
    }
  }

  // Hence within ten ticks for each step of the ring.
  lemma ServedWithinTenTimesDistance(d: Ideal, evs: seq<Event>, t: nat)
    requires Waiting(d, t) && d.ticks < TWO_64
    requires 10 * Distance(d.current, t, |d.states|) <= TickCount(evs)
    ensures Served(d, evs, t)
  {
    ServedWithinTicks(d, evs, t);
  }

  // ---- On the machine with its stacks and frames ----

  // Being served is being current after some first part of the events.
  lemma {:induction false} ServedAfter(d: Ideal, evs: seq<Event>, t: nat) returns (k: nat)
    requires d.current < |d.states| && Served(d, evs, t)
    ensures k <= |evs| && IdealRun(d, evs[..k]).current == t
    decreases |evs|
  {
    if d.current == t {
      k := 0;
    } else {
      var n := ServedAfter(IdealStep(d, evs[0]), evs[1..], t);
      k := n + 1;
      assert evs[..k][1..] == evs[1..][..n];
    }
  }

  // A task that is ready to run becomes current on the machine itself, within ten ticks for each step of the ring.
  lemma RunServes(m: Machine, evs: seq<Event>, t: nat) returns (k: nat)
    requires Inv(m) && EventsOk(evs) && !m.halted && m.ticks < TWO_64
    requires t < |m.tasks| && t != m.current && Runnable(m.tasks[t].state)
    requires 10 * Distance(m.current, t, |m.tasks|) <= TickCount(evs)
    ensures k <= |evs| && EventsOk(evs[..k]) && Run(m, evs[..k]).current == t
  {
    InvFramesIn(m);
    var d := View(m);
    ServedWithinTenTimesDistance(d, evs, t);
    k := ServedAfter(d, evs, t);
    RunMatches(m, evs[..k]);
  }
}

/** Whole runs of the scheduler: the task tree, chains of waits, and fairness. */
module TaskRuns {
  import opened Basics
  import opened Tasks
  import opened TaskInvariants

  ghost predicate IsRun(run: seq<Sched>, events: seq<Event>) {
    && |run| == |events| + 1
    && forall i :: 0 <= i < |events| ==> Enabled(run[i], events[i]) && CanDo(run[i], events[i]) && run[i + 1] == Do(run[i], events[i])
  }

  /** Over every run of spawns, preemptions, waits and exits the invariant holds throughout. */
  lemma {:induction false} EveryRunKeepsInv(run: seq<Sched>, events: seq<Event>, n: nat)
    requires IsRun(run, events) && Inv(run[0]) && n < |run|
    ensures Inv(run[n])
  {
    hide Inv, Enabled, CanDo, Do;
    if n > 0 {
      EveryRunKeepsInv(run, events, n - 1);
      EventKeepsInv(run[n - 1], events[n - 1]);
    }
  }

  /** A run never stops at a missing successor: whatever the caller may ask next can be done. */
  lemma NeverStuck(run: seq<Sched>, events: seq<Event>, n: nat, e: Event)
    requires IsRun(run, events) && Inv(run[0]) && n < |run| && Enabled(run[n], e)
    ensures CanDo(run[n], e)
    ensures run[n].current != KERNEL ==> run[n].ready != []
  {
    EveryRunKeepsInv(run, events, n);
    hide Inv;
    EnabledCanDo(run[n], e);
    if run[n].current != KERNEL {
      KernelIsQueued(run[n]);
    }
  }

  /** Every live task is in exactly one place, and its tag says which. */
  lemma OnePlaceEach(s: Sched, id: nat)
    requires Inv(s) && id in s.tasks
    ensures (id == s.current) == (s.tasks[id].state == Running)
    ensures (id in s.ready) == (s.tasks[id].state == Ready)
    ensures (id in s.sleeping) == (s.tasks[id].state == Sleeping)
    ensures (id in s.exited) == s.tasks[id].state.Exited?
  {
  }

  // ----- the tree

  ghost predicate ChildOf(s: Sched, a: nat, p: nat) {
    a in s.tasks && p in s.tasks && Live(s, a) && s.tasks[a].parent == Some(p) && p < a && a in s.tasks[p].children
  }

  ghost predicate ParentLinks(s: Sched, path: seq<nat>) {
    forall i :: 0 <= i < |path| - 1 ==> ChildOf(s, path[i], path[i + 1])
  }

  lemma ChildBefore(s: Sched, id: nat, path: seq<nat>)
    requires path != [] && ChildOf(s, id, path[0]) && ParentLinks(s, path)
    ensures ParentLinks(s, [id] + path)
  {
    hide ChildOf;
    var more := [id] + path;
    forall i | 0 <= i < |more| - 1
      ensures ChildOf(s, more[i], more[i + 1])
    {
      if i > 0 {
        assert ChildOf(s, path[i - 1], path[i]);
      }
    }
  }

  lemma ParentOf(s: Sched, id: nat)
    requires TreeInv(s) && Live(s, id) && id in s.tasks && id != KERNEL
    ensures var p := s.tasks[id].parent; p.Some? && p.value in s.tasks && Live(s, p.value) && ChildOf(s, id, p.value)
  {
    assert HasParent(s, id);
  }

  /** The way up from a live task to the kernel task. */
  ghost function Ancestors(s: Sched, id: nat): (path: seq<nat>)
    requires TreeInv(s) && Live(s, id) && id in s.tasks
    ensures path != [] && path[0] == id && path[|path| - 1] == KERNEL && Live(s, KERNEL) && ParentLinks(s, path)
    decreases id
  {
    if id == KERNEL then assert Live(s, KERNEL); [id]
    else
      ParentOf(s, id);
      hide TreeInv, ParentLinks, Live;
      var rest := Ancestors(s, s.tasks[id].parent.value);
      ChildBefore(s, id, rest);
      [id] + rest
  }

  // ----- waiting

  /** No sleeper waits for a task that has already exited. */
  lemma AwaitedIsLive(s: Sched, id: nat)
    requires Inv(s) && id in s.sleeping && id in s.tasks
    ensures s.tasks[id].waitingFor.Some?
    ensures var c := s.tasks[id].waitingFor.value;
            Live(s, c) && c !in s.exited && c !in s.codes && c in s.tasks && id < c
  {
  }

  /** Sleeper `a` waits for `b`, which was created later. */
  ghost predicate WaitsFor(s: Sched, a: nat, b: nat) {
    a in s.tasks && a in s.sleeping && s.tasks[a].waitingFor == Some(b) && a < b
  }

  ghost predicate WaitLinks(s: Sched, chain: seq<nat>) {
    forall i :: 0 <= i < |chain| - 1 ==> WaitsFor(s, chain[i], chain[i + 1])
  }

  lemma LinkBefore(s: Sched, id: nat, chain: seq<nat>)
    requires chain != [] && WaitsFor(s, id, chain[0]) && WaitLinks(s, chain)
    ensures WaitLinks(s, [id] + chain)
  {
    hide WaitsFor;
    var more := [id] + chain;
    forall i | 0 <= i < |more| - 1
      ensures WaitsFor(s, more[i], more[i + 1])
    {
      if i > 0 {
        assert WaitsFor(s, chain[i - 1], chain[i]);
      }
    }
  }

  /** Following who waits for whom ends at a task that can run. */
  ghost function WaitChain(s: Sched, id: nat): (chain: seq<nat>)
    requires Inv(s) && Live(s, id) && id in s.tasks && id < s.nextId
    ensures chain != [] && chain[0] == id && WaitLinks(s, chain)
    ensures var last := chain[|chain| - 1]; last in s.tasks && (last == s.current || last in s.ready)
    decreases s.nextId - id
  {
    hide Inv, WaitLinks;
    if id !in s.sleeping then SingleLink(s, id); [id]
    else
      AwaitedIsLive(s, id);
      BelowNextId(s, s.tasks[id].waitingFor.value);
      var rest := WaitChain(s, s.tasks[id].waitingFor.value);
      LinkBefore(s, id, rest);
      [id] + rest
  }

  lemma SingleLink(s: Sched, id: nat)
    ensures WaitLinks(s, [id])
  {
  }

  lemma BelowNextId(s: Sched, id: nat)
    requires Inv(s) && id in s.tasks
    ensures id < s.nextId
  {
  }

  /** A run of calls that can be done, whether or not they are enabled. */
  ghost predicate IsRawRun(run: seq<Sched>, events: seq<Event>) {
    && |run| == |events| + 1
    && forall i :: 0 <= i < |events| ==> CanDo(run[i], events[i]) && run[i + 1] == Do(run[i], events[i])
  }

  /** Tasks 1 and 2 both wait for task 3, their sibling; its exit wakes task 1, and task 2 sleeps on after its code was left. */
  lemma SecondWaiterSleepsOn() returns (run: seq<Sched>, events: seq<Event>)
    ensures IsRawRun(run, events) && run[0] == Initial() && |events| == 7
    ensures var s := run[7];
            && s.current == 1 && 3 in s.codes && !Live(s, 3)
            && 2 in s.sleeping && 2 in s.tasks && s.tasks[2].waitingFor == Some(3)
  {
    hide Initial, DoSpawn, DoPreempt, DoWait, DoExit;
    var s1, s2, s3 := ThreeSpawned();
    var s4 := FirstRuns(s3);
    var s5 := CallerSleeps(s4, 3);
    var s6 := CallerSleeps(s5, 3);
    var s7 := FirstWaiterServed(s6);
    run := [Initial(), s1, s2, s3, s4, s5, s6, s7];
    events := [Spawn, Spawn, Spawn, Preempt, Wait(3), Wait(3), Exit(7)];
  }

  lemma ThreeSpawned() returns (s1: Sched, s2: Sched, s3: Sched)
    ensures CanDo(Initial(), Spawn) && s1 == DoSpawn(Initial()) && CanDo(s1, Spawn) && s2 == DoSpawn(s1)
    ensures CanDo(s2, Spawn) && s3 == DoSpawn(s2)
    ensures s3.ready == [1, 2, 3] && s3.current == 0 && s3.tasks.Keys == {0, 1, 2, 3}
    ensures s3.sleeping == [] && s3.exited == [] && s3.codes == map[]
  {
    s1 := DoSpawn(Initial());
    s2 := DoSpawn(s1);
    s3 := DoSpawn(s2);
  }

  lemma FirstRuns(s: Sched) returns (s': Sched)
    requires s.ready == [1, 2, 3] && s.current == 0 && s.tasks.Keys == {0, 1, 2, 3}
    requires s.sleeping == [] && s.exited == [] && s.codes == map[]
    ensures CanDo(s, Preempt) && s' == DoPreempt(s)
    ensures s'.ready == [2, 3, 0] && s'.current == 1 && s'.tasks.Keys == {0, 1, 2, 3}
    ensures s'.sleeping == [] && s'.exited == [] && s'.codes == map[]
  {
    s' := DoPreempt(s);
  }

  /** A wait for a task without a code: the caller sleeps, whatever task it names, and the others wait as they did. */
  lemma CallerSleeps(s: Sched, c: nat) returns (s': Sched)
    requires Boxed(s) && s.ready != [] && c !in s.codes && s.current !in s.sleeping && s.ready[0] !in s.sleeping && s.current != s.ready[0]
    ensures CanDo(s, Wait(c)) && s' == DoWait(s, c)
    ensures s'.ready == s.ready[1..] && s'.current == s.ready[0] && s'.sleeping == s.sleeping + [s.current] && s'.exited == s.exited
    ensures s'.codes == s.codes && s'.tasks.Keys == s.tasks.Keys && s'.tasks[s.current].waitingFor == Some(c)
    ensures forall id :: id in s.sleeping && id in s.tasks ==> s'.tasks[id].waitingFor == s.tasks[id].waitingFor
  {
    s' := DoWait(s, c);
  }

  lemma FirstWaiterServed(s: Sched) returns (s': Sched)
    requires s.ready == [0] && s.current == 3 && s.sleeping == [1, 2] && s.exited == [] && s.tasks.Keys == {0, 1, 2, 3}
    requires s.tasks[1].waitingFor == Some(3) && s.tasks[2].waitingFor == Some(3)
    ensures CanDo(s, Exit(7)) && s' == DoExit(s, 7)
    ensures s'.current == 1 && s'.ready == [0] && s'.sleeping == [2] && 3 in s'.codes
    ensures 2 in s'.tasks && s'.tasks[2].waitingFor == Some(3)
  {
    var m := AfterExitLinks(s, 7);
    assert 1 in m && 2 in m && m[1].waitingFor == Some(3) && m[2].waitingFor == Some(3);
    hide AfterExitLinks;
    assert WaiterAt(m, s.sleeping, 3) == 0;
    s' := DoExit(s, 7);
    assert s'.sleeping == s.sleeping[1..];
  }

  /** When a task exits, the one task waiting for it runs next and finds its exit code. */
  lemma ExitServesWaiter(s: Sched, code: int, w: nat)
    requires Inv(s) && s.current != KERNEL && w in s.sleeping && w in s.tasks && s.tasks[w].waitingFor == Some(s.current)
    ensures CanDo(s, Exit(code))
    ensures DoExit(s, code).current == w && DoExit(s, code).ready == s.ready
    ensures s.current in DoExit(s, code).codes && DoExit(s, code).codes[s.current] == code
  {
    EnabledCanDo(s, Exit(code));
    ExitSleepers(s, code);
    hide TreeInv, TagInv, Distinct, AfterExitLinks;
    var i := WaiterAt(AfterExitLinks(s, code), s.sleeping, s.current);
    assert i < |s.sleeping|;
    hide WaiterAt;
    WaiterIsParent(s, w);
    WaiterSleeps(s, code, i);
  }

  lemma WaiterSleeps(s: Sched, code: int, i: nat)
    requires QueueInv(s) && WaitInv(s) && CanDo(s, Exit(code)) && i == WaiterAt(AfterExitLinks(s, code), s.sleeping, s.current)
    requires i < |s.sleeping|
    ensures s.sleeping[i] in s.tasks && s.tasks[s.current].parent == Some(s.sleeping[i])
  {
  }

  // ----- fairness

  /** Whether the event takes the front of the ready queue. */
  ghost predicate Pops(s: Sched, e: Event)
    requires CanDo(s, e)
  {
    match e
    case Spawn => false
    case Preempt => s.ready != []
    case Wait(c) => c !in s.codes
    case Exit(code) => WaiterAt(AfterExitLinks(s, code), s.sleeping, s.current) == |s.sleeping|
    case TakeCode(_) => false
  }

  /** Whether the event gives the processor to a woken waiter instead. */
  ghost predicate HandsOver(s: Sched, e: Event)
    requires CanDo(s, e)
  {
    e.Exit? && !Pops(s, e)
  }

  function LiveCount(s: Sched): nat { 1 + |s.ready| + |s.sleeping| }

  /** One event: the queue position falls by one exactly when the front is taken, and never rises. */
  lemma PositionAfter(s: Sched, e: Event, p: nat)
    requires CanDo(s, e) && p < |s.ready|
    ensures var s' := Do(s, e);
            if Pops(s, e) then (if p == 0 then s'.current == s.ready[0] else p - 1 < |s'.ready| && s'.ready[p - 1] == s.ready[p])
            else p < |s'.ready| && s'.ready[p] == s.ready[p]
    ensures LiveCount(Do(s, e)) == LiveCount(s) + (if e.Spawn? then 1 else 0) - (if e.Exit? then 1 else 0)
  {
  }

  ghost function CountPops(run: seq<Sched>, events: seq<Event>, n: nat): nat
    requires IsRun(run, events) && n <= |events|
  {
    if n == 0 then 0 else CountPops(run, events, n - 1) + (if Pops(run[n - 1], events[n - 1]) then 1 else 0)
  }

  ghost function CountHandovers(run: seq<Sched>, events: seq<Event>, n: nat): nat
    requires IsRun(run, events) && n <= |events|
  {
    if n == 0 then 0 else CountHandovers(run, events, n - 1) + (if HandsOver(run[n - 1], events[n - 1]) then 1 else 0)
  }

  ghost function CountSpawns(events: seq<Event>, n: nat): nat
    requires n <= |events|
  {
    if n == 0 then 0 else CountSpawns(events, n - 1) + (if events[n - 1].Spawn? then 1 else 0)
  }

  /** Until it runs, a ready task's position is what it was less the number of times the front was taken. */
  lemma {:induction false} PositionAlongRun(run: seq<Sched>, events: seq<Event>, p: nat, n: nat)
    requires IsRun(run, events) && n <= |events| && p < |run[0].ready|
    requires forall i :: 0 <= i <= n ==> run[i].current != run[0].ready[p]
    ensures CountPops(run, events, n) <= p
    ensures var q := p - CountPops(run, events, n); q < |run[n].ready| && run[n].ready[q] == run[0].ready[p]
  {
    hide CanDo, Do, Pops, Enabled;
    if n > 0 {
      PositionAlongRun(run, events, p, n - 1);
      PositionAfter(run[n - 1], events[n - 1], p - CountPops(run, events, n - 1));
    }
  }

  lemma {:induction false} HandoversBounded(run: seq<Sched>, events: seq<Event>, p: nat, n: nat)
    requires IsRun(run, events) && n <= |events| && p < |run[0].ready|
    requires forall i :: 0 <= i <= n ==> run[i].current != run[0].ready[p]
    ensures CountHandovers(run, events, n) + LiveCount(run[n]) <= LiveCount(run[0]) + CountSpawns(events, n)
  {
    hide CanDo, Do, Pops, Enabled, LiveCount;
    if n > 0 {
      HandoversBounded(run, events, p, n - 1);
      PositionAlongRun(run, events, p, n - 1);
      PositionAfter(run[n - 1], events[n - 1], p - CountPops(run, events, n - 1));
    }
  }

  /**
   * A ready task waits for at most as many switches as its queue position, the
   * tasks alive and the tasks spawned meanwhile: in every longer run it runs.
   */
  lemma EveryReadyTaskRuns(run: seq<Sched>, events: seq<Event>, p: nat, n: nat)
    requires IsRun(run, events) && n <= |events| && p < |run[0].ready|
    requires CountPops(run, events, n) + CountHandovers(run, events, n) >= p + LiveCount(run[0]) + CountSpawns(events, n)
    ensures exists i :: 0 <= i <= n && run[i].current == run[0].ready[p]
  {
    if forall i :: 0 <= i <= n ==> run[i].current != run[0].ready[p] {
      WaitsBounded(run, events, p, n);
    }
  }

  lemma WaitsBounded(run: seq<Sched>, events: seq<Event>, p: nat, n: nat)
    requires IsRun(run, events) && n <= |events| && p < |run[0].ready|
    requires forall i :: 0 <= i <= n ==> run[i].current != run[0].ready[p]
    ensures CountPops(run, events, n) + CountHandovers(run, events, n) < p + LiveCount(run[0]) + CountSpawns(events, n)
  {
    PositionAlongRun(run, events, p, n);
    HandoversBounded(run, events, p, n);
    hide CanDo, Do, Pops, Enabled;
  }
}

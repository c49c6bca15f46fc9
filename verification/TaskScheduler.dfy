/** The scheduler object of kernel/src/task/scheduler.rs, proved against the events of `Tasks`. */
module TaskScheduler {
  import opened Basics
  import opened Tasks
  import opened TaskInvariants

  /** Links part-way through the exit of `x`: its first `k` children have been handed on. */
  function RelinkedUpTo(t: Task, id: nat, x: nat, ex: Task, k: nat): Task
    requires k <= |ex.children|
  {
    t.(parent := if id in ex.children[..k] then Some(NewParent(ex)) else t.parent,
       children := (if ex.parent == Some(id) then Without(t.children, x) else t.children) +
                   (if id == NewParent(ex) then ex.children[..k] else []))
  }

  /** The boxes after the first `k` children have been handed on. */
  ghost predicate HandedOn(s: Sched, tasks: map<nat, Task>, k: nat)
    requires s.current in s.tasks && k <= |s.tasks[s.current].children|
  {
    && tasks.Keys == s.tasks.Keys && tasks[s.current] == s.tasks[s.current]
    && forall id :: id in s.tasks && id != s.current ==>
         tasks[id] == if id in s.ready || id in s.sleeping
                      then RelinkedUpTo(s.tasks[id], id, s.current, s.tasks[s.current], k) else s.tasks[id]
  }

  /** One box when the child at `k` is handed on. */
  lemma HandedOnBox(s: Sched, ex: Task, t: Task, id: nat, k: nat)
    requires k < |ex.children|
    ensures var was, now := RelinkedUpTo(t, id, s.current, ex, k), RelinkedUpTo(t, id, s.current, ex, k + 1);
            var c, np := ex.children[k], NewParent(ex);
            var mid := if id == c then was.(parent := Some(np)) else was;
            now == if id == np then mid.(children := mid.children + [c]) else mid
  {
    hide Without, NewParent;
    assert ex.children[..k + 1] == ex.children[..k] + [ex.children[k]];
  }

  lemma HandedOnStep(s: Sched, tasks: map<nat, Task>, k: nat, tasks': map<nat, Task>)
    requires s.current in s.tasks && k < |s.tasks[s.current].children| && HandedOn(s, tasks, k)
    requires s.current !in s.ready && s.current !in s.sleeping
    requires var ex := s.tasks[s.current];
             var c, np := ex.children[k], NewParent(ex);
             var mid := if c in s.tasks && (c in s.ready || c in s.sleeping) then tasks[c := tasks[c].(parent := Some(np))] else tasks;
             tasks' == if np in s.tasks && (np in s.ready || np in s.sleeping)
                       then mid[np := mid[np].(children := mid[np].children + [c])] else mid
    ensures HandedOn(s, tasks', k + 1)
  {
    hide RelinkedUpTo, NewParent;
    var ex := s.tasks[s.current];
    forall id | id in s.tasks && id != s.current
      ensures tasks'[id] == if id in s.ready || id in s.sleeping then RelinkedUpTo(s.tasks[id], id, s.current, ex, k + 1) else s.tasks[id]
    {
      HandedOnBox(s, ex, s.tasks[id], id, k);
    }
  }

  lemma HandedOnAll(s: Sched, tasks: map<nat, Task>, code: int)
    requires s.current in s.tasks && HandedOn(s, tasks, |s.tasks[s.current].children|)
    ensures AfterExitLinks(s, code) ==
            Dropped(tasks[s.current := s.tasks[s.current].(state := Exited(code), children := [])], s.exited)
  {
    var ch := s.tasks[s.current].children;
    assert ch[..|ch|] == ch;
    hide Without;
  }

  class Scheduler {
    var tasks: map<nat, Task>
    var ready: seq<nat>
    var current: nat
    var sleeping: seq<nat>
    var exited: seq<nat>
    var codes: map<nat, int>
    var nextId: nat

    ghost function Abs(): Sched
      reads this
    {
      Sched(tasks, ready, current, sleeping, exited, codes, nextId)
    }

    ghost predicate Valid()
      reads this
    {
      Inv(Abs())
    }

    constructor ()
      ensures Valid() && Abs() == Initial()
    {
      tasks, ready, current, sleeping := map[KERNEL := Task(Running, None, None, [])], [], KERNEL, [];
      exited, codes, nextId := [], map[], 1;
      InitialInv();
    }

    method SpawnUserTask() returns (id: nat)
      requires Valid()
      modifies this
      ensures Valid() && Abs() == DoSpawn(old(Abs())) && id == old(nextId)
    {
      hide Inv;
      Boxes(Abs());
      SpawnKeepsInv(Abs());
      id := nextId;
      tasks := tasks[id := Task(Ready, None, Some(current), [])];
      ready, nextId := ready + [id], nextId + 1;
      tasks := tasks[current := tasks[current].(children := tasks[current].children + [id])];
    }

    /** Round robin; tells whether there was another task to switch to. */
    method PickNextTask() returns (switched: bool)
      requires Valid()
      modifies this
      ensures Valid() && Boxed(old(Abs())) && Abs() == DoPreempt(old(Abs()))
      ensures switched <==> old(ready) != []
      ensures old(current) != KERNEL ==> switched
    {
      hide Inv, Dropped;
      PreemptKeepsInv(Abs());
      if current != KERNEL {
        KernelIsQueued(Abs());
      }
      switched := ready != [];
      if switched {
        var prev, next := current, ready[0];
        ready := ready[1..];
        tasks := tasks[prev := tasks[prev].(state := Ready)];
        tasks := tasks[next := tasks[next].(state := Running)];
        ready := ready + [prev];
        current := next;
      }
      tasks := Dropped(tasks, exited);
      exited := [];
    }

    /** Sleeps until `child` exits, unless its exit code is already there; the invariant survives exactly an enabled wait. */
    method TrySleepCurrentWaitingFor(child: nat) returns (slept: bool)
      requires Valid() && CanDo(Abs(), Wait(child))
      modifies this
      ensures Abs() == DoWait(old(Abs()), child)
      ensures Valid() <==> Enabled(old(Abs()), Wait(child))
      ensures slept <==> child !in old(codes)
    {
      hide Inv, Enabled;
      WaitIsSafeIff(Abs(), child);
      if child in codes {
        return false;
      }
      tasks := tasks[current := tasks[current].(waitingFor := Some(child), state := Sleeping)];
      sleeping := sleeping + [current];
      current := ready[0];
      ready := ready[1..];
      tasks := tasks[current := tasks[current].(state := Running)];
      slept := true;
    }

    method TakeExitCode(id: nat) returns (code: Option<int>)
      requires Valid()
      modifies this`codes
      ensures Valid() && Abs() == DoTakeCode(old(Abs()), id)
      ensures code == if id in old(codes) then Some(old(codes)[id]) else None
    {
      TakeCodeKeepsInv(Abs(), id);
      hide Inv;
      code := if id in codes then Some(codes[id]) else None;
      codes := codes - {id};
    }

    /** Hands the children of the exiting task on to its parent, one by one. */
    method HandOnChildren(ghost s: Sched)
      requires s == Abs() && QueueInv(s)
      modifies this`tasks
      ensures s.current in s.tasks && HandedOn(s, tasks, |s.tasks[s.current].children|)
      ensures current in tasks && tasks[current] == s.tasks[s.current]
    {
      var ex := tasks[current];
      if ex.parent.Some? {
        var p := ex.parent.value;
        if p in ready || p in sleeping {
          tasks := tasks[p := tasks[p].(children := Without(tasks[p].children, current))];
        }
      }
      var np := NewParent(ex);
      HandedOnStart(s, tasks);
      hide QueueInv, Without, HandedOn, NewParent;
      for k := 0 to |ex.children|
        invariant HandedOn(s, tasks, k) && tasks.Keys == s.tasks.Keys && tasks[current] == ex
      {
        ghost var tasks0 := tasks;
        var c := ex.children[k];
        if c in ready || c in sleeping {
          tasks := tasks[c := tasks[c].(parent := Some(np))];
        }
        if np in ready || np in sleeping {
          tasks := tasks[np := tasks[np].(children := tasks[np].children + [c])];
        }
        HandedOnNext(s, tasks0, k, tasks);
      }
    }

    /** Ends the current task and picks its successor: its waiter first, else the front of the queue; task 0 must not. */
    method PickNextTaskOnExit(code: int)
      requires Valid() && ready != []
      modifies this
      ensures CanDo(old(Abs()), Exit(code)) && Abs() == DoExit(old(Abs()), code)
      ensures Valid() <==> old(current) != KERNEL
    {
      hide Inv, QueueInv, HandedOn, AfterExitLinks, WaiterAt, Dropped;
      ghost var s := Abs();
      Boxes(s);
      InvBoxed(s);
      ExitIsSafeIff(s, code);
      HandOnChildren(s);
      HandedOnAll(s, tasks, code);
      AfterExitKeys(s, code);
      tasks := tasks[current := ExitedBox(tasks[current], code)];
      tasks := Dropped(tasks, exited);
      assert tasks == AfterExitLinks(s, code);
      Succeed(s, code);
    }

    /** The part of an exit after the links are mended. */
    method Succeed(ghost s: Sched, code: int)
      requires CanDo(s, Exit(code)) && tasks == AfterExitLinks(s, code)
      requires Abs() == s.(tasks := tasks)
      requires forall id :: id in tasks <==> id in s.tasks && id !in s.exited
      modifies this
      ensures Abs() == DoExit(s, code)
    {
      hide AfterExitLinks, WaiterAt;
      exited := [current];
      codes := codes[current := code];
      var i := FindWaiter(current);
      if i < |sleeping| {
        var w := sleeping[i];
        sleeping := sleeping[..i] + sleeping[i + 1..];
        tasks := tasks[w := tasks[w].(state := Ready, waitingFor := None)];
        ready := [w] + ready;
      }
      current := ready[0];
      ready := ready[1..];
      tasks := tasks[current := tasks[current].(state := Running)];
    }

    /** The place of the first sleeper waiting for `x`. */
    method FindWaiter(x: nat) returns (i: nat)
      requires forall j :: 0 <= j < |sleeping| ==> sleeping[j] in tasks
      ensures i == WaiterAt(tasks, sleeping, x)
    {
      i := 0;
      while i < |sleeping| && tasks[sleeping[i]].waitingFor != Some(x)
        invariant i <= |sleeping|
        invariant forall j :: 0 <= j < i ==> tasks[sleeping[j]].waitingFor != Some(x)
      {
        i := i + 1;
      }
      var k := WaiterAt(tasks, sleeping, x);
      assert k < |sleeping| ==> tasks[sleeping[k]].waitingFor == Some(x);
    }
  }

  lemma Boxes(s: Sched)
    requires Inv(s)
    ensures QueueInv(s) && Boxed(s) && s.nextId !in s.tasks
  {
  }

  function ExitedBox(t: Task, code: int): Task {
    t.(state := Exited(code), children := [])
  }

  lemma HandedOnStart(s: Sched, tasks: map<nat, Task>)
    requires QueueInv(s) && s.current in s.tasks
    requires var ex := s.tasks[s.current];
             tasks == if ex.parent.Some? && (ex.parent.value in s.ready || ex.parent.value in s.sleeping)
                      then s.tasks[ex.parent.value := s.tasks[ex.parent.value].(children := Without(s.tasks[ex.parent.value].children, s.current))]
                      else s.tasks
    ensures HandedOn(s, tasks, 0)
  {
  }

  lemma HandedOnNext(s: Sched, tasks: map<nat, Task>, k: nat, tasks': map<nat, Task>)
    requires QueueInv(s) && s.current in s.tasks && k < |s.tasks[s.current].children| && HandedOn(s, tasks, k)
    requires tasks.Keys == s.tasks.Keys
    requires var ex := s.tasks[s.current];
             var c, np := ex.children[k], NewParent(ex);
             var mid := if c in s.ready || c in s.sleeping then tasks[c := tasks[c].(parent := Some(np))] else tasks;
             tasks' == if np in s.ready || np in s.sleeping
                       then mid[np := mid[np].(children := mid[np].children + [c])] else mid
    ensures HandedOn(s, tasks', k + 1) && tasks'.Keys == s.tasks.Keys && tasks'[s.current] == s.tasks[s.current]
  {
    QueuesApart(s);
    assert s.current !in s.ready && s.current !in s.sleeping;
    hide QueueInv;
    HandedOnStep(s, tasks, k, tasks');
  }
}

/**
 * What a run of the scheduler leaves, told from its history: a task's parent is
 * its nearest ancestor by spawning that is still alive, and an exit code is kept
 * from the exit until it is taken.
 */
module TaskHistory {
  import opened Basics
  import opened Tasks
  import opened TaskInvariants
  import opened TaskRuns

  // ----- who spawned whom

  /** For each task spawned in the first `n` events, the task that spawned it. */
  ghost function Spawners(run: seq<Sched>, events: seq<Event>, n: nat): map<nat, nat>
    requires |run| == |events| + 1 && n <= |events|
  {
    if n == 0 then map[]
    else if events[n - 1].Spawn? then Spawners(run, events, n - 1)[run[n - 1].nextId := run[n - 1].current]
    else Spawners(run, events, n - 1)
  }

  /** Spawners are older than the tasks they spawn, and are the kernel task or were spawned themselves. */
  ghost predicate Rooted(sp: map<nat, nat>) {
    KERNEL !in sp && forall id :: id in sp ==> sp[id] < id && (sp[id] == KERNEL || sp[id] in sp)
  }

  /** The nearest ancestor by spawning that is alive. */
  ghost function Nearest(s: Sched, sp: map<nat, nat>, id: nat): nat
    requires Rooted(sp) && id in sp
    decreases id
  {
    if Live(s, sp[id]) || sp[id] == KERNEL then sp[id] else Nearest(s, sp, sp[id])
  }

  /** Every live task but the kernel task was spawned, and its parent is its nearest live ancestor. */
  ghost predicate Descends(s: Sched, sp: map<nat, nat>) {
    && Rooted(sp) && (forall id :: id in sp ==> id < s.nextId)
    && forall id :: id in s.tasks && Live(s, id) && id != KERNEL ==> id in sp && s.tasks[id].parent == Some(Nearest(s, sp, id))
  }

  // ----- one event

  /** Adding a spawner for a new id changes no ancestor of an older task, while older tasks live on as they did. */
  lemma {:induction false} NearestSpawn(s: Sched, s': Sched, sp: map<nat, nat>, child: nat, spawner: nat, id: nat)
    requires Rooted(sp) && Rooted(sp[child := spawner]) && id in sp && child !in sp && id < child
    requires forall a: nat :: a < child ==> (Live(s', a) <==> Live(s, a))
    ensures Nearest(s', sp[child := spawner], id) == Nearest(s, sp, id)
    decreases id
  {
    if !Live(s, sp[id]) && sp[id] != KERNEL {
      NearestSpawn(s, s', sp, child, spawner, sp[id]);
    }
  }

  lemma {:induction false} NearestSame(s: Sched, s': Sched, sp: map<nat, nat>, id: nat)
    requires Rooted(sp) && id in sp && forall a :: Live(s', a) <==> Live(s, a)
    ensures Nearest(s', sp, id) == Nearest(s, sp, id)
    decreases id
  {
    if !Live(s, sp[id]) && sp[id] != KERNEL {
      NearestSame(s, s', sp, sp[id]);
    }
  }

  /** When one task dies, those whose nearest live ancestor it was go on to its own. */
  lemma {:induction false} NearestExit(s: Sched, s': Sched, sp: map<nat, nat>, id: nat)
    requires Rooted(sp) && id in sp && s.current in sp && s.current != KERNEL && Live(s, KERNEL)
    requires forall a :: Live(s', a) <==> Live(s, a) && a != s.current
    ensures Nearest(s', sp, id) == if Nearest(s, sp, id) == s.current then Nearest(s, sp, s.current) else Nearest(s, sp, id)
    decreases id
  {
    if sp[id] == KERNEL {
    } else if sp[id] == s.current {
      NearestAbove(s, s', sp, s.current);
    } else if !Live(s, sp[id]) {
      NearestExit(s, s', sp, sp[id]);
    }
  }

  /** The ancestors of a task are older, so its own death changes none of them. */
  lemma {:induction false} NearestAbove(s: Sched, s': Sched, sp: map<nat, nat>, id: nat)
    requires Rooted(sp) && id in sp && id <= s.current
    requires forall a: nat :: a < s.current ==> (Live(s', a) <==> Live(s, a))
    ensures Nearest(s', sp, id) == Nearest(s, sp, id)
    decreases id
  {
    if !Live(s, sp[id]) && sp[id] != KERNEL {
      NearestAbove(s, s', sp, sp[id]);
    }
  }

  /** Only the new task and its spawner's list of children change. */
  lemma SpawnBoxes(s: Sched)
    requires Inv(s)
    ensures s.current in s.tasks && s.nextId !in s.tasks && KERNEL < s.nextId && s.current < s.nextId
    ensures var s' := DoSpawn(s);
            && s'.nextId == s.nextId + 1 && (forall a: nat :: Live(s', a) <==> Live(s, a) || a == s.nextId)
            && (forall id :: id in s'.tasks <==> id in s.tasks || id == s.nextId)
            && s'.tasks[s.nextId].parent == Some(s.current)
            && forall id :: id in s.tasks ==> s'.tasks[id].parent == s.tasks[id].parent
  {
    CurrentBoxed(s);
    IdsBelow(s);
    hide Inv, QueueInv;
    SpawnLive(s);
  }

  lemma RootedMore(sp: map<nat, nat>, child: nat, spawner: nat)
    requires Rooted(sp) && KERNEL < child && spawner < child && (spawner == KERNEL || spawner in sp)
    ensures Rooted(sp[child := spawner])
  {
  }

  lemma SpawnDescends(s: Sched, sp: map<nat, nat>)
    requires Inv(s) && Descends(s, sp)
    ensures s.current in s.tasks && Descends(DoSpawn(s), sp[s.nextId := s.current])
  {
    hide Inv, DoSpawn, Live, Rooted, Nearest;
    SpawnBoxes(s);
    CurrentLives(s);
    var s', sp', child := DoSpawn(s), sp[s.nextId := s.current], s.nextId;
    RootedMore(sp, child, s.current);
    forall id | id in s'.tasks && Live(s', id) && id != KERNEL
      ensures id in sp' && s'.tasks[id].parent == Some(Nearest(s', sp', id))
    {
      if id == child {
        SpawnerIsNearest(s', sp', id);
      } else {
        NearestSpawn(s, s', sp, child, s.current, id);
      }
    }
  }

  lemma CurrentLives(s: Sched)
    ensures Live(s, s.current)
  {
  }

  lemma SpawnerIsNearest(s: Sched, sp: map<nat, nat>, id: nat)
    requires Rooted(sp) && id in sp && Live(s, sp[id])
    ensures Nearest(s, sp, id) == sp[id]
  {
  }

  lemma IdsBelow(s: Sched)
    requires Inv(s)
    ensures QueueInv(s) && s.nextId !in s.tasks && (forall id :: id in s.tasks ==> id < s.nextId) && KERNEL in s.tasks && Live(s, KERNEL)
    ensures forall id :: Live(s, id) ==> id in s.tasks
    ensures s.tasks[KERNEL].parent == None
  {
  }

  lemma SpawnLive(s: Sched)
    requires s.current in s.tasks
    ensures forall a :: Live(DoSpawn(s), a) <==> Live(s, a) || a == s.nextId
  {
  }

  /** An event that keeps who lives and whose child each is keeps the descent. */
  lemma SameDescends(s: Sched, s': Sched, sp: map<nat, nat>)
    requires Descends(s, sp) && s'.nextId == s.nextId && (forall a :: Live(s', a) <==> Live(s, a))
    requires forall id :: id in s'.tasks && Live(s', id) ==> id in s.tasks && s'.tasks[id].parent == s.tasks[id].parent
    ensures Descends(s', sp)
  {
    hide Live;
    forall id | id in s'.tasks && Live(s', id) && id != KERNEL
      ensures s'.tasks[id].parent == Some(Nearest(s', sp, id))
    {
      NearestSame(s, s', sp, id);
    }
  }

  lemma PreemptSame(s: Sched)
    requires QueueInv(s) && Boxed(s)
    ensures var s' := DoPreempt(s);
            && s'.nextId == s.nextId && (forall a :: Live(s', a) <==> Live(s, a))
            && forall id :: id in s'.tasks && Live(s', id) ==> id in s.tasks && s'.tasks[id].parent == s.tasks[id].parent
  {
  }

  lemma WaitSame(s: Sched, c: nat)
    requires QueueInv(s) && CanDo(s, Wait(c))
    ensures var s' := DoWait(s, c);
            && s'.nextId == s.nextId && (forall a :: Live(s', a) <==> Live(s, a))
            && forall id :: id in s'.tasks && Live(s', id) ==> id in s.tasks && s'.tasks[id].parent == s.tasks[id].parent
  {
    if c !in s.codes { WaitQueues(s, c); }
    hide QueueInv;
  }

  lemma ExitDescends(s: Sched, code: int, sp: map<nat, nat>)
    requires Inv(s) && CanDo(s, Exit(code)) && s.current != KERNEL && Descends(s, sp)
    ensures Descends(DoExit(s, code), sp)
  {
    hide Inv, QueueInv, DoExit, Live, Rooted, Nearest, ExitShaped, ExitLinks, CanDo, WaitInv;
    var s' := ExitFacts(s, code);
    forall id | id in s'.tasks && Live(s', id) && id != KERNEL
      ensures id in sp && s'.tasks[id].parent == Some(Nearest(s', sp, id))
    {
      ExitParent(s, s', id);
      NearestExit(s, s', sp, id);
    }
  }

  lemma ExitFacts(s: Sched, code: int) returns (s': Sched)
    requires Inv(s) && CanDo(s, Exit(code))
    ensures s' == DoExit(s, code) && s'.nextId == s.nextId && ExitLinks(s, s')
    ensures s.current in s.tasks && Live(s, s.current) && Live(s, KERNEL)
    ensures forall a: nat :: Live(s', a) <==> Live(s, a) && a != s.current
    ensures forall id :: id in s'.tasks && Live(s', id) ==> id in s.tasks
  {
    CurrentBoxed(s);
    IdsBelow(s);
    s' := DoExit(s, code);
    hide DoExit;
    ExitMends(s, code, s');
    ExitShape(s, code);
    hide Inv, QueueInv;
  }

  /** The parent of a task that outlives an exit: as it was, or the exited task's own. */
  lemma ExitParent(s: Sched, s': Sched, id: nat)
    requires Inv(s) && ExitLinks(s, s') && s.current != KERNEL && Live(s', id) && id in s.tasks && id != KERNEL
    ensures id in s'.tasks && s.tasks[s.current].parent.Some?
    ensures s'.tasks[id].parent == if s.tasks[id].parent == Some(s.current) then s.tasks[s.current].parent else s.tasks[id].parent
  {
    assert HasParent(s, id) && HasParent(s, s.current) && ChildrenOk(s, s.current);
    hide QueueInv, TagInv, WaitInv, Distinct;
    var ex := s.tasks[s.current];
    assert id in ex.children <==> s.tasks[id].parent == Some(s.current);
  }

  lemma EventDescends(s: Sched, e: Event, sp: map<nat, nat>)
    requires Inv(s) && Enabled(s, e) && CanDo(s, e) && Descends(s, sp)
    ensures s.current in s.tasks && Descends(Do(s, e), if e.Spawn? then sp[s.nextId := s.current] else sp)
  {
    CurrentBoxed(s);
    IdsBelow(s);
    hide Inv, Descends, DoSpawn, DoPreempt, DoWait, DoExit, QueueInv;
    match e
    case Spawn => SpawnDescends(s, sp);
    case Preempt => PreemptSame(s); SameDescends(s, DoPreempt(s), sp);
    case Wait(c) => WaitSame(s, c); SameDescends(s, DoWait(s, c), sp);
    case Exit(code) => ExitDescends(s, code, sp);
    case TakeCode(id) => SameDescends(s, DoTakeCode(s, id), sp);
  }

  /** In every run from the start, each live task's parent is its nearest live ancestor by spawning. */
  lemma {:induction false} ParentIsNearest(run: seq<Sched>, events: seq<Event>, n: nat)
    requires IsRun(run, events) && run[0] == Initial() && n <= |events|
    ensures Descends(run[n], Spawners(run, events, n))
  {
    if n > 0 {
      ParentIsNearest(run, events, n - 1);
      RunStep(run, events, n - 1);
      hide Inv, Descends, Enabled, CanDo, Do, IsRun;
      EventDescends(run[n - 1], events[n - 1], Spawners(run, events, n - 1));
    }
  }

  lemma RunStep(run: seq<Sched>, events: seq<Event>, m: nat)
    requires IsRun(run, events) && run[0] == Initial() && m < |events|
    ensures |run| == |events| + 1 && Inv(run[m]) && Enabled(run[m], events[m]) && CanDo(run[m], events[m]) && run[m + 1] == Do(run[m], events[m])
  {
    InitialInv();
    EveryRunKeepsInv(run, events, m);
    hide Inv, Enabled, CanDo, Do;
  }

  // ----- exit codes

  /** A code appears with the exit of its task, and goes when it is taken; nothing else touches it. */
  lemma CodeAfter(s: Sched, e: Event, id: nat, c: int)
    requires Inv(s) && CanDo(s, e)
    ensures var s' := Do(s, e);
            id in s'.codes && s'.codes[id] == c <==>
            (e == Exit(c) && s.current == id) || (e != TakeCode(id) && id in s.codes && s.codes[id] == c)
  {
    hide Inv, DoExit, AfterExitLinks, Dropped;
    CodeIsGone(s);
    match e
    case Exit(code) => ExitCodes(s, code);
    case _ =>
  }

  lemma CodeIsGone(s: Sched)
    requires Inv(s)
    ensures s.current !in s.codes
  {
  }

  lemma ExitCodes(s: Sched, code: int)
    requires CanDo(s, Exit(code))
    ensures DoExit(s, code).codes == s.codes[s.current := code]
  {
  }

  /** Event `m` was the exit of the task with code `c`, and no later event took it. */
  ghost predicate Left(run: seq<Sched>, events: seq<Event>, n: nat, id: nat, c: int, m: nat)
    requires |run| == |events| + 1 && n <= |events|
  {
    m < n && events[m] == Exit(c) && run[m].current == id && forall u :: m < u < n ==> events[u] != TakeCode(id)
  }

  /** In every run from the start, a code is kept exactly if its task exited with it and it has not been taken since. */
  lemma {:induction false} CodesAreKept(run: seq<Sched>, events: seq<Event>, n: nat, id: nat, c: int)
    requires IsRun(run, events) && run[0] == Initial() && n <= |events|
    ensures id in run[n].codes && run[n].codes[id] == c <==> exists m: nat :: Left(run, events, n, id, c, m)
  {
    hide Inv, Enabled, CanDo, Do;
    if n > 0 {
      var k := n - 1;
      CodesAreKept(run, events, k, id, c);
      RunStep(run, events, k);
      hide IsRun, Left;
      CodeAfter(run[k], events[k], id, c);
      LeftStep(run, events, k, n, id, c);
    }
  }

  lemma LeftStep(run: seq<Sched>, events: seq<Event>, k: nat, n: nat, id: nat, c: int)
    requires |run| == |events| + 1 && n == k + 1 <= |events|
    ensures (exists m: nat :: Left(run, events, n, id, c, m)) <==>
            (events[k] == Exit(c) && run[k].current == id) || (events[k] != TakeCode(id) && exists m: nat :: Left(run, events, k, id, c, m))
  {
    if m: nat :| Left(run, events, n, id, c, m) {
      if m < k { assert Left(run, events, k, id, c, m); }
    }
    if events[k] == Exit(c) && run[k].current == id {
      assert Left(run, events, n, id, c, k);
    }
    if events[k] != TakeCode(id) && exists m: nat :: Left(run, events, k, id, c, m) {
      var m: nat :| Left(run, events, k, id, c, m);
      assert Left(run, events, n, id, c, m);
    }
  }
}

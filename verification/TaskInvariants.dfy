/** Every scheduling event keeps the scheduler's invariant. */
module TaskInvariants {
  import opened Basics
  import opened Tasks

  // ----- small facts

  lemma {:induction false} WithoutMembers(s: seq<nat>, x: nat)
    ensures forall y :: y in Without(s, x) <==> y in s && y != x
  {
    if s != [] {
      WithoutMembers(s[1..], x);
      assert s == [s[0]] + s[1..];
    }
  }

  lemma {:induction false} WithoutDistinct(s: seq<nat>, x: nat)
    requires Distinct(s)
    ensures Distinct(Without(s, x))
  {
    if s != [] {
      WithoutDistinct(s[1..], x);
      WithoutMembers(s[1..], x);
      var w := Without(s[1..], x);
      assert forall i :: 0 <= i < |w| ==> w[i] in w;
      assert s[0] !in w by {
        assert forall j :: 0 < j < |s| ==> s[0] != s[j];
      }
    }
  }

  lemma DistinctConcat(s: seq<nat>, t: seq<nat>)
    requires Distinct(s) && Distinct(t) && forall x :: x in s ==> x !in t
    ensures Distinct(s + t)
  {
    var u := s + t;
    forall i, j | 0 <= i < j < |u|
      ensures u[i] != u[j]
    {
      if i < |s| <= j {
        assert u[i] == s[i] && u[j] == t[j - |s|];
        assert s[i] in s && t[j - |s|] in t;
      }
    }
  }

  lemma DistinctRemove(s: seq<nat>, i: nat)
    requires Distinct(s) && i < |s|
    ensures Distinct(s[..i] + s[i + 1..])
    ensures forall x :: x in s[..i] + s[i + 1..] <==> x in s && x != s[i]
  {
  }

  // ----- spawning

  lemma SpawnKeepsInv(s: Sched)
    requires Inv(s)
    ensures Inv(DoSpawn(s))
  {
    var s' := DoSpawn(s);
    SpawnQueues(s);
    SpawnTags(s);
    SpawnTree(s);
    SpawnWaits(s);
  }

  lemma SpawnQueues(s: Sched)
    requires QueueInv(s)
    ensures QueueInv(DoSpawn(s))
    ensures s.nextId !in s.tasks && !Live(s, s.nextId)
    ensures forall id :: Live(DoSpawn(s), id) <==> Live(s, id) || id == s.nextId
  {
  }

  lemma SpawnTags(s: Sched)
    requires QueueInv(s) && TagInv(s)
    ensures TagInv(DoSpawn(s))
  {
  }

  lemma SpawnTree(s: Sched)
    requires QueueInv(s) && TreeInv(s)
    ensures TreeInv(DoSpawn(s))
  {
    var s' := DoSpawn(s);
    SpawnQueues(s);
    assert ChildrenOk(s, s.current);
    DistinctConcat(s.tasks[s.current].children, [s.nextId]);
    hide Distinct, QueueInv, HasParent, ChildrenOk;
    forall id | id in s'.tasks && Live(s', id) && id != KERNEL
      ensures HasParent(s', id)
    {
      SpawnHasParent(s, id);
    }
    forall id | id in s'.tasks && Live(s', id)
      ensures ChildrenOk(s', id)
    {
      SpawnChildrenOk(s, id);
    }
  }

  lemma SpawnHasParent(s: Sched, id: nat)
    requires QueueInv(s) && id in DoSpawn(s).tasks && Live(DoSpawn(s), id)
    requires id != s.nextId ==> id in s.tasks && HasParent(s, id)
    ensures HasParent(DoSpawn(s), id)
  {
  }

  lemma SpawnChildrenOk(s: Sched, id: nat)
    requires QueueInv(s) && id in DoSpawn(s).tasks && Live(DoSpawn(s), id)
    requires id != s.nextId ==> id in s.tasks && ChildrenOk(s, id)
    requires Distinct(s.tasks[s.current].children + [s.nextId])
    ensures ChildrenOk(DoSpawn(s), id)
  {
  }

  lemma SpawnWaits(s: Sched)
    requires QueueInv(s) && WaitInv(s)
    ensures WaitInv(DoSpawn(s))
  {
  }

  // ----- moves between queues keep the tree

  /** Same live tasks, same links. */
  ghost predicate SameLinks(s: Sched, s': Sched) {
    && (forall id :: Live(s', id) <==> Live(s, id))
    && (forall id :: Live(s, id) && id in s.tasks ==>
          id in s'.tasks && s'.tasks[id].parent == s.tasks[id].parent && s'.tasks[id].children == s.tasks[id].children)
    && (forall id :: Live(s, id) && id in s'.tasks ==> id in s.tasks)
  }

  lemma TreeFrame(s: Sched, s': Sched)
    requires TreeInv(s) && SameLinks(s, s')
    ensures TreeInv(s')
  {
  }

  lemma WaitFrame(s: Sched, s': Sched)
    requires WaitInv(s) && SameLinks(s, s') && KERNEL !in s'.sleeping
    requires forall id :: id in s'.sleeping && id in s'.tasks ==>
               id in s.tasks && ((id in s.sleeping && s'.tasks[id].waitingFor == s.tasks[id].waitingFor) || WaitsForChild(s', id))
    ensures WaitInv(s')
  {
  }

  // ----- preempting

  lemma PreemptKeepsInv(s: Sched)
    requires Inv(s)
    ensures Boxed(s) && Inv(DoPreempt(s))
  {
    InvBoxed(s);
    var s' := DoPreempt(s);
    PreemptQueues(s);
    PreemptTags(s);
    PreemptLinks(s);
    hide QueueInv, TagInv;
    TreeFrame(s, s');
    WaitFrame(s, s');
  }

  lemma PreemptQueues(s: Sched)
    requires QueueInv(s) && Boxed(s)
    ensures QueueInv(DoPreempt(s))
    ensures forall id :: Live(DoPreempt(s), id) <==> Live(s, id)
  {
  }

  lemma PreemptTags(s: Sched)
    requires QueueInv(s) && TagInv(s) && Boxed(s)
    ensures TagInv(DoPreempt(s))
  {
  }

  lemma PreemptLinks(s: Sched)
    requires QueueInv(s) && Boxed(s)
    ensures SameLinks(s, DoPreempt(s))
    ensures DoPreempt(s).sleeping == s.sleeping
    ensures forall id :: id in s.sleeping && id in DoPreempt(s).tasks ==>
              id in s.tasks && DoPreempt(s).tasks[id].waitingFor == s.tasks[id].waitingFor
  {
  }

  // ----- waiting

  lemma WaitKeepsInv(s: Sched, c: nat)
    requires Inv(s) && Enabled(s, Wait(c))
    ensures CanDo(s, Wait(c)) && Inv(DoWait(s, c))
  {
    hide QueueInv, TagInv, Distinct;
    EnabledCanDo(s, Wait(c));
    if c !in s.codes {
      var s' := DoWait(s, c);
      assert ChildrenOk(s, s.current);
      hide DoWait;
      WaitQueues(s, c);
      WaitTags(s, c);
      WaitLinks(s, c);
      TreeFrame(s, s');
      hide TreeInv;
      WaitFrame(s, s');
    }
  }

  /** A wait keeps the invariant if and only if the code is already kept or the wait is for an own child, and not task 0's. */
  lemma WaitIsSafeIff(s: Sched, c: nat)
    requires Inv(s) && CanDo(s, Wait(c))
    ensures Inv(DoWait(s, c)) <==> Enabled(s, Wait(c))
  {
    if Enabled(s, Wait(c)) {
      WaitKeepsInv(s, c);
    } else if Inv(DoWait(s, c)) {
      WaitNamesChild(s, DoWait(s, c), c);
    }
  }

  /** After a wait that keeps the invariant the caller sleeps, so it is not task 0 and waits for a child of its own. */
  lemma WaitNamesChild(s: Sched, s': Sched, c: nat)
    requires CanDo(s, Wait(c)) && c !in s.codes && s' == DoWait(s, c) && Inv(s')
    ensures s.current != KERNEL && c in s.tasks[s.current].children
  {
    hide QueueInv, TagInv, Distinct;
    var x := s.current;
    assert x in s'.sleeping && x in s'.tasks;
    assert WaitsForChild(s', x);
    if s.ready[0] != x {
      assert s'.tasks[x].waitingFor == Some(c);
    }
    assert HasParent(s', c);
  }

  lemma WaitQueues(s: Sched, c: nat)
    requires QueueInv(s) && Boxed(s) && s.ready != [] && c !in s.codes
    ensures QueueInv(DoWait(s, c))
    ensures forall id :: Live(DoWait(s, c), id) <==> Live(s, id)
  {
  }

  lemma WaitTags(s: Sched, c: nat)
    requires QueueInv(s) && TagInv(s) && Boxed(s) && s.ready != [] && c !in s.codes
    ensures TagInv(DoWait(s, c))
  {
  }

  lemma WaitLinks(s: Sched, c: nat)
    requires QueueInv(s) && Boxed(s) && s.ready != [] && c !in s.codes
    ensures SameLinks(s, DoWait(s, c))
    ensures DoWait(s, c).sleeping == s.sleeping + [s.current]
    ensures forall id :: id in s.sleeping && id in DoWait(s, c).tasks ==>
              id in s.tasks && DoWait(s, c).tasks[id].waitingFor == s.tasks[id].waitingFor
    ensures s.current in DoWait(s, c).tasks && DoWait(s, c).tasks[s.current].waitingFor == Some(c)
  {
  }

  lemma TakeCodeKeepsInv(s: Sched, id: nat)
    requires Inv(s)
    ensures Inv(DoTakeCode(s, id))
  {
    var s' := DoTakeCode(s, id);
    TakeCodeQueues(s, id);
    hide QueueInv, TagInv, DoTakeCode;
    TreeFrame(s, s');
    WaitFrame(s, s');
  }

  lemma TakeCodeQueues(s: Sched, id: nat)
    requires QueueInv(s) && TagInv(s)
    ensures var s' := DoTakeCode(s, id);
            QueueInv(s') && TagInv(s') && SameLinks(s, s') && s'.sleeping == s.sleeping && s'.tasks == s.tasks
  {
  }

  // ----- exiting

  /** What the exit leaves of the links: the state before a successor is picked. */
  ghost predicate ExitLinks(s: Sched, s': Sched) {
    && s.current in s.tasks && s.current !in s'.ready && s.current !in s'.sleeping && s.current != s'.current
    && (forall id :: Live(s', id) <==> Live(s, id) && id != s.current)
    && (forall id :: Live(s', id) && id in s.tasks ==>
          && id in s'.tasks
          && s'.tasks[id].parent == Relinked(s.tasks[id], id, s.current, s.tasks[s.current]).parent
          && s'.tasks[id].children == Relinked(s.tasks[id], id, s.current, s.tasks[s.current]).children)
  }

  lemma ExitHasParent(s: Sched, s': Sched, id: nat)
    requires TreeInv(s) && ExitLinks(s, s') && s.current != KERNEL && id in s.tasks && Live(s', id) && id != KERNEL
    requires forall x :: Live(s, x) ==> x in s.tasks
    ensures id in s'.tasks && HasParent(s', id)
  {
    assert HasParent(s, id) && HasParent(s, s.current) && ChildrenOk(s, s.current);
    var p, q := s.tasks[id].parent.value, s.tasks[s.current].parent.value;
    WithoutMembers(s.tasks[p].children, s.current);
    WithoutMembers(s.tasks[q].children, s.current);
    hide TreeInv, Live, Distinct;
    if p == s.current {
      assert s'.tasks[id].parent == Some(q);
      assert Live(s', q);
    } else {
      assert id !in s.tasks[s.current].children;
      assert Live(s', p);
    }
  }

  lemma ExitChildrenOk(s: Sched, s': Sched, id: nat)
    requires TreeInv(s) && ExitLinks(s, s') && s.current != KERNEL && id in s.tasks && Live(s', id)
    requires forall x :: Live(s, x) ==> x in s.tasks
    ensures id in s'.tasks && ChildrenOk(s', id)
  {
    assert ChildrenOk(s, id) && ChildrenOk(s, s.current) && HasParent(s, s.current);
    var ex := s.tasks[s.current];
    var mine := if ex.parent == Some(id) then Without(s.tasks[id].children, s.current) else s.tasks[id].children;
    var theirs := if id == NewParent(ex) then ex.children else [];
    WithoutMembers(s.tasks[id].children, s.current);
    WithoutDistinct(s.tasks[id].children, s.current);
    DistinctConcat(mine, theirs);
    assert s'.tasks[id].children == mine + theirs;
    assert forall c :: c in ex.children ==> HasParent(s, c);
    hide TreeInv, Live, Distinct, Without;
    forall c | c in mine + theirs
      ensures Live(s', c) && c in s'.tasks && s'.tasks[c].parent == Some(id)
    {
      if c in mine {
        assert c in s.tasks[id].children && s.tasks[c].parent == Some(id);
      }
    }
  }

  lemma ExitTree(s: Sched, s': Sched)
    requires TreeInv(s) && ExitLinks(s, s') && s.current != KERNEL
    requires forall x :: Live(s, x) ==> x in s.tasks
    ensures TreeInv(s')
  {
    assert ChildrenOk(s, s.current);
    assert KERNEL !in s.tasks[s.current].children;
    assert s'.tasks[KERNEL].parent == None;
    forall id | id in s'.tasks && Live(s', id)
      ensures ChildrenOk(s', id) && (id != KERNEL ==> HasParent(s', id))
    {
      hide TreeInv;
      ExitChildrenOk(s, s', id);
      if id != KERNEL {
        ExitHasParent(s, s', id);
      }
    }
  }

  /** Only the exiting task's parent can be waiting for it. */
  lemma WaiterIsParent(s: Sched, id: nat)
    requires WaitInv(s) && id in s.tasks && id in s.sleeping && s.tasks[id].waitingFor == Some(s.current) && s.current in s.tasks
    ensures s.tasks[s.current].parent == Some(id)
  {
  }

  lemma ExitWaits(s: Sched, s': Sched)
    requires WaitInv(s) && TreeInv(s) && QueueInv(s) && ExitLinks(s, s')
    requires forall id :: id in s'.sleeping ==>
               && id in s.sleeping && id in s.tasks && id in s'.tasks
               && s'.tasks[id].waitingFor == s.tasks[id].waitingFor && s.tasks[id].waitingFor != Some(s.current)
    ensures WaitInv(s')
  {
  }

  /** The boxes right after the links are mended, before the successor is chosen. */
  lemma LinksAt(s: Sched, code: int, id: nat)
    requires QueueInv(s) && id in s.tasks && id !in s.exited
    ensures s.current in s.tasks
    ensures var m := AfterExitLinks(s, code);
            id in m && if id == s.current then m[id].state == Exited(code)
                       else m[id] == Relinked(s.tasks[id], id, s.current, s.tasks[s.current])
  {
  }

  /** Mending the links leaves every sleeper's wait as it was. */
  lemma SleeperBoxes(s: Sched, code: int)
    requires QueueInv(s) && CanDo(s, Exit(code))
    ensures var m := AfterExitLinks(s, code);
            forall j :: 0 <= j < |s.sleeping| ==>
              s.sleeping[j] in s.tasks && s.sleeping[j] in m && m[s.sleeping[j]].waitingFor == s.tasks[s.sleeping[j]].waitingFor
  {
    hide AfterExitLinks, QueueInv;
    QueuesApart(s);
    CurrentBoxed(s);
    forall j | 0 <= j < |s.sleeping|
      ensures var m := AfterExitLinks(s, code);
              s.sleeping[j] in s.tasks && s.sleeping[j] in m && m[s.sleeping[j]].waitingFor == s.tasks[s.sleeping[j]].waitingFor
    {
      assert s.sleeping[j] in s.sleeping;
      LinksAt(s, code, s.sleeping[j]);
    }
  }

  lemma OnlyWaiter(s: Sched, w: nat)
    requires QueueInv(s) && WaitInv(s) && w in s.sleeping && w in s.tasks && s.tasks[w].waitingFor == Some(s.current)
    ensures forall id :: id in s.sleeping && id != w ==> id in s.tasks && s.tasks[id].waitingFor != Some(s.current)
  {
    hide QueueInv, WaitInv;
    QueuesApart(s);
    CurrentBoxed(s);
    WaiterIsParent(s, w);
    forall id | id in s.sleeping && id != w
      ensures s.tasks[id].waitingFor != Some(s.current)
    {
      if s.tasks[id].waitingFor == Some(s.current) {
        WaiterIsParent(s, id);
      }
    }
  }

  lemma CurrentBoxed(s: Sched)
    requires QueueInv(s)
    ensures s.current in s.tasks && s.current !in s.ready && s.current !in s.sleeping && s.current !in s.exited
  {
  }

  /** The sleepers after an exit: all but the waiter, none of whom waits for the exited task. */
  lemma ExitSleepers(s: Sched, code: int)
    requires QueueInv(s) && WaitInv(s) && CanDo(s, Exit(code))
    ensures var m := AfterExitLinks(s, code);
            var i := WaiterAt(m, s.sleeping, s.current);
            var s' := DoExit(s, code);
            && Distinct(s'.sleeping)
            && (forall id :: id in s'.sleeping <==> id in s.sleeping && (i < |s.sleeping| ==> id != s.sleeping[i]))
            && (forall id :: id in s'.sleeping ==> id in s.tasks && s.tasks[id].waitingFor != Some(s.current))
            && (i < |s.sleeping| ==> s.sleeping[i] in s.sleeping && s.sleeping[i] in s.tasks)
  {
    hide AfterExitLinks, QueueInv, WaitInv;
    QueuesApart(s);
    SleeperBoxes(s, code);
    var m := AfterExitLinks(s, code);
    var i := WaiterAt(m, s.sleeping, s.current);
    if i < |s.sleeping| {
      DistinctRemove(s.sleeping, i);
      OnlyWaiter(s, s.sleeping[i]);
    } else {
      forall id | id in s.sleeping
        ensures s.tasks[id].waitingFor != Some(s.current)
      {
        var j :| 0 <= j < |s.sleeping| && s.sleeping[j] == id;
        assert m[s.sleeping[j]].waitingFor != Some(s.current);
      }
    }
  }

  /** The queues after an exit: the successor has left its queue, and nothing else moved. */
  ghost predicate ExitShaped(s: Sched, s': Sched, code: int) {
    && Distinct(s'.ready) && Distinct(s'.sleeping) && s'.exited == [s.current]
    && (s'.current in s.ready || s'.current in s.sleeping)
    && (forall id :: id in s'.ready <==> id in s.ready && id != s'.current)
    && (forall id :: id in s'.sleeping <==> id in s.sleeping && id != s'.current)
    && s'.codes == s.codes[s.current := code] && s'.nextId == s.nextId
    && (forall id :: id in s'.tasks <==> id in s.tasks && id !in s.exited)
  }

  lemma ExitShape(s: Sched, code: int)
    requires QueueInv(s) && WaitInv(s) && CanDo(s, Exit(code))
    ensures ExitShaped(s, DoExit(s, code), code)
  {
    QueuesApart(s);
    AfterExitKeys(s, code);
    hide AfterExitLinks, WaiterAt, WaitInv, QueueInv, Distinct, ExitShaped;
    var m := AfterExitLinks(s, code);
    var s', i := DoExit(s, code), WaiterAt(m, s.sleeping, s.current);
    if i < |s.sleeping| {
      WaiterShape(s, s', code, i);
    } else {
      FrontShape(s, s', code);
    }
  }

  lemma WaiterShape(s: Sched, s': Sched, code: int, i: nat)
    requires Distinct(s.ready) && Distinct(s.sleeping) && i < |s.sleeping|
    requires forall id :: id in s.sleeping ==> id !in s.ready
    requires s'.current == s.sleeping[i] && s'.ready == s.ready && s'.sleeping == s.sleeping[..i] + s.sleeping[i + 1..]
    requires s'.exited == [s.current] && s'.codes == s.codes[s.current := code] && s'.nextId == s.nextId
    requires forall id :: id in s'.tasks <==> id in s.tasks && id !in s.exited
    ensures ExitShaped(s, s', code)
  {
  }

  lemma FrontShape(s: Sched, s': Sched, code: int)
    requires Distinct(s.ready) && Distinct(s.sleeping) && s.ready != []
    requires forall id :: id in s.ready ==> id !in s.sleeping
    requires s'.current == s.ready[0] && s'.ready == s.ready[1..] && s'.sleeping == s.sleeping
    requires s'.exited == [s.current] && s'.codes == s.codes[s.current := code] && s'.nextId == s.nextId
    requires forall id :: id in s'.tasks <==> id in s.tasks && id !in s.exited
    ensures ExitShaped(s, s', code)
  {
  }

  lemma AfterExitKeys(s: Sched, code: int)
    requires s.current in s.tasks
    ensures forall id :: id in AfterExitLinks(s, code) <==> id in s.tasks && id !in s.exited
  {
  }

  lemma QueuesApart(s: Sched)
    requires QueueInv(s)
    ensures Distinct(s.ready) && Distinct(s.sleeping)
    ensures forall id :: id in s.ready ==> id !in s.sleeping && id in s.tasks && id !in s.exited
    ensures forall id :: id in s.sleeping ==> id !in s.ready && id in s.tasks && id !in s.exited
  {
  }

  lemma LiveAfterExit(s: Sched, s': Sched, code: int)
    requires QueueInv(s) && ExitShaped(s, s', code)
    ensures forall id :: Live(s', id) <==> Live(s, id) && id != s.current
  {
  }

  lemma QueuesAfterExit(s: Sched, s': Sched, code: int)
    requires QueueInv(s) && ExitShaped(s, s', code)
    ensures QueueInv(s')
  {
  }

  /** The state of each box after an exit: the exited one, the successor and the others. */
  lemma ExitStates(s: Sched, code: int, id: nat)
    requires QueueInv(s) && CanDo(s, Exit(code)) && id in s.tasks && id !in s.exited
    ensures var s' := DoExit(s, code);
            && id in s'.tasks
            && (id == s'.current ==> s'.tasks[id].state == Running && (s'.tasks[id].waitingFor == None || id in s.ready))
            && (id == s.current != s'.current ==> s'.tasks[id].state == Exited(code))
            && (id != s.current && id != s'.current ==> s'.tasks[id].state == s.tasks[id].state)
            && (id != s.current && (id != s'.current || id in s.ready) ==>
                  s'.tasks[id].waitingFor == s.tasks[id].waitingFor || s'.tasks[id].waitingFor == None)
            && (id in s.sleeping && id != s'.current ==> s'.tasks[id].waitingFor == s.tasks[id].waitingFor)
  {
    hide AfterExitLinks, QueueInv, WaiterAt, Relinked;
    SleeperBoxes(s, code);
    CurrentBoxed(s);
    LinksAt(s, code, id);
    LinksAt(s, code, s.ready[0]);
    RelinkedKeeps(s.tasks[id], id, s.current, s.tasks[s.current]);
    RelinkedKeeps(s.tasks[s.ready[0]], s.ready[0], s.current, s.tasks[s.current]);
  }

  lemma RelinkedKeeps(t: Task, id: nat, x: nat, ex: Task)
    ensures Relinked(t, id, x, ex).state == t.state && Relinked(t, id, x, ex).waitingFor == t.waitingFor
  {
  }

  ghost predicate TagsAt(s: Sched, id: nat)
    requires id in s.tasks
  {
    && (id == s.current ==> s.tasks[id].state == Running && s.tasks[id].waitingFor == None)
    && (id in s.ready ==> s.tasks[id].state == Ready && s.tasks[id].waitingFor == None)
    && (id in s.sleeping ==> s.tasks[id].state == Sleeping)
    && (id in s.exited ==> s.tasks[id].state.Exited?)
  }

  lemma TagsAtAll(s: Sched)
    requires forall id :: id in s.tasks ==> TagsAt(s, id)
    ensures TagInv(s)
  {
  }

  lemma TagsOf(s: Sched, id: nat)
    requires TagInv(s) && id in s.tasks
    ensures TagsAt(s, id)
  {
  }

  /** The tag of one box after an exit agrees with its role. */
  lemma ExitTagsAt(s: Sched, s': Sched, code: int, id: nat)
    requires QueueInv(s) && TagInv(s) && CanDo(s, Exit(code)) && s' == DoExit(s, code) && ExitShaped(s, s', code) && id in s'.tasks
    ensures TagsAt(s', id)
  {
    hide QueueInv, TagInv, DoExit, Distinct;
    CurrentBoxed(s);
    QueuesApart(s);
    TagsOf(s, id);
    ExitStates(s, code, id);
    if id == s'.current {
    } else if id == s.current {
    } else {
    }
  }

  lemma ExitTags(s: Sched, code: int)
    requires QueueInv(s) && TagInv(s) && WaitInv(s) && CanDo(s, Exit(code))
    ensures TagInv(DoExit(s, code))
  {
    hide QueueInv, TagInv, WaitInv, DoExit, ExitShaped, TagsAt;
    var s' := DoExit(s, code);
    ExitShape(s, code);
    forall id | id in s'.tasks
      ensures TagsAt(s', id)
    {
      ExitTagsAt(s, s', code, id);
    }
    TagsAtAll(s');
  }

  lemma ExitBoxes(s: Sched, code: int, id: nat)
    requires QueueInv(s) && WaitInv(s) && CanDo(s, Exit(code)) && id in s.tasks && id !in s.exited && id != s.current
    ensures var s' := DoExit(s, code);
            && id in s'.tasks
            && s'.tasks[id].parent == Relinked(s.tasks[id], id, s.current, s.tasks[s.current]).parent
            && s'.tasks[id].children == Relinked(s.tasks[id], id, s.current, s.tasks[s.current]).children
            && (id != s'.current ==> s'.tasks[id].waitingFor == s.tasks[id].waitingFor)
  {
  }

  lemma ExitMends(s: Sched, code: int, s': Sched)
    requires QueueInv(s) && WaitInv(s) && CanDo(s, Exit(code)) && s' == DoExit(s, code)
    ensures ExitLinks(s, s')
    ensures forall id :: id in s'.sleeping ==>
              && id in s.sleeping && id in s.tasks && id in s'.tasks
              && s'.tasks[id].waitingFor == s.tasks[id].waitingFor && s.tasks[id].waitingFor != Some(s.current)
  {
    hide DoExit, CanDo, Distinct, Relinked, WaitInv, QueueInv;
    CurrentBoxed(s);
    QueuesApart(s);
    ExitSleepers(s, code);
    ExitShape(s, code);
    LiveAfterExit(s, s', code);
    forall id | id in s.tasks && id !in s.exited && id != s.current
      ensures && id in s'.tasks
              && s'.tasks[id].parent == Relinked(s.tasks[id], id, s.current, s.tasks[s.current]).parent
              && s'.tasks[id].children == Relinked(s.tasks[id], id, s.current, s.tasks[s.current]).children
              && (id != s'.current ==> s'.tasks[id].waitingFor == s.tasks[id].waitingFor)
    {
      ExitBoxes(s, code, id);
    }
  }

  lemma ExitKeepsInv(s: Sched, code: int)
    requires Inv(s) && Enabled(s, Exit(code))
    ensures CanDo(s, Exit(code)) && Inv(DoExit(s, code))
  {
    EnabledCanDo(s, Exit(code));
    var s' := DoExit(s, code);
    ExitShape(s, code);
    QueuesAfterExit(s, s', code);
    ExitTags(s, code);
    ExitMends(s, code, s');
    assert forall x :: Live(s, x) ==> x in s.tasks;
    hide DoExit, TagInv, CanDo, ExitShaped;
    ExitTree(s, s');
    ExitWaits(s, s');
  }

  /** An exit keeps the invariant if and only if it is not task 0's. */
  lemma ExitIsSafeIff(s: Sched, code: int)
    requires Inv(s) && CanDo(s, Exit(code))
    ensures Inv(DoExit(s, code)) <==> s.current != KERNEL
  {
    if s.current != KERNEL {
      ExitKeepsInv(s, code);
    } else {
      ExitShape(s, code);
      CurrentBoxed(s);
      hide QueueInv, TagInv, WaitInv, DoExit;
      assert !Live(DoExit(s, code), KERNEL);
    }
  }

  /** Every enabled event keeps the whole invariant. */
  lemma EventKeepsInv(s: Sched, e: Event)
    requires Inv(s) && Enabled(s, e)
    ensures CanDo(s, e) && Inv(Do(s, e))
  {
    hide Inv, DoSpawn, DoPreempt, DoWait, DoExit, DoTakeCode;
    EnabledCanDo(s, e);
    match e
    case Spawn => SpawnKeepsInv(s);
    case Preempt => PreemptKeepsInv(s);
    case Wait(c) => WaitKeepsInv(s, c);
    case Exit(code) => ExitKeepsInv(s, code);
    case TakeCode(id) => TakeCodeKeepsInv(s, id);
  }

  lemma InitialInv()
    ensures Inv(Initial())
  {
  }
}

/**
 * The state of the task scheduler (kernel/src/task/scheduler.rs) and what one
 * scheduling event does to it. A boxed task is named by its id: `tasks` holds
 * the boxes, and the queues say where each box currently is.
 */
module Tasks {
  import opened Basics

  const KERNEL: nat := 0

  datatype TaskState = Running | Ready | Sleeping | Exited(code: int)

  datatype Task = Task(state: TaskState, waitingFor: Option<nat>, parent: Option<nat>, children: seq<nat>)

  datatype Sched = Sched(tasks: map<nat, Task>, ready: seq<nat>, current: nat, sleeping: seq<nat>, exited: seq<nat>,
                         codes: map<nat, int>, nextId: nat)

  /** The events the scheduler is called for. */
  datatype Event = Spawn | Preempt | Wait(child: nat) | Exit(code: int) | TakeCode(id: nat)

  // ----- what each event does

  function Without(s: seq<nat>, x: nat): seq<nat> {
    if s == [] then [] else (if s[0] == x then [] else [s[0]]) + Without(s[1..], x)
  }

  function WithState(tasks: map<nat, Task>, id: nat, state: TaskState): map<nat, Task>
    requires id in tasks
  {
    tasks[id := tasks[id].(state := state)]
  }

  /** Drops the boxes of tasks that exited earlier. */
  function Dropped(tasks: map<nat, Task>, exited: seq<nat>): map<nat, Task> {
    map id | id in tasks && id !in exited :: tasks[id]
  }

  function Initial(): Sched {
    Sched(map[KERNEL := Task(Running, None, None, [])], [], KERNEL, [], [], map[], 1)
  }

  function DoSpawn(s: Sched): Sched
    requires s.current in s.tasks
  {
    var parent := s.tasks[s.current];
    s.(tasks := s.tasks[s.nextId := Task(Ready, None, Some(s.current), [])]
                       [s.current := parent.(children := parent.children + [s.nextId])],
       ready := s.ready + [s.nextId], nextId := s.nextId + 1)
  }

  /** Round robin: the current task goes to the back, the front one runs. */
  function DoPreempt(s: Sched): Sched
    requires Boxed(s)
  {
    if s.ready == [] then s.(tasks := Dropped(s.tasks, s.exited), exited := [])
    else
      var tasks := WithState(WithState(s.tasks, s.current, Ready), s.ready[0], Running);
      s.(tasks := Dropped(tasks, s.exited), ready := s.ready[1..] + [s.current], current := s.ready[0], exited := [])
  }

  /** Waiting for a task whose exit code is already there does nothing; otherwise the caller sleeps. */
  function DoWait(s: Sched, child: nat): Sched
    requires Boxed(s) && (child in s.codes || s.ready != [])
  {
    if child in s.codes then s
    else
      var tasks := s.tasks[s.current := s.tasks[s.current].(state := Sleeping, waitingFor := Some(child))];
      s.(tasks := WithState(tasks, s.ready[0], Running), ready := s.ready[1..], current := s.ready[0],
         sleeping := s.sleeping + [s.current])
  }

  function NewParent(ex: Task): nat {
    if ex.parent.Some? then ex.parent.value else KERNEL
  }

  /** What the exit of task `x`, held in box `ex`, does to another task's links. */
  function Relinked(t: Task, id: nat, x: nat, ex: Task): Task {
    t.(parent := if id in ex.children then Some(NewParent(ex)) else t.parent,
       children := (if ex.parent == Some(id) then Without(t.children, x) else t.children) +
                   (if id == NewParent(ex) then ex.children else []))
  }

  function AfterExitLinks(s: Sched, code: int): map<nat, Task>
    requires s.current in s.tasks
  {
    var ex := s.tasks[s.current];
    map id | id in s.tasks && id !in s.exited ::
      if id == s.current then ex.(state := Exited(code), children := [])
      else if id in s.ready || id in s.sleeping then Relinked(s.tasks[id], id, s.current, ex)
      else s.tasks[id]
  }

  /** The place of the first sleeper waiting for `x`, or the number of sleepers. */
  function WaiterAt(tasks: map<nat, Task>, sleeping: seq<nat>, x: nat): (i: nat)
    requires forall j :: 0 <= j < |sleeping| ==> sleeping[j] in tasks
    ensures i <= |sleeping|
    ensures i < |sleeping| ==> tasks[sleeping[i]].waitingFor == Some(x)
    ensures forall j :: 0 <= j < i ==> tasks[sleeping[j]].waitingFor != Some(x)
  {
    if sleeping == [] || tasks[sleeping[0]].waitingFor == Some(x) then 0
    else 1 + WaiterAt(tasks, sleeping[1..], x)
  }

  /** The exiting task hands over to its waiter, or else to the front of the queue. */
  function DoExit(s: Sched, code: int): Sched
    requires Boxed(s) && s.ready != [] && (forall i :: 0 <= i < |s.sleeping| ==> s.sleeping[i] !in s.exited)
    requires s.ready[0] !in s.exited
  {
    var tasks := AfterExitLinks(s, code);
    var i := WaiterAt(tasks, s.sleeping, s.current);
    var codes := s.codes[s.current := code];
    if i < |s.sleeping| then
      var w := s.sleeping[i];
      Sched(tasks[w := tasks[w].(state := Running, waitingFor := None)], s.ready, w,
            s.sleeping[..i] + s.sleeping[i + 1..], [s.current], codes, s.nextId)
    else
      Sched(WithState(tasks, s.ready[0], Running), s.ready[1..], s.ready[0], s.sleeping, [s.current], codes, s.nextId)
  }

  function DoTakeCode(s: Sched, id: nat): Sched {
    s.(codes := s.codes - {id})
  }

  // ----- the invariant

  /** Every queued box exists. */
  ghost predicate Boxed(s: Sched) {
    && s.current in s.tasks
    && (forall i :: 0 <= i < |s.ready| ==> s.ready[i] in s.tasks)
    && (forall i :: 0 <= i < |s.sleeping| ==> s.sleeping[i] in s.tasks)
  }

  /** A task that has not exited. */
  ghost predicate Live(s: Sched, id: nat) {
    id == s.current || id in s.ready || id in s.sleeping
  }

  /** Every box is in exactly one place. */
  ghost predicate QueueInv(s: Sched) {
    && Distinct(s.ready) && Distinct(s.sleeping) && Distinct(s.exited)
    && (forall id :: id in s.tasks <==> Live(s, id) || id in s.exited)
    && s.current !in s.ready && s.current !in s.sleeping && s.current !in s.exited
    && (forall id :: id in s.ready ==> id !in s.sleeping && id !in s.exited)
    && (forall id :: id in s.sleeping ==> id !in s.exited)
    && (forall id :: id in s.tasks ==> id < s.nextId)
    && (forall id :: id in s.codes ==> id < s.nextId && !Live(s, id))
  }

  /** The state tag of a box says where it is. */
  ghost predicate TagInv(s: Sched) {
    && (forall id :: id in s.tasks && id == s.current ==> s.tasks[id].state == Running && s.tasks[id].waitingFor == None)
    && (forall id :: id in s.tasks && id in s.ready ==> s.tasks[id].state == Ready && s.tasks[id].waitingFor == None)
    && (forall id :: id in s.tasks && id in s.sleeping ==> s.tasks[id].state == Sleeping)
    && (forall id :: id in s.tasks && id in s.exited ==> s.tasks[id].state.Exited?)
  }

  /** Live tasks form a tree rooted at the kernel task, with ids growing downwards. */
  ghost predicate TreeInv(s: Sched) {
    && Live(s, KERNEL) && KERNEL in s.tasks && s.tasks[KERNEL].parent == None
    && (forall id :: id in s.tasks && Live(s, id) && id != KERNEL ==> HasParent(s, id))
    && (forall id :: id in s.tasks && Live(s, id) ==> ChildrenOk(s, id))
  }

  ghost predicate HasParent(s: Sched, id: nat)
    requires id in s.tasks
  {
    var p := s.tasks[id].parent;
    p.Some? && p.value < id && Live(s, p.value) && p.value in s.tasks && id in s.tasks[p.value].children
  }

  ghost predicate ChildrenOk(s: Sched, id: nat)
    requires id in s.tasks
  {
    && Distinct(s.tasks[id].children)
    && forall c :: c in s.tasks[id].children ==> Live(s, c) && c in s.tasks && s.tasks[c].parent == Some(id)
  }

  /** A sleeper waits for a live child of its own, and the kernel task never sleeps. */
  ghost predicate WaitInv(s: Sched) {
    && KERNEL !in s.sleeping
    && forall id :: id in s.tasks && id in s.sleeping ==> WaitsForChild(s, id)
  }

  ghost predicate WaitsForChild(s: Sched, id: nat)
    requires id in s.tasks
  {
    var c := s.tasks[id].waitingFor;
    c.Some? && Live(s, c.value) && c.value in s.tasks && s.tasks[c.value].parent == Some(id)
  }

  ghost predicate Inv(s: Sched) {
    QueueInv(s) && TagInv(s) && TreeInv(s) && WaitInv(s)
  }

  // ----- events

  /** The kernel task does not exit or wait, and a wait names a child or a task whose code is kept. */
  ghost predicate Enabled(s: Sched, e: Event) {
    match e
    case Spawn => true
    case Preempt => true
    case Wait(c) => c in s.codes || (s.current != KERNEL && s.current in s.tasks && c in s.tasks[s.current].children)
    case Exit(_) => s.current != KERNEL
    case TakeCode(_) => true
  }

  /** Some task other than the current one is always runnable, unless the current one is the kernel task. */
  lemma KernelIsQueued(s: Sched)
    requires Inv(s) && s.current != KERNEL
    ensures KERNEL in s.ready && s.ready != []
  {
  }

  lemma InvBoxed(s: Sched)
    requires QueueInv(s)
    ensures Boxed(s)
    ensures forall i :: 0 <= i < |s.sleeping| ==> s.sleeping[i] !in s.exited
    ensures forall i :: 0 <= i < |s.ready| ==> s.ready[i] !in s.exited
  {
  }

  /** The scheduler never finds its queue empty when it must switch. */
  ghost predicate CanDo(s: Sched, e: Event) {
    && Boxed(s)
    && (e.Exit? || (e.Wait? && e.child !in s.codes) ==> s.ready != [])
    && (e.Exit? ==> s.ready[0] !in s.exited && forall i :: 0 <= i < |s.sleeping| ==> s.sleeping[i] !in s.exited)
  }

  ghost function Do(s: Sched, e: Event): Sched
    requires CanDo(s, e)
  {
    match e
    case Spawn => DoSpawn(s)
    case Preempt => DoPreempt(s)
    case Wait(c) => DoWait(s, c)
    case Exit(code) => DoExit(s, code)
    case TakeCode(id) => DoTakeCode(s, id)
  }

  /** An enabled event never reaches a missing box or the scheduler's "no task to run" panics. */
  lemma EnabledCanDo(s: Sched, e: Event)
    requires Inv(s) && Enabled(s, e)
    ensures CanDo(s, e)
  {
  }
}

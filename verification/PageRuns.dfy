/**
 * Every run of page-table operations over one memory: any number of user
 * tables are created, mapped and unmapped in any order, and each keeps its own
 * translation while no frame that was there before is ever written.
 */
module PageRuns {
  import opened Basics
  import opened PageTables
  import opened PageEdits
  import opened UserPageTables
  import KernelPageTables

  datatype Op =
    | Create
    | MapRange(table: nat, start: nat, end: nat, phys: nat, flags: Flags)
    | UnmapRange(table: nat, start: nat, end: nat)

  // ----- one table's change does not reach another

  lemma {:induction false} WalkFrame(mem: Mem, mem': Mem, k: Kernel, t: User, v: nat, l: nat)
    requires KernelInv(mem, k) && TreeInv(mem, k, t) && Agree(mem, mem', k.level.Keys + t.level.Keys) && 1 <= l <= 4
    ensures Reach(mem', t.root, v, l) == Reach(mem, t.root, v, l)
    ensures l == 1 ==> Leaf(mem', t.root, v) == Leaf(mem, t.root, v)
    decreases 4 - l
  {
    hide KernelInv, TreeInv, Index;
    if l < 4 {
      WalkFrame(mem, mem', k, t, v, l + 1);
      if Reach(mem, t.root, v, l + 1).Some? {
        UserReach(mem, k, t, v, l + 1);
      }
    }
    if Reach(mem, t.root, v, l).Some? {
      UserReach(mem, k, t, v, l);
    }
  }

  lemma TreeFrame(mem: Mem, mem': Mem, k: Kernel, t: User)
    requires KernelInv(mem, k) && TreeInv(mem, k, t) && Agree(mem, mem', k.level.Keys + t.level.Keys)
    ensures TreeInv(mem', k, t)
  {
    hide KernelInv, TreeInv;
    UserTablesInMem(mem, k, t);
    TreeFrames(mem, k, t);
    forall h | h in t.level
      ensures TableOk(mem', Levels(k, t), h)
    {
      TableOfTree(mem, k, t, h);
      TableOkGrows(mem, mem', Levels(k, t), Levels(k, t), h);
    }
    assert Structured(mem', t.level.Keys, Levels(k, t));
    hide Structured, Levels, TableOk, FramesInv;
    forall g | g in t.owned
      ensures Referred(mem', t, g)
    {
      OwnedReference(mem, k, t, g);
    }
    forall f, i | f in t.level && t.level[f] >= 2 && IsTable(mem', f) && 0 <= i < TABLE_LEN
      ensures Recorded(mem', t, f, i)
    {
      EntryRecorded(mem, k, t, f, i);
    }
    hide Referred, Recorded;
    TreeOfParts(mem', k, t);
  }

  lemma TreeOfParts(mem: Mem, k: Kernel, t: User)
    requires FramesInv(k, t) && Structured(mem, t.level.Keys, Levels(k, t)) && OwnersInv(mem, t)
    ensures TreeInv(mem, k, t)
  {
  }

  lemma OwnAgree(mem: Mem, mem': Mem, k: Kernel, t: User)
    requires Agree(mem, mem', k.level.Keys + t.level.Keys)
    ensures Agree(mem, mem', k.level.Keys)
  {
  }

  lemma SharedFrame(mem: Mem, mem': Mem, k: Kernel, t: User)
    requires KernelInv(mem, k) && TreeInv(mem, k, t) && SharedInv(mem, k, t) && Agree(mem, mem', k.level.Keys + t.level.Keys)
    ensures SharedInv(mem', k, t)
  {
    hide KernelInv, TreeInv, SharedInv, Agree, Reach;
    OwnAgree(mem, mem', k, t);
    forall v: nat, l | 1 <= l <= 4
      ensures Reach(mem', t.root, v, l) == Reach(mem, t.root, v, l)
    {
      WalkFrame(mem, mem', k, t, v, l);
    }
    SharedStays(mem, mem', k, t, t);
  }

  lemma WritesFrameAt(mem: Mem, mem': Mem, k: Kernel, t: User, v: nat, l: nat)
    requires KernelInv(mem, k) && TreeInv(mem, k, t) && Agree(mem, mem', k.level.Keys + t.level.Keys) && 2 <= l <= 4
    requires WritesAt(mem, t.root, v, l)
    ensures WritesAt(mem', t.root, v, l)
  {
    hide KernelInv, TreeInv, Reach, Index;
    WalkFrame(mem, mem', k, t, v, l);
    UserReach(mem, k, t, v, l);
  }

  lemma WritesFrame(mem: Mem, mem': Mem, k: Kernel, t: User)
    requires KernelInv(mem, k) && TreeInv(mem, k, t) && WriteInv(mem, k, t) && Agree(mem, mem', k.level.Keys + t.level.Keys)
    ensures WriteInv(mem', k, t)
  {
    hide KernelInv, TreeInv, WriteInv, Agree, WritesAt;
    OwnAgree(mem, mem', k, t);
    forall v: nat, l | 2 <= l <= 4 && PathWrites(mem, t.root, v)
      ensures WritesAt(mem', t.root, v, l)
    {
      assert WritesAt(mem, t.root, v, l);
      WritesFrameAt(mem, mem', k, t, v, l);
    }
    hide PathWrites, ChosenForWriting;
    WriteInvStays(mem, mem', k, t, t);
  }

  /** A table keeps its invariant and its translation while its own and the kernel's frames stay. */
  lemma TableFrame(mem: Mem, mem': Mem, k: Kernel, t: User)
    requires Inv(mem, k, t) && Agree(mem, mem', k.level.Keys + t.level.Keys)
    ensures Inv(mem', k, t) && SameLeaves(mem, mem', t.root)
  {
    hide KernelInv, TreeInv, SharedInv, WriteInv, Agree;
    TreeFrame(mem, mem', k, t);
    OwnAgree(mem, mem', k, t);
    KernelFrame(mem, mem', k);
    SharedFrame(mem, mem', k, t);
    WritesFrame(mem, mem', k, t);
    forall v: nat
      ensures Leaf(mem', t.root, v) == Leaf(mem, t.root, v) && Reach(mem', t.root, v, 1) == Reach(mem, t.root, v, 1)
    {
      WalkFrame(mem, mem', k, t, v, 1);
    }
    PagesCarryOver(mem, mem', k, t);
  }

  // ----- the tables of a run

  /** Every table satisfies its invariant, and no two have a frame in common. */
  ghost predicate UsersOk(mem: Mem, k: Kernel, us: seq<User>) {
    && (forall i :: 0 <= i < |us| ==> Inv(mem, k, us[i]))
    && (forall i, j :: 0 <= i < j < |us| ==> us[i].level.Keys !! us[j].level.Keys)
  }

  /** Frames of the start of the run are as they were, and belong to no user table. */
  ghost predicate StartKept(mem0: Mem, mem: Mem, us: seq<User>) {
    && Untouched(mem0, mem, {})
    && forall i :: 0 <= i < |us| ==> us[i].level.Keys !! mem0.Keys
  }

  /** `t` became `t'` by writing only frames of its own and frames that held no table. */
  ghost predicate OwnChange(mem: Mem, t: User, mem': Mem, t': User) {
    && Untouched(mem, mem', t.level.Keys)
    && Extends(t.level, t'.level)
    && forall h :: h in t'.level && h !in t.level ==> h !in mem
  }

  lemma UsersStep(mem0: Mem, mem: Mem, k: Kernel, us: seq<User>, j: nat, mem': Mem, t': User)
    requires UsersOk(mem, k, us) && StartKept(mem0, mem, us) && KernelInv(mem, k) && j < |us|
    requires Inv(mem', k, t') && OwnChange(mem, us[j], mem', t')
    ensures UsersOk(mem', k, us[j := t']) && StartKept(mem0, mem', us[j := t'])
  {
    hide Inv, KernelInv;
    var us' := us[j := t'];
    forall i | 0 <= i < |us| && i != j
      ensures Inv(mem', k, us[i]) && us[i].level.Keys !! t'.level.Keys
    {
      assert us[i].level.Keys !! us[j].level.Keys;
      OtherTable(mem, k, us[i], us[j], mem', t');
    }
    StartStays(mem0, mem, us[j], mem', t');
    hide OwnChange;
  }

  lemma StartStays(mem0: Mem, mem: Mem, t: User, mem': Mem, t': User)
    requires Untouched(mem0, mem, {}) && t.level.Keys !! mem0.Keys && OwnChange(mem, t, mem', t')
    ensures Untouched(mem0, mem', {}) && t'.level.Keys !! mem0.Keys
  {
  }

  lemma UserFrames(mem: Mem, k: Kernel, t: User)
    requires Inv(mem, k, t)
    ensures forall f :: f in t.level ==> f in mem && f !in k.level
  {
  }

  lemma OtherTable(mem: Mem, k: Kernel, other: User, t: User, mem': Mem, t': User)
    requires Inv(mem, k, other) && Inv(mem, k, t) && other.level.Keys !! t.level.Keys && OwnChange(mem, t, mem', t')
    ensures Inv(mem', k, other) && other.level.Keys !! t'.level.Keys
  {
    hide Inv;
    UserFrames(mem, k, other);
    UserFrames(mem, k, t);
    TableFrame(mem, mem', k, other);
  }

  lemma UsersCreate(mem0: Mem, mem: Mem, k: Kernel, us: seq<User>, g: nat, mem': Mem)
    requires UsersOk(mem, k, us) && StartKept(mem0, mem, us) && g !in mem
    requires Inv(mem', k, Fresh(g)) && Untouched(mem, mem', {})
    ensures UsersOk(mem', k, us + [Fresh(g)]) && StartKept(mem0, mem', us + [Fresh(g)])
  {
    hide Inv;
    forall i | 0 <= i < |us|
      ensures Inv(mem', k, us[i]) && us[i].level.Keys !! Fresh(g).level.Keys
    {
      UserFrames(mem, k, us[i]);
      TableFrame(mem, mem', k, us[i]);
    }
    assert Untouched(mem0, mem', {});
    hide Untouched;
  }

  lemma KernelOf(mem: Mem, k: Kernel, t: User)
    requires Inv(mem, k, t)
    ensures KernelInv(mem, k)
  {
  }

  lemma OwnChangeOfChanged(k: Kernel, mem: Mem, t: User, mem': Mem, t': User, lo: nat, hi: nat)
    requires Changed(k, mem, t, mem', t', lo, hi)
    ensures OwnChange(mem, t, mem', t')
  {
  }

  /** The state of a run: the tables with their abstract values, and the pages each was given. */
  ghost predicate RunState(memory: Memory, k: Kernel, mem0: Mem, tables: seq<UserPageTable>, us: seq<User>, given: seq<set<nat>>)
    reads memory, tables
  {
    && memory.Valid() && KernelInv(memory.mem, k) && |us| == |tables| == |given|
    && (forall i :: 0 <= i < |us| ==> tables[i].memory == memory && tables[i].kernel == k)
    && (forall i :: 0 <= i < |us| ==> tables[i].Abs() == us[i] && given[i] <= us[i].over.Keys)
    && (forall i, j :: 0 <= i < j < |us| ==> tables[i] != tables[j])
    && UsersOk(memory.mem, k, us) && StartKept(mem0, memory.mem, us)
  }

  /** What one operation does to the tables' pages and to the pages given, when `count` of its pages were done. */
  ghost predicate Effect(op: Op, count: nat, us: seq<User>, given: seq<set<nat>>, us': seq<User>, given': seq<set<nat>>) {
    CountOk(op, count, given) && given' == GivenStep(given, op, count) && TookOver(us, op, count, us')
  }

  /** An operation that does not apply is skipped. */
  lemma SkipEffect(op: Op, us: seq<User>, given: seq<set<nat>>)
    requires !op.Create? && !MapApplies(op, given) && !UnmapApplies(op, given)
    ensures Effect(op, 0, us, given, us, given) && Full(op, 0, given)
  {
    TookNothing(us, op);
  }

  lemma CreateEffect(ok: bool, us: seq<User>, given: seq<set<nat>>, root: nat)
    ensures Effect(Create, if ok then 1 else 0, us, given, if ok then us + [Fresh(root)] else us, if ok then given + [{}] else given)
  {
    if ok {
      TookFresh(us, us + [Fresh(root)]);
    } else {
      TookNothing(us, Create);
    }
  }

  lemma MapEffect(op: Op, count: nat, us: seq<User>, given: seq<set<nat>>, t': User)
    requires MapApplies(op, given) && |us| == |given| && count <= Pages(op) && given[op.table] <= us[op.table].over.Keys
    requires t'.over == MapOver(us[op.table].over, op.start / PAGE_SIZE, count, op.phys, op.flags)
    ensures var given' := if count == Pages(op) then given[op.table := given[op.table] + PageSet(op.start / PAGE_SIZE, count)] else given;
            Effect(op, count, us, given, us[op.table := t'], given') && given'[op.table] <= t'.over.Keys
  {
    OverGrows(us[op.table].over, op.start / PAGE_SIZE, count, op.phys, op.flags);
    TookTable(us, op, count, us[op.table := t']);
    hide MapApplies, TookOver, MapOver, PageSet;
  }

  lemma UnmapEffect(op: Op, us: seq<User>, given: seq<set<nat>>, t': User)
    requires UnmapApplies(op, given) && |us| == |given| && given[op.table] <= us[op.table].over.Keys
    requires t'.over == UnmapOver(us[op.table].over, op.start / PAGE_SIZE, Pages(op))
    ensures Effect(op, Pages(op), us, given, us[op.table := t'], given) && given[op.table] <= t'.over.Keys
  {
    OverStays(us[op.table].over, op.start / PAGE_SIZE, Pages(op));
    TookTable(us, op, Pages(op), us[op.table := t']);
    hide TookOver, UnmapOver, PageSet;
  }

  method CreateTable(memory: Memory, kernelRoot: nat, ghost kernel: Kernel, ghost mem0: Mem, tables: seq<UserPageTable>,
                     given: seq<set<nat>>, ghost us: seq<User>)
    returns (ok: bool, tables': seq<UserPageTable>, given': seq<set<nat>>, ghost us': seq<User>)
    requires RunState(memory, kernel, mem0, tables, us, given) && kernel.root == kernelRoot
    modifies memory
    ensures RunState(memory, kernel, mem0, tables', us', given') && Effect(Create, if ok then 1 else 0, us, given, us', given')
    ensures forall i :: 0 <= i < |tables'| ==> tables'[i] in tables || fresh(tables'[i])
    ensures |memory.free| <= |old(memory.free)| && (!ok ==> memory.free == [])
  {
    hide Inv, KernelInv, MemoryOk, UsersOk, StartKept, Effect;
    ghost var mem1 := memory.mem;
    tables', given', us' := tables, given, us;
    var t := UserPageTable.NewClonedFromKernel(memory, kernelRoot, kernel);
    ok := t.Some?;
    CreateEffect(ok, us, given, if ok then t.value.root else 0);
    if ok {
      KernelOf(memory.mem, kernel, t.value.Abs());
      UsersCreate(mem0, mem1, kernel, us, t.value.root, memory.mem);
      tables', given', us' := tables + [t.value], given + [{}], us + [Fresh(t.value.root)];
    }
  }

  method MapTable(memory: Memory, ghost kernel: Kernel, ghost mem0: Mem, tables: seq<UserPageTable>, op: Op,
                  given: seq<set<nat>>, ghost us: seq<User>)
    returns (ok: bool, given': seq<set<nat>>, ghost us': seq<User>, ghost count: nat)
    requires RunState(memory, kernel, mem0, tables, us, given) && MapApplies(op, given)
    modifies memory, tables
    ensures RunState(memory, kernel, mem0, tables, us', given') && Effect(op, count, us, given, us', given')
    ensures ok <==> count == Pages(op)
    ensures |memory.free| <= |old(memory.free)| && (!ok ==> memory.free == [])
  {
    hide Inv, KernelInv, MemoryOk, UsersOk, StartKept, Effect, Changed, MapOver, PageSet, MappedTo;
    ghost var mem1, j := memory.mem, op.table;
    ValidTable(memory.mem, kernel, us, j);
    ok, count := tables[op.table].Map(op.start, op.end, op.phys, op.flags);
    ghost var t' := tables[j].Abs();
    AfterOp(mem0, mem1, kernel, us, j, memory.mem, t', op.start / PAGE_SIZE, op.start / PAGE_SIZE + count);
    MapEffect(op, count, us, given, t');
    us' := us[j := t'];
    given' := if ok then given[op.table := given[op.table] + PageSet(op.start / PAGE_SIZE, Pages(op))] else given;
  }

  method UnmapTable(memory: Memory, ghost kernel: Kernel, ghost mem0: Mem, tables: seq<UserPageTable>, op: Op,
                    given: seq<set<nat>>, ghost us: seq<User>)
    returns (ghost us': seq<User>)
    requires RunState(memory, kernel, mem0, tables, us, given) && UnmapApplies(op, given)
    modifies memory, tables
    ensures RunState(memory, kernel, mem0, tables, us', given) && Effect(op, Pages(op), us, given, us', given)
    ensures memory.free == old(memory.free)
  {
    hide Inv, KernelInv, MemoryOk, UsersOk, StartKept, Effect, Changed, UnmapOver, UnmapsTo, PageSet, PageSteps, HasLast, LastIsOwn;
    ghost var mem1, j := memory.mem, op.table;
    ValidTable(memory.mem, kernel, us, j);
    RangeInSpace(op.start, op.end);
    GivenIsOwn(mem1, kernel, us[j], given[j], op.start / PAGE_SIZE, Pages(op));
    tables[op.table].Unmap(op.start, op.end);
    ghost var t' := tables[j].Abs();
    UnmapsAll(mem1, us[j], op.start / PAGE_SIZE, Pages(op), t'.over);
    AfterOp(mem0, mem1, kernel, us, j, memory.mem, t', op.start / PAGE_SIZE, op.start / PAGE_SIZE + Pages(op));
    UnmapEffect(op, us, given, t');
    us' := us[j := t'];
  }

  /** One operation of a run; it falls short exactly when it reports so, and then no frame is left. */
  method Apply(memory: Memory, kernelRoot: nat, ghost kernel: Kernel, ghost mem0: Mem, tables: seq<UserPageTable>, op: Op,
               given: seq<set<nat>>, ghost us: seq<User>)
    returns (ok: bool, tables': seq<UserPageTable>, given': seq<set<nat>>, ghost us': seq<User>, ghost count: nat)
    requires RunState(memory, kernel, mem0, tables, us, given) && kernel.root == kernelRoot
    modifies memory, tables
    ensures RunState(memory, kernel, mem0, tables', us', given') && Effect(op, count, us, given, us', given')
    ensures forall i :: 0 <= i < |tables'| ==> tables'[i] in tables || fresh(tables'[i])
    ensures ok <==> Full(op, count, given)
    ensures |memory.free| <= |old(memory.free)| && (!ok ==> memory.free == [])
  {
    hide RunState, Effect, MapApplies, UnmapApplies;
    ok, tables', given', us', count := true, tables, given, us, 0;
    if op.Create? {
      ok, tables', given', us' := CreateTable(memory, kernelRoot, kernel, mem0, tables, given, us);
      count := if ok then 1 else 0;
    } else if MapApplies(op, given) {
      MapNotUnmap(op, given);
      ok, given', us', count := MapTable(memory, kernel, mem0, tables, op, given, us);
    } else if UnmapApplies(op, given) {
      MapNotUnmap(op, given);
      us' := UnmapTable(memory, kernel, mem0, tables, op, given, us);
      count := Pages(op);
    } else {
      SkipEffect(op, us, given);
    }
  }

  lemma MapNotUnmap(op: Op, given: seq<set<nat>>)
    ensures MapApplies(op, given) ==> op.MapRange?
    ensures UnmapApplies(op, given) ==> op.UnmapRange?
  {
  }

  /** What `Execute` has established after the operations in `done`. */
  ghost predicate RunOk(ops: seq<Op>, done: seq<nat>, oks: seq<bool>, left: seq<nat>, us: seq<User>, given: seq<set<nat>>)
    requires |done| <= |ops|
  {
    CountsOk(ops, done) && AllOver(us, Overs(ops, done)) && given == Given(ops, done) && Reports(ops, done, oks, left)
  }

  /**
   * `oks` says which operations got to the end, and `left` how many frames each
   * left: frames are only ever taken, and an operation falls short only when it
   * leaves none.
   */
  ghost predicate Reports(ops: seq<Op>, done: seq<nat>, oks: seq<bool>, left: seq<nat>)
    requires |done| <= |ops|
  {
    && |oks| == |left| == |done|
    && (forall m :: 0 <= m < |done| ==> (oks[m] <==> Full(ops[m], done[m], Given(ops, done[..m]))))
    && (forall m :: 0 <= m < |done| && !oks[m] ==> left[m] == 0)
    && (forall m, n :: 0 <= m < n < |done| ==> left[n] <= left[m])
  }

  lemma ReportNext(ops: seq<Op>, done: seq<nat>, oks: seq<bool>, left: seq<nat>, count: nat, ok: bool, frames: nat)
    requires |done| < |ops| && Reports(ops, done, oks, left)
    requires (ok <==> Full(ops[|done|], count, Given(ops, done))) && (!ok ==> frames == 0)
    requires left != [] ==> frames <= left[|left| - 1]
    ensures Reports(ops, done + [count], oks + [ok], left + [frames])
  {
    hide Given, Full;
    var more, oks', left' := done + [count], oks + [ok], left + [frames];
    forall m | 0 <= m < |more|
      ensures oks'[m] <==> Full(ops[m], more[m], Given(ops, more[..m]))
      ensures !oks'[m] ==> left'[m] == 0
    {
      assert more[..m] == done[..m];
      assert done[..|done|] == done;
      if m < |done| {
        assert oks[m] <==> Full(ops[m], done[m], Given(ops, done[..m]));
      }
    }
    forall m, n | 0 <= m < n < |more|
      ensures left'[n] <= left'[m]
    {
      if n == |done| {
        assert m < |left| - 1 ==> left[|left| - 1] <= left[m];
      }
    }
  }

  lemma RunNext(ops: seq<Op>, done: seq<nat>, oks: seq<bool>, left: seq<nat>, us: seq<User>, given: seq<set<nat>>,
                count: nat, ok: bool, frames: nat, us': seq<User>, given': seq<set<nat>>)
    requires |done| < |ops| && RunOk(ops, done, oks, left, us, given) && Effect(ops[|done|], count, us, given, us', given')
    requires (ok <==> Full(ops[|done|], count, given)) && (!ok ==> frames == 0) && (left != [] ==> frames <= left[|left| - 1])
    ensures RunOk(ops, done + [count], oks + [ok], left + [frames], us', given')
  {
    hide CountsOk, AllOver, Overs, Given, GivenStep, Reports, TookOver, Full, CountOk;
    OverNext(ops, done, us, us', count);
    CountNext(ops, done, given, count);
    ReportNext(ops, done, oks, left, count, ok, frames);
  }

  /** Operations that all report success, as they do while a frame is left, are all complete. */
  lemma AllReported(ops: seq<Op>, done: seq<nat>, oks: seq<bool>, left: seq<nat>)
    requires |done| <= |ops| && Reports(ops, done, oks, left)
    ensures AllFull(ops, done) <==> forall m :: 0 <= m < |oks| ==> oks[m]
    ensures left != [] && left[|left| - 1] > 0 ==> AllFull(ops, done)
  {
    hide Full, Given;
  }

  /**
   * Runs any sequence of operations; those that do not apply are skipped. In
   * the end every table is well formed, no frame that held a table at the
   * start has been written, and the kernel translates every page as before.
   */
  method Execute(memory: Memory, kernelRoot: nat, ghost kernel: Kernel, ops: seq<Op>)
    returns (tables: seq<UserPageTable>, oks: seq<bool>, ghost us: seq<User>, ghost done: seq<nat>, ghost left: seq<nat>)
    requires memory.Valid() && KernelInv(memory.mem, kernel) && kernel.root == kernelRoot
    modifies memory
    ensures memory.Valid() && KernelInv(memory.mem, kernel)
    ensures |us| == |tables| && forall i :: 0 <= i < |us| ==> tables[i].memory == memory && tables[i].Abs() == us[i]
    ensures UsersOk(memory.mem, kernel, us) && StartKept(old(memory.mem), memory.mem, us)
    ensures SameLeaves(old(memory.mem), memory.mem, kernel.root)
    ensures |done| == |ops| && CountsOk(ops, done) && AllOver(us, Overs(ops, done))
    ensures Reports(ops, done, oks, left) && (ops != [] ==> left[|ops| - 1] == |memory.free|)
  {
    hide RunOk, Effect, Inv, KernelInv, MemoryOk, UsersOk, StartKept;
    ghost var mem0 := memory.mem;
    tables, oks, us, done, left := [], [], [], [], [];
    var given: seq<set<nat>> := [];
    NoUsers(mem0, kernel);
    NothingYet(ops);
    for n := 0 to |ops|
      invariant RunState(memory, kernel, mem0, tables, us, given) && forall i :: 0 <= i < |tables| ==> fresh(tables[i])
      invariant |done| == |oks| == |left| == n && RunOk(ops, done, oks, left, us, given)
      invariant n > 0 ==> left[n - 1] == |memory.free|
    {
      ghost var us1, given1, count := us, given, 0;
      var ok;
      ok, tables, given, us, count := Apply(memory, kernelRoot, kernel, mem0, tables, ops[n], given, us);
      RunNext(ops, done, oks, left, us1, given1, count, ok, |memory.free|, us, given);
      oks, done, left := oks + [ok], done + [count], left + [|memory.free|];
    }
    EndOfRun(mem0, memory.mem, kernel, us);
    RunFacts(ops, done, oks, left, us, given);
  }

  lemma RunFacts(ops: seq<Op>, done: seq<nat>, oks: seq<bool>, left: seq<nat>, us: seq<User>, given: seq<set<nat>>)
    requires |done| <= |ops| && RunOk(ops, done, oks, left, us, given)
    ensures CountsOk(ops, done) && AllOver(us, Overs(ops, done)) && Reports(ops, done, oks, left)
  {
  }

  lemma NothingYet(ops: seq<Op>)
    ensures RunOk(ops, [], [], [], [], [])
  {
    NothingOver(ops);
    NothingGiven(ops);
  }

  // ----- which operations apply, and how far they get

  /** The pages an operation's loop visits. */
  function Pages(op: Op): nat
    requires !op.Create?
  {
    PageSteps(op.start, op.end)
  }

  predicate InRange(op: Op, v: nat)
    requires !op.Create?
  {
    op.start / PAGE_SIZE <= v < op.start / PAGE_SIZE + Pages(op)
  }

  /** A map on an existing table. */
  predicate MapApplies(op: Op, given: seq<set<nat>>) {
    op.MapRange? && op.table < |given| && op.start < op.end <= PAGE_COUNT * PAGE_SIZE
  }

  /** An unmap of a range whose pages the table was given earlier. */
  predicate UnmapApplies(op: Op, given: seq<set<nat>>) {
    && op.UnmapRange? && op.table < |given| && op.start < op.end <= PAGE_COUNT * PAGE_SIZE
    && PageSet(op.start / PAGE_SIZE, Pages(op)) <= given[op.table]
  }

  /** The pages each table was given by maps that got to the end. */
  function GivenStep(given: seq<set<nat>>, op: Op, count: nat): seq<set<nat>> {
    match op
    case Create => if count == 1 then given + [{}] else given
    case MapRange(j, start, end, _, _) =>
      if MapApplies(op, given) && count == Pages(op) then given[j := given[j] + PageSet(start / PAGE_SIZE, count)] else given
    case UnmapRange(_, _, _) => given
  }

  function Given(ops: seq<Op>, done: seq<nat>): seq<set<nat>>
    requires |done| <= |ops|
  {
    if done == [] then [] else GivenStep(Given(ops, done[..|done| - 1]), ops[|done| - 1], done[|done| - 1])
  }

  /** How many pages an operation may get done: none if it does not apply, all of them for an unmap, some or all for a map. */
  predicate CountOk(op: Op, count: nat, given: seq<set<nat>>) {
    match op
    case Create => count <= 1
    case MapRange(_, _, _, _, _) => if MapApplies(op, given) then count <= Pages(op) else count == 0
    case UnmapRange(_, _, _) => count == if UnmapApplies(op, given) then Pages(op) else 0
  }

  /** The operation got to the end, as it does while there are frames. */
  predicate Full(op: Op, count: nat, given: seq<set<nat>>) {
    match op
    case Create => count == 1
    case MapRange(_, _, _, _, _) => MapApplies(op, given) ==> count == Pages(op)
    case UnmapRange(_, _, _) => true
  }

  ghost predicate CountsOk(ops: seq<Op>, done: seq<nat>)
    requires |done| <= |ops|
  {
    forall m :: 0 <= m < |done| ==> CountOk(ops[m], done[m], Given(ops, done[..m]))
  }

  ghost predicate AllFull(ops: seq<Op>, done: seq<nat>)
    requires |done| <= |ops|
  {
    forall m :: 0 <= m < |done| ==> Full(ops[m], done[m], Given(ops, done[..m]))
  }

  lemma NothingGiven(ops: seq<Op>)
    ensures CountsOk(ops, []) && Given(ops, []) == []
  {
  }

  lemma CountNext(ops: seq<Op>, done: seq<nat>, given: seq<set<nat>>, count: nat)
    requires |done| < |ops| && CountsOk(ops, done) && given == Given(ops, done) && CountOk(ops[|done|], count, given)
    ensures CountsOk(ops, done + [count]) && Given(ops, done + [count]) == GivenStep(given, ops[|done|], count)
  {
    var more := done + [count];
    assert more[..|done|] == done;
    forall m | 0 <= m < |done|
      ensures more[..m] == done[..m]
    {
    }
    assert Given(ops, more) == GivenStep(Given(ops, done), ops[|done|], count);
    hide Given, CountOk, GivenStep;
  }

  // ----- what the run has mapped

  /** One operation's effect on the pages each table has taken over, when `count` pages were done. */
  ghost function OverStep(overs: seq<map<nat, Option<Mapping>>>, op: Op, count: nat): seq<map<nat, Option<Mapping>>> {
    match op
    case Create => if count == 1 then overs + [map[]] else overs
    case MapRange(j, start, _, phys, flags) =>
      if j < |overs| then overs[j := MapOver(overs[j], start / PAGE_SIZE, count, phys, flags)] else overs
    case UnmapRange(j, start, _) =>
      if j < |overs| then overs[j := UnmapOver(overs[j], start / PAGE_SIZE, count)] else overs
  }

  ghost function Overs(ops: seq<Op>, done: seq<nat>): seq<map<nat, Option<Mapping>>>
    requires |done| <= |ops|
  {
    if done == [] then [] else OverStep(Overs(ops, done[..|done| - 1]), ops[|done| - 1], done[|done| - 1])
  }

  ghost predicate AllOver(us: seq<User>, overs: seq<map<nat, Option<Mapping>>>) {
    |us| == |overs| && forall i :: 0 <= i < |us| ==> us[i].over == overs[i]
  }

  lemma NothingOver(ops: seq<Op>)
    ensures AllOver([], Overs(ops, []))
  {
  }

  /** The tables before and after one operation of a run, as far as their pages go. */
  ghost predicate TookOver(us: seq<User>, op: Op, count: nat, us': seq<User>) {
    match op
    case Create => if count == 1 then |us'| == |us| + 1 && us'[..|us|] == us && us'[|us|].over == map[] else us' == us
    case MapRange(j, start, _, phys, flags) =>
      if j < |us| then |us'| == |us| && us' == us[j := us'[j]] && us'[j].over == MapOver(us[j].over, start / PAGE_SIZE, count, phys, flags)
      else us' == us
    case UnmapRange(j, start, _) =>
      if j < |us| then |us'| == |us| && us' == us[j := us'[j]] && us'[j].over == UnmapOver(us[j].over, start / PAGE_SIZE, count)
      else us' == us
  }

  lemma TookNothing(us: seq<User>, op: Op)
    ensures TookOver(us, op, 0, us)
  {
  }

  lemma TookFresh(us: seq<User>, us': seq<User>)
    requires |us'| == |us| + 1 && us'[..|us|] == us && us'[|us|].over == map[]
    ensures TookOver(us, Create, 1, us')
  {
  }

  lemma TookTable(us: seq<User>, op: Op, count: nat, us': seq<User>)
    requires !op.Create? && op.table < |us| == |us'| && us' == us[op.table := us'[op.table]]
    requires op.MapRange? ==> us'[op.table].over == MapOver(us[op.table].over, op.start / PAGE_SIZE, count, op.phys, op.flags)
    requires op.UnmapRange? ==> us'[op.table].over == UnmapOver(us[op.table].over, op.start / PAGE_SIZE, count)
    ensures TookOver(us, op, count, us')
  {
  }

  lemma OverNext(ops: seq<Op>, done: seq<nat>, us: seq<User>, us': seq<User>, count: nat)
    requires |done| < |ops| && AllOver(us, Overs(ops, done)) && TookOver(us, ops[|done|], count, us')
    ensures AllOver(us', Overs(ops, done + [count]))
  {
  }

  predicate MapCovers(op: Op, count: nat, i: nat, v: nat) {
    op.MapRange? && op.table == i && InRange(op, v) && v < op.start / PAGE_SIZE + count
  }

  predicate UnmapCovers(op: Op, count: nat, i: nat, v: nat) {
    op.UnmapRange? && op.table == i && InRange(op, v) && count > 0
  }

  /** What a map of the page asked for. */
  function Asked(op: Op, v: nat): Mapping
    requires op.MapRange? && v >= op.start / PAGE_SIZE
  {
    Mapping(PhysAt(op.phys, v - op.start / PAGE_SIZE), op.flags)
  }

  /** Operation `m` mapped the page in the existing table `i`, and none has mapped or unmapped it since. */
  ghost predicate MappedSince(ops: seq<Op>, done: seq<nat>, i: nat, v: nat, m: nat)
    requires |done| <= |ops|
  {
    && m < |done| && i < |Overs(ops, done[..m])| && MapCovers(ops[m], done[m], i, v)
    && forall u :: m < u < |done| ==> !UnmapCovers(ops[u], done[u], i, v) && !MapCovers(ops[u], done[u], i, v)
  }

  lemma RangeOf(op: Op, count: nat, given: seq<set<nat>>, v: nat)
    requires !op.Create? && CountOk(op, count, given)
    ensures op.MapRange? ==> (op.start / PAGE_SIZE <= v < op.start / PAGE_SIZE + count <==> InRange(op, v) && v < op.start / PAGE_SIZE + count)
    ensures op.UnmapRange? ==> (op.start / PAGE_SIZE <= v < op.start / PAGE_SIZE + count <==> InRange(op, v) && count > 0)
  {
  }

  lemma StepAt(overs: seq<map<nat, Option<Mapping>>>, op: Op, count: nat, i: nat, v: nat, given: seq<set<nat>>)
    requires i < |OverStep(overs, op, count)| && CountOk(op, count, given)
    ensures var o := OverStep(overs, op, count)[i];
            if i >= |overs| then o == map[] && !MapCovers(op, count, i, v)
            else if MapCovers(op, count, i, v) then v in o && o[v] == Some(Asked(op, v))
            else if UnmapCovers(op, count, i, v) then v in o && o[v].None?
            else (v in o <==> v in overs[i]) && (v in o ==> o[v] == overs[i][v])
  {
    if !op.Create? { RangeOf(op, count, given, v); }
    hide CountOk, InRange;
    match op
    case Create =>
    case MapRange(j, start, _, phys, flags) => if j < |overs| { MapOverAt(overs[j], start / PAGE_SIZE, count, phys, flags, v); }
    case UnmapRange(j, start, _) => if j < |overs| { UnmapOverAt(overs[j], start / PAGE_SIZE, count, v); }
    hide MapOver, UnmapOver;
  }

  predicate Covers(op: Op, count: nat, i: nat, v: nat) { MapCovers(op, count, i, v) || UnmapCovers(op, count, i, v) }

  lemma EarlierMapped(ops: seq<Op>, done: seq<nat>, i: nat, v: nat, m: nat)
    requires done != [] && |done| <= |ops| && m < |done| - 1
    ensures MappedSince(ops, done, i, v, m) <==>
            MappedSince(ops, done[..|done| - 1], i, v, m) && !Covers(ops[|done| - 1], done[|done| - 1], i, v)
  {
    assert done[..|done| - 1][..m] == done[..m];
    hide UnmapCovers, MapCovers, Overs;
  }

  lemma LastMapped(ops: seq<Op>, done: seq<nat>, i: nat, v: nat)
    requires done != [] && |done| <= |ops|
    ensures var n := |done| - 1;
            && (MappedSince(ops, done, i, v, n) <==> i < |Overs(ops, done[..n])| && MapCovers(ops[n], done[n], i, v))
            && (forall m: nat :: MappedSince(ops, done, i, v, m) ==> m <= n)
            && (forall m: nat :: MappedSince(ops, done[..n], i, v, m) ==> m < n)
            && (forall m: nat :: m < n ==>
                  (MappedSince(ops, done, i, v, m) <==> MappedSince(ops, done[..n], i, v, m) && !Covers(ops[n], done[n], i, v)))
  {
    var n := |done| - 1;
    forall m: nat | m < n
      ensures MappedSince(ops, done, i, v, m) <==> MappedSince(ops, done[..n], i, v, m) && !Covers(ops[n], done[n], i, v)
    {
      EarlierMapped(ops, done, i, v, m);
    }
    hide Overs, MapCovers, UnmapCovers;
  }

  lemma {:induction false} OversGrow(ops: seq<Op>, done: seq<nat>, m: nat)
    requires |done| <= |ops| && m <= |done|
    ensures |Overs(ops, done[..m])| <= |Overs(ops, done)|
    decreases |done|
  {
    if m < |done| {
      OversGrow(ops, done[..|done| - 1], m);
      assert done[..|done| - 1][..m] == done[..m];
    } else {
      assert done[..m] == done;
    }
  }

  /** The page is mapped, in the way operation `m` asked, or nothing maps it. */
  ghost predicate ChoiceIs(over: map<nat, Option<Mapping>>, ops: seq<Op>, done: seq<nat>, i: nat, v: nat)
    requires |done| <= |ops|
  {
    && (v in over && over[v].Some? ==> exists m: nat :: MappedSince(ops, done, i, v, m))
    && (forall m: nat :: MappedSince(ops, done, i, v, m) ==> v in over && over[v] == Some(Asked(ops[m], v)))
  }

  /**
   * A page of a table is mapped at the end of a run exactly when some operation
   * mapped it and none unmapped it since, and then as the last map of it asked.
   */
  lemma {:induction false} OversMeaning(ops: seq<Op>, done: seq<nat>, i: nat, v: nat)
    requires |done| <= |ops| && i < |Overs(ops, done)| && CountsOk(ops, done)
    ensures ChoiceIs(Overs(ops, done)[i], ops, done, i, v)
    decreases |done|
  {
    var n := |done| - 1;
    var before := done[..n];
    var overs := Overs(ops, before);
    CountsBefore(ops, done);
    StepAt(overs, ops[n], done[n], i, v, Given(ops, before));
    hide CountsOk;
    LastMapped(ops, done, i, v);
    if i < |overs| {
      OversMeaning(ops, before, i, v);
    } else {
      NotYetMapped(ops, before, i, v);
    }
    hide MappedSince, MapOver, UnmapOver, Asked, InRange;
    ChoiceStep(ops, done, i, v, overs);
  }

  lemma NotYetMapped(ops: seq<Op>, done: seq<nat>, i: nat, v: nat)
    requires |done| <= |ops| && i >= |Overs(ops, done)|
    ensures forall m: nat :: !MappedSince(ops, done, i, v, m)
  {
    forall m: nat
      ensures !MappedSince(ops, done, i, v, m)
    {
      if m < |done| { OversGrow(ops, done, m); }
    }
  }

  lemma ChoiceStep(ops: seq<Op>, done: seq<nat>, i: nat, v: nat, overs: seq<map<nat, Option<Mapping>>>)
    requires done != [] && |done| <= |ops| && overs == Overs(ops, done[..|done| - 1]) && i < |Overs(ops, done)|
    requires var n := |done| - 1;
             && (if i < |overs| then ChoiceIs(overs[i], ops, done[..n], i, v) else forall m: nat :: !MappedSince(ops, done[..n], i, v, m))
             && (MappedSince(ops, done, i, v, n) <==> i < |overs| && MapCovers(ops[n], done[n], i, v))
             && (forall m: nat :: MappedSince(ops, done, i, v, m) ==> m <= n)
             && (forall m: nat :: MappedSince(ops, done[..n], i, v, m) ==> m < n)
             && (forall m: nat :: m < n ==>
                   (MappedSince(ops, done, i, v, m) <==> MappedSince(ops, done[..n], i, v, m) && !Covers(ops[n], done[n], i, v)))
    requires var n := |done| - 1;
             var o := Overs(ops, done)[i];
             if i >= |overs| then o == map[] && !MapCovers(ops[n], done[n], i, v)
             else if MapCovers(ops[n], done[n], i, v) then v in o && o[v] == Some(Asked(ops[n], v))
             else if UnmapCovers(ops[n], done[n], i, v) then v in o && o[v].None?
             else (v in o <==> v in overs[i]) && (v in o ==> o[v] == overs[i][v])
    ensures ChoiceIs(Overs(ops, done)[i], ops, done, i, v)
  {
    var n := |done| - 1;
    var o := Overs(ops, done)[i];
    MappedRange(ops, done, i, v);
    MappedRange(ops, done[..n], i, v);
    hide MappedSince, Asked, Overs;
    if v in o && o[v].Some? {
      if MapCovers(ops[n], done[n], i, v) {
        assert MappedSince(ops, done, i, v, n);
      } else {
        hide MapCovers, UnmapCovers;
        var m: nat :| MappedSince(ops, done[..n], i, v, m);
        assert MappedSince(ops, done, i, v, m);
      }
    }
  }

  lemma MappedRange(ops: seq<Op>, done: seq<nat>, i: nat, v: nat)
    requires |done| <= |ops|
    ensures forall m: nat :: MappedSince(ops, done, i, v, m) ==> m < |done| && ops[m].MapRange? && ops[m].start / PAGE_SIZE <= v
  {
  }

  lemma CountsBefore(ops: seq<Op>, done: seq<nat>)
    requires done != [] && |done| <= |ops| && CountsOk(ops, done)
    ensures var n := |done| - 1; CountsOk(ops, done[..n]) && CountOk(ops[n], done[n], Given(ops, done[..n]))
  {
    var n := |done| - 1;
    forall m | 0 <= m < n
      ensures done[..n][..m] == done[..m]
    {
    }
    hide CountOk, Given;
  }

  /** The same in terms of ranges alone: operation `m` maps a range with the page, and no later one's range has it. */
  ghost predicate RangeMapped(ops: seq<Op>, done: seq<nat>, i: nat, v: nat, m: nat)
    requires |done| <= |ops|
  {
    && m < |done| && MapApplies(ops[m], Given(ops, done[..m])) && ops[m].table == i && InRange(ops[m], v)
    && forall u :: m < u < |done| && (MapApplies(ops[u], Given(ops, done[..u])) || UnmapApplies(ops[u], Given(ops, done[..u]))) && ops[u].table == i ==>
         !InRange(ops[u], v)
  }

  lemma {:induction false} GivenLength(ops: seq<Op>, done: seq<nat>)
    requires |done| <= |ops|
    ensures |Given(ops, done)| == |Overs(ops, done)|
    decreases |done|
  {
    if done != [] {
      GivenLength(ops, done[..|done| - 1]);
      hide MapOver, UnmapOver, PageSet, MapApplies;
    }
  }

  lemma MapCoversRange(op: Op, count: nat, given: seq<set<nat>>, i: nat, v: nat)
    requires CountOk(op, count, given) && Full(op, count, given)
    ensures MapCovers(op, count, i, v) <==> MapApplies(op, given) && op.table == i && InRange(op, v)
    ensures UnmapCovers(op, count, i, v) <==> UnmapApplies(op, given) && op.table == i && InRange(op, v)
  {
    assert MapApplies(op, given) || UnmapApplies(op, given) ==> Pages(op) > 0;
  }

  lemma MappedIsRangeMapped(ops: seq<Op>, done: seq<nat>, i: nat, v: nat, m: nat)
    requires |done| <= |ops| && CountsOk(ops, done) && AllFull(ops, done)
    ensures MappedSince(ops, done, i, v, m) <==> RangeMapped(ops, done, i, v, m)
  {
    forall u | 0 <= u < |done|
      ensures MapCovers(ops[u], done[u], i, v) <==> MapApplies(ops[u], Given(ops, done[..u])) && ops[u].table == i && InRange(ops[u], v)
      ensures UnmapCovers(ops[u], done[u], i, v) <==> UnmapApplies(ops[u], Given(ops, done[..u])) && ops[u].table == i && InRange(ops[u], v)
    {
      MapCoversRange(ops[u], done[u], Given(ops, done[..u]), i, v);
    }
    if m < |done| {
      GivenLength(ops, done[..m]);
      assert MapApplies(ops[m], Given(ops, done[..m])) ==> ops[m].table < |Overs(ops, done[..m])|;
    }
    hide MapCovers, UnmapCovers, MapApplies, UnmapApplies, InRange, Given, Overs, CountsOk, AllFull;
  }

  /**
   * User code reaches exactly the pages mapped and not unmapped since, in every
   * table of every run, writes exactly those whose last map asked for writing,
   * and finds the frame and flags that map asked for.
   */
  lemma UserReachesMapped(mem: Mem, k: Kernel, us: seq<User>, ops: seq<Op>, done: seq<nat>, i: nat, v: nat)
    requires UsersOk(mem, k, us) && |done| == |ops| && CountsOk(ops, done) && AllOver(us, Overs(ops, done)) && i < |us| && v < PAGE_COUNT
    ensures UserAccess(mem, us[i].root, v) <==> exists m: nat :: MappedSince(ops, done, i, v, m)
    ensures UserWrite(mem, us[i].root, v) <==> exists m: nat :: MappedSince(ops, done, i, v, m) && ops[m].flags.rw
    ensures forall m: nat :: MappedSince(ops, done, i, v, m) ==> LeafIs(Leaf(mem, us[i].root, v), Some(Asked(ops[m], v)))
  {
    MappedRange(ops, done, i, v);
    hide Inv, UserAccess, UserWrite, Overs, MappedSince, CountsOk, Asked, Leaf;
    UserAccessIsMapped(mem, k, us[i], v);
    UserWriteIsMapped(mem, k, us[i], v);
    OversMeaning(ops, done, i, v);
    PageFacts(mem, k, us[i], v);
    AskedFlags(ops, v);
  }

  lemma AskedFlags(ops: seq<Op>, v: nat)
    ensures forall m: nat :: m < |ops| && ops[m].MapRange? && ops[m].start / PAGE_SIZE <= v ==> Asked(ops[m], v).flags == ops[m].flags
  {
  }

  /** While frames last, those are the pages of the mapped ranges. */
  lemma UserReachesRanges(mem: Mem, k: Kernel, us: seq<User>, ops: seq<Op>, done: seq<nat>, i: nat, v: nat)
    requires UsersOk(mem, k, us) && |done| == |ops| && CountsOk(ops, done) && AllOver(us, Overs(ops, done)) && i < |us| && v < PAGE_COUNT
    requires AllFull(ops, done)
    ensures UserAccess(mem, us[i].root, v) <==> exists m: nat :: RangeMapped(ops, done, i, v, m)
    ensures UserWrite(mem, us[i].root, v) <==> exists m: nat :: RangeMapped(ops, done, i, v, m) && ops[m].flags.rw
  {
    MappedRange(ops, done, i, v);
    hide UsersOk, UserAccess, UserWrite, Overs, MappedSince, RangeMapped, CountsOk, AllFull, AllOver, Leaf, LeafIs;
    UserReachesMapped(mem, k, us, ops, done, i, v);
    forall m: nat
      ensures MappedSince(ops, done, i, v, m) <==> RangeMapped(ops, done, i, v, m)
    {
      MappedIsRangeMapped(ops, done, i, v, m);
    }
  }

  function PageSet(v: nat, n: nat): (s: set<nat>)
    ensures forall w :: w in s <==> v <= w < v + n
  {
    if n == 0 then {} else PageSet(v, n - 1) + {v + n - 1}
  }

  lemma NoUsers(mem: Mem, k: Kernel)
    ensures UsersOk(mem, k, []) && StartKept(mem, mem, [])
  {
  }

  lemma ValidTable(mem: Mem, k: Kernel, us: seq<User>, j: nat)
    requires UsersOk(mem, k, us) && j < |us|
    ensures Inv(mem, k, us[j])
  {
  }

  lemma AfterOp(mem0: Mem, mem: Mem, k: Kernel, us: seq<User>, j: nat, mem': Mem, t': User, lo: nat, hi: nat)
    requires UsersOk(mem, k, us) && StartKept(mem0, mem, us) && KernelInv(mem, k) && j < |us|
    requires Inv(mem', k, t') && Changed(k, mem, us[j], mem', t', lo, hi)
    ensures UsersOk(mem', k, us[j := t']) && StartKept(mem0, mem', us[j := t']) && KernelInv(mem', k)
  {
    hide Inv, KernelInv, UsersOk, StartKept, Changed, OwnChange;
    OwnChangeOfChanged(k, mem, us[j], mem', t', lo, hi);
    UsersStep(mem0, mem, k, us, j, mem', t');
    KernelOf(mem', k, t');
  }

  lemma OverGrows(over: map<nat, Option<Mapping>>, v: nat, n: nat, phys: nat, flags: Flags)
    ensures over.Keys <= MapOver(over, v, n, phys, flags).Keys
    ensures PageSet(v, n) <= MapOver(over, v, n, phys, flags).Keys
  {
  }

  lemma OverStays(over: map<nat, Option<Mapping>>, v: nat, n: nat)
    ensures over.Keys <= UnmapOver(over, v, n).Keys
  {
  }

  /** Pages given earlier were taken over, so their last-level tables are the table's own. */
  lemma GivenIsOwn(mem: Mem, k: Kernel, t: User, given: set<nat>, v: nat, n: nat)
    requires Inv(mem, k, t) && given <= t.over.Keys && PageSet(v, n) <= given && v + n <= PAGE_COUNT
    ensures forall w :: v <= w < v + n ==> w in t.over && HasLast(mem, t, w) && LastIsOwn(mem, t, w)
  {
    hide Inv, HasLast, LastIsOwn;
    forall w | v <= w < v + n
      ensures w in t.over && HasLast(mem, t, w) && LastIsOwn(mem, t, w)
    {
      assert w in PageSet(v, n);
      TakenOverIsOwn(mem, k, t, w);
    }
  }

  lemma RangeInSpace(start: nat, end: nat)
    requires start < end <= PAGE_COUNT * PAGE_SIZE
    ensures start / PAGE_SIZE + PageSteps(start, end) <= PAGE_COUNT
  {
    var n := PageSteps(start, end);
    assert n > 0 && start + (n - 1) * PAGE_SIZE < end;
    hide PageSteps;
    PageOfRange(start, end, start + (n - 1) * PAGE_SIZE, n - 1);
  }

  /** Unmapping pages that all have last-level tables clears each of them. */
  lemma UnmapsAll(mem: Mem, t: User, v: nat, n: nat, over: map<nat, Option<Mapping>>)
    requires UnmapsTo(mem, t, v, n, over) && forall w :: v <= w < v + n ==> HasLast(mem, t, w)
    ensures over == UnmapOver(t.over, v, n)
  {
    hide HasLast;
    forall w: nat
      ensures w in over <==> w in UnmapOver(t.over, v, n)
      ensures w in over ==> over[w] == UnmapOver(t.over, v, n)[w]
    {
      UnmapOverAt(t.over, v, n, w);
    }
    hide UnmapOver, UnmapsTo;
    assert over.Keys == UnmapOver(t.over, v, n).Keys;
  }

  lemma EndOfRun(mem0: Mem, mem: Mem, k: Kernel, us: seq<User>)
    requires KernelInv(mem0, k) && StartKept(mem0, mem, us)
    ensures SameLeaves(mem0, mem, k.root)
  {
  }

  /** In a run that starts from the boot table a page walks to the table's own choice of frame, or else to itself. */
  lemma RunFromBoot(mem0: Mem, mem: Mem, k: Kernel, us: seq<User>, start: nat, end: nat, i: nat, v: nat)
    requires KernelPageTables.IdentityMapped(mem0, k.root, start, end) && SameLeaves(mem0, mem, k.root)
    requires UsersOk(mem, k, us) && i < |us| && v < PAGE_COUNT
    ensures if v in us[i].over then LeafIs(Leaf(mem, us[i].root, v), us[i].over[v])
            else Frame(mem, us[i].root, v) == if start / PAGE_SIZE <= v < end / PAGE_SIZE then Some(MaskAddr(v * PAGE_SIZE)) else None
  {
    hide Inv, Leaf, MaskAddr;
    PageFacts(mem, k, us[i], v);
    assert Leaf(mem, k.root, v) == Leaf(mem0, k.root, v);
  }
}

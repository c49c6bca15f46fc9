/**
 * User page tables as the kernel runs them (kernel/src/arch/x86_64/paging.rs):
 * creation from the kernel root, mapping with lazy copying of shared tables,
 * and unmapping, over one physical memory.
 */
module UserPageTables {
  import opened Basics
  import opened PageTables
  import opened PageEdits

  /** Frames still to hand out are distinct, frame-sized and hold no table yet. */
  ghost predicate MemoryOk(mem: Mem, free: seq<nat>) {
    && Distinct(free)
    && (forall i :: 0 <= i < |free| ==> free[i] !in mem && FrameAddr(free[i]))
    && (forall f :: f in mem ==> |mem[f]| == TABLE_LEN)
  }

  lemma MemoryOkWrite(mem: Mem, free: seq<nat>, f: nat, table: seq<Entry>)
    requires MemoryOk(mem, free) && f in mem && |table| == TABLE_LEN
    ensures MemoryOk(mem[f := table], free)
  {
  }

  /** Frames that hold tables, and the frames the frame allocator can still hand out. */
  class Memory {
    var mem: Mem
    var free: seq<nat>

    ghost predicate Valid()
      reads this
    {
      MemoryOk(mem, free)
    }

    constructor (mem: Mem, free: seq<nat>)
      requires MemoryOk(mem, free)
      ensures Valid() && this.mem == mem && this.free == free
    {
      this.mem, this.free := mem, free;
    }

    /** A fresh frame holding the given table, or nothing once the frames run out. */
    method AllocTable(content: seq<Entry>) returns (r: Option<nat>)
      requires Valid() && |content| == TABLE_LEN
      modifies this
      ensures Valid()
      ensures r.None? <==> old(free) == []
      ensures r.None? ==> mem == old(mem) && free == old(free)
      ensures r.Some? ==> r.value !in old(mem) && FrameAddr(r.value) && mem == old(mem)[r.value := content]
                          && free == old(free)[1..]
    {
      if free == [] {
        return None;
      }
      r := Some(free[0]);
      mem, free := mem[free[0] := content], free[1..];
    }
  }

  /** Frames outside the given tables are as they were. */
  ghost predicate Untouched(mem: Mem, mem': Mem, tables: set<nat>) {
    forall f :: f in mem && f !in tables ==> f in mem' && mem'[f] == mem[f]
  }

  ghost predicate SameLeaves(mem: Mem, mem': Mem, root: nat) {
    forall v: nat :: Leaf(mem', root, v) == Leaf(mem, root, v)
  }

  /** The user's tables may have grown by fresh frames, but no page translates differently. */
  ghost predicate Kept(k: Kernel, mem: Mem, t: User, mem': Mem, t': User) {
    && t'.root == t.root && t'.over == t.over
    && Untouched(mem, mem', t.level.Keys)
    && Extends(t.level, t'.level)
    && (forall h :: h in t'.level && h !in t.level ==> h !in mem)
    && SameLeaves(mem, mem', t.root) && SameLeaves(mem, mem', k.root)
  }

  // ----- creation

  ghost function Fresh(root: nat): User { User(root, [], map[root := 4], map[], map[]) }

  lemma CloneLeaf(mem: Mem, k: Kernel, g: nat, mem': Mem, v: nat)
    requires KernelInv(mem, k) && g !in mem && mem' == mem[g := mem[k.root]]
    ensures Leaf(mem', g, v) == Leaf(mem, k.root, v)
    ensures Leaf(mem, k.root, v).Some? ==> !Leaf(mem, k.root, v).value.us
  {
  }

  lemma CloneTree(mem: Mem, k: Kernel, g: nat, mem': Mem)
    requires KernelInv(mem, k) && g !in mem && mem' == mem[g := mem[k.root]]
    ensures g !in k.level && KernelInv(mem', k) && TreeInv(mem', k, Fresh(g))
    ensures forall v: nat :: Leaf(mem', k.root, v) == Leaf(mem, k.root, v)
  {
    assert g in k.level ==> TableOk(mem, k.level, g);
    KernelFrame(mem, mem', k);
    var t := Fresh(g);
    assert TableOk(mem, k.level, k.root);
    assert Extends(k.level, Levels(k, t));
    assert TableOk(mem', Levels(k, t), g);
  }

  lemma {:induction false} CloneReach(mem: Mem, k: Kernel, g: nat, mem': Mem, v: nat, l: nat)
    requires KernelInv(mem, k) && g !in mem && mem' == mem[g := mem[k.root]] && 1 <= l <= 3
    ensures Reach(mem', g, v, l) == Reach(mem', k.root, v, l)
    decreases 4 - l
  {
    if l < 3 {
      CloneReach(mem, k, g, mem', v, l + 1);
    } else {
      assert TableOk(mem, k.level, k.root);
      assert Reach(mem', g, v, 4) == Some(g) && Reach(mem', k.root, v, 4) == Some(k.root);
    }
  }

  lemma CloneShared(mem: Mem, k: Kernel, g: nat, mem': Mem)
    requires KernelInv(mem, k) && g !in mem && mem' == mem[g := mem[k.root]] && g !in k.level
    ensures SharedInv(mem', k, Fresh(g))
  {
    hide KernelInv;
    forall v: nat, l | 1 <= l <= 4
      ensures SharedAt(mem', k, Fresh(g), v, l)
    {
      if l < 4 {
        CloneReach(mem, k, g, mem', v, l);
      }
    }
  }

  lemma CloneWrites(mem: Mem, k: Kernel, g: nat, mem': Mem, v: nat)
    requires KernelInv(mem, k) && g !in mem && mem' == mem[g := mem[k.root]] && g !in k.level
    ensures PathWrites(mem', k.root, v) ==> PathWrites(mem', g, v)
  {
    assert TableOk(mem, k.level, k.root);
    hide KernelInv, Index;
    forall l | 2 <= l <= 4 && PathWrites(mem', k.root, v)
      ensures WritesAt(mem', g, v, l)
    {
      assert WritesAt(mem', k.root, v, l);
      if l < 4 {
        CloneReach(mem, k, g, mem', v, l);
      }
    }
  }

  lemma CloneWriteInv(mem: Mem, k: Kernel, g: nat, mem': Mem)
    requires KernelInv(mem, k) && g !in mem && mem' == mem[g := mem[k.root]] && g !in k.level
    ensures WriteInv(mem', k, Fresh(g))
  {
    hide KernelInv, PathWrites;
    forall v | 0 <= v < PAGE_COUNT && PathWrites(mem', k.root, v)
      ensures PathWrites(mem', g, v)
    {
      CloneWrites(mem, k, g, mem', v);
    }
  }

  /** A fresh user table translates every page as the kernel does, and lets user code see none. */
  lemma CloneKeepsInv(mem: Mem, k: Kernel, g: nat, mem': Mem)
    requires KernelInv(mem, k) && g !in mem && mem' == mem[g := mem[k.root]]
    ensures Inv(mem', k, Fresh(g))
  {
    hide KernelInv, TreeInv, SharedInv, WriteInv, Leaf, Reach;
    CloneTree(mem, k, g, mem');
    CloneShared(mem, k, g, mem');
    CloneWriteInv(mem, k, g, mem');
    forall v | 0 <= v < PAGE_COUNT
      ensures PageInv(mem', k, Fresh(g), v)
    {
      CloneLeaf(mem, k, g, mem', v);
    }
  }

  class UserPageTable {
    const memory: Memory
    ghost const kernel: Kernel
    var root: nat
    var owned: seq<nat>
    ghost var level: map<nat, nat>
    ghost var up: map<nat, (nat, nat)>
    ghost var over: map<nat, Option<Mapping>>

    ghost function Abs(): User
      reads this
    {
      User(root, owned, level, up, over)
    }

    ghost predicate Valid()
      reads this, memory
    {
      memory.Valid() && Inv(memory.mem, kernel, Abs())
    }

    constructor Adopting(memory: Memory, ghost kernel: Kernel, root: nat)
      requires memory.Valid() && Inv(memory.mem, kernel, Fresh(root))
      ensures Valid() && this.memory == memory && this.kernel == kernel && Abs() == Fresh(root)
    {
      this.memory, this.kernel, this.root, this.owned := memory, kernel, root, [];
      this.level, this.up, this.over := map[root := 4], map[], map[];
    }

    static method NewClonedFromKernel(memory: Memory, kernelRoot: nat, ghost kernel: Kernel) returns (r: Option<UserPageTable>)
      requires memory.Valid() && KernelInv(memory.mem, kernel) && kernel.root == kernelRoot
      modifies memory
      ensures memory.Valid() && Untouched(old(memory.mem), memory.mem, {})
      ensures r.None? ==> memory.mem == old(memory.mem)
      ensures |memory.free| <= |old(memory.free)| && (r.None? ==> memory.free == [])
      ensures r.Some? ==> fresh(r.value) && r.value.Valid() && r.value.memory == memory && r.value.kernel == kernel
                          && r.value.Abs() == Fresh(r.value.root) && r.value.root !in old(memory.mem)
    {
      KernelTables(memory.mem, kernel);
      hide MemoryOk, KernelInv, Inv;
      var f := memory.AllocTable(memory.mem[kernelRoot]);
      if f.None? {
        return None;
      }
      CloneKeepsInv(old(memory.mem), kernel, f.value, memory.mem);
      var t := new UserPageTable.Adopting(memory, kernel, f.value);
      r := Some(t);
    }

    /** Raises the flags of an entry that already leads to an owned table. */
    method RaiseEntry(f: nat, i: nat, flags: Flags)
      requires Valid() && f in level && level[f] >= 2 && i < TABLE_LEN && IsTable(memory.mem, f)
      modifies memory`mem
      ensures Valid() && Kept(kernel, old(memory.mem), Abs(), memory.mem, Abs())
      ensures Untouched(old(memory.mem), memory.mem, {f})
      ensures IsTable(memory.mem, f) && memory.mem[f][i].us && memory.mem[f][i].rw == (old(memory.mem)[f][i].rw || flags.rw)
      ensures memory.mem[f][i].(rw := false, us := false) == old(memory.mem)[f][i].(rw := false, us := false)
    {
      hide Inv, Kept, MemoryOk;
      var e := Raise(memory.mem[f][i], flags);
      MemoryOkWrite(memory.mem, memory.free, f, memory.mem[f][i := e]);
      RaiseStep(memory.mem, kernel, Abs(), f, i, e);
      memory.mem := memory.mem[f := memory.mem[f][i := e]];
    }

    /** Puts a fresh table below an entry: an empty one, or a copy of the table it shared with the kernel. */
    method AdoptTable(f: nat, i: nat, flags: Flags) returns (ok: bool)
      requires Valid() && f in level && level[f] >= 2 && i < TABLE_LEN && IsTable(memory.mem, f)
      requires !memory.mem[f][i].ps
      requires memory.mem[f][i].p ==> memory.mem[f][i].addr in kernel.level && memory.mem[f][i].addr in memory.mem
      modifies this, memory
      ensures Valid() && Kept(kernel, old(memory.mem), old(Abs()), memory.mem, Abs())
      ensures Untouched(old(memory.mem), memory.mem, {f})
      ensures !ok ==> memory.mem == old(memory.mem) && Abs() == old(Abs())
      ensures |memory.free| <= |old(memory.free)| && (!ok ==> memory.free == [])
      ensures ok ==> IsTable(memory.mem, f) && Follows(memory.mem[f][i]) && memory.mem[f][i].addr in owned
      ensures ok ==> LinkFlags(old(memory.mem)[f][i], memory.mem[f][i], flags)
    {
      ghost var mem0, t0 := memory.mem, Abs();
      hide Inv, Kept;
      var e := memory.mem[f][i];
      var content := if e.p then memory.mem[e.addr] else seq(TABLE_LEN, _ => ZERO);
      assert |content| == TABLE_LEN;
      hide MemoryOk;
      KeptNow(mem0, kernel, t0);
      var g := memory.AllocTable(content);
      if g.None? {
        return false;
      }
      LinkTable(f, i, g.value, e, flags, mem0, content);
      return true;
    }

    /** Points entry `i` of `f` at the fresh table `g` and records `g` as owned. */
    method LinkTable(f: nat, i: nat, g: nat, e: Entry, flags: Flags, ghost mem0: Mem, ghost content: seq<Entry>)
      requires memory.Valid() && Inv(mem0, kernel, Abs()) && memory.mem == mem0[g := content] && g !in mem0 && FrameAddr(g)
      requires f in level && level[f] >= 2 && i < TABLE_LEN && IsTable(mem0, f) && e == mem0[f][i] && !e.ps
      requires |content| == TABLE_LEN
      requires if e.p then e.addr in kernel.level && IsTable(mem0, e.addr) && content == mem0[e.addr]
               else forall j :: 0 <= j < TABLE_LEN ==> content[j] == ZERO
      modifies this, memory`mem
      ensures Valid() && Kept(kernel, mem0, old(Abs()), memory.mem, Abs()) && Untouched(mem0, memory.mem, {f})
      ensures IsTable(memory.mem, f) && Follows(memory.mem[f][i]) && memory.mem[f][i].addr in owned
      ensures LinkFlags(e, memory.mem[f][i], flags)
    {
      hide Inv, Kept, MemoryOk;
      MaskKeepsFrames(g);
      hide MaskAddr, FrameAddr;
      var e' := if e.p then Raise(e.(addr := MaskAddr(g)), flags) else SetEntry(e, g, true, flags);
      AdoptStepUser(mem0, kernel, Abs(), f, i, g, content, e');
      assert memory.mem[f] == mem0[f];
      MemoryOkWrite(memory.mem, memory.free, f, memory.mem[f][i := e']);
      memory.mem := memory.mem[f := memory.mem[f][i := e']];
      owned, level, up := owned + [g], level[g := level[f] - 1], up[g := (f, i)];
    }

    /** Makes entry `i` of own table `f` lead to an owned table with the user bit set. */
    method EnsureTaskTable(f: nat, i: nat, flags: Flags) returns (ok: bool)
      requires Valid() && f in level && level[f] >= 2 && i < TABLE_LEN && IsTable(memory.mem, f)
      modifies this, memory
      ensures Valid() && Kept(kernel, old(memory.mem), old(Abs()), memory.mem, Abs())
      ensures Untouched(old(memory.mem), memory.mem, {f})
      ensures !ok ==> memory.mem == old(memory.mem) && Abs() == old(Abs())
      ensures |memory.free| <= |old(memory.free)| && (!ok ==> memory.free == [])
      ensures ok ==> IsTable(memory.mem, f) && Follows(memory.mem[f][i]) && memory.mem[f][i].addr in owned
      ensures ok ==> LinkFlags(old(memory.mem)[f][i], memory.mem[f][i], flags)
    {
      EntryCases(memory.mem, kernel, Abs(), f, i);
      hide Inv, Leaf, Kept;
      var e := memory.mem[f][i];
      if e.p && e.addr in owned {
        RaiseEntry(f, i, flags);
        ok := true;
      } else {
        ok := AdoptTable(f, i, flags);
      }
    }

    /** Goes down one level, first making sure the table below is the user's own. */
    method Descend(v: nat, f: nat, flags: Flags, l: nat) returns (g: Option<nat>)
      requires Valid() && 2 <= l <= 4 && f in level && level[f] == l && Reach(memory.mem, root, v, l) == Some(f)
      requires flags.rw ==> WritesAbove(memory.mem, root, v, l)
      modifies this, memory
      ensures Valid() && Kept(kernel, old(memory.mem), old(Abs()), memory.mem, Abs()) && over == old(over)
      ensures |memory.free| <= |old(memory.free)| && (g.None? ==> memory.free == [])
      ensures g.Some? ==> g.value in owned && g.value in level && level[g.value] == l - 1
                          && Reach(memory.mem, root, v, l - 1) == g && (flags.rw ==> WritesAbove(memory.mem, root, v, l - 1))
    {
      hide Inv, Kept, MemoryOk, Leaf, Index, WritesAbove;
      ghost var mem0, t0 := memory.mem, Abs();
      OwnTable(mem0, kernel, t0, f);
      var ok := EnsureTaskTable(f, Index(v, l), flags);
      if !ok {
        return None;
      }
      g := Some(memory.mem[f][Index(v, l)].addr);
      KeptFields(kernel, mem0, t0, memory.mem, Abs());
      DescendReach(mem0, kernel, t0, memory.mem, Abs(), v, f, l);
      if flags.rw { DescendWrites(mem0, kernel, t0, memory.mem, v, f, l); }
    }

    /** Maps one page; on failure no translation has changed. */
    method MapPage(v: nat, phys: nat, flags: Flags) returns (ok: bool)
      requires Valid() && v < PAGE_COUNT
      modifies this, memory
      ensures Valid()
      ensures !ok ==> Kept(kernel, old(memory.mem), old(Abs()), memory.mem, Abs())
      ensures |memory.free| <= |old(memory.free)| && (!ok ==> memory.free == [])
      ensures ok ==> Changed(kernel, old(memory.mem), old(Abs()), memory.mem, Abs(), v, v + 1)
      ensures ok ==> over == old(over)[v := Some(Mapping(MaskAddr(phys), flags))] && MappedTo(memory.mem, root, v, MaskAddr(phys), flags)
      ensures ok ==> (UserWrite(memory.mem, root, v) <==> flags.rw)
    {
      hide Inv, Kept, MemoryOk, Leaf, Index, MaskAddr, Changed, WritesAbove, UserWrite;
      NothingAbove(memory.mem, root, v);
      ghost var mem0, t0 := memory.mem, Abs();
      RootTable(mem0, kernel, t0);
      var f3 := Descend(v, root, flags, 4);
      if f3.None? {
        return false;
      }
      ghost var mem1, t1 := memory.mem, Abs();
      var f2 := Descend(v, f3.value, flags, 3);
      KeptTwiceInv(kernel, mem0, t0, mem1, t1, memory.mem, Abs());
      if f2.None? {
        return false;
      }
      ghost var mem2, t2 := memory.mem, Abs();
      var f1 := Descend(v, f2.value, flags, 2);
      KeptTwiceInv(kernel, mem0, t0, mem2, t2, memory.mem, Abs());
      if f1.None? {
        return false;
      }
      WriteLeaf(v, f1.value, phys, flags, mem0, t0);
      UserWriteIsMapped(memory.mem, kernel, Abs(), v);
      ok := true;
    }

    method WriteLeaf(v: nat, f: nat, phys: nat, flags: Flags, ghost mem0: Mem, ghost t0: User)
      requires Valid() && v < PAGE_COUNT && f in owned && Reach(memory.mem, root, v, 1) == Some(f)
      requires Inv(mem0, kernel, t0) && Kept(kernel, mem0, t0, memory.mem, Abs()) && (flags.rw ==> WritesAbove(memory.mem, root, v, 1))
      modifies this`over, memory`mem
      ensures Valid() && Changed(kernel, mem0, t0, memory.mem, Abs(), v, v + 1)
      ensures over == old(over)[v := Some(Mapping(MaskAddr(phys), flags))] && MappedTo(memory.mem, root, v, MaskAddr(phys), flags)
    {
      hide Inv, Kept, MemoryOk, Index, Changed, Reach, Leaf;
      LeafTable(memory.mem, kernel, Abs(), v, f);
      if flags.rw { WholePath(memory.mem, root, v); }
      hide MaskAddr, WritesAbove, PathWrites;
      var e := SetEntry(memory.mem[f][Index(v, 1)], phys, true, flags);
      MemoryOkWrite(memory.mem, memory.free, f, memory.mem[f][Index(v, 1) := e]);
      LeafStep(mem0, t0, memory.mem, kernel, Abs(), v, f, e);
      memory.mem := memory.mem[f := memory.mem[f][Index(v, 1) := e]];
      over := over[v := Some(Mapping(MaskAddr(phys), flags))];
    }

    /**
     * Maps the pages of a range to consecutive frames. `done` pages are mapped,
     * all of them on success; the translation is updated on exactly those.
     */
    method Map(start: nat, end: nat, phys: nat, flags: Flags) returns (ok: bool, ghost done: nat)
      requires Valid() && end <= PAGE_COUNT * PAGE_SIZE
      modifies this, memory
      ensures Valid()
      ensures done <= PageSteps(start, end) && (ok <==> done == PageSteps(start, end))
      ensures |memory.free| <= |old(memory.free)| && (!ok ==> memory.free == [])
      ensures over == MapOver(old(over), start / PAGE_SIZE, done, phys, flags)
      ensures Changed(kernel, old(memory.mem), old(Abs()), memory.mem, Abs(), start / PAGE_SIZE, start / PAGE_SIZE + done)
      ensures forall j :: 0 <= j < done ==> MappedTo(memory.mem, root, start / PAGE_SIZE + j, PhysAt(phys, j), flags)
      ensures forall w :: start / PAGE_SIZE <= w < start / PAGE_SIZE + done ==> (UserWrite(memory.mem, root, w) <==> flags.rw)
    {
      hide Inv, Kept, MemoryOk, Changed, MappedTo, MaskAddr, PageSteps, UserWrite;
      ghost var mem0, t0, v0 := memory.mem, Abs(), start / PAGE_SIZE;
      ChangedStart(kernel, mem0, t0, v0);
      done := 0;
      var i := start;
      while i < end
        invariant start + done * PAGE_SIZE == i && done <= PageSteps(start, end) && Valid()
        invariant over == MapOver(old(over), v0, done, phys, flags)
        invariant |memory.free| <= |old(memory.free)|
        invariant Changed(kernel, mem0, t0, memory.mem, Abs(), v0, v0 + done) && (done == 0 || v0 + done <= PAGE_COUNT)
        invariant forall j :: 0 <= j < done ==> MappedTo(memory.mem, root, v0 + j, PhysAt(phys, j), flags)
        decreases end - i
      {
        PageOfRange(start, end, i, done);
        ghost var mem1, t1 := memory.mem, Abs();
        ok := MapPage(i / PAGE_SIZE, phys + (i - start), flags);
        if !ok {
          MappedAfterKept(kernel, mem0, t0, mem1, t1, memory.mem, Abs(), v0, done, phys, flags);
          MappedWrites(memory.mem, kernel, Abs(), t0.over, v0, done, phys, flags);
          return;
        }
        MappedAfterPage(kernel, mem0, t0, mem1, t1, memory.mem, Abs(), v0, done, phys, flags);
        i, done := i + PAGE_SIZE, done + 1;
      }
      EndOfRange(start, end, i, done);
      MappedWrites(memory.mem, kernel, Abs(), t0.over, v0, done, phys, flags);
      ok := true;
    }

    /** Unmaps the pages of a range whose last-level tables are absent or the table's own. */
    method Unmap(start: nat, end: nat)
      requires Valid() && end <= PAGE_COUNT * PAGE_SIZE
      requires forall w :: start / PAGE_SIZE <= w < start / PAGE_SIZE + PageSteps(start, end) ==> LastIsOwn(memory.mem, Abs(), w)
      modifies this`over, memory`mem
      ensures Valid()
      ensures var n := PageSteps(start, end);
              && UnmapsTo(old(memory.mem), old(Abs()), start / PAGE_SIZE, n, over)
              && Changed(kernel, old(memory.mem), old(Abs()), memory.mem, Abs(), start / PAGE_SIZE, start / PAGE_SIZE + n)
    {
      hide Inv, MemoryOk, Changed, LastIsOwn, PageSteps, UnmapsTo;
      ghost var mem0, t0, v0 := memory.mem, Abs(), start / PAGE_SIZE;
      ChangedStart(kernel, mem0, t0, v0);
      UnmapsStart(mem0, t0, v0);
      ghost var done: nat := 0;
      var i := start;
      while i < end
        invariant start + done * PAGE_SIZE == i && done <= PageSteps(start, end) && Valid()
        invariant UnmapsTo(mem0, t0, v0, done, over) && SameWalks(mem0, memory.mem, root)
        invariant Changed(kernel, mem0, t0, memory.mem, Abs(), v0, v0 + done)
        decreases end - i
      {
        PageOfRange(start, end, i, done);
        ghost var mem1, t1 := memory.mem, Abs();
        LastStaysOwn(mem0, t0, mem1, t1, i / PAGE_SIZE);
        UnmapPage(i / PAGE_SIZE);
        UnmapsMore(mem0, t0, mem1, v0, done, t1.over, over);
        ChangedTwice(kernel, mem0, t0, mem1, t1, memory.mem, Abs(), v0, v0 + done, v0 + done + 1);
        i, done := i + PAGE_SIZE, done + 1;
      }
      EndOfRange(start, end, i, done);
    }

    /**
     * Clears the last-level entry of a page, when the walk gets that far,
     * whoever the last-level table belongs to. When it is the kernel's, the
     * kernel loses the page with it.
     */
    method UnmapPage(v: nat)
      requires Valid() && v < PAGE_COUNT
      modifies this`over, memory`mem
      ensures LastIsOwn(old(memory.mem), old(Abs()), v) ==>
                && Valid() && over == (if HasLast(old(memory.mem), old(Abs()), v) then old(over)[v := None] else old(over))
                && Changed(kernel, old(memory.mem), old(Abs()), memory.mem, Abs(), v, v + 1)
                && SameWalks(old(memory.mem), memory.mem, root)
      ensures !LastIsOwn(old(memory.mem), old(Abs()), v) ==>
                && Abs() == old(Abs()) && memory.Valid() && KernelInv(memory.mem, kernel)
                && Untouched(old(memory.mem), memory.mem, kernel.level.Keys)
                && Leaf(memory.mem, root, v).None? && Leaf(memory.mem, kernel.root, v).None?
      ensures SameLeaves(old(memory.mem), memory.mem, kernel.root) <==>
              LastIsOwn(old(memory.mem), old(Abs()), v) || Leaf(old(memory.mem), kernel.root, v).None?
    {
      hide Inv, MemoryOk, Index, Changed, Leaf, Reach, KernelInv, Untouched, SameLeaves;
      ghost var mem0, t0 := memory.mem, Abs();
      UnmapNothing(mem0, kernel, t0, v);
      RootTable(mem0, kernel, t0);
      WalkLevel(mem0, kernel, t0, v, 4, root);
      var f3 := memory.mem[root][Index(v, 4)];
      if !f3.p {
        NoLast(mem0, root, v, 3);
        return;
      }
      WalkLevel(mem0, kernel, t0, v, 3, f3.addr);
      var f2 := memory.mem[f3.addr][Index(v, 3)];
      if !f2.p {
        NoLast(mem0, root, v, 2);
        return;
      }
      WalkLevel(mem0, kernel, t0, v, 2, f2.addr);
      var f1 := memory.mem[f2.addr][Index(v, 2)];
      if !f1.p {
        return;
      }
      LastTable(mem0, kernel, t0, v, f1.addr);
      MemoryOkWrite(memory.mem, memory.free, f1.addr, memory.mem[f1.addr][Index(v, 1) := ZERO]);
      memory.mem := memory.mem[f1.addr := memory.mem[f1.addr][Index(v, 1) := ZERO]];
      if f1.addr in owned {
        ClearStep(mem0, kernel, t0, v, f1.addr);
        over := over[v := None];
      } else {
        SharedClear(mem0, kernel, t0, v, f1.addr);
      }
    }
  }

  // ----- unmapping

  /** The walk of the page comes to a last-level table. */
  ghost predicate HasLast(mem: Mem, t: User, v: nat) { Reach(mem, t.root, v, 1).Some? }

  /** That table, if any, is one the user table allocated. */
  ghost predicate LastIsOwn(mem: Mem, t: User, v: nat) { HasLast(mem, t, v) ==> Reach(mem, t.root, v, 1).value in t.owned }

  ghost predicate SameWalks(mem: Mem, mem': Mem, root: nat) {
    forall w: nat :: Reach(mem', root, w, 1) == Reach(mem, root, w, 1)
  }

  /** The pages taken over after unmapping `n` pages from `v`: those with a last-level table translate to nothing. */
  ghost predicate UnmapsTo(mem: Mem, t: User, v: nat, n: nat, over: map<nat, Option<Mapping>>) {
    forall w: nat ::
      && (w in over <==> w in t.over || (v <= w < v + n && HasLast(mem, t, w)))
      && (w in over ==> over[w] == if v <= w < v + n && HasLast(mem, t, w) then None else t.over[w])
  }

  lemma UnmapsStart(mem: Mem, t: User, v: nat)
    ensures UnmapsTo(mem, t, v, 0, t.over)
  {
    hide HasLast;
  }

  lemma UnmapsMore(mem0: Mem, t0: User, mem: Mem, v: nat, n: nat, over: map<nat, Option<Mapping>>, over': map<nat, Option<Mapping>>)
    requires UnmapsTo(mem0, t0, v, n, over) && SameWalks(mem0, mem, t0.root)
    requires over' == if Reach(mem, t0.root, v + n, 1).Some? then over[v + n := None] else over
    ensures UnmapsTo(mem0, t0, v, n + 1, over')
  {
    hide Reach;
  }

  lemma LastStaysOwn(mem0: Mem, t0: User, mem: Mem, t: User, v: nat)
    requires LastIsOwn(mem0, t0, v) && SameWalks(mem0, mem, t.root) && t.root == t0.root && t.owned == t0.owned
    ensures LastIsOwn(mem, t, v)
  {
    hide Reach;
  }

  /** Pages the table took over earlier have last-level tables of its own, so unmapping clears them all. */
  lemma TakenOverIsOwn(mem: Mem, k: Kernel, t: User, v: nat)
    requires Inv(mem, k, t) && v < PAGE_COUNT && v in t.over
    ensures HasLast(mem, t, v) && LastIsOwn(mem, t, v)
  {
    PageFacts(mem, k, t, v);
    hide Inv, Leaf, Reach;
  }

  lemma UnmapNothing(mem: Mem, k: Kernel, t: User, v: nat)
    ensures Changed(k, mem, t, mem, t, v, v + 1) && SameWalks(mem, mem, t.root) && SameLeaves(mem, mem, k.root)
  {
  }

  /** One level of a user's walk: it goes on exactly when the entry is present. */
  lemma WalkLevel(mem: Mem, k: Kernel, t: User, v: nat, l: nat, f: nat)
    requires Inv(mem, k, t) && 2 <= l <= 4 && Reach(mem, t.root, v, l) == Some(f)
    ensures IsTable(mem, f)
    ensures Reach(mem, t.root, v, l - 1) == if mem[f][Index(v, l)].p then Some(mem[f][Index(v, l)].addr) else None
  {
    hide Index, SharedInv, WriteInv, PagesInv;
    UserReach(mem, k, t, v, l);
    if f in t.level {
      assert TableOk(mem, Levels(k, t), f);
      assert ChildOk(mem[f][Index(v, l)], Levels(k, t), l - 1);
    } else {
      assert TableOk(mem, k.level, f);
      assert ChildOk(mem[f][Index(v, l)], k.level, l - 1);
    }
  }

  lemma NoLast(mem: Mem, root: nat, v: nat, l: nat)
    requires 1 <= l <= 3 && Reach(mem, root, v, l).None?
    ensures Reach(mem, root, v, 1).None?
  {
    ReachUnrolled(mem, root, v);
    hide Index;
  }

  /** A last-level table is the user's own or one of the kernel's, which the kernel's walk comes to as well. */
  lemma LastTable(mem: Mem, k: Kernel, t: User, v: nat, f: nat)
    requires Inv(mem, k, t) && Reach(mem, t.root, v, 1) == Some(f)
    ensures IsTable(mem, f)
    ensures f !in t.owned ==> f in k.level && k.level[f] == 1 && Reach(mem, k.root, v, 1) == Some(f)
  {
    hide Index, SharedInv, WriteInv, PagesInv, Reach;
    UserReach(mem, k, t, v, 1);
    if f in t.level {
      ReachedIsOwned(mem, k, t, v, 1);
    } else {
      SharedHere(mem, k, t, v, 1);
    }
  }

  lemma SharedHere(mem: Mem, k: Kernel, t: User, v: nat, l: nat)
    requires SharedInv(mem, k, t) && 1 <= l <= 4
    ensures SharedAt(mem, k, t, v, l)
  {
  }

  /** A write to a last-level kernel table leaves every walk of the user as it was. */
  lemma {:induction false} SharedWriteReach(mem: Mem, k: Kernel, t: User, f: nat, i: nat, e: Entry, mem': Mem, v: nat, l: nat)
    requires KernelInv(mem, k) && TreeInv(mem, k, t) && Writes(mem, f, i, e, mem') && f in k.level && k.level[f] == 1 && f !in t.level
    requires 1 <= l <= 4
    ensures Reach(mem', t.root, v, l) == Reach(mem, t.root, v, l)
    decreases 4 - l
  {
    hide KernelInv, TreeInv, Index;
    if l < 4 {
      SharedWriteReach(mem, k, t, f, i, e, mem', v, l + 1);
      if Reach(mem, t.root, v, l + 1).Some? {
        UserReach(mem, k, t, v, l + 1);
      }
    }
  }

  /** Clearing an entry of a last-level kernel table: the kernel loses the page, if it had it, and no other. */
  lemma KernelClear(mem: Mem, k: Kernel, v: nat, f: nat, mem': Mem)
    requires KernelInv(mem, k) && f in k.level && k.level[f] == 1 && Reach(mem, k.root, v, 1) == Some(f)
    requires Writes(mem, f, Index(v, 1), ZERO, mem')
    ensures KernelInv(mem', k) && Leaf(mem', k.root, v).None?
    ensures SameLeaves(mem, mem', k.root) <==> Leaf(mem, k.root, v).None?
  {
    hide KernelInv, Index, Reach;
    KernelWriteKeeps(mem, k, f, Index(v, 1), ZERO, mem');
    forall w: nat
      ensures Reach(mem', k.root, w, 1) == Reach(mem, k.root, w, 1)
    {
      KernelWriteReach(mem, k, f, Index(v, 1), ZERO, mem', w, 1);
    }
    if SameLeaves(mem, mem', k.root) {
      assert Leaf(mem', k.root, v) == Leaf(mem, k.root, v);
    }
  }

  lemma SharedClear(mem: Mem, k: Kernel, t: User, v: nat, f: nat)
    requires Inv(mem, k, t) && Reach(mem, t.root, v, 1) == Some(f) && f !in t.owned
    requires IsTable(mem, f) && f in k.level && k.level[f] == 1 && Reach(mem, k.root, v, 1) == Some(f)
    ensures var mem' := mem[f := mem[f][Index(v, 1) := ZERO]];
            && KernelInv(mem', k) && Untouched(mem, mem', k.level.Keys)
            && Leaf(mem', t.root, v).None? && Leaf(mem', k.root, v).None?
            && (SameLeaves(mem, mem', k.root) <==> Leaf(mem, k.root, v).None?)
  {
    hide KernelInv, TreeInv, SharedInv, WriteInv, PagesInv, Index, Reach, SameLeaves;
    var mem' := mem[f := mem[f][Index(v, 1) := ZERO]];
    KernelClear(mem, k, v, f, mem');
    UserTablesInMem(mem, k, t);
    SharedWriteReach(mem, k, t, f, Index(v, 1), ZERO, mem', v, 1);
  }

  lemma ClearStep(mem: Mem, k: Kernel, t: User, v: nat, f: nat)
    requires Inv(mem, k, t) && v < PAGE_COUNT && f in t.owned && Reach(mem, t.root, v, 1) == Some(f)
    ensures IsTable(mem, f)
    ensures var mem' := mem[f := mem[f][Index(v, 1) := ZERO]];
            && Inv(mem', k, t.(over := t.over[v := None]))
            && Changed(k, mem, t, mem', t.(over := t.over[v := None]), v, v + 1)
            && SameWalks(mem, mem', t.root) && SameLeaves(mem, mem', k.root)
  {
    hide Inv, Leaf, Index, Reach;
    LeafTable(mem, k, t, v, f);
    KeptNow(mem, k, t);
    LeafStep(mem, t, mem, k, t, v, f, ZERO);
    ClearWalks(mem, k, t, v, f);
  }

  lemma ClearWalks(mem: Mem, k: Kernel, t: User, v: nat, f: nat)
    requires Inv(mem, k, t) && f in t.level && t.level[f] == 1 && IsTable(mem, f)
    ensures SameWalks(mem, mem[f := mem[f][Index(v, 1) := ZERO]], t.root)
  {
    hide KernelInv, TreeInv, SharedInv, WriteInv, PagesInv, Index, Reach;
    var mem' := mem[f := mem[f][Index(v, 1) := ZERO]];
    forall w: nat
      ensures Reach(mem', t.root, w, 1) == Reach(mem, t.root, w, 1)
    {
      WriteReach(mem, k, t, f, Index(v, 1), ZERO, mem', w, 1);
    }
  }

  lemma ChangedStart(k: Kernel, mem: Mem, t: User, v: nat)
    ensures Changed(k, mem, t, mem, t, v, v)
  {
  }

  lemma MappedAfterKept(k: Kernel, mem0: Mem, t0: User, mem: Mem, t: User, mem': Mem, t': User,
                        v: nat, n: nat, phys: nat, flags: Flags)
    requires Inv(mem0, k, t0) && Changed(k, mem0, t0, mem, t, v, v + n) && Kept(k, mem, t, mem', t')
    requires forall j :: 0 <= j < n ==> MappedTo(mem, t.root, v + j, PhysAt(phys, j), flags)
    ensures Changed(k, mem0, t0, mem', t', v, v + n) && t'.over == t.over && t'.root == t.root
    ensures forall j :: 0 <= j < n ==> MappedTo(mem', t'.root, v + j, PhysAt(phys, j), flags)
  {
    hide Inv, Leaf, Changed;
    ChangedThenKept(k, mem0, t0, mem, t, mem', t', v, v + n);
  }

  lemma MappedAfterPage(k: Kernel, mem0: Mem, t0: User, mem: Mem, t: User, mem': Mem, t': User,
                        v: nat, n: nat, phys: nat, flags: Flags)
    requires Inv(mem0, k, t0) && v + n < PAGE_COUNT
    requires Changed(k, mem0, t0, mem, t, v, v + n) && Changed(k, mem, t, mem', t', v + n, v + n + 1)
    requires forall j :: 0 <= j < n ==> MappedTo(mem, t.root, v + j, PhysAt(phys, j), flags)
    requires MappedTo(mem', t'.root, v + n, PhysAt(phys, n), flags)
    ensures Changed(k, mem0, t0, mem', t', v, v + n + 1)
    ensures forall j :: 0 <= j < n + 1 ==> MappedTo(mem', t'.root, v + j, PhysAt(phys, j), flags)
  {
    hide Inv, Leaf;
    forall j | 0 <= j < n
      ensures MappedTo(mem', t'.root, v + j, PhysAt(phys, j), flags)
    {
      assert MappedTo(mem, t.root, v + j, PhysAt(phys, j), flags);
      assert Leaf(mem', t.root, v + j) == Leaf(mem, t.root, v + j);
    }
    ChangedTwice(k, mem0, t0, mem, t, mem', t', v, v + n, v + n + 1);
  }

  /** Translations outside the given pages, and all the kernel's, are as before; only own and fresh frames differ. */
  ghost predicate Changed(k: Kernel, mem: Mem, t: User, mem': Mem, t': User, lo: nat, hi: nat) {
    && t'.root == t.root
    && Untouched(mem, mem', t.level.Keys)
    && Extends(t.level, t'.level)
    && (forall h :: h in t'.level && h !in t.level ==> h !in mem)
    && SameLeaves(mem, mem', k.root)
    && forall w :: 0 <= w < PAGE_COUNT && !(lo <= w < hi) ==> Leaf(mem', t.root, w) == Leaf(mem, t.root, w)
  }

  /**
   * How an entry that now leads to an own table came by its flags: the user bit
   * is set and the write bit raised, and a fresh entry takes all flags as given.
   */
  predicate LinkFlags(e: Entry, e': Entry, flags: Flags) {
    && e'.us && e'.rw == ((e.p && e.rw) || flags.rw)
    && (if e.p then e'.pwt == e.pwt && e'.pcd == e.pcd else e'.pwt == flags.pwt && e'.pcd == flags.pcd)
  }

  // ----- the way down is writable

  /** The write bit is set at every level above `l`. */
  ghost predicate WritesAbove(mem: Mem, root: nat, v: nat, l: nat)
    requires 1 <= l <= 4
  {
    forall m :: l < m <= 4 ==> WritesAt(mem, root, v, m)
  }

  lemma NothingAbove(mem: Mem, root: nat, v: nat)
    ensures WritesAbove(mem, root, v, 4)
  {
  }

  lemma WholePath(mem: Mem, root: nat, v: nat)
    requires WritesAbove(mem, root, v, 1)
    ensures PathWrites(mem, root, v)
  {
    hide WritesAt;
  }

  lemma OwnTable(mem: Mem, k: Kernel, t: User, f: nat)
    requires Inv(mem, k, t) && f in t.level
    ensures IsTable(mem, f)
  {
    hide KernelInv, SharedInv, WriteInv, PagesInv;
    LevelBounds(mem, k, t, f);
  }

  lemma DescendWrites(mem: Mem, k: Kernel, t: User, mem': Mem, v: nat, f: nat, l: nat)
    requires Inv(mem, k, t) && 2 <= l <= 4 && Reach(mem, t.root, v, l) == Some(f) && f in t.level && t.level[f] == l
    requires Untouched(mem, mem', {f}) && IsTable(mem', f) && Follows(mem'[f][Index(v, l)]) && mem'[f][Index(v, l)].rw
    requires WritesAbove(mem, t.root, v, l)
    ensures WritesAbove(mem', t.root, v, l - 1)
  {
    hide Inv, Index, Reach;
    forall m | l - 1 < m <= 4
      ensures WritesAt(mem', t.root, v, m)
    {
      AboveKept(mem, k, t, mem', v, f, l, m);
      if m > l {
        assert WritesAt(mem, t.root, v, m);
        ReachLevel(mem, k, t, v, m, f);
      }
    }
  }

  lemma MappedWrites(mem: Mem, k: Kernel, t: User, over: map<nat, Option<Mapping>>, v: nat, n: nat, phys: nat, flags: Flags)
    requires Inv(mem, k, t) && t.over == MapOver(over, v, n, phys, flags) && (n == 0 || v + n <= PAGE_COUNT)
    ensures forall w :: v <= w < v + n ==> (UserWrite(mem, t.root, w) <==> flags.rw)
  {
    hide Inv, UserWrite, MapOver, PhysAt;
    forall w | v <= w < v + n
      ensures UserWrite(mem, t.root, w) <==> flags.rw
    {
      MapOverAt(over, v, n, phys, flags, w);
      UserWriteIsMapped(mem, k, t, w);
    }
  }

  /** Page `v` walks to frame `phys` with the given flags, for user code. */
  ghost predicate MappedTo(mem: Mem, root: nat, v: nat, phys: nat, flags: Flags) {
    var e := Leaf(mem, root, v);
    e.Some? && e.value.addr == phys && e.value.us && e.value.rw == flags.rw && e.value.pwt == flags.pwt && e.value.pcd == flags.pcd
  }

  lemma KeptFields(k: Kernel, mem: Mem, t: User, mem': Mem, t': User)
    requires Kept(k, mem, t, mem', t')
    ensures t'.root == t.root && t'.over == t.over
  {
  }

  lemma ChangedThenKept(k: Kernel, mem: Mem, t: User, mem': Mem, t': User, mem'': Mem, t'': User, lo: nat, hi: nat)
    requires lo <= hi && Inv(mem, k, t) && Changed(k, mem, t, mem', t', lo, hi) && Kept(k, mem', t', mem'', t'')
    ensures Changed(k, mem, t, mem'', t'', lo, hi)
  {
  }

  lemma ChangedTwice(k: Kernel, mem: Mem, t: User, mem': Mem, t': User, mem'': Mem, t'': User, lo: nat, mid: nat, hi: nat)
    requires Inv(mem, k, t) && lo <= mid <= hi
    requires Changed(k, mem, t, mem', t', lo, mid) && Changed(k, mem', t', mem'', t'', mid, hi)
    ensures Changed(k, mem, t, mem'', t'', lo, hi)
  {
  }

  /** The pages taken over by mapping `n` pages from `v` to consecutive frames from `phys`. */
  ghost function MapOver(over: map<nat, Option<Mapping>>, v: nat, n: nat, phys: nat, flags: Flags): map<nat, Option<Mapping>> {
    if n == 0 then over else MapOver(over, v, n - 1, phys, flags)[v + n - 1 := Some(Mapping(PhysAt(phys, n - 1), flags))]
  }

  /** The pages taken over by unmapping `n` pages from `v`. */
  ghost function UnmapOver(over: map<nat, Option<Mapping>>, v: nat, n: nat): map<nat, Option<Mapping>> {
    if n == 0 then over else UnmapOver(over, v, n - 1)[v + n - 1 := None]
  }

  lemma {:induction false} MapOverAt(over: map<nat, Option<Mapping>>, v: nat, n: nat, phys: nat, flags: Flags, w: nat)
    ensures var o := MapOver(over, v, n, phys, flags);
            if v <= w < v + n then w in o && o[w] == Some(Mapping(PhysAt(phys, w - v), flags))
            else (w in o <==> w in over) && (w in over ==> o[w] == over[w])
  {
    if n > 0 {
      MapOverAt(over, v, n - 1, phys, flags, w);
    }
  }

  lemma {:induction false} UnmapOverAt(over: map<nat, Option<Mapping>>, v: nat, n: nat, w: nat)
    ensures var o := UnmapOver(over, v, n);
            if v <= w < v + n then w in o && o[w] == None
            else (w in o <==> w in over) && (w in over ==> o[w] == over[w])
  {
    if n > 0 {
      UnmapOverAt(over, v, n - 1, w);
    }
  }

  /** What `Valid` says once the pages taken over are known: a range update of the translation. */
  lemma RangeUpdate(mem: Mem, k: Kernel, t: User, mem': Mem, t': User, v: nat, n: nat, phys: nat, flags: Flags, w: nat)
    requires Inv(mem, k, t) && Inv(mem', k, t') && w < PAGE_COUNT
    requires Changed(k, mem, t, mem', t', v, v + n) && t'.over == MapOver(t.over, v, n, phys, flags)
    ensures Frame(mem', t'.root, w) == if v <= w < v + n then Some(PhysAt(phys, w - v)) else Frame(mem, t.root, w)
  {
    hide Inv, Leaf, SameLeaves, Untouched, Extends;
    PageFacts(mem', k, t', w);
    MapOverAt(t.over, v, n, phys, flags, w);
  }

  /** Unmapped pages translate to nothing, the others as before. */
  lemma RangeRemoval(mem: Mem, k: Kernel, t: User, mem': Mem, t': User, v: nat, n: nat, w: nat)
    requires Inv(mem, k, t) && Inv(mem', k, t') && w < PAGE_COUNT
    requires Changed(k, mem, t, mem', t', v, v + n) && t'.over == UnmapOver(t.over, v, n)
    ensures Frame(mem', t'.root, w) == if v <= w < v + n then None else Frame(mem, t.root, w)
  {
    hide Inv, Leaf, SameLeaves, Untouched, Extends;
    PageFacts(mem', k, t', w);
    UnmapOverAt(t.over, v, n, w);
  }

  lemma PageFacts(mem: Mem, k: Kernel, t: User, w: nat)
    requires Inv(mem, k, t) && w < PAGE_COUNT
    ensures PageInv(mem, k, t, w)
  {
  }

  lemma LeafTable(mem: Mem, k: Kernel, t: User, v: nat, f: nat)
    requires Inv(mem, k, t) && f in t.owned && Reach(mem, t.root, v, 1) == Some(f)
    ensures f in t.level && t.level[f] == 1 && IsTable(mem, f)
  {
    LeafTableLevel(mem, k, t, v, f);
  }

  lemma RootTable(mem: Mem, k: Kernel, t: User)
    requires Inv(mem, k, t)
    ensures t.root in t.level && t.level[t.root] == 4 && forall v: nat :: Reach(mem, t.root, v, 4) == Some(t.root)
    ensures forall f :: f in t.level ==> f in mem
  {
  }

  lemma KeptTwiceInv(k: Kernel, mem: Mem, t: User, mem': Mem, t': User, mem'': Mem, t'': User)
    requires Inv(mem, k, t) && Kept(k, mem, t, mem', t') && Kept(k, mem', t', mem'', t'')
    ensures Kept(k, mem, t, mem'', t'')
  {
  }

  lemma DescendReach(mem: Mem, k: Kernel, t: User, mem': Mem, t': User, v: nat, f: nat, l: nat)
    requires Inv(mem, k, t) && Inv(mem', k, t') && 2 <= l <= 4 && Reach(mem, t.root, v, l) == Some(f)
    requires Kept(k, mem, t, mem', t') && Untouched(mem, mem', {f}) && f in t.level && t.level[f] == l
    requires IsTable(mem', f) && Follows(mem'[f][Index(v, l)]) && mem'[f][Index(v, l)].addr in t'.owned
    ensures var g := mem'[f][Index(v, l)].addr;
            g in t'.level && t'.level[g] == l - 1 && Reach(mem', t'.root, v, l - 1) == Some(g)
  {
    var g := mem'[f][Index(v, l)].addr;
    AboveKept(mem, k, t, mem', v, f, l, l);
    EntryFollows(mem', k, t', f, Index(v, l));
    KernelLevelsApart(k, t');
    KernelOwnedApart(k, t');
    hide Inv, Index, Leaf;
  }

  lemma {:induction false} AboveKept(mem: Mem, k: Kernel, t: User, mem': Mem, v: nat, f: nat, l: nat, m: nat)
    requires Inv(mem, k, t) && Untouched(mem, mem', {f}) && f in t.level && t.level[f] == l && 2 <= l <= m <= 4
    ensures Reach(mem', t.root, v, m) == Reach(mem, t.root, v, m)
    decreases 4 - m
  {
    hide Inv, Index;
    if m < 4 {
      AboveKept(mem, k, t, mem', v, f, l, m + 1);
      if Reach(mem, t.root, v, m + 1).Some? {
        ReachLevel(mem, k, t, v, m + 1, f);
      }
    }
  }

  lemma ReachLevel(mem: Mem, k: Kernel, t: User, v: nat, m: nat, f: nat)
    requires Inv(mem, k, t) && 1 <= m <= 4 && Reach(mem, t.root, v, m).Some? && f in t.level
    ensures IsTable(mem, Reach(mem, t.root, v, m).value)
    ensures Reach(mem, t.root, v, m).value == f ==> t.level[f] == m
  {
    UserReach(mem, k, t, v, m);
    KernelLevelsApart(k, t);
    hide KernelInv, TreeInv, SharedInv, WriteInv, PagesInv, Reach;
  }

  lemma LeafStep(mem0: Mem, t0: User, mem: Mem, k: Kernel, t: User, v: nat, f: nat, e: Entry)
    requires Inv(mem0, k, t0) && Kept(k, mem0, t0, mem, t)
    requires Inv(mem, k, t) && v < PAGE_COUNT && f in t.owned && Reach(mem, t.root, v, 1) == Some(f) && IsTable(mem, f)
    requires f in t.level && (e.us <==> e.p) && (e.p && e.rw ==> PathWrites(mem, t.root, v))
    ensures var mem' := mem[f := mem[f][Index(v, 1) := e]];
            && Inv(mem', k, Overridden(t, v, e))
            && Changed(k, mem0, t0, mem', Overridden(t, v, e), v, v + 1)
            && Leaf(mem', t.root, v) == if e.p then Some(e) else None
  {
    hide Inv, Leaf, Index, Reach, PathWrites;
    var mem' := mem[f := mem[f][Index(v, 1) := e]];
    LeafWrite(mem, k, t, v, f, e, mem');
    RootTable(mem0, k, t0);
    assert f in mem0 ==> f in t0.level;
  }

  /** An entry of an own upper table leads nowhere, to an owned table, or to a kernel table. */
  lemma EntryCases(mem: Mem, k: Kernel, t: User, f: nat, i: nat)
    requires Inv(mem, k, t) && f in t.level && t.level[f] >= 2 && i < TABLE_LEN
    ensures IsTable(mem, f) && !mem[f][i].ps
    ensures mem[f][i].p ==> mem[f][i].addr in t.owned || (mem[f][i].addr in k.level && mem[f][i].addr in mem)
  {
  }

  lemma KernelTables(mem: Mem, k: Kernel)
    requires KernelInv(mem, k)
    ensures forall f :: f in k.level ==> IsTable(mem, f)
    ensures k.root in k.level
  {
  }

  lemma KeptNow(mem: Mem, k: Kernel, t: User)
    ensures Kept(k, mem, t, mem, t)
  {
  }

  lemma RaiseStep(mem: Mem, k: Kernel, t: User, f: nat, i: nat, e: Entry)
    requires Inv(mem, k, t) && IsTable(mem, f) && i < TABLE_LEN && Harmless(mem, t, f, i, e) && t.level[f] >= 2
    ensures Inv(mem[f := mem[f][i := e]], k, t)
    ensures Kept(k, mem, t, mem[f := mem[f][i := e]], t)
  {
    hide Inv, Leaf;
    RaiseKeepsInv(mem, k, t, f, i, e, mem[f := mem[f][i := e]]);
  }

  lemma FreshForUser(mem: Mem, k: Kernel, t: User, g: nat)
    requires Inv(mem, k, t) && g !in mem
    ensures g !in t.level
  {
  }

  lemma AdoptKept(mem: Mem, k: Kernel, t: User, f: nat, i: nat, g: nat, mem': Mem)
    requires Adopts(mem, k, t, f, i, g, mem') && g !in t.level
    requires SameLeaves(mem, mem', t.root) && SameLeaves(mem, mem', k.root)
    ensures Kept(k, mem, t, mem', Adopted(t, f, i, g))
  {
  }

  /** Writing `e` over entry `i` of `f`, with `content` in the fresh frame `g`, is an adoption. */
  lemma AdoptStepUser(mem: Mem, k: Kernel, t: User, f: nat, i: nat, g: nat, content: seq<Entry>, e: Entry)
    requires Inv(mem, k, t) && g !in mem && IsTable(mem, f) && i < TABLE_LEN && f in t.level && t.level[f] >= 2
    requires |content| == TABLE_LEN && Follows(e) && e.us && e.addr == g && (mem[f][i].p && mem[f][i].rw ==> e.rw)
    requires if mem[f][i].p then mem[f][i].addr in k.level && IsTable(mem, mem[f][i].addr) && content == mem[mem[f][i].addr]
             else forall j :: 0 <= j < TABLE_LEN ==> content[j] == ZERO
    ensures var mem' := mem[g := content][f := mem[f][i := e]];
            Inv(mem', k, Adopted(t, f, i, g)) && Kept(k, mem, t, mem', Adopted(t, f, i, g))
  {
    hide Inv, Leaf, Kept;
    var mem' := mem[g := content][f := mem[f][i := e]];
    assert Adopts(mem, k, t, f, i, g, mem');
    hide Adopts;
    AdoptKeepsInv(mem, k, t, f, i, g, mem');
    FreshForUser(mem, k, t, g);
    AdoptKept(mem, k, t, f, i, g, mem');
  }

  // ----- unmapping what the kernel shares

  /** An empty table but for entry 0, a supervisor entry that leads to `addr`. */
  function OneEntry(addr: nat): (t: seq<Entry>)
    ensures |t| == TABLE_LEN && t[0] == ZERO.(p := true, addr := addr)
    ensures forall i :: 0 < i < TABLE_LEN ==> t[i] == ZERO
  {
    seq(TABLE_LEN, i => if i == 0 then ZERO.(p := true, addr := addr) else ZERO)
  }

  /** Four tables that map page 0 for the kernel. */
  ghost function SmallKernel(): Mem {
    map[0x1000 := OneEntry(0x2000), 0x2000 := OneEntry(0x3000), 0x3000 := OneEntry(0x4000), 0x4000 := OneEntry(0x5000)]
  }

  lemma SmallKernelInv()
    ensures KernelInv(SmallKernel(), Kernel(0x1000, map[0x1000 := 4, 0x2000 := 3, 0x3000 := 2, 0x4000 := 1]))
  {
    var mem, level := SmallKernel(), map[0x1000 := 4, 0x2000 := 3, 0x3000 := 2, 0x4000 := 1];
    forall f | f in level
      ensures TableOk(mem, level, f)
    {
      forall i | 0 <= i < TABLE_LEN && level[f] >= 2
        ensures ChildOk(mem[f][i], level, level[f] - 1)
      {
      }
    }
  }

  /**
   * A table just cloned shares every last-level table with the kernel, so
   * unmapping a page the kernel has mapped takes it from the kernel.
   */
  lemma UnmapCanReachKernel() returns (mem: Mem, k: Kernel, t: User, v: nat)
    ensures Inv(mem, k, t) && v < PAGE_COUNT && !LastIsOwn(mem, t, v) && Leaf(mem, k.root, v).Some?
  {
    k := Kernel(0x1000, map[0x1000 := 4, 0x2000 := 3, 0x3000 := 2, 0x4000 := 1]);
    mem, t, v := SmallKernel()[0x6000 := OneEntry(0x2000)], Fresh(0x6000), 0;
    SmallKernelInv();
    CloneKeepsInv(SmallKernel(), k, 0x6000, mem);
    hide Inv, KernelInv;
    assert Index(0, 1) == 0 && Index(0, 2) == 0 && Index(0, 3) == 0 && Index(0, 4) == 0;
    ReachUnrolled(mem, 0x6000, 0);
    ReachUnrolled(mem, 0x1000, 0);
    assert Reach(mem, 0x6000, 0, 3) == Some(0x2000) == Reach(mem, 0x1000, 0, 3);
    assert Reach(mem, 0x6000, 0, 2) == Some(0x3000) == Reach(mem, 0x1000, 0, 2);
  }
}

/**
 * The kernel's own page table (kernel/src/arch/x86_64/paging.rs): the general
 * `map` over an empty root or one filled earlier, and the boot-time identity
 * mapping that user tables are later cloned from.
 */
module KernelPageTables {
  import opened Basics
  import opened PageTables
  import opened PageEdits
  import opened UserPageTables

  datatype MapError = NotAligned(addr: nat) | NoFrame

  /** The kernel's tables, with the one entry that leads to each table below the root. */
  datatype Tree = Tree(kernel: Kernel, up: map<nat, (nat, nat)>)

  ghost predicate LinkOk(mem: Mem, t: Tree, f: nat, i: nat)
    requires IsTable(mem, f) && 0 <= i < TABLE_LEN
  {
    mem[f][i].p ==> mem[f][i].addr in t.up && t.up[mem[f][i].addr] == (f, i)
  }

  /** No table is led to by two entries. */
  ghost predicate LinksInv(mem: Mem, t: Tree) {
    forall f, i :: f in t.kernel.level && t.kernel.level[f] >= 2 && IsTable(mem, f) && 0 <= i < TABLE_LEN ==> LinkOk(mem, t, f, i)
  }

  ghost predicate TreeOk(mem: Mem, t: Tree) {
    KernelInv(mem, t.kernel) && LinksInv(mem, t)
  }

  // ----- walks stay inside the tree

  lemma ReachedThrough(mem: Mem, t: Tree, v: nat, l: nat)
    requires TreeOk(mem, t) && 1 <= l <= 3 && Reach(mem, t.kernel.root, v, l).Some?
    ensures var g, f := Reach(mem, t.kernel.root, v, l).value, Reach(mem, t.kernel.root, v, l + 1);
            f.Some? && g in t.up && t.up[g] == (f.value, Index(v, l + 1))
  {
    KernelReach(mem, t.kernel, v, l + 1);
    hide KernelInv, Index;
    assert LinkOk(mem, t, Reach(mem, t.kernel.root, v, l + 1).value, Index(v, l + 1));
  }

  /** Two pages whose walks share a table share every index above it. */
  lemma {:induction false} SharedTable(mem: Mem, t: Tree, v: nat, w: nat, l: nat)
    requires TreeOk(mem, t) && 1 <= l <= 4 && Reach(mem, t.kernel.root, v, l).Some?
    requires Reach(mem, t.kernel.root, w, l) == Reach(mem, t.kernel.root, v, l)
    ensures forall m :: l < m <= 4 ==> Index(v, m) == Index(w, m)
    decreases 4 - l
  {
    hide TreeOk, Index, Reach;
    if l < 4 {
      ReachedThrough(mem, t, v, l);
      ReachedThrough(mem, t, w, l);
      SharedTable(mem, t, v, w, l + 1);
    }
  }

  // ----- linking an empty table

  ghost function Linked(t: Tree, f: nat, i: nat, g: nat): Tree
    requires f in t.kernel.level && t.kernel.level[f] >= 2
  {
    Tree(t.kernel.(level := t.kernel.level[g := t.kernel.level[f] - 1]), t.up[g := (f, i)])
  }

  /** The absent entry `i` of table `f` now leads to the fresh and empty table `g`. */
  ghost predicate Links(mem: Mem, t: Tree, f: nat, i: nat, g: nat, mem': Mem) {
    && f in t.kernel.level && t.kernel.level[f] >= 2 && IsTable(mem, f) && i < TABLE_LEN && !mem[f][i].p
    && g !in mem && f in mem' && g in mem' && (forall h :: h in mem && h != f ==> h in mem' && mem'[h] == mem[h])
    && |mem'[g]| == TABLE_LEN && (forall j :: 0 <= j < TABLE_LEN ==> mem'[g][j] == ZERO)
    && |mem'[f]| == TABLE_LEN && (forall j :: 0 <= j < TABLE_LEN && j != i ==> mem'[f][j] == mem[f][j])
    && Follows(mem'[f][i]) && !mem'[f][i].us && mem'[f][i].addr == g
  }

  lemma LinkTableOk(mem: Mem, t: Tree, f: nat, i: nat, g: nat, mem': Mem, h: nat)
    requires Links(mem, t, f, i, g, mem') && g !in t.kernel.level
    requires TableOk(mem, t.kernel.level, f) && (h == g || TableOk(mem, t.kernel.level, h))
    ensures TableOk(mem', Linked(t, f, i, g).kernel.level, h)
  {
    var level' := Linked(t, f, i, g).kernel.level;
    if h == f && h != g {
      forall j | 0 <= j < TABLE_LEN
        ensures ChildOk(mem'[f][j], level', level'[f] - 1)
      {
        assert ChildOk(mem[f][j], t.kernel.level, t.kernel.level[f] - 1);
      }
    } else if h != g {
      TableOkGrows(mem, mem', t.kernel.level, level', h);
    }
  }

  lemma LinkKernel(mem: Mem, t: Tree, f: nat, i: nat, g: nat, mem': Mem)
    requires KernelInv(mem, t.kernel) && Links(mem, t, f, i, g, mem')
    ensures g !in t.kernel.level && KernelInv(mem', Linked(t, f, i, g).kernel)
  {
    TablesPresent(mem, t.kernel);
    hide TableOk;
    forall h | h in Linked(t, f, i, g).kernel.level
      ensures TableOk(mem', Linked(t, f, i, g).kernel.level, h)
    {
      LinkTableOk(mem, t, f, i, g, mem', h);
    }
  }

  lemma LinkOne(mem: Mem, t: Tree, f: nat, i: nat, g: nat, mem': Mem, h: nat, j: nat)
    requires Links(mem, t, f, i, g, mem') && h in mem' && |mem'[h]| == TABLE_LEN && 0 <= j < TABLE_LEN
    requires h != g ==> IsTable(mem, h) && LinkOk(mem, t, h, j)
    requires h != g && mem[h][j].p ==> mem[h][j].addr in mem
    ensures LinkOk(mem', Linked(t, f, i, g), h, j)
  {
    if h != g && !(h == f && j == i) {
      assert mem'[h][j] == mem[h][j];
    }
  }

  lemma ChildrenInMem(mem: Mem, k: Kernel)
    requires KernelInv(mem, k)
    ensures forall f, i :: f in k.level && k.level[f] >= 2 && 0 <= i < TABLE_LEN && mem[f][i].p ==> mem[f][i].addr in mem
  {
    KernelClosed(mem, k);
  }

  lemma LinkTree(mem: Mem, t: Tree, f: nat, i: nat, g: nat, mem': Mem)
    requires TreeOk(mem, t) && Links(mem, t, f, i, g, mem')
    ensures TreeOk(mem', Linked(t, f, i, g))
  {
    LinkKernel(mem, t, f, i, g, mem');
    TablesPresent(mem, t.kernel);
    ChildrenInMem(mem, t.kernel);
    hide KernelInv;
    var t' := Linked(t, f, i, g);
    forall h, j | h in t'.kernel.level && t'.kernel.level[h] >= 2 && IsTable(mem', h) && 0 <= j < TABLE_LEN
      ensures LinkOk(mem', t', h, j)
    {
      if h != g {
        assert LinkOk(mem, t, h, j);
      }
      LinkOne(mem, t, f, i, g, mem', h, j);
    }
  }

  lemma {:induction false} LinkReach(mem: Mem, t: Tree, f: nat, i: nat, g: nat, mem': Mem, v: nat, l: nat)
    requires KernelInv(mem, t.kernel) && Links(mem, t, f, i, g, mem') && g !in t.kernel.level && 1 <= l <= 4
    ensures var was, now := Reach(mem, t.kernel.root, v, l), Reach(mem', t.kernel.root, v, l);
            now == was || (was.None? && now == Some(g))
    decreases 4 - l
  {
    hide KernelInv, Index;
    if l < 4 {
      LinkReach(mem, t, f, i, g, mem', v, l + 1);
      if Reach(mem, t.kernel.root, v, l + 1).Some? {
        KernelReach(mem, t.kernel, v, l + 1);
      }
    }
  }

  /** An empty table below an absent entry changes no translation. */
  lemma LinkLeaf(mem: Mem, t: Tree, f: nat, i: nat, g: nat, mem': Mem, v: nat)
    requires KernelInv(mem, t.kernel) && Links(mem, t, f, i, g, mem') && g !in t.kernel.level
    ensures Leaf(mem', t.kernel.root, v) == Leaf(mem, t.kernel.root, v)
  {
    hide KernelInv, Index, Reach;
    LinkReach(mem, t, f, i, g, mem', v, 1);
    if Reach(mem, t.kernel.root, v, 1).Some? {
      KernelReach(mem, t.kernel, v, 1);
    }
  }

  lemma LinkKeepsTree(mem: Mem, t: Tree, f: nat, i: nat, g: nat, mem': Mem)
    requires TreeOk(mem, t) && Links(mem, t, f, i, g, mem')
    ensures TreeOk(mem', Linked(t, f, i, g)) && SameLeaves(mem, mem', t.kernel.root)
  {
    LinkTree(mem, t, f, i, g, mem');
    LinkKernel(mem, t, f, i, g, mem');
    hide KernelInv, LinksInv, Leaf, Links;
    forall v: nat
      ensures Leaf(mem', t.kernel.root, v) == Leaf(mem, t.kernel.root, v)
    {
      LinkLeaf(mem, t, f, i, g, mem', v);
    }
  }

  // ----- writing an entry in place

  lemma WriteKernelTree(mem: Mem, t: Tree, f: nat, i: nat, e: Entry, mem': Mem)
    requires TreeOk(mem, t) && Writes(mem, f, i, e, mem') && Fits(mem, t.kernel, f, i, e)
    ensures TreeOk(mem', t)
  {
    KernelWriteKeeps(mem, t.kernel, f, i, e, mem');
    TablesPresent(mem, t.kernel);
    hide KernelInv, TableOk;
    forall h, j | h in t.kernel.level && t.kernel.level[h] >= 2 && IsTable(mem', h) && 0 <= j < TABLE_LEN
      ensures LinkOk(mem', t, h, j)
    {
      assert LinkOk(mem, t, h, j);
    }
  }

  /** Raising the write bit above the last level changes no translation. */
  lemma RaiseKeepsTree(mem: Mem, t: Tree, f: nat, i: nat, e: Entry, mem': Mem)
    requires TreeOk(mem, t) && Writes(mem, f, i, e, mem') && Fits(mem, t.kernel, f, i, e) && t.kernel.level[f] >= 2
    ensures TreeOk(mem', t) && SameLeaves(mem, mem', t.kernel.root)
  {
    WriteKernelTree(mem, t, f, i, e, mem');
    hide KernelInv, LinksInv, Index, Reach;
    forall v: nat
      ensures Leaf(mem', t.kernel.root, v) == Leaf(mem, t.kernel.root, v)
    {
      KernelWriteReach(mem, t.kernel, f, i, e, mem', v, 1);
      if Reach(mem, t.kernel.root, v, 1).Some? {
        KernelReach(mem, t.kernel, v, 1);
      }
    }
  }

  lemma WriteLeafAt(mem: Mem, t: Tree, v: nat, f: nat, e: Entry, mem': Mem, w: nat)
    requires TreeOk(mem, t) && v < PAGE_COUNT && w < PAGE_COUNT && Reach(mem, t.kernel.root, v, 1) == Some(f)
    requires Writes(mem, f, Index(v, 1), e, mem') && Fits(mem, t.kernel, f, Index(v, 1), e) && e.p
    ensures Leaf(mem', t.kernel.root, w) == if w == v then Some(e) else Leaf(mem, t.kernel.root, w)
  {
    KernelWriteReach(mem, t.kernel, f, Index(v, 1), e, mem', w, 1);
    if Reach(mem, t.kernel.root, w, 1) == Some(f) && Index(w, 1) == Index(v, 1) {
      SharedTable(mem, t, v, w, 1);
      IndicesIdentifyPage(v, w);
    }
    hide KernelInv, LinksInv, Index, Reach;
  }

  /** Only page `v`'s translation differs. */
  ghost predicate OnlyPage(mem: Mem, mem': Mem, root: nat, v: nat) {
    forall w :: 0 <= w < PAGE_COUNT && w != v ==> Leaf(mem', root, w) == Leaf(mem, root, w)
  }

  /** Writing the last-level entry of page `v` changes the translation of `v` and of no other page. */
  lemma KernelLeafWrite(mem: Mem, t: Tree, v: nat, f: nat, e: Entry, mem': Mem)
    requires TreeOk(mem, t) && v < PAGE_COUNT && Reach(mem, t.kernel.root, v, 1) == Some(f)
    requires Writes(mem, f, Index(v, 1), e, mem') && Fits(mem, t.kernel, f, Index(v, 1), e) && e.p
    ensures TreeOk(mem', t) && Leaf(mem', t.kernel.root, v) == Some(e) && OnlyPage(mem, mem', t.kernel.root, v)
  {
    WriteKernelTree(mem, t, f, Index(v, 1), e, mem');
    hide TreeOk, Leaf, Reach, Index, Writes, Fits;
    forall w | 0 <= w < PAGE_COUNT
      ensures Leaf(mem', t.kernel.root, w) == if w == v then Some(e) else Leaf(mem, t.kernel.root, w)
    {
      WriteLeafAt(mem, t, v, f, e, mem', w);
    }
  }

  // ----- the operations

  /** The tree may have grown by fresh frames; frames outside it are as they were. */
  ghost predicate Grown(mem: Mem, t: Tree, mem': Mem, t': Tree) {
    && t'.kernel.root == t.kernel.root && mem.Keys <= mem'.Keys
    && Untouched(mem, mem', t.kernel.level.Keys)
    && Extends(t.kernel.level, t'.kernel.level)
    && (forall h :: h in t'.kernel.level && h !in t.kernel.level ==> h !in mem)
    && StepsKept(mem, mem', t.kernel.root)
  }

  /** Every entry above the last level that a walk meets with the write bit set is still met with it. */
  ghost predicate StepsKept(mem: Mem, mem': Mem, root: nat) {
    forall v: nat, l :: 2 <= l <= 4 && WritesAt(mem, root, v, l) ==> WritesAt(mem', root, v, l)
  }

  lemma PathStays(mem: Mem, mem': Mem, root: nat, v: nat)
    requires StepsKept(mem, mem', root) && PathWrites(mem, root, v)
    ensures PathWrites(mem', root, v)
  {
    hide WritesAt;
  }

  lemma StepsTwice(mem: Mem, mem': Mem, mem'': Mem, root: nat)
    requires StepsKept(mem, mem', root) && StepsKept(mem', mem'', root)
    ensures StepsKept(mem, mem'', root)
  {
    hide WritesAt;
  }

  lemma LinkSteps(mem: Mem, t: Tree, f: nat, i: nat, g: nat, mem': Mem)
    requires KernelInv(mem, t.kernel) && Links(mem, t, f, i, g, mem') && g !in t.kernel.level
    ensures StepsKept(mem, mem', t.kernel.root)
  {
    hide KernelInv, Index, Reach;
    forall v: nat, l | 2 <= l <= 4 && WritesAt(mem, t.kernel.root, v, l)
      ensures WritesAt(mem', t.kernel.root, v, l)
    {
      LinkReach(mem, t, f, i, g, mem', v, l);
      KernelReach(mem, t.kernel, v, l);
    }
  }

  lemma RaiseSteps(mem: Mem, k: Kernel, f: nat, i: nat, e: Entry, mem': Mem)
    requires KernelInv(mem, k) && Writes(mem, f, i, e, mem') && Fits(mem, k, f, i, e) && (k.level[f] == 1 || (mem[f][i].rw ==> e.rw))
    ensures StepsKept(mem, mem', k.root)
  {
    hide KernelInv, Index, Reach;
    forall v: nat, l | 2 <= l <= 4 && WritesAt(mem, k.root, v, l)
      ensures WritesAt(mem', k.root, v, l)
    {
      KernelWriteReach(mem, k, f, i, e, mem', v, l);
      KernelReach(mem, k, v, l);
    }
  }

  /** Every walk gets at least as far as before, through the same tables. */
  ghost predicate WalksKept(mem: Mem, mem': Mem, root: nat) {
    forall v: nat, l :: 1 <= l <= 4 && Reach(mem, root, v, l).Some? ==> Reach(mem', root, v, l) == Reach(mem, root, v, l)
  }

  /** Translations outside the `n` pages from `v` are as before. */
  ghost predicate PagesKept(mem: Mem, mem': Mem, root: nat, v: nat, n: nat) {
    forall w :: 0 <= w < PAGE_COUNT && !(v <= w < v + n) ==> Leaf(mem', root, w) == Leaf(mem, root, w)
  }

  /** Page `v` walks to frame `phys` with the given flags, for the kernel only, and can be written exactly when they say so. */
  ghost predicate KernelPage(mem: Mem, root: nat, v: nat, phys: nat, flags: Flags) {
    var e := Leaf(mem, root, v);
    && e.Some? && e.value.addr == phys && !e.value.us && FlagsOf(e.value) == flags
    && (CanWrite(mem, root, v) <==> flags.rw)
  }

  lemma GrownNow(mem: Mem, t: Tree)
    ensures Grown(mem, t, mem, t) && SameLeaves(mem, mem, t.kernel.root) && WalksKept(mem, mem, t.kernel.root)
  {
  }

  lemma GrownTwice(mem: Mem, t: Tree, mem': Mem, t': Tree, mem'': Mem, t'': Tree)
    requires Grown(mem, t, mem', t') && Grown(mem', t', mem'', t'')
    ensures Grown(mem, t, mem'', t'')
  {
    hide StepsKept;
    StepsTwice(mem, mem', mem'', t.kernel.root);
  }

  lemma GrownSteps(mem: Mem, t: Tree, mem': Mem, t': Tree)
    requires Grown(mem, t, mem', t')
    ensures StepsKept(mem, mem', t.kernel.root)
  {
  }

  lemma EntryAt(mem: Mem, t: Tree, f: nat, i: nat)
    requires TreeOk(mem, t) && f in t.kernel.level && t.kernel.level[f] >= 2 && i < TABLE_LEN
    ensures IsTable(mem, f) && !mem[f][i].ps && !mem[f][i].us
    ensures mem[f][i].p ==> mem[f][i].addr in t.kernel.level && t.kernel.level[mem[f][i].addr] == t.kernel.level[f] - 1
  {
    TablesPresent(mem, t.kernel);
    assert ChildOk(mem[f][i], t.kernel.level, t.kernel.level[f] - 1);
  }

  lemma RaiseStepKernel(mem: Mem, t: Tree, f: nat, i: nat, e: Entry)
    requires TreeOk(mem, t) && IsTable(mem, f) && i < TABLE_LEN && Fits(mem, t.kernel, f, i, e) && t.kernel.level[f] >= 2
    requires mem[f][i].rw ==> e.rw
    ensures var mem' := mem[f := mem[f][i := e]];
            TreeOk(mem', t) && Grown(mem, t, mem', t) && SameLeaves(mem, mem', t.kernel.root) && WalksKept(mem, mem', t.kernel.root)
  {
    var mem' := mem[f := mem[f][i := e]];
    RaiseKeepsTree(mem, t, f, i, e, mem');
    RaiseSteps(mem, t.kernel, f, i, e, mem');
    hide KernelInv, LinksInv, Leaf, Reach, Fits, StepsKept;
    forall v: nat, l | 1 <= l <= 4
      ensures Reach(mem', t.kernel.root, v, l) == Reach(mem, t.kernel.root, v, l)
    {
      KernelWriteReach(mem, t.kernel, f, i, e, mem', v, l);
    }
  }

  /** Writing `e` over the absent entry `i` of `f`, with an empty table in the fresh frame `g`, links it. */
  lemma LinkStep(mem: Mem, t: Tree, f: nat, i: nat, g: nat, empty: seq<Entry>, e: Entry)
    requires TreeOk(mem, t) && f in t.kernel.level && t.kernel.level[f] >= 2 && IsTable(mem, f) && i < TABLE_LEN && !mem[f][i].p
    requires g !in mem && |empty| == TABLE_LEN && (forall j :: 0 <= j < TABLE_LEN ==> empty[j] == ZERO)
    requires Follows(e) && !e.us && e.addr == g
    ensures var mem', t' := mem[g := empty][f := mem[f][i := e]], Linked(t, f, i, g);
            TreeOk(mem', t') && Grown(mem, t, mem', t') && SameLeaves(mem, mem', t.kernel.root) && WalksKept(mem, mem', t.kernel.root)
  {
    var mem' := mem[g := empty][f := mem[f][i := e]];
    assert Links(mem, t, f, i, g, mem');
    LinkKeepsTree(mem, t, f, i, g, mem');
    LinkKernel(mem, t, f, i, g, mem');
    LinkSteps(mem, t, f, i, g, mem');
    hide KernelInv, LinksInv, Leaf, Reach, Links, StepsKept;
    forall v: nat, l | 1 <= l <= 4 && Reach(mem, t.kernel.root, v, l).Some?
      ensures Reach(mem', t.kernel.root, v, l) == Reach(mem, t.kernel.root, v, l)
    {
      LinkReach(mem, t, f, i, g, mem', v, l);
    }
  }

  /** Makes entry `i` of table `f` lead to a table, an empty one if it led nowhere, with at least the given write bit. */
  method EnsurePte(memory: Memory, f: nat, i: nat, flags: Flags, ghost t: Tree) returns (ok: bool, ghost t': Tree)
    requires memory.Valid() && TreeOk(memory.mem, t) && f in t.kernel.level && t.kernel.level[f] >= 2 && i < TABLE_LEN
    modifies memory
    ensures memory.Valid() && TreeOk(memory.mem, t') && Grown(old(memory.mem), t, memory.mem, t')
    ensures SameLeaves(old(memory.mem), memory.mem, t.kernel.root) && WalksKept(old(memory.mem), memory.mem, t.kernel.root)
    ensures !ok ==> memory.mem == old(memory.mem) && t' == t && memory.free == []
    ensures ok ==> IsTable(memory.mem, f) && Follows(memory.mem[f][i]) && (flags.rw ==> memory.mem[f][i].rw)
    ensures ok ==> memory.mem[f][i].addr in t'.kernel.level && t'.kernel.level[memory.mem[f][i].addr] == t.kernel.level[f] - 1
  {
    hide MemoryOk, TreeOk, Grown, SameLeaves, WalksKept;
    ghost var mem0 := memory.mem;
    EntryAt(mem0, t, f, i);
    GrownNow(mem0, t);
    var e := memory.mem[f][i];
    t' := t;
    if !e.p {
      var empty := seq(TABLE_LEN, _ => ZERO);
      var g := memory.AllocTable(empty);
      if g.None? {
        return false, t;
      }
      MaskKeepsFrames(g.value);
      e := SetEntry(e, g.value, false, flags);
      LinkStep(mem0, t, f, i, g.value, empty, e);
      t' := Linked(t, f, i, g.value);
    } else {
      e := e.(rw := e.rw || flags.rw);
      RaiseStepKernel(mem0, t, f, i, e);
    }
    assert memory.mem[f] == mem0[f];
    MemoryOkWrite(memory.mem, memory.free, f, memory.mem[f][i := e]);
    memory.mem := memory.mem[f := memory.mem[f][i := e]];
    ok := true;
  }

  lemma WalkOn(mem: Mem, mem': Mem, root: nat, v: nat, f: nat, l: nat)
    requires 2 <= l <= 4 && Reach(mem, root, v, l) == Some(f) && WalksKept(mem, mem', root)
    requires IsTable(mem', f) && Follows(mem'[f][Index(v, l)])
    ensures Reach(mem', root, v, l - 1) == Some(mem'[f][Index(v, l)].addr)
  {
    hide Index;
    assert Reach(mem', root, v, l) == Some(f);
  }

  lemma StepOn(mem: Mem, mem': Mem, root: nat, v: nat, f: nat, l: nat)
    requires 2 <= l <= 4 && Reach(mem, root, v, l) == Some(f) && WalksKept(mem, mem', root) && StepsKept(mem, mem', root)
    requires IsTable(mem', f) && Follows(mem'[f][Index(v, l)]) && mem'[f][Index(v, l)].rw && WritesAbove(mem, root, v, l)
    ensures WritesAbove(mem', root, v, l - 1)
  {
    hide Index, Reach;
    assert Reach(mem', root, v, l) == Some(f);
    assert WritesAt(mem', root, v, l);
    hide WritesAt;
  }

  /** Goes down one level of the walk of page `v`. */
  method DescendKernel(memory: Memory, v: nat, f: nat, flags: Flags, l: nat, ghost t: Tree) returns (g: Option<nat>, ghost t': Tree)
    requires memory.Valid() && TreeOk(memory.mem, t) && 2 <= l <= 4 && f in t.kernel.level && t.kernel.level[f] == l
    requires Reach(memory.mem, t.kernel.root, v, l) == Some(f) && (flags.rw ==> WritesAbove(memory.mem, t.kernel.root, v, l))
    modifies memory
    ensures memory.Valid() && TreeOk(memory.mem, t') && Grown(old(memory.mem), t, memory.mem, t')
    ensures SameLeaves(old(memory.mem), memory.mem, t.kernel.root) && t'.kernel.root == t.kernel.root
    ensures g.None? ==> memory.free == []
    ensures g.Some? ==> g.value in t'.kernel.level && t'.kernel.level[g.value] == l - 1
                        && Reach(memory.mem, t.kernel.root, v, l - 1) == g
                        && (flags.rw ==> WritesAbove(memory.mem, t.kernel.root, v, l - 1))
  {
    hide MemoryOk, TreeOk, SameLeaves, WalksKept, Index, Reach, Untouched, Extends, WritesAbove, StepsKept;
    ghost var mem0 := memory.mem;
    var ok;
    ok, t' := EnsurePte(memory, f, Index(v, l), flags, t);
    if !ok {
      return None, t';
    }
    WalkOn(mem0, memory.mem, t.kernel.root, v, f, l);
    if flags.rw { StepOn(mem0, memory.mem, t.kernel.root, v, f, l); }
    g := Some(memory.mem[f][Index(v, l)].addr);
  }

  lemma SameTwice(mem: Mem, mem': Mem, mem'': Mem, root: nat)
    requires SameLeaves(mem, mem', root) && SameLeaves(mem', mem'', root)
    ensures SameLeaves(mem, mem'', root)
  {
  }

  lemma RootOf(mem: Mem, t: Tree)
    requires TreeOk(mem, t)
    ensures t.kernel.root in t.kernel.level && t.kernel.level[t.kernel.root] == 4 && forall v: nat :: Reach(mem, t.kernel.root, v, 4) == Some(t.kernel.root)
  {
  }

  lemma LeafStepKernel(mem0: Mem, t0: Tree, mem: Mem, t: Tree, v: nat, f: nat, e: Entry)
    requires TreeOk(mem0, t0) && Grown(mem0, t0, mem, t) && SameLeaves(mem0, mem, t0.kernel.root)
    requires TreeOk(mem, t) && v < PAGE_COUNT && Reach(mem, t.kernel.root, v, 1) == Some(f) && f in t.kernel.level && t.kernel.level[f] == 1
    requires !e.us && e.p && (e.rw ==> PathWrites(mem, t.kernel.root, v))
    ensures IsTable(mem, f)
    ensures var mem' := mem[f := mem[f][Index(v, 1) := e]];
            && (e.rw ==> PathWrites(mem', t.kernel.root, v))
            && TreeOk(mem', t) && Grown(mem0, t0, mem', t) && Leaf(mem', t.kernel.root, v) == Some(e) && OnlyPage(mem0, mem', t.kernel.root, v)
  {
    TablesPresent(mem, t.kernel);
    var mem' := mem[f := mem[f][Index(v, 1) := e]];
    RaiseSteps(mem, t.kernel, f, Index(v, 1), e, mem');
    hide TreeOk, Leaf, Index, Reach, StepsKept, PathWrites;
    KernelLeafWrite(mem, t, v, f, e, mem');
    assert Grown(mem, t, mem', t);
    if e.rw { PathStays(mem, mem', t.kernel.root, v); }
    GrownTwice(mem0, t0, mem, t, mem', t);
  }

  /** Maps one page; when the frames run out no translation has changed. */
  method MapKernelPage(memory: Memory, root: nat, v: nat, phys: nat, flags: Flags, ghost t: Tree) returns (ok: bool, ghost t': Tree)
    requires memory.Valid() && TreeOk(memory.mem, t) && root == t.kernel.root && v < PAGE_COUNT
    modifies memory
    ensures memory.Valid() && TreeOk(memory.mem, t') && Grown(old(memory.mem), t, memory.mem, t')
    ensures !ok ==> memory.free == [] && SameLeaves(old(memory.mem), memory.mem, root)
    ensures ok ==> OnlyPage(old(memory.mem), memory.mem, root, v) && KernelPage(memory.mem, root, v, MaskAddr(phys), flags)
  {
    hide MemoryOk, TreeOk, SameLeaves, Index, Reach, Leaf, Grown, OnlyPage, WritesAbove, KernelPage;
    ghost var mem0 := memory.mem;
    RootOf(mem0, t);
    NothingAbove(mem0, root, v);
    var f3, f2, f1;
    ghost var t3, t2;
    f3, t3 := DescendKernel(memory, v, root, flags, 4, t);
    if f3.None? {
      return false, t3;
    }
    ghost var mem3 := memory.mem;
    f2, t2 := DescendKernel(memory, v, f3.value, flags, 3, t3);
    GrownTwice(mem0, t, mem3, t3, memory.mem, t2);
    SameTwice(mem0, mem3, memory.mem, root);
    if f2.None? {
      return false, t2;
    }
    ghost var mem2 := memory.mem;
    f1, t' := DescendKernel(memory, v, f2.value, flags, 2, t2);
    GrownTwice(mem0, t, mem2, t2, memory.mem, t');
    SameTwice(mem0, mem2, memory.mem, root);
    if f1.None? {
      return false, t';
    }
    WriteKernelLeaf(memory, v, f1.value, phys, flags, mem0, t, t');
    ok := true;
  }

  method WriteKernelLeaf(memory: Memory, v: nat, f: nat, phys: nat, flags: Flags, ghost mem0: Mem, ghost t0: Tree, ghost t: Tree)
    requires memory.Valid() && TreeOk(memory.mem, t) && TreeOk(mem0, t0) && v < PAGE_COUNT
    requires f in t.kernel.level && t.kernel.level[f] == 1 && Reach(memory.mem, t.kernel.root, v, 1) == Some(f)
    requires Grown(mem0, t0, memory.mem, t) && SameLeaves(mem0, memory.mem, t0.kernel.root)
    requires flags.rw ==> WritesAbove(memory.mem, t.kernel.root, v, 1)
    modifies memory`mem
    ensures memory.Valid() && TreeOk(memory.mem, t) && Grown(mem0, t0, memory.mem, t)
    ensures OnlyPage(mem0, memory.mem, t.kernel.root, v) && KernelPage(memory.mem, t.kernel.root, v, MaskAddr(phys), flags)
  {
    TablesPresent(memory.mem, t.kernel);
    if flags.rw { WholePath(memory.mem, t.kernel.root, v); }
    hide MemoryOk, TreeOk, SameLeaves, Index, Reach, Leaf, Grown, OnlyPage, MaskAddr, PathWrites, WritesAbove;
    var e := SetEntry(memory.mem[f][Index(v, 1)], phys, false, flags);
    LeafStepKernel(mem0, t0, memory.mem, t, v, f, e);
    MemoryOkWrite(memory.mem, memory.free, f, memory.mem[f][Index(v, 1) := e]);
    memory.mem := memory.mem[f := memory.mem[f][Index(v, 1) := e]];
  }

  // ----- ranges

  /** Page `w` of a range from `v` walks to its frame of the run of frames from `phys`. */
  ghost predicate PageFrom(mem: Mem, root: nat, v: nat, phys: nat, flags: Flags, w: nat) {
    w >= v && KernelPage(mem, root, w, MaskAddr(phys + (w - v) * PAGE_SIZE), flags)
  }

  ghost predicate RangeMappedTo(mem: Mem, root: nat, v: nat, n: nat, phys: nat, flags: Flags) {
    forall w :: v <= w < v + n ==> PageFrom(mem, root, v, phys, flags, w)
  }

  lemma RangeStart(mem: Mem, root: nat, v: nat, phys: nat, flags: Flags)
    ensures PagesKept(mem, mem, root, v, 0) && RangeMappedTo(mem, root, v, 0, phys, flags)
  {
  }

  lemma KernelPageStays(mem: Mem, mem': Mem, root: nat, v: nat, phys: nat, flags: Flags)
    requires KernelPage(mem, root, v, phys, flags) && Leaf(mem', root, v) == Leaf(mem, root, v) && StepsKept(mem, mem', root)
    ensures KernelPage(mem', root, v, phys, flags)
  {
    hide Leaf, PathWrites, StepsKept;
    if flags.rw { PathStays(mem, mem', root, v); }
  }

  lemma RangeGrows(mem0: Mem, mem: Mem, mem': Mem, root: nat, v: nat, n: nat, phys: nat, flags: Flags)
    requires PagesKept(mem0, mem, root, v, n) && RangeMappedTo(mem, root, v, n, phys, flags) && v + n < PAGE_COUNT
    requires OnlyPage(mem, mem', root, v + n) && KernelPage(mem', root, v + n, MaskAddr(phys + n * PAGE_SIZE), flags)
    requires StepsKept(mem, mem', root)
    ensures PagesKept(mem0, mem', root, v, n + 1) && RangeMappedTo(mem', root, v, n + 1, phys, flags)
  {
    hide Leaf, MaskAddr, KernelPage, StepsKept;
    forall w | v <= w < v + n + 1
      ensures PageFrom(mem', root, v, phys, flags, w)
    {
      if w < v + n {
        assert PageFrom(mem, root, v, phys, flags, w);
        KernelPageStays(mem, mem', root, w, MaskAddr(phys + (w - v) * PAGE_SIZE), flags);
      }
    }
  }

  lemma RangeStays(mem0: Mem, mem: Mem, mem': Mem, root: nat, v: nat, n: nat, phys: nat, flags: Flags)
    requires PagesKept(mem0, mem, root, v, n) && RangeMappedTo(mem, root, v, n, phys, flags)
    requires SameLeaves(mem, mem', root) && StepsKept(mem, mem', root)
    ensures PagesKept(mem0, mem', root, v, n) && RangeMappedTo(mem', root, v, n, phys, flags)
  {
    hide Leaf, MaskAddr, KernelPage, StepsKept;
    forall w | v <= w < v + n
      ensures PageFrom(mem', root, v, phys, flags, w)
    {
      assert PageFrom(mem, root, v, phys, flags, w);
      KernelPageStays(mem, mem', root, w, MaskAddr(phys + (w - v) * PAGE_SIZE), flags);
    }
  }

  /** The first of the three addresses that is not on a page boundary. */
  function Unaligned(start: nat, end: nat, phys: nat): Option<nat> {
    if start % PAGE_SIZE != 0 then Some(start)
    else if end % PAGE_SIZE != 0 then Some(end)
    else if phys % PAGE_SIZE != 0 then Some(phys)
    else None
  }

  /**
   * Maps a range for the kernel. An address off a page boundary is refused and
   * changes nothing. Otherwise `done` pages walk to consecutive frames, all of
   * them unless the frames ran out, and every other page translates as before.
   */
  method Map(memory: Memory, root: nat, start: nat, end: nat, phys: nat, flags: Flags, ghost t: Tree)
    returns (r: Result<(), MapError>, ghost t': Tree, ghost done: nat)
    requires memory.Valid() && TreeOk(memory.mem, t) && root == t.kernel.root && end <= PAGE_COUNT * PAGE_SIZE
    modifies memory
    ensures memory.Valid() && TreeOk(memory.mem, t') && Grown(old(memory.mem), t, memory.mem, t')
    ensures var off := Unaligned(start, end, phys);
            off.Some? ==> r == Err(NotAligned(off.value)) && memory.mem == old(memory.mem) && done == 0
    ensures Unaligned(start, end, phys).None? ==> done <= PageSteps(start, end) && (r.Ok? <==> done == PageSteps(start, end))
    ensures Unaligned(start, end, phys).None? && r.Err? ==> r == Err(NoFrame) && memory.free == []
    ensures PagesKept(old(memory.mem), memory.mem, root, start / PAGE_SIZE, done)
    ensures RangeMappedTo(memory.mem, root, start / PAGE_SIZE, done, phys, flags)
  {
    hide MemoryOk, TreeOk, SameLeaves, Grown, OnlyPage, KernelPage, PagesKept, RangeMappedTo, MaskAddr, PageSteps, StepsKept;
    ghost var mem0, v0 := memory.mem, start / PAGE_SIZE;
    GrownNow(mem0, t);
    RangeStart(mem0, root, v0, phys, flags);
    t', done := t, 0;
    if start % PAGE_SIZE != 0 {
      return Err(NotAligned(start)), t', done;
    }
    if end % PAGE_SIZE != 0 {
      return Err(NotAligned(end)), t', done;
    }
    if phys % PAGE_SIZE != 0 {
      return Err(NotAligned(phys)), t', done;
    }
    var i := start;
    while i < end
      invariant start + done * PAGE_SIZE == i && done <= PageSteps(start, end)
      invariant memory.Valid() && TreeOk(memory.mem, t') && t'.kernel.root == root && Grown(mem0, t, memory.mem, t')
      invariant PagesKept(mem0, memory.mem, root, v0, done) && RangeMappedTo(memory.mem, root, v0, done, phys, flags)
      decreases end - i
    {
      PageOfRange(start, end, i, done);
      ghost var mem1, t1 := memory.mem, t';
      var ok;
      ok, t' := MapKernelPage(memory, root, i / PAGE_SIZE, phys + (i - start), flags, t1);
      GrownTwice(mem0, t, mem1, t1, memory.mem, t');
      SameRoot(mem1, t1, memory.mem, t');
      GrownSteps(mem1, t1, memory.mem, t');
      if !ok {
        RangeStays(mem0, mem1, memory.mem, root, v0, done, phys, flags);
        return Err(NoFrame), t', done;
      }
      RangeGrows(mem0, mem1, memory.mem, root, v0, done, phys, flags);
      i, done := i + PAGE_SIZE, done + 1;
    }
    EndOfRange(start, end, i, done);
    r := Ok(());
  }

  lemma SameRoot(mem: Mem, t: Tree, mem': Mem, t': Tree)
    requires Grown(mem, t, mem', t')
    ensures t'.kernel.root == t.kernel.root
  {
  }

  // ----- boot

  ghost function EmptyTree(root: nat): Tree { Tree(Kernel(root, map[root := 4]), map[]) }

  lemma EmptyTreeOk(mem: Mem, root: nat)
    requires IsTable(mem, root) && forall i :: 0 <= i < TABLE_LEN ==> mem[root][i] == ZERO
    ensures TreeOk(mem, EmptyTree(root)) && forall v: nat :: Leaf(mem, root, v).None?
  {
    var level := EmptyTree(root).kernel.level;
    assert TableOk(mem, level, root);
    forall v: nat
      ensures Leaf(mem, root, v).None?
    {
      ReachUnrolled(mem, root, v);
    }
  }

  const BOOT_FLAGS: Flags := Flags(true, false, false)

  /** The whole translation after boot: the pages of the range to themselves, and no other page. */
  ghost predicate IdentityMapped(mem: Mem, root: nat, start: nat, end: nat) {
    forall v :: 0 <= v < PAGE_COUNT ==>
      if start / PAGE_SIZE <= v < end / PAGE_SIZE then KernelPage(mem, root, v, MaskAddr(v * PAGE_SIZE), BOOT_FLAGS)
      else Leaf(mem, root, v).None?
  }

  lemma IdentityOfRange(mem0: Mem, mem: Mem, root: nat, start: nat, end: nat)
    requires start % PAGE_SIZE == 0 && end % PAGE_SIZE == 0
    requires forall v: nat :: Leaf(mem0, root, v).None?
    requires PagesKept(mem0, mem, root, start / PAGE_SIZE, PageSteps(start, end))
    requires RangeMappedTo(mem, root, start / PAGE_SIZE, PageSteps(start, end), start, BOOT_FLAGS)
    ensures IdentityMapped(mem, root, start, end)
  {
    hide Leaf, MaskAddr, KernelPage;
    var v0 := start / PAGE_SIZE;
    assert start == v0 * PAGE_SIZE;
    AlignedSteps(start, end);
    forall v | v0 <= v < end / PAGE_SIZE
      ensures KernelPage(mem, root, v, MaskAddr(v * PAGE_SIZE), BOOT_FLAGS)
    {
      assert PageFrom(mem, root, v0, start, BOOT_FLAGS, v);
      assert start + (v - v0) * PAGE_SIZE == v * PAGE_SIZE;
    }
  }

  /**
   * The table made at boot: supervisor entries only, one level below another,
   * and a translation that is the identity on the range and nothing outside it.
   */
  method KernelInit(memory: Memory, start: nat, end: nat) returns (r: Result<nat, MapError>, ghost kernel: Kernel)
    requires memory.Valid() && end <= PAGE_COUNT * PAGE_SIZE
    modifies memory
    ensures memory.Valid() && Untouched(old(memory.mem), memory.mem, {})
    ensures r.Ok? ==> KernelInv(memory.mem, kernel) && kernel.root == r.value && r.value !in old(memory.mem)
    ensures r.Ok? ==> IdentityMapped(memory.mem, r.value, start, end)
    ensures r.Ok? ==> Unaligned(start, end, start).None?
    ensures r.Err? && r.error.NotAligned? ==> Unaligned(start, end, start) == Some(r.error.addr)
    ensures r == Err(NoFrame) ==> memory.free == []
  {
    hide MemoryOk, TreeOk, Grown, PagesKept, RangeMappedTo, IdentityMapped, Leaf, KernelInv;
    ghost var mem0 := memory.mem;
    kernel := Kernel(0, map[]);
    var f := memory.AllocTable(seq(TABLE_LEN, _ => ZERO));
    if f.None? {
      return Err(NoFrame), kernel;
    }
    ghost var mem1, t := memory.mem, EmptyTree(f.value);
    EmptyTreeOk(mem1, f.value);
    ghost var t', done;
    var m;
    m, t', done := Map(memory, f.value, start, end, start, BOOT_FLAGS, t);
    BootKeeps(mem0, f.value, mem1, t, memory.mem, t');
    if m.Err? {
      return Err(m.error), kernel;
    }
    IdentityOfRange(mem1, memory.mem, f.value, start, end);
    r, kernel := Ok(f.value), t'.kernel;
  }

  lemma BootKeeps(mem0: Mem, root: nat, mem: Mem, t: Tree, mem': Mem, t': Tree)
    requires root !in mem0 && Untouched(mem0, mem, {}) && t == EmptyTree(root) && Grown(mem, t, mem', t') && TreeOk(mem', t')
    ensures Untouched(mem0, mem', {}) && KernelInv(mem', t'.kernel) && t'.kernel.root == root
  {
    hide KernelInv;
  }
}

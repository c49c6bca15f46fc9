/**
 * The three edits a user page table is built from -- adopting a fresh table
 * below an entry, raising an entry's flags, and writing a last-level entry --
 * and what each does to the structure and to every translation.
 */
module PageEdits {
  import opened Basics
  import opened PageTables

  /** `mem'` is `mem` on the given frames. */
  ghost predicate Agree(mem: Mem, mem': Mem, frames: set<nat>) {
    forall f :: f in frames && f in mem ==> f in mem' && mem'[f] == mem[f]
  }

  ghost function Adopted(t: User, f: nat, i: nat, g: nat): User
    requires f in t.level && t.level[f] >= 1
  {
    t.(owned := t.owned + [g], level := t.level[g := t.level[f] - 1], up := t.up[g := (f, i)])
  }

  /**
   * Entry `i` of own table `f` now leads to the fresh table `g`, which is empty
   * when the entry led nowhere and a copy of the kernel table it led to otherwise.
   */
  ghost predicate Adopts(mem: Mem, k: Kernel, t: User, f: nat, i: nat, g: nat, mem': Mem) {
    && f in t.level && t.level[f] >= 2 && IsTable(mem, f) && i < TABLE_LEN
    && g !in mem && IsTable(mem', g) && IsTable(mem', f)
    && mem'.Keys == mem.Keys + {g}
    && Agree(mem, mem', mem.Keys - {f})
    && (forall j :: 0 <= j < TABLE_LEN && j != i ==> mem'[f][j] == mem[f][j])
    && (var e, e' := mem[f][i], mem'[f][i];
        && Follows(e') && e'.us && e'.addr == g && (e.p && e.rw ==> e'.rw)
        && (if e.p then e.addr in k.level && IsTable(mem, e.addr) && mem'[g] == mem[e.addr]
            else forall j :: 0 <= j < TABLE_LEN ==> mem'[g][j] == ZERO))
  }

  // ----- walks only depend on the tables they meet

  /** The kernel's tables and translations survive any change outside its frames. */
  lemma KernelFrame(mem: Mem, mem': Mem, k: Kernel)
    requires KernelInv(mem, k) && Agree(mem, mem', k.level.Keys)
    ensures KernelInv(mem', k)
    ensures forall v: nat :: Leaf(mem', k.root, v) == Leaf(mem, k.root, v)
  {
  }

  lemma {:induction false} KernelWalkFrame(mem: Mem, mem': Mem, k: Kernel, v: nat, l: nat)
    requires KernelInv(mem, k) && Agree(mem, mem', k.level.Keys) && 1 <= l <= 4
    ensures Reach(mem', k.root, v, l) == Reach(mem, k.root, v, l)
    decreases 4 - l
  {
    hide KernelInv, Index;
    if l < 4 {
      KernelWalkFrame(mem, mem', k, v, l + 1);
      if Reach(mem, k.root, v, l + 1).Some? {
        KernelReach(mem, k, v, l + 1);
      }
    }
  }

  /** Sharing survives when kernel walks stay and own walks change only to leave the kernel's tables. */
  lemma SharedStays(mem: Mem, mem': Mem, k: Kernel, t: User, t': User)
    requires KernelInv(mem, k) && SharedInv(mem, k, t) && t'.root == t.root && Agree(mem, mem', k.level.Keys)
    requires forall v: nat, l :: 1 <= l <= 4 && Reach(mem', t.root, v, l).Some? && Reach(mem', t.root, v, l).value in k.level ==>
               Reach(mem', t.root, v, l) == Reach(mem, t.root, v, l)
    ensures SharedInv(mem', k, t')
  {
    hide KernelInv, Reach;
    forall v: nat, l | 1 <= l <= 4
      ensures SharedAt(mem', k, t', v, l)
    {
      assert SharedAt(mem, k, t, v, l);
      KernelWalkFrame(mem, mem', k, v, l);
    }
  }

  /** Walks that allowed writing still do. */
  ghost predicate WritesKept(mem: Mem, mem': Mem, root: nat) {
    forall v: nat :: PathWrites(mem, root, v) ==> PathWrites(mem', root, v)
  }

  lemma KernelPathFrame(mem: Mem, mem': Mem, k: Kernel, v: nat)
    requires KernelInv(mem, k) && Agree(mem, mem', k.level.Keys)
    ensures PathWrites(mem', k.root, v) <==> PathWrites(mem, k.root, v)
  {
    hide KernelInv, Reach, Index;
    forall l | 2 <= l <= 4
      ensures WritesAt(mem', k.root, v, l) <==> WritesAt(mem, k.root, v, l)
    {
      KernelWalkFrame(mem, mem', k, v, l);
      if Reach(mem, k.root, v, l).Some? {
        KernelReach(mem, k, v, l);
      }
    }
  }

  /** Where writing is allowed stays so when walks keep their write bits and nothing new is chosen for writing. */
  lemma WriteInvStays(mem: Mem, mem': Mem, k: Kernel, t: User, t': User)
    requires KernelInv(mem, k) && WriteInv(mem, k, t) && t'.root == t.root && Agree(mem, mem', k.level.Keys)
    requires WritesKept(mem, mem', t.root)
    requires forall v :: 0 <= v < PAGE_COUNT && ChosenForWriting(t', v) ==> ChosenForWriting(t, v) || PathWrites(mem', t.root, v)
    ensures WriteInv(mem', k, t')
  {
    hide KernelInv, PathWrites, ChosenForWriting, Agree;
    forall v | 0 <= v < PAGE_COUNT && (PathWrites(mem', k.root, v) || ChosenForWriting(t', v))
      ensures PathWrites(mem', t'.root, v)
    {
      KernelPathFrame(mem, mem', k, v);
    }
  }

  lemma UserTablesInMem(mem: Mem, k: Kernel, t: User)
    requires TreeInv(mem, k, t)
    ensures forall f :: f in t.level ==> IsTable(mem, f) && f !in k.level
  {
  }

  // ----- adopting a table

  ghost predicate Passes(mem: Mem, t: User, v: nat, f: nat, i: nat)
    requires f in t.level && 2 <= t.level[f] <= 4
  {
    Reach(mem, t.root, v, t.level[f]) == Some(f) && Index(v, t.level[f]) == i
  }

  lemma {:induction false} AdoptReach(mem: Mem, k: Kernel, t: User, f: nat, i: nat, g: nat, mem': Mem, v: nat, l: nat)
    requires KernelInv(mem, k) && TreeInv(mem, k, t) && Adopts(mem, k, t, f, i, g, mem') && 1 <= l <= 4
    requires f in t.level && 2 <= t.level[f] <= 4 && i < TABLE_LEN
    ensures Reach(mem', t.root, v, l) ==
            if Passes(mem, t, v, f, i) && l == t.level[f] - 1 then Some(g) else Reach(mem, t.root, v, l)
    decreases 4 - l
  {
    hide KernelInv, TreeInv, Index, Adopts, Passes;
    if l < 4 {
      AdoptReach(mem, k, t, f, i, g, mem', v, l + 1);
      if Reach(mem, t.root, v, l + 1).Some? {
        UserReach(mem, k, t, v, l + 1);
      }
      EntryFollows(mem, k, t, f, i);
      hide Reach;
      AdoptStep(mem, k, t, f, i, g, mem', v, l);
    }
  }

  lemma EntryFollows(mem: Mem, k: Kernel, t: User, f: nat, i: nat)
    requires TreeInv(mem, k, t) && f in t.level && t.level[f] >= 2 && i < TABLE_LEN
    ensures IsTable(mem, f) && f !in k.level
    ensures ChildOk(mem[f][i], Levels(k, t), t.level[f] - 1)
  {
  }

  /** One level of the walk after the adoption, given the level above. */
  lemma AdoptStep(mem: Mem, k: Kernel, t: User, f: nat, i: nat, g: nat, mem': Mem, v: nat, l: nat)
    requires Adopts(mem, k, t, f, i, g, mem') && 1 <= l < 4 && t.level[f] <= 4 && f !in k.level
    requires mem[f][i].p ==> !mem[f][i].ps
    requires var up := Reach(mem, t.root, v, l + 1);
             && (up.Some? ==> up.value in Levels(k, t) && Levels(k, t)[up.value] == l + 1 && IsTable(mem, up.value))
             && Reach(mem', t.root, v, l + 1) ==
                if Passes(mem, t, v, f, i) && l + 1 == t.level[f] - 1 then Some(g) else up
    ensures Reach(mem', t.root, v, l) ==
            if Passes(mem, t, v, f, i) && l == t.level[f] - 1 then Some(g) else Reach(mem, t.root, v, l)
  {
    hide Index;
    var up, up' := Reach(mem, t.root, v, l + 1), Reach(mem', t.root, v, l + 1);
    ReachUnrolled(mem, t.root, v);
    if Passes(mem, t, v, f, i) && l + 1 == t.level[f] - 1 {
      assert up == if mem[f][i].p then Some(mem[f][i].addr) else None;
      assert Reach(mem', t.root, v, l) == Reach(mem, t.root, v, l);
    } else if up.Some? && up.value != f {
      assert mem'[up.value] == mem[up.value];
      assert Reach(mem', t.root, v, l) == Reach(mem, t.root, v, l);
    } else if up.Some? {
      assert l + 1 == t.level[f];
      assert Index(v, l + 1) != i ==> mem'[f][Index(v, l + 1)] == mem[f][Index(v, l + 1)];
    }
  }

  lemma AdoptLeaf(mem: Mem, k: Kernel, t: User, f: nat, i: nat, g: nat, mem': Mem, v: nat)
    requires KernelInv(mem, k) && TreeInv(mem, k, t) && Adopts(mem, k, t, f, i, g, mem')
    ensures Leaf(mem', t.root, v) == Leaf(mem, t.root, v)
    ensures Reach(mem, t.root, v, 1).Some? ==> Reach(mem', t.root, v, 1) == Reach(mem, t.root, v, 1) || Reach(mem', t.root, v, 1) == Some(g)
  {
    hide KernelInv, TreeInv, Index;
    LevelBounds(mem, k, t, f);
    EntryFollows(mem, k, t, f, i);
    UserTablesInMem(mem, k, t);
    AdoptReach(mem, k, t, f, i, g, mem', v, 1);
    var r := Reach(mem, t.root, v, 1);
    if r.Some? {
      UserReach(mem, k, t, v, 1);
    }
    ReachUnrolled(mem, t.root, v);
  }

  lemma LevelBounds(mem: Mem, k: Kernel, t: User, f: nat)
    requires TreeInv(mem, k, t) && f in t.level
    ensures 1 <= t.level[f] <= 4 && f !in k.level && IsTable(mem, f)
  {
  }

  lemma FreshFrame(mem: Mem, k: Kernel, t: User, g: nat)
    requires KernelInv(mem, k) && TreeInv(mem, k, t) && g !in mem
    ensures g !in k.level && g !in t.level
  {
  }

  lemma AdoptFrames(k: Kernel, t: User, f: nat, i: nat, g: nat)
    requires FramesInv(k, t) && f in t.level && t.level[f] >= 2 && t.level[f] <= 4
    requires g !in k.level && g !in t.level
    ensures FramesInv(k, Adopted(t, f, i, g))
  {
  }

  ghost predicate Extends(level: map<nat, nat>, level': map<nat, nat>) {
    forall f :: f in level ==> f in level' && level'[f] == level[f]
  }

  lemma TableOkGrows(mem: Mem, mem': Mem, level: map<nat, nat>, level': map<nat, nat>, f: nat)
    requires TableOk(mem, level, f) && Extends(level, level') && f in mem' && mem'[f] == mem[f]
    ensures TableOk(mem', level', f)
  {
  }

  lemma AdoptedTableOk(mem: Mem, k: Kernel, t: User, f: nat, i: nat, g: nat, mem': Mem)
    requires KernelInv(mem, k) && Adopts(mem, k, t, f, i, g, mem') && t.level[f] <= 4
    requires mem[f][i].p ==> mem[f][i].addr in k.level && k.level[mem[f][i].addr] == t.level[f] - 1
    requires Extends(k.level, Levels(k, Adopted(t, f, i, g)))
    ensures TableOk(mem', Levels(k, Adopted(t, f, i, g)), g)
  {
  }

  lemma AdopterTableOk(mem: Mem, k: Kernel, t: User, f: nat, i: nat, g: nat, mem': Mem)
    requires Adopts(mem, k, t, f, i, g, mem') && TableOk(mem, Levels(k, t), f) && f != g
    requires Extends(Levels(k, t), Levels(k, Adopted(t, f, i, g)))
    ensures TableOk(mem', Levels(k, Adopted(t, f, i, g)), f)
  {
  }

  lemma AdoptStructured(mem: Mem, k: Kernel, t: User, f: nat, i: nat, g: nat, mem': Mem)
    requires KernelInv(mem, k) && TreeInv(mem, k, t) && Adopts(mem, k, t, f, i, g, mem')
    ensures Structured(mem', Adopted(t, f, i, g).level.Keys, Levels(k, Adopted(t, f, i, g)))
  {
    hide KernelInv, TreeInv, TableOk, Adopts;
    AdopterLevel(mem, k, t, f, i, g, mem');
    forall h | h in Adopted(t, f, i, g).level
      ensures TableOk(mem', Levels(k, Adopted(t, f, i, g)), h)
    {
      AdoptTableOk(mem, k, t, f, i, g, mem', h);
    }
  }

  lemma AdoptTableOk(mem: Mem, k: Kernel, t: User, f: nat, i: nat, g: nat, mem': Mem, h: nat)
    requires KernelInv(mem, k) && TreeInv(mem, k, t) && Adopts(mem, k, t, f, i, g, mem') && h in Adopted(t, f, i, g).level
    ensures TableOk(mem', Levels(k, Adopted(t, f, i, g)), h)
  {
    hide KernelInv, TreeInv, TableOk;
    var level, level' := Levels(k, t), Levels(k, Adopted(t, f, i, g));
    FreshFrame(mem, k, t, g);
    LevelBounds(mem, k, t, f);
    UserTablesInMem(mem, k, t);
    assert Extends(level, level') && Extends(k.level, level');
    if h == g {
      EntryFollows(mem, k, t, f, i);
      AdoptedTableOk(mem, k, t, f, i, g, mem');
    } else if h == f {
      TableOfTree(mem, k, t, f);
      AdopterTableOk(mem, k, t, f, i, g, mem');
    } else {
      TableOfTree(mem, k, t, h);
      TableOkGrows(mem, mem', level, level', h);
    }
  }

  lemma TableOfTree(mem: Mem, k: Kernel, t: User, h: nat)
    requires TreeInv(mem, k, t) && h in t.level
    ensures TableOk(mem, Levels(k, t), h)
  {
  }

  lemma AdoptOwners(mem: Mem, k: Kernel, t: User, f: nat, i: nat, g: nat, mem': Mem)
    requires KernelInv(mem, k) && TreeInv(mem, k, t) && Adopts(mem, k, t, f, i, g, mem')
    ensures OwnersInv(mem', Adopted(t, f, i, g))
  {
    hide KernelInv, TreeInv, Referred, Recorded, Adopts;
    AdopterLevel(mem, k, t, f, i, g, mem');
    FreshFrame(mem, k, t, g);
    var t' := Adopted(t, f, i, g);
    forall h | h in t'.owned
      ensures Referred(mem', t', h)
    {
      AdoptReference(mem, k, t, f, i, g, mem', h);
    }
    forall h, j | h in t'.level && t'.level[h] >= 2 && IsTable(mem', h) && 0 <= j < TABLE_LEN
      ensures Recorded(mem', t', h, j)
    {
      AdoptRecorded(mem, k, t, f, i, g, mem', h, j);
    }
  }

  lemma AdopterLevel(mem: Mem, k: Kernel, t: User, f: nat, i: nat, g: nat, mem': Mem)
    requires Adopts(mem, k, t, f, i, g, mem')
    ensures f in t.level && t.level[f] >= 2 && g !in mem
  {
  }

  lemma AdoptReference(mem: Mem, k: Kernel, t: User, f: nat, i: nat, g: nat, mem': Mem, h: nat)
    requires TreeInv(mem, k, t) && Adopts(mem, k, t, f, i, g, mem')
    requires g !in t.level && h in Adopted(t, f, i, g).owned
    ensures Referred(mem', Adopted(t, f, i, g), h)
  {
    hide TreeInv, FramesInv;
    if h != g {
      OwnedReference(mem, k, t, h);
      TreeFrames(mem, k, t);
      KernelOwnedApart(k, t);
      var up := t.up[h];
      assert !(up.0 == f && up.1 == i);
      assert mem'[up.0][up.1] == mem[up.0][up.1];
    }
  }

  lemma OwnedReference(mem: Mem, k: Kernel, t: User, h: nat)
    requires TreeInv(mem, k, t) && h in t.owned
    ensures Referred(mem, t, h)
  {
  }

  lemma TreeFrames(mem: Mem, k: Kernel, t: User)
    requires TreeInv(mem, k, t)
    ensures FramesInv(k, t)
  {
  }

  lemma KernelOwnedApart(k: Kernel, t: User)
    requires FramesInv(k, t)
    ensures forall h :: h in t.owned ==> h in t.level && h !in k.level
  {
  }

  lemma AdoptRecorded(mem: Mem, k: Kernel, t: User, f: nat, i: nat, g: nat, mem': Mem, h: nat, j: nat)
    requires KernelInv(mem, k) && TreeInv(mem, k, t) && Adopts(mem, k, t, f, i, g, mem') && g !in t.level && g !in k.level
    requires h in Adopted(t, f, i, g).level && Adopted(t, f, i, g).level[h] >= 2 && IsTable(mem', h) && 0 <= j < TABLE_LEN
    ensures Recorded(mem', Adopted(t, f, i, g), h, j)
  {
    hide TreeInv, KernelInv, FramesInv, RefersTo;
    TreeFrames(mem, k, t);
    KernelOwnedApart(k, t);
    if h == g {
      KernelClosed(mem, k);
      if mem[f][i].p {
        AdoptedChild(mem, k, t, f, i);
      }
    } else if h != f || j != i {
      UserTablesInMem(mem, k, t);
      EntriesAway(mem, k, t, g);
      assert mem'[h][j] == mem[h][j];
      EntryRecorded(mem, k, t, h, j);
    }
  }

  lemma AdoptedChild(mem: Mem, k: Kernel, t: User, f: nat, i: nat)
    requires TreeInv(mem, k, t) && f in t.level && t.level[f] >= 2 && i < TABLE_LEN
    requires IsTable(mem, f) && mem[f][i].p && mem[f][i].addr in k.level
    ensures k.level[mem[f][i].addr] == t.level[f] - 1
  {
    EntryFollows(mem, k, t, f, i);
    TreeFrames(mem, k, t);
    hide TreeInv;
  }

  lemma EntryRecorded(mem: Mem, k: Kernel, t: User, h: nat, j: nat)
    requires TreeInv(mem, k, t) && h in t.level && t.level[h] >= 2 && IsTable(mem, h) && 0 <= j < TABLE_LEN
    ensures Recorded(mem, t, h, j)
  {
  }

  /** No entry of the kernel's or the user's upper tables leads to a frame that is not yet a table. */
  lemma EntriesAway(mem: Mem, k: Kernel, t: User, g: nat)
    requires KernelInv(mem, k) && TreeInv(mem, k, t) && g !in mem
    ensures forall f, i :: f in t.level && t.level[f] >= 2 && IsTable(mem, f) && 0 <= i < TABLE_LEN && mem[f][i].p ==> mem[f][i].addr != g
  {
  }

  lemma AdoptShared(mem: Mem, k: Kernel, t: User, f: nat, i: nat, g: nat, mem': Mem)
    requires Inv(mem, k, t) && Adopts(mem, k, t, f, i, g, mem')
    ensures SharedInv(mem', k, Adopted(t, f, i, g))
  {
    hide KernelInv, TreeInv, PagesInv, SharedInv, WriteInv, Reach, Passes;
    FreshFrame(mem, k, t, g);
    LevelBounds(mem, k, t, f);
    forall v: nat, l | 1 <= l <= 4 && Reach(mem', t.root, v, l).Some? && Reach(mem', t.root, v, l).value in k.level
      ensures Reach(mem', t.root, v, l) == Reach(mem, t.root, v, l)
    {
      AdoptReach(mem, k, t, f, i, g, mem', v, l);
    }
    SharedStays(mem, mem', k, t, Adopted(t, f, i, g));
  }

  lemma AdoptWritesAt(mem: Mem, k: Kernel, t: User, f: nat, i: nat, g: nat, mem': Mem, v: nat, l: nat)
    requires KernelInv(mem, k) && TreeInv(mem, k, t) && Adopts(mem, k, t, f, i, g, mem') && 2 <= l <= 4
    requires PathWrites(mem, t.root, v)
    ensures WritesAt(mem', t.root, v, l)
  {
    hide KernelInv, TreeInv, Index;
    LevelBounds(mem, k, t, f);
    AdoptReach(mem, k, t, f, i, g, mem', v, l);
    assert WritesAt(mem, t.root, v, l);
    var h := Reach(mem, t.root, v, l).value;
    if Passes(mem, t, v, f, i) && l == t.level[f] - 1 {
      assert WritesAt(mem, t.root, v, l + 1);
      ReachUnrolled(mem, t.root, v);
      assert mem'[g] == mem[h];
    } else if h != f {
      assert mem'[h] == mem[h];
    } else {
      UserReach(mem, k, t, v, l);
      UserTablesInMem(mem, k, t);
    }
    hide Reach;
  }

  lemma AdoptWrites(mem: Mem, k: Kernel, t: User, f: nat, i: nat, g: nat, mem': Mem)
    requires Inv(mem, k, t) && Adopts(mem, k, t, f, i, g, mem')
    ensures WriteInv(mem', k, Adopted(t, f, i, g))
  {
    hide KernelInv, TreeInv, PagesInv, SharedInv, WriteInv, WritesAt;
    FreshFrame(mem, k, t, g);
    LevelBounds(mem, k, t, f);
    forall v: nat, l | 2 <= l <= 4 && PathWrites(mem, t.root, v)
      ensures WritesAt(mem', t.root, v, l)
    {
      AdoptWritesAt(mem, k, t, f, i, g, mem', v, l);
    }
    WriteInvStays(mem, mem', k, t, Adopted(t, f, i, g));
  }

  /** Copying a kernel table, or adding an empty one, changes no translation and keeps the invariant. */
  lemma AdoptKeepsInv(mem: Mem, k: Kernel, t: User, f: nat, i: nat, g: nat, mem': Mem)
    requires Inv(mem, k, t) && Adopts(mem, k, t, f, i, g, mem')
    ensures Inv(mem', k, Adopted(t, f, i, g))
    ensures forall v: nat :: Leaf(mem', t.root, v) == Leaf(mem, t.root, v)
    ensures forall v: nat :: Leaf(mem', k.root, v) == Leaf(mem, k.root, v)
  {
    hide KernelInv, Structured, FramesInv, OwnersInv, SharedInv, WriteInv, Reach, Index, Leaf;
    var t' := Adopted(t, f, i, g);
    FreshFrame(mem, k, t, g);
    LevelBounds(mem, k, t, f);
    AdoptFrames(k, t, f, i, g);
    AdoptStructured(mem, k, t, f, i, g, mem');
    AdoptOwners(mem, k, t, f, i, g, mem');
    KernelFrame(mem, mem', k);
    AdoptShared(mem, k, t, f, i, g, mem');
    AdoptWrites(mem, k, t, f, i, g, mem');
    forall v: nat
      ensures Leaf(mem', t.root, v) == Leaf(mem, t.root, v)
      ensures v < PAGE_COUNT ==> PageInv(mem', k, t', v)
    {
      AdoptLeaf(mem, k, t, f, i, g, mem', v);
      assert v < PAGE_COUNT ==> PageInv(mem, k, t, v);
    }
  }

  // ----- writing an entry in place

  ghost predicate Writes(mem: Mem, f: nat, i: nat, e: Entry, mem': Mem) {
    IsTable(mem, f) && i < TABLE_LEN && mem' == mem[f := mem[f][i := e]]
  }

  /** The write is to a last-level table, or only changes flags and never clears the user or the write bit. */
  ghost predicate Harmless(mem: Mem, t: User, f: nat, i: nat, e: Entry)
    requires IsTable(mem, f) && i < TABLE_LEN
  {
    && f in t.level
    && (t.level[f] == 1 ||
        (e.p == mem[f][i].p && e.ps == mem[f][i].ps && e.addr == mem[f][i].addr
         && (mem[f][i].us ==> e.us) && (mem[f][i].rw ==> e.rw)))
  }

  lemma WriteTree(mem: Mem, k: Kernel, t: User, f: nat, i: nat, e: Entry, mem': Mem)
    requires KernelInv(mem, k) && TreeInv(mem, k, t) && Writes(mem, f, i, e, mem') && Harmless(mem, t, f, i, e)
    ensures TreeInv(mem', k, t)
  {
    WriteStructured(mem, k, t, f, i, e, mem');
    UserTablesInMem(mem, k, t);
    WriteOwners(mem, k, t, f, i, e, mem');
    hide Structured, OwnersInv;
  }

  lemma WriteStructured(mem: Mem, k: Kernel, t: User, f: nat, i: nat, e: Entry, mem': Mem)
    requires KernelInv(mem, k) && TreeInv(mem, k, t) && Writes(mem, f, i, e, mem') && Harmless(mem, t, f, i, e)
    ensures Structured(mem', t.level.Keys, Levels(k, t))
  {
    hide KernelInv, OwnersInv;
    KernelLevelsApart(k, t);
    forall h | h in t.level
      ensures TableOk(mem', Levels(k, t), h)
    {
      assert TableOk(mem, Levels(k, t), h);
      hide TreeInv, Levels;
      WriteTableOk(mem, Levels(k, t), f, i, e, mem', h);
    }
  }

  lemma WriteTableOk(mem: Mem, level: map<nat, nat>, f: nat, i: nat, e: Entry, mem': Mem, h: nat)
    requires Writes(mem, f, i, e, mem') && TableOk(mem, level, h)
    requires f in level && (level[f] == 1 || (e.p == mem[f][i].p && e.ps == mem[f][i].ps && e.addr == mem[f][i].addr))
    ensures TableOk(mem', level, h)
  {
    if h == f && level[f] >= 2 {
      forall j | 0 <= j < TABLE_LEN
        ensures ChildOk(mem'[f][j], level, level[f] - 1)
      {
        assert ChildOk(mem[f][j], level, level[f] - 1);
      }
    }
  }

  lemma KernelLevelsApart(k: Kernel, t: User)
    requires FramesInv(k, t)
    ensures forall f :: f in t.level ==> Levels(k, t)[f] == t.level[f] && f !in k.level
  {
  }

  lemma WriteOwners(mem: Mem, k: Kernel, t: User, f: nat, i: nat, e: Entry, mem': Mem)
    requires KernelInv(mem, k) && TreeInv(mem, k, t) && Writes(mem, f, i, e, mem') && Harmless(mem, t, f, i, e)
    ensures OwnersInv(mem', t)
  {
    hide KernelInv, TreeInv, Referred, Recorded;
    LevelPositive(mem, k, t);
    forall g | g in t.owned
      ensures Referred(mem', t, g)
    {
      OwnedReference(mem, k, t, g);
      WriteKeepsReference(mem, t, f, i, e, mem', g);
    }
    forall h, j | h in t.level && t.level[h] >= 2 && IsTable(mem', h) && 0 <= j < TABLE_LEN
      ensures Recorded(mem', t, h, j)
    {
      EntryRecorded(mem, k, t, h, j);
      WriteKeepsRecorded(mem, t, f, i, e, mem', h, j);
    }
  }

  lemma WriteKeepsReference(mem: Mem, t: User, f: nat, i: nat, e: Entry, mem': Mem, g: nat)
    requires Writes(mem, f, i, e, mem') && Harmless(mem, t, f, i, e)
    requires Referred(mem, t, g) && t.level[g] >= 1
    ensures Referred(mem', t, g)
  {
  }

  lemma WriteKeepsRecorded(mem: Mem, t: User, f: nat, i: nat, e: Entry, mem': Mem, h: nat, j: nat)
    requires Writes(mem, f, i, e, mem') && Harmless(mem, t, f, i, e) && IsTable(mem, h) && 0 <= j < TABLE_LEN
    requires h in t.level && t.level[h] >= 2 && Recorded(mem, t, h, j)
    ensures IsTable(mem', h) && Recorded(mem', t, h, j)
  {
  }

  lemma LevelPositive(mem: Mem, k: Kernel, t: User)
    requires TreeInv(mem, k, t)
    ensures forall g :: g in t.owned ==> g in t.level && t.level[g] >= 1
  {
  }

  lemma {:induction false} WriteReach(mem: Mem, k: Kernel, t: User, f: nat, i: nat, e: Entry, mem': Mem, v: nat, l: nat)
    requires KernelInv(mem, k) && TreeInv(mem, k, t) && Writes(mem, f, i, e, mem') && Harmless(mem, t, f, i, e)
    requires 1 <= l <= 4
    ensures Reach(mem', t.root, v, l) == Reach(mem, t.root, v, l)
    decreases 4 - l
  {
    hide KernelInv, TreeInv, Index;
    if l < 4 {
      WriteReach(mem, k, t, f, i, e, mem', v, l + 1);
      if Reach(mem, t.root, v, l + 1).Some? {
        UserReach(mem, k, t, v, l + 1);
        LevelBounds(mem, k, t, f);
      }
    }
  }

  lemma WriteKernel(mem: Mem, k: Kernel, t: User, f: nat, i: nat, e: Entry, mem': Mem)
    requires KernelInv(mem, k) && TreeInv(mem, k, t) && Writes(mem, f, i, e, mem') && Harmless(mem, t, f, i, e)
    ensures KernelInv(mem', k)
    ensures forall v: nat :: Leaf(mem', k.root, v) == Leaf(mem, k.root, v)
  {
    LevelBounds(mem, k, t, f);
    hide KernelInv, TreeInv;
    KernelFrame(mem, mem', k);
  }

  lemma WriteShared(mem: Mem, k: Kernel, t: User, f: nat, i: nat, e: Entry, mem': Mem, t': User)
    requires KernelInv(mem, k) && TreeInv(mem, k, t) && SharedInv(mem, k, t) && t'.root == t.root
    requires Writes(mem, f, i, e, mem') && Harmless(mem, t, f, i, e)
    ensures SharedInv(mem', k, t')
  {
    hide KernelInv, TreeInv, SharedInv, Reach;
    LevelBounds(mem, k, t, f);
    forall v: nat, l | 1 <= l <= 4
      ensures Reach(mem', t.root, v, l) == Reach(mem, t.root, v, l)
    {
      WriteReach(mem, k, t, f, i, e, mem', v, l);
    }
    SharedStays(mem, mem', k, t, t');
  }

  lemma WriteWritesAt(mem: Mem, k: Kernel, t: User, f: nat, i: nat, e: Entry, mem': Mem, v: nat, l: nat)
    requires KernelInv(mem, k) && TreeInv(mem, k, t) && Writes(mem, f, i, e, mem') && Harmless(mem, t, f, i, e)
    requires 2 <= l <= 4 && WritesAt(mem, t.root, v, l)
    ensures WritesAt(mem', t.root, v, l)
  {
    hide KernelInv, TreeInv, Index, Reach;
    WriteReach(mem, k, t, f, i, e, mem', v, l);
    UserReach(mem, k, t, v, l);
    LevelBounds(mem, k, t, f);
  }

  lemma WriteKeepsWrites(mem: Mem, k: Kernel, t: User, f: nat, i: nat, e: Entry, mem': Mem)
    requires KernelInv(mem, k) && TreeInv(mem, k, t) && Writes(mem, f, i, e, mem') && Harmless(mem, t, f, i, e)
    ensures WritesKept(mem, mem', t.root)
  {
    hide KernelInv, TreeInv, Writes, Harmless, WritesAt;
    forall v: nat, l | 2 <= l <= 4 && PathWrites(mem, t.root, v)
      ensures WritesAt(mem', t.root, v, l)
    {
      assert WritesAt(mem, t.root, v, l);
      WriteWritesAt(mem, k, t, f, i, e, mem', v, l);
    }
  }

  /** Where writing is allowed survives a harmless write, and a page newly chosen for writing must have its way down. */
  lemma WriteAllowed(mem: Mem, k: Kernel, t: User, f: nat, i: nat, e: Entry, mem': Mem, t': User)
    requires KernelInv(mem, k) && TreeInv(mem, k, t) && WriteInv(mem, k, t) && t'.root == t.root
    requires Writes(mem, f, i, e, mem') && Harmless(mem, t, f, i, e)
    requires forall v :: 0 <= v < PAGE_COUNT && ChosenForWriting(t', v) ==> ChosenForWriting(t, v) || PathWrites(mem, t.root, v)
    ensures WriteInv(mem', k, t')
  {
    hide KernelInv, TreeInv, WriteInv, PathWrites, ChosenForWriting;
    LevelBounds(mem, k, t, f);
    WriteKeepsWrites(mem, k, t, f, i, e, mem');
    WriteInvStays(mem, mem', k, t, t');
  }

  /** Changing flags above the last level changes no translation. */
  lemma RaiseKeepsInv(mem: Mem, k: Kernel, t: User, f: nat, i: nat, e: Entry, mem': Mem)
    requires Inv(mem, k, t) && Writes(mem, f, i, e, mem') && Harmless(mem, t, f, i, e) && t.level[f] >= 2
    ensures Inv(mem', k, t)
    ensures forall v: nat :: Leaf(mem', t.root, v) == Leaf(mem, t.root, v)
    ensures forall v: nat :: Leaf(mem', k.root, v) == Leaf(mem, k.root, v)
  {
    hide KernelInv, TreeInv, SharedInv, WriteInv, Index;
    WriteTree(mem, k, t, f, i, e, mem');
    WriteKernel(mem, k, t, f, i, e, mem');
    WriteShared(mem, k, t, f, i, e, mem', t);
    WriteAllowed(mem, k, t, f, i, e, mem', t);
    LevelBounds(mem, k, t, f);
    forall v: nat
      ensures Leaf(mem', t.root, v) == Leaf(mem, t.root, v)
      ensures Reach(mem', t.root, v, 1) == Reach(mem, t.root, v, 1)
    {
      WriteReach(mem, k, t, f, i, e, mem', v, 1);
      if Reach(mem, t.root, v, 1).Some? {
        UserReach(mem, k, t, v, 1);
      }
      hide Reach;
    }
    PagesCarryOver(mem, mem', k, t);
  }

  lemma PagesCarryOver(mem: Mem, mem': Mem, k: Kernel, t: User)
    requires PagesInv(mem, k, t)
    requires forall v: nat :: Leaf(mem', t.root, v) == Leaf(mem, t.root, v) && Reach(mem', t.root, v, 1) == Reach(mem, t.root, v, 1)
    requires forall v: nat :: Leaf(mem', k.root, v) == Leaf(mem, k.root, v)
    ensures PagesInv(mem', k, t)
  {
    hide Leaf, Reach;
    forall v | 0 <= v < PAGE_COUNT
      ensures PageInv(mem', k, t, v)
    {
      assert PageInv(mem, k, t, v);
    }
  }

  ghost function Overridden(t: User, v: nat, e: Entry): User {
    t.(over := t.over[v := if e.p then Some(Mapping(e.addr, FlagsOf(e))) else None])
  }

  /** Writing the last-level entry of page `v` changes the translation of `v` and of no other page. */
  lemma LeafWrite(mem: Mem, k: Kernel, t: User, v: nat, f: nat, e: Entry, mem': Mem)
    requires Inv(mem, k, t) && v < PAGE_COUNT && f in t.owned && Reach(mem, t.root, v, 1) == Some(f)
    requires Writes(mem, f, Index(v, 1), e, mem') && (e.us <==> e.p) && (e.p && e.rw ==> PathWrites(mem, t.root, v))
    ensures Inv(mem', k, Overridden(t, v, e))
    ensures Leaf(mem', t.root, v) == if e.p then Some(e) else None
    ensures forall w :: 0 <= w < PAGE_COUNT && w != v ==> Leaf(mem', t.root, w) == Leaf(mem, t.root, w)
    ensures forall w: nat :: Leaf(mem', k.root, w) == Leaf(mem, k.root, w)
  {
    hide KernelInv, TreeInv, SharedInv, WriteInv, PathWrites;
    LeafTableLevel(mem, k, t, v, f);
    WriteTree(mem, k, t, f, Index(v, 1), e, mem');
    WriteKernel(mem, k, t, f, Index(v, 1), e, mem');
    WriteShared(mem, k, t, f, Index(v, 1), e, mem', Overridden(t, v, e));
    WriteAllowed(mem, k, t, f, Index(v, 1), e, mem', Overridden(t, v, e));
    forall w | 0 <= w < PAGE_COUNT
      ensures Leaf(mem', t.root, w) == if w != v then Leaf(mem, t.root, w) else if e.p then Some(e) else None
      ensures Reach(mem', t.root, w, 1) == Reach(mem, t.root, w, 1)
    {
      LeafWriteAt(mem, k, t, v, f, e, mem', w);
    }
    LeafPages(mem, mem', k, t, v, f, e);
    TreeIgnoresOver(mem', k, t, Overridden(t, v, e));
  }

  lemma LeafTableLevel(mem: Mem, k: Kernel, t: User, v: nat, f: nat)
    requires KernelInv(mem, k) && TreeInv(mem, k, t) && f in t.owned && Reach(mem, t.root, v, 1) == Some(f)
    ensures f in t.level && t.level[f] == 1 && IsTable(mem, f)
  {
    UserReach(mem, k, t, v, 1);
    KernelLevelsApart(k, t);
    KernelOwnedApart(k, t);
  }

  lemma LeafWriteAt(mem: Mem, k: Kernel, t: User, v: nat, f: nat, e: Entry, mem': Mem, w: nat)
    requires KernelInv(mem, k) && TreeInv(mem, k, t) && v < PAGE_COUNT && w < PAGE_COUNT
    requires f in t.level && t.level[f] == 1 && Reach(mem, t.root, v, 1) == Some(f)
    requires Writes(mem, f, Index(v, 1), e, mem')
    ensures Reach(mem', t.root, w, 1) == Reach(mem, t.root, w, 1)
    ensures Leaf(mem', t.root, w) == if w != v then Leaf(mem, t.root, w) else if e.p then Some(e) else None
  {
    hide KernelInv, TreeInv, Index, Reach;
    WriteReach(mem, k, t, f, Index(v, 1), e, mem', w, 1);
    if Reach(mem, t.root, w, 1) == Some(f) && Index(w, 1) == Index(v, 1) {
      SameTableSameIndices(mem, k, t, v, w, 1);
      IndicesIdentifyPage(v, w);
    }
  }

  lemma LeafPages(mem: Mem, mem': Mem, k: Kernel, t: User, v: nat, f: nat, e: Entry)
    requires PagesInv(mem, k, t) && v < PAGE_COUNT && f in t.owned && Reach(mem, t.root, v, 1) == Some(f)
    requires e.us <==> e.p
    requires forall w :: 0 <= w < PAGE_COUNT ==>
      && Leaf(mem', t.root, w) == (if w != v then Leaf(mem, t.root, w) else if e.p then Some(e) else None)
      && Reach(mem', t.root, w, 1) == Reach(mem, t.root, w, 1)
    requires forall w: nat :: Leaf(mem', k.root, w) == Leaf(mem, k.root, w)
    ensures PagesInv(mem', k, Overridden(t, v, e))
  {
    hide Leaf, Reach;
    forall w | 0 <= w < PAGE_COUNT
      ensures PageInv(mem', k, Overridden(t, v, e), w)
    {
      assert PageInv(mem, k, t, w);
    }
  }

  lemma TreeIgnoresOver(mem: Mem, k: Kernel, t: User, t': User)
    requires TreeInv(mem, k, t) && t' == t.(over := t'.over)
    ensures TreeInv(mem, k, t')
  {
    assert FramesInv(k, t') && Levels(k, t') == Levels(k, t);
    hide FramesInv, Structured, RefersTo;
    forall g | g in t.owned
      ensures Referred(mem, t', g)
    {
      assert Referred(mem, t, g);
      RefersSame(mem, t, t', t.up[g].0, t.up[g].1, g);
    }
    forall f, i | f in t.level && t.level[f] >= 2 && IsTable(mem, f) && 0 <= i < TABLE_LEN
      ensures Recorded(mem, t', f, i)
    {
      assert Recorded(mem, t, f, i);
    }
  }

  lemma RefersSame(mem: Mem, t: User, t': User, f: nat, i: nat, g: nat)
    requires RefersTo(mem, t, f, i, g) && t'.level == t.level
    ensures RefersTo(mem, t', f, i, g)
  {
  }

  // ----- writing an entry of a kernel table in place

  /** A supervisor entry, in a last-level table or leading where the old one led. */
  ghost predicate Fits(mem: Mem, k: Kernel, f: nat, i: nat, e: Entry)
    requires IsTable(mem, f) && i < TABLE_LEN
  {
    && f in k.level && !e.us
    && (k.level[f] == 1 || (e.p == mem[f][i].p && e.ps == mem[f][i].ps && e.addr == mem[f][i].addr))
  }

  lemma FitsTableOk(mem: Mem, k: Kernel, f: nat, i: nat, e: Entry, mem': Mem, h: nat)
    requires Writes(mem, f, i, e, mem') && Fits(mem, k, f, i, e) && TableOk(mem, k.level, h)
    ensures TableOk(mem', k.level, h)
  {
    if h == f && k.level[f] >= 2 {
      forall j | 0 <= j < TABLE_LEN
        ensures ChildOk(mem'[f][j], k.level, k.level[f] - 1)
      {
        assert ChildOk(mem[f][j], k.level, k.level[f] - 1);
      }
    }
  }

  lemma KernelWriteKeeps(mem: Mem, k: Kernel, f: nat, i: nat, e: Entry, mem': Mem)
    requires KernelInv(mem, k) && Writes(mem, f, i, e, mem') && Fits(mem, k, f, i, e)
    ensures KernelInv(mem', k)
  {
    TablesPresent(mem, k);
    forall h | h in k.level
      ensures TableOk(mem', k.level, h)
    {
      FitsTableOk(mem, k, f, i, e, mem', h);
    }
    hide TableOk;
  }

  lemma TablesPresent(mem: Mem, k: Kernel)
    requires KernelInv(mem, k)
    ensures forall f :: f in k.level ==> IsTable(mem, f) && TableOk(mem, k.level, f)
    ensures k.root in k.level && k.level[k.root] == 4
    ensures forall f, i :: f in k.level && 0 <= i < TABLE_LEN ==> !mem[f][i].us
  {
  }

  lemma {:induction false} KernelWriteReach(mem: Mem, k: Kernel, f: nat, i: nat, e: Entry, mem': Mem, v: nat, l: nat)
    requires KernelInv(mem, k) && Writes(mem, f, i, e, mem') && Fits(mem, k, f, i, e) && 1 <= l <= 4
    ensures Reach(mem', k.root, v, l) == Reach(mem, k.root, v, l)
    decreases 4 - l
  {
    hide KernelInv, Index;
    if l < 4 {
      KernelWriteReach(mem, k, f, i, e, mem', v, l + 1);
      if Reach(mem, k.root, v, l + 1).Some? {
        KernelReach(mem, k, v, l + 1);
      }
    }
  }
}

/**
 * Four-level page tables in physical frames (kernel/src/arch/x86_64/paging.rs):
 * entries, the walk, and the structure that user tables keep while they share
 * and lazily copy the kernel's tables. A page is named by its number, the
 * virtual address divided by the page size.
 */
module PageTables {
  import opened Basics

  const PAGE_SIZE: nat := 4096
  const TABLE_LEN: nat := 512
  const ADDR_LIMIT: nat := 0x80_0000_0000
  const PAGE_COUNT: nat := 0x10_0000_0000

  /** The fields of an entry that the kernel reads or writes; `rest` is every other bit. */
  datatype Entry = Entry(p: bool, rw: bool, us: bool, pwt: bool, pcd: bool, ps: bool, addr: nat, rest: nat)

  const ZERO: Entry := Entry(false, false, false, false, false, false, 0, 0)

  datatype Flags = Flags(rw: bool, pwt: bool, pcd: bool)

  type Mem = map<nat, seq<Entry>>

  /** Bits 12 to 38, the address bits an entry keeps. */
  function MaskAddr(a: nat): nat { a % ADDR_LIMIT / PAGE_SIZE * PAGE_SIZE }

  predicate FrameAddr(a: nat) { a % PAGE_SIZE == 0 && a < ADDR_LIMIT }

  lemma MaskKeepsFrames(a: nat)
    requires FrameAddr(a)
    ensures MaskAddr(a) == a
  {
  }

  function SetEntry(e: Entry, addr: nat, user: bool, flags: Flags): Entry {
    e.(p := true, rw := flags.rw, us := user, pwt := flags.pwt, pcd := flags.pcd, addr := MaskAddr(addr))
  }

  function FlagsOf(e: Entry): Flags { Flags(e.rw, e.pwt, e.pcd) }

  /** Raises the write and user bits of an entry and never lowers them. */
  function Raise(e: Entry, flags: Flags): Entry {
    e.(rw := e.rw || flags.rw, us := true)
  }

  /** The index into the table of a level, 4 for the root. */
  function Index(v: nat, level: nat): (i: nat)
    requires 1 <= level <= 4
    ensures i < TABLE_LEN
  {
    if level == 1 then v % 512
    else if level == 2 then v / 512 % 512
    else if level == 3 then v / 262144 % 512
    else v / 134217728 % 512
  }

  /** The shift-and-mask indices of an address are those of its page number. */
  lemma IndexOfAddress(va: nat)
    ensures va / 0x80_0000_0000 % 512 == Index(va / PAGE_SIZE, 4)
    ensures va / 0x4000_0000 % 512 == Index(va / PAGE_SIZE, 3)
    ensures va / 0x20_0000 % 512 == Index(va / PAGE_SIZE, 2)
    ensures va / 0x1000 % 512 == Index(va / PAGE_SIZE, 1)
  {
  }

  /** Pages of the 48-bit space are told apart by their four indices. */
  lemma IndicesIdentifyPage(v: nat, w: nat)
    requires v < PAGE_COUNT && w < PAGE_COUNT
    requires forall l :: 1 <= l <= 4 ==> Index(v, l) == Index(w, l)
    ensures v == w
  {
    assert Index(v, 1) == Index(w, 1) && Index(v, 2) == Index(w, 2) && Index(v, 3) == Index(w, 3) && Index(v, 4) == Index(w, 4);
    PageFromIndices(v);
    PageFromIndices(w);
  }

  lemma PageFromIndices(v: nat)
    requires v < PAGE_COUNT
    ensures v == Index(v, 4) * 134217728 + Index(v, 3) * 262144 + Index(v, 2) * 512 + Index(v, 1)
  {
    assert v / 262144 == v / 512 / 512;
    assert v / 134217728 == v / 262144 / 512;
  }

  /** How many pages a loop from `start` in steps of one page visits before `end`. */
  function PageSteps(start: nat, end: nat): nat {
    if start < end then (end - start + PAGE_SIZE - 1) / PAGE_SIZE else 0
  }

  /** The frame that step `j` of such a loop maps to: the entry keeps the address bits only. */
  function PhysAt(phys: nat, j: nat): nat { MaskAddr(phys + j * PAGE_SIZE) }

  /** A page-aligned run of frames below the limit is kept as it is. */
  lemma PhysAtFrames(phys: nat, j: nat)
    requires phys % PAGE_SIZE == 0 && phys + j * PAGE_SIZE < ADDR_LIMIT
    ensures PhysAt(phys, j) == phys + j * PAGE_SIZE
  {
  }

  lemma PageOfRange(start: nat, end: nat, i: nat, done: nat)
    requires i < end <= PAGE_COUNT * PAGE_SIZE && i == start + done * PAGE_SIZE
    ensures i / PAGE_SIZE == start / PAGE_SIZE + done && i / PAGE_SIZE < PAGE_COUNT && done < PageSteps(start, end)
  {
  }

  lemma EndOfRange(start: nat, end: nat, i: nat, done: nat)
    requires i >= end && i == start + done * PAGE_SIZE && done <= PageSteps(start, end)
    ensures done == PageSteps(start, end)
  {
  }

  lemma AlignedSteps(start: nat, end: nat)
    requires start % PAGE_SIZE == 0 && end % PAGE_SIZE == 0
    ensures start / PAGE_SIZE + PageSteps(start, end) == NatMax(start / PAGE_SIZE, end / PAGE_SIZE)
  {
  }

  // ----- the walk

  predicate IsTable(mem: Mem, f: nat) { f in mem && |mem[f]| == TABLE_LEN }

  /** The table of level `l` that the walk of page `v` comes to. */
  ghost function Reach(mem: Mem, root: nat, v: nat, l: nat): Option<nat>
    requires 1 <= l <= 4
    decreases 4 - l
  {
    if l == 4 then Some(root)
    else
      var up := Reach(mem, root, v, l + 1);
      if up.Some? && IsTable(mem, up.value) && Follows(mem[up.value][Index(v, l + 1)])
      then Some(mem[up.value][Index(v, l + 1)].addr) else None
  }

  predicate Follows(e: Entry) { e.p && !e.ps }

  /** The last-level entry of page `v`, when the walk gets that far. */
  ghost function Leaf(mem: Mem, root: nat, v: nat): Option<Entry> {
    var f := Reach(mem, root, v, 1);
    if f.Some? && IsTable(mem, f.value) && mem[f.value][Index(v, 1)].p then Some(mem[f.value][Index(v, 1)]) else None
  }

  /** The frame a page translates to. */
  ghost function Frame(mem: Mem, root: nat, v: nat): Option<nat> {
    var e := Leaf(mem, root, v);
    if e.Some? then Some(e.value.addr) else None
  }

  /** The user bit is set at all four levels, so the processor lets user code in. */
  ghost predicate UserAccess(mem: Mem, root: nat, v: nat) {
    && Leaf(mem, root, v).Some? && Leaf(mem, root, v).value.us
    && forall l :: 2 <= l <= 4 ==>
         var f := Reach(mem, root, v, l);
         f.Some? && IsTable(mem, f.value) && mem[f.value][Index(v, l)].us
  }

  /** The entry of level `l` that the walk of page `v` meets leads on and has the write bit. */
  ghost predicate WritesAt(mem: Mem, root: nat, v: nat, l: nat)
    requires 1 <= l <= 4
  {
    var f := Reach(mem, root, v, l);
    f.Some? && IsTable(mem, f.value) && Follows(mem[f.value][Index(v, l)]) && mem[f.value][Index(v, l)].rw
  }

  /** The write bit is set at every level above the last. */
  ghost predicate PathWrites(mem: Mem, root: nat, v: nat) {
    forall l :: 2 <= l <= 4 ==> WritesAt(mem, root, v, l)
  }

  /** The write bit is set at all four levels, so the processor lets code that may reach the page write it. */
  ghost predicate CanWrite(mem: Mem, root: nat, v: nat) {
    PathWrites(mem, root, v) && Leaf(mem, root, v).Some? && Leaf(mem, root, v).value.rw
  }

  /** User and write bits are set at all four levels. */
  ghost predicate UserWrite(mem: Mem, root: nat, v: nat) { UserAccess(mem, root, v) && CanWrite(mem, root, v) }

  /** The entry the kernel's own walk returns. */
  function LookupPte(mem: Mem, root: nat, v: nat): (r: Option<Entry>)
    requires forall f :: f in mem ==> |mem[f]| == TABLE_LEN
    ensures r == Leaf(mem, root, v)
  {
    ReachUnrolled(mem, root, v);
    if root !in mem then None else
    var e4 := mem[root][Index(v, 4)];
    if !e4.p || e4.ps || e4.addr !in mem then None else
    var e3 := mem[e4.addr][Index(v, 3)];
    if !e3.p || e3.ps || e3.addr !in mem then None else
    var e2 := mem[e3.addr][Index(v, 2)];
    if !e2.p || e2.ps || e2.addr !in mem then None else
    var e1 := mem[e2.addr][Index(v, 1)];
    if !e1.p then None else Some(e1)
  }

  lemma ReachUnrolled(mem: Mem, root: nat, v: nat)
    ensures Reach(mem, root, v, 4) == Some(root)
    ensures forall l :: 1 <= l < 4 ==>
      var up := Reach(mem, root, v, l + 1);
      Reach(mem, root, v, l) ==
      if up.Some? && IsTable(mem, up.value) && Follows(mem[up.value][Index(v, l + 1)])
      then Some(mem[up.value][Index(v, l + 1)].addr) else None
  {
  }

  // ----- the structure

  /** The frames of the kernel's tables, each with its level. */
  datatype Kernel = Kernel(root: nat, level: map<nat, nat>)

  /** A page's frame and the flags it was mapped with. */
  datatype Mapping = Mapping(frame: nat, flags: Flags)

  /**
   * A user table: its root frame and the frames it allocated, with each
   * frame's level and the one entry that refers to it, and the pages it has
   * taken over from the kernel (`None` once unmapped again).
   */
  datatype User = User(root: nat, owned: seq<nat>, level: map<nat, nat>, up: map<nat, (nat, nat)>,
                       over: map<nat, Option<Mapping>>)

  ghost predicate ChildOk(e: Entry, level: map<nat, nat>, l: nat) {
    !e.ps && (e.p ==> e.addr in level && level[e.addr] == l)
  }

  ghost predicate TableOk(mem: Mem, level: map<nat, nat>, f: nat) {
    && IsTable(mem, f) && f in level && 1 <= level[f] <= 4
    && (level[f] >= 2 ==> forall i :: 0 <= i < TABLE_LEN ==> ChildOk(mem[f][i], level, level[f] - 1))
  }

  /** Every table's present entries lead to tables one level down. */
  ghost predicate Structured(mem: Mem, tables: set<nat>, level: map<nat, nat>) {
    forall f :: f in tables ==> TableOk(mem, level, f)
  }

  ghost predicate KernelInv(mem: Mem, k: Kernel) {
    && k.root in k.level && k.level[k.root] == 4
    && Structured(mem, k.level.Keys, k.level)
    && forall f, i :: f in k.level && 0 <= i < TABLE_LEN ==> !mem[f][i].us
  }

  ghost function Levels(k: Kernel, t: User): map<nat, nat> { k.level + t.level }

  ghost predicate FramesInv(k: Kernel, t: User) {
    && Distinct(t.owned) && t.root !in t.owned
    && t.level.Keys == (set f | f in t.owned) + {t.root}
    && t.level.Keys !! k.level.Keys
    && t.level[t.root] == 4
    && (forall f :: f in t.owned ==> 1 <= t.level[f] <= 3)
    && t.up.Keys == (set f | f in t.owned)
  }

  /** Entry `i` of table `f` is the one that refers to the owned frame `g`. */
  ghost predicate RefersTo(mem: Mem, t: User, f: nat, i: nat, g: nat) {
    && f in t.level && g in t.level && IsTable(mem, f) && i < TABLE_LEN
    && t.level[f] == t.level[g] + 1 && Follows(mem[f][i]) && mem[f][i].addr == g
  }

  /** The entry recorded for the owned table `g` refers to it, with the user bit set. */
  ghost predicate Referred(mem: Mem, t: User, g: nat) {
    g in t.up && RefersTo(mem, t, t.up[g].0, t.up[g].1, g) && mem[t.up[g].0][t.up[g].1].us
  }

  /** Entry `i` of `f` leads to an owned table only if it is the one recorded. */
  ghost predicate Recorded(mem: Mem, t: User, f: nat, i: nat)
    requires IsTable(mem, f) && 0 <= i < TABLE_LEN
  {
    mem[f][i].p && mem[f][i].addr in t.owned ==> mem[f][i].addr in t.up && t.up[mem[f][i].addr] == (f, i)
  }

  /** Each owned table has its one referring entry, and no other. */
  ghost predicate OwnersInv(mem: Mem, t: User) {
    && (forall g :: g in t.owned ==> Referred(mem, t, g))
    && (forall f, i :: f in t.level && t.level[f] >= 2 && IsTable(mem, f) && 0 <= i < TABLE_LEN ==> Recorded(mem, t, f, i))
  }

  ghost predicate TreeInv(mem: Mem, k: Kernel, t: User) {
    && FramesInv(k, t)
    && Structured(mem, t.level.Keys, Levels(k, t))
    && OwnersInv(mem, t)
  }

  /** The entry maps the page for user code to the chosen frame with the chosen flags, or there is none. */
  ghost predicate LeafIs(e: Option<Entry>, choice: Option<Mapping>) {
    if choice.None? then e.None?
    else e.Some? && e.value.us && e.value.addr == choice.value.frame && FlagsOf(e.value) == choice.value.flags
  }

  /** A page has the entry of the user's own choice, or else the kernel's, which is not for user code. */
  ghost predicate PageInv(mem: Mem, k: Kernel, t: User, v: nat) {
    if v in t.over then
      && LeafIs(Leaf(mem, t.root, v), t.over[v])
      && Reach(mem, t.root, v, 1).Some? && Reach(mem, t.root, v, 1).value in t.owned
    else
      && Leaf(mem, t.root, v) == Leaf(mem, k.root, v)
      && (Leaf(mem, t.root, v).Some? ==> !Leaf(mem, t.root, v).value.us)
  }

  ghost predicate PagesInv(mem: Mem, k: Kernel, t: User) {
    forall v :: 0 <= v < PAGE_COUNT ==> PageInv(mem, k, t, v)
  }

  /** A walk that comes to a kernel table is where the kernel's own walk is. */
  ghost predicate SharedAt(mem: Mem, k: Kernel, t: User, v: nat, l: nat)
    requires 1 <= l <= 4
  {
    var f := Reach(mem, t.root, v, l);
    f.Some? && f.value in k.level ==> Reach(mem, k.root, v, l) == f
  }

  ghost predicate SharedInv(mem: Mem, k: Kernel, t: User) {
    forall v: nat, l :: 1 <= l <= 4 ==> SharedAt(mem, k, t, v, l)
  }

  /** Writing is allowed all the way down where the kernel's own walk allows it, and where the user's choice asks for it. */
  ghost predicate WriteInv(mem: Mem, k: Kernel, t: User) {
    forall v :: 0 <= v < PAGE_COUNT && (PathWrites(mem, k.root, v) || ChosenForWriting(t, v)) ==> PathWrites(mem, t.root, v)
  }

  ghost predicate ChosenForWriting(t: User, v: nat) { v in t.over && t.over[v].Some? && t.over[v].value.flags.rw }

  ghost predicate Inv(mem: Mem, k: Kernel, t: User) {
    && KernelInv(mem, k) && TreeInv(mem, k, t) && SharedInv(mem, k, t) && WriteInv(mem, k, t) && PagesInv(mem, k, t)
  }

  // ----- walks stay inside the structure

  lemma {:induction false} KernelReach(mem: Mem, k: Kernel, v: nat, l: nat)
    requires KernelInv(mem, k) && 1 <= l <= 4 && Reach(mem, k.root, v, l).Some?
    ensures var f := Reach(mem, k.root, v, l).value; f in k.level && k.level[f] == l && IsTable(mem, f)
    decreases 4 - l
  {
    hide Index;
    if l < 4 {
      KernelReach(mem, k, v, l + 1);
      assert ChildOk(mem[Reach(mem, k.root, v, l + 1).value][Index(v, l + 1)], k.level, l);
    }
  }

  /** A user walk meets tables of the right level: the user's own, or the kernel's. */
  lemma {:induction false} UserReach(mem: Mem, k: Kernel, t: User, v: nat, l: nat)
    requires KernelInv(mem, k) && TreeInv(mem, k, t) && 1 <= l <= 4 && Reach(mem, t.root, v, l).Some?
    ensures var f := Reach(mem, t.root, v, l).value;
            f in Levels(k, t) && Levels(k, t)[f] == l && IsTable(mem, f)
    decreases 4 - l
  {
    if l < 4 {
      UserReach(mem, k, t, v, l + 1);
      var f := Reach(mem, t.root, v, l + 1).value;
      var e := mem[f][Index(v, l + 1)];
      if f in t.level {
        assert ChildOk(e, Levels(k, t), l);
      } else {
        assert ChildOk(e, k.level, l);
      }
    }
  }

  lemma KernelClosed(mem: Mem, k: Kernel)
    requires KernelInv(mem, k)
    ensures forall f, i :: f in k.level && k.level[f] >= 2 && 0 <= i < TABLE_LEN && mem[f][i].p ==> mem[f][i].addr in k.level
  {
  }

  /** An owned table is reached only through the entry that refers to it. */
  lemma OwnedReach(mem: Mem, k: Kernel, t: User, v: nat, l: nat)
    requires KernelInv(mem, k) && TreeInv(mem, k, t) && 1 <= l <= 3
    requires Reach(mem, t.root, v, l).Some? && Reach(mem, t.root, v, l).value in t.owned
    ensures var g, f := Reach(mem, t.root, v, l).value, Reach(mem, t.root, v, l + 1);
            && f == Some(t.up[g].0) && Index(v, l + 1) == t.up[g].1
            && f.value in t.level && IsTable(mem, f.value) && mem[f.value][Index(v, l + 1)].us
  {
    hide KernelInv, Structured, Index, RefersTo, Distinct;
    UserReach(mem, k, t, v, l + 1);
    KernelClosed(mem, k);
    var g, f := Reach(mem, t.root, v, l).value, Reach(mem, t.root, v, l + 1).value;
    assert mem[f][Index(v, l + 1)].addr == g;
    assert Referred(mem, t, g) && Recorded(mem, t, f, Index(v, l + 1));
  }

  /** The level of a table the walk reaches; below the root, an own table is an owned one. */
  lemma ReachedIsOwned(mem: Mem, k: Kernel, t: User, v: nat, l: nat)
    requires KernelInv(mem, k) && TreeInv(mem, k, t) && 1 <= l <= 3
    requires Reach(mem, t.root, v, l).Some? && Reach(mem, t.root, v, l).value in t.level
    ensures Reach(mem, t.root, v, l).value in t.owned
  {
    UserReach(mem, k, t, v, l);
    hide KernelInv, Structured, Reach;
  }

  /** Two pages whose walks share an owned table share every index above it. */
  lemma {:induction false} SameTableSameIndices(mem: Mem, k: Kernel, t: User, v: nat, w: nat, l: nat)
    requires KernelInv(mem, k) && TreeInv(mem, k, t) && 1 <= l <= 4
    requires Reach(mem, t.root, v, l).Some? && Reach(mem, t.root, v, l).value in t.level
    requires Reach(mem, t.root, w, l) == Reach(mem, t.root, v, l)
    ensures forall m :: l < m <= 4 ==> Index(v, m) == Index(w, m)
    decreases 4 - l
  {
    hide KernelInv, TreeInv, Index, Reach;
    if l < 4 {
      ReachedIsOwned(mem, k, t, v, l);
      OwnedReach(mem, k, t, v, l);
      OwnedReach(mem, k, t, w, l);
      SameTableSameIndices(mem, k, t, v, w, l + 1);
    }
  }

  /** Down to an owned table every level has the user bit. */
  lemma {:induction false} OwnedPathIsUser(mem: Mem, k: Kernel, t: User, v: nat, l: nat)
    requires KernelInv(mem, k) && TreeInv(mem, k, t) && 1 <= l <= 4
    requires Reach(mem, t.root, v, l).Some? && Reach(mem, t.root, v, l).value in t.level
    ensures forall m :: l < m <= 4 ==>
              var f := Reach(mem, t.root, v, m);
              f.Some? && f.value in t.level && IsTable(mem, f.value) && mem[f.value][Index(v, m)].us
    decreases 4 - l
  {
    hide KernelInv, TreeInv, Index, Reach;
    if l < 4 {
      ReachedIsOwned(mem, k, t, v, l);
      OwnedReach(mem, k, t, v, l);
      OwnedPathIsUser(mem, k, t, v, l + 1);
    }
  }

  // ----- the main consequences of the invariant

  /** User code can touch a page exactly when it is mapped and not since unmapped. */
  lemma UserAccessIsMapped(mem: Mem, k: Kernel, t: User, v: nat)
    requires Inv(mem, k, t) && v < PAGE_COUNT
    ensures UserAccess(mem, t.root, v) <==> v in t.over && t.over[v].Some?
  {
    assert PageInv(mem, k, t, v);
    if v in t.over && t.over[v].Some? {
      OwnedPathIsUser(mem, k, t, v, 1);
    }
  }

  /** User code can write a page exactly when it is mapped for writing and not since unmapped. */
  lemma UserWriteIsMapped(mem: Mem, k: Kernel, t: User, v: nat)
    requires Inv(mem, k, t) && v < PAGE_COUNT
    ensures UserWrite(mem, t.root, v) <==> ChosenForWriting(t, v)
  {
    UserAccessIsMapped(mem, k, t, v);
    assert PageInv(mem, k, t, v);
    hide KernelInv, TreeInv, SharedInv, PathWrites, UserAccess, Leaf;
  }

  /** What the kernel can write through its own table it can write through every user table that has not taken the page over. */
  lemma KernelWriteStays(mem: Mem, k: Kernel, t: User, v: nat)
    requires Inv(mem, k, t) && v < PAGE_COUNT && v !in t.over && CanWrite(mem, k.root, v)
    ensures CanWrite(mem, t.root, v) && Leaf(mem, t.root, v) == Leaf(mem, k.root, v)
  {
    assert PageInv(mem, k, t, v);
    hide KernelInv, TreeInv, SharedInv, PathWrites, Leaf;
  }

  /** Exactly one entry of the user's tables refers to each table it owns. */
  lemma OwnedReferredOnce(mem: Mem, k: Kernel, t: User, g: nat)
    requires Inv(mem, k, t) && g in t.owned
    ensures RefersTo(mem, t, t.up[g].0, t.up[g].1, g)
    ensures forall f, i :: f in t.level && t.level[f] >= 2 && 0 <= i < TABLE_LEN && mem[f][i].p && mem[f][i].addr == g ==>
              (f, i) == t.up[g]
    ensures forall f, i :: f in k.level && k.level[f] >= 2 && 0 <= i < TABLE_LEN && mem[f][i].p ==> mem[f][i].addr != g
  {
    hide PagesInv;
    KernelClosed(mem, k);
    assert Referred(mem, t, g);
    forall f, i | f in t.level && t.level[f] >= 2 && 0 <= i < TABLE_LEN && mem[f][i].p && mem[f][i].addr == g
      ensures (f, i) == t.up[g]
    {
      assert Recorded(mem, t, f, i);
    }
    assert g !in k.level;
    hide KernelInv, TreeInv;
  }
}

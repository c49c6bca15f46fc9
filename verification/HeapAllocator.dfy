/**
 * The kernel heap as the allocator runs it: hole headers in the free memory
 * itself, linked through their addresses and rewritten in place
 * (kernel/src/mem/allocator.rs). Each operation is proved against the list
 * functions of `HoleLists` and the run steps of `HeapRuns`.
 */
module HeapAllocator {
  import opened Basics
  import opened HoleLists
  import opened HeapRuns

  /** A header as it lies in memory; the list's own sentinel has no address. */
  datatype Hole = Hole(size: nat, next: Option<nat>)

  datatype Error = InvalidLayout | NoCursor | NoNextCursor

  function AddrAt(list: seq<Region>, i: nat): Option<nat> {
    if i < |list| then Some(list[i].addr) else None
  }

  /** The headers in `mem` spell out exactly `list`. */
  ghost predicate Linked(mem: map<nat, Hole>, first: Option<nat>, list: seq<Region>) {
    && first == AddrAt(list, 0)
    && forall i {:trigger mem[list[i].addr]} {:trigger list[i].addr in mem} :: 0 <= i < |list| ==>
         list[i].addr in mem && mem[list[i].addr] == Hole(list[i].size, AddrAt(list, i + 1))
  }

  ghost predicate Ordered(list: seq<Region>) {
    && (forall i :: 0 <= i < |list| ==> list[i].size > 0)
    && (forall i, j :: 0 <= i < j < |list| ==> list[i].End() <= list[j].addr)
  }

  /** A hole ending less than a header short of the top takes the rest. */
  function TopMerged(r: Region, top: nat): Region {
    if r.End() < top && AlignUp(r.End(), HOLE_ALIGN) + MIN_SIZE > top then Region(r.addr, top - r.addr) else r
  }

  /** A hole starting less than a header above the bottom takes the rest. */
  function BottomMerged(r: Region, bottom: nat): Region
    requires bottom <= r.addr
  {
    if bottom + MIN_SIZE > r.addr then Region(bottom, r.size + (r.addr - bottom)) else r
  }

  /** A hole header fits between the two addresses. */
  ghost predicate HeaderFits(from: nat, to: nat) {
    exists a: nat :: from <= a && a % HOLE_ALIGN == 0 && a + MIN_SIZE <= to
  }

  /** A hole is extended to an end of the heap exactly when what lies between is too small for a header. */
  lemma EndMergesMean(r: Region, bottom: nat, top: nat)
    requires bottom <= r.addr && r.End() <= top
    ensures var t := TopMerged(r, top);
            t.addr == r.addr && t.End() == if HeaderFits(r.End(), top) then r.End() else top
    ensures var b := BottomMerged(r, bottom);
            b.End() == r.End() && b.addr == if r.addr - bottom >= MIN_SIZE then r.addr else bottom
  {
    AlignUpIsLeastMultiple(r.End(), HOLE_ALIGN);
    hide AlignUp;
    assert HeaderFits(r.End(), top) <==> AlignUp(r.End(), HOLE_ALIGN) + MIN_SIZE <= top;
  }

  function Inserted(list: seq<Region>, k: nat, r: Region): seq<Region>
    requires k <= |list|
  {
    list[..k] + [r] + list[k..]
  }

  /** Entries `i` and `i + 1` joined into one. */
  function JoinedAt(list: seq<Region>, i: nat): seq<Region>
    requires i + 1 < |list|
  {
    list[..i] + [Join(list[i], list[i + 1])] + list[i + 2..]
  }

  /** What merging forward from entry `i` for at most `n` steps leaves. */
  function MergeRun(list: seq<Region>, i: nat, n: nat, top: nat): seq<Region>
    requires i < |list|
    decreases n
  {
    if n == 0 then list
    else if i + 1 == |list| then list[i := TopMerged(list[i], top)]
    else if list[i].End() == list[i + 1].addr then MergeRun(JoinedAt(list, i), i, n - 1, top)
    else MergeRun(list, i + 1, n - 1, top)
  }

  // ----- slivers never exist

  lemma NoSliverAbove(s: State, r: Region)
    requires Inv(s) && r in s.live && r.End() < s.top
    ensures r.End() + MIN_SIZE <= s.top
  {
    hide OnGrid;
    var b := r.End();
    if InHole(s.holes, b) {
      var i :| 0 <= i < |s.holes| && s.holes[i].Contains(b);
      assert Disjoint(s.holes[i], r);
    } else {
      var t :| t in s.live && t.Contains(b);
      assert Disjoint(t, r);
    }
  }

  lemma NoSliverBelow(s: State, r: Region)
    requires Inv(s) && r in s.live && s.bottom < r.addr
    ensures s.bottom + MIN_SIZE <= r.addr
  {
    hide OnGrid;
    var b := s.bottom;
    assert s.bottom <= b < s.top;
    if InHole(s.holes, b) {
      var i :| 0 <= i < |s.holes| && s.holes[i].Contains(b);
      assert Disjoint(s.holes[i], r);
    } else {
      var t :| t in s.live && t.Contains(b);
      assert Disjoint(t, r);
    }
  }

  /** Merging to the ends of the heap never adds a byte to a freed block. */
  lemma EndMergesAddNothing(s: State, r: Region, m: Region)
    requires Inv(s) && r in s.live && m.End() == r.End()
    ensures r.End() <= s.top && TopMerged(m, s.top) == m
    ensures s.bottom <= r.addr && BottomMerged(r, s.bottom) == r
  {
    hide Inv;
    LiveInside(s, r);
    if r.End() < s.top { NoSliverAbove(s, r); }
    if s.bottom < r.addr { NoSliverBelow(s, r); }
    GridEnd(r);
    hide AlignUp;
  }

  lemma LiveInside(s: State, r: Region)
    requires Inv(s) && r in s.live
    ensures s.bottom <= r.addr && r.End() <= s.top && OnGrid(r)
  {
  }

  // ----- inserting and merging is freeing

  lemma InsertOrdered(list: seq<Region>, k: nat, r: Region)
    requires Ordered(list) && r.size > 0 && k <= |list|
    requires forall i :: 0 <= i < k ==> list[i].End() <= r.addr
    requires forall i :: k <= i < |list| ==> r.End() <= list[i].addr
    ensures Ordered(Inserted(list, k, r))
  {
    var t := Inserted(list, k, r);
    forall p, q | 0 <= p < q < |t|
      ensures t[p].size > 0 && t[q].size > 0 && t[p].End() <= t[q].addr
    {
      assert t[p] == if p < k then list[p] else if p == k then r else list[p - 1];
      assert t[q] == if q < k then list[q] else if q == k then r else list[q - 1];
    }
  }

  lemma InsertedOrdered(s: State, k: nat, r: Region)
    requires Inv(s) && r in s.live && Rank(s.holes, k, r.addr)
    ensures Ordered(Inserted(s.holes, k, r))
  {
    hide LiveShape, Apart, Covered, Bytes, Inserted, OnGrid;
    Neighbours(s, k, r);
    LiveWithout(s.live, s.bottom, s.top, r);
    assert Ordered(s.holes);
    hide Shape, Ordered;
    InsertOrdered(s.holes, k, r);
  }

  lemma MergeRightOfInserted(s: State, k: nat, r: Region, list: seq<Region>, i: nat, m: Region)
    requires Inv(s) && r in s.live && k <= |s.holes|
    requires i < |list| && list[i] == m && m.End() == r.End() && list[i + 1..] == s.holes[k..]
    ensures MergeRun(list, i, 1, s.top) ==
            list[..i] + [if k < MergedTo(s.holes, k, r) then Join(m, s.holes[k]) else m] +
            s.holes[MergedTo(s.holes, k, r)..]
  {
    EndMergesAddNothing(s, r, m);
    hide Inv, TopMerged;
    if i + 1 == |list| {
      assert |s.holes[k..]| == 0;
    } else {
      assert list[i + 1] == s.holes[k];
      if m.End() == list[i + 1].addr {
        assert MergeRun(list, i, 1, s.top) == JoinedAt(list, i);
        assert list[i + 2..] == s.holes[k + 1..];
      } else {
        assert MergeRun(list, i, 1, s.top) == list;
        assert list == list[..i] + [m] + list[i + 1..];
      }
    }
  }

  lemma MergeBothSides(s: State, k: nat, r: Region)
    requires Inv(s) && r in s.live && 0 < k <= |s.holes| && s.holes[k - 1].End() == r.addr
    ensures MergeRun(Inserted(s.holes, k, r), k - 1, 2, s.top) == FreeAt(s.holes, k, r)
  {
    hide Inv, TopMerged, MergedTo;
    var t := Inserted(s.holes, k, r);
    assert t[k - 1] == s.holes[k - 1] && t[k] == r;
    var u := JoinedAt(t, k - 1);
    assert u[k - 1] == Join(s.holes[k - 1], r);
    assert u[k..] == s.holes[k..] && u[..k - 1] == s.holes[..k - 1];
    assert MergeRun(t, k - 1, 2, s.top) == MergeRun(u, k - 1, 1, s.top);
    hide MergeRun, Inserted, JoinedAt;
    MergeRightOfInserted(s, k, r, u, k - 1, u[k - 1]);
  }

  lemma MergeRightOnly(s: State, k: nat, r: Region)
    requires Inv(s) && r in s.live && k <= |s.holes| && (k > 0 ==> s.holes[k - 1].End() != r.addr)
    ensures MergeRun(Inserted(s.holes, k, r), if k == 0 then 0 else k - 1, if k == 0 then 1 else 2, s.top) == FreeAt(s.holes, k, r)
  {
    hide Inv, TopMerged, MergedTo;
    var t := Inserted(s.holes, k, r);
    assert t[k] == r && t[k + 1..] == s.holes[k..] && t[..k] == s.holes[..k];
    if k > 0 {
      assert t[k - 1] == s.holes[k - 1];
      assert MergeRun(t, k - 1, 2, s.top) == MergeRun(t, k, 1, s.top);
    }
    hide MergeRun, Inserted;
    MergeRightOfInserted(s, k, r, t, k, r);
  }

  /** The insert-then-merge of the source is freeing with two-sided coalescing. */
  lemma MergeRunIsFreeAt(s: State, k: nat, r: Region)
    requires Inv(s) && r in s.live && Rank(s.holes, k, r.addr) && s.holes != []
    ensures MergeRun(Inserted(s.holes, k, r), if k == 0 then 0 else k - 1, if k == 0 then 1 else 2, s.top)
            == FreeAt(s.holes, k, r)
  {
    hide Inv, MergeRun, FreeAt;
    if k > 0 && s.holes[k - 1].End() == r.addr {
      MergeBothSides(s, k, r);
    } else {
      MergeRightOnly(s, k, r);
    }
  }

  // ----- relinking

  /** Rewriting the header before a slice and the headers of its replacement relinks the list. */
  lemma Relink(mem: map<nat, Hole>, first: Option<nat>, list: seq<Region>, i: nat, j: nat, mid: seq<Region>,
               t: seq<Region>, mem': map<nat, Hole>, first': Option<nat>)
    requires Linked(mem, first, list) && i <= j <= |list| && t == list[..i] + mid + list[j..]
    requires i == 0 ==> first' == AddrAt(t, 0)
    requires i > 0 ==> first' == first && list[i - 1].addr in mem'
                       && mem'[list[i - 1].addr] == Hole(list[i - 1].size, AddrAt(t, i))
    requires forall q {:trigger mem'[mid[q].addr]} {:trigger mid[q].addr in mem'} :: 0 <= q < |mid| ==>
               mid[q].addr in mem' && mem'[mid[q].addr] == Hole(mid[q].size, AddrAt(t, i + q + 1))
    requires forall p {:trigger mem'[list[p].addr]} {:trigger list[p].addr in mem'} ::
               0 <= p < |list| && (p < i - 1 || j <= p) ==>
                 list[p].addr in mem' && mem'[list[p].addr] == mem[list[p].addr]
    ensures Linked(mem', first', t)
  {
  }

  class Heap {
    var used: nat
    var first: Option<nat>
    var bottom: nat
    var top: nat
    var mem: map<nat, Hole>
    ghost var holes: seq<Region>
    ghost var live: set<Region>

    ghost function Abs(): State
      reads this
    {
      State(holes, live, used, bottom, top)
    }

    ghost predicate Valid()
      reads this
    {
      Inv(Abs()) && Linked(mem, first, holes) && bottom > 0
    }

    /** One hole over the aligned part of the given memory. */
    constructor (addr: nat, size: nat)
      requires addr > 0 && AlignUp(addr, HOLE_ALIGN) + MIN_SIZE <= addr + size
      ensures Valid()
      ensures Abs() == Initial(bottom, top - bottom)
      ensures addr <= bottom < addr + HOLE_ALIGN && addr + size - HOLE_ALIGN < top <= addr + size
    {
      AlignUpIsLeastMultiple(addr, HOLE_ALIGN);
      var start := AlignUp(addr, HOLE_ALIGN);
      hide AlignUp;
      var requested := size - (start - addr);
      var aligned := requested - requested % HOLE_ALIGN;
      used, first, bottom, top := 0, Some(start), start, start + aligned;
      mem := map[start := Hole(aligned, None)];
      holes, live := [Region(start, aligned)], {};
      InitialInv(start, aligned);
    }

    /** Writes the `next` link of a hole, or of the sentinel. */
    method SetNext(at: Option<nat>, next: Option<nat>)
      requires at.Some? ==> at.value in mem
      modifies this`mem, this`first
      ensures at.None? ==> first == next && mem == old(mem)
      ensures at.Some? ==> first == old(first) && mem == old(mem)[at.value := old(mem)[at.value].(next := next)]
    {
      if at.Some? {
        mem := mem[at.value := mem[at.value].(next := next)];
      } else {
        first := next;
      }
    }

    /** Cuts a block out of the hole under the cursor, or leaves everything as it is. */
    method SplitCurrent(prev: Option<nat>, hole: nat, size: nat, align: nat, ghost i: nat) returns (r: Option<nat>)
      requires Valid() && i < |holes| && hole == holes[i].addr
      requires prev == if i == 0 then None else Some(holes[i - 1].addr)
      requires IsPowerOfTwo(align) && size % HOLE_ALIGN == 0 && size >= MIN_SIZE
      modifies this
      ensures r == Place(old(holes)[i], size, align)
      ensures used == old(used) && bottom == old(bottom) && top == old(top) && live == old(live)
      ensures r.None? ==> mem == old(mem) && first == old(first) && holes == old(holes)
      ensures r.Some? ==> old(holes)[i].addr <= r.value && r.value + size <= old(holes)[i].End()
      ensures r.Some? ==> holes == AllocAt(old(holes), i, r.value, size) && Linked(mem, first, holes)
    {
      assert align > 0;
      hide Place, Inv, IsPowerOfTwo, AllocAt;
      InvShape(Abs());
      assert mem[holes[i].addr].size == holes[i].size;
      hide Linked;
      r := FindPlace(hole, mem[hole].size, size, align);
      SortedAround(holes, bottom, top, i);
      PlaceInside(holes[i], size, align);
      hide Shape, OnGrid;
      if r.Some? {
        Carve(prev, hole, r.value, size, i);
      }
    }

    /** Where the block would go in a hole. */
    method FindPlace(hole: nat, holeSize: nat, size: nat, align: nat) returns (r: Option<nat>)
      requires align > 0
      ensures r == Place(Region(hole, holeSize), size, align)
    {
      hide AlignUp;
      if holeSize < size {
        return None;
      }
      var aligned := if hole == AlignUp(hole, align) then hole else AlignUp(hole + MIN_SIZE, align);
      var allocEnd, holeEnd := aligned + size, hole + holeSize;
      if allocEnd > holeEnd {
        return None;
      }
      if allocEnd != holeEnd && AlignUp(allocEnd, HOLE_ALIGN) + MIN_SIZE > holeEnd {
        return None;
      }
      return Some(aligned);
    }

    /** Writes the padding headers around the block and links them in place of the hole. */
    method Carve(prev: Option<nat>, hole: nat, a: nat, size: nat, ghost i: nat)
      requires Shape(holes, bottom, top) && Linked(mem, first, holes) && i < |holes| && hole == holes[i].addr
      requires prev == if i == 0 then None else Some(holes[i - 1].addr)
      requires holes[i].addr <= a && a + size <= holes[i].End() && size > 0
      requires OnGrid(Region(a, size))
      modifies this`mem, this`first, this`holes
      ensures holes == AllocAt(old(holes), i, a, size) && Linked(mem, first, holes)
    {
      ghost var list, mem0, first0 := holes, mem, first;
      hide AlignUp, Shape, Block, OnGrid;
      GridEnd(Region(a, size));
      var backAddr := AlignUp(a + size, HOLE_ALIGN);
      var frontSize, backSize := a - hole, hole + mem[hole].size - (a + size);
      if prev.Some? {
        assert list[i - 1].addr in mem;
      }
      SetNext(prev, None);
      SortedAround(list, bottom, top, i);
      var head := mem[hole].next;
      assert head == AddrAt(list, i + 1);
      var m := mem[hole := mem[hole].(next := None)];
      if backSize > 0 {
        m := m[backAddr := Hole(backSize, head)];
        head := Some(backAddr);
      }
      if frontSize > 0 {
        m := m[hole := Hole(frontSize, head)];
        head := Some(hole);
      }
      mem := m;
      SetNext(prev, head);
      holes := AllocAt(list, i, a, size);
      CarveRelinks(list, bottom, top, i, a, size, mem0, first0, m, mem, first);
    }

    /** Walks the cursor to the first hole the block can be cut out of, and cuts it. */
    method WalkAndSplit(size: nat, align: nat) returns (r: Result<nat, Error>, ghost i: nat)
      requires Valid() && IsPowerOfTwo(align) && size % HOLE_ALIGN == 0 && size >= MIN_SIZE
      modifies this
      ensures used == old(used) && bottom == old(bottom) && top == old(top) && live == old(live)
      ensures r.Err? ==> r.error != InvalidLayout && holes == old(holes) && Valid()
      ensures r.Err? ==> forall j :: 0 <= j < |holes| ==> Place(holes[j], size, align).None?
      ensures r.Ok? ==> FirstFit(old(holes), size, align, i, r.value)
                        && old(holes)[i].addr <= r.value && r.value + size <= old(holes)[i].End()
                        && holes == AllocAt(old(holes), i, r.value, size) && Linked(mem, first, holes)
    {
      assert align > 0;
      hide Inv, Place, IsPowerOfTwo, AllocAt, Linked;
      FirstOf(mem, first, holes);
      i := 0;
      if first.None? {
        return Err(NoCursor), i;
      }
      var prev, hole := None, first.value;
      while true
        invariant Valid() && Abs() == old(Abs())
        invariant i < |holes| && hole == holes[i].addr
        invariant prev == if i == 0 then None else Some(holes[i - 1].addr)
        invariant forall j :: 0 <= j < i ==> Place(holes[j], size, align).None?
        decreases |holes| - i
      {
        var p := SplitCurrent(prev, hole, size, align, i);
        if p.Some? {
          return Ok(p.value), i;
        }
        NextOf(mem, first, holes, i);
        var next := mem[hole].next;
        if next.None? {
          return Err(NoNextCursor), i;
        }
        prev, hole, i := Some(hole), next.value, i + 1;
      }
    }

    /** First fit: the lowest place in the first hole that has one. */
    method AllocFirstFit(layout: Layout) returns (r: Result<nat, Error>)
      requires Valid() && IsPowerOfTwo(layout.align)
      modifies this
      ensures Valid()
      ensures r.Ok? ==> r.value > 0 && exists i :: AllocStep(old(Abs()), layout, i, r.value, Abs())
      ensures r.Err? ==> Abs() == old(Abs())
      ensures r == Err(InvalidLayout) <==> AlignLayout(layout).None?
      ensures r.Err? && AlignLayout(layout).Some? ==>
                forall j :: 0 <= j < |holes| ==> Place(holes[j], AlignLayout(layout).value.size, layout.align).None?
    {
      assert layout.align > 0;
      hide Inv, Place, IsPowerOfTwo, AllocAt, Linked, FirstFit, AllocStep;
      var aligned := AlignLayout(layout);
      if aligned.None? {
        return Err(InvalidLayout);
      }
      var size := aligned.value.size;
      hide AlignLayout;
      ghost var i;
      r, i := WalkAndSplit(size, layout.align);
      if r.Ok? {
        used := used + size;
        live := live + {Region(r.value, size)};
        IntoAllocStep(old(Abs()), layout, i, r.value, Abs());
        LiveInside(Abs(), Region(r.value, size));
      }
    }

    method CheckMergeTop(node: nat)
      requires node in mem
      modifies this`mem
      ensures mem == old(mem)[node := old(mem)[node].(size := TopMerged(Region(node, old(mem)[node].size), top).size)]
    {
      var end := node + mem[node].size;
      if end < top {
        if AlignUp(end, HOLE_ALIGN) + MIN_SIZE > top {
          mem := mem[node := mem[node].(size := mem[node].size + (top - end))];
        }
      }
    }

    method CheckMergeBottom(node: nat) returns (merged: nat)
      requires node in mem && bottom <= node
      modifies this`mem
      ensures var m := BottomMerged(Region(node, old(mem)[node].size), bottom);
              && merged == m.addr
              && mem == if bottom + MIN_SIZE > node then old(mem)[m.addr := Hole(m.size, None)] else old(mem)
    {
      if bottom + MIN_SIZE > node {
        mem := mem[bottom := Hole(mem[node].size + (node - bottom), None)];
        merged := bottom;
      } else {
        merged := node;
      }
    }

    /** Merges forward from a hole, taking up to `n` steps along the list. */
    method TryMergeNextN(start: nat, n: nat, ghost list: seq<Region>, ghost i: nat) returns (ghost list': seq<Region>)
      requires Linked(mem, first, list) && Ordered(list) && i < |list| && start == list[i].addr
      modifies this`mem
      ensures list' == MergeRun(list, i, n, top)
      ensures Linked(mem, first, list')
    {
      var hole := start;
      list' := list;
      ghost var at: nat := i;
      for step := 0 to n
        invariant Linked(mem, first, list') && Ordered(list') && at < |list'| && hole == list'[at].addr
        invariant MergeRun(list', at, n - step, top) == MergeRun(list, i, n, top)
      {
        ghost var mem0 := mem;
        assert mem[list'[at].addr].size == list'[at].size;
        var next := mem[hole].next;
        if next.None? {
          CheckMergeTop(hole);
          MergeTopRelinks(mem0, first, list', at, top, mem);
          list' := list'[at := TopMerged(list'[at], top)];
          return;
        }
        assert mem[list'[at + 1].addr].size == list'[at + 1].size;
        if hole + mem[hole].size == next.value {
          var nextSize, nextNext := mem[next.value].size, mem[next.value].next;
          mem := mem[next.value := mem[next.value].(next := None)];
          mem := mem[hole := Hole(mem[hole].size + nextSize, nextNext)];
          JoinRelinks(mem0, first, list', at, mem);
          list' := JoinedAt(list', at);
        } else {
          hole, at := next.value, at + 1;
        }
      }
    }

    /** Links a node right after the hole under the cursor, unless it belongs further on. */
    method TryInsertAfter(hole: nat, node: nat, ghost list: seq<Region>, ghost i: nat, ghost r: Region) returns (done: bool)
      requires Linked(mem, first, list) && i < |list| && hole == list[i].addr
      requires node == r.addr && node in mem && mem[node].size == r.size
      requires forall p :: 0 <= p < |list| ==> list[p].size > 0 && Disjoint(list[p], r) && list[p].addr != node
      requires forall p, q :: 0 <= p < q < |list| ==> list[p].addr < list[q].addr
      requires hole < node && r.size > 0
      modifies this`mem
      ensures done <==> (i + 1 < |list| ==> node < list[i + 1].addr)
      ensures !done ==> mem == old(mem)
      ensures done ==> Linked(mem, first, Inserted(list, i + 1, r))
    {
      ghost var mem0 := mem;
      assert mem[list[i].addr].size == list[i].size;
      var next := mem[hole].next;
      if next.Some? {
        if node < next.value {
          assert node + mem[node].size <= next.value;
        } else {
          return false;
        }
      }
      assert hole + mem[hole].size <= node;
      mem := mem[hole := mem[hole].(next := Some(node))];
      mem := mem[node := mem[node].(next := next)];
      done := true;
      InsertRelinks(mem0, first, list, i + 1, r, mem, first);
    }

    /** What the pieces of `Dealloc` rely on: `b` is live, its header is written, `k` is its rank. */
    ghost predicate Freeing(b: Region, k: nat)
      reads this
    {
      && Inv(Abs()) && b in live && Rank(holes, k, b.addr)
      && Linked(mem, first, holes) && b.addr in mem && mem[b.addr] == Hole(b.size, None)
    }

    method InsertIntoEmpty(ptr: nat, ghost b: Region, ghost k: nat)
      requires Freeing(b, k) && ptr == b.addr && first.None?
      modifies this`mem, this`first, this`holes
      ensures holes == FreeAt(old(holes), k, b) && Linked(mem, first, holes)
    {
      hide Inv;
      EndMergesAddNothing(Abs(), b, b);
      var node := CheckMergeBottom(ptr);
      CheckMergeTop(node);
      first := Some(node);
      holes := [b];
    }

    method InsertBack(ptr: nat, ghost b: Region, ghost k: nat)
      requires Freeing(b, k) && ptr == b.addr && first.Some? && ptr < first.value
      modifies this`mem, this`first, this`holes
      ensures holes == FreeAt(old(holes), k, b) && Linked(mem, first, holes)
    {
      hide Inv, FreeAt, MergeRun, Ordered;
      ghost var list, mem0, first0 := holes, mem, first;
      EndMergesAddNothing(Abs(), b, b);
      ListAround(Abs(), b);
      MergeRunIsFreeAt(Abs(), k, b);
      InsertedOrdered(Abs(), k, b);
      assert k == 0;
      assert ptr + mem[ptr].size <= first.value;
      var hole := first.value;
      var node := CheckMergeBottom(ptr);
      first := Some(node);
      mem := mem[node := mem[node].(next := Some(hole))];
      InsertRelinks(mem0, first0, list, 0, b, mem, first);
      holes := TryMergeNextN(node, 1, Inserted(list, 0, b), 0);
    }

    /** Walks the cursor to the hole before `ptr` and links the node there. */
    method WalkAndInsert(ptr: nat, ghost list: seq<Region>, ghost b: Region) returns (hole: nat, ghost i: nat)
      requires Linked(mem, first, list) && first.Some? && first.value < ptr
      requires ptr == b.addr && ptr in mem && mem[ptr].size == b.size && b.size > 0
      requires forall p :: 0 <= p < |list| ==> list[p].size > 0 && Disjoint(list[p], b) && list[p].addr != ptr
      requires forall p, q :: 0 <= p < q < |list| ==> list[p].addr < list[q].addr
      modifies this`mem
      ensures i < |list| && hole == list[i].addr && Rank(list, i + 1, ptr)
      ensures Linked(mem, first, Inserted(list, i + 1, b))
    {
      hide Inserted;
      hole, i := first.value, 0;
      while true
        invariant i < |list| && hole == list[i].addr && hole < ptr && mem == old(mem)
        decreases |list| - i
      {
        var done := TryInsertAfter(hole, ptr, list, i, b);
        if done {
          return;
        }
        assert mem[list[i].addr].next == AddrAt(list, i + 1);
        hole, i := mem[hole].next.value, i + 1;
      }
    }

    method InsertAfter(ptr: nat, ghost b: Region, ghost k: nat)
      requires Freeing(b, k) && ptr == b.addr && first.Some? && first.value < ptr
      modifies this`mem, this`holes
      ensures holes == FreeAt(old(holes), k, b) && Linked(mem, first, holes)
    {
      hide Inv, FreeAt, MergeRun, Ordered, Linked;
      ghost var list := holes;
      ListAround(Abs(), b);
      FirstOf(mem, first, list);
      MergeRunIsFreeAt(Abs(), k, b);
      InsertedOrdered(Abs(), k, b);
      var hole, i := WalkAndInsert(ptr, list, b);
      RankUnique(list, k, i + 1, ptr);
      hide Rank;
      assert Inserted(list, i + 1, b)[i] == list[i];
      hide Inserted;
      holes := TryMergeNextN(hole, 2, Inserted(list, i + 1, b), i);
    }

    /** Gives a live block back; for a live block nothing can fail. */
    method Dealloc(ptr: nat, layout: Layout) returns (r: Result<(), Error>)
      requires Valid() && layout.align > 0 && AlignLayout(layout).Some?
      requires Region(ptr, AlignLayout(layout).value.size) in live
      modifies this
      ensures r == Ok(())
      ensures Valid()
      ensures exists k :: FreeStep(old(Abs()), k, Region(ptr, AlignLayout(layout).value.size), Abs())
    {
      var size := AlignLayout(layout).value.size;
      ghost var s, b, mem0 := Abs(), Region(ptr, size), mem;
      hide AlignLayout, Inv, FreeAt;
      ghost var k := BeforeFree(s, b);
      hide Rank;
      mem := mem[ptr := Hole(size, None)];
      FreshHeader(mem0, first, holes, ptr, Hole(size, None));
      assert Freeing(b, k);
      if first.None? {
        InsertIntoEmpty(ptr, b, k);
      } else {
        assert holes[0].addr != ptr;
        if ptr < first.value {
          InsertBack(ptr, b, k);
        } else {
          InsertAfter(ptr, b, k);
        }
      }
      used := used - size;
      live := live - {b};
      assert FreeStep(s, k, b, Abs());
      r := Ok(());
    }
  }

  lemma IntoAllocStep(s: State, layout: Layout, i: nat, a: nat, s': State)
    requires Inv(s) && IsPowerOfTwo(layout.align) && AlignLayout(layout).Some?
    requires var size := AlignLayout(layout).value.size;
             && FirstFit(s.holes, size, layout.align, i, a)
             && s.holes[i].addr <= a && a + size <= s.holes[i].End()
             && s' == Alloc(s, i, a, size)
    ensures AllocStep(s, layout, i, a, s') && Inv(s')
  {
    hide Inv, AlignLayout, IsPowerOfTwo, FirstFit, Alloc;
    AllocStepKeepsInv(s, layout, i, a, s');
  }

  lemma InvShape(s: State)
    requires Inv(s)
    ensures Shape(s.holes, s.bottom, s.top)
  {
  }

  lemma GridEnd(r: Region)
    requires OnGrid(r)
    ensures AlignUp(r.End(), HOLE_ALIGN) == r.End()
  {
  }

  /** What is known of a live block before it is freed. */
  lemma BeforeFree(s: State, b: Region) returns (k: nat)
    requires Inv(s) && b in s.live
    ensures Rank(s.holes, k, b.addr) && b.size <= s.used && Inv(Free(s, k, b))
    ensures forall p :: 0 <= p < |s.holes| ==> s.holes[p].addr != b.addr
  {
    LiveWithout(s.live, s.bottom, s.top, b);
    ListAround(s, b);
    k := RankExists(s.holes, b, s.bottom, s.top);
    FreeKeepsInv(s, k, b);
  }

  lemma FirstOf(mem: map<nat, Hole>, first: Option<nat>, list: seq<Region>)
    requires Linked(mem, first, list)
    ensures first.Some? <==> list != []
    ensures first.Some? ==> first.value == list[0].addr
  {
  }

  lemma NextOf(mem: map<nat, Hole>, first: Option<nat>, list: seq<Region>, i: nat)
    requires Linked(mem, first, list) && i < |list|
    ensures list[i].addr in mem && mem[list[i].addr] == Hole(list[i].size, AddrAt(list, i + 1))
  {
  }

  lemma MergeTopRelinks(mem: map<nat, Hole>, first: Option<nat>, list: seq<Region>, i: nat, top: nat, mem': map<nat, Hole>)
    requires Linked(mem, first, list) && Ordered(list) && i + 1 == |list|
    requires list[i].addr in mem && mem[list[i].addr].size == list[i].size
    requires mem' == mem[list[i].addr := mem[list[i].addr].(size := TopMerged(list[i], top).size)]
    ensures Linked(mem', first, list[i := TopMerged(list[i], top)])
  {
  }

  lemma JoinRelinks(mem: map<nat, Hole>, first: Option<nat>, list: seq<Region>, i: nat, mem': map<nat, Hole>)
    requires Linked(mem, first, list) && Ordered(list) && i + 1 < |list| && list[i].End() == list[i + 1].addr
    requires list[i].addr in mem && list[i + 1].addr in mem
    requires mem' == mem[list[i + 1].addr := mem[list[i + 1].addr].(next := None)]
                        [list[i].addr := Hole(list[i].size + list[i + 1].size, mem[list[i + 1].addr].next)]
    ensures Linked(mem', first, JoinedAt(list, i)) && Ordered(JoinedAt(list, i))
  {
    JoinOrdered(list, i);
    var m, t := Join(list[i], list[i + 1]), JoinedAt(list, i);
    assert mem[list[i + 1].addr].next == AddrAt(list, i + 2) == AddrAt(t, i + 1);
    forall p | 0 <= p < |list| && (p < i || i + 2 <= p)
      ensures list[p].addr in mem' && mem'[list[p].addr] == mem[list[p].addr]
    {
      assert list[p].addr != list[i].addr && list[p].addr != list[i + 1].addr;
    }
    if i > 0 {
      assert mem[list[i - 1].addr] == Hole(list[i - 1].size, AddrAt(list, i));
    }
    Relink(mem, first, list, i, i + 2, [m], t, mem', first);
  }

  lemma JoinOrdered(list: seq<Region>, i: nat)
    requires Ordered(list) && i + 1 < |list| && list[i].End() == list[i + 1].addr
    ensures Ordered(JoinedAt(list, i))
  {
    var t := JoinedAt(list, i);
    forall p, q | 0 <= p < q < |t|
      ensures t[p].size > 0 && t[q].size > 0 && t[p].End() <= t[q].addr
    {
      assert t[p] == if p < i then list[p] else if p == i then Join(list[i], list[i + 1]) else list[p + 1];
      assert t[q] == if q < i then list[q] else if q == i then Join(list[i], list[i + 1]) else list[q + 1];
    }
  }

  lemma InsertRelinks(mem: map<nat, Hole>, first: Option<nat>, list: seq<Region>, k: nat, r: Region,
                      mem': map<nat, Hole>, first': Option<nat>)
    requires Linked(mem, first, list) && k <= |list|
    requires forall p, q :: 0 <= p < q < |list| ==> list[p].addr < list[q].addr
    requires forall p :: 0 <= p < |list| ==> list[p].addr != r.addr
    requires r.addr in mem' && mem'[r.addr] == Hole(r.size, AddrAt(list, k))
    requires k == 0 ==> first' == Some(r.addr)
    requires k > 0 ==> first' == first && list[k - 1].addr in mem' && mem'[list[k - 1].addr] == Hole(list[k - 1].size, Some(r.addr))
    requires forall x :: x in mem && x != r.addr && (k == 0 || x != list[k - 1].addr) ==> x in mem' && mem'[x] == mem[x]
    ensures Linked(mem', first', Inserted(list, k, r))
  {
  }

  /** Writing a header where no hole lies leaves the list linked. */
  lemma FreshHeader(mem: map<nat, Hole>, first: Option<nat>, list: seq<Region>, at: nat, h: Hole)
    requires Linked(mem, first, list) && forall p :: 0 <= p < |list| ==> list[p].addr != at
    ensures Linked(mem[at := h], first, list)
  {
  }

  lemma ListAround(s: State, r: Region)
    requires Inv(s) && r in s.live
    ensures forall p :: 0 <= p < |s.holes| ==> s.holes[p].size > 0 && Disjoint(s.holes[p], r) && s.holes[p].addr != r.addr
    ensures forall p, q :: 0 <= p < q < |s.holes| ==> s.holes[p].addr < s.holes[q].addr
    ensures r.size > 0
  {
  }

  lemma CarveRelinks(list: seq<Region>, bottom: nat, top: nat, i: nat, a: nat, size: nat,
                     mem0: map<nat, Hole>, first0: Option<nat>, m: map<nat, Hole>, mem: map<nat, Hole>, first: Option<nat>)
    requires Shape(list, bottom, top) && Linked(mem0, first0, list) && i < |list|
    requires list[i].addr <= a && a + size <= list[i].End() && size > 0
    requires var h := list[i];
             var back := if a + size < h.End() then Some(a + size) else AddrAt(list, i + 1);
             var head := if h.addr < a then Some(h.addr) else back;
             && (h.addr < a ==> h.addr in m && m[h.addr] == Hole(a - h.addr, back))
             && (a + size < h.End() ==> a + size in m && m[a + size] == Hole(h.End() - (a + size), AddrAt(list, i + 1)))
             && (forall x :: x in mem0 && x != h.addr && x != a + size && (i == 0 || x != list[i - 1].addr) ==> x in m && m[x] == mem0[x])
             && (i == 0 ==> mem == m && first == head)
             && (i > 0 ==> first == first0 && list[i - 1].addr in m && m[list[i - 1].addr].size == list[i - 1].size
                           && mem == m[list[i - 1].addr := m[list[i - 1].addr].(next := head)])
    ensures Linked(mem, first, AllocAt(list, i, a, size))
  {
    hide Shape, Pads, AllocAt, Block, Linked;
    var mid, t := Pads(list[i], a, size), AllocAt(list, i, a, size);
    SortedAround(list, bottom, top, i);
    if i > 0 { SortedAround(list, bottom, top, i - 1); }
    HeadAfterCarve(list, i, a, size);
    AllocAtIs(list, i, a, size);
    hide AddrAt;
    assert forall q :: 0 <= q < |mid| ==>
      mid[q].addr in mem && mem[mid[q].addr] == Hole(mid[q].size, AddrAt(t, i + q + 1));
    forall p | 0 <= p < |list| && (p < i - 1 || i < p)
      ensures list[p].addr in mem0 && list[p].addr in mem && mem[list[p].addr] == mem0[list[p].addr]
    {
      NextOf(mem0, first0, list, p);
    }
    if i > 0 {
      assert list[i - 1].addr in mem && mem[list[i - 1].addr] == Hole(list[i - 1].size, AddrAt(t, i));
    } else {
      assert first == AddrAt(t, 0);
    }
    Relink(mem0, first0, list, i, i + 1, mid, t, mem, first);
  }

  /** The links the padding headers and the header before them must hold. */
  lemma HeadAfterCarve(list: seq<Region>, i: nat, a: nat, size: nat)
    requires i < |list| && list[i].addr <= a && a + size <= list[i].End()
    ensures var t, mid, h := AllocAt(list, i, a, size), Pads(list[i], a, size), list[i];
            var back := if a + size < h.End() then Some(a + size) else AddrAt(list, i + 1);
            && AddrAt(t, i) == (if h.addr < a then Some(h.addr) else back)
            && (h.addr < a ==> mid[0] == Region(h.addr, a - h.addr) && AddrAt(t, i + 1) == back)
            && (a + size < h.End() ==>
                  && mid[|mid| - 1] == Region(a + size, h.End() - (a + size))
                  && AddrAt(t, i + |mid|) == AddrAt(list, i + 1))
            && |mid| == (if h.addr < a then 1 else 0) + (if a + size < h.End() then 1 else 0)
  {
  }

}

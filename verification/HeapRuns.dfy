/**
 * What every run of allocations and deallocations keeps: the shape of the free
 * list, the partition of the heap's bytes, and the exact undo of an allocation.
 */
module HeapRuns {
  import opened Basics
  import opened HoleLists

  function Initial(bottom: nat, size: nat): State {
    State([Region(bottom, size)], {}, 0, bottom, bottom + size)
  }

  function Alloc(s: State, i: nat, a: nat, size: nat): State
    requires i < |s.holes| && s.holes[i].addr <= a && a + size <= s.holes[i].End()
  {
    s.(holes := AllocAt(s.holes, i, a, size), live := s.live + {Region(a, size)}, used := s.used + size)
  }

  function Free(s: State, k: nat, r: Region): State
    requires k <= |s.holes| && r.size <= s.used
  {
    s.(holes := FreeAt(s.holes, k, r), live := s.live - {r}, used := s.used - r.size)
  }

  /** Hole `i` is the first one the block can be cut out of, and `a` is where it goes. */
  ghost predicate FirstFit(holes: seq<Region>, size: nat, align: nat, i: nat, a: nat)
    requires align > 0
  {
    && i < |holes|
    && Place(holes[i], size, align) == Some(a)
    && forall j :: 0 <= j < i ==> Place(holes[j], size, align).None?
  }

  ghost predicate AllocStep(s: State, layout: Layout, i: nat, a: nat, s': State) {
    && IsPowerOfTwo(layout.align)
    && AlignLayout(layout).Some?
    && var size := AlignLayout(layout).value.size;
    && FirstFit(s.holes, size, layout.align, i, a)
    && s.holes[i].addr <= a && a + size <= s.holes[i].End()
    && s' == Alloc(s, i, a, size)
  }

  ghost predicate FreeStep(s: State, k: nat, r: Region, s': State) {
    && r in s.live
    && Rank(s.holes, k, r.addr)
    && r.size <= s.used
    && s' == Free(s, k, r)
  }

  ghost predicate Step(s: State, s': State) {
    || (exists layout, i, a :: AllocStep(s, layout, i, a, s'))
    || (exists k, r :: FreeStep(s, k, r, s'))
  }

  // ----- allocation

  lemma PadsBlocks(h: Region, a: nat, size: nat)
    requires Block(h) && Block(Region(a, size)) && Roomy(h, a, size)
    ensures h.addr < a ==> Block(Region(h.addr, a - h.addr))
    ensures a + size < h.End() ==> Block(Region(a + size, h.End() - (a + size)))
  {
  }

  lemma PadsProperties(h: Region, a: nat, size: nat)
    requires Block(h) && Block(Region(a, size)) && Roomy(h, a, size)
    ensures Shape(Pads(h, a, size), h.addr, h.End())
    ensures forall i :: 0 <= i < |Pads(h, a, size)| ==> Disjoint(Pads(h, a, size)[i], Region(a, size))
    ensures Bytes(Pads(h, a, size)) + size == h.size
    ensures forall b :: h.Contains(b) ==> InHole(Pads(h, a, size), b) || Region(a, size).Contains(b)
  {
    PadsBlocks(h, a, size);
    hide OnGrid;
    var front := if h.addr < a then [Region(h.addr, a - h.addr)] else [];
    var back := if a + size < h.End() then [Region(a + size, h.End() - (a + size))] else [];
    BytesConcat(front, back);
    assert Pads(h, a, size) == front + back;
    forall b | h.Contains(b) && !Region(a, size).Contains(b)
      ensures InHole(front + back, b)
    {
      if b < a {
        assert (front + back)[0].Contains(b);
      } else {
        assert (front + back)[|front|].Contains(b);
      }
    }
  }

  /** Replacing the holes from `i` to `j` by well-shaped ones that stay clear of the rest. */
  lemma ShapeSplice(holes: seq<Region>, i: nat, j: nat, mid: seq<Region>, lo: nat, hi: nat, bottom: nat, top: nat)
    requires i <= j <= |holes| && Shape(holes, bottom, top) && Shape(mid, lo, hi) && bottom <= lo && hi <= top
    requires forall p :: 0 <= p < i ==> holes[p].End() < lo
    requires forall p :: j <= p < |holes| ==> hi < holes[p].addr
    ensures Shape(holes[..i] + mid + holes[j..], bottom, top)
  {
    hide Block;
    var t := holes[..i] + mid + holes[j..];
    forall p | 0 <= p < |t|
      ensures Block(t[p]) && bottom <= t[p].addr && t[p].End() <= top
      ensures forall q :: p < q < |t| ==> t[p].End() < t[q].addr
    {
      assert t[p] == if p < i then holes[p] else if p < i + |mid| then mid[p - i] else holes[p - i - |mid| + j];
    }
  }

  lemma AllocKeepsInv(s: State, i: nat, a: nat, size: nat)
    requires Inv(s) && i < |s.holes| && Block(Region(a, size))
    requires Roomy(s.holes[i], a, size)
    ensures Inv(Alloc(s, i, a, size))
    ensures Region(a, size) !in s.live
  {
    hide Block, InHole, InLive, LiveShape, Apart, Shape, Pads, Bytes, AllocAt;
    SortedAround(s.holes, s.bottom, s.top, i);
    PadsProperties(s.holes[i], a, size);
    AllocApart(s, i, a, size);
    AllocShape(s, i, a, size);
    forall b | s.bottom <= b < s.top
      ensures InHole(Alloc(s, i, a, size).holes, b) || InLive(Alloc(s, i, a, size).live, b)
    {
      AllocCovers(s, i, a, size, b);
    }
  }

  lemma SortedAround(holes: seq<Region>, bottom: nat, top: nat, i: nat)
    requires Shape(holes, bottom, top) && i < |holes|
    ensures bottom <= holes[i].addr && holes[i].End() <= top && Block(holes[i])
    ensures forall p :: 0 <= p < i ==> holes[p].End() < holes[i].addr
    ensures forall p :: i < p < |holes| ==> holes[i].End() < holes[p].addr
  {
  }

  lemma AllocShape(s: State, i: nat, a: nat, size: nat)
    requires Shape(s.holes, s.bottom, s.top) && i < |s.holes| && s.holes[i].addr <= a && a + size <= s.holes[i].End()
    requires Shape(Pads(s.holes[i], a, size), s.holes[i].addr, s.holes[i].End())
    requires Bytes(Pads(s.holes[i], a, size)) + size == s.holes[i].size
    ensures Shape(AllocAt(s.holes, i, a, size), s.bottom, s.top)
    ensures Bytes(AllocAt(s.holes, i, a, size)) + size == Bytes(s.holes)
  {
    var h, mid := s.holes[i], Pads(s.holes[i], a, size);
    hide *;
    SortedAround(s.holes, s.bottom, s.top, i);
    ShapeSplice(s.holes, i, i + 1, mid, h.addr, h.End(), s.bottom, s.top);
    AllocBytes(s.holes, i, a, size);
    assert AllocAt(s.holes, i, a, size) == s.holes[..i] + mid + s.holes[i + 1..] by { AllocAtIs(s.holes, i, a, size); }
  }

  lemma AllocAtIs(holes: seq<Region>, i: nat, a: nat, size: nat)
    requires i < |holes| && holes[i].addr <= a && a + size <= holes[i].End()
    ensures AllocAt(holes, i, a, size) == holes[..i] + Pads(holes[i], a, size) + holes[i + 1..]
  {
  }

  lemma AllocBytes(holes: seq<Region>, i: nat, a: nat, size: nat)
    requires i < |holes| && holes[i].addr <= a && a + size <= holes[i].End()
    requires Bytes(Pads(holes[i], a, size)) + size == holes[i].size
    ensures Bytes(AllocAt(holes, i, a, size)) + size == Bytes(holes)
  {
    var h, mid := holes[i], Pads(holes[i], a, size);
    hide Pads;
    BytesSplice(holes, i, i + 1, mid);
    assert holes[i..i + 1] == [h];
    assert Bytes([h]) == h.size;
  }

  lemma AllocApart(s: State, i: nat, a: nat, size: nat)
    requires Shape(s.holes, s.bottom, s.top) && Apart(s.holes, s.live) && i < |s.holes| && Block(Region(a, size))
    requires s.holes[i].addr <= a && a + size <= s.holes[i].End()
    requires LiveShape(s.live, s.bottom, s.top)
    requires forall p :: 0 <= p < |Pads(s.holes[i], a, size)| ==> Disjoint(Pads(s.holes[i], a, size)[p], Region(a, size))
    ensures Apart(AllocAt(s.holes, i, a, size), s.live + {Region(a, size)})
    ensures LiveShape(s.live + {Region(a, size)}, s.bottom, s.top)
    ensures Region(a, size) !in s.live
  {
    hide OnGrid;
    var h, mid := s.holes[i], Pads(s.holes[i], a, size);
    var holes := AllocAt(s.holes, i, a, size);
    forall t | t in s.live
      ensures Disjoint(h, t) && Disjoint(Region(a, size), t) && t != Region(a, size)
    {
    }
    forall p, t | 0 <= p < |holes| && t in s.live + {Region(a, size)}
      ensures Disjoint(holes[p], t)
    {
      if i <= p < i + |mid| {
        assert holes[p] == mid[p - i];
      } else {
        var q := if p < i then p else p - |mid| + 1;
        assert holes[p] == s.holes[q];
        assert q < i ==> s.holes[q].End() < h.addr;
        assert i < q ==> h.End() < s.holes[q].addr;
      }
    }
  }

  lemma AllocCovers(s: State, i: nat, a: nat, size: nat, b: int)
    requires i < |s.holes| && s.holes[i].addr <= a && a + size <= s.holes[i].End()
    requires forall b :: s.holes[i].Contains(b) ==>
               InHole(Pads(s.holes[i], a, size), b) || Region(a, size).Contains(b)
    requires InHole(s.holes, b) || InLive(s.live, b)
    ensures InHole(Alloc(s, i, a, size).holes, b) || InLive(Alloc(s, i, a, size).live, b)
  {
    var mid := Pads(s.holes[i], a, size);
    var s' := Alloc(s, i, a, size);
    if InLive(s.live, b) {
      var t :| t in s.live && t.Contains(b);
      assert t in s'.live;
    } else {
      InHoleSplice(s.holes, i, i + 1, mid, b);
      if InHole(s.holes[i..i + 1], b) {
        if InHole(mid, b) {
          InHoleMid(s.holes[..i], mid, s.holes[i + 1..], b);
        } else {
          assert Region(a, size) in s'.live && Region(a, size).Contains(b);
        }
      }
    }
  }

  // ----- deallocation

  lemma {:induction false} RankExists(holes: seq<Region>, r: Region, bottom: nat, top: nat) returns (k: nat)
    requires Shape(holes, bottom, top) && r.size > 0
    requires forall i :: 0 <= i < |holes| ==> Disjoint(holes[i], r)
    ensures Rank(holes, k, r.addr)
  {
    hide OnGrid;
    k := 0;
    while k < |holes| && holes[k].addr < r.addr
      invariant k <= |holes|
      invariant forall i :: 0 <= i < k ==> holes[i].addr < r.addr
    {
      k := k + 1;
    }
  }

  /** Facts about the neighbours of a live block: the holes around it end before or start after it. */
  lemma Neighbours(s: State, k: nat, r: Region)
    requires Inv(s) && r in s.live && Rank(s.holes, k, r.addr)
    ensures forall i :: 0 <= i < k ==> s.holes[i].End() <= r.addr
    ensures forall i :: k <= i < |s.holes| ==> r.End() <= s.holes[i].addr
    ensures forall i :: 0 <= i < k - 1 ==> s.holes[i].End() < r.addr
    ensures forall i :: k < i < |s.holes| ==> r.End() < s.holes[i].addr
  {
    hide OnGrid;
    assert forall i :: 0 <= i < |s.holes| ==> Disjoint(s.holes[i], r);
    assert forall i :: 0 <= i < k - 1 ==> s.holes[i].End() < s.holes[k - 1].addr;
    assert forall i :: k < i < |s.holes| ==> s.holes[k].End() < s.holes[i].addr;
  }

  /** `m` takes the place of holes `i` to `j`: it spans them and `r`, and no other hole touches it. */
  ghost predicate Spans(holes: seq<Region>, bottom: nat, top: nat, i: nat, j: nat, m: Region, r: Region) {
    && i <= j <= |holes| && Block(m) && bottom <= m.addr <= r.addr && r.End() <= m.End() <= top
    && (forall p :: 0 <= p < i ==> holes[p].End() < m.addr)
    && (forall p :: j <= p < |holes| ==> m.End() < holes[p].addr)
    && (forall p :: i <= p < j ==> m.addr <= holes[p].addr && holes[p].End() <= m.End())
  }

  lemma JoinedBelow(holes: seq<Region>, bottom: nat, top: nat, k: nat, r: Region)
    requires Shape(holes, bottom, top) && Block(r) && bottom <= r.addr && k <= |holes|
    requires forall p :: 0 <= p < k ==> holes[p].End() <= r.addr
    requires forall p :: 0 <= p < k - 1 ==> holes[p].End() < r.addr
    ensures var i := MergedFrom(holes, k, r);
            var m := if i < k then Join(holes[k - 1], r) else r;
            && i <= k && Block(m) && bottom <= m.addr <= r.addr && m.End() == r.End()
            && (forall p :: 0 <= p < i ==> holes[p].End() < m.addr)
            && (forall p :: i <= p < k ==> m.addr <= holes[p].addr && holes[p].End() <= m.End())
  {
    hide OnGrid, Block;
    if MergedFrom(holes, k, r) < k {
      JoinBlock(holes[k - 1], r);
      assert forall p :: 0 <= p < k - 1 ==> holes[p].End() < holes[k - 1].addr;
    }
  }

  lemma JoinedAbove(holes: seq<Region>, bottom: nat, top: nat, k: nat, m: Region, r: Region)
    requires Shape(holes, bottom, top) && Block(m) && m.End() == r.End() <= top && k <= |holes|
    requires forall p :: k <= p < |holes| ==> r.End() <= holes[p].addr
    requires forall p :: k < p < |holes| ==> r.End() < holes[p].addr
    ensures var j := MergedTo(holes, k, r);
            var n := if k < j then Join(m, holes[k]) else m;
            && k <= j <= |holes| && Block(n) && n.addr == m.addr && r.End() <= n.End() <= top
            && (forall p :: j <= p < |holes| ==> n.End() < holes[p].addr)
            && (forall p :: k <= p < j ==> m.End() <= holes[p].addr && holes[p].End() <= n.End())
  {
    hide OnGrid, Block;
    if k < MergedTo(holes, k, r) {
      JoinBlock(m, holes[k]);
      assert forall p :: k < p < |holes| ==> holes[k].End() < holes[p].addr;
    }
  }

  lemma JoinedBoth(holes: seq<Region>, bottom: nat, top: nat, k: nat, r: Region)
    requires Shape(holes, bottom, top) && Block(r) && bottom <= r.addr && r.End() <= top && k <= |holes|
    requires forall p :: 0 <= p < k ==> holes[p].End() <= r.addr
    requires forall p :: 0 <= p < k - 1 ==> holes[p].End() < r.addr
    requires forall p :: k <= p < |holes| ==> r.End() <= holes[p].addr
    requires forall p :: k < p < |holes| ==> r.End() < holes[p].addr
    ensures Spans(holes, bottom, top, MergedFrom(holes, k, r), MergedTo(holes, k, r), Merged(holes, k, r), r)
  {
    hide Block, Shape, MergedFrom, MergedTo;
    JoinedBelow(holes, bottom, top, k, r);
    var m := if MergedFrom(holes, k, r) < k then Join(holes[k - 1], r) else r;
    JoinedAbove(holes, bottom, top, k, m, r);
    hide Join;
  }

  /** The new hole spans the freed block and the neighbours it touched, and nothing else touches it. */
  lemma MergedSpan(s: State, k: nat, r: Region)
    requires Inv(s) && r in s.live && Rank(s.holes, k, r.addr)
    ensures Spans(s.holes, s.bottom, s.top, MergedFrom(s.holes, k, r), MergedTo(s.holes, k, r), Merged(s.holes, k, r), r)
  {
    hide Block, Shape, LiveShape, Apart, Covered, MergedFrom, MergedTo, Merged, Spans, Bytes;
    Neighbours(s, k, r);
    LiveWithout(s.live, s.bottom, s.top, r);
    JoinedBoth(s.holes, s.bottom, s.top, k, r);
  }

  lemma JoinBlock(a: Region, b: Region)
    requires Block(a) && Block(b) && a.End() == b.addr
    ensures Block(Join(a, b)) && Join(a, b).End() == b.End()
  {
  }

  lemma MergedBytes(holes: seq<Region>, k: nat, r: Region)
    requires k <= |holes|
    ensures var i, j, m := MergedFrom(holes, k, r), MergedTo(holes, k, r), Merged(holes, k, r);
            && m.size == Bytes(holes[i..j]) + r.size
            && (forall b :: m.Contains(b) ==> InHole(holes[i..j], b) || r.Contains(b))
  {
    var i, j, m := MergedFrom(holes, k, r), MergedTo(holes, k, r), Merged(holes, k, r);
    var part := holes[i..j];
    if i < k && k < j {
      assert part == [holes[k - 1]] + [holes[k]];
      BytesConcat([holes[k - 1]], [holes[k]]);
    } else if i < k {
      assert part == [holes[k - 1]];
    } else if k < j {
      assert part == [holes[k]];
    }
    assert forall h: Region :: Bytes([h]) == h.size;
    forall b | m.Contains(b) && !r.Contains(b)
      ensures InHole(part, b)
    {
      if b < r.addr {
        assert part[0].Contains(b);
      } else {
        assert part[j - i - 1].Contains(b);
      }
    }
  }

  lemma BytesAtLeastPart(holes: seq<Region>, bottom: nat, top: nat)
    requires Shape(holes, bottom, top) && bottom <= top
    ensures Bytes(holes) <= top - bottom
    decreases |holes|
  {
    hide OnGrid;
    if |holes| > 0 {
      assert forall i :: 0 < i < |holes| ==> holes[0].End() < holes[i].addr;
      BytesAtLeastPart(holes[1..], holes[0].End(), top);
    }
  }

  /** A live block is never larger than what is in use, so the counter cannot underflow. */
  lemma LiveWithinUsed(s: State, k: nat, r: Region)
    requires Inv(s) && r in s.live && Rank(s.holes, k, r.addr)
    ensures r.size <= s.used
  {
    hide OnGrid;
    Neighbours(s, k, r);
    BytesAroundGap(s.holes, s.bottom, s.top, k, r);
  }

  lemma BytesAroundGap(holes: seq<Region>, bottom: nat, top: nat, k: nat, r: Region)
    requires Shape(holes, bottom, top) && k <= |holes| && bottom <= r.addr && r.End() <= top
    requires forall i :: 0 <= i < k ==> holes[i].End() <= r.addr
    requires forall i :: k <= i < |holes| ==> r.End() <= holes[i].addr
    ensures Bytes(holes) + r.size <= top - bottom
  {
    hide Block, Bytes;
    assert Shape(holes[..k], bottom, r.addr);
    assert Shape(holes[k..], r.End(), top);
    hide Shape;
    BytesAtLeastPart(holes[..k], bottom, r.addr);
    BytesAtLeastPart(holes[k..], r.End(), top);
    BytesConcat(holes[..k], holes[k..]);
    assert holes == holes[..k] + holes[k..];
  }

  lemma FreeKeepsInv(s: State, k: nat, r: Region)
    requires Inv(s) && r in s.live && Rank(s.holes, k, r.addr)
    ensures r.size <= s.used
    ensures Inv(Free(s, k, r))
  {
    LiveWithUsed(s, k, r);
    MergedSpan(s, k, r);
    hide Merged, MergedFrom, MergedTo, Block, Bytes, LiveShape, Apart, Shape, Covered, Rank, Spans;
    MergedBytes(s.holes, k, r);
    FreeShape(s, k, r);
    FreeApart(s, k, r);
    FreeCovered(s, k, r);
    hide FreeAt;
  }

  lemma LiveWithUsed(s: State, k: nat, r: Region)
    requires Inv(s) && r in s.live && Rank(s.holes, k, r.addr)
    ensures r.size <= s.used && LiveShape(s.live - {r}, s.bottom, s.top)
  {
    LiveWithinUsed(s, k, r);
    LiveWithout(s.live, s.bottom, s.top, r);
    hide LiveShape, Inv;
  }

  lemma LiveWithout(live: set<Region>, bottom: nat, top: nat, r: Region)
    requires LiveShape(live, bottom, top) && r in live
    ensures LiveShape(live - {r}, bottom, top)
    ensures Block(r) && r.size > 0 && bottom <= r.addr && r.End() <= top
  {
  }

  lemma FreeShape(s: State, k: nat, r: Region)
    requires Shape(s.holes, s.bottom, s.top) && k <= |s.holes|
    requires var i, j, m := MergedFrom(s.holes, k, r), MergedTo(s.holes, k, r), Merged(s.holes, k, r);
             Spans(s.holes, s.bottom, s.top, i, j, m, r) && m.size == Bytes(s.holes[i..j]) + r.size
    ensures Shape(FreeAt(s.holes, k, r), s.bottom, s.top)
    ensures Bytes(FreeAt(s.holes, k, r)) == Bytes(s.holes) + r.size
  {
    hide Merged, MergedFrom, MergedTo;
    var i, j, m := MergedFrom(s.holes, k, r), MergedTo(s.holes, k, r), Merged(s.holes, k, r);
    assert Shape([m], m.addr, m.End());
    hide Block;
    ShapeSplice(s.holes, i, j, [m], m.addr, m.End(), s.bottom, s.top);
    hide Shape;
    BytesSplice(s.holes, i, j, [m]);
    assert Bytes([m]) == m.size;
  }

  lemma DisjointByBytes(m: Region, l: Region)
    requires forall b :: m.Contains(b) ==> !l.Contains(b)
    requires m.size > 0 && l.size > 0
    ensures Disjoint(m, l)
  {
    var b := NatMax(m.addr, l.addr);
    assert !(m.Contains(b) && l.Contains(b));
  }

  lemma MergedApart(part: seq<Region>, r: Region, m: Region, l: Region)
    requires Disjoint(r, l) && forall q :: 0 <= q < |part| ==> Disjoint(part[q], l)
    requires forall b :: m.Contains(b) ==> InHole(part, b) || r.Contains(b)
    requires m.size > 0 && l.size > 0
    ensures Disjoint(m, l)
  {
    DisjointByBytes(m, l);
  }

  lemma FreeApart(s: State, k: nat, r: Region)
    requires LiveShape(s.live, s.bottom, s.top) && Apart(s.holes, s.live) && r in s.live && k <= |s.holes|
    requires var i, j, m := MergedFrom(s.holes, k, r), MergedTo(s.holes, k, r), Merged(s.holes, k, r);
             && Spans(s.holes, s.bottom, s.top, i, j, m, r)
             && (forall b :: m.Contains(b) ==> InHole(s.holes[i..j], b) || r.Contains(b))
    ensures Apart(FreeAt(s.holes, k, r), s.live - {r})
  {
    hide OnGrid, Merged, MergedFrom, MergedTo, InHole;
    var i, j, m := MergedFrom(s.holes, k, r), MergedTo(s.holes, k, r), Merged(s.holes, k, r);
    var t := s.holes[..i] + [m] + s.holes[j..];
    assert FreeAt(s.holes, k, r) == t && m.size > 0;
    hide FreeAt, Spans;
    forall p, l | 0 <= p < |t| && l in s.live - {r}
      ensures Disjoint(t[p], l)
    {
      if p == i {
        assert Disjoint(r, l);
        MergedApart(s.holes[i..j], r, m, l);
      } else {
        assert t[p] == s.holes[if p < i then p else p - i - 1 + j];
      }
    }
  }

  lemma FreeCovered(s: State, k: nat, r: Region)
    requires Covered(s) && k <= |s.holes|
    requires Spans(s.holes, s.bottom, s.top, MergedFrom(s.holes, k, r), MergedTo(s.holes, k, r), Merged(s.holes, k, r), r)
    ensures forall b :: s.bottom <= b < s.top ==> InHole(FreeAt(s.holes, k, r), b) || InLive(s.live - {r}, b)
  {
    hide MergedFrom, MergedTo, Merged, InHole, InLive, Spans;
    var i, j, m := MergedFrom(s.holes, k, r), MergedTo(s.holes, k, r), Merged(s.holes, k, r);
    forall b | s.bottom <= b < s.top
      ensures InHole(FreeAt(s.holes, k, r), b) || InLive(s.live - {r}, b)
    {
      FreeCovers(s, i, j, r, m, b);
    }
  }

  lemma FreeCovers(s: State, i: nat, j: nat, r: Region, m: Region, b: int)
    requires Spans(s.holes, s.bottom, s.top, i, j, m, r)
    requires InHole(s.holes, b) || InLive(s.live, b)
    ensures i <= j <= |s.holes| && (InHole(s.holes[..i] + [m] + s.holes[j..], b) || InLive(s.live - {r}, b))
  {
    if InLive(s.live, b) {
      var t :| t in s.live && t.Contains(b);
      if t == r {
        assert [m][0].Contains(b);
        InHoleMid(s.holes[..i], [m], s.holes[j..], b);
      } else {
        assert t in s.live - {r};
      }
    } else {
      InHoleSplice(s.holes, i, j, [m], b);
      if InHole(s.holes[i..j], b) {
        var q :| 0 <= q < |s.holes[i..j]| && s.holes[i..j][q].Contains(b);
        assert s.holes[i..j][q] == s.holes[i + q];
        assert [m][0].Contains(b);
        InHoleMid(s.holes[..i], [m], s.holes[j..], b);
      }
    }
  }

  // ----- whole runs

  lemma InitialInv(bottom: nat, size: nat)
    requires Block(Region(bottom, size))
    ensures Inv(Initial(bottom, size))
  {
    var s := Initial(bottom, size);
    assert Bytes(s.holes) == size;
    forall b | s.bottom <= b < s.top
      ensures InHole(s.holes, b)
    {
      assert s.holes[0].Contains(b);
    }
  }

  lemma AllocStepKeepsInv(s: State, layout: Layout, i: nat, a: nat, s': State)
    requires Inv(s) && AllocStep(s, layout, i, a, s')
    ensures Inv(s')
    ensures a % layout.align == 0 && Region(a, AlignLayout(layout).value.size) in s'.live - s.live
  {
    hide Place, AlignLayout;
    var size := AlignLayout(layout).value.size;
    PlaceIsLowestLegal(s.holes[i], size, layout.align);
    AllocKeepsInv(s, i, a, size);
  }

  lemma StepKeepsInv(s: State, s': State)
    requires Inv(s) && Step(s, s')
    ensures Inv(s') && s'.bottom == s.bottom && s'.top == s.top
  {
    hide OnGrid;
    if layout, i, a :| AllocStep(s, layout, i, a, s') {
      AllocStepKeepsInv(s, layout, i, a, s');
    } else {
      var k, r :| FreeStep(s, k, r, s');
      FreeKeepsInv(s, k, r);
    }
  }

  ghost predicate IsRun(run: seq<State>) {
    forall i :: 0 <= i < |run| - 1 ==> Step(run[i], run[i + 1])
  }

  /** Over every run from a fresh heap, every state has a well-shaped list that partitions the heap's bytes. */
  lemma {:induction false} EveryRunKeepsInv(run: seq<State>, n: nat)
    requires n < |run| && IsRun(run) && Inv(run[0])
    ensures Inv(run[n]) && run[n].bottom == run[0].bottom && run[n].top == run[0].top
  {
    if n > 0 {
      EveryRunKeepsInv(run, n - 1);
      StepKeepsInv(run[n - 1], run[n]);
    }
  }

  /** No byte is in two regions: together with `Covered`, the regions partition the heap. */
  lemma EachByteInOneRegion(s: State, b: int)
    requires Inv(s) && s.bottom <= b < s.top
    ensures InHole(s.holes, b) != InLive(s.live, b)
    ensures forall i, j :: 0 <= i < |s.holes| && 0 <= j < |s.holes| && s.holes[i].Contains(b) && s.holes[j].Contains(b) ==> i == j
    ensures forall r, t :: r in s.live && t in s.live && r.Contains(b) && t.Contains(b) ==> r == t
  {
  }

  /** Freeing a block right after allocating it restores the whole state. */
  lemma FreeUndoesAlloc(s: State, i: nat, a: nat, size: nat, k: nat)
    requires Inv(s) && i < |s.holes| && Block(Region(a, size))
    requires Roomy(s.holes[i], a, size)
    requires Rank(Alloc(s, i, a, size).holes, k, a)
    ensures Free(Alloc(s, i, a, size), k, Region(a, size)) == s
  {
    hide OnGrid;
    AllocKeepsInv(s, i, a, size);
    RankAfterAlloc(s.holes, s.bottom, s.top, i, a, size);
    RankUnique(Alloc(s, i, a, size).holes, k, if s.holes[i].addr < a then i + 1 else i, a);
    RefillAfterAlloc(s.holes, s.bottom, s.top, i, a, size, k);
    assert Alloc(s, i, a, size).live - {Region(a, size)} == s.live;
  }

  lemma RankUnique(t: seq<Region>, k: nat, l: nat, addr: nat)
    requires Rank(t, k, addr) && Rank(t, l, addr)
    ensures k == l
  {
    var u := if k < |t| then t[k] else Region(0, 0);
    var v := if l < |t| then t[l] else Region(0, 0);
  }

  lemma RankAfterAlloc(holes: seq<Region>, bottom: nat, top: nat, i: nat, a: nat, size: nat)
    requires Shape(holes, bottom, top) && i < |holes| && size > 0
    requires holes[i].addr <= a && a + size <= holes[i].End()
    ensures Rank(AllocAt(holes, i, a, size), if holes[i].addr < a then i + 1 else i, a)
  {
  }

  lemma NeighboursAfterAlloc(holes: seq<Region>, i: nat, a: nat, size: nat)
    requires i < |holes| && size > 0 && holes[i].addr <= a && a + size <= holes[i].End()
    ensures var t, h := AllocAt(holes, i, a, size), holes[i];
            var k := if h.addr < a then i + 1 else i;
            && k <= |t|
            && (k > 0 ==> t[k - 1] == if h.addr < a then Region(h.addr, a - h.addr) else holes[i - 1])
            && (a + size < h.End() ==> k < |t| && t[k] == Region(a + size, h.End() - (a + size)))
            && (a + size == h.End() && k < |t| ==> i + 1 < |holes| && t[k] == holes[i + 1])
            && t[..i] == holes[..i]
            && t[i + |Pads(h, a, size)|..] == holes[i + 1..]
  {
  }

  lemma RefillAfterAlloc(holes: seq<Region>, bottom: nat, top: nat, i: nat, a: nat, size: nat, k: nat)
    requires Shape(holes, bottom, top) && i < |holes| && size > 0
    requires holes[i].addr <= a && a + size <= holes[i].End()
    requires k == if holes[i].addr < a then i + 1 else i
    ensures k <= |AllocAt(holes, i, a, size)|
    ensures FreeAt(AllocAt(holes, i, a, size), k, Region(a, size)) == holes
  {
    hide AllocAt, Shape, Block, Merged, MergedFrom, MergedTo, Pads;
    var h, r := holes[i], Region(a, size);
    var t := AllocAt(holes, i, a, size);
    NeighboursAfterAlloc(holes, i, a, size);
    SortedAround(holes, bottom, top, i);
    RefillMerged(holes, t, i, a, size, k);
    assert holes == holes[..i] + [h] + holes[i + 1..];
  }

  lemma RefillMerged(holes: seq<Region>, t: seq<Region>, i: nat, a: nat, size: nat, k: nat)
    requires i < |holes| && size > 0 && k <= |t|
    requires holes[i].addr <= a && a + size <= holes[i].End()
    requires k == if holes[i].addr < a then i + 1 else i
    requires k > 0 ==> t[k - 1] == if holes[i].addr < a then Region(holes[i].addr, a - holes[i].addr) else holes[i - 1]
    requires a + size < holes[i].End() ==> k < |t| && t[k] == Region(a + size, holes[i].End() - (a + size))
    requires a + size == holes[i].End() && k < |t| ==> i + 1 < |holes| && t[k] == holes[i + 1]
    requires i > 0 ==> holes[i - 1].End() < holes[i].addr
    requires i + 1 < |holes| ==> holes[i].End() < holes[i + 1].addr
    ensures MergedFrom(t, k, Region(a, size)) == i
    ensures MergedTo(t, k, Region(a, size)) == i + |Pads(holes[i], a, size)|
    ensures Merged(t, k, Region(a, size)) == holes[i]
  {
  }

  lemma NoHoleAtEnd(holes: seq<Region>, bottom: nat, top: nat, i: nat)
    requires Shape(holes, bottom, top) && i < |holes|
    ensures !InHole(holes, holes[i].End())
  {
  }

  lemma OnlyHole(holes: seq<Region>, bottom: nat, top: nat, i: nat)
    requires Shape(holes, bottom, top) && i < |holes| && holes[i].addr == bottom && holes[i].End() == top
    ensures |holes| == 1
  {
    hide OnGrid;
    var first, last := holes[0], holes[|holes| - 1];
  }

  /** Once nothing is live the list is one hole covering the heap. */
  lemma AllFreeIsOneHole(s: State)
    requires Inv(s) && s.live == {} && s.bottom < s.top
    ensures s.holes == [Region(s.bottom, s.top - s.bottom)] && s.used == 0
  {
    hide OnGrid;
    assert InHole(s.holes, s.bottom);
    var i :| 0 <= i < |s.holes| && s.holes[i].Contains(s.bottom);
    var h := s.holes[i];
    NoHoleAtEnd(s.holes, s.bottom, s.top, i);
    assert !(s.bottom <= h.End() < s.top);
    OnlyHole(s.holes, s.bottom, s.top, i);
    assert Bytes(s.holes) == h.size;
  }

  /** A request is refused only when no hole has any legal place for it. */
  lemma RefusedOnlyWhenNoPlace(s: State, size: nat, align: nat)
    requires Inv(s) && IsPowerOfTwo(align) && size % HOLE_ALIGN == 0 && size >= MIN_SIZE
    ensures (forall i :: 0 <= i < |s.holes| ==> Place(s.holes[i], size, align).None?)
            <==> (forall i, a: nat :: 0 <= i < |s.holes| ==> !Legal(s.holes[i], a, size, align))
  {
    forall i | 0 <= i < |s.holes|
      ensures Place(s.holes[i], size, align).None? <==> forall a: nat :: !Legal(s.holes[i], a, size, align)
    {
      PlaceIsLowestLegal(s.holes[i], size, align);
    }
  }
}

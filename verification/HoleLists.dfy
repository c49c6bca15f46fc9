/**
 * The value of the kernel heap's free list (kernel/src/mem/allocator.rs): an
 * address-ordered sequence of holes, the live blocks handed out, and what one
 * allocation or deallocation does to them.
 */
module HoleLists {
  import opened Basics

  const MIN_SIZE: nat := 16
  const HOLE_ALIGN: nat := 8
  const ISIZE_MAX: nat := 0x7fff_ffff_ffff_ffff

  datatype Region = Region(addr: nat, size: nat) {
    function End(): nat { addr + size }
    predicate Contains(b: int) { addr <= b < End() }
  }

  datatype Layout = Layout(size: nat, align: nat)

  /** `holes` and `used` are the allocator's own; `live` is what its callers hold. */
  datatype State = State(holes: seq<Region>, live: set<Region>, used: nat, bottom: nat, top: nat)

  // ----- what the allocator computes

  /** A request is rounded up to hold a hole header when it is freed. */
  function AlignLayout(l: Layout): (r: Option<Layout>)
    requires l.align > 0
    ensures r.Some? ==> r.value.align == l.align && l.size <= r.value.size
                        && r.value.size % HOLE_ALIGN == 0 && r.value.size >= MIN_SIZE
                        && r.value.size < NatMax(l.size, MIN_SIZE) + HOLE_ALIGN
    ensures r.None? <==> exists size: nat :: size % HOLE_ALIGN == 0 && NatMax(l.size, MIN_SIZE) <= size < NatMax(l.size, MIN_SIZE) + HOLE_ALIGN
                                             && size > ISIZE_MAX + 1 - l.align
  {
    var size := AlignUp(NatMax(l.size, MIN_SIZE), HOLE_ALIGN);
    if size <= ISIZE_MAX + 1 - l.align then Some(Layout(size, l.align)) else None
  }

  /** The address tried in a hole: its start, or the first aligned one leaving room for a front hole. */
  function Candidate(h: Region, align: nat): nat
    requires align > 0
  {
    if h.addr == AlignUp(h.addr, align) then h.addr else AlignUp(h.addr + MIN_SIZE, align)
  }

  /** Where a block goes inside one hole, if it can be cut out of it. */
  function Place(h: Region, size: nat, align: nat): Option<nat>
    requires align > 0
  {
    if h.size < size then None
    else
      var a := Candidate(h, align);
      if a + size > h.End() then None
      else if a + size == h.End() || AlignUp(a + size, HOLE_ALIGN) + MIN_SIZE <= h.End() then Some(a)
      else None
  }

  /** The front and back padding left of hole `h` around a block. */
  function Pads(h: Region, a: nat, size: nat): seq<Region>
    requires h.addr <= a && a + size <= h.End()
  {
    (if h.addr < a then [Region(h.addr, a - h.addr)] else []) +
    (if a + size < h.End() then [Region(a + size, h.End() - (a + size))] else [])
  }

  function AllocAt(holes: seq<Region>, i: nat, a: nat, size: nat): seq<Region>
    requires i < |holes| && holes[i].addr <= a && a + size <= holes[i].End()
  {
    holes[..i] + Pads(holes[i], a, size) + holes[i + 1..]
  }

  /** `k` is where a hole at `addr` belongs in an address-ordered list. */
  ghost predicate Rank(holes: seq<Region>, k: nat, addr: nat) {
    && k <= |holes|
    && (forall i :: 0 <= i < k ==> holes[i].addr < addr)
    && (forall i :: k <= i < |holes| ==> addr < holes[i].addr)
  }

  /** The slice of the list a block freed at rank `k` replaces: the neighbours it touches. */
  function MergedFrom(holes: seq<Region>, k: nat, r: Region): nat
    requires k <= |holes|
  {
    if k > 0 && holes[k - 1].End() == r.addr then k - 1 else k
  }

  function MergedTo(holes: seq<Region>, k: nat, r: Region): nat
    requires k <= |holes|
  {
    if k < |holes| && r.End() == holes[k].addr then k + 1 else k
  }

  /** `b` appended to the region that ends where it starts. */
  function Join(a: Region, b: Region): Region { Region(a.addr, a.size + b.size) }

  function Merged(holes: seq<Region>, k: nat, r: Region): Region
    requires k <= |holes|
  {
    var m := if MergedFrom(holes, k, r) < k then Join(holes[k - 1], r) else r;
    if k < MergedTo(holes, k, r) then Join(m, holes[k]) else m
  }

  /** The list after freeing `r` at rank `k`, merged with whichever neighbours it touches. */
  function FreeAt(holes: seq<Region>, k: nat, r: Region): seq<Region>
    requires k <= |holes|
  {
    holes[..MergedFrom(holes, k, r)] + [Merged(holes, k, r)] + holes[MergedTo(holes, k, r)..]
  }

  function Bytes(holes: seq<Region>): nat {
    if holes == [] then 0 else holes[0].size + Bytes(holes[1..])
  }

  // ----- the invariant

  predicate OnGrid(r: Region) { r.addr % HOLE_ALIGN == 0 && r.size % HOLE_ALIGN == 0 }

  predicate Block(r: Region) { OnGrid(r) && r.size >= MIN_SIZE }

  predicate Disjoint(a: Region, b: Region) { a.End() <= b.addr || b.End() <= a.addr }

  /** Aligned, big enough, inside the heap, address-ordered, and no two touching. */
  ghost predicate Shape(holes: seq<Region>, bottom: nat, top: nat) {
    && (forall i :: 0 <= i < |holes| ==> Block(holes[i]) && bottom <= holes[i].addr && holes[i].End() <= top)
    && (forall i, j :: 0 <= i < j < |holes| ==> holes[i].End() < holes[j].addr)
  }

  ghost predicate LiveShape(live: set<Region>, bottom: nat, top: nat) {
    && (forall r :: r in live ==> Block(r) && bottom <= r.addr && r.End() <= top)
    && (forall r, t :: r in live && t in live && r != t ==> Disjoint(r, t))
  }

  ghost predicate Apart(holes: seq<Region>, live: set<Region>) {
    forall i, r :: 0 <= i < |holes| && r in live ==> Disjoint(holes[i], r)
  }

  ghost predicate InHole(holes: seq<Region>, b: int) {
    exists i :: 0 <= i < |holes| && holes[i].Contains(b)
  }

  ghost predicate InLive(live: set<Region>, b: int) {
    exists r :: r in live && r.Contains(b)
  }

  ghost predicate Covered(s: State) {
    forall b :: s.bottom <= b < s.top ==> InHole(s.holes, b) || InLive(s.live, b)
  }

  ghost predicate Inv(s: State) {
    && s.bottom <= s.top
    && Shape(s.holes, s.bottom, s.top)
    && LiveShape(s.live, s.bottom, s.top)
    && Apart(s.holes, s.live)
    && Covered(s)
    && s.used + Bytes(s.holes) == s.top - s.bottom
  }

  // ----- placing a block inside a hole

  /** A placement that leaves either nothing or room for a hole on each side. */
  predicate Roomy(h: Region, a: nat, size: nat) {
    && (a == h.addr || h.addr + MIN_SIZE <= a)
    && (a + size == h.End() || a + size + MIN_SIZE <= h.End())
  }

  predicate Legal(h: Region, a: nat, size: nat, align: nat)
    requires align > 0
  {
    a % align == 0 && Roomy(h, a, size)
  }

  lemma SmallPowerDivides(x: nat, align: nat)
    requires IsPowerOfTwo(align) && align < MIN_SIZE && x % HOLE_ALIGN == 0
    ensures x % align == 0
  {
    SmallPowerOrMultipleOfEight(align);
    hide IsPowerOfTwo;
    assert x % 1 == 0 && x % 2 == 0 && x % 4 == 0;
    if align == 1 {} else if align == 2 {} else if align == 4 {} else {}
  }

  lemma AlignedToEight(a: nat, h: Region, align: nat)
    requires IsPowerOfTwo(align) && Block(h) && h.addr % align != 0 && a % align == 0
    ensures a % HOLE_ALIGN == 0 && align >= MIN_SIZE
  {
    if align < MIN_SIZE {
      SmallPowerDivides(h.addr, align);
    } else {
      SmallPowerOrMultipleOfEight(align);
      hide IsPowerOfTwo;
      MultipleOfEight(a, align);
    }
  }

  lemma CandidateIsLowest(h: Region, align: nat)
    requires Block(h) && IsPowerOfTwo(align)
    ensures var c := Candidate(h, align);
            && c % align == 0 && c % HOLE_ALIGN == 0
            && (c == h.addr || h.addr + MIN_SIZE <= c)
            && forall a: nat :: a % align == 0 && (a == h.addr || h.addr + MIN_SIZE <= a) ==> c == a || c + MIN_SIZE <= a
  {
    AlignUpIsLeastMultiple(h.addr, align);
    AlignUpIsLeastMultiple(h.addr + MIN_SIZE, align);
    var c := Candidate(h, align);
    if h.addr % align != 0 {
      AlignedToEight(c, h, align);
      forall a: nat | a % align == 0 && h.addr + MIN_SIZE <= a && a != c
        ensures c + MIN_SIZE <= a
      {
        NextMultiple(c, a, align);
      }
    }
  }

  /** The hole is used exactly when some legal placement exists, and then at the lowest one. */
  lemma PlaceIsLowestLegal(h: Region, size: nat, align: nat)
    requires Block(h) && IsPowerOfTwo(align) && size % HOLE_ALIGN == 0 && size >= MIN_SIZE
    ensures Place(h, size, align).Some? ==>
              Legal(h, Place(h, size, align).value, size, align) && Block(Region(Place(h, size, align).value, size))
    ensures Place(h, size, align).Some? ==> Roomy(h, Place(h, size, align).value, size)
    ensures forall a: nat :: Legal(h, a, size, align) ==>
              Place(h, size, align).Some? && Place(h, size, align).value <= a
  {
    hide Candidate;
    CandidateIsLowest(h, align);
    PlaceUnfolded(h, size, align);
  }

  lemma PlaceInside(h: Region, size: nat, align: nat)
    requires Block(h) && IsPowerOfTwo(align) && size % HOLE_ALIGN == 0 && size >= MIN_SIZE
    ensures Place(h, size, align).Some? ==>
              Roomy(h, Place(h, size, align).value, size) && Block(Region(Place(h, size, align).value, size))
  {
    hide Place, Legal;
    PlaceIsLowestLegal(h, size, align);
  }

  /** With sizes in units of eight the back padding starts right after the block. */
  lemma PlaceUnfolded(h: Region, size: nat, align: nat)
    requires align > 0 && Candidate(h, align) % HOLE_ALIGN == 0 && size % HOLE_ALIGN == 0
    requires h.addr <= Candidate(h, align)
    ensures var c := Candidate(h, align);
            Place(h, size, align) ==
            if c + size == h.End() || c + size + MIN_SIZE <= h.End() then Some(c) else None
  {
    hide Candidate;
    var c := Candidate(h, align);
    AlignUpIsLeastMultiple(c + size, HOLE_ALIGN);
  }

  lemma NextMultiple(x: nat, y: nat, a: nat)
    requires a > 0 && x % a == 0 && y % a == 0 && x < y
    ensures x + a <= y
  {
    var p, q := x / a, y / a;
    assert x == p * a && y == q * a;
    assert p < q ==> (p + 1) * a <= q * a;
    assert q <= p ==> q * a <= p * a;
  }

  // ----- sums and coverage

  lemma {:induction false} BytesConcat(x: seq<Region>, y: seq<Region>)
    ensures Bytes(x + y) == Bytes(x) + Bytes(y)
  {
    if x == [] {
      assert x + y == y;
    } else {
      BytesConcat(x[1..], y);
      assert (x + y)[1..] == x[1..] + y;
    }
  }

  lemma BytesSplice(holes: seq<Region>, i: nat, j: nat, mid: seq<Region>)
    requires i <= j <= |holes|
    ensures Bytes(holes[..i] + mid + holes[j..]) + Bytes(holes[i..j]) == Bytes(holes) + Bytes(mid)
  {
    BytesConcat(holes[..i] + mid, holes[j..]);
    BytesConcat(holes[..i], mid);
    assert holes == holes[..i] + (holes[i..j] + holes[j..]);
    BytesConcat(holes[..i], holes[i..j] + holes[j..]);
    BytesConcat(holes[i..j], holes[j..]);
  }

  lemma InHoleSplice(holes: seq<Region>, i: nat, j: nat, mid: seq<Region>, b: int)
    requires i <= j <= |holes|
    requires InHole(holes, b)
    ensures InHole(holes[..i] + mid + holes[j..], b) || InHole(holes[i..j], b)
  {
    var k :| 0 <= k < |holes| && holes[k].Contains(b);
    var s := holes[..i] + mid + holes[j..];
    if k < i {
      assert s[k] == holes[k];
    } else if k < j {
      assert holes[i..j][k - i] == holes[k];
    } else {
      assert s[i + |mid| + (k - j)] == holes[k];
    }
  }

  lemma InHoleMid(x: seq<Region>, mid: seq<Region>, y: seq<Region>, b: int)
    requires InHole(mid, b)
    ensures InHole(x + mid + y, b)
  {
    var k :| 0 <= k < |mid| && mid[k].Contains(b);
    assert (x + mid + y)[|x| + k] == mid[k];
  }
}

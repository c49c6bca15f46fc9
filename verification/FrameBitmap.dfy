/**
 * The frame allocator as it runs (kernel/src/mem/bitmap.rs): eight frames to a
 * byte, whole-byte tests on the fast paths, and counters kept beside the bits.
 */
module FrameBitmap {
  import opened Basics
  import opened FrameBits

  // ----- one byte

  datatype Bitmap = Bitmap(value: bv8)

  function GetBit(b: Bitmap, j: nat): bool
    requires j < 8
  {
    (b.value >> (j as bv8)) & 1 != 0
  }

  function SetBit(b: Bitmap, j: nat, v: bool): Bitmap
    requires j < 8
  {
    Bitmap((b.value & !(1 << (j as bv8))) | ((if v then 1 else 0) << (j as bv8)))
  }

  function Fill(v: bool): Bitmap { Bitmap(if v then 0xff else 0) }

  lemma SetThenGet(b: Bitmap, j: nat, v: bool, k: nat)
    requires j < 8 && k < 8
    ensures GetBit(SetBit(b, j, v), k) == if k == j then v else GetBit(b, k)
  {
  }

  /** The whole-byte tests say what the eight bits say. */
  lemma WholeByte(b: Bitmap, v: bool)
    ensures b == Fill(v) <==> forall j :: 0 <= j < 8 ==> GetBit(b, j) == v
  {
    if forall j :: 0 <= j < 8 ==> GetBit(b, j) == v {
      assert GetBit(b, 0) == v && GetBit(b, 1) == v && GetBit(b, 2) == v && GetBit(b, 3) == v;
      assert GetBit(b, 4) == v && GetBit(b, 5) == v && GetBit(b, 6) == v && GetBit(b, 7) == v;
    }
  }

  // ----- the bytes as a row of bits

  function BitsOf(bytes: seq<Bitmap>): seq<bool> {
    seq(8 * |bytes|, f requires 0 <= f < 8 * |bytes| => GetBit(bytes[f / 8], f % 8))
  }

  lemma BitAt(bytes: seq<Bitmap>, i: nat, j: nat)
    requires i < |bytes| && j < 8
    ensures 8 * i + j < |BitsOf(bytes)| && BitsOf(bytes)[8 * i + j] == GetBit(bytes[i], j)
  {
  }

  lemma ByteBits(bytes: seq<Bitmap>, i: nat, v: bool)
    requires i < |bytes|
    ensures bytes[i] == Fill(v) <==> forall f :: 8 * i <= f < 8 * i + 8 ==> BitsOf(bytes)[f] == v
  {
    WholeByte(bytes[i], v);
    hide GetBit, Fill;
    forall j | 0 <= j < 8
      ensures BitsOf(bytes)[8 * i + j] == GetBit(bytes[i], j)
    {
      BitAt(bytes, i, j);
    }
    assert forall f :: 8 * i <= f < 8 * i + 8 ==> BitsOf(bytes)[f] == GetBit(bytes[i], f - 8 * i);
  }

  /** Setting one bit of one byte sets one bit of the row. */
  lemma BitSet(bytes: seq<Bitmap>, f: nat, v: bool)
    requires f < 8 * |bytes|
    ensures BitsOf(bytes[f / 8 := SetBit(bytes[f / 8], f % 8, v)]) == BitsOf(bytes)[f := v]
  {
    var after := bytes[f / 8 := SetBit(bytes[f / 8], f % 8, v)];
    forall g | 0 <= g < 8 * |bytes|
      ensures BitsOf(after)[g] == BitsOf(bytes)[f := v][g]
    {
      if g / 8 == f / 8 {
        SetThenGet(bytes[f / 8], f % 8, v, g % 8);
      }
      hide GetBit, SetBit;
    }
  }

  // ----- the manager

  datatype Error = FreeMemoryFrameWasNotFound | AlreadyAllocated(index: nat) | AlreadyDeallocated(index: nat) | InvalidLength | OutOfBounds

  const PageSize := 4096

  datatype MemoryDescriptor = MemoryDescriptor(available: bool, physStart: nat, pageCount: nat) {
    predicate Valid() { available && physStart != 0 && physStart % PageSize == 0 }

    predicate Has(f: int) { Valid() && physStart / PageSize <= f < physStart / PageSize + pageCount }
  }

  ghost predicate Claimed(mem: seq<MemoryDescriptor>, f: int) { exists k :: 0 <= k < |mem| && mem[k].Has(f) }

  /** No frame lies in two valid regions of the firmware's map. */
  ghost predicate Disjoint(mem: seq<MemoryDescriptor>) {
    forall i, j, f :: 0 <= i < j < |mem| && mem[i].Has(f) ==> !mem[j].Has(f)
  }

  function MaxEnd(mem: seq<MemoryDescriptor>): nat {
    if mem == [] then 0
    else
      var d := mem[|mem| - 1];
      var e, rest := d.physStart + d.pageCount * PageSize, MaxEnd(mem[..|mem| - 1]);
      if rest < e then e else rest
  }

  /** One frame more than the highest address needs, so never zero. */
  function TotalFrames(mem: seq<MemoryDescriptor>): nat {
    (MaxEnd(mem) + PageSize) / PageSize
  }

  function Available(mem: seq<MemoryDescriptor>): nat {
    if mem == [] then 0 else Available(mem[..|mem| - 1]) + if mem[|mem| - 1].Valid() then mem[|mem| - 1].pageCount else 0
  }

  /** The highest end of a region, usable or not, and zero if there is none. */
  lemma {:induction false} MaxEndIsHighest(mem: seq<MemoryDescriptor>)
    ensures forall k :: 0 <= k < |mem| ==> mem[k].physStart + mem[k].pageCount * PageSize <= MaxEnd(mem)
    ensures MaxEnd(mem) == 0 || exists k :: 0 <= k < |mem| && mem[k].physStart + mem[k].pageCount * PageSize == MaxEnd(mem)
  {
    if mem != [] {
      var n := |mem| - 1;
      MaxEndIsHighest(mem[..n]);
      assert forall k :: 0 <= k < n ==> mem[..n][k] == mem[k];
      assert MaxEnd(mem) == MaxEnd(mem[..n]) || MaxEnd(mem) == mem[n].physStart + mem[n].pageCount * PageSize;
    }
  }

  /** The frames reach past the highest end, by one frame at most. */
  lemma TotalReaches(mem: seq<MemoryDescriptor>)
    ensures MaxEnd(mem) < TotalFrames(mem) * PageSize <= MaxEnd(mem) + PageSize && TotalFrames(mem) >= 1
  {
  }

  /** Every usable frame has a bit. */
  lemma {:induction false} ClaimedExists(mem: seq<MemoryDescriptor>, k: nat, f: nat)
    requires k < |mem| && mem[k].Has(f)
    ensures f * PageSize < MaxEnd(mem) && f < TotalFrames(mem)
  {
    if k < |mem| - 1 {
      ClaimedExists(mem[..|mem| - 1], k, f);
    }
  }

  class BitmapMemoryManager {
    const bytes: array<Bitmap>
    const total: nat
    var taken: int
    var free: int
    var used: int
    ghost var live: seq<Block>

    ghost predicate Sized()
      reads this
    {
      bytes.Length == (total + 7) / 8
    }

    ghost function State(): Frames
      reads this, bytes
    {
      Frames(BitsOf(bytes[..]), total, free, taken, used, [])
    }

    ghost predicate Valid()
      reads this, bytes
    {
      Sized() && Counted(State())
    }

    /** The state with the blocks handed out and not yet released. */
    ghost function WithLive(): Frames
      reads this, bytes
    {
      State().(live := live)
    }

    /** The counters as they stand before the bitmap has been written: every frame counts as allocated. */
    constructor (mem: seq<MemoryDescriptor>)
      ensures Sized() && total == TotalFrames(mem) && taken == total && free == 0 && used == Available(mem) && fresh(bytes) && live == []
    {
      var n := TotalFrames(mem);
      total := n;
      bytes := new Bitmap[(n + 7) / 8](_ => Bitmap(0));
      taken, free, used, live := n, 0, Available(mem), [];
    }

    /** Marks everything allocated, then frees the usable frames, then takes back the frames of the bitmap itself. */
    method Init2(mem: seq<MemoryDescriptor>, bitmapAddr: nat) returns (r: Result<(), Error>)
      requires Sized() && total == TotalFrames(mem) && taken == total && free == 0 && used == Available(mem) && live == []
      modifies this`taken, this`free, this`used, bytes
      ensures Valid() && (r.Ok? <==> Disjoint(mem))
      ensures r.Ok? ==> Inv(WithLive()) && used + free == Available(mem)
      ensures r.Ok? ==> forall f :: 0 <= f < |State().bits| ==>
                (!State().bits[f] <==> Claimed(mem, f) && !(bitmapAddr / PageSize <= f <= (bitmapAddr + bytes.Length) / PageSize))
    {
      FillAll();
      r := FreeUsable(mem);
      if r.Err? {
        return;
      }
      ReserveFrames(bitmapAddr / PageSize, (bitmapAddr + bytes.Length) / PageSize);
    }

    method FillAll()
      requires Sized() && taken == total && free == 0
      modifies bytes
      ensures Valid() && forall f :: 0 <= f < |State().bits| ==> State().bits[f]
    {
      for i := 0 to bytes.Length
        invariant forall k :: 0 <= k < i ==> bytes[k] == Fill(true)
      {
        bytes[i] := Fill(true);
      }
      AllFilled(bytes[..]);
      NoneFree(BitsOf(bytes[..]));
    }

    method FreeUsable(mem: seq<MemoryDescriptor>) returns (r: Result<(), Error>)
      requires Valid() && total == TotalFrames(mem) && free == 0 && used == Available(mem)
      requires forall f :: 0 <= f < |State().bits| ==> State().bits[f]
      modifies this`taken, this`free, this`used, bytes
      ensures Valid() && (r.Ok? <==> Disjoint(mem))
      ensures r.Ok? ==> used == 0 && free == Available(mem) && FreedExactly(State().bits, mem)
    {
      NothingFreed(State().bits);
      hide Counted, BitsOf, Disjoint, FreedExactly, FreedWith, Claimed;
      for k := 0 to |mem|
        invariant Valid() && FreedExactly(State().bits, mem[..k]) && Disjoint(mem[..k])
        invariant free == Available(mem[..k]) && used == Available(mem) - free
      {
        AvailableMore(mem, k);
        if mem[k].Valid() {
          r := FreeRegion(mem, k);
          if r.Err? {
            return;
          }
          NextRegion(State().bits, mem, k);
        } else {
          SkipRegion(State().bits, mem, k);
        }
      }
      assert mem[..|mem|] == mem;
      return Ok(());
    }

    method FreeRegion(mem: seq<MemoryDescriptor>, k: nat) returns (r: Result<(), Error>)
      requires Valid() && total == TotalFrames(mem) && k < |mem| && mem[k].Valid() && FreedExactly(State().bits, mem[..k])
      modifies this`taken, this`free, this`used, bytes
      ensures Valid()
      ensures r.Ok? ==>
                && FreedWith(State().bits, mem[..k], Block(mem[k].physStart / PageSize, mem[k].pageCount))
                && Fresh(mem[..k], Block(mem[k].physStart / PageSize, mem[k].pageCount))
                && free == old(free) + mem[k].pageCount && used == old(used) - mem[k].pageCount
      ensures r.Err? ==> !Disjoint(mem)
    {
      hide Counted, BitsOf, Disjoint, FreedExactly, FreedWith, Fresh, Claimed, TotalFrames, Sized, Marked;
      var d := mem[k];
      ghost var start := d.physStart / PageSize;
      FreedStart(State().bits, mem[..k], start);
      for i := 0 to d.pageCount
        invariant Valid() && FreedWith(State().bits, mem[..k], Block(start, i)) && Fresh(mem[..k], Block(start, i))
        invariant free == old(free) + i && used == old(used) - i
      {
        var f := (d.physStart + i * PageSize) / PageSize;
        FrameOfRegion(d, i);
        ClaimedExists(mem, k, f);
        FramesHaveBits(State());
        ghost var bits := State().bits;
        r := DeallocFrame(f);
        if r.Err? {
          Overlap(bits, mem, k, start, i);
          return;
        }
        FreedNext(bits, State().bits, mem[..k], start, i);
      }
      return Ok(());
    }

    method ReserveFrames(first: nat, last: nat)
      requires Valid() && used >= 0 && first <= last
      modifies this`taken, this`free, this`used, bytes
      ensures Valid() && used >= 0 && used + free == old(used + free)
      ensures |State().bits| == |old(State().bits)|
      ensures forall f :: 0 <= f < |State().bits| ==> State().bits[f] == (old(State().bits)[f] || first <= f <= last)
    {
      hide Counted, BitsOf;
      for f := first to last + 1
        invariant Valid() && used >= 0 && used + free == old(used + free)
        invariant |State().bits| == |old(State().bits)|
        invariant forall g :: 0 <= g < |State().bits| ==> State().bits[g] == (old(State().bits)[g] || first <= g < f)
      {
        var ignored := AllocFrame(f);
      }
    }

    method AllocFrame(f: nat) returns (r: Result<(), Error>)
      requires Valid()
      modifies this`taken, this`free, this`used, bytes
      ensures Valid()
      ensures r == if f >= old(|State().bits|) then Err(OutOfBounds) else if old(State().bits[f]) then Err(AlreadyAllocated(f)) else Ok(())
      ensures State() == if r.Ok? then Taken(old(State()), Block(f, 1)).(live := []) else old(State())
    {
      ghost var before, s := bytes[..], State();
      if f / 8 >= bytes.Length {
        return Err(OutOfBounds);
      }
      BitAt(before, f / 8, f % 8);
      hide GetBit, SetBit;
      if GetBit(bytes[f / 8], f % 8) {
        return Err(AlreadyAllocated(f));
      }
      BitSet(before, f, true);
      bytes[f / 8] := SetBit(bytes[f / 8], f % 8, true);
      taken, free, used := taken + 1, free - 1, used + 1;
      OneTaken(s, State(), f);
      return Ok(());
    }

    /** Frees one frame that is taken. The counters go on agreeing with the bits exactly when the frame exists. */
    method DeallocFrame(f: nat) returns (r: Result<(), Error>)
      requires Sized()
      modifies this`taken, this`free, this`used, bytes
      ensures Sized()
      ensures r == if f >= old(|State().bits|) then Err(OutOfBounds) else if old(State().bits[f]) then Ok(()) else Err(AlreadyDeallocated(f))
      ensures State() == if r.Ok? then Freed(old(State()), Block(f, 1)) else old(State())
      ensures old(Valid()) ==> (Valid() <==> r.Err? || f < total)
    {
      hide Counted, Freed;
      ghost var before, s := bytes[..], State();
      if f / 8 >= bytes.Length {
        return Err(OutOfBounds);
      }
      BitAt(before, f / 8, f % 8);
      hide GetBit, SetBit;
      if !GetBit(bytes[f / 8], f % 8) {
        return Err(AlreadyDeallocated(f));
      }
      BitSet(before, f, false);
      bytes[f / 8] := SetBit(bytes[f / 8], f % 8, false);
      taken, free, used := taken - 1, free + 1, used - 1;
      OneFreed(s, State(), f);
      return Ok(());
    }

    /** The lowest free frame above frame 0; bytes with no free frame are skipped whole. */
    method FindSingle() returns (r: Option<nat>)
      requires Valid()
      ensures r.None? <==> !HasRun(State().bits, 1)
      ensures r.Some? ==> RunFound(State().bits, 1, r.value)
    {
      ghost var bits := State().bits;
      BitsLength(bytes[..]);
      NoneAtStart(bits, 1);
      hide Fill, BitsOf, Counted, NoneBefore, HasRun, RunFound;
      for i := 0 to bytes.Length
        invariant NoneBefore(bits, 1, 8 * i)
      {
        if bytes[i] == Fill(true) {
          ByteBits(bytes[..], i, true);
          NoneInByte(bits, i);
          continue;
        }
        r := SingleInByte(i);
        if r.Some? {
          FoundIsFree(bits, 1, r.value);
          return;
        }
      }
      NoneAtAll(bits, 1);
      return None;
    }

    method SingleInByte(i: nat) returns (r: Option<nat>)
      requires i < bytes.Length && NoneBefore(State().bits, 1, 8 * i)
      ensures r.None? ==> NoneBefore(State().bits, 1, 8 * i + 8)
      ensures r.Some? ==> RunFound(State().bits, 1, r.value)
    {
      ghost var bits := State().bits;
      BitsLength(bytes[..]);
      hide GetBit, BitsOf, NoneBefore;
      for j := 0 to 8
        invariant NoneBefore(bits, 1, 8 * i + j)
      {
        var f := 8 * i + j;
        BitAt(bytes[..], i, j);
        if f == 0 {
          NoneAtStart(bits, 1);
          continue;
        }
        if !GetBit(bytes[i], j) {
          SingleFound(bits, f);
          return Some(f);
        }
        NoneMore(bits, f);
      }
      return None;
    }

    method AllocSingle() returns (r: Result<Block, Error>)
      requires Valid()
      modifies this`taken, this`free, this`used, bytes
      ensures Valid()
      ensures r.Ok? <==> HasRun(old(State().bits), 1)
      ensures r.Ok? ==>
                var b := r.value;
                && b.len == 1 && RunFound(old(State().bits), 1, b.start)
                && State() == Taken(old(State()), b).(live := [])
      ensures r.Err? ==> r.error == FreeMemoryFrameWasNotFound && State() == old(State())
    {
      if free == 0 {
        NoRunIfNoneFree(State().bits, 1);
        return Err(FreeMemoryFrameWasNotFound);
      }
      var f := FindSingle();
      hide Counted, NoneBefore, BitsOf, RunFound;
      if f.None? {
        return Err(FreeMemoryFrameWasNotFound);
      }
      FoundIsFree(State().bits, 1, f.value);
      var ok := AllocFrame(f.value);
      return Ok(Block(f.value, 1));
    }

    /** A run of `len` free frames: scan with a running count, but take a whole free byte at once when that is the length. */
    method FindRun(len: nat) returns (r: Option<nat>)
      requires Valid() && len > 0
      ensures r.None? <==> !HasRun(State().bits, len)
      ensures r.Some? ==> RunFound(State().bits, len, r.value)
    {
      hide Fill, BitsOf, Counted, HasRun, Scanned, RunFound, Sized, FreeRun;
      ghost var bits := State().bits;
      BitsLength(bytes[..]);
      var start: Option<nat>, count, found := None, 0, false;
      ScanStart(bits, len);
      for i := 0 to bytes.Length
        invariant Scanned(bits, len, 8 * i, start, count)
      {
        if len == 8 && i > 0 && bytes[i] == Fill(false) {
          ByteRun(bytes[..], i);
          FreeByte(bits, i, start, count);
          FoundIsFree(bits, len, 8 * i);
          return Some(8 * i);
        }
        start, count, found := ScanBits(bytes[..], len, i, bytes[i], start, count);
        if found {
          FoundIsFree(bits, len, start.value);
          return start;
        }
      }
      ScanEnd(bits, len, start, count);
      return None;
    }

    /** Succeeds exactly when a run exists; takes exactly that run. */
    method AllocMulti(len: nat) returns (r: Result<Block, Error>)
      requires Valid()
      modifies this`taken, this`free, this`used, this`live, bytes
      ensures Valid() && Step(old(WithLive()), Alloc(len), WithLive())
      ensures old(Inv(WithLive())) ==> Inv(WithLive())
      ensures live == if r.Ok? then old(live) + [r.value] else old(live)
      ensures AllocAnswer(old(State()), State(), len, r)
    {
      r := FindAndTake(len);
      hide Counted, BitsOf, RunFound, HasRun;
      if r.Ok? {
        live := live + [r.value];
      }
      AllocIsStep(old(State()), State(), len, r, old(live), live);
    }

    /** The bits and counters of an allocation. */
    method FindAndTake(len: nat) returns (r: Result<Block, Error>)
      requires Valid()
      modifies this`taken, this`free, this`used, bytes
      ensures Valid()
      ensures AllocAnswer(old(State()), State(), len, r)
    {
      if len == 0 {
        return Err(InvalidLength);
      }
      if len == 1 {
        r := AllocSingle();
        return;
      }
      if len > free {
        NoRunIfNoneFree(State().bits, len);
        return Err(FreeMemoryFrameWasNotFound);
      }
      var start := FindRun(len);
      hide Counted, NoneBefore, HasRun, BitsOf, RunFound;
      if start.None? {
        return Err(FreeMemoryFrameWasNotFound);
      }
      FoundIsFree(State().bits, len, start.value);
      TakeRun(start.value, len);
      return Ok(Block(start.value, len));
    }

    method TakeRun(start: nat, len: nat)
      requires Valid() && FreeRun(State().bits, Block(start, len))
      modifies this`taken, this`free, this`used, bytes
      ensures Valid() && State() == Taken(old(State()), Block(start, len)).(live := [])
    {
      hide Counted, BitsOf, Taken, Marked, FreeRun, Sized;
      ghost var s := State();
      TakenNothing(s, start);
      for i := 0 to len
        invariant Valid() && State() == Taken(s, Block(start, i)).(live := [])
      {
        TakenOneMore(s, start, i, len);
        var ok := AllocFrame(start + i);
      }
    }

    /** Releases frame by frame and stops at the first one that is already free; a live block goes back whole. */
    method DeallocMemFrame(b: Block) returns (r: Result<(), Error>)
      requires Sized()
      modifies this`taken, this`free, this`used, this`live, bytes
      ensures Sized() && ReleasedUpTo(old(State()), State(), b, r)
      ensures old(Valid()) ==> (Valid() <==> Existing(old(State()), b, r))
      ensures old(Inv(WithLive())) && b in old(live) ==>
                r.Ok? && Valid() && Inv(WithLive()) && exists i :: Step(old(WithLive()), Release(i), WithLive())
      ensures b !in old(live) ==> live == old(live)
    {
      hide Counted, BitsOf, ReleasedUpTo, FrameBits.Inv, Existing;
      r := ReleaseFrames(b);
      if b in live {
        ghost var i: nat :| i < |live| && live[i] == b;
        if r.Ok? { live := live[..i] + live[i + 1..]; }
        if old(Inv(WithLive())) {
          ReleaseIsStep(old(State()), State(), b, r, old(live), i, live);
          LiveCounted(State(), live);
        }
      }
    }

    /** The bits and counters of a release, of any block; they agree exactly while only existing frames are released. */
    method ReleaseFrames(b: Block) returns (r: Result<(), Error>)
      requires Sized()
      modifies this`taken, this`free, this`used, bytes
      ensures Sized() && ReleasedUpTo(old(State()), State(), b, r)
      ensures old(Valid()) ==> (Valid() <==> Existing(old(State()), b, r))
    {
      hide Counted, BitsOf, Freed, TakenRun, ReleasedUpTo, Sized, Existing;
      ghost var s := State();
      FreedNothing(s, b.start);
      for f := b.start to b.start + b.len
        invariant Sized() && ReleasedUpTo(s, State(), Block(b.start, f - b.start), Ok(()))
      {
        ghost var t := State();
        r := DeallocFrame(f);
        FreedOneMore(s, t, State(), b, f, r);
        if r.Err? {
          if old(Valid()) { ReleaseCounted(s, State(), b, r); }
          return;
        }
      }
      r := Ok(());
      if old(Valid()) { ReleaseCounted(s, State(), b, r); }
    }
  }

  // ----- the start-up pass

  lemma AllFilled(bytes: seq<Bitmap>)
    requires forall k :: 0 <= k < |bytes| ==> bytes[k] == Fill(true)
    ensures forall f :: 0 <= f < |BitsOf(bytes)| ==> BitsOf(bytes)[f]
  {
  }

  /** Exactly the frames of these regions, and of the block, are free. */
  ghost predicate FreedWith(bits: seq<bool>, mem: seq<MemoryDescriptor>, b: Block) {
    forall f :: 0 <= f < |bits| ==> (!bits[f] <==> Claimed(mem, f) || b.Has(f))
  }

  ghost predicate FreedExactly(bits: seq<bool>, mem: seq<MemoryDescriptor>) {
    forall f :: 0 <= f < |bits| ==> (!bits[f] <==> Claimed(mem, f))
  }

  /** No frame of the block lies in an earlier region. */
  ghost predicate Fresh(mem: seq<MemoryDescriptor>, b: Block) {
    forall f :: Claimed(mem, f) ==> !b.Has(f)
  }

  lemma NothingFreed(bits: seq<bool>)
    requires forall f :: 0 <= f < |bits| ==> bits[f]
    ensures forall mem: seq<MemoryDescriptor> :: |mem| == 0 ==> FreedExactly(bits, mem) && Disjoint(mem)
  {
  }

  lemma FramesHaveBits(s: Frames)
    requires Counted(s)
    ensures s.total <= |s.bits|
  {
  }

  lemma FrameOfRegion(d: MemoryDescriptor, i: nat)
    requires d.Valid()
    ensures (d.physStart + i * PageSize) / PageSize == d.physStart / PageSize + i
  {
  }

  lemma FreedStart(bits: seq<bool>, mem: seq<MemoryDescriptor>, start: nat)
    requires FreedExactly(bits, mem)
    ensures FreedWith(bits, mem, Block(start, 0)) && Fresh(mem, Block(start, 0))
  {
  }

  lemma FreedNext(bits: seq<bool>, after: seq<bool>, mem: seq<MemoryDescriptor>, start: nat, i: nat)
    requires FreedWith(bits, mem, Block(start, i)) && Fresh(mem, Block(start, i)) && start + i < |bits| && bits[start + i]
    requires after == Marked(bits, Block(start + i, 1), false)
    ensures FreedWith(after, mem, Block(start, i + 1)) && Fresh(mem, Block(start, i + 1))
  {
  }

  /** A frame found free already lies in an earlier region. */
  lemma Overlap(bits: seq<bool>, mem: seq<MemoryDescriptor>, k: nat, start: nat, i: nat)
    requires k < |mem| && mem[k].Has(start + i) && start + i < |bits| && !bits[start + i] && FreedWith(bits, mem[..k], Block(start, i))
    ensures !Disjoint(mem)
  {
  }

  lemma ClaimedMore(mem: seq<MemoryDescriptor>, k: nat, f: int)
    requires k < |mem|
    ensures Claimed(mem[..k + 1], f) <==> Claimed(mem[..k], f) || mem[k].Has(f)
  {
  }

  lemma DisjointMore(mem: seq<MemoryDescriptor>, k: nat)
    requires k < |mem| && Disjoint(mem[..k]) && forall f :: Claimed(mem[..k], f) ==> !mem[k].Has(f)
    ensures Disjoint(mem[..k + 1])
  {
  }

  lemma NextRegion(bits: seq<bool>, mem: seq<MemoryDescriptor>, k: nat)
    requires k < |mem| && mem[k].Valid() && Disjoint(mem[..k])
    requires FreedWith(bits, mem[..k], Block(mem[k].physStart / PageSize, mem[k].pageCount))
    requires Fresh(mem[..k], Block(mem[k].physStart / PageSize, mem[k].pageCount))
    ensures FreedExactly(bits, mem[..k + 1]) && Disjoint(mem[..k + 1])
  {
    hide Disjoint, Claimed;
    DisjointMore(mem, k);
    forall f
      ensures Claimed(mem[..k + 1], f) <==> Claimed(mem[..k], f) || mem[k].Has(f)
    {
      ClaimedMore(mem, k, f);
    }
  }

  lemma SkipRegion(bits: seq<bool>, mem: seq<MemoryDescriptor>, k: nat)
    requires k < |mem| && !mem[k].Valid() && Disjoint(mem[..k]) && FreedExactly(bits, mem[..k])
    ensures FreedExactly(bits, mem[..k + 1]) && Disjoint(mem[..k + 1])
  {
  }

  lemma AvailableMore(mem: seq<MemoryDescriptor>, k: nat)
    requires k < |mem|
    ensures Available(mem[..k + 1]) == Available(mem[..k]) + if mem[k].Valid() then mem[k].pageCount else 0
  {
    assert mem[..k + 1][..k] == mem[..k];
  }

  lemma NoneAtStart(bits: seq<bool>, len: nat)
    requires len > 0
    ensures NoneBefore(bits, len, 0) && NoneBefore(bits, len, 1)
  {
  }

  lemma SingleFound(bits: seq<bool>, f: nat)
    requires 0 < f < |bits| && !bits[f] && NoneBefore(bits, 1, f)
    ensures RunFound(bits, 1, f)
  {
    assert FirstRun(bits, 1, f) && Picked(bits, 1, f) == f;
  }

  lemma NoneMore(bits: seq<bool>, f: nat)
    requires f < |bits| && bits[f] && NoneBefore(bits, 1, f)
    ensures NoneBefore(bits, 1, f + 1)
  {
  }

  /** The state of the scan before frame `f`: the run that ends there is counted and no long enough one was passed. */
  ghost predicate Scanned(bits: seq<bool>, len: nat, f: nat, start: Option<nat>, count: nat) {
    && f <= |bits| && NoneBefore(bits, len, f)
    && count == Tail(bits, f) < len && start == (if count > 0 then Some(f - count) else None)
  }

  lemma ScanStart(bits: seq<bool>, len: nat)
    requires len > 0
    ensures Scanned(bits, len, 0, None, 0)
  {
  }

  lemma ScanZero(bits: seq<bool>, len: nat, start: Option<nat>, count: nat)
    requires Scanned(bits, len, 0, start, count) && 0 < |bits|
    ensures Scanned(bits, len, 1, start, count)
  {
  }

  lemma ScanTaken(bits: seq<bool>, len: nat, f: nat, start: Option<nat>, count: nat)
    requires Scanned(bits, len, f, start, count) && 0 < f < |bits| && bits[f]
    ensures Scanned(bits, len, f + 1, None, 0)
  {
  }

  /** A free frame of byte `i` extends the run or completes the one to take. */
  lemma ScanFree(bits: seq<bool>, len: nat, f: nat, start: Option<nat>, count: nat, i: nat)
    requires Scanned(bits, len, f, start, count) && 0 < f < |bits| && !bits[f]
    requires 8 * i <= f < 8 * i + 8 && (len == 8 && i > 0 ==> !FreeRun(bits, Block(8 * i, 8)))
    ensures count < len && (count > 0 ==> start.Some?)
    ensures count + 1 < len ==> Scanned(bits, len, f + 1, if count == 0 then Some(f) else start, count + 1)
    ensures count + 1 == len ==> RunFound(bits, len, if count == 0 then f else start.value)
  {
    if count + 1 < len {
      NoneYet(bits, len, f);
    } else {
      var s := f + 1 - len;
      assert Tail(bits, f + 1) == len && s >= 1;
      assert FirstRun(bits, len, s);
      assert len == 8 && s % 8 != 0 ==> 8 * (s / 8 + 1) == 8 * i;
      assert Picked(bits, len, s) == s;
    }
  }

  /** The eight frames of one byte. */
  method ScanBits(ghost bytes: seq<Bitmap>, len: nat, i: nat, byte: Bitmap, start0: Option<nat>, count0: nat)
    returns (start: Option<nat>, count: nat, found: bool)
    requires i < |bytes| && byte == bytes[i] && Scanned(BitsOf(bytes), len, 8 * i, start0, count0)
    requires len == 8 && i > 0 ==> byte != Fill(false)
    ensures found ==> start.Some? && RunFound(BitsOf(bytes), len, start.value)
    ensures !found ==> Scanned(BitsOf(bytes), len, 8 * i + 8, start, count)
  {
    hide GetBit, BitsOf, Scanned, RunFound, FreeRun, Fill;
    ghost var bits := BitsOf(bytes);
    BitsLength(bytes);
    ByteRun(bytes, i);
    start, count, found := start0, count0, false;
    for j := 0 to 8
      invariant Scanned(bits, len, 8 * i + j, start, count)
    {
      var f := 8 * i + j;
      BitAt(bytes, i, j);
      if f == 0 {
        ScanZero(bits, len, start, count);
        continue;
      }
      if !GetBit(byte, j) {
        ScanFree(bits, len, f, start, count, i);
        if count == 0 {
          start := Some(f);
        }
        count := count + 1;
        if count == len {
          return start, count, true;
        }
      } else {
        ScanTaken(bits, len, f, start, count);
        count, start := 0, None;
      }
    }
  }

  /** A byte is all free exactly when its eight frames are a free run. */
  lemma ByteRun(bytes: seq<Bitmap>, i: nat)
    requires i < |bytes|
    ensures bytes[i] == Fill(false) <==> FreeRun(BitsOf(bytes), Block(8 * i, 8))
  {
    ByteBits(bytes, i, false);
    BitsLength(bytes);
    hide BitsOf, Fill;
  }

  /** A whole free byte is the run to take, whatever run it continues. */
  lemma FreeByte(bits: seq<bool>, i: nat, start: Option<nat>, count: nat)
    requires i > 0 && FreeRun(bits, Block(8 * i, 8)) && Scanned(bits, 8, 8 * i, start, count)
    ensures RunFound(bits, 8, 8 * i)
  {
    var s := 8 * i - count;
    forall r: nat | 1 <= r < s
      ensures !FreeRun(bits, Block(r, 8))
    {
      if r + 8 > 8 * i && FreeRun(bits, Block(r, 8)) {
        TailIsLongest(bits, 8 * i, r);
      }
    }
    assert FirstRun(bits, 8, s);
    assert Picked(bits, 8, s) == 8 * i;
  }

  lemma ScanEnd(bits: seq<bool>, len: nat, start: Option<nat>, count: nat)
    requires Scanned(bits, len, |bits|, start, count)
    ensures !HasRun(bits, len)
  {
  }

  /** An allocation succeeds exactly when a run exists and takes the one the search finds; an error says why and changes nothing. */
  ghost predicate AllocAnswer(s: Frames, t: Frames, len: nat, r: Result<Block, Error>) {
    && (r.Ok? <==> len > 0 && HasRun(s.bits, len))
    && (r.Ok? ==> r.value.len == len && RunFound(s.bits, len, r.value.start) && t == Taken(s, r.value).(live := []))
    && (r.Err? ==> r.error == (if len == 0 then InvalidLength else FreeMemoryFrameWasNotFound) && t == s)
  }

  lemma AllocIsStep(s: Frames, t: Frames, len: nat, r: Result<Block, Error>, live: seq<Block>, live': seq<Block>)
    requires AllocAnswer(s, t, len, r) && live' == if r.Ok? then live + [r.value] else live
    ensures Step(s.(live := live), Alloc(len), t.(live := live'))
    ensures Inv(s.(live := live)) ==> Inv(t.(live := live'))
  {
    hide RunFound, HasRun, Inv;
    if Inv(s.(live := live)) {
      StepKeepsInv(s.(live := live), Alloc(len), t.(live := live'));
    }
  }

  lemma ReleaseIsStep(s: Frames, t: Frames, b: Block, r: Result<(), Error>, live: seq<Block>, i: nat, live': seq<Block>)
    requires ReleasedUpTo(s, t, b, r) && Inv(s.(live := live)) && i < |live| && live[i] == b
    requires live' == if r.Ok? then live[..i] + live[i + 1..] else live
    ensures r.Ok? && Step(s.(live := live), Release(i), t.(live := live')) && Inv(t.(live := live'))
  {
    assert TakenRun(s.bits, b);
    hide Inv, TakenRun;
    StepKeepsInv(s.(live := live), Release(i), t.(live := live'));
  }

  lemma TakenNothing(s: Frames, start: nat)
    requires s.live == []
    ensures Taken(s, Block(start, 0)).(live := []) == s
  {
  }

  lemma TakenOneMore(s: Frames, start: nat, i: nat, len: nat)
    requires FreeRun(s.bits, Block(start, len)) && i < len
    ensures var t := Taken(s, Block(start, i)).(live := []);
            && start + i < |t.bits| && !t.bits[start + i]
            && Taken(t, Block(start + i, 1)).(live := []) == Taken(s, Block(start, i + 1)).(live := [])
  {
  }

  /** How many frames of the block a release got through. */
  function ReleasedCount(s: Frames, b: Block, r: Result<(), Error>): nat {
    if r.Ok? then b.len
    else if r.error.AlreadyDeallocated? then (if b.start <= r.error.index then r.error.index - b.start else 0)
    else if b.start <= |s.bits| then |s.bits| - b.start
    else 0
  }

  /** A release succeeds exactly when every frame was taken; it stops at the first free one and says which, or at the end of the bitmap. */
  ghost predicate ReleasedUpTo(s: Frames, t: Frames, b: Block, r: Result<(), Error>) {
    && (r.Ok? <==> b.len == 0 || TakenRun(s.bits, b))
    && (r.Err? ==>
          || (r.error.AlreadyDeallocated? && b.Has(r.error.index) && r.error.index < |s.bits| && !s.bits[r.error.index])
          || (r.error == OutOfBounds && |s.bits| < b.start + b.len))
    && var done := Block(b.start, ReleasedCount(s, b, r));
       done.len <= b.len && (done.len == 0 || TakenRun(s.bits, done)) && t == Freed(s, done)
  }

  /** Every frame released is below the frame count. */
  predicate Existing(s: Frames, b: Block, r: Result<(), Error>) {
    ReleasedCount(s, b, r) == 0 || b.start + ReleasedCount(s, b, r) <= s.total
  }

  lemma FreedNothing(s: Frames, start: nat)
    requires s.live == []
    ensures ReleasedUpTo(s, s, Block(start, 0), Ok(()))
  {
  }

  lemma FreedOneMore(s: Frames, t: Frames, u: Frames, b: Block, f: nat, r: Result<(), Error>)
    requires b.Has(f) && ReleasedUpTo(s, t, Block(b.start, f - b.start), Ok(()))
    requires r == (if f >= |t.bits| then Err(OutOfBounds) else if t.bits[f] then Ok(()) else Err(AlreadyDeallocated(f)))
    requires u == if r.Ok? then Freed(t, Block(f, 1)) else t
    ensures r.Ok? ==> ReleasedUpTo(s, u, Block(b.start, f + 1 - b.start), Ok(()))
    ensures r.Err? ==> ReleasedUpTo(s, u, b, r)
  {
  }

  /** Releasing taken frames keeps the counters true exactly when all of them exist. */
  lemma FreedCountedIff(s: Frames, b: Block)
    requires Counted(s) && (b.len == 0 || TakenRun(s.bits, b))
    ensures Counted(Freed(s, b)) <==> b.len == 0 || b.start + b.len <= s.total
  {
    hide FreeCount;
    if b.len == 0 {
      assert Marked(s.bits, b, false) == s.bits;
    } else {
      CountMarked(s.bits, b, false);
      assert !Marked(s.bits, b, false)[b.start + b.len - 1];
    }
  }

  lemma ReleaseCounted(s: Frames, t: Frames, b: Block, r: Result<(), Error>)
    requires Counted(s) && ReleasedUpTo(s, t, b, r)
    ensures Counted(t) <==> Existing(s, b, r)
  {
    hide Counted, TakenRun, Freed, ReleasedCount;
    FreedCountedIff(s, Block(b.start, ReleasedCount(s, b, r)));
  }

  lemma LiveCounted(s: Frames, live: seq<Block>)
    requires Inv(s.(live := live))
    ensures Counted(s)
  {
  }

  /** One frame and a bitmap of one byte: the bit after it stands for no frame, yet releasing it is not refused. */
  lemma PaddingIsReleased() returns (s: Frames, b: Block)
    ensures Counted(s) && s.total == 1 && |s.bits| == 8 && b == Block(1, 1)
    ensures TakenRun(s.bits, b) && !Counted(Freed(s, b))
  {
    hide FreeCount, Freed;
    s, b := Frames(seq(8, _ => true), 1, 0, 1, 0, []), Block(1, 1);
    NoneFree(s.bits);
    FreedCountedIff(s, b);
  }

  function Freed(s: Frames, b: Block): Frames {
    Frames(Marked(s.bits, b, false), s.total, s.free + b.len, s.taken - b.len, s.used - b.len, [])
  }

  lemma BitsLength(bytes: seq<Bitmap>)
    ensures |BitsOf(bytes)| == 8 * |bytes|
  {
  }

  lemma OneTaken(s: Frames, t: Frames, f: nat)
    requires Counted(s) && f < |s.bits| && !s.bits[f] && s.live == []
    requires t == s.(bits := s.bits[f := true], taken := s.taken + 1, free := s.free - 1, used := s.used + 1)
    ensures Counted(t) && t == Taken(s, Block(f, 1)).(live := [])
  {
    CountOne(s.bits, f, true);
    assert t.bits == Marked(s.bits, Block(f, 1), true);
  }

  lemma OneFreed(s: Frames, t: Frames, f: nat)
    requires f < |s.bits| && s.bits[f] && s.live == []
    requires t == s.(bits := s.bits[f := false], taken := s.taken - 1, free := s.free + 1, used := s.used - 1)
    ensures t == Freed(s, Block(f, 1))
    ensures Counted(s) ==> (Counted(t) <==> f < s.total)
  {
    hide Counted;
    assert t.bits == Marked(s.bits, Block(f, 1), false);
    if Counted(s) {
      FreedCountedIff(s, Block(f, 1));
    }
  }

  lemma NoRunIfNoneFree(bits: seq<bool>, len: nat)
    requires FreeCount(bits) < len
    ensures !HasRun(bits, len)
  {
    if HasRun(bits, len) {
      RunFitsCount(bits, len);
    }
  }

  lemma NoneInByte(bits: seq<bool>, i: nat)
    requires 8 * i + 8 <= |bits| && NoneBefore(bits, 1, 8 * i) && forall f :: 8 * i <= f < 8 * i + 8 ==> bits[f]
    ensures NoneBefore(bits, 1, 8 * i + 8)
  {
    forall s: nat | s >= 1 && s + 1 <= 8 * i + 8
      ensures !FreeRun(bits, Block(s, 1))
    {
      assert s >= 8 * i ==> bits[s];
    }
  }

  lemma NoneAtAll(bits: seq<bool>, len: nat)
    requires NoneBefore(bits, len, |bits|)
    ensures !HasRun(bits, len)
  {
  }
}

/**
 * Physical frames as a row of bits, true for allocated: counting, runs of free
 * frames, and the invariant of every run of allocations and releases
 * (kernel/src/mem/bitmap.rs).
 */
module FrameBits {
  import opened Basics

  datatype Block = Block(start: nat, len: nat) {
    predicate Has(f: int) { start <= f < start + len }
  }

  function FreeCount(bits: seq<bool>): nat {
    if bits == [] then 0 else FreeCount(bits[..|bits| - 1]) + if bits[|bits| - 1] then 0 else 1
  }

  /** The frames of the block are all free and exist. */
  predicate FreeRun(bits: seq<bool>, b: Block) {
    b.start + b.len <= |bits| && forall f :: b.start <= f < b.start + b.len ==> !bits[f]
  }

  predicate TakenRun(bits: seq<bool>, b: Block) {
    b.start + b.len <= |bits| && forall f :: b.start <= f < b.start + b.len ==> bits[f]
  }

  /** `len` free frames in a row, none of them frame 0. */
  ghost predicate HasRun(bits: seq<bool>, len: nat) { exists s: nat :: s >= 1 && FreeRun(bits, Block(s, len)) }

  function Marked(bits: seq<bool>, b: Block, v: bool): seq<bool> {
    seq(|bits|, i requires 0 <= i < |bits| => if b.Has(i) then v else bits[i])
  }

  lemma {:induction false} CountOne(bits: seq<bool>, f: nat, v: bool)
    requires f < |bits| && bits[f] != v
    ensures FreeCount(bits[f := v]) == FreeCount(bits) + if v then -1 else 1
  {
    var n := |bits| - 1;
    var after := bits[f := v];
    if f == n {
      assert after[..n] == bits[..n];
    } else {
      CountOne(bits[..n], f, v);
      assert after[..n] == bits[..n][f := v];
    }
  }

  lemma MarkedMore(bits: seq<bool>, b: Block, v: bool)
    requires b.len > 0 && b.start + b.len <= |bits|
    ensures Marked(bits, b, v) == Marked(bits, Block(b.start, b.len - 1), v)[b.start + b.len - 1 := v]
  {
  }

  /** Changing a uniform block moves the free count by its length. */
  lemma {:induction false} CountMarked(bits: seq<bool>, b: Block, v: bool)
    requires if v then FreeRun(bits, b) else TakenRun(bits, b)
    ensures FreeCount(Marked(bits, b, v)) == FreeCount(bits) + if v then -(b.len as int) else b.len
    decreases b.len
  {
    if b.len == 0 {
      assert Marked(bits, b, v) == bits;
    } else {
      var less := Block(b.start, b.len - 1);
      CountMarked(bits, less, v);
      MarkedMore(bits, b, v);
      CountOne(Marked(bits, less, v), b.start + b.len - 1, v);
    }
  }

  /** A run of free frames never outnumbers the free frames. */
  lemma RunFitsCount(bits: seq<bool>, len: nat)
    requires HasRun(bits, len)
    ensures len <= FreeCount(bits)
  {
    var s: nat :| s >= 1 && FreeRun(bits, Block(s, len));
    CountMarked(bits, Block(s, len), true);
  }

  lemma {:induction false} NoneFree(bits: seq<bool>)
    requires forall f :: 0 <= f < |bits| ==> bits[f]
    ensures FreeCount(bits) == 0
  {
    if bits != [] {
      NoneFree(bits[..|bits| - 1]);
    }
  }

  // ----- scanning

  /** How many free frames in a row end just before `f`, frame 0 not counted. */
  function Tail(bits: seq<bool>, f: nat): (n: nat)
    requires f <= |bits|
    ensures n <= f && FreeRun(bits, Block(f - n, n)) && (n > 0 ==> f - n >= 1)
  {
    if f <= 1 || bits[f - 1] then 0 else Tail(bits, f - 1) + 1
  }

  /** No run of `len` ends at or before `f`. */
  ghost predicate NoneBefore(bits: seq<bool>, len: nat, f: nat) {
    forall s: nat :: s >= 1 && s + len <= f ==> !FreeRun(bits, Block(s, len))
  }

  /** Every run that ends at `f` is within the tail. */
  lemma {:induction false} TailIsLongest(bits: seq<bool>, f: nat, s: nat)
    requires 1 <= s <= f <= |bits| && FreeRun(bits, Block(s, f - s))
    ensures f - s <= Tail(bits, f)
  {
    if s < f {
      TailIsLongest(bits, f - 1, s);
    }
  }

  lemma NoneYet(bits: seq<bool>, len: nat, f: nat)
    requires f < |bits| && len > 0 && NoneBefore(bits, len, f) && Tail(bits, f + 1) < len
    ensures NoneBefore(bits, len, f + 1)
  {
    forall s: nat | s >= 1 && s + len <= f + 1
      ensures !FreeRun(bits, Block(s, len))
    {
      if s + len == f + 1 && FreeRun(bits, Block(s, len)) {
        TailIsLongest(bits, f + 1, s);
      }
    }
  }

  // ----- which run is taken

  /** The lowest run of `len` free frames above frame 0. */
  ghost predicate FirstRun(bits: seq<bool>, len: nat, s: nat) {
    s >= 1 && FreeRun(bits, Block(s, len)) && forall r: nat :: 1 <= r < s ==> !FreeRun(bits, Block(r, len))
  }

  /** The run taken when the lowest one starts at `s`: for eight frames, a whole free byte right after its start wins. */
  function Picked(bits: seq<bool>, len: nat, s: nat): nat {
    var next := 8 * (s / 8 + 1);
    if len == 8 && s % 8 != 0 && FreeRun(bits, Block(next, 8)) then next else s
  }

  ghost predicate RunFound(bits: seq<bool>, len: nat, r: nat) {
    exists s: nat :: FirstRun(bits, len, s) && r == Picked(bits, len, s)
  }

  /** What is taken is free and above frame 0, and there is only one choice. */
  lemma FoundIsFree(bits: seq<bool>, len: nat, r: nat)
    requires RunFound(bits, len, r)
    ensures r >= 1 && FreeRun(bits, Block(r, len)) && HasRun(bits, len)
    ensures forall q: nat :: RunFound(bits, len, q) ==> q == r
  {
    var s: nat :| FirstRun(bits, len, s) && r == Picked(bits, len, s);
    forall q: nat | RunFound(bits, len, q)
      ensures q == r
    {
      var s': nat :| FirstRun(bits, len, s') && q == Picked(bits, len, s');
    }
  }

  /** The lowest run is passed over exactly for eight frames that start inside a byte with the next byte wholly free. */
  lemma PassesOverLowest(bits: seq<bool>, len: nat, s: nat, r: nat)
    requires FirstRun(bits, len, s) && RunFound(bits, len, r)
    ensures r != s <==> len == 8 && s % 8 != 0 && FreeRun(bits, Block(8 * (s / 8 + 1), 8))
    ensures r != s ==> r == 8 * (s / 8 + 1)
  {
    var s': nat :| FirstRun(bits, len, s') && r == Picked(bits, len, s');
    assert s' == s;
  }

  /** On two free bytes the lowest run of eight starts at frame 1, and frames 8 to 15 are taken. */
  lemma EightPassOverLowest(bits: seq<bool>)
    requires |bits| == 16 && forall f :: 0 <= f < 16 ==> !bits[f]
    ensures FirstRun(bits, 8, 1) && RunFound(bits, 8, 8) && !RunFound(bits, 8, 1)
  {
    assert FirstRun(bits, 8, 1) && Picked(bits, 8, 1) == 8;
    FoundIsFree(bits, 8, 8);
  }

  // ----- runs of the allocator

  /** The bits, the counters and the blocks handed out and not yet released. */
  datatype Frames = Frames(bits: seq<bool>, total: nat, free: int, taken: int, used: int, live: seq<Block>)

  function Held(live: seq<Block>): nat { if live == [] then 0 else Held(live[..|live| - 1]) + live[|live| - 1].len }

  predicate Apart(a: Block, b: Block) { a.start + a.len <= b.start || b.start + b.len <= a.start }

  /** The counters agree with the bits, and bits past the last frame stay set. */
  ghost predicate Counted(s: Frames) {
    && s.total <= |s.bits| && s.free == FreeCount(s.bits) && s.taken + s.free == s.total
    && forall f :: s.total <= f < |s.bits| ==> s.bits[f]
  }

  ghost predicate Inv(s: Frames) {
    && Counted(s) && Held(s.live) <= s.used && LiveOk(s.bits, s.total, s.live)
  }

  datatype Op = Alloc(len: nat) | Release(index: nat)

  /** An allocation succeeds exactly when a run exists, and takes one; a release returns a live block. */
  ghost predicate Step(s: Frames, op: Op, s': Frames) {
    match op
    case Alloc(len) =>
      if len > 0 && HasRun(s.bits, len) then
        exists b: Block :: b.len == len && RunFound(s.bits, len, b.start) && s' == Taken(s, b)
      else s' == s
    case Release(i) => i < |s.live| && s' == Released(s, i)
  }

  function Taken(s: Frames, b: Block): Frames {
    Frames(Marked(s.bits, b, true), s.total, s.free - b.len, s.taken + b.len, s.used + b.len, s.live + [b])
  }

  function Released(s: Frames, i: nat): Frames
    requires i < |s.live|
  {
    var b := s.live[i];
    Frames(Marked(s.bits, b, false), s.total, s.free + b.len, s.taken - b.len, s.used - b.len, s.live[..i] + s.live[i + 1..])
  }

  /** A free block lies apart from everything taken and below the last frame. */
  lemma FreeIsApart(s: Frames, b: Block, i: nat)
    requires Inv(s) && FreeRun(s.bits, b) && b.len > 0 && i < |s.live|
    ensures Apart(s.live[i], b)
  {
    var a := s.live[i];
    var f := NatMax(a.start, b.start);
    assert a.Has(f) ==> f < |s.bits| && s.bits[f];
    assert b.Has(f) ==> f < |s.bits| && !s.bits[f];
  }

  lemma TakenCounted(s: Frames, b: Block)
    requires Counted(s) && b.len > 0 && FreeRun(s.bits, b)
    ensures Counted(Taken(s, b)) && b.start + b.len <= s.total
  {
    hide FreeCount;
    CountMarked(s.bits, b, true);
    assert !s.bits[b.start + b.len - 1];
  }

  lemma TakenLive(s: Frames, b: Block)
    requires Inv(s) && b.len > 0 && b.start >= 1 && FreeRun(s.bits, b) && b.start + b.len <= s.total
    ensures LiveOk(Taken(s, b).bits, s.total, s.live + [b])
  {
    hide FreeCount, Held, FreeRun;
    var bits := Taken(s, b).bits;
    assert TakenRun(bits, b);
    forall i | 0 <= i < |s.live|
      ensures Apart(s.live[i], b) && TakenRun(bits, s.live[i])
    {
      FreeIsApart(s, b, i);
    }
    hide TakenRun, Taken, Apart;
  }

  lemma TakenKeepsInv(s: Frames, b: Block)
    requires Inv(s) && b.len > 0 && b.start >= 1 && FreeRun(s.bits, b)
    ensures Inv(Taken(s, b))
  {
    hide FreeRun, Counted, LiveOk;
    TakenCounted(s, b);
    TakenLive(s, b);
    assert Taken(s, b).live[..|s.live|] == s.live;
    assert Held(Taken(s, b).live) == Held(s.live) + b.len;
  }

  lemma {:induction false} HeldWithout(live: seq<Block>, i: nat)
    requires i < |live|
    ensures Held(live[..i] + live[i + 1..]) == Held(live) - live[i].len
  {
    var n := |live| - 1;
    if i == n {
      assert live[..i] + live[i + 1..] == live[..n];
    } else {
      var rest := live[..i] + live[i + 1..];
      HeldWithout(live[..n], i);
      assert rest[..n - 1] == live[..n][..i] + live[..n][i + 1..];
      assert rest[n - 1] == live[n];
    }
  }

  ghost predicate LiveOk(bits: seq<bool>, total: nat, live: seq<Block>) {
    && (forall i :: 0 <= i < |live| ==> live[i].start >= 1 && live[i].len > 0 && TakenRun(bits, live[i]) && live[i].start + live[i].len <= total)
    && (forall i, j :: 0 <= i < j < |live| ==> Apart(live[i], live[j]))
  }

  lemma LiveWithout(bits: seq<bool>, total: nat, live: seq<Block>, i: nat)
    requires LiveOk(bits, total, live) && i < |live|
    ensures LiveOk(Marked(bits, live[i], false), total, live[..i] + live[i + 1..])
  {
  }

  lemma ReleasedKeepsInv(s: Frames, i: nat)
    requires Inv(s) && i < |s.live|
    ensures Inv(Released(s, i)) && Released(s, i).used >= 0
  {
    CountMarked(s.bits, s.live[i], false);
    HeldWithout(s.live, i);
    LiveWithout(s.bits, s.total, s.live, i);
    hide FreeCount, Held, LiveOk;
  }

  lemma StepKeepsInv(s: Frames, op: Op, s': Frames)
    requires Inv(s) && Step(s, op, s')
    ensures Inv(s')
  {
    match op
    case Alloc(len) =>
      if len > 0 && HasRun(s.bits, len) {
        var b: Block :| b.len == len && RunFound(s.bits, len, b.start) && s' == Taken(s, b);
        FoundIsFree(s.bits, len, b.start);
        TakenKeepsInv(s, b);
      }
    case Release(i) => ReleasedKeepsInv(s, i);
  }

  /** In every run the counters match the bits and no two live blocks share a frame. */
  lemma {:induction false} EveryRunKeepsInv(ss: seq<Frames>, ops: seq<Op>, n: nat)
    requires |ss| == |ops| + 1 && n <= |ops| && Inv(ss[0])
    requires forall i :: 0 <= i < |ops| ==> Step(ss[i], ops[i], ss[i + 1])
    ensures Inv(ss[n])
  {
    if n > 0 {
      EveryRunKeepsInv(ss, ops, n - 1);
      StepKeepsInv(ss[n - 1], ops[n - 1], ss[n]);
    }
  }

  /** Releasing a block just taken restores the bits and every counter. */
  lemma ReleaseUndoesTake(s: Frames, b: Block)
    requires FreeRun(s.bits, b)
    ensures Released(Taken(s, b), |s.live|) == s
  {
  }
}

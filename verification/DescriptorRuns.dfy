/**
 * Reading and writing through descriptors over whole runs: successive reads
 * return successive bytes, a descriptor that is left alone reads its file from
 * end to end, what is written is read back, and a pipe hands out what was
 * written to it in order.
 */
module DescriptorRuns {
  import opened Basics
  import opened Descriptors
  import opened DescriptorTable

  ghost function FdOf(fds: seq<Descriptor>, num: nat): Option<Descriptor> {
    match IndexOf(fds, num) case Some(k) => Some(fds[k]) case None => None
  }

  // ----- two calls in a row

  /** A descriptor after reading up to `max` bytes of content `c`. */
  function Advanced(fd: Descriptor, c: seq<u8>, max: nat): Descriptor {
    fd.(cache := if fd.backing.FsBacking? then Some(c) else fd.cache, offset := NatMin(NatMin(fd.offset, |c|) + max, |c|))
  }

  lemma ReadIs(t: Table, k: nat, max: nat, c: seq<u8>)
    requires k < |t.fds| && Content(t, t.fds[k].backing) == Some(c) && (t.fds[k].cache.Some? ==> t.fds[k].cache.value == c)
    ensures ReadFs(t, k, max) == (Data(Slice(c, t.fds[k].offset, max)), t.(fds := t.fds[k := Advanced(t.fds[k], c, max)]))
  {
    hide Slice;
  }

  lemma SliceTwice(c: seq<u8>, o: nat, m: nat, n: nat)
    ensures Slice(c, o, m) + Slice(c, NatMin(NatMin(o, |c|) + m, |c|), n) == Slice(c, o, m + n)
    ensures NatMin(NatMin(NatMin(NatMin(o, |c|) + m, |c|), |c|) + n, |c|) == NatMin(NatMin(o, |c|) + m + n, |c|)
  {
    var s := NatMin(o, |c|);
    var e := NatMin(s + m, |c|);
    assert c[s..e] + c[e..NatMin(e + n, |c|)] == c[s..NatMin(s + m + n, |c|)];
  }

  lemma Reads(t: Table, k: nat, fd: Descriptor, t': Table, c: seq<u8>, max: nat)
    requires k < |t.fds| && t' == t.(fds := t.fds[k := fd]) && Content(t, fd.backing) == Some(c) && (fd.cache.Some? ==> fd.cache.value == c)
    ensures ReadFs(t', k, max) == (Data(Slice(c, fd.offset, max)), t.(fds := t.fds[k := Advanced(fd, c, max)]))
  {
    hide Slice, Advanced;
    ReadIs(t', k, max, c);
    hide ReadFs;
    assert t.fds[k := fd][k := Advanced(fd, c, max)] == t.fds[k := Advanced(fd, c, max)];
  }

  /** Reading twice returns together what one longer read returns, and leaves the same table. */
  lemma ReadTwice(t: Table, k: nat, m: nat, n: nat)
    requires Inv(t) && k < |t.fds| && !t.fds[k].backing.PipeBacking? && Content(t, t.fds[k].backing).Some?
    ensures var (r1, t1) := ReadFs(t, k, m);
            var (r2, t2) := ReadFs(t1, k, n);
            var (r3, t3) := ReadFs(t, k, m + n);
            && r1.Data? && r2.Data? && r3.Data? && r1.bytes + r2.bytes == r3.bytes
            && t2 == t3
  {
    hide Inv, ReadFs, Slice;
    var fd, c := t.fds[k], Content(t, t.fds[k].backing).value;
    CachedNow(t, k);
    ReadIs(t, k, m, c);
    ReadIs(t, k, m + n, c);
    Reads(t, k, Advanced(fd, c, m), ReadFs(t, k, m).1, c, n);
    SliceTwice(c, fd.offset, m, n);
  }

  /**
   * After seeking to a place counted from the start, the offset or the end, a
   * read returns the bytes from there: none when it is past the end.
   */
  lemma SeekThenRead(t: Table, k: nat, pos: SeekFrom, max: nat, from: nat, c: seq<u8>)
    requires Inv(t) && k < |t.fds| && !t.fds[k].backing.PipeBacking? && Content(t, t.fds[k].backing) == Some(c) && from <= MaxI64
    requires from == match pos case Start(o) => o case Current(d) => t.fds[k].offset + d case FromEnd(d) => |c| + d
    ensures Seekable(t, k, pos) && SeekTarget(t, k, pos) == from
    ensures ReadFs(Sought(t, k, from), k, max).0 == Data(if from <= |c| then c[from..NatMin(from + max, |c|)] else [])
  {
    hide Inv;
    CachedNow(t, k);
    Reads(t, k, t.fds[k].(offset := from), Sought(t, k, from), c, max);
    hide ReadFs;
  }

  lemma CachedNow(t: Table, k: nat)
    requires Inv(t) && k < |t.fds|
    ensures t.fds[k].cache.Some? ==> t.fds[k].backing.FsBacking? && Content(t, t.fds[k].backing) == t.fds[k].cache
  {
    assert CacheFresh(t.fds[k], t.store);
  }

  /** After a write that the file system accepts, every descriptor of the file reads the new content, from its own place. */
  lemma WriteIsSeen(t: Table, k: nat, j: nat, len: nat, content: seq<u8>, max: nat)
    requires k < |t.fds| && j < |t.fds| && t.fds[k].backing.FsBacking? && t.fds[j].backing == t.fds[k].backing
    ensures var t' := WriteFs(t, k, len, content);
            |t'.fds| == |t.fds| &&
            ReadFs(t', j, max).0 == Data(Slice(content, if j == k then t.fds[j].offset + len else t.fds[j].offset, max))
  {
    hide Slice;
    ReadIs(WriteFs(t, k, len, content), j, max, content);
  }

  /** Writing twice to a virtual file is writing both at once. */
  lemma WriteTwice(t: Table, k: nat, a: seq<u8>, b: seq<u8>)
    requires k < |t.fds| && t.fds[k].backing.VirtualBacking?
    ensures WriteVirtual(WriteVirtual(t, k, a), k, b) == WriteVirtual(t, k, a + b)
  {
    hide Overlaid;
    var fd := t.fds[k];
    var c := Content(t, fd.backing).value;
    LaidTwice(c, fd.offset, a, b);
    var laid := Overlaid(c, fd.offset, a);
    var t1 := WriteVirtual(t, k, a);
    assert t1.fds[k] == fd.(offset := fd.offset + |a|) && Content(t1, fd.backing) == Some(laid);
    assert WriteVirtual(t1, k, b).fds == t.fds[k := fd.(offset := fd.offset + |a + b|)];
    assert t1.store[fd.backing := Overlaid(laid, fd.offset + |a|, b)] == t.store[fd.backing := Overlaid(c, fd.offset, a + b)];
  }

  lemma LaidTwice(c: seq<u8>, o: nat, a: seq<u8>, b: seq<u8>)
    ensures Overlaid(Overlaid(c, o, a), o + |a|, b) == Overlaid(c, o, a + b)
  {
    var once, twice := Overlaid(c, o, a + b), Overlaid(Overlaid(c, o, a), o + |a|, b);
    assert |once| == |twice|;
    forall i | 0 <= i < |once|
      ensures once[i] == twice[i]
    {
    }
  }

  /** What was written is read back after seeking to where the write began. */
  lemma WriteThenRead(t: Table, k: nat, data: seq<u8>)
    requires k < |t.fds| && t.fds[k].backing.VirtualBacking? && t.fds[k].cache.None?
    ensures var t' := Sought(WriteVirtual(t, k, data), k, t.fds[k].offset);
            ReadFs(t', k, |data|).0 == Data(data)
  {
    var fd := t.fds[k];
    var c := Content(t, fd.backing).value;
    var laid := Overlaid(c, fd.offset, data);
    assert laid[fd.offset..fd.offset + |data|] == data;
    hide Overlaid;
  }

  // ----- one call and one descriptor

  lemma {:induction false} FdAppended(fds: seq<Descriptor>, fd: Descriptor, num: nat)
    requires fd.num != num
    ensures FdOf(fds + [fd], num) == FdOf(fds, num)
  {
    if fds == [] {
      assert (fds + [fd])[1..] == [];
    } else {
      assert (fds + [fd])[1..] == fds[1..] + [fd];
      FdAppended(fds[1..], fd, num);
    }
  }

  lemma {:induction false} FdRemoved(fds: seq<Descriptor>, k: nat, num: nat)
    requires k < |fds| && fds[k].num != num
    ensures FdOf(fds[..k] + fds[k + 1..], num) == FdOf(fds, num)
  {
    if k == 0 {
      assert fds[..0] + fds[1..] == fds[1..];
    } else {
      assert (fds[..k] + fds[k + 1..])[1..] == fds[1..][..k - 1] + fds[1..][k..];
      FdRemoved(fds[1..], k - 1, num);
    }
  }

  lemma {:induction false} FdUpdated(fds: seq<Descriptor>, k: nat, fd: Descriptor, num: nat)
    requires IndexOf(fds, fd.num) == Some(k)
    ensures FdOf(fds[k := fd], num) == if num == fd.num then Some(fd) else FdOf(fds, num)
  {
    if k == 0 {
      assert fds[0 := fd][1..] == fds[1..];
    } else {
      assert fds[k := fd][1..] == fds[1..][k - 1 := fd];
      FdUpdated(fds[1..], k - 1, fd, num);
    }
  }

  lemma {:induction false} FdDropped(fds: seq<Descriptor>, b: Backing, num: nat)
    ensures IndexOf(Dropped(fds, b), num) == IndexOf(fds, num)
    ensures var o := FdOf(fds, num);
            FdOf(Dropped(fds, b), num) == if o.Some? && o.value.backing == b then Some(o.value.(cache := None)) else o
  {
    if fds != [] {
      assert Dropped(fds, b)[1..] == Dropped(fds[1..], b);
      FdDropped(fds[1..], b, num);
    }
  }

  /** Where the offset of descriptor `fd` is after a call: moved by its own reads and writes, set by its own seeks. */
  function OffsetAfter(t: Table, fd: Descriptor, op: Op): nat {
    match op
    case Seek(n, target) => if n == fd.num then target else fd.offset
    case Read(n, max) =>
      if n == fd.num && !fd.backing.PipeBacking? && Content(t, fd.backing).Some?
      then var c := Content(t, fd.backing).value; NatMin(fd.offset, |c|) + |Slice(c, fd.offset, max)|
      else fd.offset
    case Write(n, data, accepted) =>
      if n == fd.num && (fd.backing.VirtualBacking? || (fd.backing.FsBacking? && accepted.Some?)) then fd.offset + |data| else fd.offset
    case _ => fd.offset
  }

  /** A call moves only the offset of the descriptor it names, by the bytes it transferred, and never changes what a descriptor stands for. */
  lemma FdAfter(t: Table, op: Op, num: nat, fd: Descriptor)
    requires Inv(t) && FdOf(t.fds, num) == Some(fd) && op != Close(num)
    ensures fd.num == num && Follows(t, op, fd, FdOf(Do(t, op).fds, num))
  {
    hide Inv, IndexOf, ReadFs, WriteFs, WriteVirtual, ReadPipe, WritePipe, FdOf, Follows, OffsetAfter, InUse;
    NumBelow(t, num);
    FdNum(t.fds, num);
    match op
    case Open(m, p) =>
      Unmoved(t, op, fd);
      FdAppended(t.fds, Descriptor(t.nextNum, FsBacking(m, p), 0, None, None), num);
    case OpenVirtual(file) =>
      Unmoved(t, op, fd);
      FdAppended(t.fds, Descriptor(t.nextNum, VirtualBacking(file), 0, None, None), num);
    case CreatePipe =>
      Unmoved(t, op, fd);
      var r := Descriptor(t.nextNum, PipeBacking(t.nextId), 0, Some(ReadEnd), None);
      FdAppended(t.fds, r, num);
      FdAppended(t.fds + [r], Descriptor(t.nextNum + 1, PipeBacking(t.nextId), 0, Some(WriteEnd), None), num);
    case Close(n) =>
      Unmoved(t, op, fd);
      var k := IndexOf(t.fds, n);
      if k.Some? { FdRemoved(t.fds, k.value, num); }
    case Read(n, max) => FdAfterRead(t, n, max, num, fd);
    case Write(n, data, accepted) => FdAfterWrite(t, n, data, accepted, num, fd);
    case Seek(n, target) => FdAfterSeek(t, n, target, num, fd);
  }

  lemma Unmoved(t: Table, op: Op, fd: Descriptor)
    requires !op.Read? && !op.Write? && !op.Seek?
    ensures Follows(t, op, fd, Some(fd))
  {
  }

  lemma FdAfterSeek(t: Table, n: nat, target: nat, num: nat, fd: Descriptor)
    requires Inv(t) && FdOf(t.fds, num) == Some(fd) && fd.num == num
    ensures Follows(t, Seek(n, target), fd, FdOf(Do(t, Seek(n, target)).fds, num))
  {
    hide Inv;
    var k := IndexOf(t.fds, n);
    if k.Some? { FdUpdated(t.fds, k.value, t.fds[k.value].(offset := target), num); }
  }

  lemma NumBelow(t: Table, num: nat)
    requires Inv(t) && FdOf(t.fds, num).Some?
    ensures num < t.nextNum
  {
  }

  /** The descriptor still stands for the same thing, with its offset moved as the call says. */
  ghost predicate Follows(t: Table, op: Op, fd: Descriptor, fd': Option<Descriptor>) {
    fd'.Some? && fd'.value.num == fd.num && fd'.value.backing == fd.backing && fd'.value.end == fd.end
    && fd'.value.offset == OffsetAfter(t, fd, op)
  }

  lemma ReadMoves(t: Table, k: nat, max: nat)
    requires Inv(t) && k < |t.fds| && !t.fds[k].backing.PipeBacking?
    ensures var fd, t' := t.fds[k], ReadFs(t, k, max).1;
            && t' == t.(fds := t.fds[k := t'.fds[k]]) && t'.fds[k].num == fd.num
            && Follows(t, Read(fd.num, max), fd, Some(t'.fds[k]))
  {
    CachedNow(t, k);
    hide Inv;
    var fd := t.fds[k];
    if Content(t, fd.backing).None? {
      assert t.fds[k := fd] == t.fds;
    }
  }

  lemma Elsewhere(t: Table, op: Op, fd: Descriptor)
    requires op.Read? || op.Write? || op.Seek?
    requires op.num != fd.num
    ensures Follows(t, op, fd, Some(fd))
  {
  }

  lemma FdAfterRead(t: Table, n: nat, max: nat, num: nat, fd: Descriptor)
    requires Inv(t) && FdOf(t.fds, num) == Some(fd) && fd.num == num
    ensures Follows(t, Read(n, max), fd, FdOf(Do(t, Read(n, max)).fds, num))
  {
    hide Inv, ReadFs, ReadPipe, Follows, OffsetAfter;
    var k := IndexOf(t.fds, n);
    if n != num { Elsewhere(t, Read(n, max), fd); }
    if k.None? {
    } else if !t.fds[k.value].backing.PipeBacking? {
      ReadMoves(t, k.value, max);
      hide IndexOf;
      FdUpdated(t.fds, k.value, ReadFs(t, k.value, max).1.fds[k.value], num);
    } else {
      PipeOfFd(t, k.value);
      PipeReadKeeps(t, k.value, max);
    }
  }

  lemma PipeReadKeeps(t: Table, k: nat, max: nat)
    requires k < |t.fds| && t.fds[k].backing.PipeBacking? && t.fds[k].backing.id in t.pipes && t.fds[k].backing.id in t.got
    ensures ReadPipe(t, t.fds[k].backing.id, max).1.fds == t.fds && Follows(t, Read(t.fds[k].num, max), t.fds[k], Some(t.fds[k]))
  {
  }

  lemma WriteMoves(t: Table, k: nat, data: seq<u8>, accepted: Option<seq<u8>>)
    requires k < |t.fds|
    ensures var fd := t.fds[k];
            Follows(t, Write(fd.num, data, accepted), fd,
                    Some(if fd.backing.VirtualBacking? || (fd.backing.FsBacking? && accepted.Some?) then fd.(offset := fd.offset + |data|) else fd))
  {
  }

  lemma CacheIsAside(t: Table, op: Op, fd: Descriptor, fd': Descriptor)
    requires Follows(t, op, fd, Some(fd'))
    ensures Follows(t, op, fd, Some(fd'.(cache := None)))
  {
  }

  lemma FdAfterWrite(t: Table, n: nat, data: seq<u8>, accepted: Option<seq<u8>>, num: nat, fd: Descriptor)
    requires Inv(t) && FdOf(t.fds, num) == Some(fd) && fd.num == num
    ensures Follows(t, Write(n, data, accepted), fd, FdOf(Do(t, Write(n, data, accepted)).fds, num))
  {
    hide Inv, WriteFs, WriteVirtual, WritePipe, Follows, OffsetAfter;
    var k, op := IndexOf(t.fds, n), Write(n, data, accepted);
    if n != num { Elsewhere(t, op, fd); }
    if k.Some? {
      var was := t.fds[k.value];
      WriteMoves(t, k.value, data, accepted);
      if was.backing.FsBacking? {
        if accepted.Some? { FdAfterWriteFs(t, k.value, data, accepted.value, num, fd); }
      } else if was.backing.VirtualBacking? {
        FdAfterWriteVirtual(t, k.value, data, num, fd);
      } else {
        PipeOfFd(t, k.value);
        PipeWriteKeeps(t, was.backing.id, data);
      }
    }
  }

  lemma PipeWriteKeeps(t: Table, id: nat, data: seq<u8>)
    requires id in t.pipes && id in t.sent
    ensures WritePipe(t, id, data).fds == t.fds
  {
  }

  lemma FdAfterWriteVirtual(t: Table, k: nat, data: seq<u8>, num: nat, fd: Descriptor)
    requires k < |t.fds| && t.fds[k].backing.VirtualBacking? && IndexOf(t.fds, t.fds[k].num) == Some(k) && FdOf(t.fds, num) == Some(fd)
    requires t.fds[k].num != num || fd == t.fds[k]
    ensures FdOf(WriteVirtual(t, k, data).fds, num) == Some(if t.fds[k].num == num then fd.(offset := fd.offset + |data|) else fd)
  {
    hide Overlaid, IndexOf;
    FdUpdated(t.fds, k, t.fds[k].(offset := t.fds[k].offset + |data|), num);
  }

  lemma FdAfterWriteFs(t: Table, k: nat, data: seq<u8>, content: seq<u8>, num: nat, fd: Descriptor)
    requires k < |t.fds| && t.fds[k].backing.FsBacking? && IndexOf(t.fds, t.fds[k].num) == Some(k) && FdOf(t.fds, num) == Some(fd) && fd.num == num
    requires t.fds[k].num == num ==> fd == t.fds[k]
    ensures Follows(t, Write(t.fds[k].num, data, Some(content)), fd, FdOf(WriteFs(t, k, |data|, content).fds, num))
  {
    hide Follows, OffsetAfter, IndexOf;
    var was := t.fds[k];
    var op := Write(was.num, data, Some(content));
    if was.num != num {
      Elsewhere(t, op, fd);
      CacheIsAside(t, op, fd, fd);
    } else {
      WriteMoves(t, k, data, Some(content));
      CacheIsAside(t, op, fd, fd.(offset := fd.offset + |data|));
    }
    DroppedThenMoved(t.fds, k, |data|, num, fd);
  }

  lemma DroppedThenMoved(fds: seq<Descriptor>, k: nat, len: nat, num: nat, fd: Descriptor)
    requires k < |fds| && IndexOf(fds, fds[k].num) == Some(k) && FdOf(fds, num) == Some(fd) && (fds[k].num == num ==> fd == fds[k])
    ensures var dropped := Dropped(fds, fds[k].backing);
            FdOf(dropped[k := dropped[k].(offset := fds[k].offset + len)], num) ==
            Some(if fds[k].num == num then fd.(cache := None, offset := fd.offset + len) else if fd.backing == fds[k].backing then fd.(cache := None) else fd)
  {
    hide IndexOf, Dropped, FdOf;
    var was := fds[k];
    var dropped := Dropped(fds, was.backing);
    FdDropped(fds, was.backing, num);
    FdDropped(fds, was.backing, was.num);
    DroppedAt(fds, was.backing, k);
    FdUpdated(dropped, k, dropped[k].(offset := was.offset + len), num);
  }

  lemma DroppedAt(fds: seq<Descriptor>, b: Backing, k: nat)
    requires k < |fds| && fds[k].backing == b
    ensures |Dropped(fds, b)| == |fds| && Dropped(fds, b)[k] == fds[k].(cache := None)
  {
  }

  /** The call writes the file. */
  ghost predicate Changes(t: Table, op: Op, b: Backing) {
    op.Write? && FdOf(t.fds, op.num).Some? && FdOf(t.fds, op.num).value.backing == b
  }

  /** A file keeps its bytes through every call that does not write it. */
  lemma ContentAfter(t: Table, op: Op, b: Backing)
    requires Inv(t) && !Changes(t, op, b)
    ensures Content(Do(t, op), b) == Content(t, b)
  {
    hide Inv, IndexOf, Closed, Slice, Overlaid, Dropped;
    match op
    case Read(n, max) =>
      var k := IndexOf(t.fds, n);
      if k.Some? && t.fds[k.value].backing.PipeBacking? { PipeOfFd(t, k.value); }
    case Write(n, data, accepted) =>
      var k := IndexOf(t.fds, n);
      if k.Some? && t.fds[k.value].backing.PipeBacking? { PipeOfFd(t, k.value); }
    case Close(n) =>
      var k := IndexOf(t.fds, n);
      if k.Some? { ClosedKeepsBytes(t, k.value); }
    case _ =>
  }

  lemma ClosedKeepsBytes(t: Table, k: nat)
    requires k < |t.fds|
    ensures var t' := Closed(t, k); t'.store == t.store && t'.sent == t.sent && t'.got == t.got && t'.nextId == t.nextId
  {
  }

  // ----- reading a file over a run

  /** What a call reads through descriptor `num`. */
  ghost function BytesOf(t: Table, op: Op, num: nat): seq<u8> {
    var fd := FdOf(t.fds, num);
    if op.Read? && op.num == num && fd.Some? && !fd.value.backing.PipeBacking? && Uncached(t, fd.value, op.max).Data?
    then Uncached(t, fd.value, op.max).bytes else []
  }

  /** All bytes read through descriptor `num` by calls `a` to `n`. */
  ghost function BytesRead(ts: seq<Table>, ops: seq<Op>, num: nat, a: nat, n: nat): seq<u8>
    requires a <= n <= |ops| && |ts| == |ops| + 1
  {
    if n == a then [] else BytesRead(ts, ops, num, a, n - 1) + BytesOf(ts[n - 1], ops[n - 1], num)
  }

  /** Calls `a` to `n` neither close nor seek the descriptor nor write its file. */
  ghost predicate LeftAlone(ts: seq<Table>, ops: seq<Op>, num: nat, b: Backing, a: nat, n: nat)
    requires a <= n <= |ops| && |ts| == |ops| + 1
  {
    forall m :: a <= m < n ==> ops[m] != Close(num) && !(ops[m].Seek? && ops[m].num == num) && !Changes(ts[m], ops[m], b)
  }

  lemma LeftAloneLast(ts: seq<Table>, ops: seq<Op>, num: nat, b: Backing, a: nat, n: nat)
    requires a < n <= |ops| && |ts| == |ops| + 1 && LeftAlone(ts, ops, num, b, a, n)
    ensures LeftAlone(ts, ops, num, b, a, n - 1)
    ensures var op := ops[n - 1]; op != Close(num) && !(op.Seek? && op.num == num) && !Changes(ts[n - 1], op, b)
  {
    hide Changes;
  }

  lemma SliceOn(c: seq<u8>, o: nat, off: nat, max: nat)
    requires o <= off <= |c|
    ensures c[o..off] + Slice(c, off, max) == c[o..off + |Slice(c, off, max)|] && off + |Slice(c, off, max)| <= |c|
  {
  }

  lemma RunStep(ts: seq<Table>, ops: seq<Op>, m: nat)
    requires Run(ts, ops) && m < |ops|
    ensures Inv(ts[m]) && ts[m + 1] == Do(ts[m], ops[m])
  {
    EveryRunKeepsInv(ts, ops, m);
    hide Inv, Do;
  }

  lemma RunLength(ts: seq<Table>, ops: seq<Op>)
    requires Run(ts, ops)
    ensures |ts| == |ops| + 1
  {
  }

  /** Where a descriptor that has read from `o` on stands, and what it has read. */
  ghost predicate HasRead(t: Table, num: nat, b: Backing, c: seq<u8>, o: nat, bytes: seq<u8>) {
    var now := FdOf(t.fds, num);
    && now.Some? && now.value.num == num && now.value.backing == b && o <= now.value.offset <= |c|
    && Content(t, b) == Some(c) && bytes == c[o..now.value.offset]
  }

  lemma HasReadStep(t: Table, op: Op, num: nat, b: Backing, c: seq<u8>, o: nat, bytes: seq<u8>)
    requires Inv(t) && HasRead(t, num, b, c, o, bytes) && !b.PipeBacking?
    requires op != Close(num) && !(op.Seek? && op.num == num) && !Changes(t, op, b)
    ensures HasRead(Do(t, op), num, b, c, o, bytes + BytesOf(t, op, num))
  {
    hide Inv, Do, Changes, FdOf;
    var was := FdOf(t.fds, num).value;
    FdAfter(t, op, num, was);
    ContentAfter(t, op, b);
    if op.Read? && op.num == num {
      SliceOn(c, o, was.offset, op.max);
      hide Slice;
    } else {
      NotTouched(t, was, op, num);
      assert bytes + [] == bytes;
    }
  }

  /**
   * A descriptor that is only read from, whatever else the run does, has read
   * exactly the bytes between where it stood and where it stands.
   */
  lemma {:induction false} ReadsAreConsecutive(ts: seq<Table>, ops: seq<Op>, num: nat, a: nat, n: nat, fd: Descriptor, c: seq<u8>)
    requires Run(ts, ops) && a <= n <= |ops| && FdOf(ts[a].fds, num) == Some(fd) && !fd.backing.PipeBacking?
    requires Content(ts[a], fd.backing) == Some(c) && fd.offset <= |c| && LeftAlone(ts, ops, num, fd.backing, a, n)
    ensures HasRead(ts[n], num, fd.backing, c, fd.offset, BytesRead(ts, ops, num, a, n))
    decreases n
  {
    hide Inv, Do, Changes, HasRead, Run, BytesOf, FdOf, Content, LeftAlone;
    RunLength(ts, ops);
    if n > a {
      LeftAloneLast(ts, ops, num, fd.backing, a, n);
      ReadsAreConsecutive(ts, ops, num, a, n - 1, fd, c);
      RunStep(ts, ops, n - 1);
      HasReadStep(ts[n - 1], ops[n - 1], num, fd.backing, c, fd.offset, BytesRead(ts, ops, num, a, n - 1));
    } else {
      HasReadStart(ts[a], num, fd, c);
    }
  }

  lemma HasReadStart(t: Table, num: nat, fd: Descriptor, c: seq<u8>)
    requires FdOf(t.fds, num) == Some(fd) && Content(t, fd.backing) == Some(c) && fd.offset <= |c|
    ensures HasRead(t, num, fd.backing, c, fd.offset, [])
  {
    FdNum(t.fds, num);
  }

  lemma FdNum(fds: seq<Descriptor>, num: nat)
    requires FdOf(fds, num).Some?
    ensures FdOf(fds, num).value.num == num
  {
  }

  lemma NotTouched(t: Table, fd: Descriptor, op: Op, num: nat)
    requires fd.num == num && FdOf(t.fds, num) == Some(fd) && !(op.Read? && op.num == num) && !(op.Seek? && op.num == num) && !Changes(t, op, fd.backing)
    ensures OffsetAfter(t, fd, op) == fd.offset && BytesOf(t, op, num) == []
  {
  }

  lemma {:induction false} FdNew(fds: seq<Descriptor>, fd: Descriptor)
    requires forall k :: 0 <= k < |fds| ==> fds[k].num != fd.num
    ensures FdOf(fds + [fd], fd.num) == Some(fd)
  {
    if fds != [] {
      assert (fds + [fd])[1..] == fds[1..] + [fd];
      FdNew(fds[1..], fd);
    }
  }

  /** A file just opened stands at its start under a new number. */
  lemma OpenedAtStart(t: Table, op: Op, b: Backing)
    requires Inv(t) && ((op.Open? && b == FsBacking(op.mount, op.relPath)) || (op.OpenVirtual? && b == VirtualBacking(op.file) && !InUse(t.fds, b)))
    ensures var fd := FdOf(Do(t, op).fds, t.nextNum); fd.Some? && fd.value.backing == b && fd.value.offset == 0
    ensures Content(Do(t, op), b) == Content(t, b)
  {
    FdNew(t.fds, Descriptor(t.nextNum, b, 0, None, None));
    hide Inv, FdOf;
  }

  /** From opening on, the bytes read are a prefix of the file, and the whole of it once a positive read is empty. */
  lemma ReadToTheEnd(ts: seq<Table>, ops: seq<Op>, a: nat, n: nat, b: Backing, c: seq<u8>)
    requires Run(ts, ops) && a < n <= |ops| && Content(ts[a], b) == Some(c)
    requires (ops[a].Open? && b == FsBacking(ops[a].mount, ops[a].relPath)) || (ops[a].OpenVirtual? && b == VirtualBacking(ops[a].file) && !InUse(ts[a].fds, b))
    requires LeftAlone(ts, ops, ts[a].nextNum, b, a + 1, n)
    ensures BytesRead(ts, ops, ts[a].nextNum, a + 1, n) <= c
    ensures n < |ops| && ops[n].Read? && ops[n].num == ts[a].nextNum && ops[n].max > 0 && BytesOf(ts[n], ops[n], ts[a].nextNum) == [] ==>
              BytesRead(ts, ops, ts[a].nextNum, a + 1, n) == c
  {
    hide Inv, Do, BytesRead, LeftAlone, Run, InUse, FdOf, Content, HasRead, BytesOf;
    RunLength(ts, ops);
    var num := ts[a].nextNum;
    RunStep(ts, ops, a);
    OpenedAtStart(ts[a], ops[a], b);
    ReadsAreConsecutive(ts, ops, num, a + 1, n, FdOf(ts[a + 1].fds, num).value, c);
    ReadSoFar(ts[n], num, b, c, BytesRead(ts, ops, num, a + 1, n));
    if n < |ops| && ops[n].Read? && ops[n].num == num && ops[n].max > 0 && BytesOf(ts[n], ops[n], num) == [] {
      EmptyAtEnd(ts[n], num, b, c, BytesRead(ts, ops, num, a + 1, n), ops[n]);
    }
  }

  lemma ReadSoFar(t: Table, num: nat, b: Backing, c: seq<u8>, bytes: seq<u8>)
    requires HasRead(t, num, b, c, 0, bytes)
    ensures bytes <= c
  {
    hide FdOf, Content;
  }

  lemma EmptyAtEnd(t: Table, num: nat, b: Backing, c: seq<u8>, bytes: seq<u8>, op: Op)
    requires HasRead(t, num, b, c, 0, bytes) && !b.PipeBacking? && op.Read? && op.num == num && op.max > 0 && BytesOf(t, op, num) == []
    ensures bytes == c
  {
    hide FdOf, Content;
    var now := FdOf(t.fds, num).value;
    assert Slice(c, now.offset, op.max) == [];
    assert c[0..|c|] == c;
  }

  // ----- a pipe over a run

  /** What a call writes to the pipe. */
  ghost function SentBy(t: Table, op: Op, id: nat): seq<u8> {
    if op.Write? && FdOf(t.fds, op.num).Some? && Refers(FdOf(t.fds, op.num).value, id) then op.data else []
  }

  /** What a call reads from the pipe. */
  ghost function GotBy(t: Table, op: Op, id: nat): seq<u8> {
    if op.Read? && FdOf(t.fds, op.num).Some? && Refers(FdOf(t.fds, op.num).value, id) && id in t.pipes
    then t.pipes[id].buf[..NatMin(op.max, |t.pipes[id].buf|)] else []
  }

  ghost function AllSent(ts: seq<Table>, ops: seq<Op>, id: nat, a: nat, n: nat): seq<u8>
    requires a <= n <= |ops| && |ts| == |ops| + 1
  {
    if n == a then [] else AllSent(ts, ops, id, a, n - 1) + SentBy(ts[n - 1], ops[n - 1], id)
  }

  ghost function AllGot(ts: seq<Table>, ops: seq<Op>, id: nat, a: nat, n: nat): seq<u8>
    requires a <= n <= |ops| && |ts| == |ops| + 1
  {
    if n == a then [] else AllGot(ts, ops, id, a, n - 1) + GotBy(ts[n - 1], ops[n - 1], id)
  }

  lemma PipeAfterRead(t: Table, n: nat, max: nat, id: nat)
    requires Inv(t) && id < t.nextId && id in t.sent && id in t.got
    ensures PipeMoved(t, Do(t, Read(n, max)), id, [], GotBy(t, Read(n, max), id))
  {
    hide Inv, IndexOf, Slice;
    var k := IndexOf(t.fds, n);
    if k.Some? && t.fds[k.value].backing.PipeBacking? { PipeOfFd(t, k.value); }
  }

  lemma PipeAfterWrite(t: Table, n: nat, data: seq<u8>, accepted: Option<seq<u8>>, id: nat)
    requires Inv(t) && id < t.nextId && id in t.sent && id in t.got
    ensures var op := Write(n, data, accepted); PipeMoved(t, Do(t, op), id, SentBy(t, op, id), [])
  {
    hide Inv, IndexOf, Overlaid, Dropped;
    var k := IndexOf(t.fds, n);
    if k.Some? && t.fds[k.value].backing.PipeBacking? { PipeOfFd(t, k.value); }
  }

  lemma PipeAfter(t: Table, op: Op, id: nat)
    requires Inv(t) && id < t.nextId && id in t.sent && id in t.got
    ensures PipeMoved(t, Do(t, op), id, SentBy(t, op, id), GotBy(t, op, id))
  {
    hide Inv, Closed, InUse;
    assert t.sent[id] + [] == t.sent[id] && t.got[id] + [] == t.got[id];
    match op
    case Read(n, max) => PipeAfterRead(t, n, max, id);
    case Write(n, data, accepted) => PipeAfterWrite(t, n, data, accepted, id);
    case Close(n) =>
      var k := IndexOf(t.fds, n);
      if k.Some? { ClosedKeepsBytes(t, k.value); }
    case _ =>
  }

  ghost predicate PipeMoved(t: Table, t': Table, id: nat, sent: seq<u8>, got: seq<u8>)
    requires id in t.sent && id in t.got
  {
    id < t'.nextId && id in t'.sent && id in t'.got && t'.sent[id] == t.sent[id] + sent && t'.got[id] == t.got[id] + got
  }

  lemma PipeMovedOn(t: Table, t1: Table, op: Op, id: nat, sent: seq<u8>, got: seq<u8>)
    requires id in t.sent && id in t.got && PipeMoved(t, t1, id, sent, got) && Inv(t1)
    ensures PipeMoved(t, Do(t1, op), id, sent + SentBy(t1, op, id), got + GotBy(t1, op, id))
  {
    hide Inv, Do, SentBy, GotBy;
    PipeAfter(t1, op, id);
    var more, handed := SentBy(t1, op, id), GotBy(t1, op, id);
    assert t.sent[id] + sent + more == t.sent[id] + (sent + more);
    assert t.got[id] + got + handed == t.got[id] + (got + handed);
  }

  lemma {:induction false} PipeHistory(ts: seq<Table>, ops: seq<Op>, id: nat, a: nat, n: nat)
    requires Run(ts, ops) && a <= n <= |ops| && id < ts[a].nextId && id in ts[a].sent && id in ts[a].got
    ensures PipeMoved(ts[a], ts[n], id, AllSent(ts, ops, id, a, n), AllGot(ts, ops, id, a, n))
    decreases n
  {
    hide Inv, Do, SentBy, GotBy;
    if n > a {
      PipeHistory(ts, ops, id, a, n - 1);
      RunStep(ts, ops, n - 1);
      hide Run, PipeMoved;
      PipeMovedOn(ts[a], ts[n - 1], ops[n - 1], id, AllSent(ts, ops, id, a, n - 1), AllGot(ts, ops, id, a, n - 1));
    } else {
      assert ts[a].sent[id] + [] == ts[a].sent[id] && ts[a].got[id] + [] == ts[a].got[id];
    }
  }

  /** From its creation on, the bytes read from a pipe and then its buffer are exactly the bytes written to it, in order. */
  lemma PipeInOrder(ts: seq<Table>, ops: seq<Op>, a: nat, n: nat)
    requires Run(ts, ops) && a < n <= |ops| && ops[a] == CreatePipe
    ensures var id := ts[a].nextId;
            id in ts[n].pipes ==> AllGot(ts, ops, id, a + 1, n) + ts[n].pipes[id].buf == AllSent(ts, ops, id, a + 1, n)
  {
    hide Inv, Do, AllGot, AllSent;
    var id := ts[a].nextId;
    RunStep(ts, ops, a);
    NewPipe(ts[a]);
    PipeHistory(ts, ops, id, a + 1, n);
    EveryRunKeepsInv(ts, ops, n);
    hide Run;
    if id in ts[n].pipes { PipeAdds(ts[n], id); }
    assert [] + AllGot(ts, ops, id, a + 1, n) == AllGot(ts, ops, id, a + 1, n);
    assert [] + AllSent(ts, ops, id, a + 1, n) == AllSent(ts, ops, id, a + 1, n);
  }

  lemma NewPipe(t: Table)
    requires Inv(t)
    ensures var t', id := Do(t, CreatePipe), t.nextId; id < t'.nextId && id in t'.sent && id in t'.got && t'.sent[id] == t'.got[id] == []
  {
    hide Inv;
  }

  lemma PipeAdds(t: Table, id: nat)
    requires Inv(t) && id in t.pipes
    ensures id in t.sent && id in t.got && t.got[id] + t.pipes[id].buf == t.sent[id]
  {
    assert PipeOk(t, id);
  }

  // ----- which descriptors are open

  ghost predicate IsOpen(fds: seq<Descriptor>, num: nat) { exists i :: 0 <= i < |fds| && fds[i].num == num }

  /** The call hands out this number. */
  ghost predicate HandsOut(t: Table, op: Op, num: nat) {
    || ((op.Open? || (op.OpenVirtual? && !InUse(t.fds, VirtualBacking(op.file)))) && num == t.nextNum)
    || (op.CreatePipe? && (num == t.nextNum || num == t.nextNum + 1))
  }

  ghost predicate SameNums(a: seq<Descriptor>, b: seq<Descriptor>) {
    |a| == |b| && forall i :: 0 <= i < |a| ==> a[i].num == b[i].num
  }

  lemma SameNumsOpen(a: seq<Descriptor>, b: seq<Descriptor>, num: nat)
    requires SameNums(a, b)
    ensures IsOpen(a, num) <==> IsOpen(b, num)
  {
    if IsOpen(a, num) {
      var i :| 0 <= i < |a| && a[i].num == num;
      assert b[i].num == num;
    }
    if IsOpen(b, num) {
      var i :| 0 <= i < |b| && b[i].num == num;
      assert a[i].num == num;
    }
  }

  lemma WriteFsNums(t: Table, k: nat, len: nat, content: seq<u8>)
    requires k < |t.fds|
    ensures SameNums(t.fds, WriteFs(t, k, len, content).fds)
  {
  }

  lemma NumsStay(t: Table, op: Op)
    requires Inv(t) && (op.Read? || op.Write? || op.Seek?)
    ensures SameNums(t.fds, Do(t, op).fds)
  {
    hide Inv, WriteFs, Overlaid, Slice;
    var k := IndexOf(t.fds, op.num);
    if op.Write? && k.Some? && op.accepted.Some? {
      WriteFsNums(t, k.value, |op.data|, op.accepted.value);
    }
  }

  lemma AppendedOpen(fds: seq<Descriptor>, fd: Descriptor, num: nat)
    ensures IsOpen(fds + [fd], num) <==> IsOpen(fds, num) || num == fd.num
  {
    var all := fds + [fd];
    assert all[|fds|] == fd;
    if IsOpen(fds, num) {
      var i :| 0 <= i < |fds| && fds[i].num == num;
      assert all[i].num == num;
    }
  }

  lemma ClosedOpen(t: Table, k: nat, num: nat)
    requires FdsOk(t) && k < |t.fds|
    ensures IsOpen(Closed(t, k).fds, num) <==> IsOpen(t.fds, num) && num != t.fds[k].num
  {
    var rest := t.fds[..k] + t.fds[k + 1..];
    assert Closed(t, k).fds == rest;
    hide Closed, SomeRefers, SomeWrites;
    assert forall j :: 0 <= j < |rest| ==> rest[j] == t.fds[if j < k then j else j + 1];
    if IsOpen(t.fds, num) && num != t.fds[k].num {
      var i :| 0 <= i < |t.fds| && t.fds[i].num == num;
      assert rest[if i < k then i else i - 1].num == num;
    }
  }

  /** After a call exactly the descriptors open before are open, without the one it closes and with those it hands out. */
  lemma OpenAfter(t: Table, op: Op, num: nat)
    requires Inv(t)
    ensures IsOpen(Do(t, op).fds, num) <==> (IsOpen(t.fds, num) && op != Close(num)) || HandsOut(t, op, num)
  {
    hide IsOpen, SameNums, ReadFs, WriteFs, WriteVirtual, ReadPipe, WritePipe, Closed, InUse;
    match op
    case Open(m, p) => AppendedOpen(t.fds, Descriptor(t.nextNum, FsBacking(m, p), 0, None, None), num);
    case OpenVirtual(file) => AppendedOpen(t.fds, Descriptor(t.nextNum, VirtualBacking(file), 0, None, None), num);
    case CreatePipe =>
      var r := Descriptor(t.nextNum, PipeBacking(t.nextId), 0, Some(ReadEnd), None);
      AppendedOpen(t.fds, r, num);
      AppendedOpen(t.fds + [r], Descriptor(t.nextNum + 1, PipeBacking(t.nextId), 0, Some(WriteEnd), None), num);
    case Close(n) =>
      var k := IndexOf(t.fds, n);
      if k.Some? { ClosedOpen(t, k.value, num); } else { NotOpen(t.fds, n); }
    case _ =>
      NumsStay(t, op);
      SameNumsOpen(t.fds, Do(t, op).fds, num);
  }

  lemma NotOpen(fds: seq<Descriptor>, num: nat)
    requires IndexOf(fds, num).None?
    ensures !IsOpen(fds, num)
  {
  }

  /** Call `a` handed out the number and no later one before `n` closed it. */
  ghost predicate HeldSince(ts: seq<Table>, ops: seq<Op>, n: nat, num: nat, a: nat)
    requires n <= |ops| && |ts| == |ops| + 1
  {
    a < n && HandsOut(ts[a], ops[a], num) && forall j :: a < j < n ==> ops[j] != Close(num)
  }

  /** In every run from an empty table, a descriptor is open exactly if it was handed out and not closed since. */
  lemma {:induction false} OpenIffHeld(ts: seq<Table>, ops: seq<Op>, n: nat, num: nat)
    requires Run(ts, ops) && n <= |ops| && ts[0].fds == []
    ensures IsOpen(ts[n].fds, num) <==> exists a: nat :: HeldSince(ts, ops, n, num, a)
  {
    hide Inv, Do, HandsOut, Run;
    RunLength(ts, ops);
    if n > 0 {
      OpenIffHeld(ts, ops, n - 1, num);
      RunStep(ts, ops, n - 1);
      OpenAfter(ts[n - 1], ops[n - 1], num);
      hide IsOpen;
      HeldNext(ts, ops, n - 1, n, num);
    }
  }

  lemma HeldNext(ts: seq<Table>, ops: seq<Op>, m: nat, n: nat, num: nat)
    requires n == m + 1 <= |ops| && |ts| == |ops| + 1
    ensures (exists a: nat :: HeldSince(ts, ops, n, num, a)) <==>
              ((exists a: nat :: HeldSince(ts, ops, m, num, a)) && ops[m] != Close(num)) || HandsOut(ts[m], ops[m], num)
  {
    hide HandsOut;
    if (exists a: nat :: HeldSince(ts, ops, m, num, a)) && ops[m] != Close(num) {
      var a: nat :| HeldSince(ts, ops, m, num, a);
      assert HeldSince(ts, ops, n, num, a);
    }
    if HandsOut(ts[m], ops[m], num) {
      assert HeldSince(ts, ops, n, num, m);
    }
    if exists a: nat :: HeldSince(ts, ops, n, num, a) {
      var a: nat :| HeldSince(ts, ops, n, num, a);
      if a < m {
        assert HeldSince(ts, ops, m, num, a);
      }
    }
  }
}

/**
 * Open file descriptors of the virtual file system (kernel/src/fs/vfs.rs): reads
 * through a content cache per descriptor, and pipes with their two ends.
 */
module Descriptors {
  import opened Basics

  datatype PipeEnd = ReadEnd | WriteEnd

  /** A pipe, a file of a mounted file system, or a virtual file whose bytes the file system keeps itself. */
  datatype Backing = PipeBacking(id: nat) | FsBacking(mount: nat, relPath: string) | VirtualBacking(file: nat)

  datatype Descriptor = Descriptor(num: nat, backing: Backing, offset: nat, end: Option<PipeEnd>, cache: Option<seq<u8>>)

  datatype PipeBuffer = PipeBuffer(buf: seq<u8>, writeClosed: bool)

  /**
   * The table of descriptors, the live pipes, the contents of the files, and, for each pipe ever made, all bytes written to and read
   * from it.
   */
  datatype Table = Table(fds: seq<Descriptor>, pipes: map<nat, PipeBuffer>, store: map<Backing, seq<u8>>,
                         sent: map<nat, seq<u8>>, got: map<nat, seq<u8>>, nextNum: nat, nextId: nat)

  // ----- invariant

  predicate Refers(fd: Descriptor, id: nat) { fd.backing == PipeBacking(id) }

  predicate Writes(fd: Descriptor, id: nat) { Refers(fd, id) && fd.end == Some(WriteEnd) }

  ghost predicate SomeRefers(fds: seq<Descriptor>, id: nat) { exists k :: 0 <= k < |fds| && Refers(fds[k], id) }

  ghost predicate SomeWrites(fds: seq<Descriptor>, id: nat) { exists k :: 0 <= k < |fds| && Writes(fds[k], id) }

  /** A cached content is the content the file system holds now. */
  predicate CacheFresh(fd: Descriptor, store: map<Backing, seq<u8>>) {
    fd.cache.Some? ==> fd.backing.FsBacking? && fd.backing in store && fd.cache.value == store[fd.backing]
  }

  ghost predicate FdsOk(t: Table) {
    && (forall k :: 0 <= k < |t.fds| ==> t.fds[k].num < t.nextNum && CacheFresh(t.fds[k], t.store))
    && (forall k, l :: 0 <= k < l < |t.fds| ==> t.fds[k].num != t.fds[l].num)
    && Exclusive(t.fds)
  }

  /** A virtual file is open at most once. */
  ghost predicate Exclusive(fds: seq<Descriptor>) {
    forall k, l :: 0 <= k < l < |fds| && fds[k].backing.VirtualBacking? ==> fds[l].backing != fds[k].backing
  }

  ghost predicate InUse(fds: seq<Descriptor>, b: Backing) { exists k :: 0 <= k < |fds| && fds[k].backing == b }

  /** A pipe exists while some descriptor refers to it, is closed when no writer remains, and holds what was sent and not yet read. */
  ghost predicate PipeOk(t: Table, id: nat) {
    && (id in t.pipes <==> SomeRefers(t.fds, id))
    && (id in t.pipes ==>
          && id < t.nextId && id in t.sent && id in t.got
          && (t.pipes[id].writeClosed <==> !SomeWrites(t.fds, id))
          && t.got[id] + t.pipes[id].buf == t.sent[id])
  }

  ghost predicate Inv(t: Table) { FdsOk(t) && forall id: nat {:trigger PipeOk(t, id)} :: PipeOk(t, id) }

  // ----- operations

  function IndexOf(fds: seq<Descriptor>, num: nat): (k: Option<nat>)
    ensures k.Some? ==> k.value < |fds| && fds[k.value].num == num
    ensures k.None? <==> forall i :: 0 <= i < |fds| ==> fds[i].num != num
  {
    if fds == [] then None
    else if fds[0].num == num then Some(0)
    else match IndexOf(fds[1..], num) case Some(k) => Some(k + 1) case None => None
  }

  /** Opening a file of a mounted file system; the cache starts empty. */
  function Opened(t: Table, mount: nat, relPath: string): Table {
    t.(fds := t.fds + [Descriptor(t.nextNum, FsBacking(mount, relPath), 0, None, None)], nextNum := t.nextNum + 1)
  }

  /** Opening a virtual file, unless it is open already. */
  ghost function OpenedVirtual(t: Table, file: nat): Table {
    if InUse(t.fds, VirtualBacking(file)) then t
    else t.(fds := t.fds + [Descriptor(t.nextNum, VirtualBacking(file), 0, None, None)], nextNum := t.nextNum + 1)
  }

  function PipeCreated(t: Table): Table {
    var id := t.nextId;
    var readFd := Descriptor(t.nextNum, PipeBacking(id), 0, Some(ReadEnd), None);
    var writeFd := Descriptor(t.nextNum + 1, PipeBacking(id), 0, Some(WriteEnd), None);
    Table(t.fds + [readFd] + [writeFd], t.pipes[id := PipeBuffer([], false)], t.store,
          t.sent[id := []], t.got[id := []], t.nextNum + 2, id + 1)
  }

  ghost function Closed(t: Table, k: nat): Table
    requires k < |t.fds|
  {
    var fd, rest := t.fds[k], t.fds[..k] + t.fds[k + 1..];
    if fd.backing.PipeBacking? && fd.backing.id in t.pipes then
      var id := fd.backing.id;
      if !SomeRefers(rest, id) then t.(fds := rest, pipes := t.pipes - {id})
      else if fd.end == Some(WriteEnd) && !SomeWrites(rest, id) then t.(fds := rest, pipes := t.pipes[id := t.pipes[id].(writeClosed := true)])
      else t.(fds := rest)
    else t.(fds := rest)
  }

  /** The bytes from `offset`, at most `max` of them. */
  function Slice(content: seq<u8>, offset: nat, max: nat): seq<u8> {
    var start := NatMin(offset, |content|);
    content[start..NatMin(start + max, |content|)]
  }

  datatype ReadOutcome = Data(bytes: seq<u8>) | BufferEmpty | Unreadable

  /** The bytes of a file now; a virtual file has none before the first write. */
  function Content(t: Table, b: Backing): Option<seq<u8>> {
    if b in t.store then Some(t.store[b]) else if b.VirtualBacking? then Some([]) else None
  }

  /** What a read of the file itself would return. */
  function Uncached(t: Table, fd: Descriptor, max: nat): ReadOutcome {
    match Content(t, fd.backing) case Some(c) => Data(Slice(c, fd.offset, max)) case None => Unreadable
  }

  function ReadFs(t: Table, k: nat, max: nat): (ReadOutcome, Table)
    requires k < |t.fds|
  {
    var fd := t.fds[k];
    if fd.cache.None? && Content(t, fd.backing).None? then (Unreadable, t)
    else
      var content := if fd.cache.Some? then fd.cache.value else Content(t, fd.backing).value;
      var start := NatMin(fd.offset, |content|);
      var cache := if fd.backing.FsBacking? then Some(content) else fd.cache;
      (Data(Slice(content, fd.offset, max)), t.(fds := t.fds[k := fd.(cache := cache, offset := NatMin(start + max, |content|))]))
  }

  function ReadPipe(t: Table, id: nat, max: nat): (ReadOutcome, Table)
    requires id in t.pipes && id in t.got
  {
    var p := t.pipes[id];
    if p.buf == [] then (if p.writeClosed then Data([]) else BufferEmpty, t)
    else
      var n := NatMin(max, |p.buf|);
      (Data(p.buf[..n]), t.(pipes := t.pipes[id := p.(buf := p.buf[n..])], got := t.got[id := t.got[id] + p.buf[..n]]))
  }

  /** Bytes are appended whichever end the descriptor is. */
  function WritePipe(t: Table, id: nat, data: seq<u8>): Table
    requires id in t.pipes && id in t.sent
  {
    t.(pipes := t.pipes[id := t.pipes[id].(buf := t.pipes[id].buf + data)], sent := t.sent[id := t.sent[id] + data])
  }

  function Dropped(fds: seq<Descriptor>, b: Backing): seq<Descriptor> {
    seq(|fds|, i requires 0 <= i < |fds| => if fds[i].backing == b then fds[i].(cache := None) else fds[i])
  }

  /** A write the file system accepted, leaving it with `content`: every cache of that file is dropped. */
  function WriteFs(t: Table, k: nat, len: nat, content: seq<u8>): Table
    requires k < |t.fds|
  {
    var b := t.fds[k].backing;
    var dropped := Dropped(t.fds, b);
    t.(fds := dropped[k := dropped[k].(offset := t.fds[k].offset + len)], store := t.store[b := content])
  }

  /** `data` laid over the content from `offset`; a gap before it is filled with zeros. */
  function Overlaid(content: seq<u8>, offset: nat, data: seq<u8>): (r: seq<u8>)
    ensures |r| == NatMax(|content|, offset + |data|)
    ensures forall i :: 0 <= i < |r| ==>
              r[i] == if offset <= i < offset + |data| then data[i - offset] else if i < |content| then content[i] else 0
  {
    var end := offset + |data|;
    var base := if end > |content| then content + seq(end - |content|, _ => 0) else content;
    base[..offset] + data + base[end..]
  }

  function WriteVirtual(t: Table, k: nat, data: seq<u8>): Table
    requires k < |t.fds| && t.fds[k].backing.VirtualBacking?
  {
    var fd := t.fds[k];
    t.(fds := t.fds[k := fd.(offset := fd.offset + |data|)],
       store := t.store[fd.backing := Overlaid(Content(t, fd.backing).value, fd.offset, data)])
  }

  function Sought(t: Table, k: nat, target: nat): Table
    requires k < |t.fds|
  {
    t.(fds := t.fds[k := t.fds[k].(offset := target)])
  }

  // ----- each operation keeps the invariant

  /** What a change of descriptors must leave alone for a pipe not to notice. */
  ghost predicate SameEnds(a: seq<Descriptor>, b: seq<Descriptor>) {
    |a| == |b| && forall k :: 0 <= k < |a| ==> a[k].backing == b[k].backing && a[k].end == b[k].end
  }

  lemma SameEndsSame(a: seq<Descriptor>, b: seq<Descriptor>, id: nat)
    requires SameEnds(a, b)
    ensures (SomeRefers(a, id) <==> SomeRefers(b, id)) && (SomeWrites(a, id) <==> SomeWrites(b, id))
  {
  }

  /** Changing offsets and caches leaves every pipe as it was. */
  lemma FdsOnly(t: Table, t': Table)
    requires Inv(t) && FdsOk(t') && SameEnds(t.fds, t'.fds)
    requires t'.pipes == t.pipes && t'.sent == t.sent && t'.got == t.got && t'.nextId == t.nextId
    ensures Inv(t')
  {
    forall id: nat
      ensures PipeOk(t', id)
    {
      assert PipeOk(t, id);
      SameEndsSame(t.fds, t'.fds, id);
    }
  }

  lemma SomeAfterAppend(fds: seq<Descriptor>, fd: Descriptor, id: nat)
    ensures SomeRefers(fds + [fd], id) <==> SomeRefers(fds, id) || Refers(fd, id)
    ensures SomeWrites(fds + [fd], id) <==> SomeWrites(fds, id) || Writes(fd, id)
  {
    var all := fds + [fd];
    assert all[|fds|] == fd;
    assert forall k :: 0 <= k < |fds| ==> all[k] == fds[k];
    if SomeRefers(fds, id) { var k :| 0 <= k < |fds| && Refers(fds[k], id); assert Refers(all[k], id); }
    if SomeWrites(fds, id) { var k :| 0 <= k < |fds| && Writes(fds[k], id); assert Writes(all[k], id); }
  }

  lemma OpenedKeepsInv(t: Table, mount: nat, relPath: string)
    requires Inv(t)
    ensures Inv(Opened(t, mount, relPath))
  {
    var t' := Opened(t, mount, relPath);
    forall id: nat
      ensures PipeOk(t', id)
    {
      assert PipeOk(t, id);
      SomeAfterAppend(t.fds, t'.fds[|t.fds|], id);
    }
  }

  /** A virtual file is opened with a new number unless it is open already. */
  lemma OpenedVirtualKeepsInv(t: Table, file: nat)
    requires Inv(t)
    ensures Inv(OpenedVirtual(t, file))
  {
    if !InUse(t.fds, VirtualBacking(file)) {
      var t' := OpenedVirtual(t, file);
      forall id: nat
        ensures PipeOk(t', id)
      {
        assert PipeOk(t, id);
        SomeAfterAppend(t.fds, t'.fds[|t.fds|], id);
      }
    }
  }

  lemma WriteVirtualKeepsInv(t: Table, k: nat, data: seq<u8>)
    requires Inv(t) && k < |t.fds| && t.fds[k].backing.VirtualBacking?
    ensures Inv(WriteVirtual(t, k, data))
  {
    FdsOnly(t, WriteVirtual(t, k, data));
  }

  lemma PipeCreatedKeepsInv(t: Table)
    requires Inv(t)
    ensures Inv(PipeCreated(t))
  {
    var t' := PipeCreated(t);
    var r, w := t'.fds[|t.fds|], t'.fds[|t.fds| + 1];
    forall id: nat
      ensures PipeOk(t', id)
    {
      assert PipeOk(t, id);
      SomeAfterAppend(t.fds, r, id);
      SomeAfterAppend(t.fds + [r], w, id);
    }
  }

  lemma SomeAfterRemove(fds: seq<Descriptor>, k: nat, id: nat)
    requires k < |fds|
    ensures SomeRefers(fds, id) <==> SomeRefers(fds[..k] + fds[k + 1..], id) || Refers(fds[k], id)
    ensures SomeWrites(fds, id) <==> SomeWrites(fds[..k] + fds[k + 1..], id) || Writes(fds[k], id)
  {
    assert fds == fds[..k] + [fds[k]] + fds[k + 1..];
    SomeAfterAppend(fds[..k], fds[k], id);
    SomeConcat(fds[..k] + [fds[k]], fds[k + 1..], id);
    SomeConcat(fds[..k], fds[k + 1..], id);
    hide SomeRefers, SomeWrites;
  }

  lemma SomeConcat(a: seq<Descriptor>, b: seq<Descriptor>, id: nat)
    ensures SomeRefers(a + b, id) <==> SomeRefers(a, id) || SomeRefers(b, id)
    ensures SomeWrites(a + b, id) <==> SomeWrites(a, id) || SomeWrites(b, id)
  {
    var all := a + b;
    if SomeRefers(a, id) { var k :| 0 <= k < |a| && Refers(a[k], id); assert Refers(all[k], id); }
    if SomeRefers(b, id) { var k :| 0 <= k < |b| && Refers(b[k], id); assert Refers(all[|a| + k], id); }
    if SomeWrites(a, id) { var k :| 0 <= k < |a| && Writes(a[k], id); assert Writes(all[k], id); }
    if SomeWrites(b, id) { var k :| 0 <= k < |b| && Writes(b[k], id); assert Writes(all[|a| + k], id); }
  }

  lemma FdsOkWithout(t: Table, k: nat, pipes: map<nat, PipeBuffer>)
    requires FdsOk(t) && k < |t.fds|
    ensures FdsOk(t.(fds := t.fds[..k] + t.fds[k + 1..], pipes := pipes))
  {
  }

  /** Closing keeps the pipe while anyone refers to it, and marks it when the last writer goes. */
  lemma ClosedKeepsInv(t: Table, k: nat)
    requires Inv(t) && k < |t.fds|
    ensures Inv(Closed(t, k))
  {
    var t' := Closed(t, k);
    FdsOkWithout(t, k, t'.pipes);
    forall id: nat
      ensures PipeOk(t', id)
    {
      assert PipeOk(t, id);
      SomeAfterRemove(t.fds, k, id);
      hide SomeRefers, SomeWrites, FdsOk;
    }
  }

  lemma ReadFsKeepsInv(t: Table, k: nat, max: nat)
    requires Inv(t) && k < |t.fds| && !t.fds[k].backing.PipeBacking?
    ensures Inv(ReadFs(t, k, max).1)
  {
    var t' := ReadFs(t, k, max).1;
    ReadFsFds(t, k, max);
    hide ReadFs;
    FdsOnly(t, t');
  }

  lemma ReadFsFds(t: Table, k: nat, max: nat)
    requires FdsOk(t) && k < |t.fds| && !t.fds[k].backing.PipeBacking?
    ensures var t' := ReadFs(t, k, max).1;
            && FdsOk(t') && SameEnds(t.fds, t'.fds)
            && t'.pipes == t.pipes && t'.sent == t.sent && t'.got == t.got && t'.nextId == t.nextId
  {
    hide Slice;
  }

  lemma SoughtKeepsInv(t: Table, k: nat, target: nat)
    requires Inv(t) && k < |t.fds|
    ensures Inv(Sought(t, k, target))
  {
    FdsOnly(t, Sought(t, k, target));
  }

  /** A write changes one file and drops exactly the caches that could now be wrong. */
  lemma WriteFsKeepsInv(t: Table, k: nat, len: nat, content: seq<u8>)
    requires Inv(t) && k < |t.fds| && t.fds[k].backing.FsBacking?
    ensures Inv(WriteFs(t, k, len, content))
  {
    FdsOnly(t, WriteFs(t, k, len, content));
  }

  lemma ReadPipeKeepsInv(t: Table, id: nat, max: nat)
    requires Inv(t) && id in t.pipes && id in t.got
    ensures Inv(ReadPipe(t, id, max).1)
  {
    var t' := ReadPipe(t, id, max).1;
    forall x: nat
      ensures PipeOk(t', x)
    {
      assert PipeOk(t, x);
      hide SomeRefers, SomeWrites;
    }
  }

  lemma WritePipeKeepsInv(t: Table, id: nat, data: seq<u8>)
    requires Inv(t) && id in t.pipes && id in t.sent
    ensures Inv(WritePipe(t, id, data))
  {
    var t' := WritePipe(t, id, data);
    forall x: nat
      ensures PipeOk(t', x)
    {
      assert PipeOk(t, x);
      hide SomeRefers, SomeWrites;
    }
  }

  // ----- what the reader gets

  /** A read through the cache returns what an uncached read would. */
  lemma CachedIsUncached(t: Table, k: nat, max: nat)
    requires Inv(t) && k < |t.fds| && !t.fds[k].backing.PipeBacking?
    ensures ReadFs(t, k, max).0 == Uncached(t, t.fds[k], max)
  {
  }

  /** An empty answer to a read of positive length means that no writer is left and every byte sent has been read. */
  lemma EmptyReadIsEndOfStream(t: Table, id: nat, max: nat)
    requires Inv(t) && id in t.pipes && id in t.got && id in t.sent && max > 0
    ensures ReadPipe(t, id, max).0 == Data([]) <==> !SomeWrites(t.fds, id) && t.got[id] == t.sent[id]
    ensures ReadPipe(t, id, max).0 == BufferEmpty <==> SomeWrites(t.fds, id) && t.got[id] == t.sent[id]
  {
    assert PipeOk(t, id);
    var p := t.pipes[id];
    assert p.buf == [] <==> t.got[id] == t.sent[id] by {
      assert |t.sent[id]| == |t.got[id]| + |p.buf|;
      if p.buf == [] { assert t.got[id] + p.buf == t.got[id]; }
    }
    hide SomeWrites;
  }

  // ----- runs

  datatype Op =
    | Open(mount: nat, relPath: string)
    | OpenVirtual(file: nat)
    | CreatePipe
    | Close(num: nat)
    | Read(num: nat, max: nat)
    | Write(num: nat, data: seq<u8>, accepted: Option<seq<u8>>)
    | Seek(num: nat, target: nat)

  /** One call; `accepted` is what the file system holds after a write it accepts. An unknown number changes nothing. */
  ghost function Do(t: Table, op: Op): Table
    requires Inv(t)
  {
    match op
    case Open(m, p) => Opened(t, m, p)
    case OpenVirtual(file) => OpenedVirtual(t, file)
    case CreatePipe => PipeCreated(t)
    case Close(num) =>
      (match IndexOf(t.fds, num) case None => t case Some(k) => Closed(t, k))
    case Read(num, max) =>
      (match IndexOf(t.fds, num)
       case None => t
       case Some(k) => if !t.fds[k].backing.PipeBacking? then ReadFs(t, k, max).1 else PipeOfFd(t, k); ReadPipe(t, t.fds[k].backing.id, max).1)
    case Write(num, data, accepted) =>
      (match IndexOf(t.fds, num)
       case None => t
       case Some(k) =>
         if t.fds[k].backing.FsBacking? then (if accepted.Some? then WriteFs(t, k, |data|, accepted.value) else t)
         else if t.fds[k].backing.VirtualBacking? then WriteVirtual(t, k, data)
         else PipeOfFd(t, k); WritePipe(t, t.fds[k].backing.id, data))
    case Seek(num, target) =>
      (match IndexOf(t.fds, num) case None => t case Some(k) => Sought(t, k, target))
  }

  /** The pipe of a descriptor exists. */
  lemma PipeOfFd(t: Table, k: nat)
    requires Inv(t) && k < |t.fds| && t.fds[k].backing.PipeBacking?
    ensures var id := t.fds[k].backing.id; id in t.pipes && id in t.sent && id in t.got
  {
    var id := t.fds[k].backing.id;
    assert PipeOk(t, id);
    assert Refers(t.fds[k], id);
  }

  lemma DoKeepsInv(t: Table, op: Op)
    requires Inv(t)
    ensures Inv(Do(t, op))
  {
    hide Inv, ReadFs, ReadPipe, WriteFs, WriteVirtual, WritePipe, Closed, Opened, OpenedVirtual, PipeCreated, Sought;
    match op
    case Open(m, p) => OpenedKeepsInv(t, m, p);
    case OpenVirtual(file) => OpenedVirtualKeepsInv(t, file);
    case CreatePipe => PipeCreatedKeepsInv(t);
    case Close(num) =>
      var k := IndexOf(t.fds, num);
      if k.Some? { ClosedKeepsInv(t, k.value); }
    case Read(num, max) =>
      var k := IndexOf(t.fds, num);
      if k.Some? {
        if !t.fds[k.value].backing.PipeBacking? { ReadFsKeepsInv(t, k.value, max); }
        else { PipeOfFd(t, k.value); ReadPipeKeepsInv(t, t.fds[k.value].backing.id, max); }
      }
    case Write(num, data, accepted) =>
      var k := IndexOf(t.fds, num);
      if k.Some? {
        if t.fds[k.value].backing.FsBacking? {
          if accepted.Some? { WriteFsKeepsInv(t, k.value, |data|, accepted.value); }
        } else if t.fds[k.value].backing.VirtualBacking? {
          WriteVirtualKeepsInv(t, k.value, data);
        } else { PipeOfFd(t, k.value); WritePipeKeepsInv(t, t.fds[k.value].backing.id, data); }
      }
    case Seek(num, target) =>
      var k := IndexOf(t.fds, num);
      if k.Some? { SoughtKeepsInv(t, k.value, target); }
  }

  ghost predicate Run(ts: seq<Table>, ops: seq<Op>) {
    && |ts| == |ops| + 1 && Inv(ts[0])
    && forall i :: 0 <= i < |ops| ==> Inv(ts[i]) ==> ts[i + 1] == Do(ts[i], ops[i])
  }

  /** Over every interleaving of calls: fresh caches, pipes that lose and invent nothing, and pipe records exactly while referred to. */
  lemma {:induction false} EveryRunKeepsInv(ts: seq<Table>, ops: seq<Op>, n: nat)
    requires Run(ts, ops) && n <= |ops|
    ensures Inv(ts[n])
  {
    if n > 0 {
      EveryRunKeepsInv(ts, ops, n - 1);
      hide Inv, Do;
      DoKeepsInv(ts[n - 1], ops[n - 1]);
    }
  }

  lemma EmptyInv(store: map<Backing, seq<u8>>, nextNum: nat, nextId: nat)
    ensures Inv(Table([], map[], store, map[], map[], nextNum, nextId))
  {
  }

  // ----- how long the end of a stream lasts

  /** No write end is left and every byte sent has been read: a read reports the end of the stream. */
  ghost predicate Ended(t: Table, id: nat) {
    id in t.pipes && id in t.got && id in t.sent && !SomeWrites(t.fds, id) && t.got[id] == t.sent[id]
  }

  /** The call writes bytes through a descriptor of the pipe, so through a read end once no write end is left. */
  predicate Revives(t: Table, op: Op, id: nat) {
    op.Write? && op.data != [] && IndexOf(t.fds, op.num).Some? && Refers(t.fds[IndexOf(t.fds, op.num).value], id)
  }

  /** The call changes neither which descriptors there are nor which pipes. */
  ghost predicate SamePipes(t: Table, t': Table) {
    SameEnds(t.fds, t'.fds) && t'.pipes.Keys == t.pipes.Keys && t'.nextId == t.nextId
  }

  lemma ReadSamePipes(t: Table, num: nat, max: nat)
    requires Inv(t)
    ensures SamePipes(t, Do(t, Read(num, max)))
  {
    hide Inv, IndexOf, Slice;
    var k := IndexOf(t.fds, num);
    if k.Some? && t.fds[k.value].backing.PipeBacking? { PipeOfFd(t, k.value); }
  }

  lemma WriteSamePipes(t: Table, num: nat, data: seq<u8>, accepted: Option<seq<u8>>)
    requires Inv(t)
    ensures SamePipes(t, Do(t, Write(num, data, accepted)))
  {
    hide Inv, IndexOf, Overlaid;
    var k := IndexOf(t.fds, num);
    if k.Some? && t.fds[k.value].backing.PipeBacking? { PipeOfFd(t, k.value); }
  }

  lemma SeekSamePipes(t: Table, num: nat, target: nat)
    requires Inv(t)
    ensures SamePipes(t, Do(t, Seek(num, target)))
  {
    hide Inv, IndexOf;
  }

  lemma EndsAfter(t: Table, op: Op, id: nat)
    requires Inv(t) && (op.Read? || op.Write? || op.Seek?)
    ensures SomeWrites(Do(t, op).fds, id) <==> SomeWrites(t.fds, id)
    ensures Do(t, op).pipes.Keys == t.pipes.Keys && Do(t, op).nextId == t.nextId
  {
    hide Inv, SomeWrites, Do, SameEnds;
    match op {
      case Read(num, max) => ReadSamePipes(t, num, max);
      case Write(num, data, accepted) => WriteSamePipes(t, num, data, accepted);
      case Seek(num, target) => SeekSamePipes(t, num, target);
    }
    SameEndsSame(t.fds, Do(t, op).fds, id);
  }

  /** No call brings a write end back: the pipe goes on without one, or is gone for good. */
  lemma NoNewWriter(t: Table, op: Op, id: nat)
    requires Inv(t) && id < t.nextId && !SomeWrites(t.fds, id)
    ensures !SomeWrites(Do(t, op).fds, id) && id < Do(t, op).nextId
    ensures id !in t.pipes ==> id !in Do(t, op).pipes
  {
    hide Inv, SomeWrites, SomeRefers;
    var t' := Do(t, op);
    match op
    case Open(m, p) => SomeAfterAppend(t.fds, t'.fds[|t.fds|], id);
    case OpenVirtual(file) =>
      if !InUse(t.fds, VirtualBacking(file)) { SomeAfterAppend(t.fds, t'.fds[|t.fds|], id); }
    case CreatePipe =>
      SomeAfterAppend(t.fds, t'.fds[|t.fds|], id);
      SomeAfterAppend(t.fds + [t'.fds[|t.fds|]], t'.fds[|t.fds| + 1], id);
    case Close(num) =>
      var k := IndexOf(t.fds, num);
      if k.Some? { SomeAfterRemove(t.fds, k.value, id); }
    case _ => EndsAfter(t, op, id);
  }

  /** The end of a stream outlasts every call except a non-empty write through a descriptor of the pipe. */
  lemma EndOutlasts(t: Table, op: Op, id: nat)
    requires Inv(t) && Ended(t, id) && id in Do(t, op).pipes
    ensures Ended(Do(t, op), id) <==> !Revives(t, op, id)
  {
    hide Inv, SomeWrites, SomeRefers;
    EndedIsDrained(t, id);
    NoNewWriter(t, op, id);
    match op
    case Write(num, data, accepted) => EndAfterWrite(t, num, data, accepted, id);
    case Read(num, max) => EndAfterRead(t, num, max, id);
    case Close(num) =>
    case _ =>
  }

  lemma EndAfterRead(t: Table, num: nat, max: nat, id: nat)
    requires Inv(t) && Ended(t, id) && t.pipes[id].buf == [] && !SomeWrites(Do(t, Read(num, max)).fds, id) && id in Do(t, Read(num, max)).pipes
    ensures Ended(Do(t, Read(num, max)), id)
  {
    hide Inv, SomeWrites, IndexOf, Slice;
    var k := IndexOf(t.fds, num);
    if k.Some? && t.fds[k.value].backing.PipeBacking? { PipeOfFd(t, k.value); }
  }

  lemma EndAfterWrite(t: Table, num: nat, data: seq<u8>, accepted: Option<seq<u8>>, id: nat)
    requires Inv(t) && Ended(t, id)
    requires var t' := Do(t, Write(num, data, accepted)); !SomeWrites(t'.fds, id) && id in t'.pipes
    ensures var op := Write(num, data, accepted); Ended(Do(t, op), id) <==> !Revives(t, op, id)
  {
    hide Inv, SomeWrites, Overlaid, Dropped;
    var k := IndexOf(t.fds, num);
    if k.Some? && t.fds[k.value].backing.PipeBacking? { PipeOfFd(t, k.value); }
    hide IndexOf;
    if Revives(t, Write(num, data, accepted), id) {
      assert |Do(t, Write(num, data, accepted)).sent[id]| == |t.sent[id]| + |data|;
    } else {
      assert t.sent[id] + [] == t.sent[id];
    }
  }

  lemma EndedIsDrained(t: Table, id: nat)
    requires Inv(t) && Ended(t, id)
    ensures t.pipes[id].buf == [] && id < t.nextId
  {
    assert PipeOk(t, id);
  }

  lemma RevivedStays(t: Table, op: Op, id: nat)
    requires Inv(t) && Revives(t, op, id)
    ensures id in t.pipes && id in Do(t, op).pipes
  {
    PipeOfFd(t, IndexOf(t.fds, op.num).value);
  }

  /** Over the rest of any run, the end of a stream is final, as long as the pipe lasts, if and only if no call revives it. */
  lemma {:induction false} EndIsFinalIff(ts: seq<Table>, ops: seq<Op>, a: nat, n: nat, id: nat)
    requires Run(ts, ops) && a <= n <= |ops| && Ended(ts[a], id)
    ensures (forall m :: a <= m <= n && id in ts[m].pipes ==> Ended(ts[m], id)) <==> (forall m :: a <= m < n ==> !Revives(ts[m], ops[m], id))
    ensures id < ts[n].nextId && !SomeWrites(ts[n].fds, id)
    decreases n
  {
    hide Inv, Ended, Revives, SomeWrites, Do;
    if n == a {
      EveryRunKeepsInv(ts, ops, a);
      EndedPipe(ts[a], id);
    } else {
      EndIsFinalIff(ts, ops, a, n - 1, id);
      EveryRunKeepsInv(ts, ops, n - 1);
      var t, op := ts[n - 1], ops[n - 1];
      assert ts[n] == Do(t, op);
      NoNewWriter(t, op, id);
      if Revives(t, op, id) {
        RevivedStays(t, op, id);
      }
      if id in t.pipes && id in ts[n].pipes && Ended(t, id) {
        EndOutlasts(t, op, id);
      }
    }
  }

  lemma EndedPipe(t: Table, id: nat)
    requires Inv(t) && Ended(t, id)
    ensures id < t.nextId && !SomeWrites(t.fds, id) && id in t.pipes
  {
    assert PipeOk(t, id);
  }

  // ----- a stream that ends twice

  function PipeFd(num: nat, end: PipeEnd): Descriptor { Descriptor(num, PipeBacking(0), 0, Some(end), None) }

  /** One pipe, with what was sent to it and read from it. */
  function OnePipe(fds: seq<Descriptor>, closed: bool, sent: seq<u8>, got: seq<u8>): Table
    requires got <= sent
  {
    Table(fds, map[0 := PipeBuffer(sent[|got|..], closed)], map[], map[0 := sent], map[0 := got], 5, 1)
  }

  const BothEnds: seq<Descriptor> := [PipeFd(3, ReadEnd), PipeFd(4, WriteEnd)]
  const OneEnd: seq<Descriptor> := [PipeFd(3, ReadEnd)]

  lemma MakePipe(t: Table)
    requires t == Table([], map[], map[], map[], map[], 3, 0) && Inv(t)
    ensures Do(t, CreatePipe) == OnePipe(BothEnds, false, [], [])
  {
  }

  lemma CloseWriteEnd(t: Table)
    requires t == OnePipe(BothEnds, false, [], []) && Inv(t)
    ensures Do(t, Close(4)) == OnePipe(OneEnd, true, [], [])
  {
    assert BothEnds[1..] == [PipeFd(4, WriteEnd)];
    assert IndexOf([PipeFd(4, WriteEnd)], 4) == Some(0);
    assert IndexOf(BothEnds, 4) == Some(1);
    assert BothEnds[..1] + BothEnds[2..] == OneEnd;
    assert Refers(OneEnd[0], 0) && !SomeWrites(OneEnd, 0);
  }

  lemma ReadEndIs(t: Table)
    requires t.fds == OneEnd
    ensures IndexOf(t.fds, 3) == Some(0) && t.fds[0] == PipeFd(3, ReadEnd) && Refers(t.fds[0], 0) && !SomeWrites(t.fds, 0)
  {
  }

  lemma ReadEmpty(t: Table)
    requires t == OnePipe(OneEnd, true, [], []) && Inv(t)
    ensures Do(t, Read(3, 1)) == t && ReadPipe(t, 0, 1).0 == Data([]) && Ended(t, 0)
  {
    ReadEndIs(t);
  }

  lemma WriteBack(t: Table)
    requires t == OnePipe(OneEnd, true, [], []) && Inv(t)
    ensures Do(t, Write(3, [7], None)) == OnePipe(OneEnd, true, [7], []) && Revives(t, Write(3, [7], None), 0)
  {
    ReadEndIs(t);
    assert [] + [7] == [7];
  }

  lemma ReadBack(t: Table)
    requires t == OnePipe(OneEnd, true, [7], []) && Inv(t)
    ensures Do(t, Read(3, 1)) == OnePipe(OneEnd, true, [7], [7]) && ReadPipe(t, 0, 1).0 == Data([7])
  {
    ReadEndIs(t);
    assert [7][0..] == [7] && [7][..1] == [7] && [] + [7] == [7];
  }

  /** A pipe loses its write end, reports the end of its stream, and then hands out a byte written through its read end. */
  lemma ReadEndRevives() returns (ts: seq<Table>, ops: seq<Op>)
    ensures Run(ts, ops) && |ops| == 5 && ops[2] == ops[4] == Read(3, 1) && ops[3] == Write(3, [7], None)
    ensures Ended(ts[2], 0) && 0 in ts[2].pipes && 0 in ts[2].got && ReadPipe(ts[2], 0, 1).0 == Data([])
    ensures IndexOf(ts[3].fds, 3) == Some(0) && |ts[3].fds| > 0 && ts[3].fds[0].end == Some(ReadEnd) && Revives(ts[3], ops[3], 0)
    ensures 0 in ts[4].pipes && 0 in ts[4].got && ReadPipe(ts[4], 0, 1).0 == Data([7])
  {
    hide Inv, Do, IndexOf, ReadPipe, Ended, Revives, SomeWrites;
    var t0 := Table([], map[], map[], map[], map[], 3, 0);
    var t1, t2 := OnePipe(BothEnds, false, [], []), OnePipe(OneEnd, true, [], []);
    var t4, t5 := OnePipe(OneEnd, true, [7], []), OnePipe(OneEnd, true, [7], [7]);
    EmptyInv(map[], 3, 0);
    MakePipe(t0);
    DoKeepsInv(t0, CreatePipe);
    CloseWriteEnd(t1);
    DoKeepsInv(t1, Close(4));
    ReadEmpty(t2);
    WriteBack(t2);
    DoKeepsInv(t2, Write(3, [7], None));
    ReadBack(t4);
    ReadEndIs(t2);
    ops := [CreatePipe, Close(4), Read(3, 1), Write(3, [7], None), Read(3, 1)];
    ts := [t0, t1, t2, t2, t4, t5];
    hide OnePipe;
  }
}

/**
 * The descriptor calls of the virtual file system as they run
 * (kernel/src/fs/vfs.rs).
 */
module DescriptorTable {
  import opened Basics
  import opened Descriptors

  datatype Error = ReleasedFileResource | BlockingFileResource(num: nat) | NoSuchFile | WouldBlock | NotSeekable | InvalidData

  datatype SeekFrom = Start(offset: int) | Current(offset: int) | FromEnd(offset: int)

  const MaxI64 := 0x7fff_ffff_ffff_ffff

  predicate IsI64(n: int) { -MaxI64 - 1 <= n <= MaxI64 }

  function Distance(a: int, b: int): nat { if a < b then b - a else a - b }

  /** Addition that stops at the ends of the signed 64-bit range: the number in range nearest the sum. */
  function SaturatingAdd(a: int, b: int): (r: int)
    ensures IsI64(r) && forall n: int :: IsI64(n) ==> Distance(r, a + b) <= Distance(n, a + b)
  {
    if a + b > MaxI64 then MaxI64 else if a + b < -MaxI64 - 1 then -MaxI64 - 1 else a + b
  }

  class OpenFiles {
    var fds: seq<Descriptor>
    var pipes: map<nat, PipeBuffer>
    var store: map<Backing, seq<u8>>
    var nextNum: nat
    var nextId: nat
    ghost var sent: map<nat, seq<u8>>
    ghost var got: map<nat, seq<u8>>

    ghost function T(): Table
      reads this
    {
      Table(fds, pipes, store, sent, got, nextNum, nextId)
    }

    ghost predicate Valid()
      reads this
    {
      Inv(T())
    }

    constructor (store: map<Backing, seq<u8>>)
      ensures Valid() && T() == Table([], map[], store, map[], map[], 3, 0)
    {
      fds, pipes, nextNum, nextId := [], map[], 3, 0;
      this.store := store;
      sent, got := map[], map[];
      EmptyInv(store, 3, 0);
    }

    method FileDesc(num: nat) returns (k: Option<nat>)
      ensures k == IndexOf(fds, num)
    {
      for i := 0 to |fds|
        invariant IndexOf(fds, num) == match IndexOf(fds[i..], num) case Some(j) => Some(i + j) case None => None
      {
        if fds[i].num == num {
          return Some(i);
        }
        assert fds[i..][1..] == fds[i + 1..];
      }
      return None;
    }

    method OpenFs(mount: nat, relPath: string) returns (num: nat)
      requires Valid()
      modifies this`fds, this`nextNum
      ensures Valid() && T() == Do(old(T()), Open(mount, relPath)) && num == old(nextNum) && nextNum == num + 1
    {
      DoKeepsInv(T(), Open(mount, relPath));
      hide Inv;
      num := nextNum;
      nextNum := nextNum + 1;
      fds := fds + [Descriptor(num, FsBacking(mount, relPath), 0, None, None)];
    }

    /** Opens a virtual file; one that is open already is refused with the number it is open under. */
    method OpenVirtualFile(file: nat) returns (r: Result<nat, Error>)
      requires Valid()
      modifies this`fds, this`nextNum
      ensures Valid() && T() == Do(old(T()), OpenVirtual(file))
      ensures r.Ok? <==> !InUse(old(fds), VirtualBacking(file))
      ensures r.Ok? ==> r.value == old(nextNum) && nextNum == r.value + 1
      ensures r.Err? ==> r.error.BlockingFileResource? && exists k :: 0 <= k < |fds| && fds[k].backing == VirtualBacking(file) && fds[k].num == r.error.num
    {
      DoKeepsInv(T(), OpenVirtual(file));
      hide Inv;
      for i := 0 to |fds|
        invariant forall j :: 0 <= j < i ==> fds[j].backing != VirtualBacking(file)
      {
        if fds[i].backing == VirtualBacking(file) {
          return Err(BlockingFileResource(fds[i].num));
        }
      }
      r := Ok(nextNum);
      fds := fds + [Descriptor(nextNum, VirtualBacking(file), 0, None, None)];
      nextNum := nextNum + 1;
    }

    method CreatePipe() returns (readNum: nat, writeNum: nat)
      requires Valid()
      modifies this`fds, this`pipes, this`nextNum, this`nextId, this`sent, this`got
      ensures Valid() && T() == Do(old(T()), Op.CreatePipe) && readNum == old(nextNum) && writeNum == readNum + 1 && nextNum == writeNum + 1
    {
      DoKeepsInv(T(), Op.CreatePipe);
      hide Inv;
      var id := nextId;
      nextId := nextId + 1;
      pipes := pipes[id := PipeBuffer([], false)];
      sent, got := sent[id := []], got[id := []];
      readNum, writeNum := nextNum, nextNum + 1;
      nextNum := nextNum + 2;
      fds := fds + [Descriptor(readNum, PipeBacking(id), 0, Some(ReadEnd), None)];
      fds := fds + [Descriptor(writeNum, PipeBacking(id), 0, Some(WriteEnd), None)];
    }

    method CloseFile(num: nat) returns (r: Result<(), Error>)
      requires Valid()
      modifies this`fds, this`pipes
      ensures Valid() && T() == Do(old(T()), Close(num))
      ensures r == if IndexOf(old(fds), num).Some? then Ok(()) else Err(ReleasedFileResource)
    {
      DoKeepsInv(T(), Close(num));
      hide Inv;
      var k := FileDesc(num);
      if k.None? {
        return Err(ReleasedFileResource);
      }
      ghost var t := T();
      var fd := fds[k.value];
      fds := fds[..k.value] + fds[k.value + 1..];
      if fd.backing.PipeBacking? {
        ReleasePipeEnd(fd.backing.id, fd.end);
      }
      return Ok(());
    }

    /** Counts who is left: the record goes with the last descriptor, the end of stream comes with the last writer. */
    method ReleasePipeEnd(id: nat, end: Option<PipeEnd>)
      modifies this`pipes
      ensures pipes ==
              if id !in old(pipes) then old(pipes)
              else if !SomeRefers(fds, id) then old(pipes) - {id}
              else if end == Some(WriteEnd) && !SomeWrites(fds, id) then old(pipes)[id := old(pipes)[id].(writeClosed := true)]
              else old(pipes)
    {
      if id !in pipes {
        return;
      }
      var remaining, remainingWriters := 0, 0;
      for i := 0 to |fds|
        invariant remaining >= 0 && (remaining > 0 <==> SomeRefers(fds[..i], id))
        invariant remainingWriters >= 0 && (remainingWriters > 0 <==> SomeWrites(fds[..i], id))
        invariant pipes == old(pipes)
      {
        assert fds[..i + 1] == fds[..i] + [fds[i]];
        SomeAfterAppend(fds[..i], fds[i], id);
        hide SomeRefers, SomeWrites;
        if Refers(fds[i], id) {
          remaining := remaining + 1;
          if fds[i].end == Some(WriteEnd) {
            remainingWriters := remainingWriters + 1;
          }
        }
      }
      assert fds[..|fds|] == fds;
      if remaining == 0 {
        pipes := pipes - {id};
        return;
      }
      if end == Some(WriteEnd) && remainingWriters == 0 {
        pipes := pipes[id := pipes[id].(writeClosed := true)];
      }
    }

    /** Reads through the cache of the descriptor or from the pipe; the answer is the uncached one. */
    method ReadFile(num: nat, max: nat) returns (r: Result<seq<u8>, Error>)
      requires Valid()
      modifies this`fds, this`pipes, this`got
      ensures Valid() && T() == Do(old(T()), Read(num, max))
      ensures ReadAnswer(old(T()), num, max, r)
      ensures HandedOut(old(T()), num, r, got)
    {
      ghost var t := T();
      DoKeepsInv(t, Read(num, max));
      var k := FileDesc(num);
      if k.None? {
        return Err(ReleasedFileResource);
      }
      if !fds[k.value].backing.PipeBacking? {
        hide Inv;
        r := ReadContent(k.value, max);
      } else {
        PipeOfFd(t, k.value);
        hide Inv;
        r := ReadPipeBuffer(k.value, max);
      }
    }

    method ReadContent(k: nat, max: nat) returns (r: Result<seq<u8>, Error>)
      requires Valid() && k < |fds| && !fds[k].backing.PipeBacking?
      modifies this`fds
      ensures T() == ReadFs(old(T()), k, max).1
      ensures r == match Uncached(old(T()), old(fds)[k], max) case Data(bytes) => Ok(bytes) case _ => Err(NoSuchFile)
    {
      CachedIsUncached(T(), k, max);
      hide Inv;
      var fd := fds[k];
      var content := [];
      if fd.backing.VirtualBacking? {
        if fd.backing in store {
          content := store[fd.backing];
        }
      } else {
        if fd.cache.None? {
          if fd.backing !in store {
            return Err(NoSuchFile);
          }
          fd := fd.(cache := Some(store[fd.backing]));
        }
        content := fd.cache.value;
      }
      var start := NatMin(fd.offset, |content|);
      var end := NatMin(start + max, |content|);
      fds := fds[k := fd.(offset := end)];
      return Ok(content[start..end]);
    }

    method ReadPipeBuffer(k: nat, max: nat) returns (r: Result<seq<u8>, Error>)
      requires Valid() && k < |fds| && fds[k].backing.PipeBacking?
      requires var id := fds[k].backing.id; id in pipes && id in sent && id in got
      modifies this`pipes, this`got
      ensures T() == ReadPipe(old(T()), fds[k].backing.id, max).1
      ensures PipeAnswer(old(T()), fds[k].backing.id, max, r)
      ensures var id := fds[k].backing.id; got == old(got)[id := got[id]] && got[id] == old(got)[id] + if r.Ok? then r.value else []
    {
      var id := fds[k].backing.id;
      if max > 0 { EmptyReadIsEndOfStream(T(), id, max); }
      hide Inv, SomeWrites;
      var p := pipes[id];
      if p.buf == [] {
        assert got[id] == got[id] + [];
        return if p.writeClosed then Ok([]) else Err(WouldBlock);
      }
      var len := NatMin(max, |p.buf|);
      got := got[id := got[id] + p.buf[..len]];
      pipes := pipes[id := p.(buf := p.buf[len..])];
      return Ok(p.buf[..len]);
    }

    /** `accepted` is the content the mounted file system has after the write, or nothing if it refuses. */
    method WriteFile(num: nat, data: seq<u8>, accepted: Option<seq<u8>>) returns (r: Result<(), Error>)
      requires Valid()
      modifies this`fds, this`pipes, this`store, this`sent
      ensures Valid() && T() == Do(old(T()), Write(num, data, accepted))
      ensures r.Err? ==> T() == old(T())
      ensures r == Err(ReleasedFileResource) <==> IndexOf(old(fds), num).None?
      ensures r.Ok? <==> var k := IndexOf(old(fds), num); k.Some? && (!old(fds)[k.value].backing.FsBacking? || accepted.Some?)
      ensures TakenIn(old(T()), num, data, sent)
    {
      ghost var t := T();
      DoKeepsInv(t, Write(num, data, accepted));
      var k := FileDesc(num);
      if k.None? {
        return Err(ReleasedFileResource);
      }
      if fds[k.value].backing.FsBacking? {
        hide Inv, WriteFs;
        if accepted.None? {
          return Err(NoSuchFile);
        }
        WriteMounted(k.value, |data|, accepted.value);
      } else if fds[k.value].backing.VirtualBacking? {
        hide Inv;
        WriteContent(k.value, data);
      } else {
        PipeOfFd(t, k.value);
        hide Inv;
        var id := fds[k.value].backing.id;
        sent := sent[id := sent[id] + data];
        pipes := pipes[id := pipes[id].(buf := pipes[id].buf + data)];
      }
      return Ok(());
    }

    method WriteMounted(k: nat, len: nat, content: seq<u8>)
      requires k < |fds|
      modifies this`fds, this`store
      ensures T() == WriteFs(old(T()), k, len, content)
    {
      var offset := fds[k].offset;
      store := store[fds[k].backing := content];
      DropCaches(fds[k].backing);
      fds := fds[k := fds[k].(offset := offset + len)];
    }

    /** Grows the file with zeros up to the end of what is written, then lays the bytes over it. */
    method WriteContent(k: nat, data: seq<u8>)
      requires k < |fds| && fds[k].backing.VirtualBacking?
      modifies this`fds, this`store
      ensures T() == WriteVirtual(old(T()), k, data)
    {
      hide Overlaid;
      var fd := fds[k];
      var content := if fd.backing in store then store[fd.backing] else [];
      var buf, end := content, fd.offset + |data|;
      if end > |buf| {
        buf := buf + seq(end - |buf|, _ => 0);
      }
      GrownThenLaid(content, fd.offset, data, buf);
      store := store[fd.backing := buf[..fd.offset] + data + buf[end..]];
      fds := fds[k := fd.(offset := end)];
    }

    method DropCaches(b: Backing)
      modifies this`fds
      ensures fds == Dropped(old(fds), b)
    {
      for i := 0 to |fds|
        invariant |fds| == |old(fds)|
        invariant forall j :: 0 <= j < |fds| ==>
          fds[j] == if j < i && old(fds)[j].backing == b then old(fds)[j].(cache := None) else old(fds)[j]
      {
        if fds[i].backing == b {
          fds := fds[i := fds[i].(cache := None)];
        }
      }
    }

    /** Moves the offset; it may go past the end but not before the start. */
    method SeekFile(num: nat, pos: SeekFrom) returns (r: Result<nat, Error>)
      requires Valid()
      modifies this`fds
      ensures Valid() && T() == if r.Ok? then Do(old(T()), Seek(num, r.value)) else old(T())
      ensures r.Ok? ==> IndexOf(old(fds), num).Some? && r.value == SeekTarget(old(T()), IndexOf(old(fds), num).value, pos)
      ensures r == Err(ReleasedFileResource) <==> IndexOf(old(fds), num).None?
      ensures r == Err(NotSeekable) <==> var k := IndexOf(old(fds), num); k.Some? && !Seekable(old(T()), k.value, pos)
      ensures r == Err(InvalidData) <==>
              var k := IndexOf(old(fds), num);
              k.Some? && Seekable(old(T()), k.value, pos) && SeekTarget(old(T()), k.value, pos) < 0
      ensures r.Err? ==> r.error == ReleasedFileResource || r.error == NotSeekable || r.error == InvalidData
    {
      hide SeekTarget, Seekable;
      var k := FileDesc(num);
      if k.None? {
        return Err(ReleasedFileResource);
      }
      var place := SeekPlace(k.value, pos);
      if place.Err? {
        return Err(place.error);
      }
      var target := place.value;
      if target < 0 {
        return Err(InvalidData);
      }
      DoKeepsInv(T(), Seek(num, target));
      hide Inv;
      fds := fds[k.value := fds[k.value].(offset := target)];
      return Ok(target);
    }

    method SeekPlace(k: nat, pos: SeekFrom) returns (r: Result<int, Error>)
      requires k < |fds|
      ensures r == if Seekable(T(), k, pos) then Ok(SeekTarget(T(), k, pos)) else Err(NotSeekable)
    {
      var fd := fds[k];
      match pos {
        case Start(offset) => return Ok(offset);
        case Current(offset) => return Ok(SaturatingAdd(fd.offset, offset));
        case FromEnd(offset) =>
          var size := 0;
          if fd.backing in store {
            size := |store[fd.backing]|;
          } else if !fd.backing.VirtualBacking? {
            return Err(NotSeekable);
          }
          return Ok(SaturatingAdd(size, offset));
      }
    }
  }

  /** Seeking from the end needs a size, which a pipe has not. */
  predicate Seekable(t: Table, k: nat, pos: SeekFrom)
    requires k < |t.fds|
  {
    pos.FromEnd? ==> Content(t, t.fds[k].backing).Some?
  }

  function SeekTarget(t: Table, k: nat, pos: SeekFrom): int
    requires k < |t.fds|
  {
    match pos
    case Start(offset) => offset
    case Current(offset) => SaturatingAdd(t.fds[k].offset, offset)
    case FromEnd(offset) => SaturatingAdd(match Content(t, t.fds[k].backing) case Some(c) => |c| case None => 0, offset)
  }

  /** What a read may answer: the uncached bytes, or the next bytes of the pipe, or end of stream, or nothing yet. */
  ghost predicate ReadAnswer(t: Table, num: nat, max: nat, r: Result<seq<u8>, Error>)
    requires Inv(t)
  {
    match IndexOf(t.fds, num)
    case None => r == Err(ReleasedFileResource)
    case Some(k) =>
      var fd := t.fds[k];
      if !fd.backing.PipeBacking? then
        r == match Uncached(t, fd, max) case Data(bytes) => Ok(bytes) case _ => Err(NoSuchFile)
      else
        PipeOfFd(t, k);
        PipeAnswer(t, fd.backing.id, max, r)
  }

  /** What has been read of each pipe has grown by exactly the bytes the read returned. */
  ghost predicate HandedOut(t: Table, num: nat, r: Result<seq<u8>, Error>, got: map<nat, seq<u8>>) {
    forall id :: id in t.got ==>
      && id in got
      && var k := IndexOf(t.fds, num);
         got[id] == if r.Ok? && k.Some? && Refers(t.fds[k.value], id) then t.got[id] + r.value else t.got[id]
  }

  /** What has been written to each pipe has grown by exactly the bytes of the write. */
  ghost predicate TakenIn(t: Table, num: nat, data: seq<u8>, sent: map<nat, seq<u8>>) {
    forall id :: id in t.sent ==>
      && id in sent
      && var k := IndexOf(t.fds, num);
         sent[id] == if k.Some? && Refers(t.fds[k.value], id) then t.sent[id] + data else t.sent[id]
  }

  /** Growing with zeros and then replacing a slice lays the bytes over the content. */
  lemma GrownThenLaid(content: seq<u8>, offset: nat, data: seq<u8>, grown: seq<u8>)
    requires grown == if offset + |data| > |content| then content + seq(offset + |data| - |content|, _ => 0) else content
    ensures offset + |data| <= |grown| && grown[..offset] + data + grown[offset + |data|..] == Overlaid(content, offset, data)
  {
  }

  ghost predicate PipeAnswer(t: Table, id: nat, max: nat, r: Result<seq<u8>, Error>)
    requires id in t.pipes && id in t.sent && id in t.got
  {
    && (r.Ok? ==> r.value == t.pipes[id].buf[..NatMin(max, |t.pipes[id].buf|)])
    && (r.Err? ==> r.error == WouldBlock)
    && (max > 0 ==> (r == Ok([]) <==> !SomeWrites(t.fds, id) && t.got[id] == t.sent[id]))
    && (max > 0 ==> (r == Err(WouldBlock) <==> SomeWrites(t.fds, id) && t.got[id] == t.sent[id]))
  }
}
